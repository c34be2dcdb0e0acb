/** Debug-port registers, queued operations and their lowering to physical steps. */
module DapPlan {
  import opened Options
  import opened Words
  import opened SwdTarget

  datatype DpReg = DPIDR | ABORT | CTRLSTAT | DLCR | TARGETID | DLPIDR | EVENTSTAT | SELECT | RESEND | RDBUFF

  function Offset(reg: DpReg): Word {
    match reg
    case DPIDR => 0x00
    case ABORT => 0x00
    case CTRLSTAT => 0x04
    case DLCR => 0x04
    case TARGETID => 0x04
    case DLPIDR => 0x04
    case EVENTSTAT => 0x04
    case SELECT => 0x08
    case RESEND => 0x08
    case RDBUFF => 0x0c
  }

  /** The bank of a register at 0x04; the others answer in every bank. */
  function BankFor(reg: DpReg): Word {
    match reg
    case DLCR => 1
    case TARGETID => 2
    case DLPIDR => 3
    case EVENTSTAT => 4
    case _ => 0
  }

  predicate Banked(reg: DpReg) {
    Offset(reg) == 0x04
  }

  predicate Readable(reg: DpReg) {
    !reg.ABORT? && !reg.SELECT?
  }

  predicate Writable(reg: DpReg) {
    reg.ABORT? || reg.CTRLSTAT? || reg.DLCR? || reg.SELECT?
  }

  /** One queued operation. `sel` is an ADIv5 AP selector and `addr` a complete
      register offset. A kept access belongs to a MEM-AP owner and does not
      invalidate its peers. */
  datatype Op =
    | ReadDp(reg: DpReg)
    | WriteDp(reg: DpReg, data: Word)
    | ReadIdr(sel: Word)
    | ReadAp(sel: Word, addr: Word, kept: bool)
    | WriteAp(sel: Word, addr: Word, data: Word, kept: bool)
    | ReadSeq(sel: Word, addr: Word)
    | WriteSeq(sel: Word, addr: Word, values: seq<Word>)

  const IDR: Word := 0xfc

  predicate ValidAddress(sel: Word, addr: Word) {
    sel <= 0xff && addr <= 0xff && addr % 4 == 0
  }

  predicate ValidOp(op: Op) {
    match op
    case ReadDp(reg) => Readable(reg)
    case WriteDp(reg, data) => Writable(reg)
    case ReadIdr(sel) => sel <= 0xff
    case ReadAp(sel, addr, _) => ValidAddress(sel, addr)
    case WriteAp(sel, addr, _, _) => ValidAddress(sel, addr) && addr != IDR
    case ReadSeq(sel, addr) => ValidAddress(sel, addr)
    case WriteSeq(sel, addr, values) => ValidAddress(sel, addr) && addr != IDR && values != []
  }

  /** SELECT with APSEL and APBANKSEL for one AP register, and DP bank zero. */
  function SelectFor(sel: Word, addr: Word): Word
    requires ValidAddress(sel, addr)
  {
    sel * 0x100_0000 + addr / 16 * 16
  }

  function DpFrame(reg: DpReg, read: bool, data: Word): Frame {
    Frame(Req(false, read, Offset(reg)), data)
  }

  function ApFrame(addr: Word, read: bool, data: Word): Frame {
    Frame(Req(true, read, addr % 16), data)
  }

  /** One physical request of a plan and its part in operation `op`. `deliver` ends
      the operation, with the value read when `deliverValue`; `started` means that
      an earlier step may already have taken effect; `settles` and `completes` are
      barriers of DP writes and of all writes. */
  datatype Step = Step(f: Frame, reg: Option<DpReg>, op: nat,
                       deliver: bool, deliverValue: bool, started: bool,
                       settles: bool, completes: bool,
                       apRead: bool, apWrite: bool, acceptWrite: bool, invalidates: bool)

  function PlainStep(f: Frame, reg: Option<DpReg>, op: nat): Step {
    Step(f, reg, op, false, false, false, false, false, false, false, false, false)
  }

  const BARRIER := DpFrame(RDBUFF, true, 0)

  /** The host's memory of SELECT. */
  datatype Cache = Empty | Cached(value: Word)

  /** The planner's state: the SELECT value once the steps so far have run, and
      whether that value still lacks a barrier. */
  datatype Planner = Planner(select: Cache, pending: bool)

  function SettleSteps(i: nat): seq<Step> {
    [PlainStep(BARRIER, Some(RDBUFF), i).(settles := true)]
  }

  /** Steps that make `value` the settled SELECT: none when it already is. */
  function Choose(p: Planner, i: nat, value: Word): seq<Step> {
    if p.select == Cached(value) then
      if p.pending then SettleSteps(i) else []
    else
      [PlainStep(DpFrame(SELECT, false, value), Some(SELECT), i)] + SettleSteps(i)
  }

  /** SELECT with another DP bank, keeping the AP selection if it is known. */
  function BankValue(c: Cache, bank: Word): Word
    requires bank < 16
  {
    if c.Cached? then WithBank(c.value, bank) else bank
  }

  function ChosenForDp(p: Planner, i: nat, reg: DpReg): seq<Step> {
    if Banked(reg) then Choose(p, i, BankValue(p.select, BankFor(reg))) else []
  }

  predicate AbortsAp(op: Op) {
    op.WriteDp? && op.reg.ABORT? && AbortsDap(op.data)
  }

  function DpSteps(i: nat, op: Op): seq<Step>
    requires op.ReadDp? || op.WriteDp?
  {
    if op.ReadDp? then
      [PlainStep(DpFrame(op.reg, true, 0), Some(op.reg), i).(deliver := true, deliverValue := true)]
    else
      [PlainStep(DpFrame(op.reg, false, op.data), Some(op.reg), i).(invalidates := AbortsAp(op)),
       PlainStep(BARRIER, Some(RDBUFF), i).(deliver := true, started := true, settles := true, completes := true,
                                            invalidates := AbortsAp(op))]
  }

  function ApSteps(i: nat, op: Op): seq<Step>
    requires op.ReadIdr? || op.ReadAp? || op.WriteAp?
  {
    var read := !op.WriteAp?;
    var addr := if op.ReadIdr? then IDR else op.addr;
    var invalidates := !op.ReadIdr? && !op.kept;
    [PlainStep(ApFrame(addr, read, if read then 0 else op.data), None, i)
       .(apRead := op.ReadAp?, apWrite := op.WriteAp?, invalidates := invalidates),
     PlainStep(BARRIER, Some(RDBUFF), i)
       .(deliver := true, deliverValue := read, started := true, completes := op.WriteAp?,
         apRead := op.ReadAp?, apWrite := op.WriteAp?, invalidates := invalidates)]
  }

  /** The first `n` writes of a sequence, before its barrier. */
  function WriteSteps(i: nat, addr: Word, values: seq<Word>, n: nat): (s: seq<Step>)
    requires n <= |values|
    ensures |s| == n
  {
    if n == 0 then []
    else
      WriteSteps(i, addr, values, n - 1) +
      [PlainStep(ApFrame(addr, false, values[n - 1]), None, i)
         .(started := n > 1, apWrite := true, acceptWrite := true)]
  }

  function WriteSeqSteps(i: nat, op: Op): seq<Step>
    requires op.WriteSeq?
  {
    WriteSteps(i, op.addr, op.values, |op.values|) +
    [PlainStep(BARRIER, Some(RDBUFF), i).(deliver := true, started := true, completes := true, apWrite := true)]
  }

  /** `n` posted reads: each after the first also delivers the one before it. */
  function PostedSteps(i: nat, addr: Word, n: nat): (s: seq<Step>)
    ensures |s| == n
  {
    if n == 0 then []
    else if n == 1 then
      [PlainStep(ApFrame(addr, true, 0), None, i).(apRead := true)]
    else
      PostedSteps(i, addr, n - 1) +
      [PlainStep(ApFrame(addr, true, 0), None, i + n - 2)
         .(deliver := true, deliverValue := true, started := true, apRead := true)]
  }

  function ReadSeqSteps(i: nat, addr: Word, n: nat): seq<Step>
    requires n > 0
  {
    PostedSteps(i, addr, n) +
    [PlainStep(BARRIER, Some(RDBUFF), i + n - 1)
       .(deliver := true, deliverValue := true, started := true, apRead := true)]
  }

  /** SELECT an AP operation needs. */
  function ApSelect(op: Op): Word
    requires !op.ReadDp? && !op.WriteDp? && ValidOp(op)
  {
    if op.ReadIdr? then SelectFor(op.sel, IDR) else SelectFor(op.sel, op.addr)
  }

  /** The steps of one operation other than a posted read. */
  function Lower(p: Planner, i: nat, op: Op): seq<Step>
    requires ValidOp(op) && !op.ReadSeq?
  {
    if op.ReadDp? || op.WriteDp? then ChosenForDp(p, i, op.reg) + DpSteps(i, op)
    else Choose(p, i, ApSelect(op)) + (if op.WriteSeq? then WriteSeqSteps(i, op) else ApSteps(i, op))
  }

  /** The planner after one operation. */
  function After(p: Planner, op: Op): Planner
    requires ValidOp(op)
  {
    match op
    case ReadDp(reg) =>
      if Banked(reg) then Planner(Cached(BankValue(p.select, BankFor(reg))), false)
      else if p.pending && !reg.DPIDR? then p.(pending := false)
      else p
    case WriteDp(reg, data) =>
      if reg.SELECT? then Planner(Cached(data), false)
      else if reg.ABORT? && p.pending then Planner(Empty, false)
      else if Banked(reg) then Planner(Cached(BankValue(p.select, BankFor(reg))), false)
      else p.(pending := false)
    case _ => Planner(Cached(ApSelect(op)), false)
  }

  /** Where the run of posted reads like `ops[i]` ends. */
  function GroupEnd(ops: seq<Op>, i: nat, e: nat): (r: nat)
    requires i < e <= |ops| && ops[i].ReadSeq?
    requires forall j :: i <= j < e ==> ops[j] == ops[i]
    ensures e <= r <= |ops|
    ensures forall j :: i <= j < r ==> ops[j] == ops[i]
    decreases |ops| - e
  {
    if e < |ops| && ops[e] == ops[i] then GroupEnd(ops, i, e + 1) else e
  }

  ghost predicate ValidOps(ops: seq<Op>) {
    forall i :: 0 <= i < |ops| ==> ValidOp(ops[i])
  }

  /** The steps for `ops[i..]`. */
  function Plan(p: Planner, ops: seq<Op>, i: nat): seq<Step>
    requires i <= |ops| && forall j :: 0 <= j < |ops| ==> ValidOp(ops[j])
    decreases |ops| - i
  {
    if i == |ops| then []
    else if ops[i].ReadSeq? then
      var e := GroupEnd(ops, i, i + 1);
      Choose(p, i, ApSelect(ops[i])) + ReadSeqSteps(i, ops[i].addr, e - i) + Plan(After(p, ops[i]), ops, e)
    else
      Lower(p, i, ops[i]) + Plan(After(p, ops[i]), ops, i + 1)
  }
}
