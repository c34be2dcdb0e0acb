/** A MEM-AP and the memory behind it, as functions of the accesses it has seen. */
module SimMemAp {
  import opened Words
  import opened SwdTarget
  import opened DapPartial

  type Byte = b: int | 0 <= b < 256

  // Register offsets.
  const CSW: Word := 0x00
  const TAR: Word := 0x04
  const TARHI: Word := 0x08
  const DRW: Word := 0x0c
  const CFG: Word := 0xf4

  const INC_SINGLE := 1

  function SizeField(csw: Word): nat {
    csw % 8
  }

  function IncField(csw: Word): nat {
    csw / 16 % 4
  }

  /** CSW with another size and address-increment mode. */
  function WithFields(csw: Word, size: nat, inc: nat): (r: Word)
    requires size < 8 && inc < 4
    ensures SizeField(r) == size && IncField(r) == inc
  {
    var high, kept := csw / 64, csw / 8 % 2;
    assert high * 64 + inc * 16 + kept * 8 + size == (high * 8 + inc * 2 + kept) * 8 + size;
    assert high * 64 + inc * 16 + kept * 8 + size == (high * 4 + inc) * 16 + (kept * 8 + size);
    high * 64 + inc * 16 + kept * 8 + size
  }

  /** Bytes moved by one data access, or by the two halves of a 64-bit one. */
  function Width(csw: Word): nat {
    match SizeField(csw)
    case 0 => 1
    case 1 => 2
    case 2 => 4
    case 3 => 8
    case _ => 0
  }

  /** Whether the first half of a 64-bit transfer has been done. */
  datatype Phase = Whole | HalfRead | HalfWritten(low: Word)

  datatype Regs = Regs(csw: Word, tar: Word, tarhi: Word, phase: Phase)

  /** One MEM-AP as found: its configuration, what it supports, its registers and the
      memory behind it. */
  datatype MemPort = MemPort(sel: Word, big: bool, large: bool, largeData: bool, sizes: nat -> bool, increments: bool,
                             start: Regs, memory: int -> Byte)

  /** The value a CSW write leaves: an unsupported size is not taken, and neither is
      an unsupported increment. */
  function TakenCsw(m: MemPort, prior: Word, value: Word): Word {
    WithFields(value, if m.sizes(SizeField(value)) then SizeField(value) else SizeField(prior),
               if m.increments || IncField(value) != INC_SINGLE then IncField(value) else 0)
  }

  /** A CSW value that the port can hold. */
  predicate Supported(m: MemPort, csw: Word) {
    m.sizes(SizeField(csw)) && (m.increments || IncField(csw) != INC_SINGLE)
  }

  lemma {:induction false} SameFields(csw: Word)
    ensures WithFields(csw, SizeField(csw), IncField(csw)) == csw
  {
    var high := csw / 64;
    assert csw == high * 64 + csw % 64 && csw / 16 == high * 4 + csw / 16 % 4;
  }

  /** A supported value is taken as it is. */
  lemma {:induction false} TakenSupported(m: MemPort, prior: Word, csw: Word)
    requires Supported(m, csw)
    ensures TakenCsw(m, prior, csw) == csw
  {
    hide WithFields, SizeField, IncField;
    SameFields(csw);
  }

  /** A port that starts with a supported CSW keeps one. */
  lemma {:induction false} StaysSupported(env: Env, m: MemPort, h: seq<ApAccess>)
    requires Supported(m, m.start.csw)
    ensures Supported(m, RegsAt(env, m, h).csw)
    decreases |h|
  {
    hide WithFields, SizeField, IncField, NextTar, PortOf;
    if h != [] {
      StaysSupported(env, m, h[..|h| - 1]);
    }
  }

  function Address(m: MemPort, r: Regs): int {
    if m.large then r.tarhi * 0x1_0000_0000 + r.tar else r.tar
  }

  /** Automatic increment wraps within 1 KiB. */
  function NextTar(tar: Word, width: nat): Word {
    tar - tar % 0x400 + (tar + width) % 0x400
  }

  predicate IsAccess(m: MemPort, a: ApAccess, addr: Word) {
    a.port == PortOf(m.sel, addr)
  }

  /** A data access that moved its bytes. */
  ghost predicate Moves(env: Env, m: MemPort, h: seq<ApAccess>) {
    h != [] && IsAccess(m, h[|h| - 1], DRW) && !env.faults(h)
  }

  function NextPhase(p: Phase, a: ApAccess): Phase {
    if !p.Whole? then Whole else if a.read then HalfRead else HalfWritten(a.data)
  }

  /** A data access that moved its bytes: 64-bit halves change the phase, and other sizes
      may advance TAR. */
  function AfterMove(r: Regs, a: ApAccess): Regs {
    if SizeField(r.csw) == 3 then r.(phase := NextPhase(r.phase, a))
    else if IncField(r.csw) == INC_SINGLE then r.(tar := NextTar(r.tar, Width(r.csw)))
    else r
  }

  /** An access that moved no data. Any CSW access ends a 64-bit transfer, and so does the
      fault of its second write. */
  function AfterAccess(m: MemPort, r: Regs, a: ApAccess): Regs {
    if IsAccess(m, a, CSW) then
      (if a.read then r else r.(csw := TakenCsw(m, r.csw, a.data))).(phase := Whole)
    else if a.read then r
    else if IsAccess(m, a, TAR) then r.(tar := a.data)
    else if IsAccess(m, a, TARHI) && m.large then r.(tarhi := a.data)
    else if IsAccess(m, a, DRW) && r.phase.HalfWritten? then r.(phase := Whole)
    else r
  }

  ghost function RegsAt(env: Env, m: MemPort, h: seq<ApAccess>): Regs
    decreases |h|
  {
    if h == [] then m.start
    else
      var r, a := RegsAt(env, m, h[..|h| - 1]), h[|h| - 1];
      if Moves(env, m, h) then AfterMove(r, a) else AfterAccess(m, r, a)
  }

  // ----- Byte lanes -----

  /** The byte in lane `i` of a data word, lane 0 being the least significant. */
  function Lane(v: Word, i: int): Byte {
    if i == 0 then v % 0x100
    else if i == 1 then v / 0x100 % 0x100
    else if i == 2 then v / 0x1_0000 % 0x100
    else v / 0x100_0000 % 0x100
  }

  /** The lane that carries address `x`. */
  function LaneOf(big: bool, x: int): int {
    if big then 3 - x % 4 else x % 4
  }

  /** Address `x` of a 64-bit access at `base` travels in the first half. */
  predicate InFirstHalf(big: bool, base: int, x: int) {
    (x - base < 4) != big
  }

  /** The last access wrote address `x`. */
  ghost predicate WritesByte(env: Env, m: MemPort, h: seq<ApAccess>, x: int) {
    && Moves(env, m, h) && !h[|h| - 1].read
    && var r := RegsAt(env, m, h[..|h| - 1]);
       && Address(m, r) <= x < Address(m, r) + Width(r.csw)
       && (SizeField(r.csw) == 3 ==> r.phase.HalfWritten?)
  }

  /** The data word that carries address `x`. */
  function CarriedBy(m: MemPort, r: Regs, a: ApAccess, x: int): Word {
    if SizeField(r.csw) == 3 && r.phase.HalfWritten? && InFirstHalf(m.big, Address(m, r), x) then r.phase.low
    else a.data
  }

  ghost function ByteAt(env: Env, m: MemPort, h: seq<ApAccess>, x: int): Byte
    decreases |h|
  {
    if h == [] then m.memory(x)
    else if WritesByte(env, m, h, x) then
      Lane(CarriedBy(m, RegsAt(env, m, h[..|h| - 1]), h[|h| - 1], x), LaneOf(m.big, x))
    else ByteAt(env, m, h[..|h| - 1], x)
  }

  /** The last access read the register at `addr`. */
  ghost predicate ReadsRegister(m: MemPort, h: seq<ApAccess>, addr: Word) {
    h != [] && h[|h| - 1] == ApAccess(PortOf(m.sel, addr), true, 0)
  }

  /** What a register read returns. */
  ghost predicate Answers(m: MemPort, r: Regs, addr: Word, value: Word) {
    && (addr == CSW ==> value == r.csw) && (addr == TAR ==> value == r.tar)
    && (addr == TARHI && m.large ==> value == r.tarhi)
    && (addr == CFG ==>
          m.big == (value % 2 == 1) && m.large == (value / 2 % 2 == 1) && m.largeData == (value / 4 % 2 == 1))
  }

  /** The access ports of `env` behave like `m` where `m` is addressed: register reads
      return the registers, and an aligned data read returns the addressed bytes in
      their lanes. The other lanes are arbitrary. */
  ghost predicate Serves(env: Env, m: MemPort) {
    && Supported(m, m.start.csw)
    && (forall h: seq<ApAccess>, addr: Word :: ReadsRegister(m, h, addr) ==>
          Answers(m, RegsAt(env, m, h), addr, env.value(h)))
    && (forall h: seq<ApAccess>, x: int :: Returns(env, m, h, x) ==>
          Lane(env.value(h), LaneOf(m.big, x)) == ByteAt(env, m, h, x))
  }

  /** The last access is a data read that returned address `x`. */
  ghost predicate Returns(env: Env, m: MemPort, h: seq<ApAccess>, x: int) {
    && Moves(env, m, h) && h[|h| - 1].read
    && var r := RegsAt(env, m, h[..|h| - 1]);
       && Width(r.csw) > 0 && Address(m, r) % Width(r.csw) == 0
       && Address(m, r) <= x < Address(m, r) + Width(r.csw)
       && (SizeField(r.csw) == 3 ==> r.phase == if InFirstHalf(m.big, Address(m, r), x) then Whole else HalfRead)
  }

  // ----- One more access -----

  lemma {:induction false} Snoc(h: seq<ApAccess>, a: ApAccess)
    ensures (h + [a])[|h|] == a && (h + [a])[..|h|] == h
  {
  }

  /** Registers are told apart by their offset. */
  lemma {:induction false} Distinct(m: MemPort, a: ApAccess, x: Word, y: Word)
    requires x < 0x100 && y < 0x100 && IsAccess(m, a, x)
    ensures IsAccess(m, a, y) <==> x == y
  {
  }

  lemma {:induction false} AfterCsw(env: Env, m: MemPort, h: seq<ApAccess>, value: Word)
    ensures var h' := h + [ApAccess(PortOf(m.sel, CSW), false, value)];
            var r := RegsAt(env, m, h);
            RegsAt(env, m, h') == r.(csw := TakenCsw(m, r.csw, value), phase := Whole)
  {
    hide TakenCsw, NextTar, PortOf;
    var a := ApAccess(PortOf(m.sel, CSW), false, value);
    Snoc(h, a);
    Distinct(m, a, CSW, DRW);
  }

  lemma {:induction false} AfterCswRead(env: Env, m: MemPort, h: seq<ApAccess>)
    ensures RegsAt(env, m, h + [ApAccess(PortOf(m.sel, CSW), true, 0)]) == RegsAt(env, m, h).(phase := Whole)
  {
    hide TakenCsw, NextTar, PortOf;
    var a := ApAccess(PortOf(m.sel, CSW), true, 0);
    Snoc(h, a);
    Distinct(m, a, CSW, DRW);
  }

  lemma {:induction false} AfterTar(env: Env, m: MemPort, h: seq<ApAccess>, value: Word)
    ensures var h' := h + [ApAccess(PortOf(m.sel, TAR), false, value)];
            RegsAt(env, m, h') == RegsAt(env, m, h).(tar := value)
  {
    hide TakenCsw, NextTar, PortOf;
    var a := ApAccess(PortOf(m.sel, TAR), false, value);
    Snoc(h, a);
    Distinct(m, a, TAR, DRW);
    Distinct(m, a, TAR, CSW);
  }

  lemma {:induction false} AfterTarhi(env: Env, m: MemPort, h: seq<ApAccess>, value: Word)
    requires m.large
    ensures var h' := h + [ApAccess(PortOf(m.sel, TARHI), false, value)];
            RegsAt(env, m, h') == RegsAt(env, m, h).(tarhi := value)
  {
    hide TakenCsw, NextTar, PortOf;
    var a := ApAccess(PortOf(m.sel, TARHI), false, value);
    Snoc(h, a);
    Distinct(m, a, TARHI, DRW);
    Distinct(m, a, TARHI, CSW);
    Distinct(m, a, TARHI, TAR);
  }

  lemma {:induction false} AfterData(env: Env, m: MemPort, h: seq<ApAccess>, read: bool, data: Word)
    ensures var a := ApAccess(PortOf(m.sel, DRW), read, data);
            var r := RegsAt(env, m, h);
            RegsAt(env, m, h + [a]) ==
              if !env.faults(h + [a]) then AfterMove(r, a)
              else if !read && r.phase.HalfWritten? then r.(phase := Whole)
              else r
  {
    hide TakenCsw, PortOf, AfterMove;
    var a := ApAccess(PortOf(m.sel, DRW), read, data);
    Snoc(h, a);
    Distinct(m, a, DRW, CSW);
    Distinct(m, a, DRW, TAR);
    Distinct(m, a, DRW, TARHI);
  }

  /** Memory changes only by a data write. */
  lemma {:induction false} MemoryStays(env: Env, m: MemPort, h: seq<ApAccess>, a: ApAccess, x: int)
    requires a.read || !IsAccess(m, a, DRW)
    ensures ByteAt(env, m, h + [a], x) == ByteAt(env, m, h, x)
  {
    hide RegsAt, LaneOf, Lane, CarriedBy;
    Snoc(h, a);
  }

  /** What a data write of at most 32 bits does to memory. */
  lemma {:induction false} MemoryWritten(env: Env, m: MemPort, h: seq<ApAccess>, data: Word, x: int)
    requires SizeField(RegsAt(env, m, h).csw) < 3
    ensures var h' := h + [ApAccess(PortOf(m.sel, DRW), false, data)];
            var r := RegsAt(env, m, h);
            ByteAt(env, m, h', x) ==
              if !env.faults(h') && Address(m, r) <= x < Address(m, r) + Width(r.csw) then Lane(data, LaneOf(m.big, x))
              else ByteAt(env, m, h, x)
  {
    hide RegsAt, LaneOf, Lane, PortOf, Address, Width;
    var a := ApAccess(PortOf(m.sel, DRW), false, data);
    Snoc(h, a);
  }
}
