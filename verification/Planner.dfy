/** The planner object, which appends steps while it tracks SELECT. */
module DapPlanner {
  import opened Options
  import opened Words
  import opened SwdTarget
  import opened DapPlan

  class SwdTxnPlanner {
    var select: Cache
    var pending: bool
    var steps: seq<Step>

    constructor (select: Cache, pending: bool)
      ensures Now() == Planner(select, pending) && steps == []
    {
      this.select := select;
      this.pending := pending;
      steps := [];
    }

    ghost function Now(): Planner
      reads this
    {
      Planner(select, pending)
    }

    method SelectValue(i: nat, value: Word)
      modifies this
      ensures select == Cached(value)
      ensures old(select) == Cached(value) ==> steps == old(steps) && pending == old(pending)
      ensures old(select) != Cached(value) ==>
                steps == old(steps) + [PlainStep(DpFrame(SELECT, false, value), Some(SELECT), i)] && pending
    {
      if select != Cached(value) {
        steps := steps + [PlainStep(DpFrame(SELECT, false, value), Some(SELECT), i)];
        select, pending := Cached(value), true;
      }
    }

    method SettleSelect(i: nat)
      modifies this
      ensures select == old(select) && !pending
      ensures steps == old(steps) + if old(pending) then SettleSteps(i) else []
    {
      if pending {
        steps := steps + [PlainStep(BARRIER, Some(RDBUFF), i).(settles := true)];
        pending := false;
      }
    }

    /** Makes `value` the settled SELECT, with no step when it already is. */
    method Settle(i: nat, value: Word)
      modifies this
      ensures steps == old(steps) + Choose(old(Now()), i, value)
      ensures Now() == Planner(Cached(value), false)
    {
      SelectValue(i, value);
      SettleSelect(i);
    }

    method LowerDp(i: nat, op: Op)
      requires ValidOp(op) && (op.ReadDp? || op.WriteDp?)
      modifies this
      ensures steps == old(steps) + Lower(old(Now()), i, op)
      ensures Now() == After(old(Now()), op)
    {
      hide Choose, BankValue;
      if Banked(op.reg) {
        Settle(i, BankValue(select, BankFor(op.reg)));
      }
      assert steps == old(steps) + ChosenForDp(old(Now()), i, op.reg);
      var read := op.ReadDp?;
      steps := steps + [PlainStep(DpFrame(op.reg, read, if read then 0 else op.data), Some(op.reg), i)
                          .(deliver := read, deliverValue := read, invalidates := AbortsAp(op))];
      if op.WriteDp? && op.reg.SELECT? {
        select, pending := Cached(op.data), true;
      }
      if op.WriteDp? && op.reg.ABORT? && pending {
        select, pending := Empty, false;
      }
      if pending && SettlesSelect(op.reg, read) {
        pending := false;
      }
      if op.WriteDp? {
        steps := steps + [PlainStep(BARRIER, Some(RDBUFF), i)
                            .(deliver := true, started := true, settles := true, completes := true,
                              invalidates := AbortsAp(op))];
        pending := false;
      }
    }

    method LowerAp(i: nat, op: Op)
      requires ValidOp(op) && (op.ReadIdr? || op.ReadAp? || op.WriteAp?)
      modifies this
      ensures steps == old(steps) + Lower(old(Now()), i, op)
      ensures Now() == After(old(Now()), op)
    {
      hide Choose, SelectFor;
      Settle(i, ApSelect(op));
      var read := !op.WriteAp?;
      var addr := if op.ReadIdr? then IDR else op.addr;
      var access := PlainStep(ApFrame(addr, read, if read then 0 else op.data), None, i)
                      .(apRead := op.ReadAp?, apWrite := op.WriteAp?, invalidates := !op.ReadIdr? && !op.kept);
      steps := steps + [access];
      steps := steps + [access.(f := BARRIER, reg := Some(RDBUFF), deliver := true, deliverValue := read,
                                started := true, completes := op.WriteAp?)];
    }

    method LowerWriteSequence(i: nat, op: Op)
      requires ValidOp(op) && op.WriteSeq?
      modifies this
      ensures steps == old(steps) + Lower(old(Now()), i, op)
      ensures Now() == After(old(Now()), op)
    {
      hide Choose, SelectFor;
      Settle(i, ApSelect(op));
      ghost var before := steps;
      for n := 0 to |op.values|
        invariant steps == before + WriteSteps(i, op.addr, op.values, n)
        invariant Now() == Planner(Cached(ApSelect(op)), false)
      {
        steps := steps + [PlainStep(ApFrame(op.addr, false, op.values[n]), None, i)
                            .(started := n > 0, apWrite := true, acceptWrite := true)];
      }
      steps := steps + [PlainStep(BARRIER, Some(RDBUFF), i)
                          .(deliver := true, started := true, completes := true, apWrite := true)];
    }

    /** A run of posted reads of one register, `ops[start..end]`. */
    method LowerSequential(start: nat, end: nat, op: Op)
      requires ValidOp(op) && op.ReadSeq? && start < end
      modifies this
      ensures steps == old(steps) + (Choose(old(Now()), start, ApSelect(op)) +
                                     ReadSeqSteps(start, op.addr, end - start))
      ensures Now() == After(old(Now()), op)
    {
      hide Choose, SelectFor;
      Settle(start, ApSelect(op));
      ghost var before := steps;
      for n := 0 to end - start
        invariant steps == before + PostedSteps(start, op.addr, n)
        invariant Now() == Planner(Cached(ApSelect(op)), false)
      {
        var later := n > 0;
        steps := steps + [PlainStep(ApFrame(op.addr, true, 0), None, if later then start + n - 1 else start)
                            .(deliver := later, deliverValue := later, started := later, apRead := true)];
      }
      steps := steps + [PlainStep(BARRIER, Some(RDBUFF), end - 1)
                          .(deliver := true, deliverValue := true, started := true, apRead := true)];
    }

    method LowerOp(i: nat, op: Op)
      requires ValidOp(op) && !op.ReadSeq?
      modifies this
      ensures steps == old(steps) + Lower(old(Now()), i, op)
      ensures Now() == After(old(Now()), op)
    {
      if op.ReadDp? || op.WriteDp? {
        LowerDp(i, op);
      } else if op.WriteSeq? {
        LowerWriteSequence(i, op);
      } else {
        LowerAp(i, op);
      }
    }

    /** Lowers the whole queue. */
    method PlanAll(ops: seq<Op>)
      requires ValidOps(ops)
      modifies this
      ensures steps == old(steps) + Plan(old(Now()), ops, 0)
    {
      hide Lower, Choose, ReadSeqSteps, After;
      var i := 0;
      while i < |ops|
        invariant i <= |ops|
        invariant steps + Plan(Now(), ops, i) == old(steps) + Plan(old(Now()), ops, 0)
      {
        ghost var done, p := steps, Now();
        if !ops[i].ReadSeq? {
          LowerOp(i, ops[i]);
          Extend(done, Lower(p, i, ops[i]), Plan(Now(), ops, i + 1));
          i := i + 1;
        } else {
          var end := i + 1;
          while end < |ops| && ops[end] == ops[i]
            invariant i < end <= |ops| && forall j :: i <= j < end ==> ops[j] == ops[i]
            invariant GroupEnd(ops, i, end) == GroupEnd(ops, i, i + 1)
          {
            end := end + 1;
          }
          LowerSequential(i, end, ops[i]);
          Extend(done, Choose(p, i, ApSelect(ops[i])) + ReadSeqSteps(i, ops[i].addr, end - i), Plan(Now(), ops, end));
          i := end;
        }
      }
    }
  }

  /** Whether a request proves the SELECT write before it, in the planner's view. */
  predicate SettlesSelect(reg: DpReg, read: bool) {
    if Offset(reg) == 0x0c then true
    else if read then !reg.DPIDR?
    else !reg.ABORT? && !reg.SELECT?
  }

  lemma {:induction false} Extend(a: seq<Step>, b: seq<Step>, c: seq<Step>)
    ensures (a + b) + c == a + (b + c)
  {
  }
}
