/** What the executor relies on in every plan: operations are delivered in order,
    every effect has a barrier behind it, and posted data is collected at once. */
module DapPlanShape {
  import opened Options
  import opened Words
  import opened SwdTarget
  import opened DapPlan

  /** A step that leaves something to be confirmed by the next one. */
  predicate NeedsBarrier(s: Step) {
    s.f.req.ap || !s.f.req.read
  }

  predicate IsApRead(s: Step) {
    s.f.req.ap && s.f.req.read
  }

  /** A step that returns the data posted by the step before it. */
  predicate Collects(s: Step) {
    s.started && s.deliverValue && !s.settles
  }

  predicate Local(s: Step) {
    && (IsAbortWrite(s.f.req) ==> s.reg == Some(ABORT))
    && (Collects(s) ==> IsApRead(s) || s.f.req == RDBUFF_READ)
    && (s.deliverValue ==> s.deliver)
    && (s.f.req.read ==> s.f.data == 0)
    && (IsSelectWrite(s.f.req) ==> s.reg == Some(SELECT))
    && (s.reg == Some(SELECT) ==> IsSelectWrite(s.f.req))
    && (s.reg.Some? <==> !s.f.req.ap)
    && (s.reg.Some? ==> s.f.req.addr == Offset(s.reg.value))
  }

  predicate Adjacent(s: Step, next: Step) {
    && next.op == s.op + (if s.deliver then 1 else 0)
    && (NeedsBarrier(s) ==> NeverExempt(next.f.req))
    && (IsApRead(s) ==> Collects(next))
    && (Collects(next) ==> IsApRead(s))
    && (IsSelectWrite(s.f.req) ==> next.f.req == RDBUFF_READ)
  }

  /** Steps for the operations `first` to `last - 1`. */
  ghost predicate Block(steps: seq<Step>, first: nat, last: nat) {
    && (steps == [] ==> first == last)
    && (steps != [] ==>
          var z := steps[|steps| - 1];
          && steps[0].op == first && !Collects(steps[0])
          && z.deliver && z.op == last - 1 && !NeedsBarrier(z))
    && (forall j :: 0 <= j < |steps| ==> Local(steps[j]))
    && (forall j :: 0 <= j < |steps| - 1 ==> Adjacent(steps[j], steps[j + 1]))
  }

  lemma {:induction false} BlockAppend(a: seq<Step>, b: seq<Step>, first: nat, mid: nat, last: nat)
    requires Block(a, first, mid) && Block(b, mid, last)
    ensures Block(a + b, first, last)
  {
    hide Local, Adjacent, NeedsBarrier, Collects, IsApRead;
    var c := a + b;
    if a != [] && b != [] {
      var n := |a| - 1;
      AcrossBlocks(a[n], b[0]);
      forall j | 0 <= j < |c| - 1
        ensures Adjacent(c[j], c[j + 1])
      {
        if j < n {
          assert Adjacent(a[j], a[j + 1]);
        } else if j > n {
          assert Adjacent(b[j - |a|], b[j - |a| + 1]);
        }
      }
    } else {
      assert c == if a == [] then b else a;
    }
  }

  lemma {:induction false} AcrossBlocks(z: Step, s: Step)
    requires z.deliver && !NeedsBarrier(z) && s.op == z.op + 1 && !Collects(s)
    ensures Adjacent(z, s)
  {
  }

  lemma {:induction false} PrependStep(s: Step, b: seq<Step>, first: nat, last: nat)
    requires Block(b, first, last) && b != []
    requires Local(s) && !Collects(s) && s.op == first && Adjacent(s, b[0])
    ensures Block([s] + b, first, last)
  {
    hide Local, Adjacent, NeedsBarrier, Collects, IsApRead;
    var c := [s] + b;
    forall j | 0 <= j < |c| - 1
      ensures Adjacent(c[j], c[j + 1])
    {
      if j > 0 {
        assert Adjacent(b[j - 1], b[j]);
      }
    }
  }

  lemma {:induction false} PrependChoose(p: Planner, i: nat, value: Word, b: seq<Step>, last: nat)
    requires Block(b, i, last) && b != []
    ensures Block(Choose(p, i, value) + b, i, last)
  {
    hide Block;
    var settle := SettleSteps(i)[0];
    assert [] + b == b;
    if p.select != Cached(value) {
      var select := PlainStep(DpFrame(SELECT, false, value), Some(SELECT), i);
      StartsAt(b, i, last);
      PrependStep(settle, b, i, last);
      PrependStep(select, [settle] + b, i, last);
      assert Choose(p, i, value) + b == [select] + ([settle] + b);
    } else if p.pending {
      StartsAt(b, i, last);
      PrependStep(settle, b, i, last);
    }
  }

  lemma {:induction false} StartsAt(b: seq<Step>, first: nat, last: nat)
    requires Block(b, first, last) && b != []
    ensures b[0].op == first && !Collects(b[0])
  {
  }

  lemma {:induction false} DpBlock(i: nat, op: Op)
    requires (op.ReadDp? || op.WriteDp?) && ValidOp(op)
    ensures DpSteps(i, op) != [] && Block(DpSteps(i, op), i, i + 1)
  {
  }

  lemma {:induction false} ApBlock(i: nat, op: Op)
    requires op.ReadIdr? || op.ReadAp? || op.WriteAp?
    ensures Block(ApSteps(i, op), i, i + 1)
  {
  }

  lemma {:induction false} WriteStepsAt(i: nat, addr: Word, values: seq<Word>, n: nat, j: nat)
    requires j < n <= |values|
    ensures WriteSteps(i, addr, values, n)[j] ==
            PlainStep(ApFrame(addr, false, values[j]), None, i).(started := j > 0, apWrite := true, acceptWrite := true)
  {
    if j < n - 1 {
      WriteStepsAt(i, addr, values, n - 1, j);
    }
  }

  lemma {:induction false} WriteSeqBlock(i: nat, op: Op)
    requires op.WriteSeq? && op.values != []
    ensures Block(WriteSeqSteps(i, op), i, i + 1)
  {
    hide WriteSteps;
    var n := |op.values|;
    var steps := WriteSeqSteps(i, op);
    forall j | 0 <= j < n
      ensures Local(steps[j]) && Adjacent(steps[j], steps[j + 1])
    {
      WriteStepsAt(i, op.addr, op.values, n, j);
      if j < n - 1 {
        WriteStepsAt(i, op.addr, op.values, n, j + 1);
      }
    }
    WriteStepsAt(i, op.addr, op.values, n, 0);
  }

  lemma {:induction false} PostedStepsAt(i: nat, addr: Word, n: nat, j: nat)
    requires j < n
    ensures var s := PlainStep(ApFrame(addr, true, 0), None, if j == 0 then i else i + j - 1).(apRead := true);
            PostedSteps(i, addr, n)[j] == s.(deliver := j > 0, deliverValue := j > 0, started := j > 0)
  {
    if j < n - 1 {
      PostedStepsAt(i, addr, n - 1, j);
    }
  }

  lemma {:induction false} ReadSeqBlock(i: nat, addr: Word, n: nat)
    requires n > 0
    ensures Block(ReadSeqSteps(i, addr, n), i, i + n)
  {
    hide PostedSteps;
    var steps := ReadSeqSteps(i, addr, n);
    forall j | 0 <= j < n
      ensures Local(steps[j]) && Adjacent(steps[j], steps[j + 1])
    {
      PostedStepsAt(i, addr, n, j);
      if j < n - 1 {
        PostedStepsAt(i, addr, n, j + 1);
      }
    }
    PostedStepsAt(i, addr, n, 0);
  }

  lemma {:induction false} LowerBlock(p: Planner, i: nat, op: Op)
    requires ValidOp(op) && !op.ReadSeq?
    ensures Block(Lower(p, i, op), i, i + 1)
  {
    hide Block, Choose, ApSteps, DpSteps, WriteSeqSteps;
    if op.ReadDp? || op.WriteDp? {
      DpBlock(i, op);
      if Banked(op.reg) {
        PrependChoose(p, i, BankValue(p.select, BankFor(op.reg)), DpSteps(i, op), i + 1);
      }
      assert [] + DpSteps(i, op) == DpSteps(i, op);
    } else if op.WriteSeq? {
      WriteSeqBlock(i, op);
      NonEmptyBlock(WriteSeqSteps(i, op), i, i + 1);
      PrependChoose(p, i, ApSelect(op), WriteSeqSteps(i, op), i + 1);
    } else {
      ApBlock(i, op);
      PrependChoose(p, i, ApSelect(op), ApSteps(i, op), i + 1);
    }
  }

  /** Every plan has the shape the executor relies on. */
  lemma {:induction false} PlanBlock(p: Planner, ops: seq<Op>, i: nat)
    requires i <= |ops| && ValidOps(ops)
    ensures Block(Plan(p, ops, i), i, |ops|)
    decreases |ops| - i
  {
    hide Block, Choose, Lower, ReadSeqSteps, After;
    if i == |ops| {
      EmptyBlock(i);
    } else if ops[i].ReadSeq? {
      var e := GroupEnd(ops, i, i + 1);
      var body := ReadSeqSteps(i, ops[i].addr, e - i);
      ReadSeqBlock(i, ops[i].addr, e - i);
      NonEmptyBlock(body, i, e);
      PrependChoose(p, i, ApSelect(ops[i]), body, e);
      PlanBlock(After(p, ops[i]), ops, e);
      BlockAppend(Choose(p, i, ApSelect(ops[i])) + body, Plan(After(p, ops[i]), ops, e), i, e, |ops|);
    } else {
      LowerBlock(p, i, ops[i]);
      PlanBlock(After(p, ops[i]), ops, i + 1);
      BlockAppend(Lower(p, i, ops[i]), Plan(After(p, ops[i]), ops, i + 1), i, i + 1, |ops|);
    }
  }

  lemma {:induction false} EmptyBlock(i: nat)
    ensures Block([], i, i)
  {
  }

  lemma {:induction false} NonEmptyBlock(b: seq<Step>, first: nat, last: nat)
    requires Block(b, first, last) && first < last
    ensures b != []
  {
  }
}
