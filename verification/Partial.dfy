/** What a plan has done when it is cut short: which accesses the ports have seen, and
    what the delivered values mean. */
module DapPartial {
  import opened Options
  import opened Words
  import opened SwdTarget
  import opened DapPlan
  import opened DapPlanShape
  import opened DapMeaning
  import opened DapExec

  // ----- The accesses of a queue -----

  function PortOf(sel: Word, addr: Word): int {
    sel * 0x100_0000 + addr
  }

  function WritesOf(sel: Word, addr: Word, values: seq<Word>, n: nat): (s: seq<ApAccess>)
    requires n <= |values|
    ensures |s| == n
  {
    if n == 0 then [] else WritesOf(sel, addr, values, n - 1) + [ApAccess(PortOf(sel, addr), false, values[n - 1])]
  }

  function AccessOf(op: Op): seq<ApAccess> {
    match op
    case ReadDp(_) => []
    case WriteDp(_, _) => []
    case ReadIdr(sel) => [ApAccess(PortOf(sel, IDR), true, 0)]
    case ReadAp(sel, addr, _) => [ApAccess(PortOf(sel, addr), true, 0)]
    case WriteAp(sel, addr, data, _) => [ApAccess(PortOf(sel, addr), false, data)]
    case ReadSeq(sel, addr) => [ApAccess(PortOf(sel, addr), true, 0)]
    case WriteSeq(sel, addr, values) => WritesOf(sel, addr, values, |values|)
  }

  /** What the access ports see of the operations from `i` to `j - 1`. */
  function Seen(ops: seq<Op>, i: nat, j: nat): seq<ApAccess>
    requires i <= j <= |ops|
    decreases j
  {
    if i == j then [] else Seen(ops, i, j - 1) + AccessOf(ops[j - 1])
  }

  lemma {:induction false} SeenSplit(ops: seq<Op>, i: nat, e: nat, j: nat)
    requires i <= e <= j <= |ops|
    ensures Seen(ops, i, j) == Seen(ops, i, e) + Seen(ops, e, j)
    decreases j
  {
    hide AccessOf;
    if e < j {
      SeenSplit(ops, i, e, j - 1);
    }
  }

  /** `h` continues `h0` with the first accesses of `s`. */
  ghost predicate Partly(h0: seq<ApAccess>, s: seq<ApAccess>, h: seq<ApAccess>) {
    h0 <= h <= h0 + s
  }

  lemma {:induction false} PartlyMore(h0: seq<ApAccess>, a: seq<ApAccess>, b: seq<ApAccess>, h: seq<ApAccess>)
    requires Partly(h0, a, h) || Partly(h0 + a, b, h)
    ensures Partly(h0, a + b, h)
  {
    assert h0 + (a + b) == (h0 + a) + b;
  }

  // ----- Steps and accesses -----

  lemma {:induction false} AimedPort(sel: Word, addr: Word)
    requires ValidAddress(sel, addr)
    ensures Port(SelectFor(sel, addr), addr % 16) == PortOf(sel, addr)
  {
    var high := addr / 16;
    assert high < 16 && SelectFor(sel, addr) == sel * 0x100_0000 + high * 16;
    assert (sel * 0x100_0000 + high * 16) / 0x100_0000 == sel;
    assert (sel * 0x100_0000 + high * 16) / 16 == sel * 0x10_0000 + high;
  }

  /** One AP access with SELECT right. */
  lemma {:induction false} AccessHist(env: Env, t: Target, sel: Word, addr: Word, read: bool, data: Word)
    requires ValidAddress(sel, addr) && t.select == SelectFor(sel, addr)
    ensures var u := Apply(env, t, ApFrame(addr, read, data));
            u.hist == t.hist + [ApAccess(PortOf(sel, addr), read, if read then 0 else data)] && u.select == t.select
  {
    hide SelectFor, Port, PortOf;
    AimedPort(sel, addr);
  }

  /** Selecting shows nothing to the ports. */
  lemma {:induction false} ChooseHist(env: Env, t: Target, c: Cache, i: nat, value: Word, k: nat)
    requires c.Cached? ==> t.select == c.value
    requires k <= |Choose(Planner(c, false), i, value)|
    ensures Exec(env, t, Frames(Choose(Planner(c, false), i, value)), k).hist == t.hist
    ensures k == |Choose(Planner(c, false), i, value)| ==>
              Exec(env, t, Frames(Choose(Planner(c, false), i, value)), k).select == value
  {
    var steps := Choose(Planner(c, false), i, value);
    ExecNone(env, t, Frames(steps));
    if c != Cached(value) {
      assert Exec(env, t, Frames(steps), 1) == Apply(env, t, steps[0].f);
    }
  }

  lemma {:induction false} WritesHist(env: Env, t: Target, i: nat, sel: Word, addr: Word, values: seq<Word>, n: nat,
                                      k: nat)
    requires ValidAddress(sel, addr) && k <= n <= |values| && t.select == SelectFor(sel, addr)
    ensures var u := Exec(env, t, Frames(WriteSteps(i, addr, values, n)), k);
            u.hist == t.hist + WritesOf(sel, addr, values, k) && u.select == t.select
  {
    hide Apply, SelectFor, WriteSteps, PortOf;
    var steps := WriteSteps(i, addr, values, n);
    if k > 0 {
      WritesHist(env, t, i, sel, addr, values, n, k - 1);
      WriteStepsAt(i, addr, values, n, k - 1);
      AccessHist(env, Exec(env, t, Frames(steps), k - 1), sel, addr, false, values[k - 1]);
    }
  }

  lemma {:induction false} PostedHist(env: Env, t: Target, i: nat, ops: seq<Op>, n: nat, k: nat)
    requires ValidOps(ops) && 0 < n && i + n <= |ops| && k <= n && ops[i].ReadSeq?
    requires forall j :: i <= j < i + n ==> ops[j] == ops[i]
    requires t.select == ApSelect(ops[i])
    ensures var u := Exec(env, t, Frames(PostedSteps(i, ops[i].addr, n)), k);
            u.hist == t.hist + Seen(ops, i, i + k) && u.select == t.select
  {
    hide Apply, SelectFor, PostedSteps, PortOf;
    var steps := PostedSteps(i, ops[i].addr, n);
    if k > 0 {
      PostedHist(env, t, i, ops, n, k - 1);
      PostedStepsAt(i, ops[i].addr, n, k - 1);
      AccessHist(env, Exec(env, t, Frames(steps), k - 1), ops[i].sel, ops[i].addr, true, 0);
      assert ops[i + k - 1] == ops[i];
    }
  }

  lemma {:induction false} BarrierHist(env: Env, t: Target, s: Step)
    requires s.f.req == RDBUFF_READ
    ensures Apply(env, t, s.f).hist == t.hist && Apply(env, t, s.f).select == t.select
  {
  }

  /** A list of accesses and its barrier: `h` gives the history after each of them. */
  lemma {:induction false} WithBarrier(env: Env, t: Target, steps: seq<Step>, z: Step, k: nat)
    requires z.f.req == RDBUFF_READ && k <= |steps| + 1
    ensures var m := if k <= |steps| then k else |steps|;
            var u, v := Exec(env, t, Frames(steps + [z]), k), Exec(env, t, Frames(steps), m);
            u.hist == v.hist && u.select == v.select
  {
    hide Apply;
    assert Frames(steps + [z]) == Frames(steps) + Frames([z]);
    if k <= |steps| {
      ExecPrefix(env, t, Frames(steps), Frames([z]), k);
    } else {
      ExecPrefix(env, t, Frames(steps), Frames([z]), |steps|);
      assert (steps + [z])[|steps|] == z;
      BarrierHist(env, Exec(env, t, Frames(steps), |steps|), z);
    }
  }

  /** Selecting, then the body of an AP operation. */
  lemma {:induction false} AfterChoose(env: Env, t: Target, c: Cache, i: nat, value: Word, body: seq<Step>, k: nat)
    requires c.Cached? ==> t.select == c.value
    requires k <= |Choose(Planner(c, false), i, value)| + |body|
    ensures var choose := Choose(Planner(c, false), i, value);
            var s := Run(env, t, choose);
            && s.hist == t.hist && s.select == value
            && (k <= |choose| ==> Exec(env, t, Frames(choose + body), k).hist == t.hist)
            && (k > |choose| ==> Exec(env, t, Frames(choose + body), k) == Exec(env, s, Frames(body), k - |choose|))
  {
    hide Exec, Choose;
    var choose := Choose(Planner(c, false), i, value);
    assert Frames(choose + body) == Frames(choose) + Frames(body);
    ChooseHist(env, t, c, i, value, |choose|);
    if k <= |choose| {
      ChooseHist(env, t, c, i, value, k);
      ExecPrefix(env, t, Frames(choose), Frames(body), k);
    } else {
      ExecConcat(env, t, Frames(choose), Frames(body), k - |choose|);
    }
  }

  /** The cache describes the target. */
  ghost predicate Right(c: Cache, t: Target) {
    c.Cached? ==> t.select == c.value
  }

  lemma {:induction false} ApHist(env: Env, t: Target, c: Cache, i: nat, op: Op, k: nat)
    requires ValidOp(op) && (op.ReadIdr? || op.ReadAp? || op.WriteAp?) && Right(c, t)
    requires k <= |Lower(Planner(c, false), i, op)|
    ensures var n := |Lower(Planner(c, false), i, op)|;
            var u := Exec(env, t, Frames(Lower(Planner(c, false), i, op)), k);
            && Partly(t.hist, AccessOf(op), u.hist)
            && (k >= n - 1 ==> u.hist == t.hist + AccessOf(op))
            && (k == n ==> u.select == ApSelect(op))
  {
    hide Apply, SelectFor, Choose, PortOf;
    var value, body := ApSelect(op), ApSteps(i, op);
    var choose := Choose(Planner(c, false), i, value);
    AfterChoose(env, t, c, i, value, body, k);
    if k > |choose| {
      var s := Run(env, t, choose);
      assert body == [body[0]] + [body[1]];
      WithBarrier(env, s, [body[0]], body[1], k - |choose|);
      assert Exec(env, s, Frames([body[0]]), 0) == s;
      assert Exec(env, s, Frames([body[0]]), 1) == Apply(env, s, body[0].f);
      var addr := if op.ReadIdr? then IDR else op.addr;
      AccessHist(env, s, op.sel, addr, !op.WriteAp?, if op.WriteAp? then op.data else 0);
    }
  }

  lemma {:induction false} WriteSeqHist(env: Env, t: Target, c: Cache, i: nat, op: Op, k: nat)
    requires ValidOp(op) && op.WriteSeq? && Right(c, t)
    requires k <= |Lower(Planner(c, false), i, op)|
    ensures var n := |Lower(Planner(c, false), i, op)|;
            var u := Exec(env, t, Frames(Lower(Planner(c, false), i, op)), k);
            && n == |Choose(Planner(c, false), i, ApSelect(op))| + |op.values| + 1
            && Partly(t.hist, AccessOf(op), u.hist)
            && (k >= n - 1 ==> u.hist == t.hist + AccessOf(op))
            && (k == n ==> u.select == ApSelect(op))
  {
    hide Exec, SelectFor, Choose, WriteSteps, WritesOf;
    var value, body, writes := ApSelect(op), WriteSeqSteps(i, op), WriteSteps(i, op.addr, op.values, |op.values|);
    var choose := Choose(Planner(c, false), i, value);
    AfterChoose(env, t, c, i, value, body, k);
    if k > |choose| {
      var s, p := Run(env, t, choose), k - |choose|;
      assert body == writes + [body[|op.values|]];
      WithBarrier(env, s, writes, body[|op.values|], p);
      var m := if p <= |writes| then p else |writes|;
      WritesHist(env, s, i, op.sel, op.addr, op.values, |op.values|, m);
      WritesPrefix(op.sel, op.addr, op.values, |op.values|, m);
    }
  }

  lemma {:induction false} WritesPrefix(sel: Word, addr: Word, values: seq<Word>, n: nat, m: nat)
    requires m <= n <= |values|
    ensures WritesOf(sel, addr, values, n)[..m] == WritesOf(sel, addr, values, m)
    ensures WritesOf(sel, addr, values, m) <= WritesOf(sel, addr, values, n)
  {
    if m < n {
      WritesPrefix(sel, addr, values, n - 1, m);
    }
  }

  lemma {:induction false} DpStepHist(env: Env, t: Target, s: Step)
    requires !s.f.req.ap
    ensures var u := Apply(env, t, s.f);
            u.hist == t.hist && u.select == (if IsSelectWrite(s.f.req) then s.f.data else t.select)
  {
  }

  lemma {:induction false} DpHistory(env: Env, t: Target, c: Cache, i: nat, op: Op, k: nat)
    requires ValidOp(op) && (op.ReadDp? || op.WriteDp?) && Right(c, t)
    requires k <= |Lower(Planner(c, false), i, op)|
    ensures var n := |Lower(Planner(c, false), i, op)|;
            var u := Exec(env, t, Frames(Lower(Planner(c, false), i, op)), k);
            u.hist == t.hist && (k == n ==> Right(After(Planner(c, false), op).select, u))
  {
    hide Apply, Choose, BankValue, Exec;
    var choose, body := ChosenForDp(Planner(c, false), i, op.reg), DpSteps(i, op);
    if Banked(op.reg) {
      AfterChoose(env, t, c, i, BankValue(c, BankFor(op.reg)), body, k);
      if k > |choose| {
        DpBody(env, Run(env, t, choose), i, op, k - |choose|);
      }
    } else {
      assert choose + body == body;
      DpBody(env, t, i, op, k);
    }
  }

  lemma {:induction false} DpBody(env: Env, t: Target, i: nat, op: Op, k: nat)
    requires ValidOp(op) && (op.ReadDp? || op.WriteDp?) && k <= |DpSteps(i, op)|
    ensures var u := Exec(env, t, Frames(DpSteps(i, op)), k);
            && u.hist == t.hist
            && (k == |DpSteps(i, op)| ==> u.select == if op.WriteDp? && op.reg.SELECT? then op.data else t.select)
  {
    hide Apply;
    var body := DpSteps(i, op);
    ExecNone(env, t, Frames(body));
    DpStepHist(env, t, body[0]);
    assert k > 0 ==> Exec(env, t, Frames(body), 1) == Apply(env, t, body[0].f);
    if k > 1 {
      DpStepHist(env, Exec(env, t, Frames(body), 1), body[1]);
    }
  }

  lemma {:induction false} GroupHist(env: Env, t: Target, c: Cache, ops: seq<Op>, i: nat, e: nat, k: nat)
    requires ValidOps(ops) && i < e <= |ops| && ops[i].ReadSeq? && Right(c, t)
    requires forall j :: i <= j < e ==> ops[j] == ops[i]
    requires k <= |Choose(Planner(c, false), i, ApSelect(ops[i]))| + |ReadSeqSteps(i, ops[i].addr, e - i)|
    ensures var a := Choose(Planner(c, false), i, ApSelect(ops[i])) + ReadSeqSteps(i, ops[i].addr, e - i);
            var u := Exec(env, t, Frames(a), k);
            && Partly(t.hist, Seen(ops, i, e), u.hist)
            && (k >= |a| - 1 ==> u.hist == t.hist + Seen(ops, i, e))
            && (k == |a| ==> u.select == ApSelect(ops[i]))
  {
    hide Exec, SelectFor, Choose, PostedSteps, Seen;
    var value, n := ApSelect(ops[i]), e - i;
    var body, posted := ReadSeqSteps(i, ops[i].addr, n), PostedSteps(i, ops[i].addr, n);
    var choose := Choose(Planner(c, false), i, value);
    AfterChoose(env, t, c, i, value, body, k);
    if k > |choose| {
      var s, p := Run(env, t, choose), k - |choose|;
      assert body == posted + [body[n]];
      WithBarrier(env, s, posted, body[n], p);
      var m := if p <= n then p else n;
      PostedHist(env, s, i, ops, n, m);
      SeenSplit(ops, i, i + m, e);
    }
  }

  /** Every prefix of a plan shows the ports a prefix of the queue's accesses; the whole
      plan, and already the plan without its last barrier, shows all of them. */
  lemma {:induction false} HistPrefix(env: Env, t: Target, c: Cache, ops: seq<Op>, i: nat, k: nat)
    requires ValidOps(ops) && i <= |ops| && Right(c, t) && k <= |Plan(Planner(c, false), ops, i)|
    ensures var plan := Plan(Planner(c, false), ops, i);
            var u := Exec(env, t, Frames(plan), k);
            && Partly(t.hist, Seen(ops, i, |ops|), u.hist)
            && (k == |plan| ==> u.hist == t.hist + Seen(ops, i, |ops|))
    decreases |ops| - i
  {
    hide Exec, Lower, Choose, ReadSeqSteps, After, Seen, AccessOf, Partly;
    var p := Planner(c, false);
    if i == |ops| {
      ExecNone(env, t, Frames([]));
      NoneSeen(ops, t.hist);
    } else if ops[i].ReadSeq? {
      var e := GroupEnd(ops, i, i + 1);
      var a := Choose(p, i, ApSelect(ops[i])) + ReadSeqSteps(i, ops[i].addr, e - i);
      GroupHist(env, t, c, ops, i, e, if k < |a| then k else |a|);
      AfterAp(c, ops[i]);
      SeenSplit(ops, i, e, |ops|);
      RestHist(env, t, c, ops, i, e, a, k);
    } else {
      var a := Lower(p, i, ops[i]);
      LowerHist(env, t, c, ops, i, if k < |a| then k else |a|);
      AfterSettled(c, ops[i]);
      SeenSplit(ops, i, i + 1, |ops|);
      RestHist(env, t, c, ops, i, i + 1, a, k);
    }
  }

  lemma {:induction false} NoneSeen(ops: seq<Op>, h: seq<ApAccess>)
    ensures Seen(ops, |ops|, |ops|) == [] && Partly(h, [], h) && h + [] == h
  {
  }

  lemma {:induction false} AfterAp(c: Cache, op: Op)
    requires ValidOp(op) && !op.ReadDp? && !op.WriteDp?
    ensures After(Planner(c, false), op) == Planner(Cached(ApSelect(op)), false)
  {
    hide SelectFor;
  }

  lemma {:induction false} LowerHist(env: Env, t: Target, c: Cache, ops: seq<Op>, i: nat, k: nat)
    requires ValidOps(ops) && i < |ops| && !ops[i].ReadSeq? && Right(c, t) && k <= |Lower(Planner(c, false), i, ops[i])|
    ensures var a := Lower(Planner(c, false), i, ops[i]);
            var u := Exec(env, t, Frames(a), k);
            && Partly(t.hist, Seen(ops, i, i + 1), u.hist)
            && (k == |a| ==>
                  u.hist == t.hist + Seen(ops, i, i + 1) && Right(After(Planner(c, false), ops[i]).select, u))
  {
    hide Exec, Lower, AccessOf;
    var op := ops[i];
    assert Seen(ops, i, i) == [];
    assert Seen(ops, i, i + 1) == AccessOf(op);
    if op.ReadDp? || op.WriteDp? {
      DpHistory(env, t, c, i, op, k);
      DpUnseen(op);
    } else {
      AfterAp(c, op);
      if op.WriteSeq? {
        WriteSeqHist(env, t, c, i, op, k);
      } else {
        ApHist(env, t, c, i, op, k);
      }
    }
  }

  lemma {:induction false} DpUnseen(op: Op)
    requires op.ReadDp? || op.WriteDp?
    ensures AccessOf(op) == []
  {
  }

  lemma {:induction false} RestHist(env: Env, t: Target, c: Cache, ops: seq<Op>, i: nat, e: nat, a: seq<Step>, k: nat)
    requires ValidOps(ops) && i < e <= |ops|
    requires var b := Plan(After(Planner(c, false), ops[i]), ops, e); k <= |a| + |b|
    requires !After(Planner(c, false), ops[i]).pending
    requires var u := Exec(env, t, Frames(a), if k < |a| then k else |a|);
             && Partly(t.hist, Seen(ops, i, e), u.hist)
             && (k >= |a| ==> u.hist == t.hist + Seen(ops, i, e) && Right(After(Planner(c, false), ops[i]).select, u))
    requires Seen(ops, i, |ops|) == Seen(ops, i, e) + Seen(ops, e, |ops|)
    ensures var b := Plan(After(Planner(c, false), ops[i]), ops, e);
            var u := Exec(env, t, Frames(a + b), k);
            && Partly(t.hist, Seen(ops, i, |ops|), u.hist)
            && (k == |a| + |b| ==> u.hist == t.hist + Seen(ops, i, |ops|))
    decreases |ops| - i, 0
  {
    hide Exec, Plan, After, Seen, Partly, Right;
    var q := After(Planner(c, false), ops[i]);
    var b := Plan(q, ops, e);
    assert Frames(a + b) == Frames(a) + Frames(b);
    if k < |a| {
      ExecPrefix(env, t, Frames(a), Frames(b), k);
      PartlyMore(t.hist, Seen(ops, i, e), Seen(ops, e, |ops|), Exec(env, t, Frames(a), k).hist);
    } else {
      var u := Exec(env, t, Frames(a), |a|);
      assert q == Planner(q.select, false);
      ExecConcat(env, t, Frames(a), Frames(b), k - |a|);
      HistPrefix(env, u, q.select, ops, e, k - |a|);
      PartlyMore(t.hist, Seen(ops, i, e), Seen(ops, e, |ops|), Exec(env, u, Frames(b), k - |a|).hist);
      assert (t.hist + Seen(ops, i, e)) + Seen(ops, e, |ops|) == t.hist + (Seen(ops, i, e) + Seen(ops, e, |ops|));
    }
  }

  // ----- Where nothing of an operation has happened yet -----

  predicate IsWriteOp(op: Op) {
    op.WriteAp? || op.WriteSeq?
  }

  /** Step `k` has no earlier step of its operation behind it that may have taken effect: it is not itself
      behind an access, and in a write it is no access read. */
  ghost predicate Opening(steps: seq<Step>, ops: seq<Op>, k: nat) {
    && k < |steps| && steps[k].op < |ops|
    && (k > 0 ==> !steps[k - 1].f.req.ap)
    && (IsWriteOp(ops[steps[k].op]) && steps[k].f.req.read ==> !steps[k].f.req.ap)
  }

  lemma {:induction false} OpeningLower(env: Env, t: Target, c: Cache, ops: seq<Op>, i: nat, k: nat)
    requires ValidOps(ops) && i < |ops| && !ops[i].ReadSeq? && Right(c, t)
    requires k < |Lower(Planner(c, false), i, ops[i])| && !Lower(Planner(c, false), i, ops[i])[k].started
    ensures var a := Lower(Planner(c, false), i, ops[i]);
            a[k].op == i && Opening(a, ops, k) && Exec(env, t, Frames(a), k).hist == t.hist
  {
    hide Exec, SelectFor, WriteSteps;
    if ops[i].ReadDp? || ops[i].WriteDp? {
      DpHistory(env, t, c, i, ops[i], k);
    } else {
      OpeningAp(env, t, c, ops, i, k);
    }
  }

  lemma {:induction false} OpeningAp(env: Env, t: Target, c: Cache, ops: seq<Op>, i: nat, k: nat)
    requires ValidOps(ops) && i < |ops| && !ops[i].ReadSeq? && !ops[i].ReadDp? && !ops[i].WriteDp? && Right(c, t)
    requires k < |Lower(Planner(c, false), i, ops[i])| && !Lower(Planner(c, false), i, ops[i])[k].started
    ensures var a := Lower(Planner(c, false), i, ops[i]);
            a[k].op == i && Opening(a, ops, k) && Exec(env, t, Frames(a), k).hist == t.hist
  {
    hide Exec, SelectFor, WriteSteps, DpSteps, ChosenForDp, BankOf;
    var op := ops[i];
    var choose := Choose(Planner(c, false), i, ApSelect(op));
    var body := if op.WriteSeq? then WriteSeqSteps(i, op) else ApSteps(i, op);
    AfterChoose(env, t, c, i, ApSelect(op), body, k);
    if op.WriteSeq? {
      FirstWrite(i, op, k - |choose|);
    }
  }

  /** Of a write sequence, only the first write has none before it. */
  lemma {:induction false} FirstWrite(i: nat, op: Op, j: int)
    requires op.WriteSeq? && op.values != [] && j < |WriteSeqSteps(i, op)|
    ensures var steps := WriteSeqSteps(i, op);
            && steps[0].op == i && !steps[0].started && !steps[0].f.req.read
            && (j > 0 ==> steps[j].started)
  {
    WriteStepsAt(i, op.addr, op.values, |op.values|, 0);
    if 0 < j < |op.values| {
      WriteStepsAt(i, op.addr, op.values, |op.values|, j);
    }
  }

  lemma {:induction false} OpeningGroup(env: Env, t: Target, c: Cache, ops: seq<Op>, i: nat, e: nat, k: nat)
    requires ValidOps(ops) && i < e <= |ops| && ops[i].ReadSeq? && Right(c, t)
    requires var a := Choose(Planner(c, false), i, ApSelect(ops[i])) + ReadSeqSteps(i, ops[i].addr, e - i);
             k < |a| && !a[k].started
    ensures var a := Choose(Planner(c, false), i, ApSelect(ops[i])) + ReadSeqSteps(i, ops[i].addr, e - i);
            a[k].op == i && Opening(a, ops, k) && Exec(env, t, Frames(a), k).hist == t.hist
  {
    hide Exec, SelectFor, PostedSteps;
    var choose := Choose(Planner(c, false), i, ApSelect(ops[i]));
    var n := e - i;
    AfterChoose(env, t, c, i, ApSelect(ops[i]), ReadSeqSteps(i, ops[i].addr, n), k);
    if |choose| <= k < |choose| + n {
      PostedStepsAt(i, ops[i].addr, n, k - |choose|);
    }
  }

  /** Before a step that no step of its operation precedes, the ports have seen exactly the operations before it. */
  lemma {:induction false} OpeningHist(env: Env, t: Target, c: Cache, ops: seq<Op>, i: nat, k: nat)
    requires ValidOps(ops) && i <= |ops| && Right(c, t)
    requires var plan := Plan(Planner(c, false), ops, i); k < |plan| && !plan[k].started
    ensures var plan := Plan(Planner(c, false), ops, i);
            && Opening(plan, ops, k) && i <= plan[k].op
            && Exec(env, t, Frames(plan), k).hist == t.hist + Seen(ops, i, plan[k].op)
    decreases |ops| - i
  {
    hide Exec, Lower, Choose, ReadSeqSteps, After, Seen, AccessOf, Opening;
    var p := Planner(c, false);
    if ops[i].ReadSeq? {
      var e := GroupEnd(ops, i, i + 1);
      var a := Choose(p, i, ApSelect(ops[i])) + ReadSeqSteps(i, ops[i].addr, e - i);
      if k < |a| {
        OpeningGroup(env, t, c, ops, i, e, k);
      } else {
        GroupHist(env, t, c, ops, i, e, |a|);
      }
      AfterAp(c, ops[i]);
      GroupCloses(c, ops, i, e);
      OpeningRest(env, t, c, ops, i, e, a, k);
    } else {
      var a := Lower(p, i, ops[i]);
      if k < |a| {
        OpeningLower(env, t, c, ops, i, k);
      } else {
        LowerHist(env, t, c, ops, i, |a|);
      }
      AfterSettled(c, ops[i]);
      LowerCloses(c, i, ops[i]);
      OpeningRest(env, t, c, ops, i, i + 1, a, k);
    }
  }

  lemma {:induction false} LowerCloses(c: Cache, i: nat, op: Op)
    requires ValidOp(op) && !op.ReadSeq?
    ensures var a := Lower(Planner(c, false), i, op); a != [] && !a[|a| - 1].f.req.ap
  {
    hide SelectFor, WriteSteps, Choose, BankValue;
  }

  lemma {:induction false} GroupCloses(c: Cache, ops: seq<Op>, i: nat, e: nat)
    requires ValidOps(ops) && i < e <= |ops| && ops[i].ReadSeq?
    ensures var a := Choose(Planner(c, false), i, ApSelect(ops[i])) + ReadSeqSteps(i, ops[i].addr, e - i);
            a != [] && !a[|a| - 1].f.req.ap
  {
    hide SelectFor, PostedSteps, Choose;
  }

  lemma {:induction false} OpeningRest(env: Env, t: Target, c: Cache, ops: seq<Op>, i: nat, e: nat, a: seq<Step>,
                                       k: nat)
    requires ValidOps(ops) && i < e <= |ops| && a != [] && !a[|a| - 1].f.req.ap
    requires var b := Plan(After(Planner(c, false), ops[i]), ops, e); k < |a| + |b| && !(a + b)[k].started
    requires !After(Planner(c, false), ops[i]).pending
    requires k < |a| ==> a[k].op == i && Opening(a, ops, k) && Exec(env, t, Frames(a), k).hist == t.hist
    requires k >= |a| ==>
               var u := Exec(env, t, Frames(a), |a|);
               u.hist == t.hist + Seen(ops, i, e) && Right(After(Planner(c, false), ops[i]).select, u)
    ensures var plan := a + Plan(After(Planner(c, false), ops[i]), ops, e);
            && Opening(plan, ops, k) && i <= plan[k].op
            && Exec(env, t, Frames(plan), k).hist == t.hist + Seen(ops, i, plan[k].op)
    decreases |ops| - i, 0
  {
    hide Exec, Plan, After, Right, AccessOf;
    var q := After(Planner(c, false), ops[i]);
    var b := Plan(q, ops, e);
    assert Frames(a + b) == Frames(a) + Frames(b);
    if k < |a| {
      ExecPrefix(env, t, Frames(a), Frames(b), k);
      assert t.hist + Seen(ops, i, i) == t.hist;
    } else {
      var u := Exec(env, t, Frames(a), |a|);
      assert q == Planner(q.select, false);
      ExecConcat(env, t, Frames(a), Frames(b), k - |a|);
      OpeningHist(env, u, q.select, ops, e, k - |a|);
      SeenSplit(ops, i, e, b[k - |a|].op);
      assert (t.hist + Seen(ops, i, e)) + Seen(ops, e, b[k - |a|].op) ==
             t.hist + (Seen(ops, i, e) + Seen(ops, e, b[k - |a|].op));
    }
  }

  /** No step of a write takes part in a read. */
  ghost predicate Writing(steps: seq<Step>, ops: seq<Op>, k: nat) {
    k < |steps| ==> steps[k].op < |ops| && (IsWriteOp(ops[steps[k].op]) ==> !steps[k].apRead)
  }

  lemma {:induction false} WritingLower(c: Cache, ops: seq<Op>, i: nat, k: nat)
    requires ValidOps(ops) && i < |ops| && !ops[i].ReadSeq?
    ensures Writing(Lower(Planner(c, false), i, ops[i]), ops, k)
  {
    hide SelectFor, WriteSteps, BankValue;
    var op := ops[i];
    if op.WriteSeq? {
      var j := k - |Choose(Planner(c, false), i, ApSelect(op))|;
      if 0 <= j < |op.values| {
        WriteStepsAt(i, op.addr, op.values, |op.values|, j);
      }
    }
  }

  lemma {:induction false} WritingGroup(c: Cache, ops: seq<Op>, i: nat, e: nat, k: nat)
    requires ValidOps(ops) && i < e <= |ops| && ops[i].ReadSeq? && forall j :: i <= j < e ==> ops[j] == ops[i]
    ensures Writing(Choose(Planner(c, false), i, ApSelect(ops[i])) + ReadSeqSteps(i, ops[i].addr, e - i), ops, k)
  {
    hide SelectFor, PostedSteps;
    var j := k - |Choose(Planner(c, false), i, ApSelect(ops[i]))|;
    if 0 <= j < e - i {
      PostedStepsAt(i, ops[i].addr, e - i, j);
    }
  }

  lemma {:induction false} WritingPlan(p: Planner, ops: seq<Op>, i: nat, k: nat)
    requires ValidOps(ops) && i <= |ops| && !p.pending
    ensures Writing(Plan(p, ops, i), ops, k)
    decreases |ops| - i
  {
    hide Lower, Choose, ReadSeqSteps, After;
    if i < |ops| {
      AfterSettled(p.select, ops[i]);
      assert p == Planner(p.select, false);
      var e, a := i + 1, [];
      if ops[i].ReadSeq? {
        e := GroupEnd(ops, i, i + 1);
        a := Choose(p, i, ApSelect(ops[i])) + ReadSeqSteps(i, ops[i].addr, e - i);
        WritingGroup(p.select, ops, i, e, k);
      } else {
        a := Lower(p, i, ops[i]);
        WritingLower(p.select, ops, i, k);
      }
      if k >= |a| {
        WritingPlan(After(p, ops[i]), ops, e, k - |a|);
      }
    }
  }

  // ----- Values delivered by a plan that is cut short -----

  ghost predicate AllAp(ops: seq<Op>) {
    forall i :: 0 <= i < |ops| ==> !ops[i].ReadDp? && !ops[i].WriteDp?
  }

  /** The first `n` operations have been delivered: with the values of running them one
      at a time, and none of them met a bus fault. */
  ghost predicate Served(env: Env, t: Target, c: Cache, ops: seq<Op>, i: nat, n: nat, vals: seq<Word>)
    requires i + n <= |ops| && ValidOps(ops)
  {
    var o := NaiveRun(env, t, c, ops, i, i + n);
    vals == o.values && (n > 0 ==> !Sticky(o.t))
  }

  /** All steps but the last deliver nothing. */
  ghost predicate LateDelivery(steps: seq<Step>) {
    forall j :: 0 <= j < |steps| - 1 ==> !steps[j].deliver
  }

  lemma {:induction false} NoEarlyOutput(env: Env, t: Target, steps: seq<Step>, k: nat)
    requires LateDelivery(steps) && k < |steps|
    ensures Outputs(env, t, steps, k) == [] && Delivers(steps, k) == 0
  {
    hide Exec, Response;
    if k > 0 {
      NoEarlyOutput(env, t, steps, k - 1);
    }
  }

  lemma {:induction false} LowerLate(p: Planner, i: nat, op: Op)
    requires ValidOp(op) && !op.ReadSeq?
    ensures LateDelivery(Lower(p, i, op))
    ensures !op.ReadDp? && !op.WriteDp? ==>
              var steps := Lower(p, i, op);
              steps != [] && steps[|steps| - 1].f.req == RDBUFF_READ && steps[|steps| - 1].deliver
  {
    hide SelectFor, BankValue, WriteSteps;
    if op.WriteSeq? {
      forall j | 0 <= j < |op.values|
        ensures !WriteSteps(i, op.addr, op.values, |op.values|)[j].deliver
      {
        WriteStepsAt(i, op.addr, op.values, |op.values|, j);
      }
    }
  }

  /** A barrier that the target accepts leaves no sticky flag. */
  lemma {:induction false} BarrierClears(env: Env, t: Target, steps: seq<Step>)
    requires steps != [] && steps[|steps| - 1].f.req == RDBUFF_READ && Allowed(env, t, Frames(steps), |steps| - 1)
    ensures !Sticky(Run(env, t, steps))
  {
  }

  lemma {:induction false} AllowedParts(env: Env, t: Target, a: seq<Step>, b: seq<Step>, k: nat)
    requires |a| <= k <= |a| + |b| && AllowedAll(env, t, a + b, k)
    ensures Smooth(env, t, a) && AllowedAll(env, Run(env, t, a), b, k - |a|)
  {
    hide Exec, Sticky, Exempt;
    assert Frames(a + b) == Frames(a) + Frames(b);
    forall j | 0 <= j < |a|
      ensures Allowed(env, t, Frames(a), j)
    {
      assert Allowed(env, t, Frames(a + b), j);
      ExecPrefix(env, t, Frames(a), Frames(b), j);
    }
    forall j | 0 <= j < k - |a|
      ensures Allowed(env, Run(env, t, a), Frames(b), j)
    {
      assert Allowed(env, t, Frames(a + b), |a| + j);
      ExecConcat(env, t, Frames(a), Frames(b), j);
    }
  }

  lemma {:induction false} AllowedFirst(env: Env, t: Target, a: seq<Step>, b: seq<Step>, k: nat)
    requires k <= |a| && AllowedAll(env, t, a + b, k)
    ensures AllowedAll(env, t, a, k)
  {
    hide Exec, Sticky, Exempt;
    assert Frames(a + b) == Frames(a) + Frames(b);
    forall j | 0 <= j < k
      ensures Allowed(env, t, Frames(a), j)
    {
      assert Allowed(env, t, Frames(a + b), j);
      ExecPrefix(env, t, Frames(a), Frames(b), j);
    }
  }

  lemma {:induction false} DeliversConcat(a: seq<Step>, b: seq<Step>, k: nat)
    requires k <= |a| + |b|
    ensures Delivers(a + b, k) == if k <= |a| then Delivers(a, k) else Delivers(a, |a|) + Delivers(b, k - |a|)
  {
    if k > 0 {
      DeliversConcat(a, b, k - 1);
    }
  }

  lemma {:induction false} PostedDelivers(i: nat, addr: Word, n: nat, k: nat)
    requires k <= n
    ensures Delivers(PostedSteps(i, addr, n), k) == if k == 0 then 0 else k - 1
  {
    hide PostedSteps;
    if k > 0 {
      PostedDelivers(i, addr, n, k - 1);
      PostedStepsAt(i, addr, n, k - 1);
    }
  }

  /** Posted reads so far: all but the last of them have been delivered. */
  lemma {:induction false} PostedPartly(env: Env, t: Target, c: Cache, s: Target, ops: seq<Op>, i: nat, n: nat, p: nat)
    requires ValidOps(ops) && 0 < p <= n && i + n <= |ops|
    requires ops[i].ReadSeq? && forall j :: i <= j < i + n ==> ops[j] == ops[i]
    requires t.rdbuff == 0 && s.rdbuff == 0 && Norm(s) == Norm(t.(select := ApSelect(ops[i])))
    requires AllowedAll(env, s, PostedSteps(i, ops[i].addr, n), p)
    ensures Served(env, t, c, ops, i, p - 1, Outputs(env, s, PostedSteps(i, ops[i].addr, n), p))
  {
    hide Exec, Response, SelectFor, NaiveRun, Norm, Sticky, Outputs, PostedSteps, Run;
    var addr := ops[i].addr;
    PostedOutputs(env, s, i, addr, n, p);
    if p == 1 {
      ServedNone(env, t, c, ops, i);
    } else {
      forall k | 0 < k <= p - 1
        ensures !Sticky(Run(env, s, PostedSteps(i, addr, k)))
      {
        PostedAllowed(env, s, i, addr, n, k, p);
      }
      PostedMeans(env, t, c, s, ops, i, p - 1);
      var w := Run(env, s, PostedSteps(i, addr, p - 1));
      NormSticky(w, NaiveRun(env, t, c, ops, i, i + p - 1).t, w.rdbuff);
    }
  }

  /** Each posted read delivers what the one before it posted. */
  lemma {:induction false} PostedOutputs(env: Env, s: Target, i: nat, addr: Word, n: nat, p: nat)
    requires 0 < p <= n
    ensures Outputs(env, s, PostedSteps(i, addr, n), p) ==
            if p == 1 then []
            else Outputs(env, s, PostedSteps(i, addr, p - 1), p - 1) + [Run(env, s, PostedSteps(i, addr, p - 1)).rdbuff]
  {
    hide Exec, Response, PostedSteps;
    var steps, before := PostedSteps(i, addr, n), PostedSteps(i, addr, p - 1);
    var rest := steps[p - 1..];
    PostedPrefix(i, addr, n, p - 1);
    assert steps == before + rest;
    OutputsPrefix(env, s, before, rest, p - 1);
    PostedStepsAt(i, addr, n, p - 1);
    assert Frames(steps) == Frames(before) + Frames(rest);
    ExecPrefix(env, s, Frames(before), Frames(rest), p - 1);
    PostedReturns(env, Run(env, s, before), addr);
  }

  lemma {:induction false} NormSticky(w: Target, u: Target, rdbuff: Word)
    requires Norm(w) == Norm(u.(rdbuff := rdbuff))
    ensures Sticky(w) == Sticky(u)
  {
  }

  lemma {:induction false} PostedReturns(env: Env, w: Target, addr: Word)
    ensures Response(env, w, ApFrame(addr, true, 0)) == w.rdbuff
  {
  }

  lemma {:induction false} ServedNone(env: Env, t: Target, c: Cache, ops: seq<Op>, i: nat)
    requires i <= |ops| && ValidOps(ops)
    ensures Served(env, t, c, ops, i, 0, [])
  {
  }

  lemma {:induction false} PostedAllowed(env: Env, s: Target, i: nat, addr: Word, n: nat, k: nat, p: nat)
    requires 0 < k < p <= n && AllowedAll(env, s, PostedSteps(i, addr, n), p)
    ensures !Sticky(Run(env, s, PostedSteps(i, addr, k)))
  {
    hide Apply, Exec, PostedSteps;
    var steps := PostedSteps(i, addr, n);
    var rest := steps[k..];
    PostedPrefix(i, addr, n, k);
    assert steps == PostedSteps(i, addr, k) + rest;
    assert Allowed(env, s, Frames(steps), k);
    assert Frames(steps) == Frames(PostedSteps(i, addr, k)) + Frames(rest);
    ExecPrefix(env, s, Frames(PostedSteps(i, addr, k)), Frames(rest), k);
    PostedStepsAt(i, addr, n, k);
    assert NeverExempt(steps[k].f.req);
  }

  lemma {:induction false} ChooseSilent(env: Env, t: Target, p: Planner, i: nat, value: Word, k: nat)
    requires k <= |Choose(p, i, value)|
    ensures Outputs(env, t, Choose(p, i, value), k) == [] && Delivers(Choose(p, i, value), k) == 0
  {
    hide Exec, Response;
    if k > 0 {
      ChooseSilent(env, t, p, i, value, k - 1);
    }
  }

  /** Part of a run of posted reads. */
  lemma {:induction false} GroupPartly(env: Env, t: Target, c: Cache, ops: seq<Op>, i: nat, e: nat, k: nat)
    requires ValidOps(ops) && i < e <= |ops| && ops[i].ReadSeq? && Calm(c, t)
    requires forall j :: i <= j < e ==> ops[j] == ops[i]
    requires var a := Choose(Planner(c, false), i, ApSelect(ops[i])) + ReadSeqSteps(i, ops[i].addr, e - i);
             k < |a| && AllowedAll(env, t, a, k)
    ensures var a := Choose(Planner(c, false), i, ApSelect(ops[i])) + ReadSeqSteps(i, ops[i].addr, e - i);
            i + Delivers(a, k) < e && Served(env, t, c, ops, i, Delivers(a, k), Outputs(env, t, a, k))
  {
    hide Exec, Response, SelectFor, NaiveRun, Norm, Sticky, Outputs, PostedSteps, Choose, Delivers, AllowedAll, Served,
         Run;
    var p, value, addr, n := Planner(c, false), ApSelect(ops[i]), ops[i].addr, e - i;
    var choose, group, posted := Choose(p, i, value), ReadSeqSteps(i, addr, n), PostedSteps(i, addr, n);
    DeliversConcat(choose, group, k);
    if k <= |choose| {
      OutputsPrefix(env, t, choose, group, k);
      ChooseSilent(env, t, p, i, value, k);
      ServedNone(env, t, c, ops, i);
    } else {
      var m, s := k - |choose|, Run(env, t, choose);
      OutputsConcat(env, t, choose, group, m);
      ChooseSilent(env, t, p, i, value, |choose|);
      ChooseMeans(env, t, c, i, value);
      ChooseStays(env, t, c, i, value);
      AllowedParts(env, t, choose, group, k);
      assert group == posted + [group[n]];
      AllowedFirst(env, s, posted, [group[n]], m);
      DeliversConcat(posted, [group[n]], m);
      OutputsPrefix(env, s, posted, [group[n]], m);
      PostedDelivers(i, addr, n, m);
      PostedPartly(env, t, c, s, ops, i, n, m);
      assert [] + Outputs(env, s, group, m) == Outputs(env, s, group, m);
    }
  }

  lemma {:induction false} ChooseStays(env: Env, t: Target, c: Cache, i: nat, value: Word)
    requires Calm(c, t)
    ensures Run(env, t, Choose(Planner(c, false), i, value)).rdbuff == 0
  {
    hide Run;
    RunNone(env, t);
    if c != Cached(value) {
      var select := PlainStep(DpFrame(SELECT, false, value), Some(SELECT), i);
      RunTwo(env, t, select, SettleSteps(i)[0]);
      assert [select] + SettleSteps(i) == [select, SettleSteps(i)[0]];
    }
  }

  /** Two consecutive parts of a plan, the first complete. */
  lemma {:induction false} ServedMore(env: Env, t: Target, c: Cache, ops: seq<Op>, i: nat, e: nat, n: nat,
                                      a: seq<Step>, b: seq<Step>, k: nat)
    requires ValidOps(ops) && NoResend(ops) && i < e && e + n <= |ops| && |a| <= k <= |a| + |b|
    requires var o := NaiveRun(env, t, c, ops, i, e); Means(env, t, a, o.c, o.t, o.values)
    requires !Sticky(Run(env, t, a)) && Delivers(a, |a|) == e - i && Delivers(b, k - |a|) == n
    requires Served(env, Run(env, t, a), NaiveRun(env, t, c, ops, i, e).c, ops, e, n,
                    Outputs(env, Run(env, t, a), b, k - |a|))
    ensures Delivers(a + b, k) == e - i + n && Served(env, t, c, ops, i, e - i + n, Outputs(env, t, a + b, k))
  {
    hide Run, Outputs, NaiveRun, Norm, NoResend, Sticky, Delivers, Calm;
    var u := Run(env, t, a);
    DeliversConcat(a, b, k);
    DeliversNone(b);
    OutputsConcat(env, t, a, b, k - |a|);
    NaiveSplit(env, t, c, ops, i, e, e + n, u);
    var whole := NaiveRun(env, t, c, ops, i, e + n);
    var second := NaiveRun(env, u, NaiveRun(env, t, c, ops, i, e).c, ops, e, e + n);
    SameSticky(whole.t, second.t);
    if n == 0 {
      SecondNone(env, u, NaiveRun(env, t, c, ops, i, e).c, ops, e);
    }
  }

  lemma {:induction false} DeliversNone(steps: seq<Step>)
    ensures Delivers(steps, 0) == 0
  {
  }

  lemma {:induction false} SecondNone(env: Env, u: Target, c: Cache, ops: seq<Op>, e: nat)
    requires ValidOps(ops) && e <= |ops|
    ensures NaiveRun(env, u, c, ops, e, e).t == u
  {
  }

  lemma {:induction false} SameSticky(t: Target, u: Target)
    requires Norm(t) == Norm(u)
    ensures Sticky(t) == Sticky(u)
  {
  }

  lemma {:induction false} ApNoResend(ops: seq<Op>)
    requires AllAp(ops)
    ensures NoResend(ops)
  {
  }

  lemma {:induction false} GroupEndsInBarrier(i: nat, addr: Word, n: nat, choose: seq<Step>)
    requires n > 0 && forall j :: 0 <= j < |choose| ==> !choose[j].deliver
    ensures var a := choose + ReadSeqSteps(i, addr, n);
            && a != [] && a[|a| - 1].f.req == RDBUFF_READ
            && Delivers(a, |a|) == n
  {
    hide PostedSteps;
    var posted, group := PostedSteps(i, addr, n), ReadSeqSteps(i, addr, n);
    DeliversConcat(choose, group, |choose| + |group|);
    Silent(choose, |choose|);
    assert group == posted + [group[n]];
    DeliversConcat(posted, [group[n]], n + 1);
    PostedDelivers(i, addr, n, n);
    assert Delivers([group[n]], 0) == 0;
    assert Delivers([group[n]], 1) == 1;
  }

  lemma {:induction false} Silent(steps: seq<Step>, k: nat)
    requires k <= |steps| && forall j :: 0 <= j < |steps| ==> !steps[j].deliver
    ensures Delivers(steps, k) == 0
  {
    if k > 0 {
      Silent(steps, k - 1);
    }
  }

  lemma {:induction false} LateDelivers(steps: seq<Step>)
    requires LateDelivery(steps) && steps != [] && steps[|steps| - 1].deliver
    ensures Delivers(steps, |steps|) == 1
  {
    LateNone(steps, |steps| - 1);
  }

  lemma {:induction false} LateNone(steps: seq<Step>, k: nat)
    requires LateDelivery(steps) && k < |steps|
    ensures Delivers(steps, k) == 0
  {
    if k > 0 {
      LateNone(steps, k - 1);
    }
  }

  /** Whatever part of a plan was accepted, the values it delivered are those of running
      the operations one at a time. */
  lemma {:induction false} PlanPrefix(env: Env, t: Target, c: Cache, ops: seq<Op>, i: nat, k: nat)
    requires ValidOps(ops) && AllAp(ops) && i <= |ops| && Calm(c, t)
    requires var plan := Plan(Planner(c, false), ops, i); k <= |plan| && AllowedAll(env, t, plan, k)
    ensures var plan := Plan(Planner(c, false), ops, i);
            i + Delivers(plan, k) <= |ops| && Served(env, t, c, ops, i, Delivers(plan, k), Outputs(env, t, plan, k))
    decreases |ops| - i
  {
    hide Run, Outputs, NaiveRun, Smooth, Lower, Choose, ReadSeqSteps, After, NaiveCache, Norm, Calm, Served, Delivers,
         AllowedAll, AllAp, NoResend;
    var p := Planner(c, false);
    if i == |ops| {
      ServedNone(env, t, c, ops, i);
      EmptyPlan(env, t);
    } else if ops[i].ReadSeq? {
      var e := GroupEnd(ops, i, i + 1);
      var a := Choose(p, i, ApSelect(ops[i])) + ReadSeqSteps(i, ops[i].addr, e - i);
      var b := Plan(After(p, ops[i]), ops, e);
      if k < |a| {
        AllowedFirst(env, t, a, b, k);
        DeliversConcat(a, b, k);
        OutputsPrefix(env, t, a, b, k);
        GroupPartly(env, t, c, ops, i, e, k);
      } else {
        AllowedParts(env, t, a, b, k);
        GroupMeans(env, t, c, ops, i, e);
        GroupCache(env, t, c, ops, i, e);
        ChooseQuiet(p, i, ApSelect(ops[i]));
        GroupEndsInBarrier(i, ops[i].addr, e - i, Choose(p, i, ApSelect(ops[i])));
        RestServed(env, t, c, ops, i, e, a, k);
      }
    } else {
      var a, b := Lower(p, i, ops[i]), Plan(After(p, ops[i]), ops, i + 1);
      ApOnly(ops, i);
      LowerLate(p, i, ops[i]);
      if k < |a| {
        DeliversConcat(a, b, k);
        OutputsPrefix(env, t, a, b, k);
        NoEarlyOutput(env, t, a, k);
        ServedNone(env, t, c, ops, i);
      } else {
        AllowedParts(env, t, a, b, k);
        ApNoResend(ops);
        NoResendAt(ops, i);
        LowerMeans(env, t, c, ops, i);
        NaiveOne(env, t, c, ops, i);
        LateDelivers(a);
        RestServed(env, t, c, ops, i, i + 1, a, k);
      }
    }
  }

  lemma {:induction false} ApOnly(ops: seq<Op>, i: nat)
    requires AllAp(ops) && i < |ops|
    ensures !ops[i].ReadDp? && !ops[i].WriteDp?
  {
  }

  lemma {:induction false} NoResendAt(ops: seq<Op>, i: nat)
    requires NoResend(ops) && i < |ops|
    ensures ops[i] != ReadDp(RESEND)
  {
  }

  lemma {:induction false} EmptyPlan(env: Env, t: Target)
    ensures Delivers([], 0) == 0 && Outputs(env, t, [], 0) == []
  {
  }

  lemma {:induction false} ChooseQuiet(p: Planner, i: nat, value: Word)
    ensures forall j :: 0 <= j < |Choose(p, i, value)| ==> !Choose(p, i, value)[j].deliver
  {
  }

  lemma {:induction false} RestServed(env: Env, t: Target, c: Cache, ops: seq<Op>, i: nat, e: nat, a: seq<Step>, k: nat)
    requires ValidOps(ops) && AllAp(ops) && i < e <= |ops| && a != []
    requires var b := Plan(After(Planner(c, false), ops[i]), ops, e);
             |a| <= k <= |a| + |b| && Smooth(env, t, a) && AllowedAll(env, Run(env, t, a), b, k - |a|)
    requires var o := NaiveRun(env, t, c, ops, i, e);
             Means(env, t, a, o.c, o.t, o.values) && o.c == NaiveCache(c, ops[i])
    requires a[|a| - 1].f.req == RDBUFF_READ && Delivers(a, |a|) == e - i
    ensures var plan := a + Plan(After(Planner(c, false), ops[i]), ops, e);
            i + Delivers(plan, k) <= |ops| && Served(env, t, c, ops, i, Delivers(plan, k), Outputs(env, t, plan, k))
    decreases |ops| - i, 0
  {
    hide Run, Outputs, NaiveRun, After, NaiveCache, Norm, Served, Delivers, AllowedAll, AllAp, NoResend, Plan, Calm,
         Allowed, Sticky;
    AfterSettled(c, ops[i]);
    ApNoResend(ops);
    BarrierClears(env, t, a);
    PlanPrefix(env, Run(env, t, a), NaiveCache(c, ops[i]), ops, e, k - |a|);
    var b := Plan(After(Planner(c, false), ops[i]), ops, e);
    ServedMore(env, t, c, ops, i, e, Delivers(b, k - |a|), a, b, k);
  }

  // ----- The reference run, in terms of what the ports see -----

  /** None of the accesses `s` after `h` ends in a bus fault. */
  ghost predicate NoFault(env: Env, h: seq<ApAccess>, s: seq<ApAccess>) {
    forall m :: 0 < m <= |s| ==> !env.faults(h + s[..m])
  }

  lemma {:induction false} NoFaultMore(env: Env, h: seq<ApAccess>, a: seq<ApAccess>, b: seq<ApAccess>)
    requires NoFault(env, h, a) && NoFault(env, h + a, b)
    ensures NoFault(env, h, a + b)
  {
    forall m | 0 < m <= |a + b|
      ensures !env.faults(h + (a + b)[..m])
    {
      if m <= |a| {
        assert (a + b)[..m] == a[..m];
      } else {
        assert h + (a + b)[..m] == (h + a) + b[..m - |a|];
      }
    }
  }

  lemma {:induction false} OneFault(env: Env, h: seq<ApAccess>, a: ApAccess)
    requires !env.faults(h + [a])
    ensures NoFault(env, h, [a])
  {
    assert [a][..1] == [a];
  }

  /** One access on its own. */
  lemma {:induction false} NaiveApSees(env: Env, t: Target, sel: Word, addr: Word, read: bool, data: Word)
    requires ValidAddress(sel, addr)
    ensures var (u, v) := NaiveAp(env, t, sel, addr, read, data);
            && u.hist == t.hist + [ApAccess(PortOf(sel, addr), read, if read then 0 else data)]
            && u.ctrl.error == (t.ctrl.error || env.faults(u.hist))
            && (read && !env.faults(u.hist) ==> v == env.value(u.hist))
  {
    hide SelectFor, Port, PortOf;
    AimedPort(sel, addr);
  }

  lemma {:induction false} NaiveWritesSee(env: Env, t: Target, sel: Word, addr: Word, values: seq<Word>, n: nat)
    requires ValidAddress(sel, addr) && n <= |values|
    ensures var u := NaiveWrites(env, t, sel, addr, values, n);
            && u.hist == t.hist + WritesOf(sel, addr, values, n)
            && (t.ctrl.error ==> u.ctrl.error)
            && (!u.ctrl.error ==> NoFault(env, t.hist, WritesOf(sel, addr, values, n)))
  {
    hide NaiveAp, PortOf;
    if n > 0 {
      NaiveWritesSee(env, t, sel, addr, values, n - 1);
      var w := NaiveWrites(env, t, sel, addr, values, n - 1);
      NaiveApSees(env, w, sel, addr, false, values[n - 1]);
      var a := ApAccess(PortOf(sel, addr), false, values[n - 1]);
      if !NaiveWrites(env, t, sel, addr, values, n).ctrl.error {
        OneFault(env, w.hist, a);
        NoFaultMore(env, t.hist, WritesOf(sel, addr, values, n - 1), [a]);
      }
    }
  }

  predicate IsRead(op: Op) {
    op.ReadIdr? || op.ReadAp? || op.ReadSeq?
  }

  lemma {:induction false} NaiveSees(env: Env, t: Target, c: Cache, op: Op)
    requires ValidOp(op) && !op.ReadDp? && !op.WriteDp?
    ensures var (u, v) := Naive(env, t, c, op);
            && u.hist == t.hist + AccessOf(op)
            && (t.ctrl.error ==> u.ctrl.error)
            && (!u.ctrl.error ==> NoFault(env, t.hist, AccessOf(op)))
            && (!u.ctrl.error && IsRead(op) ==> v == env.value(u.hist))
  {
    hide NaiveAp, NaiveWrites, PortOf, WritesOf;
    if op.WriteSeq? {
      NaiveWritesSee(env, t, op.sel, op.addr, op.values, |op.values|);
    } else {
      var addr := if op.ReadIdr? then IDR else op.addr;
      NaiveApSees(env, t, op.sel, addr, !op.WriteAp?, if op.WriteAp? then op.data else 0);
      if !Naive(env, t, c, op).0.ctrl.error {
        OneFault(env, t.hist, AccessOf(op)[0]);
      }
    }
  }

  /** Running AP operations one at a time: the ports see exactly their accesses, and a
      run without a fault returns what the ports returned. */
  lemma {:induction false} RunSees(env: Env, t: Target, c: Cache, ops: seq<Op>, n: nat)
    requires ValidOps(ops) && AllAp(ops) && n <= |ops|
    ensures var o := NaiveRun(env, t, c, ops, 0, n);
            && |o.values| == n && o.t.hist == t.hist + Seen(ops, 0, n)
            && (!o.t.ctrl.error ==> NoFault(env, t.hist, Seen(ops, 0, n)))
            && (!o.t.ctrl.error ==>
                  forall j :: 0 <= j < n && IsRead(ops[j]) ==> o.values[j] == env.value(t.hist + Seen(ops, 0, j + 1)))
  {
    hide Naive, NaiveCache, AccessOf, IsRead, NoFault;
    if n == 0 {
      NothingFaults(env, t.hist);
    } else {
      RunSees(env, t, c, ops, n - 1);
      var o := NaiveRun(env, t, c, ops, 0, n - 1);
      NaiveSees(env, o.t, o.c, ops[n - 1]);
      assert t.hist + Seen(ops, 0, n) == (t.hist + Seen(ops, 0, n - 1)) + AccessOf(ops[n - 1]);
      if !NaiveRun(env, t, c, ops, 0, n).t.ctrl.error {
        NoFaultMore(env, t.hist, Seen(ops, 0, n - 1), AccessOf(ops[n - 1]));
      }
    }
  }

  lemma {:induction false} NothingFaults(env: Env, h: seq<ApAccess>)
    ensures NoFault(env, h, []) && h + [] == h
  {
  }

  // ----- Faults -----

  /** Of the accesses after `h0`, only the last may have ended in a bus fault. */
  ghost predicate Unbroken(env: Env, h0: seq<ApAccess>, h: seq<ApAccess>) {
    h0 <= h && forall m :: |h0| < m < |h| ==> !env.faults(h[..m])
  }

  ghost predicate NoAbort(steps: seq<Step>) {
    forall j :: 0 <= j < |steps| ==> !IsAbortWrite(steps[j].f.req)
  }

  /** One more accepted step. */
  lemma {:induction false} UnbrokenStep(env: Env, h0: seq<ApAccess>, t: Target, f: Frame)
    requires Unbroken(env, h0, t.hist) && !IsAbortWrite(f.req)
    requires env.faults(t.hist) && |h0| < |t.hist| ==> t.ctrl.error
    requires f.req.ap ==> !Sticky(t)
    ensures var u := Apply(env, t, f);
            Unbroken(env, h0, u.hist) && (env.faults(u.hist) && |h0| < |u.hist| ==> u.ctrl.error)
  {
    hide Port, OrunDetect;
    var u := Apply(env, t, f);
    if f.req.ap {
      assert u.hist[..|t.hist|] == t.hist;
      forall m | |h0| < m < |u.hist|
        ensures !env.faults(u.hist[..m])
      {
        if m < |t.hist| {
          assert u.hist[..m] == t.hist[..m];
        }
      }
    }
  }

  /** Accepted accesses follow only accesses without a fault. */
  lemma {:induction false} FaultFree(env: Env, t: Target, steps: seq<Step>, k: nat)
    requires k <= |steps| && NoAbort(steps) && AllowedAll(env, t, steps, k)
    ensures var u := Exec(env, t, Frames(steps), k);
            Unbroken(env, t.hist, u.hist) && (env.faults(u.hist) && |t.hist| < |u.hist| ==> u.ctrl.error)
  {
    hide Apply, Unbroken;
    if k == 0 {
      UnbrokenNone(env, t.hist);
    } else {
      AllowedFewer(env, t, steps, k - 1, k);
      FaultFree(env, t, steps, k - 1);
      assert Allowed(env, t, Frames(steps), k - 1);
      UnbrokenStep(env, t.hist, Exec(env, t, Frames(steps), k - 1), steps[k - 1].f);
    }
  }

  lemma {:induction false} UnbrokenNone(env: Env, h: seq<ApAccess>)
    ensures Unbroken(env, h, h)
  {
  }

  lemma {:induction false} LowerNoAbort(p: Planner, i: nat, op: Op)
    requires ValidOp(op) && !op.ReadSeq? && !op.ReadDp? && !op.WriteDp?
    ensures NoAbort(Lower(p, i, op))
  {
    hide SelectFor, WriteSteps;
    if op.WriteSeq? {
      forall j | 0 <= j < |op.values|
        ensures !IsAbortWrite(WriteSteps(i, op.addr, op.values, |op.values|)[j].f.req)
      {
        WriteStepsAt(i, op.addr, op.values, |op.values|, j);
      }
    }
  }

  lemma {:induction false} GroupNoAbort(p: Planner, i: nat, value: Word, addr: Word, n: nat)
    requires n > 0
    ensures NoAbort(Choose(p, i, value) + ReadSeqSteps(i, addr, n))
  {
    hide PostedSteps;
    forall j | 0 <= j < n
      ensures !IsAbortWrite(PostedSteps(i, addr, n)[j].f.req)
    {
      PostedStepsAt(i, addr, n, j);
    }
  }

  lemma {:induction false} NoAbortConcat(a: seq<Step>, b: seq<Step>)
    requires NoAbort(a) && NoAbort(b)
    ensures NoAbort(a + b)
  {
    hide IsAbortWrite;
  }

  lemma {:induction false} PlanNoAbort(p: Planner, ops: seq<Op>, i: nat)
    requires i <= |ops| && ValidOps(ops) && AllAp(ops)
    ensures NoAbort(Plan(p, ops, i))
    decreases |ops| - i
  {
    hide NoAbort, Lower, Choose, ReadSeqSteps, After, AllAp;
    if i == |ops| {
      NoneNoAbort();
    } else if ops[i].ReadSeq? {
      var e := GroupEnd(ops, i, i + 1);
      GroupNoAbort(p, i, ApSelect(ops[i]), ops[i].addr, e - i);
      PlanNoAbort(After(p, ops[i]), ops, e);
      NoAbortConcat(Choose(p, i, ApSelect(ops[i])) + ReadSeqSteps(i, ops[i].addr, e - i),
                    Plan(After(p, ops[i]), ops, e));
    } else {
      ApOnly(ops, i);
      LowerNoAbort(p, i, ops[i]);
      PlanNoAbort(After(p, ops[i]), ops, i + 1);
      NoAbortConcat(Lower(p, i, ops[i]), Plan(After(p, ops[i]), ops, i + 1));
    }
  }

  lemma {:induction false} NoneNoAbort()
    ensures NoAbort([])
  {
  }
}
