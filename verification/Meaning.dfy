/** What a plan means: the same as selecting, accessing and settling every queued
    operation on its own. */
module DapMeaning {
  import opened Options
  import opened Words
  import opened SwdTarget
  import opened DapPlan
  import opened DapPlanShape

  function Frames(steps: seq<Step>): (fs: seq<Frame>)
    ensures |fs| == |steps|
    ensures forall i :: 0 <= i < |fs| ==> fs[i] == steps[i].f
  {
    seq(|steps|, i requires 0 <= i < |steps| => steps[i].f)
  }

  /** What the first `i` steps deliver, in order. */
  function Outputs(env: Env, t: Target, steps: seq<Step>, i: nat): seq<Word>
    requires i <= |steps|
  {
    if i == 0 then []
    else
      var s := steps[i - 1];
      Outputs(env, t, steps, i - 1) +
      (if !s.deliver then []
       else [if s.deliverValue then Response(env, Exec(env, t, Frames(steps), i - 1), s.f) else 0])
  }

  /** The state reached by all of `steps`. */
  function Run(env: Env, t: Target, steps: seq<Step>): Target {
    Exec(env, t, Frames(steps), |steps|)
  }

  lemma {:induction false} ExecPrefix(env: Env, t: Target, a: seq<Frame>, b: seq<Frame>, i: nat)
    requires i <= |a|
    ensures Exec(env, t, a + b, i) == Exec(env, t, a, i)
  {
    hide Apply;
    if i > 0 {
      ExecPrefix(env, t, a, b, i - 1);
    }
  }

  lemma {:induction false} ExecConcat(env: Env, t: Target, a: seq<Frame>, b: seq<Frame>, i: nat)
    requires i <= |b|
    ensures Exec(env, t, a + b, |a| + i) == Exec(env, Exec(env, t, a, |a|), b, i)
  {
    hide Apply;
    if i == 0 {
      ExecPrefix(env, t, a, b, |a|);
    } else {
      ExecConcat(env, t, a, b, i - 1);
      assert (a + b)[|a| + i - 1] == b[i - 1];
    }
  }

  lemma {:induction false} OutputsPrefix(env: Env, t: Target, a: seq<Step>, b: seq<Step>, i: nat)
    requires i <= |a|
    ensures Outputs(env, t, a + b, i) == Outputs(env, t, a, i)
  {
    hide Exec, Response;
    if i > 0 {
      OutputsPrefix(env, t, a, b, i - 1);
      assert Frames(a + b) == Frames(a) + Frames(b);
      ExecPrefix(env, t, Frames(a), Frames(b), i - 1);
    }
  }

  lemma {:induction false} OutputsConcat(env: Env, t: Target, a: seq<Step>, b: seq<Step>, i: nat)
    requires i <= |b|
    ensures Outputs(env, t, a + b, |a| + i) == Outputs(env, t, a, |a|) + Outputs(env, Run(env, t, a), b, i)
  {
    hide Exec, Response;
    if i == 0 {
      OutputsPrefix(env, t, a, b, |a|);
    } else {
      OutputsConcat(env, t, a, b, i - 1);
      assert (a + b)[|a| + i - 1] == b[i - 1];
      assert Frames(a + b) == Frames(a) + Frames(b);
      ExecConcat(env, t, Frames(a), Frames(b), i - 1);
    }
  }

  /** Steps run one list after the other. */
  lemma {:induction false} RunConcat(env: Env, t: Target, a: seq<Step>, b: seq<Step>)
    ensures Run(env, t, a + b) == Run(env, Run(env, t, a), b)
    ensures Outputs(env, t, a + b, |a + b|) == Outputs(env, t, a, |a|) + Outputs(env, Run(env, t, a), b, |b|)
  {
    hide Exec, Outputs;
    assert Frames(a + b) == Frames(a) + Frames(b);
    ExecConcat(env, t, Frames(a), Frames(b), |b|);
    OutputsConcat(env, t, a, b, |b|);
  }

  /** RESEND apart, nothing depends on what was last sent. */
  function Norm(t: Target): Target {
    t.(resend := 0)
  }

  lemma {:induction false} ApplyNorm(env: Env, t: Target, u: Target, f: Frame)
    requires Norm(t) == Norm(u)
    ensures Norm(Apply(env, t, f)) == Norm(Apply(env, u, f))
    ensures f.req != Req(false, true, 0x08) ==> Response(env, t, f) == Response(env, u, f)
  {
    hide SetPower, ClearSticky, Port, CtrlWord;
  }

  // ----- The reference: one operation at a time -----

  /** SELECT written and settled. */
  function Selected(env: Env, t: Target, value: Word): Target {
    Apply(env, Apply(env, t, DpFrame(SELECT, false, value)), BARRIER)
  }

  /** One access followed by RDBUFF, and what RDBUFF returns. */
  function Settled(env: Env, t: Target, f: Frame): (Target, Word) {
    var u := Apply(env, t, f);
    (Apply(env, u, BARRIER), Response(env, u, BARRIER))
  }

  function NaiveAp(env: Env, t: Target, sel: Word, addr: Word, read: bool, data: Word): (Target, Word)
    requires ValidAddress(sel, addr)
  {
    Settled(env, Selected(env, t, SelectFor(sel, addr)), ApFrame(addr, read, data))
  }

  function NaiveWrites(env: Env, t: Target, sel: Word, addr: Word, values: seq<Word>, n: nat): Target
    requires ValidAddress(sel, addr) && n <= |values|
  {
    if n == 0 then t
    else NaiveAp(env, NaiveWrites(env, t, sel, addr, values, n - 1), sel, addr, false, values[n - 1]).0
  }

  /** The state and the value one operation gives on its own. `c` is the SELECT value
      last written, if that is known. */
  function Naive(env: Env, t: Target, c: Cache, op: Op): (Target, Word)
    requires ValidOp(op)
  {
    match op
    case ReadDp(reg) =>
      var u := if Banked(reg) then Selected(env, t, BankValue(c, BankFor(reg))) else t;
      (Apply(env, u, DpFrame(reg, true, 0)), Response(env, u, DpFrame(reg, true, 0)))
    case WriteDp(reg, data) =>
      var u := if Banked(reg) then Selected(env, t, BankValue(c, BankFor(reg))) else t;
      (Settled(env, u, DpFrame(reg, false, data)).0, 0)
    case ReadIdr(sel) => NaiveAp(env, t, sel, IDR, true, 0)
    case ReadAp(sel, addr, _) => NaiveAp(env, t, sel, addr, true, 0)
    case WriteAp(sel, addr, data, _) => (NaiveAp(env, t, sel, addr, false, data).0, 0)
    case ReadSeq(sel, addr) => NaiveAp(env, t, sel, addr, true, 0)
    case WriteSeq(sel, addr, values) => (NaiveWrites(env, t, sel, addr, values, |values|), 0)
  }

  /** The SELECT value known after one operation. */
  function NaiveCache(c: Cache, op: Op): Cache
    requires ValidOp(op)
  {
    match op
    case ReadDp(reg) => if Banked(reg) then Cached(BankValue(c, BankFor(reg))) else c
    case WriteDp(reg, data) =>
      if reg.SELECT? then Cached(data)
      else if Banked(reg) then Cached(BankValue(c, BankFor(reg)))
      else c
    case _ => Cached(ApSelect(op))
  }

  /** State, known SELECT and values after operations `i` to `j - 1`, one at a time. */
  datatype Outcome = Outcome(t: Target, c: Cache, values: seq<Word>)

  function NaiveRun(env: Env, t: Target, c: Cache, ops: seq<Op>, i: nat, j: nat): Outcome
    requires i <= j <= |ops| && forall k :: 0 <= k < |ops| ==> ValidOp(ops[k])
    decreases j
  {
    if i == j then Outcome(t, c, [])
    else
      var o := NaiveRun(env, t, c, ops, i, j - 1);
      var (u, v) := Naive(env, o.t, o.c, ops[j - 1]);
      Outcome(u, NaiveCache(o.c, ops[j - 1]), o.values + [v])
  }

  // ----- Each lowering against the reference -----

  /** The cache is right and no posted read is outstanding. */
  ghost predicate Calm(c: Cache, t: Target) {
    (c.Cached? ==> t.select == c.value) && t.rdbuff == 0
  }

  lemma {:induction false} RunOne(env: Env, t: Target, s: Step)
    ensures Run(env, t, [s]) == Apply(env, t, s.f)
    ensures Outputs(env, t, [s], 1) ==
            if !s.deliver then [] else [if s.deliverValue then Response(env, t, s.f) else 0]
  {
    hide Apply, Response;
    assert Frames([s])[0] == s.f;
    assert Exec(env, t, Frames([s]), 0) == t;
    assert Outputs(env, t, [s], 0) == [];
  }

  lemma {:induction false} RunTwo(env: Env, t: Target, s: Step, s': Step)
    ensures Run(env, t, [s, s']) == Apply(env, Apply(env, t, s.f), s'.f)
    ensures !s.deliver && s'.deliver ==>
              Outputs(env, t, [s, s'], 2) == [if s'.deliverValue then Response(env, Apply(env, t, s.f), s'.f) else 0]
    ensures !s.deliver && !s'.deliver ==> Outputs(env, t, [s, s'], 2) == []
  {
    hide Apply, Response, Run, Outputs;
    assert [s] + [s'] == [s, s'];
    RunConcat(env, t, [s], [s']);
    RunOne(env, t, s);
    RunOne(env, Apply(env, t, s.f), s');
  }

  lemma {:induction false} RunNone(env: Env, t: Target)
    ensures Run(env, t, []) == t && Outputs(env, t, [], 0) == []
  {
  }

  /** Selecting leaves the same state whether or not the write was needed. */
  lemma {:induction false} ChooseMeans(env: Env, t: Target, c: Cache, i: nat, value: Word)
    requires Calm(c, t)
    ensures var steps := Choose(Planner(c, false), i, value);
            && Norm(Run(env, t, steps)) == Norm(Selected(env, t, value)) == Norm(t.(select := value))
            && Outputs(env, t, steps, |steps|) == []
  {
    hide Run, Outputs, Exec;
    RunNone(env, t);
    if c != Cached(value) {
      var select := PlainStep(DpFrame(SELECT, false, value), Some(SELECT), i);
      RunTwo(env, t, select, SettleSteps(i)[0]);
      assert [select] + SettleSteps(i) == [select, SettleSteps(i)[0]];
    }
  }

  /** An access and its barrier from states that differ at most in RESEND. */
  lemma {:induction false} SettledNorm(env: Env, t: Target, u: Target, f: Frame)
    requires Norm(t) == Norm(u)
    ensures Norm(Settled(env, t, f).0) == Norm(Settled(env, u, f).0)
    ensures Settled(env, t, f).1 == Settled(env, u, f).1
  {
    hide Apply, Response, Norm;
    ApplyNorm(env, t, u, f);
    ApplyNorm(env, Apply(env, t, f), Apply(env, u, f), BARRIER);
  }

  /** A barrier leaves nothing posted, and only a SELECT write changes SELECT. */
  lemma {:induction false} SettledCalm(env: Env, t: Target, f: Frame)
    ensures var u := Settled(env, t, f).0;
            u.rdbuff == 0 && (u.select == t.select || (IsSelectWrite(f.req) && u.select == f.data))
    ensures IsSelectWrite(f.req) ==> Settled(env, t, f).0.select == f.data
  {
    hide SetPower, ClearSticky, Port;
  }

  ghost predicate Means(env: Env, t: Target, steps: seq<Step>, c: Cache, u: Target, values: seq<Word>) {
    && Norm(Run(env, t, steps)) == Norm(u)
    && Outputs(env, t, steps, |steps|) == values
    && Calm(c, Run(env, t, steps))
  }

  lemma {:induction false} ApMeans(env: Env, t: Target, c: Cache, i: nat, op: Op)
    requires ValidOp(op) && (op.ReadIdr? || op.ReadAp? || op.WriteAp?)
    requires Calm(c, t)
    ensures var (u, v) := Naive(env, t, c, op);
            Means(env, t, Lower(Planner(c, false), i, op), NaiveCache(c, op), u, [v])
  {
    hide Apply, Response, Run, Outputs, Choose, Selected;
    var value := ApSelect(op);
    var choose, body := Choose(Planner(c, false), i, value), ApSteps(i, op);
    ChooseMeans(env, t, c, i, value);
    var s := Run(env, t, choose);
    RunConcat(env, t, choose, body);
    RunTwo(env, s, body[0], body[1]);
    assert body == [body[0], body[1]];
    SettledNorm(env, s, Selected(env, t, value), body[0].f);
    SettledCalm(env, s, body[0].f);
  }

  lemma {:induction false} DpMeans(env: Env, t: Target, c: Cache, i: nat, op: Op)
    requires ValidOp(op) && (op.ReadDp? || op.WriteDp?) && op != ReadDp(RESEND)
    requires Calm(c, t)
    ensures var (u, v) := Naive(env, t, c, op);
            Means(env, t, Lower(Planner(c, false), i, op), NaiveCache(c, op), u, [v])
  {
    hide Apply, Response, Run, Outputs, Choose, Selected, BankValue;
    var choose, body := ChosenForDp(Planner(c, false), i, op.reg), DpSteps(i, op);
    RunNone(env, t);
    if Banked(op.reg) {
      ChooseMeans(env, t, c, i, BankValue(c, BankFor(op.reg)));
    }
    var s := Run(env, t, choose);
    var s' := if Banked(op.reg) then Selected(env, t, BankValue(c, BankFor(op.reg))) else t;
    assert Norm(s) == Norm(s');
    RunConcat(env, t, choose, body);
    if op.ReadDp? {
      RunOne(env, s, body[0]);
      ApplyNorm(env, s, s', body[0].f);
      ReadDpCalm(env, s, op.reg);
    } else {
      RunTwo(env, s, body[0], body[1]);
      assert body == [body[0], body[1]];
      SettledNorm(env, s, s', body[0].f);
      SettledCalm(env, s, body[0].f);
    }
  }

  lemma {:induction false} ReadDpCalm(env: Env, t: Target, reg: DpReg)
    requires t.rdbuff == 0
    ensures var u := Apply(env, t, DpFrame(reg, true, 0)); u.rdbuff == 0 && u.select == t.select
  {
  }

  lemma {:induction false} SelectedIs(env: Env, t: Target, value: Word)
    ensures Norm(Selected(env, t, value)) == Norm(t.(select := value, rdbuff := 0))
  {
  }

  /** A write leaves nothing posted, so its barrier changes nothing more. */
  lemma {:induction false} WriteBarrier(env: Env, t: Target, addr: Word, data: Word)
    ensures var u := Apply(env, t, ApFrame(addr, false, data));
            && u.rdbuff == 0 && u.select == t.select
            && Norm(Settled(env, t, ApFrame(addr, false, data)).0) == Norm(u)
            && Settled(env, t, ApFrame(addr, false, data)).0.rdbuff == 0
  {
    hide Port;
  }

  lemma {:induction false} WritesMean(env: Env, t: Target, s: Target, i: nat, sel: Word, addr: Word, values: seq<Word>,
                                      n: nat)
    requires ValidAddress(sel, addr) && n <= |values| && t.rdbuff == 0
    requires Norm(s) == Norm(t.(select := SelectFor(sel, addr)))
    ensures var steps := WriteSteps(i, addr, values, n);
            var u := NaiveWrites(env, t, sel, addr, values, n);
            && Norm(Run(env, s, steps)) == Norm(u.(select := SelectFor(sel, addr)))
            && Outputs(env, s, steps, |steps|) == []
            && u.rdbuff == 0 && (n > 0 ==> u.select == SelectFor(sel, addr))
  {
    hide Apply, Response, Run, Outputs, Selected, SelectFor, Settled;
    if n == 0 {
      RunNone(env, s);
    } else {
      WritesMean(env, t, s, i, sel, addr, values, n - 1);
      var before, u := WriteSteps(i, addr, values, n - 1), NaiveWrites(env, t, sel, addr, values, n - 1);
      var last := WriteSteps(i, addr, values, n)[n - 1];
      var w := Run(env, s, before);
      RunConcat(env, s, before, [last]);
      RunOne(env, w, last);
      var v := SelectFor(sel, addr);
      SelectedIs(env, u, v);
      SettledNorm(env, w, Selected(env, u, v), last.f);
      WriteBarrier(env, w, addr, values[n - 1]);
      WriteBarrier(env, Selected(env, u, v), addr, values[n - 1]);
    }
  }

  lemma {:induction false} WriteSeqMeans(env: Env, t: Target, c: Cache, i: nat, op: Op)
    requires ValidOp(op) && op.WriteSeq? && Calm(c, t)
    ensures var (u, v) := Naive(env, t, c, op);
            Means(env, t, Lower(Planner(c, false), i, op), NaiveCache(c, op), u, [v])
  {
    hide Apply, Response, Run, Outputs, Choose, Selected, SelectFor, WriteSteps, NaiveWrites;
    var value, n := ApSelect(op), |op.values|;
    var choose, writes := Choose(Planner(c, false), i, value), WriteSteps(i, op.addr, op.values, n);
    var z := WriteSeqSteps(i, op)[n];
    ChooseMeans(env, t, c, i, value);
    var s := Run(env, t, choose);
    WritesMean(env, t, s, i, op.sel, op.addr, op.values, n);
    var w := Run(env, s, writes);
    RunConcat(env, s, writes, [z]);
    RunOne(env, w, z);
    BarrierCalm(env, w);
    RunConcat(env, t, choose, WriteSeqSteps(i, op));
    assert WriteSeqSteps(i, op) == writes + [z];
  }

  lemma {:induction false} BarrierCalm(env: Env, t: Target)
    ensures var u := Apply(env, t, BARRIER);
            && u.rdbuff == 0 && u.select == t.select
            && (t.rdbuff == 0 ==> Norm(u) == Norm(t))
            && Response(env, t, BARRIER) == t.rdbuff
            && Norm(u) == Norm(t.(rdbuff := 0))
  {
  }

  /** The sticky flags allow every step when the ones before it have taken effect. */
  ghost predicate Smooth(env: Env, t: Target, steps: seq<Step>) {
    forall j :: 0 <= j < |steps| ==> Allowed(env, t, Frames(steps), j)
  }

  lemma {:induction false} SmoothParts(env: Env, t: Target, a: seq<Step>, b: seq<Step>)
    requires Smooth(env, t, a + b)
    ensures Smooth(env, t, a) && Smooth(env, Run(env, t, a), b)
  {
    hide Exec, Sticky, Exempt;
    assert Frames(a + b) == Frames(a) + Frames(b);
    forall j | 0 <= j < |a|
      ensures Allowed(env, t, Frames(a), j)
    {
      assert Allowed(env, t, Frames(a + b), j);
      ExecPrefix(env, t, Frames(a), Frames(b), j);
    }
    forall j | 0 <= j < |b|
      ensures Allowed(env, Run(env, t, a), Frames(b), j)
    {
      assert Allowed(env, t, Frames(a + b), |a| + j);
      ExecConcat(env, t, Frames(a), Frames(b), j);
    }
  }

  /** One more posted read: it returns the previous result and posts its own. */
  lemma {:induction false} PostOne(env: Env, w: Target, u: Target, v: Word, addr: Word)
    requires Norm(w) == Norm(u.(select := v, rdbuff := w.rdbuff)) && u.rdbuff == 0
    requires !Sticky(Apply(env, w, ApFrame(addr, true, 0)))
    ensures var f := ApFrame(addr, true, 0);
            var w' := Apply(env, w, f);
            var (u', value) := Settled(env, Selected(env, u, v), f);
            && Response(env, w, f) == w.rdbuff
            && w'.rdbuff == value && u'.rdbuff == 0 && u'.select == v
            && Norm(w') == Norm(u'.(rdbuff := value))
  {
    hide Port, SetPower, ClearSticky;
  }

  /** `n` posted reads against `n` separate ones: the states differ only in the last
      result, which the target still holds. */
  lemma {:induction false} PostedMeans(env: Env, t: Target, c: Cache, s: Target, ops: seq<Op>, i: nat, n: nat)
    requires ValidOps(ops) && 0 < n && i + n <= |ops|
    requires ops[i].ReadSeq? && forall j :: i <= j < i + n ==> ops[j] == ops[i]
    requires t.rdbuff == 0 && s.rdbuff == 0 && Norm(s) == Norm(t.(select := ApSelect(ops[i])))
    requires forall k :: 0 < k <= n ==> !Sticky(Run(env, s, PostedSteps(i, ops[i].addr, k)))
    ensures var steps := PostedSteps(i, ops[i].addr, n);
            var w := Run(env, s, steps);
            var o := NaiveRun(env, t, c, ops, i, i + n);
            && Norm(w) == Norm(o.t.(rdbuff := w.rdbuff)) && o.t.rdbuff == 0 && o.t.select == ApSelect(ops[i])
            && o.c == Cached(ApSelect(ops[i]))
            && Outputs(env, s, steps, |steps|) + [w.rdbuff] == o.values
  {
    hide Apply, Response, Run, Outputs, Selected, SelectFor, Settled, Sticky;
    var op, v, addr := ops[i], ApSelect(ops[i]), ops[i].addr;
    var before := PostedSteps(i, addr, n - 1);
    var last := PostedSteps(i, addr, n)[n - 1];
    var w := Run(env, s, before);
    var o := NaiveRun(env, t, c, ops, i, i + n - 1);
    assert PostedSteps(i, addr, n) == before + [last];
    RunConcat(env, s, before, [last]);
    RunOne(env, w, last);
    if n == 1 {
      RunNone(env, s);
    } else {
      PostedMeans(env, t, c, s, ops, i, n - 1);
    }
    PostOne(env, w, o.t, v, addr);
  }

  lemma {:induction false} PostedPrefix(i: nat, addr: Word, n: nat, k: nat)
    requires k <= n
    ensures PostedSteps(i, addr, n)[..k] == PostedSteps(i, addr, k)
  {
    if k < n {
      PostedPrefix(i, addr, n - 1, k);
    }
  }

  lemma {:induction false} ReadSeqNeverExempt(i: nat, addr: Word, n: nat, k: nat)
    requires 0 < k <= n
    ensures |ReadSeqSteps(i, addr, n)| == n + 1 && NeverExempt(ReadSeqSteps(i, addr, n)[k].f.req)
  {
    if k < n {
      PostedStepsAt(i, addr, n, k);
    }
  }

  lemma {:induction false} FramesSplit(a: seq<Step>, b: seq<Step>)
    ensures Frames(a + b) == Frames(a) + Frames(b)
  {
  }

  /** Where the next step must be one that a sticky target rejects, nothing sticky was left. */
  lemma {:induction false} SmoothNotSticky(env: Env, s: Target, a: seq<Step>, b: seq<Step>)
    requires Smooth(env, s, a + b) && b != [] && NeverExempt(b[0].f.req)
    ensures !Sticky(Run(env, s, a))
  {
    hide Apply, Exec, Sticky;
    FramesSplit(a, b);
    ExecPrefix(env, s, Frames(a), Frames(b), |a|);
    assert Allowed(env, s, Frames(a + b), |a|);
    assert (a + b)[|a|] == b[0];
  }

  /** A smooth group never left a sticky flag behind: the step after each posted read
      is one that a sticky target would have rejected. */
  lemma {:induction false} PostedNotSticky(env: Env, s: Target, i: nat, addr: Word, n: nat, k: nat)
    requires 0 < k <= n && Smooth(env, s, ReadSeqSteps(i, addr, n))
    ensures !Sticky(Run(env, s, PostedSteps(i, addr, k)))
  {
    hide Apply, Exec, Sticky, Smooth, Run, NeverExempt;
    var steps := ReadSeqSteps(i, addr, n);
    PostedPrefix(i, addr, n, k);
    ReadSeqNeverExempt(i, addr, n, k);
    assert steps == PostedSteps(i, addr, k) + steps[k..];
    SmoothNotSticky(env, s, PostedSteps(i, addr, k), steps[k..]);
  }

  lemma {:induction false} GroupMeans(env: Env, t: Target, c: Cache, ops: seq<Op>, i: nat, e: nat)
    requires ValidOps(ops) && i < e <= |ops| && ops[i].ReadSeq?
    requires forall j :: i <= j < e ==> ops[j] == ops[i]
    requires Calm(c, t)
    requires Smooth(env, t, Choose(Planner(c, false), i, ApSelect(ops[i])) + ReadSeqSteps(i, ops[i].addr, e - i))
    ensures var o := NaiveRun(env, t, c, ops, i, e);
            Means(env, t, Choose(Planner(c, false), i, ApSelect(ops[i])) + ReadSeqSteps(i, ops[i].addr, e - i),
                  o.c, o.t, o.values)
  {
    hide Apply, Response, Run, Outputs, Choose, Selected, SelectFor, PostedSteps, NaiveRun, Sticky, Smooth;
    var v, n, addr := ApSelect(ops[i]), e - i, ops[i].addr;
    var choose, group := Choose(Planner(c, false), i, v), ReadSeqSteps(i, addr, n);
    var posted, z := PostedSteps(i, addr, n), group[n];
    SmoothParts(env, t, choose, group);
    ChooseMeans(env, t, c, i, v);
    var s := Run(env, t, choose);
    forall k | 0 < k <= n
      ensures !Sticky(Run(env, s, PostedSteps(i, addr, k)))
    {
      PostedNotSticky(env, s, i, addr, n, k);
    }
    PostedMeans(env, t, c, s, ops, i, n);
    var w := Run(env, s, posted);
    RunConcat(env, t, choose, group);
    RunConcat(env, s, posted, [z]);
    assert group == posted + [z];
    RunOne(env, w, z);
    BarrierCalm(env, w);
  }

  /** Queues that read RESEND depend on earlier traffic and are not covered. */
  ghost predicate NoResend(ops: seq<Op>) {
    forall i :: 0 <= i < |ops| ==> ops[i] != ReadDp(RESEND)
  }

  lemma {:induction false} NaiveWritesNorm(env: Env, t: Target, u: Target, sel: Word, addr: Word, values: seq<Word>,
                                           n: nat)
    requires Norm(t) == Norm(u) && ValidAddress(sel, addr) && n <= |values|
    ensures Norm(NaiveWrites(env, t, sel, addr, values, n)) == Norm(NaiveWrites(env, u, sel, addr, values, n))
  {
    hide Norm, Settled, Selected, SelectFor;
    if n > 0 {
      NaiveWritesNorm(env, t, u, sel, addr, values, n - 1);
      NaiveApNorm(env, NaiveWrites(env, t, sel, addr, values, n - 1), NaiveWrites(env, u, sel, addr, values, n - 1),
                  sel, addr, false, values[n - 1]);
    }
  }

  lemma {:induction false} SelectedNorm(env: Env, t: Target, u: Target, value: Word)
    requires Norm(t) == Norm(u)
    ensures Norm(Selected(env, t, value)) == Norm(Selected(env, u, value))
  {
    hide Selected;
    SelectedIs(env, t, value);
    SelectedIs(env, u, value);
  }

  lemma {:induction false} NaiveApNorm(env: Env, t: Target, u: Target, sel: Word, addr: Word, read: bool, data: Word)
    requires Norm(t) == Norm(u) && ValidAddress(sel, addr)
    ensures Norm(NaiveAp(env, t, sel, addr, read, data).0) == Norm(NaiveAp(env, u, sel, addr, read, data).0)
    ensures NaiveAp(env, t, sel, addr, read, data).1 == NaiveAp(env, u, sel, addr, read, data).1
  {
    hide Norm, Settled, Selected, SelectFor;
    var v := SelectFor(sel, addr);
    SelectedNorm(env, t, u, v);
    SettledNorm(env, Selected(env, t, v), Selected(env, u, v), ApFrame(addr, read, data));
  }

  lemma {:induction false} NaiveNorm(env: Env, t: Target, u: Target, c: Cache, op: Op)
    requires Norm(t) == Norm(u) && ValidOp(op) && op != ReadDp(RESEND)
    ensures Norm(Naive(env, t, c, op).0) == Norm(Naive(env, u, c, op).0)
    ensures Naive(env, t, c, op).1 == Naive(env, u, c, op).1
  {
    hide Norm, Settled, Selected, SelectFor, Apply, Response, BankValue, NaiveAp, NaiveWrites;
    match op
    case ReadDp(reg) =>
      var v := BankValue(c, BankFor(reg));
      SelectedNorm(env, t, u, v);
      var t', u' := if Banked(reg) then Selected(env, t, v) else t, if Banked(reg) then Selected(env, u, v) else u;
      ApplyNorm(env, t', u', DpFrame(reg, true, 0));
    case WriteDp(reg, data) =>
      var v := BankValue(c, BankFor(reg));
      SelectedNorm(env, t, u, v);
      var t', u' := if Banked(reg) then Selected(env, t, v) else t, if Banked(reg) then Selected(env, u, v) else u;
      SettledNorm(env, t', u', DpFrame(reg, false, data));
    case ReadIdr(sel) => NaiveApNorm(env, t, u, sel, IDR, true, 0);
    case ReadAp(sel, addr, _) => NaiveApNorm(env, t, u, sel, addr, true, 0);
    case WriteAp(sel, addr, data, _) => NaiveApNorm(env, t, u, sel, addr, false, data);
    case ReadSeq(sel, addr) => NaiveApNorm(env, t, u, sel, addr, true, 0);
    case WriteSeq(sel, addr, values) => NaiveWritesNorm(env, t, u, sel, addr, values, |values|);
  }

  /** The reference run in two parts, the second from any state that differs at most
      in RESEND. */
  lemma {:induction false} NaiveSplit(env: Env, t: Target, c: Cache, ops: seq<Op>, i: nat, e: nat, j: nat, u: Target)
    requires ValidOps(ops) && NoResend(ops) && i <= e <= j <= |ops|
    requires Norm(u) == Norm(NaiveRun(env, t, c, ops, i, e).t)
    ensures var first := NaiveRun(env, t, c, ops, i, e);
            var second := NaiveRun(env, u, first.c, ops, e, j);
            var whole := NaiveRun(env, t, c, ops, i, j);
            && Norm(whole.t) == Norm(second.t) && whole.c == second.c
            && whole.values == first.values + second.values
    decreases j
  {
    hide Norm, Naive, NaiveCache;
    if e < j {
      NaiveSplit(env, t, c, ops, i, e, j - 1, u);
      var first := NaiveRun(env, t, c, ops, i, e);
      NaiveNorm(env, NaiveRun(env, t, c, ops, i, j - 1).t, NaiveRun(env, u, first.c, ops, e, j - 1).t,
                NaiveRun(env, t, c, ops, i, j - 1).c, ops[j - 1]);
    }
  }

  lemma {:induction false} AfterSettled(c: Cache, op: Op)
    requires ValidOp(op)
    ensures After(Planner(c, false), op) == Planner(NaiveCache(c, op), false)
  {
    hide BankValue, SelectFor;
  }

  lemma {:induction false} NaiveOne(env: Env, t: Target, c: Cache, ops: seq<Op>, i: nat)
    requires ValidOps(ops) && i < |ops|
    ensures NaiveRun(env, t, c, ops, i, i + 1) ==
            Outcome(Naive(env, t, c, ops[i]).0, NaiveCache(c, ops[i]), [Naive(env, t, c, ops[i]).1])
  {
    hide Naive, NaiveCache;
    assert NaiveRun(env, t, c, ops, i, i) == Outcome(t, c, []);
  }

  lemma {:induction false} LowerMeans(env: Env, t: Target, c: Cache, ops: seq<Op>, i: nat)
    requires ValidOps(ops) && i < |ops| && !ops[i].ReadSeq? && ops[i] != ReadDp(RESEND) && Calm(c, t)
    ensures var o := NaiveRun(env, t, c, ops, i, i + 1);
            Means(env, t, Lower(Planner(c, false), i, ops[i]), o.c, o.t, o.values)
  {
    hide Means, Naive, Lower, NaiveRun;
    NaiveOne(env, t, c, ops, i);
    var op := ops[i];
    if op.ReadDp? || op.WriteDp? {
      DpMeans(env, t, c, i, op);
    } else if op.WriteSeq? {
      WriteSeqMeans(env, t, c, i, op);
    } else {
      ApMeans(env, t, c, i, op);
    }
  }

  /** Two consecutive parts of a plan. */
  lemma {:induction false} MeansConcat(env: Env, t: Target, c: Cache, ops: seq<Op>, i: nat, e: nat, a: seq<Step>,
                                       b: seq<Step>)
    requires ValidOps(ops) && NoResend(ops) && i <= e <= |ops|
    requires var o := NaiveRun(env, t, c, ops, i, e); Means(env, t, a, o.c, o.t, o.values)
    requires var s := Run(env, t, a);
             var o := NaiveRun(env, s, NaiveRun(env, t, c, ops, i, e).c, ops, e, |ops|);
             Means(env, s, b, o.c, o.t, o.values)
    ensures var o := NaiveRun(env, t, c, ops, i, |ops|); Means(env, t, a + b, o.c, o.t, o.values)
  {
    hide Run, Outputs, NaiveRun, Norm, NoResend;
    NaiveSplit(env, t, c, ops, i, e, |ops|, Run(env, t, a));
    RunConcat(env, t, a, b);
  }

  /** Lowering preserves meaning: when no step meets a sticky flag, the plan returns for
      every operation the value, and leaves the target in the state, that running the
      operations one at a time gives. */
  lemma {:induction false} PlanMeans(env: Env, t: Target, c: Cache, ops: seq<Op>, i: nat)
    requires ValidOps(ops) && NoResend(ops) && i <= |ops| && Calm(c, t)
    requires Smooth(env, t, Plan(Planner(c, false), ops, i))
    ensures var o := NaiveRun(env, t, c, ops, i, |ops|);
            Means(env, t, Plan(Planner(c, false), ops, i), o.c, o.t, o.values)
    decreases |ops| - i
  {
    hide Run, Outputs, Means, NaiveRun, Smooth, Lower, Choose, ReadSeqSteps, After, NaiveCache, Norm, Calm;
    var p := Planner(c, false);
    if i == |ops| {
      MeansNone(env, t, c, ops);
    } else if ops[i].ReadSeq? {
      var e := GroupEnd(ops, i, i + 1);
      var a := Choose(p, i, ApSelect(ops[i])) + ReadSeqSteps(i, ops[i].addr, e - i);
      var b := Plan(After(p, ops[i]), ops, e);
      SmoothParts(env, t, a, b);
      GroupMeans(env, t, c, ops, i, e);
      GroupCache(env, t, c, ops, i, e);
      RestMeans(env, t, c, ops, i, e, a, b);
    } else {
      var a, b := Lower(p, i, ops[i]), Plan(After(p, ops[i]), ops, i + 1);
      SmoothParts(env, t, a, b);
      LowerMeans(env, t, c, ops, i);
      NaiveOne(env, t, c, ops, i);
      RestMeans(env, t, c, ops, i, i + 1, a, b);
    }
  }

  lemma {:induction false} RestMeans(env: Env, t: Target, c: Cache, ops: seq<Op>, i: nat, e: nat, a: seq<Step>,
                                     b: seq<Step>)
    requires ValidOps(ops) && NoResend(ops) && i < e <= |ops|
    requires var o := NaiveRun(env, t, c, ops, i, e);
             && Means(env, t, a, o.c, o.t, o.values) && o.c == NaiveCache(c, ops[i])
    requires b == Plan(After(Planner(c, false), ops[i]), ops, e) && Smooth(env, Run(env, t, a), b)
    ensures var o := NaiveRun(env, t, c, ops, i, |ops|); Means(env, t, a + b, o.c, o.t, o.values)
    decreases |ops| - i, 0
  {
    hide Run, Outputs, NaiveRun, Smooth, NaiveCache, Norm, Plan, Calm, After;
    AfterSettled(c, ops[i]);
    PlanMeans(env, Run(env, t, a), NaiveCache(c, ops[i]), ops, e);
    MeansConcat(env, t, c, ops, i, e, a, b);
  }

  lemma {:induction false} MeansNone(env: Env, t: Target, c: Cache, ops: seq<Op>)
    requires ValidOps(ops) && Calm(c, t)
    ensures var o := NaiveRun(env, t, c, ops, |ops|, |ops|); Means(env, t, [], o.c, o.t, o.values)
  {
    RunNone(env, t);
  }

  lemma {:induction false} GroupCache(env: Env, t: Target, c: Cache, ops: seq<Op>, i: nat, e: nat)
    requires ValidOps(ops) && i < e <= |ops| && ops[i].ReadSeq?
    requires forall j :: i <= j < e ==> ops[j] == ops[i]
    ensures NaiveRun(env, t, c, ops, i, e).c == NaiveCache(c, ops[i])
  {
    hide Naive, SelectFor;
  }
}
