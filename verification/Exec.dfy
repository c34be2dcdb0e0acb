/** Running a plan in batches: what the host's state and the target's have in common
    after every accepted step. */
module DapExec {
  import opened Options
  import opened Words
  import opened SwdTarget
  import opened SwdLink
  import opened SwdBatch
  import opened DapPlan
  import opened DapPlanShape
  import opened DapMeaning
  import opened DapState

  // ----- The host's state after accepted steps -----

  /** What a step's outcome says about provisional writes. */
  function ObserveStep(st: PortState, s: Step, value: Word, e: Failure): PortState {
    var m := Resolve(st, s.f.req, value, e);
    if (s.settles && (e.NoError? || e.Parity?)) || (!s.settles && SettlesPreviousWrite(s.f.req, e)) then
      m.(writePending := false)
    else m
  }

  function RecordWrite(st: PortState, s: Step): PortState {
    var m := st.(writePending := true);
    var m' := if s.reg == Some(SELECT) then RecordSelect(m, s.f.data) else m;
    if s.reg == Some(ABORT) && AbortsDap(s.f.data) && !s.invalidates then InvalidateAp(m') else m'
  }

  function RecordRead(st: PortState, s: Step, value: Word): PortState {
    var m := if s.reg != Some(DPIDR) && s.reg != Some(CTRLSTAT) then st.(writePending := false) else st;
    if s.reg == Some(CTRLSTAT) && IsBankZero(m.select) then ConfirmResponse(m, value) else m
  }

  function AcceptStep(st: PortState, s: Step, value: Word): PortState {
    var m := ObserveStep(st, s, value, NoError);
    var m' := if s.f.req.ap then m else if s.f.req.read then RecordRead(m, s, value) else RecordWrite(m, s);
    if s.deliver && s.invalidates then InvalidateAp(m') else m'
  }

  function AcceptTo(st: PortState, steps: seq<Step>, values: seq<Word>, i: nat): PortState
    requires i <= |steps| && i <= |values|
  {
    if i == 0 then st else AcceptStep(AcceptTo(st, steps, values, i - 1), steps[i - 1], values[i - 1])
  }

  /** Steps that follow one another in a plan. A provisional SELECT at the start is
      settled by the first. */
  ghost predicate Chain(pending: bool, steps: seq<Step>) {
    && (pending ==> steps != [] && steps[0].f.req == RDBUFF_READ)
    && (forall j :: 0 <= j < |steps| ==> Local(steps[j]))
    && (forall j :: 0 <= j < |steps| - 1 ==> Adjacent(steps[j], steps[j + 1]))
  }

  /** The state of a port in the middle of a plan: SELECT is provisional only behind
      a SELECT write. */
  ghost predicate Between(st: PortState, steps: seq<Step>, i: nat)
    requires i <= |steps|
  {
    && (st.pending ==> st.select.Cached? && st.writePending)
    && (st.pending ==> i < |steps| && steps[i].f.req == RDBUFF_READ)
  }

  lemma {:induction false} AcceptExact(env: Env, st: PortState, s: Step, value: Word, t: Target)
    requires Local(s) && Exact(st, t)
    requires st.pending ==> s.f.req == RDBUFF_READ
    ensures Exact(AcceptStep(st, s, value), Apply(env, t, s.f))
    ensures var m := AcceptStep(st, s, value);
            && (m.pending <==> IsSelectWrite(s.f.req))
            && (m.pending ==> m.select.Cached? && m.writePending && m.prior == st.select)
            && (m.response == st.response || s.reg == Some(CTRLSTAT))
            && m.session == st.session
            && (m.select.Cached? <==> st.select.Cached? || IsSelectWrite(s.f.req))
  {
    hide Port, SetPower, ClearSticky, OrunDetect, AbortsDap, BankOf;
  }

  /** Whatever the values were, the cache follows the writes. */
  lemma {:induction false} AcceptToExact(env: Env, st: PortState, steps: seq<Step>, values: seq<Word>, t: Target,
                                         i: nat)
    requires i <= |steps| && i <= |values| && Chain(st.pending, steps) && Exact(st, t)
    requires st.pending ==> st.select.Cached?
    ensures Exact(AcceptTo(st, steps, values, i), Exec(env, t, Frames(steps), i))
    ensures i > 0 ==> (AcceptTo(st, steps, values, i).pending <==> IsSelectWrite(steps[i - 1].f.req))
    ensures i > 0 && AcceptTo(st, steps, values, i).pending ==> AcceptTo(st, steps, values, i).writePending
    ensures AcceptTo(st, steps, values, i).pending ==> AcceptTo(st, steps, values, i).select.Cached?
    ensures AcceptTo(st, steps, values, i).select.Cached? <==> Knows(st.select.Cached?, steps, i)
  {
    hide Apply, AcceptStep, Local, Exact;
    if i > 0 {
      AcceptToExact(env, st, steps, values, t, i - 1);
      var m := AcceptTo(st, steps, values, i - 1);
      assert i > 1 ==> Adjacent(steps[i - 2], steps[i - 1]);
      AcceptExact(env, m, steps[i - 1], values[i - 1], Exec(env, t, Frames(steps), i - 1));
    }
  }

  // ----- The target's state after a batch -----

  /** Frames went out behind one that came back with bad parity. */
  predicate Posted(res: seq<Res>, f: nat) {
    f + 1 < |res| && res[f].e.Parity? && !res[f + 1].e.Unsent?
  }

  /** A request that the target did not reject found the SELECT write before it in effect. */
  lemma {:induction false} AllowedExact(env: Env, st: PortState, steps: seq<Step>, t: Target)
    requires steps != [] && Chain(st.pending, steps) && Agrees(st, t) && Allowed(env, t, Frames(steps), 0)
    ensures Exact(st, t)
  {
    ExecNone(env, t, Frames(steps));
  }

  lemma {:induction false} LostAgrees(env: Env, st: PortState, s: Step, value: Word, t: Target)
    requires Local(s) && Exact(st, t) && !s.f.req.read
    requires st.pending ==> s.f.req == RDBUFF_READ
    ensures Agrees(AcceptStep(st, s, value), Lose(t))
  {
    hide AcceptStep, Apply;
    AcceptExact(Env(0, _ => 0, _ => 0, _ => false), st, s, value, t);
    LostSelect(Env(0, _ => 0, _ => 0, _ => false), t, s.f);
  }

  lemma {:induction false} LostSelect(env: Env, t: Target, f: Frame)
    ensures !IsSelectWrite(f.req) ==> Apply(env, t, f).select == t.select
    ensures Lose(t).select == t.select && Lose(t).ctrl.wdata
    ensures Reject(t).select == t.select && Reject(t).ctrl.wdata == t.ctrl.wdata
  {
  }

  lemma {:induction false} TookAgrees(env: Env, st: PortState, steps: seq<Step>, values: seq<Word>, t: Target, f: nat,
                                      t': Target)
    requires 0 < f <= |steps| && f <= |values| && Chain(st.pending, steps) && Exact(st, t)
    requires st.pending ==> st.select.Cached?
    requires Took(env, t, Frames(steps), f, t')
    ensures Agrees(AcceptTo(st, steps, values, f), t')
  {
    hide Apply, AcceptStep, Local, Lose;
    AcceptToExact(env, st, steps, values, t, f);
    AcceptToExact(env, st, steps, values, t, f - 1);
    var m := AcceptTo(st, steps, values, f - 1);
    assert f > 1 ==> Adjacent(steps[f - 2], steps[f - 1]);
    AcceptExact(env, m, steps[f - 1], values[f - 1], Exec(env, t, Frames(steps), f - 1));
    if t' != Exec(env, t, Frames(steps), f) {
      LostAgrees(env, m, steps[f - 1], values[f - 1], Exec(env, t, Frames(steps), f - 1));
    }
  }

  lemma {:induction false} RejectAgrees(st: PortState, t: Target)
    requires Agrees(st, t)
    ensures Agrees(st, Reject(t))
  {
  }

  lemma {:induction false} ResumedPlace(st: PortState, s: Target, t: Target)
    requires Resumed(s, t)
    ensures t.select == s.select && t.hist == s.hist
    ensures Agrees(st, s) ==> Agrees(st, t)
  {
  }

  /** The cache agrees with the target wherever a batch stopped, unless frames went
      out behind a bad-parity one. */
  lemma {:induction false} BatchAgrees(env: Env, st: PortState, steps: seq<Step>, values: seq<Word>, t: Target,
                                       res: seq<Res>, f: nat, k: nat, t': Target)
    requires steps != [] && Chain(st.pending, steps) && Agrees(st, t)
    requires Delivered(env, t, Frames(steps), res, f, k, t') && f <= |values|
    requires f < |res| ==> !res[f].e.Uncertain? && !res[f].e.Unclean? && !Posted(res, f)
    ensures Agrees(AcceptTo(st, steps, values, f), t')
    ensures f < |res| && (res[f].e.Wait? || res[f].e.Parity?) ==> Exact(AcceptTo(st, steps, values, f), t')
  {
    hide Exec, Apply, AcceptStep, Local, Lose, Reject, ValuesTo, HistAfter, Allowed, Chain, Resumed;
    var fs := Frames(steps);
    if k > 0 || (f < |res| && res[f].e.Wait? && f == 0) {
      AllowedExact(env, st, steps, t);
      AcceptToExact(env, st, steps, values, t, f);
    }
    ExecNone(env, t, fs);
    if f == |res| {
      TookAgrees(env, st, steps, values, t, f, t');
    } else if res[f].e.Wait? {
      ResumedPlace(AcceptTo(st, steps, values, f), Exec(env, t, fs, f), t');
    } else if res[f].e.Parity? {
      ReadKeepsSelect(env, t, steps, f);
    } else if f == 0 {
      RejectAgrees(st, t);
    } else {
      RejectedAgrees(env, st, steps, values, t, f, t');
    }
  }

  lemma {:induction false} ReadKeepsSelect(env: Env, t: Target, steps: seq<Step>, f: nat)
    requires f < |steps| && steps[f].f.req.read
    ensures Exec(env, t, Frames(steps), f + 1).select == Exec(env, t, Frames(steps), f).select
  {
  }

  lemma {:induction false} RejectedAgrees(env: Env, st: PortState, steps: seq<Step>, values: seq<Word>, t: Target,
                                          f: nat, t': Target)
    requires 0 < f <= |steps| && f <= |values| && Chain(st.pending, steps) && Exact(st, t)
    requires st.pending ==> st.select.Cached?
    requires RejectedAt(env, t, Frames(steps), f, t')
    ensures Agrees(AcceptTo(st, steps, values, f), t')
  {
    hide Exec, Lose, Reject, Agrees, Exact, Chain, AcceptTo;
    var fs := Frames(steps);
    var m := AcceptTo(st, steps, values, f);
    var u := if t' == Reject(Exec(env, t, fs, f)) then Exec(env, t, fs, f) else Lose(Exec(env, t, fs, f - 1));
    if Took(env, t, fs, f, t') {
      TookAgrees(env, st, steps, values, t, f, t');
    } else {
      TookAgrees(env, st, steps, values, t, f, u);
      RejectAgrees(m, u);
    }
  }

  // ----- Where the target is in the plan -----

  /** Two states that no request of a plan tells apart: RESEND aside, they differ at most
      in stale data of an earlier read. With `clean` there was none, and data that the
      plan itself posted is never stale. */
  ghost predicate Like(clean: bool, posted: bool, t: Target, u: Target) {
    && t.ctrl == u.ctrl && t.select == u.select && t.dlcr == u.dlcr && t.hist == u.hist
    && (clean || (posted && !Sticky(u)) ==> t.rdbuff == u.rdbuff)
  }

  predicate ReadBehind(steps: seq<Step>, c: nat)
    requires c <= |steps|
  {
    c > 0 && IsApRead(steps[c - 1])
  }

  lemma {:induction false} LikeApply(env: Env, clean: bool, posted: bool, t: Target, u: Target, f: Frame)
    requires Like(clean, posted, t, u)
    ensures Like(clean, f.req.ap && f.req.read, Apply(env, t, f), Apply(env, u, f))
  {
    hide SetPower, ClearSticky, Port;
  }

  /** What a state like the plan's answers, where that is delivered. */
  lemma {:induction false} LikeResponse(env: Env, clean: bool, posted: bool, t: Target, u: Target, f: Frame)
    requires Like(clean, posted, t, u)
    requires clean || (posted && !Sticky(u)) || (!f.req.ap && (f.req.addr == 0x00 || f.req.addr == 0x04))
    requires !f.req.ap ==> f.req.addr != 0x08
    ensures Response(env, t, f) == Response(env, u, f)
  {
    hide CtrlWord;
  }

  /** A run from a state like the plan's stays like the plan's. */
  lemma {:induction false} LikeExec(env: Env, clean: bool, t: Target, u0: Target, steps: seq<Step>, c: nat, e: nat,
                                    i: nat)
    requires c <= e <= |steps| && i <= e - c
    requires Like(clean, ReadBehind(steps, c), t, Exec(env, u0, Frames(steps), c))
    ensures Like(clean, ReadBehind(steps, c + i), Exec(env, t, Frames(steps[c..e]), i),
                 Exec(env, u0, Frames(steps), c + i))
  {
    hide Apply, Like;
    if i > 0 {
      LikeExec(env, clean, t, u0, steps, c, e, i - 1);
      var f := steps[c + i - 1].f;
      assert steps[c..e][i - 1] == steps[c + i - 1];
      LikeApply(env, clean, ReadBehind(steps, c + i - 1), Exec(env, t, Frames(steps[c..e]), i - 1),
                Exec(env, u0, Frames(steps), c + i - 1), f);
    } else {
      ExecNone(env, t, Frames(steps[c..e]));
    }
  }

  lemma {:induction false} LikeAllowed(env: Env, clean: bool, t: Target, u0: Target, steps: seq<Step>, c: nat, e: nat,
                                       i: nat)
    requires c <= e <= |steps| && i < e - c
    requires Like(clean, ReadBehind(steps, c), t, Exec(env, u0, Frames(steps), c))
    ensures Allowed(env, t, Frames(steps[c..e]), i) == Allowed(env, u0, Frames(steps), c + i)
  {
    hide Exec;
    LikeExec(env, clean, t, u0, steps, c, e, i);
  }

  lemma {:induction false} LikeHist(env: Env, clean: bool, t: Target, u0: Target, steps: seq<Step>, c: nat, e: nat,
                                    k: nat, t': Target)
    requires c <= e <= |steps| && k <= e - c
    requires Like(clean, ReadBehind(steps, c), t, Exec(env, u0, Frames(steps), c))
    requires HistAfter(env, t, Frames(steps[c..e]), k, t')
    ensures HistAfter(env, u0, Frames(steps), c + k, t')
  {
    hide Exec;
    LikeExec(env, clean, t, u0, steps, c, e, k);
    if k > 0 {
      LikeExec(env, clean, t, u0, steps, c, e, k - 1);
    }
  }

  /** The target is where the first `c` steps lead from `u0`; or it is stuck on a sticky
      flag that makes it reject the next one. */
  ghost predicate Tracked(env: Env, u0: Target, clean: bool, steps: seq<Step>, c: nat, t: Target)
    requires c <= |steps|
  {
    && (Like(clean, ReadBehind(steps, c), t, Exec(env, u0, Frames(steps), c)) || Stuck(env, u0, steps, c, t))
    && AllowedAll(env, u0, steps, c)
  }

  ghost predicate Stuck(env: Env, u0: Target, steps: seq<Step>, c: nat, t: Target)
    requires c <= |steps|
  {
    && c < |steps| && Sticky(t) && !Exempt(steps[c].f.req, t.select)
    && HistAfter(env, u0, Frames(steps), c, t)
  }

  ghost predicate AllowedAll(env: Env, u0: Target, steps: seq<Step>, c: nat)
    requires c <= |steps|
  {
    forall j :: 0 <= j < c ==> Allowed(env, u0, Frames(steps), j)
  }

  lemma {:induction false} FramesPart(steps: seq<Step>, c: nat, e: nat)
    requires c <= e <= |steps|
    ensures Frames(steps[c..e]) == Frames(steps)[c..e]
  {
  }

  lemma {:induction false} StuckRejects(env: Env, u0: Target, steps: seq<Step>, c: nat, e: nat, t: Target)
    requires c < e <= |steps| && Stuck(env, u0, steps, c, t)
    ensures !Allowed(env, t, Frames(steps[c..e]), 0)
  {
    ExecNone(env, t, Frames(steps[c..e]));
  }

  /** The first steps of a batch were accepted, so the target was where the plan says. */
  lemma {:induction false} AcceptedTracked(env: Env, u0: Target, clean: bool, steps: seq<Step>, c: nat, e: nat,
                                           t: Target, res: seq<Res>, f: nat, k: nat, t': Target)
    requires c < e <= |steps| && Tracked(env, u0, clean, steps, c, t)
    requires Delivered(env, t, Frames(steps[c..e]), res, f, k, t')
    ensures c + k <= |steps| && HistAfter(env, u0, Frames(steps), c + k, t')
    ensures AllowedAll(env, u0, steps, c + k)
    ensures k > 0 || (f < |res| && res[f].e.Wait?) ==>
              Like(clean, ReadBehind(steps, c), t, Exec(env, u0, Frames(steps), c))
  {
    hide Exec, Allowed, Took, Sticky, Exempt, Response, ValuesTo, Resumed, Stopped, Like, ReadBehind;
    var fs, part := Frames(steps), Frames(steps[c..e]);
    if Stuck(env, u0, steps, c, t) {
      StuckRejects(env, u0, steps, c, e, t);
      ExecNone(env, t, part);
    }
    if Like(clean, ReadBehind(steps, c), t, Exec(env, u0, fs, c)) {
      LikeHist(env, clean, t, u0, steps, c, e, k, t');
      forall j | 0 <= j < c + k
        ensures Allowed(env, u0, fs, j)
      {
        if j >= c {
          LikeAllowed(env, clean, t, u0, steps, c, e, j - c);
          assert Allowed(env, t, part, j - c);
        }
      }
    }
  }

  /** A whole batch succeeded. A write whose data was lost has its barrier still ahead. */
  lemma {:induction false} BatchTracked(env: Env, u0: Target, clean: bool, steps: seq<Step>, c: nat, e: nat, t: Target,
                                        res: seq<Res>, k: nat, t': Target, last: nat)
    requires c < e <= |steps| && Block(steps, 0, last) && Tracked(env, u0, clean, steps, c, t)
    requires Delivered(env, t, Frames(steps[c..e]), res, e - c, k, t')
    ensures Tracked(env, u0, clean, steps, e, t')
  {
    hide Exec, Allowed, Response, ValuesTo, Resumed, Stopped, AllowedTo, HistAfter, Lose, Tracked, AllowedAll, Block,
         Exempt, Stuck, Like, ReadBehind;
    AcceptedTracked(env, u0, clean, steps, c, e, t, res, e - c, k, t');
    LikeExec(env, clean, t, u0, steps, c, e, e - c);
    if t' == Exec(env, t, Frames(steps[c..e]), e - c) {
      TrackedLike(env, u0, clean, steps, e, t');
    } else {
      assert steps[c..e][e - c - 1] == steps[e - 1];
      LostStuck(env, u0, clean, steps, e, t', Exec(env, t, Frames(steps[c..e]), e - c - 1), last);
    }
  }

  lemma {:induction false} TrackedLike(env: Env, u0: Target, clean: bool, steps: seq<Step>, c: nat, t: Target)
    requires c <= |steps| && AllowedAll(env, u0, steps, c)
    requires Like(clean, ReadBehind(steps, c), t, Exec(env, u0, Frames(steps), c))
    ensures Tracked(env, u0, clean, steps, c, t)
  {
  }

  lemma {:induction false} LostStuck(env: Env, u0: Target, clean: bool, steps: seq<Step>, e: nat, t: Target, s: Target,
                                     last: nat)
    requires 0 < e <= |steps| && Block(steps, 0, last) && AllowedAll(env, u0, steps, e)
    requires !steps[e - 1].f.req.read && t == Lose(s)
    requires HistAfter(env, u0, Frames(steps), e, t)
    ensures Tracked(env, u0, clean, steps, e, t)
  {
    hide Exec, Allowed, Local, Like;
    assert NeedsBarrier(steps[e - 1]);
    assert e < |steps|;
    assert Adjacent(steps[e - 1], steps[e]);
  }

  /** Nothing is posted except right behind an AP read, and the next step collects that. */
  lemma {:induction false} NothingPosted(env: Env, u0: Target, steps: seq<Step>, c: nat, last: nat)
    requires c <= |steps| && Block(steps, 0, last) && u0.rdbuff == 0
    ensures Exec(env, u0, Frames(steps), c).rdbuff == 0 || ReadBehind(steps, c)
  {
    hide SetPower, ClearSticky, Port, Block;
    if c > 0 {
      NothingPosted(env, u0, steps, c - 1, last);
      if c > 1 {
        BlockAdjacent(steps, 0, last, c - 2);
      }
      BlockLocal(steps, 0, last, c - 1);
    }
  }

  lemma {:induction false} BlockAdjacent(steps: seq<Step>, first: nat, last: nat, j: nat)
    requires Block(steps, first, last) && j + 1 < |steps|
    ensures Adjacent(steps[j], steps[j + 1])
  {
    hide Adjacent, Local;
  }

  lemma {:induction false} BlockLocal(steps: seq<Step>, first: nat, last: nat, j: nat)
    requires Block(steps, first, last) && j < |steps|
    ensures Local(steps[j])
    ensures j + 1 == |steps| ==> !NeedsBarrier(steps[j]) && steps[j].deliver && steps[j].op + 1 == last
  {
    hide Adjacent, Local;
  }

  /** After WAIT the target is where it was, or stuck: what the cleanup discards was
      already collected. `s` is the state the WAIT met. */
  lemma {:induction false} WaitTracked(env: Env, u0: Target, clean: bool, steps: seq<Step>, c: nat, s: Target,
                                       t: Target, last: nat)
    requires c < |steps| && Block(steps, 0, last) && u0.rdbuff == 0 && AllowedAll(env, u0, steps, c)
    requires Like(clean, ReadBehind(steps, c), s, Exec(env, u0, Frames(steps), c))
    requires Allowed(env, u0, Frames(steps), c) && Resumed(s, t)
    requires !Exempt(steps[c].f.req, s.select) && (Collects(steps[c]) ==> !Overrun(s))
    ensures Tracked(env, u0, clean, steps, c, t)
  {
    hide Exec, Block, AllowedAll;
    NothingPosted(env, u0, steps, c, last);
    if c > 0 {
      BlockAdjacent(steps, 0, last, c - 1);
    }
    assert !Sticky(s);
    assert t == Lose(s.(ctrl := s.ctrl.(overrun := true))) ==> Stuck(env, u0, steps, c, t);
  }

  // ----- What has been delivered -----

  /** What the first `i` steps deliver, given the values they returned. */
  function HostOutputs(steps: seq<Step>, values: seq<Word>, i: nat): seq<Word>
    requires i <= |steps| && i <= |values|
  {
    if i == 0 then []
    else
      HostOutputs(steps, values, i - 1) +
      (if steps[i - 1].deliver then [if steps[i - 1].deliverValue then values[i - 1] else 0] else [])
  }

  /** How many operations the first `i` steps complete. */
  function Delivers(steps: seq<Step>, i: nat): nat
    requires i <= |steps|
  {
    if i == 0 then 0 else Delivers(steps, i - 1) + (if steps[i - 1].deliver then 1 else 0)
  }

  /** A step belongs to the first operation that is not yet complete. */
  lemma {:induction false} OpIndex(steps: seq<Step>, last: nat, i: nat)
    requires Block(steps, 0, last) && i <= |steps|
    ensures i < |steps| ==> steps[i].op == Delivers(steps, i) < last
    ensures i == |steps| ==> Delivers(steps, i) == last
    decreases |steps| - i
  {
    hide Block, Adjacent, Local;
    if i < |steps| {
      BlockLocal(steps, 0, last, i);
      OpIndexUp(steps, last, i);
      if i + 1 < |steps| {
        OpIndex(steps, last, i + 1);
        BlockAdjacent(steps, 0, last, i);
        AdjacentOps(steps[i], steps[i + 1]);
      }
    } else {
      OpIndexEnd(steps, last);
    }
  }

  lemma {:induction false} AdjacentOps(s: Step, next: Step)
    requires Adjacent(s, next)
    ensures next.op == s.op + (if s.deliver then 1 else 0)
  {
  }

  lemma {:induction false} OpIndexUp(steps: seq<Step>, last: nat, i: nat)
    requires Block(steps, 0, last) && i < |steps|
    ensures steps[i].op == Delivers(steps, i)
  {
    hide Adjacent, Local;
    if i > 0 {
      OpIndexUp(steps, last, i - 1);
      AdjacentOps(steps[i - 1], steps[i]);
    }
  }

  lemma {:induction false} OpIndexEnd(steps: seq<Step>, last: nat)
    requires Block(steps, 0, last)
    ensures Delivers(steps, |steps|) == last
  {
    hide Adjacent, Local;
    if steps != [] {
      OpIndexUp(steps, last, |steps| - 1);
    }
  }

  lemma {:induction false} HostCount(steps: seq<Step>, c: nat, e: nat, values: seq<Word>, i: nat)
    requires c <= e <= |steps| && i <= e - c && i <= |values|
    ensures |HostOutputs(steps[c..e], values, i)| == Delivers(steps, c + i) - Delivers(steps, c)
  {
    if i > 0 {
      HostCount(steps, c, e, values, i - 1);
    }
  }

  // ----- Banked accesses -----

  /** SELECT is known to the host after the first `i` steps. */
  predicate Knows(known: bool, steps: seq<Step>, i: nat)
    requires i <= |steps|
  {
    if i == 0 then known else Knows(known, steps, i - 1) || IsSelectWrite(steps[i - 1].f.req)
  }

  /** Every banked read of the plan is sent with SELECT known. */
  ghost predicate Informed(known: bool, steps: seq<Step>) {
    forall i :: 0 <= i < |steps| && IsCtrlStatRead(steps[i].f.req) ==> Knows(known, steps, i)
  }

  lemma {:induction false} KnowsConcat(known: bool, a: seq<Step>, b: seq<Step>, i: nat)
    requires i <= |a| + |b|
    ensures Knows(known, a + b, i) == if i <= |a| then Knows(known, a, i) else Knows(Knows(known, a, |a|), b, i - |a|)
  {
    if i > 0 {
      KnowsConcat(known, a, b, i - 1);
    }
  }

  lemma {:induction false} KnowsMore(known: bool, steps: seq<Step>, i: nat)
    requires i <= |steps| && known
    ensures Knows(known, steps, i)
  {
    if i > 0 {
      KnowsMore(known, steps, i - 1);
    }
  }

  lemma {:induction false} KnowsKept(known: bool, more: bool, steps: seq<Step>, i: nat)
    requires i <= |steps| && (known ==> more) && Knows(known, steps, i)
    ensures Knows(more, steps, i)
  {
    if i > 0 && Knows(known, steps, i - 1) {
      KnowsKept(known, more, steps, i - 1);
    }
  }

  lemma {:induction false} InformedConcat(known: bool, mid: bool, a: seq<Step>, b: seq<Step>)
    requires Informed(known, a) && Informed(mid, b) && (mid ==> Knows(known, a, |a|))
    ensures Informed(known, a + b)
  {
    hide Knows;
    var c := a + b;
    forall i | 0 <= i < |c| && IsCtrlStatRead(c[i].f.req)
      ensures Knows(known, c, i)
    {
      KnowsConcat(known, a, b, i);
      if i >= |a| {
        assert Knows(mid, b, i - |a|);
        KnowsKept(mid, Knows(known, a, |a|), b, i - |a|);
        KnowsNone(Knows(known, a, |a|), b);
      }
    }
  }

  lemma {:induction false} KnowsNone(known: bool, steps: seq<Step>)
    ensures Knows(known, steps, 0) == known
  {
  }

  lemma {:induction false} KnowsSplit(known: bool, steps: seq<Step>, c: nat, e: nat, i: nat)
    requires c <= e <= |steps| && i <= e - c
    ensures Knows(Knows(known, steps, c), steps[c..e], i) == Knows(known, steps, c + i)
  {
    if i > 0 {
      KnowsSplit(known, steps, c, e, i - 1);
    }
  }

  lemma {:induction false} ChooseInformed(p: Planner, i: nat, value: Word)
    ensures var steps := Choose(p, i, value);
            Informed(p.select.Cached?, steps) && Knows(p.select.Cached?, steps, |steps|)
  {
    var steps := Choose(p, i, value);
    if p.select == Cached(value) {
      KnowsMore(true, steps, |steps|);
    } else {
      assert Knows(p.select.Cached?, steps, 1);
      assert Knows(p.select.Cached?, steps, 2);
    }
  }

  /** Steps without a banked read need no knowledge, and forget none. */
  lemma {:induction false} PlainInformed(known: bool, steps: seq<Step>)
    requires known || forall j :: 0 <= j < |steps| ==> !IsCtrlStatRead(steps[j].f.req)
    ensures Informed(known, steps) && (known ==> Knows(known, steps, |steps|))
  {
    hide Knows;
    forall i | 0 <= i < |steps| && IsCtrlStatRead(steps[i].f.req)
      ensures Knows(known, steps, i)
    {
      KnowsMore(known, steps, i);
    }
    if known {
      KnowsMore(known, steps, |steps|);
    }
  }

  lemma {:induction false} LowerInformed(p: Planner, i: nat, op: Op)
    requires ValidOp(op) && !op.ReadSeq?
    ensures var steps := Lower(p, i, op);
            Informed(p.select.Cached?, steps) &&
            (After(p, op).select.Cached? ==> Knows(p.select.Cached?, steps, |steps|))
  {
    hide Knows, Informed, Choose, WriteSteps, SelectFor, BankValue;
    var known := p.select.Cached?;
    if (op.ReadDp? || op.WriteDp?) && !Banked(op.reg) {
      assert [] + DpSteps(i, op) == DpSteps(i, op);
      PlainInformed(known, DpSteps(i, op));
      if op.WriteDp? && op.reg.SELECT? {
        SelectKnown(known, i, op);
      }
    } else {
      var value := if op.ReadDp? || op.WriteDp? then BankValue(p.select, BankFor(op.reg)) else ApSelect(op);
      var body := if op.ReadDp? || op.WriteDp? then DpSteps(i, op)
                  else if op.WriteSeq? then WriteSeqSteps(i, op) else ApSteps(i, op);
      ChooseInformed(p, i, value);
      PlainInformed(true, body);
      var choose := Choose(p, i, value);
      InformedConcat(known, true, choose, body);
      KnowsConcat(known, choose, body, |choose| + |body|);
      KnowsNone(true, body);
    }
  }

  lemma {:induction false} SelectKnown(known: bool, i: nat, op: Op)
    requires op.WriteDp? && op.reg.SELECT?
    ensures Knows(known, DpSteps(i, op), |DpSteps(i, op)|)
  {
    assert Knows(known, DpSteps(i, op), 1);
  }

  /** Every banked read in a plan is sent with SELECT known. */
  lemma {:induction false} PlanInformed(p: Planner, ops: seq<Op>, i: nat)
    requires i <= |ops| && ValidOps(ops)
    ensures Informed(p.select.Cached?, Plan(p, ops, i))
    decreases |ops| - i
  {
    hide Knows, Choose, Lower, ReadSeqSteps, SelectFor, BankValue;
    var known := p.select.Cached?;
    if i < |ops| {
      var after := After(p, ops[i]).select.Cached?;
      if ops[i].ReadSeq? {
        var e := GroupEnd(ops, i, i + 1);
        var choose, body := Choose(p, i, ApSelect(ops[i])), ReadSeqSteps(i, ops[i].addr, e - i);
        ChooseInformed(p, i, ApSelect(ops[i]));
        PlainInformed(true, body);
        InformedConcat(known, true, choose, body);
        KnowsConcat(known, choose, body, |choose| + |body|);
        KnowsNone(true, body);
        PlanInformed(After(p, ops[i]), ops, e);
        InformedConcat(known, after, choose + body, Plan(After(p, ops[i]), ops, e));
      } else {
        LowerInformed(p, i, ops[i]);
        PlanInformed(After(p, ops[i]), ops, i + 1);
        InformedConcat(known, after, Lower(p, i, ops[i]), Plan(After(p, ops[i]), ops, i + 1));
      }
    }
  }

  // ----- The response grammar -----

  lemma {:induction false} AcceptResponse(st: PortState, steps: seq<Step>, values: seq<Word>, i: nat)
    requires i <= |steps| && i <= |values|
    requires forall j :: 0 <= j < i ==> steps[j].reg != Some(CTRLSTAT) || !steps[j].f.req.read
    ensures AcceptTo(st, steps, values, i).response == st.response
  {
    hide AcceptStep;
    if i > 0 {
      AcceptResponse(st, steps, values, i - 1);
      SameResponse(AcceptTo(st, steps, values, i - 1), steps[i - 1], values[i - 1]);
    }
  }

  lemma {:induction false} SameResponse(st: PortState, s: Step, value: Word)
    requires s.reg != Some(CTRLSTAT) || !s.f.req.read
    ensures AcceptStep(st, s, value).response == st.response
  {
    hide BankOf, OrunDetect, AbortsDap;
  }

  /** Reading CTRL/STAT confirms the grammar that the target really uses. */
  lemma {:induction false} ConfirmsResponse(env: Env, st: PortState, s: Step, value: Word, t: Target, fixed: bool)
    requires Local(s) && s.reg == Some(CTRLSTAT) && Exact(st, t) && !st.pending && Overrun(t) == fixed
    requires s.f.req.read ==> value == Response(env, t, s.f)
    requires ResponseKnown(st) ==> st.response.OverrunResponse? == fixed
    ensures var m := AcceptStep(st, s, value); ResponseKnown(m) ==> m.response.OverrunResponse? == fixed
  {
    hide OrunDetect, CtrlWord, AbortsDap;
    CtrlWordFlags(t.ctrl);
  }

  // ----- Accepted data writes -----

  /** How many of the first `i` steps are data writes of operation `op`. */
  function Writes(steps: seq<Step>, i: nat, op: nat): nat
    requires i <= |steps|
  {
    if i == 0 then 0
    else Writes(steps, i - 1, op) + (if steps[i - 1].acceptWrite && steps[i - 1].op == op then 1 else 0)
  }

  lemma {:induction false} WritesSplit(steps: seq<Step>, c: nat, e: nat, i: nat, op: nat)
    requires c <= e <= |steps| && i <= e - c
    ensures Writes(steps, c + i, op) == Writes(steps, c, op) + Writes(steps[c..e], i, op)
  {
    if i > 0 {
      WritesSplit(steps, c, e, i - 1, op);
    }
  }

  // ----- Batch boundaries -----

  /** Steps whose batch ends right after them: what they return does not depend on
      whether earlier requests were rejected. */
  predicate Boundary(s: Step) {
    s.reg == Some(ABORT) || IsIdRead(s.f.req) || IsCtrlStatRead(s.f.req)
  }

  /** A batch: one boundary step alone, or steps none of which is one. */
  ghost predicate Unmixed(steps: seq<Step>, c: nat, e: nat) {
    c < e <= |steps| && (e == c + 1 || forall j :: c <= j < e ==> !Boundary(steps[j]))
  }

  lemma {:induction false} UnmixedSafe(steps: seq<Step>, c: nat, e: nat, last: nat)
    requires Block(steps, 0, last) && Unmixed(steps, c, e)
    ensures PackSafe(Frames(steps[c..e]))
  {
    hide Adjacent;
    var fs := Frames(steps[c..e]);
    forall i | 0 < i < |fs|
      ensures NeverExempt(fs[i].req)
    {
      assert fs[i] == steps[c + i].f && Local(steps[c + i]) && !Boundary(steps[c + i]);
    }
  }

  lemma {:induction false} ChainPart(steps: seq<Step>, c: nat, e: nat, last: nat, st: PortState)
    requires Block(steps, 0, last) && c < e <= |steps| && Between(st, steps, c)
    ensures Chain(st.pending, steps[c..e])
  {
    hide Adjacent, Local;
    var part := steps[c..e];
    forall j | 0 <= j < |part| - 1
      ensures Adjacent(part[j], part[j + 1])
    {
      assert Adjacent(steps[c + j], steps[c + j + 1]);
    }
  }

  // ----- One batch -----

  /** Steps that deliver a register's own content, or data the plan itself posted. */
  ghost predicate Plain(clean: bool, steps: seq<Step>) {
    forall j :: 0 <= j < |steps| && steps[j].deliverValue && !Collects(steps[j]) ==>
      && !steps[j].f.req.ap
      && (steps[j].f.req.addr == 0x00 || steps[j].f.req.addr == 0x04 || (clean && steps[j].f.req.addr == 0x0c))
  }

  /** The first `c` steps took effect once, from `u0`, and delivered `vals`. */
  ghost predicate Placed(env: Env, u0: Target, clean: bool, steps: seq<Step>, c: nat, vals: seq<Word>, t: Target)
    requires c <= |steps|
  {
    && u0.rdbuff == 0 && Tracked(env, u0, clean, steps, c, t)
    && (Plain(clean, steps) ==> vals == Outputs(env, u0, steps, c))
  }

  /** A run stopped at step `c`, which ended with `r`, after the target had accepted the
      first `k` steps. */
  ghost predicate Left(env: Env, u0: Target, clean: bool, steps: seq<Step>, c: nat, k: nat, vals: seq<Word>, r: Res,
                       t: Target)
    requires c <= k <= |steps| && c < |steps|
  {
    && u0.rdbuff == 0
    && (Plain(clean, steps) ==> vals == Outputs(env, u0, steps, c))
    && HistAfter(env, u0, Frames(steps), k, t) && AllowedAll(env, u0, steps, k)
    && (r.e.Parity? ==> c < k)
    && (r.e.Wait? ==> Allowed(env, u0, Frames(steps), c) && WaitedAt(env, u0, clean, steps, c, t))
  }

  /** What a clean WAIT to step `c` leaves. */
  ghost predicate WaitedAt(env: Env, u0: Target, clean: bool, steps: seq<Step>, c: nat, t: Target)
    requires c < |steps|
  {
    exists s: Target :: Like(clean, ReadBehind(steps, c), s, Exec(env, u0, Frames(steps), c)) && Resumed(s, t)
  }

  /** One delivered value. */
  lemma {:induction false} ValueLike(env: Env, u0: Target, clean: bool, steps: seq<Step>, c: nat, e: nat, t: Target,
                                     i: nat, last: nat)
    requires c < e <= |steps| && i < e - c && Block(steps, 0, last) && Plain(clean, steps)
    requires Like(clean, ReadBehind(steps, c), t, Exec(env, u0, Frames(steps), c))
    requires Allowed(env, u0, Frames(steps), c + i) && steps[c + i].deliverValue
    ensures Response(env, Exec(env, t, Frames(steps[c..e]), i), steps[c + i].f) ==
            Response(env, Exec(env, u0, Frames(steps), c + i), steps[c + i].f)
  {
    hide Exec, Response, Like, Block, Plain, Sticky;
    var j := c + i;
    LikeExec(env, clean, t, u0, steps, c, e, i);
    BlockLocal(steps, 0, last, j);
    if Collects(steps[j]) {
      if j > 0 {
        BlockAdjacent(steps, 0, last, j - 1);
      } else {
        BlockStart(steps, last);
      }
    } else {
      PlainAt(clean, steps, j);
    }
    LikeResponse(env, clean, ReadBehind(steps, j), Exec(env, t, Frames(steps[c..e]), i),
                 Exec(env, u0, Frames(steps), j), steps[j].f);
  }

  lemma {:induction false} BlockStart(steps: seq<Step>, last: nat)
    requires Block(steps, 0, last) && steps != []
    ensures !Collects(steps[0])
  {
  }

  lemma {:induction false} PlainAt(clean: bool, steps: seq<Step>, j: nat)
    requires Plain(clean, steps) && j < |steps| && steps[j].deliverValue && !Collects(steps[j])
    ensures !steps[j].f.req.ap
    ensures steps[j].f.req.addr == 0x00 || steps[j].f.req.addr == 0x04 || (clean && steps[j].f.req.addr == 0x0c)
  {
  }

  lemma {:induction false} BatchOutputs(env: Env, u0: Target, clean: bool, steps: seq<Step>, c: nat, e: nat, t: Target,
                                        res: seq<Res>, f: nat, values: seq<Word>, last: nat)
    requires c < e <= |steps| && |res| == e - c && f <= e - c && f <= |values| && Block(steps, 0, last) &&
             Plain(clean, steps)
    requires f > 0 ==> Like(clean, ReadBehind(steps, c), t, Exec(env, u0, Frames(steps), c))
    requires AllowedAll(env, u0, steps, c + f)
    requires ValuesTo(env, t, Frames(steps[c..e]), res, f) && forall i :: 0 <= i < f ==> values[i] == res[i].value
    ensures Outputs(env, u0, steps, c) + HostOutputs(steps[c..e], values, f) == Outputs(env, u0, steps, c + f)
  {
    hide Exec, Response, Like, Block, Plain, ReadBehind, Allowed;
    if f > 0 {
      BatchOutputs(env, u0, clean, steps, c, e, t, res, f - 1, values, last);
      var s := steps[c + f - 1];
      assert steps[c..e][f - 1] == s;
      assert res[f - 1] == Res(Response(env, Exec(env, t, Frames(steps[c..e]), f - 1), s.f), NoError);
      if s.deliverValue {
        ValueLike(env, u0, clean, steps, c, e, t, f - 1, last);
      }
    } else {
      assert HostOutputs(steps[c..e], values, 0) == [];
    }
  }

  lemma {:induction false} BatchPlaced(env: Env, u0: Target, clean: bool, steps: seq<Step>, c: nat, e: nat,
                                       vals: seq<Word>, t: Target,
                                       res: seq<Res>, f: nat, k: nat, t': Target, values: seq<Word>, last: nat)
    requires c < e <= |steps| && Block(steps, 0, last) && Placed(env, u0, clean, steps, c, vals, t)
    requires Delivered(env, t, Frames(steps[c..e]), res, f, k, t')
    requires f <= |values| && forall i :: 0 <= i < f ==> values[i] == res[i].value
    ensures var out := vals + HostOutputs(steps[c..e], values, f);
            && c + k <= |steps|
            && (f == e - c ==> Placed(env, u0, clean, steps, e, out, t'))
            && (f < e - c ==> Left(env, u0, clean, steps, c + f, c + k, out, res[f], t'))
  {
    hide Exec, Outputs, ValuesTo, HostOutputs, Took, HistAfter, AllowedTo, Allowed, Stopped, Tracked, AllowedAll, Block,
         Resumed, Like, ReadBehind, Plain, WaitedAt;
    AcceptedTracked(env, u0, clean, steps, c, e, t, res, f, k, t');
    AllowedFewer(env, u0, steps, c + f, c + k);
    if Plain(clean, steps) {
      BatchOutputs(env, u0, clean, steps, c, e, t, res, f, values, last);
    }
    if f == e - c {
      BatchTracked(env, u0, clean, steps, c, e, t, res, k, t', last);
    } else if res[f].e.Wait? {
      LikeAllowed(env, clean, t, u0, steps, c, e, f);
      LikeExec(env, clean, t, u0, steps, c, e, f);
      WaitedFrom(env, u0, clean, steps, c + f, Exec(env, t, Frames(steps[c..e]), f), t');
    }
  }

  lemma {:induction false} WaitedFrom(env: Env, u0: Target, clean: bool, steps: seq<Step>, c: nat, s: Target, t: Target)
    requires c < |steps| && Like(clean, ReadBehind(steps, c), s, Exec(env, u0, Frames(steps), c)) && Resumed(s, t)
    ensures WaitedAt(env, u0, clean, steps, c, t)
  {
    hide Exec, Like, Resumed, ReadBehind;
  }

  lemma {:induction false} ResumedOverrun(s: Target, t: Target)
    requires Resumed(s, t)
    ensures Overrun(t) == Overrun(s) && t.select == s.select && t.hist == s.hist
  {
  }

  /** Going on after WAIT. */
  lemma {:induction false} RetryPlaced(env: Env, u0: Target, clean: bool, steps: seq<Step>, c: nat, k: nat,
                                       vals: seq<Word>, r: Res,
                                       t: Target, last: nat)
    requires c <= k <= |steps| && c < |steps| && Block(steps, 0, last)
    requires Left(env, u0, clean, steps, c, k, vals, r, t) && r.e.Wait?
    requires !Exempt(steps[c].f.req, t.select) && (Collects(steps[c]) ==> !Overrun(t))
    ensures Placed(env, u0, clean, steps, c, vals, t)
  {
    hide Exec, Outputs, HistAfter, Allowed, Block, Resumed, Tracked, Collects, Exempt, Overrun, Like, ReadBehind, Plain,
         AllowedAll;
    var s: Target :| Like(clean, ReadBehind(steps, c), s, Exec(env, u0, Frames(steps), c)) && Resumed(s, t);
    ResumedOverrun(s, t);
    AllowedFewer(env, u0, steps, c, k);
    WaitTracked(env, u0, clean, steps, c, s, t, last);
  }

  lemma {:induction false} AllowedFewer(env: Env, t0: Target, steps: seq<Step>, c: nat, k: nat)
    requires c <= k <= |steps| && AllowedAll(env, t0, steps, k)
    ensures AllowedAll(env, t0, steps, c)
  {
    hide Allowed;
  }

  /** The grammar the host assumes after a batch is still the target's. */
  lemma {:induction false} AcceptMode(env: Env, st: PortState, steps: seq<Step>, c: nat, e: nat, values: seq<Word>,
                                      t: Target, res: seq<Res>, f: nat, fixed: bool, last: nat)
    requires Block(steps, 0, last) && Unmixed(steps, c, e) && Between(st, steps, c)
    requires f <= e - c == |res| && f <= |values|
    requires ValuesTo(env, t, Frames(steps[c..e]), res, f) && forall i :: 0 <= i < f ==> values[i] == res[i].value
    requires ResponseKnown(st) ==> st.response.OverrunResponse? == fixed
    requires f > 0 ==> Exact(st, t) && Overrun(t) == fixed
    ensures var m := AcceptTo(st, steps[c..e], values, f); ResponseKnown(m) ==> m.response.OverrunResponse? == fixed
  {
    hide Response, AcceptStep, AcceptTo, Block, ResponseKnown, Overrun, Exec, ValuesTo, Boundary, Exact;
    var part := steps[c..e];
    if f == 0 {
      AcceptNone(st, part, values);
    } else if e == c + 1 && steps[c].reg == Some(CTRLSTAT) {
      BlockLocal(steps, 0, last, c);
      SoloValue(env, t, part, res, values);
      SoloAccept(st, part, values);
      ConfirmsResponse(env, st, steps[c], values[0], t, fixed);
    } else {
      forall j | 0 <= j < f
        ensures part[j].reg != Some(CTRLSTAT) || !part[j].f.req.read
      {
        BlockLocal(steps, 0, last, c + j);
        NotConfirming(steps[c + j]);
        assert part[j] == steps[c + j];
      }
      AcceptResponse(st, part, values, f);
      SameKnown(st, AcceptTo(st, part, values, f));
    }
  }

  lemma {:induction false} AcceptNone(st: PortState, steps: seq<Step>, values: seq<Word>)
    ensures AcceptTo(st, steps, values, 0) == st
  {
  }

  lemma {:induction false} SoloAccept(st: PortState, steps: seq<Step>, values: seq<Word>)
    requires |steps| == 1 && |values| > 0
    ensures AcceptTo(st, steps, values, 1) == AcceptStep(st, steps[0], values[0])
  {
    hide AcceptStep;
    AcceptNone(st, steps, values);
  }

  lemma {:induction false} SoloValue(env: Env, t: Target, steps: seq<Step>, res: seq<Res>, values: seq<Word>)
    requires |steps| == |res| == 1 && |values| > 0 && values[0] == res[0].value
    requires ValuesTo(env, t, Frames(steps), res, 1)
    ensures values[0] == Response(env, t, steps[0].f)
  {
    hide Response;
    ExecNone(env, t, Frames(steps));
  }

  lemma {:induction false} NotConfirming(s: Step)
    requires Local(s) && (!Boundary(s) || s.reg != Some(CTRLSTAT))
    ensures s.reg != Some(CTRLSTAT) || !s.f.req.read
  {
  }

  lemma {:induction false} SameKnown(st: PortState, m: PortState)
    requires m.response == st.response
    ensures ResponseKnown(m) == ResponseKnown(st)
  {
  }

  lemma {:induction false} DeliversSplit(steps: seq<Step>, c: nat, e: nat, i: nat)
    requires c <= e <= |steps| && i <= e - c
    ensures Delivers(steps, c + i) == Delivers(steps, c) + Delivers(steps[c..e], i)
  {
    if i > 0 {
      DeliversSplit(steps, c, e, i - 1);
    }
  }

  lemma {:induction false} PartOps(steps: seq<Step>, c: nat, e: nat, last: nat, i: nat)
    requires Block(steps, 0, last) && c <= e <= |steps| && i < e - c
    ensures steps[c..e][i].op == Delivers(steps, c) + Delivers(steps[c..e], i) < last
  {
    hide Block, Delivers;
    OpIndex(steps, last, c + i);
    DeliversSplit(steps, c, e, i);
  }

  lemma {:induction false} DeliveredAllows(env: Env, t0: Target, fs: seq<Frame>, res: seq<Res>, f: nat, k: nat,
                                           t: Target)
    requires Delivered(env, t0, fs, res, f, k, t) && (k > 0 || (f == 0 && f < |res| && res[f].e.Wait?))
    ensures |fs| > 0 && Allowed(env, t0, fs, 0)
  {
    hide Exec, Allowed, Took, ValuesTo, HistAfter, Resumed, Stopped;
  }

  /** SELECT stays provisional only behind its own write. */
  lemma {:induction false} BetweenAfter(env: Env, st: PortState, steps: seq<Step>, c: nat, e: nat, values: seq<Word>,
                                        t: Target, f: nat, known: bool, last: nat)
    requires Block(steps, 0, last) && c < e <= |steps| && Between(st, steps, c) && f <= e - c && f <= |values|
    requires (st.select.Cached? <==> Knows(known, steps, c)) && (f > 0 ==> Exact(st, t))
    ensures var m := AcceptTo(st, steps[c..e], values, f);
            Between(m, steps, c + f) && (m.select.Cached? <==> Knows(known, steps, c + f))
  {
    hide Exec, AcceptStep, AcceptTo, Block, Knows, Exact, Chain;
    var part := steps[c..e];
    if f == 0 {
      AcceptNone(st, part, values);
    } else {
      ChainPart(steps, c, e, last, st);
      AcceptToExact(env, st, part, values, t, f);
      KnowsSplit(known, steps, c, e, f);
      assert part[f - 1] == steps[c + f - 1];
      BlockLocal(steps, 0, last, c + f - 1);
      if c + f < |steps| {
        BlockAdjacent(steps, 0, last, c + f - 1);
      }
    }
  }

  /** The host's side of a batch: nothing is concluded that the target does not bear out. */
  lemma {:induction false} BatchHost(env: Env, st: PortState, steps: seq<Step>, c: nat, e: nat, values: seq<Word>,
                                     t: Target,
                                     res: seq<Res>, f: nat, k: nat, t': Target, fixed: bool, known: bool, last: nat)
    requires Block(steps, 0, last) && Unmixed(steps, c, e) && Between(st, steps, c)
    requires st.select.Cached? <==> Knows(known, steps, c)
    requires Delivered(env, t, Frames(steps[c..e]), res, f, k, t')
    requires f <= |values| && forall i :: 0 <= i < f ==> values[i] == res[i].value
    requires ResponseKnown(st) ==> st.response.OverrunResponse? == fixed
    requires k > 0 ==> Agrees(st, t) && Overrun(t) == fixed
    ensures var m := AcceptTo(st, steps[c..e], values, f);
            && Between(m, steps, c + f) && (m.select.Cached? <==> Knows(known, steps, c + f))
            && (ResponseKnown(m) ==> m.response.OverrunResponse? == fixed)
  {
    hide Exec, AcceptTo, Block, Knows, Exact, Chain, Agrees, Allowed, Took, ValuesTo, HistAfter, Resumed, Stopped,
         AllowedTo, ResponseKnown, Overrun, Between;
    if k > 0 {
      ChainPart(steps, c, e, last, st);
      DeliveredAllows(env, t, Frames(steps[c..e]), res, f, k, t');
      AllowedExact(env, st, steps[c..e], t);
    }
    BetweenAfter(env, st, steps, c, e, values, t, f, known, last);
    AcceptMode(env, st, steps, c, e, values, t, res, f, fixed, last);
  }

  /** The steps before `c` are all in effect, as far as the ports see them, and the
      target did not reject step `c` for what they did. */
  ghost predicate Reached(env: Env, t0: Target, steps: seq<Step>, c: nat, t: Target)
    requires c < |steps|
  {
    Allowed(env, t0, Frames(steps), c) && Exec(env, t0, Frames(steps), c).hist <= t.hist
  }

  lemma {:induction false} HistGrows(env: Env, t: Target, fs: seq<Frame>, a: nat, b: nat)
    requires a <= b <= |fs|
    ensures Exec(env, t, fs, a).hist <= Exec(env, t, fs, b).hist
  {
    if a < b {
      HistGrows(env, t, fs, a, b - 1);
    }
  }

  /** An accepted step proves that the ones before it are in effect. */
  lemma {:induction false} AcceptedReached(env: Env, t0: Target, steps: seq<Step>, c: nat, k: nat, t: Target)
    requires c < k <= |steps| && AllowedAll(env, t0, steps, k) && HistAfter(env, t0, Frames(steps), k, t)
    ensures Reached(env, t0, steps, c, t)
  {
    hide Exec, Allowed;
    HistGrows(env, t0, Frames(steps), c, k);
    HistGrows(env, t0, Frames(steps), c, k - 1);
  }

  lemma {:induction false} WaitReached(env: Env, u0: Target, clean: bool, steps: seq<Step>, c: nat, t: Target)
    requires c < |steps| && Allowed(env, u0, Frames(steps), c) && WaitedAt(env, u0, clean, steps, c, t)
    ensures Reached(env, u0, steps, c, t)
  {
    hide Exec, Allowed, Resumed;
    var s: Target :| Like(clean, ReadBehind(steps, c), s, Exec(env, u0, Frames(steps), c)) && Resumed(s, t);
    ResumedOverrun(s, t);
  }
}
