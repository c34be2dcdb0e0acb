/** What the results of any queue say. The target took its frames in order, each at most
    once, and every result is the target's own answer to its frame. */
module SwdAnswers {
  import opened Words
  import opened SwdTarget
  import opened SwdLink
  import opened SwdBatch

  /** A result against the reply to its frame, if that was sent. Only an uncertain result
      leaves open what happened. */
  predicate Says(r: Res, sent: bool, reply: Reply) {
    && (r.e.NoError? ==> sent && reply == Done(r.value))
    && (r.e.Parity? ==> sent && reply.BadParity?)
    && (r.e.Wait? || r.e.Unclean? ==> sent && reply.Waited?)
    && (r.e.Fault? ==> sent && reply.Faulted?)
    && (r.e.Unsent? || r.e.Invalid? ==> !sent)
  }

  /** The first `m` frames were sent, and the target answered them by the choices `cs`. */
  ghost predicate Answered(env: Env, t0: Target, fs: seq<Frame>, res: seq<Res>, cs: seq<Choice>, m: nat) {
    && |fs| == |res| == |cs| && m <= |fs|
    && forall i :: 0 <= i < |fs| ==> Says(res[i], i < m, ReplyAt(env, t0, fs, cs, i))
  }

  /** That, what the access ports and the log of accepted frames have seen, and the power
      requests. */
  ghost predicate Account(env: Env, t0: Target, fs: seq<Frame>, res: seq<Res>, cs: seq<Choice>, m: nat,
                          t: Target, log0: seq<Frame>, log: seq<Frame>, plan: bool) {
    && Answered(env, t0, fs, res, cs, m)
    && t.hist == Serve(env, t0, fs, cs, m).hist && Power(t) == Power(Serve(env, t0, fs, cs, m))
    && log == log0 + (if plan then Taken(env, t0, fs, cs, m) else [])
  }

  ghost predicate Accounted(env: Env, t0: Target, fs: seq<Frame>, res: seq<Res>,
                            t: Target, log0: seq<Frame>, log: seq<Frame>, plan: bool) {
    exists cs, m :: Account(env, t0, fs, res, cs, m, t, log0, log, plan)
  }

  lemma {:induction false} NothingSent(env: Env, t: Target, fs: seq<Frame>, res: seq<Res>, log: seq<Frame>, plan: bool)
    requires |res| == |fs| && forall i :: 0 <= i < |fs| ==> res[i].e.Unsent? || res[i].e.Invalid?
    ensures var cs := seq(|fs|, _ => Stall);
            Reached(env, t, fs, res, cs, 0, t, log, log, plan)
  {
    hide ReplyAt;
  }

  /** The queue has come to frame `a` without an error. */
  ghost predicate Reached(env: Env, t0: Target, fs: seq<Frame>, res: seq<Res>, cs: seq<Choice>, a: nat,
                          t: Target, log0: seq<Frame>, log: seq<Frame>, plan: bool) {
    && Account(env, t0, fs, res, cs, a, t, log0, log, plan)
    && t == Serve(env, t0, fs, cs, a)
  }

  lemma {:induction false} ReachedAccounted(env: Env, t0: Target, fs: seq<Frame>, res: seq<Res>, cs: seq<Choice>,
                                            a: nat, t: Target, log0: seq<Frame>, log: seq<Frame>, plan: bool)
    requires Reached(env, t0, fs, res, cs, a, t, log0, log, plan)
    ensures Accounted(env, t0, fs, res, t, log0, log, plan)
  {
    hide Account;
  }

  // ----- Chunk after chunk -----

  /** Choices for the frames `a..b` put in. */
  function Chosen(cs: seq<Choice>, a: nat, b: nat, part: seq<Choice>): (whole: seq<Choice>)
    requires a <= b <= |cs| && |part| == b - a
    ensures |whole| == |cs|
  {
    cs[..a] + part + cs[b..]
  }

  lemma {:induction false} ServeFirst(env: Env, t: Target, fs: seq<Frame>, cs: seq<Choice>, ds: seq<Choice>, i: nat)
    requires |fs| == |cs| == |ds| && i <= |fs| && cs[..i] == ds[..i]
    ensures Serve(env, t, fs, cs, i) == Serve(env, t, fs, ds, i) && Taken(env, t, fs, cs, i) == Taken(env, t, fs, ds, i)
  {
    hide Step, ReplyTo;
    if i > 0 {
      assert cs[..i][i - 1] == ds[..i][i - 1];
      assert cs[..i - 1] == cs[..i][..i - 1] && ds[..i - 1] == ds[..i][..i - 1];
      ServeFirst(env, t, fs, cs, ds, i - 1);
    }
  }

  lemma {:induction false} ServeOn(env: Env, t0: Target, fs: seq<Frame>, cs: seq<Choice>, a: nat, b: nat,
                                   part: seq<Choice>, j: nat)
    requires |fs| == |cs| && a <= b <= |fs| && |part| == b - a && j <= b - a
    ensures var ds, t := Chosen(cs, a, b, part), Serve(env, t0, fs, cs, a);
            && Serve(env, t0, fs, ds, a + j) == Serve(env, t, fs[a..b], part, j)
            && Taken(env, t0, fs, ds, a + j) == Taken(env, t0, fs, cs, a) + Taken(env, t, fs[a..b], part, j)
  {
    hide Step, ReplyTo;
    var ds := Chosen(cs, a, b, part);
    if j == 0 {
      ServeFirst(env, t0, fs, cs, ds, a);
    } else {
      ServeOn(env, t0, fs, cs, a, b, part, j - 1);
      assert ds[a + j - 1] == part[j - 1] && fs[a..b][j - 1] == fs[a + j - 1];
    }
  }

  /** A chunk goes on where a queue of successes has come to. */
  lemma {:induction false} AnswersJoin(env: Env, t0: Target, fs: seq<Frame>, done: seq<Res>, cs: seq<Choice>, a: nat,
                                       b: nat, part: seq<Res>, ps: seq<Choice>, m: nat)
    requires Answered(env, t0, fs, done, cs, a) && a <= b <= |fs| && forall j :: a <= j < |fs| ==> done[j].e.Unsent?
    requires Answered(env, Serve(env, t0, fs, cs, a), fs[a..b], part, ps, m)
    ensures Answered(env, t0, fs, Splice(done, a, b, part), Chosen(cs, a, b, ps), a + m)
    ensures Serve(env, t0, fs, Chosen(cs, a, b, ps), a + m) == Serve(env, Serve(env, t0, fs, cs, a), fs[a..b], ps, m)
    ensures Taken(env, t0, fs, Chosen(cs, a, b, ps), a + m) ==
            Taken(env, t0, fs, cs, a) + Taken(env, Serve(env, t0, fs, cs, a), fs[a..b], ps, m)
  {
    hide Serve, ReplyTo, Taken, Says;
    var ds, res, t := Chosen(cs, a, b, ps), Splice(done, a, b, part), Serve(env, t0, fs, cs, a);
    ServeOn(env, t0, fs, cs, a, b, ps, m);
    forall i | 0 <= i < |fs|
      ensures Says(res[i], i < a + m, ReplyAt(env, t0, fs, ds, i))
    {
      if i < a {
        ServeFirst(env, t0, fs, cs, ds, i);
        assert Says(done[i], i < a, ReplyAt(env, t0, fs, cs, i));
      } else if i < b {
        ServeOn(env, t0, fs, cs, a, b, ps, i - a);
        assert Says(part[i - a], i - a < m, ReplyAt(env, t, fs[a..b], ps, i - a));
      } else {
        assert res[i].e.Unsent?;
        UnsentSays(res[i], ReplyAt(env, t0, fs, ds, i));
      }
    }
  }

  lemma {:induction false} UnsentSays(r: Res, reply: Reply)
    requires r.e.Unsent? || r.e.Invalid?
    ensures Says(r, false, reply)
  {
  }

  lemma {:induction false} OneServed(env: Env, t: Target, f: Frame, c: Choice)
    ensures Serve(env, t, [f], [c], 0) == t && Serve(env, t, [f], [c], 1) == Step(env, t, f, c)
    ensures ReplyAt(env, t, [f], [c], 0) == ReplyTo(env, t, f, c)
    ensures Taken(env, t, [f], [c], 0) == []
    ensures Taken(env, t, [f], [c], 1) == if Accepts(ReplyTo(env, t, f, c)) then [f] else []
  {
    hide Step, ReplyTo;
    assert Serve(env, t, [f], [c], 1) == Step(env, Serve(env, t, [f], [c], 0), f, c);
    assert Taken(env, t, [f], [c], 1) ==
           Taken(env, t, [f], [c], 0) + if Accepts(ReplyAt(env, t, [f], [c], 0)) then [f] else [];
  }

  lemma {:induction false} UncertainSays(env: Env, t: Target, fs: seq<Frame>, res: seq<Res>, cs: seq<Choice>, m: nat)
    requires |fs| == |res| == |cs| && m <= |fs| && forall i :: 0 <= i < |fs| ==> res[i].e.Uncertain?
    ensures Answered(env, t, fs, res, cs, m)
  {
    hide ReplyAt;
  }

  lemma {:induction false} ReplySays(reply: Reply)
    ensures Says(Res(ValueOf(reply), FailureOf(reply)), true, reply) && Says(Res(0, Uncertain), true, reply)
    ensures reply.Waited? ==> Says(Res(0, Unclean), true, reply)
  {
  }

  lemma {:induction false} StillReached(env: Env, t0: Target, fs: seq<Frame>, res: seq<Res>, cs: seq<Choice>, a: nat,
                                        t: Target, log0: seq<Frame>, log: seq<Frame>, plan: bool, r: Res)
    requires Reached(env, t0, fs, res, cs, a, t, log0, log, plan) && a < |fs| && (r.e.Unsent? || r.e.Invalid?)
    ensures a < |res| && Reached(env, t0, fs, res[a := r], cs, a, t, log0, log, plan)
  {
    hide ReplyAt, Says, Serve, Taken;
    UnsentSays(r, ReplyAt(env, t0, fs, cs, a));
  }

  /** One more chunk: the queue goes on, or it ends here. */
  lemma {:induction false} Reaches(env: Env, t0: Target, fs: seq<Frame>, done: seq<Res>, cs: seq<Choice>, a: nat,
                                   b: nat, t: Target, log: seq<Frame>, part: seq<Res>, ps: seq<Choice>, m: nat,
                                   t': Target, log0: seq<Frame>, log': seq<Frame>, plan: bool)
    requires Reached(env, t0, fs, done, cs, a, t, log0, log, plan)
    requires a <= b <= |fs| && forall j :: a <= j < |fs| ==> done[j].e.Unsent?
    requires Account(env, t, fs[a..b], part, ps, m, t', log, log', plan)
    requires (forall i :: 0 <= i < |part| ==> part[i].e.NoError?) ==> m == b - a && t' == Serve(env, t, fs[a..b], ps, m)
    ensures |part| == |ps| == b - a && Accounted(env, t0, fs, Splice(done, a, b, part), t', log0, log', plan)
    ensures (forall i :: 0 <= i < |part| ==> part[i].e.NoError?) ==>
              Reached(env, t0, fs, Splice(done, a, b, part), Chosen(cs, a, b, ps), b, t', log0, log', plan)
  {
    hide Serve, Taken, Answered;
    AnswersLength(env, t0, fs, done, cs, a);
    AnswersLength(env, t, fs[a..b], part, ps, m);
    AnswersJoin(env, t0, fs, done, cs, a, b, part, ps, m);
    assert Account(env, t0, fs, Splice(done, a, b, part), Chosen(cs, a, b, ps), a + m, t', log0, log', plan);
  }

  lemma {:induction false} AnswersLength(env: Env, t: Target, fs: seq<Frame>, res: seq<Res>, cs: seq<Choice>, m: nat)
    requires Answered(env, t, fs, res, cs, m)
    ensures |res| == |cs| == |fs| && m <= |fs|
  {
  }

  lemma {:induction false} SpliceOne(res: seq<Res>, i: nat, r: Res)
    requires i < |res|
    ensures Splice(res, i, i + 1, [r]) == res[i := r]
  {
  }

  lemma {:induction false} Refusal(env: Env, t: Target, fs: seq<Frame>, res: seq<Res>, log: seq<Frame>, plan: bool)
    requires |res| == |fs| && forall i :: 0 <= i < |fs| ==> res[i].e.Unsent? || res[i].e.Invalid?
    ensures Accounted(env, t, fs, res, t, log, log, plan)
  {
    hide Reached, Accounted;
    NothingSent(env, t, fs, res, log, plan);
    ReachedAccounted(env, t, fs, res, seq(|fs|, _ => Stall), 0, t, log, log, plan);
  }

  /** What one frame may do to the power requests: only a bank-zero CTRL/STAT write sets them. */
  ghost predicate Powered(t0: Target, f: Frame, t: Target) {
    Power(t) == Power(t0) || (IsBankedWrite(f.req) && Bank(t0) == 0 && Power(t) == PowerOf(f.data))
  }

  lemma {:induction false} OnePower(env: Env, t0: Target, f: Frame, r: Res, t: Target, log0: seq<Frame>,
                                    log: seq<Frame>, plan: bool)
    requires Accounted(env, t0, [f], [r], t, log0, log, plan)
    ensures Powered(t0, f, t)
  {
    hide PowerOf, BankOf, Says, Taken, Serve, Step;
    var cs, m :| Account(env, t0, [f], [r], cs, m, t, log0, log, plan);
    assert cs == [cs[0]];
    OneServed(env, t0, f, cs[0]);
    StepPower(env, t0, f, cs[0]);
  }

  lemma {:induction false} StepPower(env: Env, t: Target, f: Frame, c: Choice)
    ensures Powered(t, f, Step(env, t, f, c))
  {
    hide Apply, ReplyTo;
    ApplyPower(env, t, f);
  }

  lemma {:induction false} ApplyPower(env: Env, t: Target, f: Frame)
    ensures Powered(t, f, Apply(env, t, f))
  {
    hide PowerOf, BankOf, OrunDetect, Port;
  }
}
