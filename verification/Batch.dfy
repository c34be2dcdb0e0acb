/** Register transfers and batches on a ready connection. A batch sends each of its
    operations at most once, in order, and never replays one. */
module SwdBatch {
  import opened Words
  import opened SwdTarget
  import opened SwdLink
  import opened SwdWire

  const FRAME_BITS := 54

  const CLEAR_OVERRUN := Frame(Req(false, false, 0x00), CLEAR_STICKYORUN)

  datatype Res = Res(value: Word, e: Failure)

  predicate ValidAddr(a: Word) {
    a == 0x00 || a == 0x04 || a == 0x08 || a == 0x0c
  }

  /** The target after WAIT to the frame that would have followed state `s`:
      untouched; or, in fixed frames, with STICKYORUN cleared again at the price of
      the posted read; or, if the data of that cleanup was lost, stuck. */
  ghost predicate Resumed(s: Target, t: Target) {
    || t == s
    || (Overrun(s) && t == s.(ctrl := s.ctrl.(overrun := false), rdbuff := 0))
    || (Overrun(s) && t == Lose(s.(ctrl := s.ctrl.(overrun := true))))
  }

  /** No operation was left uncertain. */
  ghost predicate Sure(res: seq<Res>) {
    forall i :: 0 <= i < |res| ==> !res[i].e.Uncertain? && !res[i].e.Unclean?
  }

  /** The results with those of operations `a..b` filled in. */
  function Splice(res: seq<Res>, a: nat, b: nat, part: seq<Res>): (whole: seq<Res>)
    requires a <= b <= |res| && |part| == b - a
    ensures |whole| == |res| && forall i :: b <= i < |res| ==> whole[i] == res[i]
  {
    res[..a] + part + res[b..]
  }

  lemma {:induction false} SureJoin(res: seq<Res>, a: nat, b: nat, part: seq<Res>)
    requires a <= b <= |res| && |part| == b - a && Sure(res) && Sure(part)
    ensures Sure(Splice(res, a, b, part))
  {
  }

  lemma {:induction false} SureUpdate(res: seq<Res>, a: nat, r: Res)
    requires a < |res| && Sure(res) && !r.e.Uncertain? && !r.e.Unclean?
    ensures Sure(res[a := r])
  {
  }

  lemma {:induction false} UnsentSure(res: seq<Res>)
    requires forall i :: 0 <= i < |res| ==> res[i].e.Unsent?
    ensures Sure(res)
  {
  }

  /** The access ports have seen the first `k` frames, or all but the last of them,
      a write whose data was lost. */
  ghost predicate HistAfter(env: Env, t0: Target, fs: seq<Frame>, k: nat, t: Target)
    requires k <= |fs|
  {
    || t.hist == Exec(env, t0, fs, k).hist
    || (k > 0 && !fs[k - 1].req.read && t.hist == Exec(env, t0, fs, k - 1).hist)
  }

  /** The first `f` operations succeeded, each with the value the target returned. */
  ghost predicate ValuesTo(env: Env, t0: Target, fs: seq<Frame>, res: seq<Res>, f: nat)
    requires f <= |fs| == |res|
  {
    forall i :: 0 <= i < f ==> res[i] == Res(Response(env, Exec(env, t0, fs, i), fs[i]), NoError)
  }

  /** Exactly the first `k` frames were taken; one more may have been rejected. */
  ghost predicate RejectedAt(env: Env, t0: Target, fs: seq<Frame>, k: nat, t: Target)
    requires k <= |fs|
  {
    || Took(env, t0, fs, k, t)
    || t == Reject(Exec(env, t0, fs, k))
    || (k > 0 && !fs[k - 1].req.read && t == Reject(Lose(Exec(env, t0, fs, k - 1))))
  }

  /** Where a batch that stopped at operation `f` leaves the target, unless framing
      may be lost: after FAULT or an operation that was not sent, exactly the
      operations before it; after bad parity with nothing sent behind it, that one too. */
  ghost predicate Stopped(env: Env, t0: Target, fs: seq<Frame>, res: seq<Res>, f: nat, t: Target)
    requires f < |fs| == |res|
  {
    && (res[f].e.Fault? || res[f].e.Unsent? || res[f].e.Invalid? ==> RejectedAt(env, t0, fs, f, t))
    && (res[f].e.Parity? && (f + 1 == |fs| || res[f + 1].e.Unsent?) ==> t == Exec(env, t0, fs, f + 1))
  }

  /** The first `k` operations were sent, and the target's sticky flags allowed them. */
  ghost predicate AllowedTo(env: Env, t0: Target, fs: seq<Frame>, res: seq<Res>, k: nat)
    requires k <= |fs| == |res|
  {
    forall i :: 0 <= i < k ==> !res[i].e.Unsent? && Allowed(env, t0, fs, i)
  }

  /** What a pack-safe batch guarantees. The target accepted exactly the first `k`
      operations, once each and in order; the first `f` succeeded, each with the
      value the target returned for it; operation `f` failed. A failure other than
      bad parity or an uncertain exchange was not accepted. */
  ghost predicate Delivered(env: Env, t0: Target, fs: seq<Frame>, res: seq<Res>, f: nat, k: nat, t: Target) {
    && |res| == |fs| && f <= k <= |fs|
    && ValuesTo(env, t0, fs, res, f)
    && (f == |fs| ==> Took(env, t0, fs, f, t))
    && (f < |fs| ==> !res[f].e.NoError?)
    && (f < |fs| && !res[f].e.Parity? && !res[f].e.Uncertain? ==> k == f)
    && (f < |fs| && res[f].e.Parity? ==> f < k && fs[f].req.read)
    && (f < |fs| && res[f].e.Wait? ==> Resumed(Exec(env, t0, fs, f), t))
    && HistAfter(env, t0, fs, k, t)
    && AllowedTo(env, t0, fs, res, k)
    && (f < |fs| && res[f].e.Wait? ==> Allowed(env, t0, fs, f))
    && (f < |fs| ==> Stopped(env, t0, fs, res, f, t))
  }

  /** `a` operations of a pack-safe batch have succeeded and none failed. */
  ghost predicate Progress(env: Env, t0: Target, fs: seq<Frame>, res: seq<Res>, a: nat, t: Target) {
    && |res| == |fs| && a <= |fs|
    && ValuesTo(env, t0, fs, res, a)
    && Took(env, t0, fs, a, t)
    && AllowedTo(env, t0, fs, res, a)
  }

  lemma {:induction false} TookHist(env: Env, t0: Target, fs: seq<Frame>, k: nat, t: Target)
    requires k <= |fs| && Took(env, t0, fs, k, t)
    ensures HistAfter(env, t0, fs, k, t)
  {
    hide Exec;
  }

  /** A batch stopped before operation `a` was sent. */
  lemma {:induction false} StoppedBefore(env: Env, t0: Target, fs: seq<Frame>, res: seq<Res>, a: nat, t: Target)
    requires Progress(env, t0, fs, res, a, t)
    requires a < |fs| ==> res[a].e.Unsent? || res[a].e.Invalid?
    ensures Delivered(env, t0, fs, res, a, a, t)
  {
    hide Response, Apply;
    TookHist(env, t0, fs, a, t);
  }

  /** `whole` holds the results before operation `a`, then those of the chunk
      `fs[a..b]`, then operations that were not sent. */
  ghost predicate Joined(whole: seq<Res>, res: seq<Res>, a: nat, b: nat, part: seq<Res>) {
    && a < b <= |res| == |whole| && |part| == b - a
    && (forall i :: 0 <= i < a ==> whole[i] == res[i])
    && (forall i {:trigger whole[i]} :: a <= i < b ==> whole[i] == part[i - a])
    && (forall i :: b <= i < |whole| ==> whole[i].e.Unsent?)
  }

  /** Adding the outcome of the next chunk `fs[a..b]`. */
  lemma {:induction false} NextChunk(env: Env, t0: Target, fs: seq<Frame>, res: seq<Res>, a: nat, b: nat, t: Target,
                  part: seq<Res>, f: nat, k: nat, t': Target, whole: seq<Res>)
    requires PackSafe(fs) && |res| == |fs| && Joined(whole, res, a, b, part)
    requires Progress(env, t0, fs, res, a, t)
    requires Delivered(env, t, fs[a..b], part, f, k, t')
    ensures Delivered(env, t0, fs, whole, a + f, a + k, t')
    ensures f == b - a ==> Progress(env, t0, fs, whole, b, t')
  {
    hide Exec, Delivered, PackSafe, Progress;
    if t == Exec(env, t0, fs, a) {
      ChunkAfterExact(env, t0, fs, res, a, b, part, f, k, t', whole);
    } else {
      ChunkAfterLoss(env, t0, fs, res, a, b, t, part, f, k, t', whole);
    }
  }

  lemma {:induction false} ChunkAfterExact(env: Env, t0: Target, fs: seq<Frame>, res: seq<Res>, a: nat, b: nat,
                        part: seq<Res>, f: nat, k: nat, t': Target, whole: seq<Res>)
    requires PackSafe(fs) && |res| == |fs| && Joined(whole, res, a, b, part)
    requires Progress(env, t0, fs, res, a, Exec(env, t0, fs, a))
    requires Delivered(env, Exec(env, t0, fs, a), fs[a..b], part, f, k, t')
    ensures Delivered(env, t0, fs, whole, a + f, a + k, t')
    ensures f == b - a ==> Progress(env, t0, fs, whole, b, t')
  {
    hide Exec, Resumed, HistAfter, Took, ValuesTo, AllowedTo, Allowed, Stopped;
    TookShift(env, t0, fs, a, b, f, t');
    TookShift(env, t0, fs, a, b, k, t');
    ValuesShift(env, t0, fs, res, a, b, part, f, whole);
    AllowedShift(env, t0, fs, res, a, b, part, k, whole);
    ExecParts(env, t0, fs, a, b, f);
    if f < b - a {
      AllowedPart(env, t0, fs, a, b, f);
      StoppedShift(env, t0, fs, res, a, b, part, f, t', whole);
    } else if b < |fs| {
      StoppedUnsent(env, t0, fs, whole, b, t');
    }
  }

  lemma {:induction false} StoppedUnsent(env: Env, t0: Target, fs: seq<Frame>, res: seq<Res>, a: nat, t: Target)
    requires a < |fs| == |res| && res[a].e.Unsent? && Took(env, t0, fs, a, t)
    ensures Stopped(env, t0, fs, res, a, t)
  {
    hide Exec, Took;
  }

  lemma {:induction false} StoppedShift(env: Env, t0: Target, fs: seq<Frame>, res: seq<Res>, a: nat, b: nat,
                     part: seq<Res>, f: nat, t: Target, whole: seq<Res>)
    requires |res| == |fs| && Joined(whole, res, a, b, part) && f < b - a
    requires Stopped(env, Exec(env, t0, fs, a), fs[a..b], part, f, t)
    ensures Stopped(env, t0, fs, whole, a + f, t)
  {
    hide Exec, Reject, Lose;
    ExecParts(env, t0, fs, a, b, f);
    ExecParts(env, t0, fs, a, b, f + 1);
    assert whole[a + f] == part[f];
    if f > 0 {
      ExecParts(env, t0, fs, a, b, f - 1);
      assert fs[a..b][f - 1] == fs[a + f - 1];
    }
    if a + f + 1 < b {
      assert whole[a + f + 1] == part[f + 1];
    }
  }

  lemma {:induction false} AllowedPart(env: Env, t0: Target, fs: seq<Frame>, a: nat, b: nat, i: nat)
    requires a < b <= |fs| && i < b - a
    ensures Allowed(env, Exec(env, t0, fs, a), fs[a..b], i) == Allowed(env, t0, fs, a + i)
  {
    hide Exec;
    ExecParts(env, t0, fs, a, b, i);
    assert fs[a..b][i] == fs[a + i];
  }

  lemma {:induction false} AllowedShift(env: Env, t0: Target, fs: seq<Frame>, res: seq<Res>, a: nat, b: nat,
                     part: seq<Res>, k: nat, whole: seq<Res>)
    requires |res| == |fs| && Joined(whole, res, a, b, part) && k <= b - a
    requires AllowedTo(env, t0, fs, res, a)
    requires AllowedTo(env, Exec(env, t0, fs, a), fs[a..b], part, k)
    ensures AllowedTo(env, t0, fs, whole, a + k)
  {
    hide Exec, Allowed;
    forall i | a <= i < a + k
      ensures !whole[i].e.Unsent? && Allowed(env, t0, fs, i)
    {
      AllowedPart(env, t0, fs, a, b, i - a);
      assert !part[i - a].e.Unsent?;
    }
  }

  lemma {:induction false} TookShift(env: Env, t0: Target, fs: seq<Frame>, a: nat, b: nat, i: nat, t: Target)
    requires a < b <= |fs| && i <= b - a
    ensures Took(env, Exec(env, t0, fs, a), fs[a..b], i, t) ==> Took(env, t0, fs, a + i, t)
    ensures HistAfter(env, Exec(env, t0, fs, a), fs[a..b], i, t) ==> HistAfter(env, t0, fs, a + i, t)
  {
    hide Exec;
    ExecParts(env, t0, fs, a, b, i);
    if i > 0 {
      ExecParts(env, t0, fs, a, b, i - 1);
      assert fs[a..b][i - 1] == fs[a + i - 1];
    }
  }

  lemma {:induction false} ValuesShift(env: Env, t0: Target, fs: seq<Frame>, res: seq<Res>, a: nat, b: nat,
                    part: seq<Res>, f: nat, whole: seq<Res>)
    requires |res| == |fs| && Joined(whole, res, a, b, part) && f <= b - a
    requires ValuesTo(env, t0, fs, res, a)
    requires ValuesTo(env, Exec(env, t0, fs, a), fs[a..b], part, f)
    ensures ValuesTo(env, t0, fs, whole, a + f)
  {
    hide Exec, Response;
    forall i | a <= i < a + f
      ensures whole[i] == Res(Response(env, Exec(env, t0, fs, i), fs[i]), NoError)
    {
      assert whole[i] == part[i - a] && fs[a..b][i - a] == fs[i];
      ExecParts(env, t0, fs, a, b, i - a);
    }
  }

  /** The last write before the chunk lost its data, so the chunk is rejected whole. */
  lemma {:induction false} ChunkAfterLoss(env: Env, t0: Target, fs: seq<Frame>, res: seq<Res>, a: nat, b: nat,
                                          t: Target,
                       part: seq<Res>, f: nat, k: nat, t': Target, whole: seq<Res>)
    requires PackSafe(fs) && |res| == |fs| && Joined(whole, res, a, b, part)
    requires Progress(env, t0, fs, res, a, t) && t != Exec(env, t0, fs, a)
    requires Delivered(env, t, fs[a..b], part, f, k, t')
    ensures f == k == 0
    ensures Delivered(env, t0, fs, whole, a, a, t')
  {
    hide Exec, Resumed, ValuesTo, Apply;
    LossRejects(env, t0, fs, a, b, t);
    LossStopped(env, t0, fs, a, b, t, part, t', whole, res);
    ExecNone(env, t, fs[a..b]);
    BeforeChunk(env, t0, fs, res, a, b, part, whole);
    assert whole[a] == part[0];
  }

  lemma {:induction false} BeforeChunk(env: Env, t0: Target, fs: seq<Frame>, res: seq<Res>, a: nat, b: nat,
                    part: seq<Res>, whole: seq<Res>)
    requires |res| == |fs| && Joined(whole, res, a, b, part)
    requires ValuesTo(env, t0, fs, res, a) && AllowedTo(env, t0, fs, res, a)
    ensures ValuesTo(env, t0, fs, whole, a) && AllowedTo(env, t0, fs, whole, a)
  {
    hide Exec, Response, Allowed;
  }

  lemma {:induction false} LossStopped(env: Env, t0: Target, fs: seq<Frame>, a: nat, b: nat, t: Target,
                    part: seq<Res>, t': Target, whole: seq<Res>, res: seq<Res>)
    requires PackSafe(fs) && |res| == |fs| && Joined(whole, res, a, b, part)
    requires Took(env, t0, fs, a, t) && t != Exec(env, t0, fs, a)
    requires Delivered(env, t, fs[a..b], part, 0, 0, t')
    ensures Stopped(env, t0, fs, whole, a, t')
  {
    hide Apply, Resumed, ValuesTo, HistAfter, AllowedTo, Allowed, Reject, Lose;
    ExecNone(env, t, fs[a..b]);
    assert whole[a] == part[0];
  }

  lemma {:induction false} LossRejects(env: Env, t0: Target, fs: seq<Frame>, a: nat, b: nat, t: Target)
    requires PackSafe(fs) && a < b <= |fs|
    requires Took(env, t0, fs, a, t) && t != Exec(env, t0, fs, a)
    ensures !Allowed(env, t, fs[a..b], 0)
  {
    hide Apply;
    assert NeverExempt(fs[a].req) && fs[a..b][0] == fs[a];
  }

  /** The chunk was clocked in the grammar the target kept throughout. */
  ghost predicate Framed(env: Env, t: Target, fs: seq<Frame>, cs: seq<Choice>, n: nat)
    requires |fs| == |cs| && n <= |fs|
  {
    |fs| <= 1 || forall j :: 0 <= j <= n ==> Overrun(Serve(env, t, fs, cs, j))
  }

  /** After any part of a chunk, the access ports have seen exactly what was accepted. */
  lemma {:induction false} ChunkHist(env: Env, t: Target, fs: seq<Frame>, cs: seq<Choice>, n: nat)
    requires |fs| == |cs| && fs != [] && PackSafe(fs) && n <= |fs| && Framed(env, t, fs, cs, n)
    ensures var k := Lead(env, t, fs, cs, n);
            && Taken(env, t, fs, cs, n) == fs[..k]
            && HistAfter(env, t, fs, k, Serve(env, t, fs, cs, n))
            && forall i :: 0 <= i < k ==> Allowed(env, t, fs, i)
  {
    hide Apply, Response, Took, Step, Allowed;
    var k := Lead(env, t, fs, cs, n);
    TakenIsPrefix(env, t, fs, cs, n);
    AcceptedSoFar(env, t, fs, cs, n, k);
    TookHist(env, t, fs, k, Serve(env, t, fs, cs, k));
    forall i | 0 <= i < k
      ensures Allowed(env, t, fs, i)
    {
      AcceptedSoFar(env, t, fs, cs, n, i + 1);
    }
  }

  /** A wire failure after `n` frames leaves every operation of the chunk uncertain. */
  lemma {:induction false} ChunkLost(env: Env, t: Target, fs: seq<Frame>, cs: seq<Choice>, n: nat, res: seq<Res>)
    requires |fs| == |cs| && fs != [] && PackSafe(fs) && n <= |fs| && Framed(env, t, fs, cs, n)
    requires |res| == |fs| && forall i :: 0 <= i < |res| ==> res[i].e.Uncertain?
    ensures Delivered(env, t, fs, res, 0, Lead(env, t, fs, cs, n), Serve(env, t, fs, cs, n))
  {
    hide Serve, Exec, Lead, HistAfter, Allowed;
    ChunkHist(env, t, fs, cs, n);
  }

  /** How many leading replies are plain successes. */
  function Successes(rs: seq<Reply>, i: nat): (f: nat)
    requires i <= |rs|
    ensures f <= i
    ensures forall j :: 0 <= j < f ==> rs[j].Done?
    ensures f < i ==> !rs[f].Done?
  {
    if i == 0 then 0
    else
      var f := Successes(rs, i - 1);
      if f == i - 1 && rs[f].Done? then i else f
  }

  /** Results that report the replies, except that a WAIT may have become unclean. */
  ghost predicate Reports(res: seq<Res>, rs: seq<Reply>) {
    && |res| == |rs|
    && forall i :: 0 <= i < |rs| ==>
         || res[i] == Res(ValueOf(rs[i]), FailureOf(rs[i]))
         || (rs[i].Waited? && res[i].e.Unclean?)
  }

  /** The target after the chunk's own cleanup, `s` being its state before that:
      nothing happens without a WAIT, and a WAIT that stays clean means the ABORT
      which clears STICKYORUN was accepted. The ports see nothing of it. */
  ghost predicate Cleaned(env: Env, rs: seq<Reply>, res: seq<Res>, fixed: bool, s: Target, t: Target)
    requires |rs| == |res|
  {
    && t.hist == s.hist
    && ((forall i :: 0 <= i < |rs| ==> !rs[i].Waited?) ==> t == s)
    && ((exists i :: 0 <= i < |rs| && rs[i].Waited? && res[i].e.Wait?) ==>
          if fixed then t == Apply(env, s, CLEAR_OVERRUN) || t == Lose(s) else t == s)
  }

  lemma {:induction false} SuccessValues(env: Env, t: Target, fs: seq<Frame>, cs: seq<Choice>, rs: seq<Reply>,
                                         res: seq<Res>)
    requires |fs| == |cs| == |rs| && PackSafe(fs) && Reports(res, rs)
    requires forall i :: 0 <= i < |fs| ==> rs[i] == ReplyAt(env, t, fs, cs, i)
    ensures Successes(rs, |rs|) <= Lead(env, t, fs, cs, |fs|)
    ensures ValuesTo(env, t, fs, res, Successes(rs, |rs|))
  {
    hide Serve, Exec, Response, Took, Lead, Sticky;
    var f := Successes(rs, |rs|);
    var k := Lead(env, t, fs, cs, |fs|);
    if k < f {
      LeadAccepts(env, t, fs, cs, |fs|, k);
    }
    forall i | 0 <= i < f
      ensures res[i] == Res(Response(env, Exec(env, t, fs, i), fs[i]), NoError)
    {
      AcceptedSoFar(env, t, fs, cs, |fs|, i + 1);
      assert rs[i].Done? && res[i] == Res(rs[i].value, NoError);
    }
  }

  /** A frame that was asked to wait follows frames that all took effect. */
  lemma {:induction false} WaitedAfterExec(env: Env, t: Target, fs: seq<Frame>, cs: seq<Choice>)
    requires |fs| == |cs| && PackSafe(fs)
    requires var k := Lead(env, t, fs, cs, |fs|); k < |fs| && ReplyAt(env, t, fs, cs, k).Waited?
    ensures var k := Lead(env, t, fs, cs, |fs|);
            Serve(env, t, fs, cs, k) == Exec(env, t, fs, k) && Allowed(env, t, fs, k)
  {
    hide Apply, Response;
    var k := Lead(env, t, fs, cs, |fs|);
    AcceptedSoFar(env, t, fs, cs, |fs|, k);
    assert k > 0 ==> NeverExempt(fs[k].req);
  }

  /** Only the first rejected frame of a chunk can have been asked to wait. */
  lemma {:induction false} WaitedIsFirst(env: Env, t: Target, fs: seq<Frame>, cs: seq<Choice>, i: nat)
    requires |fs| == |cs| && PackSafe(fs) && i < |fs| && Framed(env, t, fs, cs, |fs|)
    requires ReplyAt(env, t, fs, cs, i).Waited?
    ensures Lead(env, t, fs, cs, |fs|) == i
  {
    hide Serve, ReplyAt;
    LeadStays(env, t, fs, cs, i, |fs|);
    var k := Lead(env, t, fs, cs, |fs|);
    if k > i {
      LeadAccepts(env, t, fs, cs, |fs|, i);
    } else if k < i {
      RestFaulted(env, t, fs, cs, i);
    }
  }

  lemma {:induction false} LeadStays(env: Env, t: Target, fs: seq<Frame>, cs: seq<Choice>, i: nat, n: nat)
    requires |fs| == |cs| && i <= n <= |fs|
    ensures Lead(env, t, fs, cs, i) <= Lead(env, t, fs, cs, n)
    ensures Lead(env, t, fs, cs, i) < i ==> Lead(env, t, fs, cs, n) == Lead(env, t, fs, cs, i)
  {
    hide ReplyAt;
    if i < n {
      LeadStays(env, t, fs, cs, i, n - 1);
    }
  }

  lemma {:induction false} ResumedFixed(env: Env, s: Target, t: Target)
    requires Overrun(s)
    requires t == Apply(env, Reject(s), CLEAR_OVERRUN) || t == Lose(Reject(s))
    ensures Resumed(s, t)
  {
  }

  /** After a clean WAIT the target is where the frames before it left it. */
  lemma {:induction false} ChunkWaited(env: Env, t: Target, fs: seq<Frame>, cs: seq<Choice>, fixed: bool, t': Target)
    requires |fs| == |cs| && fs != [] && PackSafe(fs) && Framed(env, t, fs, cs, |fs|)
    requires Overrun(t) == fixed && (fixed || |fs| == 1)
    requires var k := Lead(env, t, fs, cs, |fs|); k < |fs| && ReplyAt(env, t, fs, cs, k).Waited?
    requires var s := Serve(env, t, fs, cs, |fs|);
             if fixed then t' == Apply(env, s, CLEAR_OVERRUN) || t' == Lose(s) else t' == s
    ensures Resumed(Exec(env, t, fs, Lead(env, t, fs, cs, |fs|)), t')
  {
    hide Apply, Response, Step, Resumed, Lose, Exec;
    var k := Lead(env, t, fs, cs, |fs|);
    WaitedAfterExec(env, t, fs, cs);
    TakenIsPrefix(env, t, fs, cs, |fs|);
    var s := Serve(env, t, fs, cs, k);
    assert Overrun(s) == fixed;
    if fixed {
      ResumedFixed(env, s, t');
    } else {
      ResumedSimple(s);
    }
  }

  lemma {:induction false} ResumedSimple(s: Target)
    ensures Resumed(s, s)
  {
  }

  /** A chunk that was not asked to wait, but stopped, took exactly its first frames. */
  lemma {:induction false} ChunkRejected(env: Env, t: Target, fs: seq<Frame>, cs: seq<Choice>, rs: seq<Reply>)
    requires |fs| == |cs| == |rs| && PackSafe(fs) && Framed(env, t, fs, cs, |fs|)
    requires forall i :: 0 <= i < |fs| ==> rs[i] == ReplyAt(env, t, fs, cs, i)
    requires var k := Lead(env, t, fs, cs, |fs|); k < |fs| && rs[k].Faulted?
    ensures RejectedAt(env, t, fs, Lead(env, t, fs, cs, |fs|), Serve(env, t, fs, cs, |fs|))
    ensures forall i :: 0 <= i < |rs| ==> !rs[i].Waited?
  {
    hide Serve, Exec, Lead, ReplyAt, Lose, Overrun, Reject;
    TakenIsPrefix(env, t, fs, cs, |fs|);
    AcceptedSoFar(env, t, fs, cs, |fs|, Lead(env, t, fs, cs, |fs|));
    forall i | 0 <= i < |rs|
      ensures !rs[i].Waited?
    {
      if rs[i].Waited? {
        WaitedIsFirst(env, t, fs, cs, i);
      }
    }
  }

  lemma {:induction false} ChunkStopped(env: Env, t: Target, fs: seq<Frame>, cs: seq<Choice>, rs: seq<Reply>,
                     res: seq<Res>, fixed: bool, t': Target)
    requires |fs| == |cs| == |rs| && fs != [] && PackSafe(fs) && Framed(env, t, fs, cs, |fs|)
    requires forall i :: 0 <= i < |fs| ==> rs[i] == ReplyAt(env, t, fs, cs, i)
    requires Reports(res, rs) && Cleaned(env, rs, res, fixed, Serve(env, t, fs, cs, |fs|), t')
    requires Successes(rs, |rs|) < |fs|
    ensures Stopped(env, t, fs, res, Successes(rs, |rs|), t')
  {
    hide Serve, Exec, Lead, ReplyAt, Apply, Lose, Successes, Overrun, Reject, RejectedAt, Framed, ValuesTo;
    var f, k := Successes(rs, |rs|), Lead(env, t, fs, cs, |fs|);
    SuccessValues(env, t, fs, cs, rs, res);
    LeadAccepts(env, t, fs, cs, |fs|, f);
    if res[f].e.Fault? {
      ChunkRejected(env, t, fs, cs, rs);
    } else if res[f].e.Parity? && f + 1 == |fs| {
      AcceptedSoFar(env, t, fs, cs, |fs|, k);
      ParityIsRead(env, t, fs, cs, f);
    }
  }

  lemma {:induction false} ParityIsRead(env: Env, t: Target, fs: seq<Frame>, cs: seq<Choice>, i: nat)
    requires |fs| == |cs| && i < |fs| && ReplyAt(env, t, fs, cs, i).BadParity?
    ensures fs[i].req.read
  {
  }

  /** A chunk whose replies all arrived. */
  lemma {:induction false} ChunkAnswered(env: Env, t: Target, fs: seq<Frame>, cs: seq<Choice>, rs: seq<Reply>,
                      res: seq<Res>, fixed: bool, t': Target)
    requires |fs| == |cs| == |rs| && fs != [] && PackSafe(fs) && Framed(env, t, fs, cs, |fs|)
    requires forall i :: 0 <= i < |fs| ==> rs[i] == ReplyAt(env, t, fs, cs, i)
    requires Overrun(t) == fixed && (fixed || |fs| == 1)
    requires Reports(res, rs) && Cleaned(env, rs, res, fixed, Serve(env, t, fs, cs, |fs|), t')
    ensures Delivered(env, t, fs, res, Successes(rs, |rs|), Lead(env, t, fs, cs, |fs|), t')
  {
    hide Serve, Exec, Lead, ReplyAt, Apply, Lose, Resumed, Took, ValuesTo, Successes, Overrun, Framed, Allowed, Stopped;
    var f, k := Successes(rs, |rs|), Lead(env, t, fs, cs, |fs|);
    SuccessValues(env, t, fs, cs, rs, res);
    ChunkHist(env, t, fs, cs, |fs|);
    AcceptedSoFar(env, t, fs, cs, |fs|, k);
    if f < |fs| {
      LeadAccepts(env, t, fs, cs, |fs|, f);
      if res[f].e.Wait? {
        ChunkWaited(env, t, fs, cs, fixed, t');
        WaitedAfterExec(env, t, fs, cs);
      } else if res[f].e.Parity? {
        ParityIsRead(env, t, fs, cs, f);
      }
      ChunkStopped(env, t, fs, cs, rs, res, fixed, t');
    }
  }

  function Accepted(env: Env, t: Target, f: Frame, c: Choice): nat {
    if Accepts(ReplyTo(env, t, f, c)) then 1 else 0
  }

  lemma {:induction false} OneFrame(env: Env, t: Target, f: Frame, c: Choice)
    ensures Serve(env, t, [f], [c], 0) == t
    ensures Serve(env, t, [f], [c], 1) == Step(env, t, f, c)
    ensures ReplyAt(env, t, [f], [c], 0) == ReplyTo(env, t, f, c)
    ensures Lead(env, t, [f], [c], 0) == 0
    ensures Lead(env, t, [f], [c], 1) == Accepted(env, t, f, c)
  {
    hide Step, ReplyTo;
  }

  /** A single frame on a wire that failed before or after the target saw it. */
  lemma {:induction false} OneLost(env: Env, t: Target, f: Frame, c: Choice, sent: bool, r: Res)
    requires r.e.Uncertain?
    ensures var k := if sent then Accepted(env, t, f, c) else 0;
            Delivered(env, t, [f], [r], 0, k, if sent then Step(env, t, f, c) else t)
  {
    hide Step, ReplyTo, Delivered, Serve, Lead;
    OneFrame(env, t, f, c);
    ChunkLost(env, t, [f], [c], if sent then 1 else 0, [r]);
  }

  /** A single frame whose reply arrived; `r` reports it, after any cleanup. */
  lemma {:induction false} OneAnswered(env: Env, t: Target, f: Frame, c: Choice, r: Res, fixed: bool, t': Target)
    requires Overrun(t) == fixed
    requires var reply, s := ReplyTo(env, t, f, c), Step(env, t, f, c);
             && (r == Res(ValueOf(reply), FailureOf(reply)) || (reply.Waited? && r.e.Unclean?))
             && t'.hist == s.hist
             && (!reply.Waited? ==> t' == s)
             && (r.e.Wait? ==> if fixed then t' == Apply(env, s, CLEAR_OVERRUN) || t' == Lose(s) else t' == s)
    ensures Delivered(env, t, [f], [r], if r.e.NoError? then 1 else 0, Accepted(env, t, f, c), t')
  {
    hide Step, ReplyTo, Delivered, Serve, Lead, Apply, Lose;
    OneFrame(env, t, f, c);
    var rs := [ReplyTo(env, t, f, c)];
    ChunkAnswered(env, t, [f], [c], rs, [r], fixed, t');
    assert [r][0] == r && rs[0] == ReplyTo(env, t, f, c);
  }

  /** Clearing STICKYORUN does not disturb what the host knows. */
  lemma {:induction false} CleanupCoherent(env: Env, l: Link, s: Target, t: Target)
    requires Coherent(l, s)
    requires t == Apply(env, s, CLEAR_OVERRUN) || t == Lose(s)
    ensures Coherent(l, t)
  {
  }

  /** Observing the reply to one validated frame keeps the agreement; a rejected
      frame teaches the host nothing. */
  lemma {:induction false} SentCoherent(env: Env, l: Link, t: Target, f: Frame, c: Choice, r: Res)
    requires Coherent(l, t) && Validates(l, f)
    requires var reply := ReplyTo(env, t, f, c); r == Res(ValueOf(reply), FailureOf(reply))
    ensures Coherent(Observe(l, f, r.value, r.e), Step(env, t, f, c))
    ensures r.e.Wait? || r.e.Fault? ==> Observe(l, f, r.value, r.e) == l
  {
    hide Step, ReplyTo, Coherent, Observe, Validates;
    if Accepts(ReplyTo(env, t, f, c)) {
      ValidatedKeepsGrammar(env, l, t, f, c);
      ObserveAccepted(env, l, t, f, c, r.value, r.e);
    } else {
      ObserveRejected(env, l, t, f, c);
    }
  }

  /** No frame was accepted after a rejected one. */
  ghost predicate Orderly(rs: seq<Reply>) {
    forall i, j :: 0 <= i < j < |rs| && !Accepts(rs[i]) ==> rs[j].Faulted?
  }

  lemma {:induction false} ChunkOrderly(env: Env, t: Target, fs: seq<Frame>, cs: seq<Choice>, rs: seq<Reply>)
    requires |fs| == |cs| == |rs| && PackSafe(fs) && Framed(env, t, fs, cs, |fs|)
    requires forall i :: 0 <= i < |fs| ==> rs[i] == ReplyAt(env, t, fs, cs, i)
    ensures Orderly(rs)
  {
    hide Serve, Lead, ReplyAt;
    forall i, j | 0 <= i < j < |rs| && !Accepts(rs[i])
      ensures rs[j].Faulted?
    {
      if Lead(env, t, fs, cs, j) == j {
        LeadAccepts(env, t, fs, cs, j, i);
      }
      RestFaulted(env, t, fs, cs, j);
    }
  }

  function FirstRejected(rs: seq<Reply>, i: nat := 0): (r: nat)
    requires i <= |rs|
    ensures i <= r <= |rs|
    ensures forall j :: i <= j < r ==> Accepts(rs[j])
    ensures r < |rs| ==> !Accepts(rs[r])
    decreases |rs| - i
  {
    if i == |rs| || !Accepts(rs[i]) then i else FirstRejected(rs, i + 1)
  }

  function FirstWaited(rs: seq<Reply>, i: nat := 0): (r: nat)
    requires i <= |rs|
    ensures i <= r <= |rs|
    ensures forall j :: i <= j < r ==> !rs[j].Waited?
    ensures r < |rs| ==> rs[r].Waited?
    decreases |rs| - i
  {
    if i == |rs| || rs[i].Waited? then i else FirstWaited(rs, i + 1)
  }

  /** Whether the host expects a target with sticky state to answer `req`. */
  predicate HostExempt(l: Link, req: Req) {
    || IsIdRead(req) || IsAbortWrite(req)
    || (IsCtrlStatRead(req) && IsZero(l.bank) && (l.pending ==> IsZero(l.prior)))
  }

  /** A dry-run-validated chunk is clocked in one grammar throughout. */
  lemma {:induction false} ChunkFramed(env: Env, d: Link, t: Target, fs: seq<Frame>, cs: seq<Choice>, n: nat)
    requires |fs| == |cs| && n <= |fs|
    requires Coherent(d, t) && d.mode.Fixed? && DryValid(d, fs) && AbortLast(fs)
    ensures Framed(env, t, fs, cs, n)
    ensures Lead(env, t, fs, cs, n) == n ==> Coherent(Dry(d, fs, n), Serve(env, t, fs, cs, n))
  {
    hide Serve, Coherent, DryValid, AbortLast, Lead;
    forall j | 0 <= j <= n
      ensures Overrun(Serve(env, t, fs, cs, j))
    {
      ChunkKeepsGrammar(env, d, t, fs, cs, j);
    }
    ChunkKeepsGrammar(env, d, t, fs, cs, n);
  }

  lemma {:induction false} AllDoneLeads(env: Env, t: Target, fs: seq<Frame>, cs: seq<Choice>, rs: seq<Reply>)
    requires |fs| == |cs| == |rs|
    requires forall i :: 0 <= i < |fs| ==> rs[i] == ReplyAt(env, t, fs, cs, i)
    requires forall i :: 0 <= i < |fs| ==> rs[i].Done?
    ensures Lead(env, t, fs, cs, |fs|) == |fs|
  {
    hide Serve, ReplyAt;
    var k := Lead(env, t, fs, cs, |fs|);
    if k < |fs| {
      LeadAccepts(env, t, fs, cs, |fs|, k);
    }
  }

  lemma {:induction false} ProgressNone(env: Env, t: Target, fs: seq<Frame>, res: seq<Res>)
    requires |res| == |fs|
    ensures Progress(env, t, fs, res, 0, t)
  {
  }

  /** Results from operation `a` on do not matter to the progress made before it. */
  lemma {:induction false} StillProgress(env: Env, t0: Target, fs: seq<Frame>, res: seq<Res>, a: nat, t: Target, r: Res)
    requires a < |fs| == |res|
    ensures Progress(env, t0, fs, res, a, t) ==> Progress(env, t0, fs, res[a := r], a, t)
  {
    hide Exec, Response, Took;
  }

  lemma {:induction false} OneMore(env: Env, t0: Target, fs: seq<Frame>, res: seq<Res>, a: nat, t: Target,
                r: Res, f: nat, k: nat, t': Target, whole: seq<Res>)
    requires PackSafe(fs) && a < |fs| == |res| && whole == res[a := r]
    requires forall i :: a <= i < |fs| ==> res[i].e.Unsent?
    requires Progress(env, t0, fs, res, a, t)
    requires Delivered(env, t, [fs[a]], [r], f, k, t')
    ensures Delivered(env, t0, fs, whole, a + f, a + k, t')
    ensures f == 1 ==> k == 1 && Progress(env, t0, fs, whole, a + 1, t')
  {
    hide Exec, Took, ValuesTo, HistAfter, AllowedTo, Allowed, Resumed;
    assert fs[a..a + 1] == [fs[a]];
    NextChunk(env, t0, fs, res, a, a + 1, t, [r], f, k, t', whole);
  }

  lemma {:induction false} JoinedAt(whole: seq<Res>, res: seq<Res>, a: nat, b: nat, part: seq<Res>)
    requires a < b <= |res| && |part| == b - a && whole == Splice(res, a, b, part)
    requires forall i :: b <= i < |res| ==> res[i].e.Unsent?
    ensures Joined(whole, res, a, b, part)
  {
  }

  lemma {:induction false} PackSafePart(fs: seq<Frame>, a: nat, b: nat)
    requires a < b <= |fs|
    ensures PackSafe(fs) ==> PackSafe(fs[a..b])
  {
  }

  lemma {:induction false} AllDelivered(env: Env, t0: Target, fs: seq<Frame>, res: seq<Res>, f: nat, k: nat, t: Target)
    requires Delivered(env, t0, fs, res, f, k, t)
    requires forall i :: 0 <= i < |res| ==> res[i].e.NoError?
    ensures f == k == |fs|
  {
    hide Exec, Took, ValuesTo, HistAfter, Resumed, AllowedTo, Allowed;
  }

  /** What a chunk adds to the batch so far. */
  lemma {:induction false} Merge(env: Env, t0: Target, fs: seq<Frame>, res: seq<Res>, a: nat, b: nat, t: Target,
              part: seq<Res>, f: nat, k: nat, t': Target, whole: seq<Res>)
    requires PackSafe(fs) && a < b <= |fs| == |res| && |part| == b - a
    requires whole == Splice(res, a, b, part)
    requires forall i :: b <= i < |res| ==> res[i].e.Unsent?
    requires Progress(env, t0, fs, res, a, t)
    requires k <= b - a && Delivered(env, t, fs[a..b], part, f, k, t')
    ensures Delivered(env, t0, fs, whole, a + f, a + k, t')
    ensures fs[..a] + fs[a..b][..k] == fs[..a + k]
    ensures (forall i :: 0 <= i < |part| ==> part[i].e.NoError?) ==>
              f == k == b - a && Progress(env, t0, fs, whole, b, t')
  {
    hide Exec, Delivered, Progress, Joined, Splice;
    JoinedAt(whole, res, a, b, part);
    NextChunk(env, t0, fs, res, a, b, t, part, f, k, t', whole);
    if forall i :: 0 <= i < |part| ==> part[i].e.NoError? {
      AllDelivered(env, t, fs[a..b], part, f, k, t');
    }
  }
}
