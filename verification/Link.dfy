/** What the host remembers about one SWD connection between transfers: the
    response grammar, the debug-port bank and whether the last SELECT write is
    still provisional. */
module SwdLink {
  import opened Options
  import opened Words
  import opened SwdTarget

  datatype Mode = Simple | Fixed

  datatype Phase = Idle | Ready | Repair

  datatype Selection = Unknown | Known(bank: Word)

  datatype Link = Link(mode: Mode, phase: Phase,
                       bank: Selection, prior: Selection, pending: bool,
                       identity: Option<Word>, original: Option<bool>)

  /** The error of one register operation. `Unclean` is a WAIT joined with a failed
      STICKYORUN cleanup, `Unsent` never reached the wire, `Invalid` was refused by
      validation, and `Uncertain` may have taken effect. */
  datatype Failure = NoError | Wait | Fault | Parity | Unclean | Unsent | Invalid | Uncertain

  function FailureOf(r: Reply): Failure {
    match r
    case Done(_) => NoError
    case BadParity => Parity
    case Waited => Wait
    case Faulted => Fault
  }

  function ValueOf(r: Reply): Word {
    if r.Done? then r.value else 0
  }

  predicate Complete(e: Failure) {
    e.NoError? || e.Wait? || e.Fault? || e.Parity?
  }

  function ConfirmBank(l: Link): Link {
    l.(prior := Unknown, pending := false)
  }

  function InvalidateBank(l: Link): Link {
    ConfirmBank(l.(bank := Unknown))
  }

  function RequireRepair(l: Link): Link {
    if l.phase.Idle? then l else InvalidateBank(l.(phase := Repair))
  }

  /** A DLCR value that leaves the turnaround at one cycle. */
  predicate KeepsTurnaround(dlcr: Word) {
    dlcr / 256 % 4 == 0
  }

  /** Refuses writes at 0x04 that would change the response grammar or the
      turnaround, and any such write while the bank is not certain. */
  predicate Validates(l: Link, f: Frame) {
    IsBankedWrite(f.req) ==>
      && !l.pending && l.bank.Known?
      && (l.bank.bank == 0 ==> OrunDetect(f.data) == l.mode.Fixed?)
      && (l.bank.bank == 1 ==> KeepsTurnaround(f.data))
  }

  predicate MayReachCtrlStat(req: Req, prior: Selection) {
    IsCtrlStatRead(req) && (prior.Unknown? || prior.bank == 0)
  }

  predicate IsZero(s: Selection) {
    s.Known? && s.bank == 0
  }

  function ObservePending(l: Link, req: Req, result: Word, e: Failure): Link {
    if IsAbortWrite(req) then (if e.NoError? then InvalidateBank(l) else l)
    else if IsIdRead(req) then l
    else if IsCtrlStatRead(req) && IsZero(l.bank) && IsZero(l.prior) then
      if !e.NoError? then l
      else if WdataErr(result) then InvalidateBank(l)
      else ConfirmBank(l)
    else if MayReachCtrlStat(req, l.prior) then l
    else if e.NoError? || e.Parity? then ConfirmBank(l)
    else l
  }

  /** Nothing but the bank is learned from a completed operation, and no
      observation changes the grammar or what Release has to restore. */
  function Observe(l: Link, f: Frame, result: Word, e: Failure): (m: Link)
    ensures m.mode == l.mode && m.identity == l.identity && m.original == l.original
    ensures m.phase == if Complete(e) || l.phase.Idle? then l.phase else Repair
  {
    if !Complete(e) then RequireRepair(l)
    else
      var m := if l.pending then ObservePending(l, f.req, result, e) else l;
      if IsSelectWrite(f.req) && e.NoError? then
        m.(prior := m.bank, bank := Known(BankOf(f.data)), pending := true)
      else m
  }

  /** Agreement between the host's memory and the target. A confirmed bank is the
      target's DPBANKSEL. A provisional one is too, or its SELECT data was lost:
      then WDATAERR is up and the bank is the prior one, where that is known. */
  ghost predicate Coherent(l: Link, t: Target) {
    && l.mode.Fixed? == Overrun(t)
    && (l.pending ==> l.bank.Known?)
    && (l.bank.Known? ==>
          || Bank(t) == l.bank.bank
          || (l.pending && t.ctrl.wdata && (l.prior.Known? ==> Bank(t) == l.prior.bank)))
  }

  /** What register traffic keeps of the link: its grammar and its owner. Traffic
      never makes a connection ready, and never gives one up. */
  ghost predicate Kept(l0: Link, l: Link) {
    && l.mode == l0.mode && l.identity == l0.identity && l.original == l0.original
    && (l.phase.Idle? <==> l0.phase.Idle?)
    && (l.phase.Ready? ==> l0.phase.Ready?)
  }

  lemma {:induction false} CoherentMode(l: Link, t: Target)
    requires Coherent(l, t)
    ensures l.mode.Fixed? == Overrun(t)
  {
  }

  /** A write the validation lets through leaves ORUNDETECT alone. */
  lemma {:induction false} ValidatedKeepsGrammar(env: Env, l: Link, t: Target, f: Frame, c: Choice)
    requires Coherent(l, t) && Validates(l, f)
    ensures Overrun(Step(env, t, f, c)) == Overrun(t)
  {
    hide OrunDetect, PowerOf, BankOf, Port, ReadDp, KeepsTurnaround;
  }

  /** Observing an accepted request keeps the agreement, whatever became of its
      data and whatever value it returned. `e` is the request's own outcome, or
      the success a dry run assumes. */
  lemma {:induction false} ObserveAccepted(env: Env, l: Link, t: Target, f: Frame, c: Choice, result: Word, e: Failure)
    requires Coherent(l, t)
    requires Accepts(ReplyTo(env, t, f, c))
    requires Overrun(Step(env, t, f, c)) == Overrun(t)
    requires e.NoError? || e == FailureOf(ReplyTo(env, t, f, c))
    ensures Coherent(Observe(l, f, result, e), Step(env, t, f, c))
  {
    hide SetPower, ReadDp, WdataErr, ClearSticky, Port, OrunDetect;
    var t' := Step(env, t, f, c);
    assert IsSelectWrite(f.req) || Bank(t') == Bank(t);
    assert Exempt(f.req, t.select) || !t.ctrl.wdata;
  }

  lemma {:induction false} ObserveRejected(env: Env, l: Link, t: Target, f: Frame, c: Choice)
    requires Coherent(l, t)
    requires !Accepts(ReplyTo(env, t, f, c))
    ensures Observe(l, f, 0, FailureOf(ReplyTo(env, t, f, c))) == l
    ensures Coherent(l, Step(env, t, f, c))
  {
  }

  lemma {:induction false} RejectionTeachesNothing(l: Link, f: Frame)
    ensures Observe(l, f, 0, Wait) == l && Observe(l, f, 0, Fault) == l
  {
  }

  /** The link after a dry run over the first `i` frames, each assumed to succeed. */
  function Dry(l: Link, fs: seq<Frame>, i: nat): (m: Link)
    requires i <= |fs|
    ensures m.mode == l.mode && m.phase == l.phase
  {
    if i == 0 then l else Observe(Dry(l, fs, i - 1), fs[i - 1], 0, NoError)
  }

  /** Every frame passes validation in the state the dry run reaches before it. */
  ghost predicate DryValid(l: Link, fs: seq<Frame>) {
    forall i :: 0 <= i < |fs| ==> Validates(Dry(l, fs, i), fs[i])
  }

  /** The link after observing the replies to the first `i` frames. */
  function ObserveTo(l: Link, fs: seq<Frame>, rs: seq<Reply>, i: nat): (m: Link)
    requires |fs| == |rs| && i <= |fs|
    ensures m.mode == l.mode && m.phase == l.phase && m.original == l.original && m.identity == l.identity
  {
    if i == 0 then l
    else Observe(ObserveTo(l, fs, rs, i - 1), fs[i - 1], ValueOf(rs[i - 1]), FailureOf(rs[i - 1]))
  }

  lemma {:induction false} ObserveNone(l: Link, fs: seq<Frame>, rs: seq<Reply>)
    requires |fs| == |rs|
    ensures ObserveTo(l, fs, rs, 0) == l
  {
  }

  lemma {:induction false} ObserveNext(l: Link, fs: seq<Frame>, rs: seq<Reply>, i: nat)
    requires i < |fs| == |rs|
    ensures ObserveTo(l, fs, rs, i + 1) == Observe(ObserveTo(l, fs, rs, i), fs[i], ValueOf(rs[i]), FailureOf(rs[i]))
  {
  }

  /** ABORT ends a chunk. */
  ghost predicate AbortLast(fs: seq<Frame>) {
    forall i :: 0 <= i < |fs| - 1 ==> !IsAbortWrite(fs[i].req)
  }

  lemma {:induction false} DryParts(l: Link, fs: seq<Frame>, a: nat, b: nat, i: nat)
    requires a <= b <= |fs| && i <= b - a
    ensures Dry(Dry(l, fs, a), fs[a..b], i) == Dry(l, fs, a + i)
  {
    hide Observe;
    if i > 0 {
      DryParts(l, fs, a, b, i - 1);
    }
  }

  /** A chunk validated by a dry run never changes the response grammar: a write at
      0x04 that reaches the target is one the dry run got right, because after a
      rejection or lost data the target answers it with FAULT. */
  lemma {:induction false} ChunkKeepsGrammar(env: Env, d: Link, t: Target, fs: seq<Frame>, cs: seq<Choice>, i: nat)
    requires |fs| == |cs| && i <= |fs|
    requires Coherent(d, t) && d.mode.Fixed? && DryValid(d, fs) && AbortLast(fs)
    ensures Overrun(Serve(env, t, fs, cs, i))
    ensures Lead(env, t, fs, cs, i) == i ==> Coherent(Dry(d, fs, i), Serve(env, t, fs, cs, i))
    ensures Lead(env, t, fs, cs, i) < i < |fs| ==> Serve(env, t, fs, cs, i).ctrl.overrun
  {
    hide Step, ReplyTo, Observe, Validates;
    if i > 0 {
      ChunkKeepsGrammar(env, d, t, fs, cs, i - 1);
      var s := Serve(env, t, fs, cs, i - 1);
      if Lead(env, t, fs, cs, i - 1) == i - 1 {
        var l := Dry(d, fs, i - 1);
        if Accepts(ReplyAt(env, t, fs, cs, i - 1)) {
          ValidatedKeepsGrammar(env, l, s, fs[i - 1], cs[i - 1]);
          ObserveAccepted(env, l, s, fs[i - 1], cs[i - 1], 0, NoError);
        } else {
          RejectKeeps(env, s, fs[i - 1], cs[i - 1]);
        }
      } else {
        AfterOverrun(env, s, fs[i - 1], cs[i - 1]);
      }
    }
  }

  lemma {:induction false} RejectKeeps(env: Env, t: Target, f: Frame, c: Choice)
    requires Overrun(t) && !Accepts(ReplyTo(env, t, f, c))
    ensures Overrun(Step(env, t, f, c)) && Step(env, t, f, c).ctrl.overrun
  {
  }

  lemma {:induction false} AfterOverrun(env: Env, t: Target, f: Frame, c: Choice)
    requires Overrun(t) && t.ctrl.overrun
    ensures Overrun(Step(env, t, f, c))
    ensures !IsAbortWrite(f.req) ==> Step(env, t, f, c).ctrl.overrun
  {
  }

  /** Observing a whole chunk keeps the agreement, for every behaviour of the target. */
  lemma {:induction false} ObservedCoherent(env: Env, d: Link, l: Link, t: Target,
                                            fs: seq<Frame>, cs: seq<Choice>, rs: seq<Reply>, i: nat)
    requires |fs| == |cs| == |rs| && i <= |fs|
    requires forall j :: 0 <= j < |fs| ==> rs[j] == ReplyAt(env, t, fs, cs, j)
    requires Coherent(d, t) && d.mode.Fixed? && DryValid(d, fs) && AbortLast(fs)
    requires Coherent(l, t)
    ensures Coherent(ObserveTo(l, fs, rs, i), Serve(env, t, fs, cs, i))
  {
    hide Step, ReplyTo, Coherent, Observe, Validates;
    if i > 0 {
      ObservedCoherent(env, d, l, t, fs, cs, rs, i - 1);
      ChunkKeepsGrammar(env, d, t, fs, cs, i - 1);
      ChunkKeepsGrammar(env, d, t, fs, cs, i);
      var l' := ObserveTo(l, fs, rs, i - 1);
      var s := Serve(env, t, fs, cs, i - 1);
      assert rs[i - 1] == ReplyTo(env, s, fs[i - 1], cs[i - 1]);
      if Accepts(rs[i - 1]) {
        ObserveAccepted(env, l', s, fs[i - 1], cs[i - 1], ValueOf(rs[i - 1]), FailureOf(rs[i - 1]));
      } else {
        ObserveRejected(env, l', s, fs[i - 1], cs[i - 1]);
      }
    }
  }

  lemma {:induction false} DryNone(l: Link, fs: seq<Frame>)
    ensures Dry(l, fs, 0) == l
  {
  }

  /** A validated list stays validated from any point of its dry run on. */
  lemma {:induction false} DryPart(l: Link, fs: seq<Frame>, a: nat, b: nat)
    requires a <= b <= |fs| && DryValid(l, fs)
    ensures DryValid(Dry(l, fs, a), fs[a..b])
    ensures Dry(Dry(l, fs, a), fs[a..b], |fs[a..b]|) == Dry(l, fs, b)
  {
    hide Dry, Validates;
    DryParts(l, fs, a, b, b - a);
    forall i | 0 <= i < b - a
      ensures Validates(Dry(Dry(l, fs, a), fs[a..b], i), fs[a..b][i])
    {
      DryParts(l, fs, a, b, i);
    }
  }
}
