/** A block write does not always say that a value beyond its confirmed prefix may be in memory: where a chunk
    writes one value, a lost cleanup write is read as the loss of that value. */
module DapMisread {
  import opened Options
  import opened Words
  import opened SwdTarget
  import opened SwdLink
  import opened SwdBatch
  import opened DapPlan
  import opened DapPlanShape
  import opened DapState
  import opened DapPort
  import opened DapTxn
  import opened DapPartial
  import opened DapApTxn
  import opened SimMemAp
  import opened DapMemCodec
  import opened DapMemHistory
  import opened DapMemSteps
  import opened DapMemAp

  /** What the host sends, and what the target does about it. */
  datatype Traffic = Traffic(frames: seq<Frame>, choices: seq<Choice>)

  const CTRLSTAT_READ := DpFrame(CTRLSTAT, true, 0)

  /** Overrun responses: the write is taken, its barrier stalls, the data of the ABORT that clears STICKYORUN is
      lost, and the repeated barrier is refused. */
  function OverrunTraffic(value: Word): Traffic {
    Traffic([ApFrame(DRW, false, value), BARRIER, CLEAR_OVERRUN, BARRIER, CTRLSTAT_READ],
            [Take(false), Stall, Take(true), Take(false), Take(false)])
  }

  /** Simple responses: the write is taken, its barrier stalls until the host gives up, and the data of both
      ABORT writes of the recovery is lost, so that the write of SELECT is refused. */
  function SimpleTraffic(value: Word): Traffic {
    Traffic([ApFrame(DRW, false, value), BARRIER, DpFrame(ABORT, false, DAPABORT), CTRLSTAT_READ,
             DpFrame(ABORT, false, CLEAR_WDATAERR), DpFrame(SELECT, false, 0), CTRLSTAT_READ],
            [Take(false), Stall, Take(true), Take(false), Take(true), Take(false), Take(false)])
  }

  /** A target about to take one data write of port `sel`. */
  ghost predicate Ready(env: Env, t: Target, sel: Word, value: Word) {
    && sel <= 0xff && t.select == SelectFor(sel, DRW) && !Sticky(t)
    && !env.faults(t.hist + [ApAccess(PortOf(sel, DRW), false, value)])
  }

  lemma {:induction false} FirstTaken(env: Env, t: Target, sel: Word, value: Word)
    requires Ready(env, t, sel, value)
    ensures var u := Apply(env, t, ApFrame(DRW, false, value));
            && u == t.(hist := t.hist + [ApAccess(PortOf(sel, DRW), false, value)], rdbuff := 0)
            && Bank(u) == 0
  {
    hide PortOf, SwdTarget.Port;
    AimedPort(sel, DRW);
  }

  lemma {:induction false} ServeNext(env: Env, t: Target, fs: seq<Frame>, cs: seq<Choice>, i: nat)
    requires |fs| == |cs| && i < |fs|
    ensures Serve(env, t, fs, cs, 0) == t
    ensures Serve(env, t, fs, cs, i + 1) == SwdTarget.Step(env, Serve(env, t, fs, cs, i), fs[i], cs[i])
  {
  }

  /** The barrier is refused with WDATAERR, and yet the port has the value. */
  lemma {:induction false} OverrunMisread(env: Env, t: Target, sel: Word, value: Word)
    requires Ready(env, t, sel, value) && Overrun(t)
    ensures var r := OverrunTraffic(value);
            && ReplyAt(env, t, r.frames, r.choices, 0) == Done(0)
            && ReplyAt(env, t, r.frames, r.choices, 1) == Waited
            && ReplyAt(env, t, r.frames, r.choices, 2) == Done(0)
            && ReplyAt(env, t, r.frames, r.choices, 3) == Faulted
            && ReplyAt(env, t, r.frames, r.choices, 4).Done?
            && WdataErr(ReplyAt(env, t, r.frames, r.choices, 4).value)
            && Serve(env, t, r.frames, r.choices, 5).hist == t.hist + [ApAccess(PortOf(sel, DRW), false, value)]
  {
    hide Serve, PortOf, CtrlWord, WdataErr, BankOf;
    var r := OverrunTraffic(value);
    FirstTaken(env, t, sel, value);
    ServeNext(env, t, r.frames, r.choices, 0);
    ServeNext(env, t, r.frames, r.choices, 1);
    ServeNext(env, t, r.frames, r.choices, 2);
    ServeNext(env, t, r.frames, r.choices, 3);
    ServeNext(env, t, r.frames, r.choices, 4);
    CtrlWordFlags(Serve(env, t, r.frames, r.choices, 4).ctrl);
  }

  lemma {:induction false} SimpleMisread(env: Env, t: Target, sel: Word, value: Word, minimal: bool)
    requires Ready(env, t, sel, value) && !Overrun(t)
    ensures var r := SimpleTraffic(value);
            && ReplyAt(env, t, r.frames, r.choices, 0) == Done(0)
            && ReplyAt(env, t, r.frames, r.choices, 1) == Waited
            && ReplyAt(env, t, r.frames, r.choices, 2) == Done(0)
            && ReplyAt(env, t, r.frames, r.choices, 3).Done?
            && StickyClear(ReplyAt(env, t, r.frames, r.choices, 3).value, minimal) == CLEAR_WDATAERR
            && ReplyAt(env, t, r.frames, r.choices, 4) == Done(0)
            && ReplyAt(env, t, r.frames, r.choices, 5) == Faulted
            && ReplyAt(env, t, r.frames, r.choices, 6).Done?
            && WdataErr(ReplyAt(env, t, r.frames, r.choices, 6).value)
            && Serve(env, t, r.frames, r.choices, 7).hist == t.hist + [ApAccess(PortOf(sel, DRW), false, value)]
  {
    hide Serve, PortOf, CtrlWord, WdataErr, StickyErr, StickyOrun, StickyCmp, BankOf;
    var r := SimpleTraffic(value);
    FirstTaken(env, t, sel, value);
    ServeNext(env, t, r.frames, r.choices, 0);
    ServeNext(env, t, r.frames, r.choices, 1);
    ServeNext(env, t, r.frames, r.choices, 2);
    ServeNext(env, t, r.frames, r.choices, 3);
    ServeNext(env, t, r.frames, r.choices, 4);
    ServeNext(env, t, r.frames, r.choices, 5);
    ServeNext(env, t, r.frames, r.choices, 6);
    CtrlWordFlags(Serve(env, t, r.frames, r.choices, 3).ctrl);
    CtrlWordFlags(Serve(env, t, r.frames, r.choices, 6).ctrl);
  }

  // ----- What the host makes of it -----

  /** The error of a refused barrier, and that of a given up one whose recovery was refused. */
  function RefusedBarrier(ctrl: Word, cleared: bool): Err {
    PLAIN.(fault := Some(FaultInfo(true, ctrl, cleared)))
  }

  function RefusedRecovery(wait: bool, ctrl: Word, cleared: bool): Err {
    Join(PLAIN.(wait := wait, rejected := true), PLAIN.(fault := Some(FaultInfo(true, ctrl, cleared))))
  }

  /** The barrier of a write sequence. */
  function LastStep(op: Op): Step
    requires ValidOp(op) && op.WriteSeq?
  {
    WriteSeqSteps(0, op)[|op.values|]
  }

  /** Nothing but the limit of waits and the context keeps the host from repeating a stalled barrier, and the
      captured CTRL/STAT value decides its error. */
  lemma {:induction false} RepeatsBarrier(st: PortState, op: Op)
    requires ValidOp(op) && op.WriteSeq?
    ensures var s := LastStep(op);
            s.f == BARRIER && !Collects(s) && !WaitForbidden(st, s.f.req) && SuffixAbandoned([Res(0, Wait)], 1, false)
  {
    hide WriteSteps;
  }

  /** Any write's barrier that fails with WDATAERR captured keeps the error it came with. */
  lemma {:induction false} KeepsError(st: PortState, s: Step, e: Err)
    requires s.started && s.completes && !s.apRead && ReportsWdata(e) && !e.indeterminate && !e.parity && !e.solely
    ensures ExecutionError(st, true, s, e) == e
  {
    hide WdataErr;
  }

  /** With WDATAERR captured, a sequence whose writes were all accepted counts as uncertain exactly if it has
      more than one value; and the barrier's own error does not say so either. */
  lemma {:induction false} CountsAsLost(st: PortState, op: Op, e: Err)
    requires ValidOp(op) && op.WriteSeq? && ReportsWdata(e) && !e.indeterminate && !e.parity && !e.solely
    ensures var own := ExecutionError(st, true, LastStep(op), e);
            && own == e && ConfirmedWrites(op, Resolved(0, Some(own)), |op.values|) == 0
            && (UncertainWrite(op.values, |op.values|, Resolved(0, Some(own))) <==> |op.values| != 1)
  {
    hide WdataErr, WriteSteps, ExecutionError;
    KeepsError(st, LastStep(op), e);
  }

  /** One value on its own, in either response grammar: there is traffic after which memory has the value, while
      the host confirms nothing and has an error that does not say the outcome is open. A scalar write keeps
      the same error. */
  lemma {:induction false} LoneWriteHidden(env: Env, m: MemPort, t: Target, addr: int, size: Size, value: Word,
                                           bytes: seq<Byte>)
    returns (r: Traffic, e: Err)
    requires Ready(env, t, m.sel, value) && WriteAt(env, m, t.hist, addr, size, 1) &&
             Carries(m.big, addr, size, [value], bytes)
    ensures |r.frames| == |r.choices| > 0
    ensures var u := Serve(env, t, r.frames, r.choices, |r.frames|);
            Overwritten(env, m, t.hist, u.hist, addr, bytes, Bytes(size))
    ensures var last := |r.frames| - 1;
            && ReplyAt(env, t, r.frames, r.choices, last).Done?
            && e.fault == Some(FaultInfo(true, ReplyAt(env, t, r.frames, r.choices, last).value, false))
            && ReportsWdata(e)
    ensures forall st ::
              var op := WriteSeq(m.sel, DRW, [value]);
              var own := ExecutionError(st, true, LastStep(op), e);
              && !own.indeterminate && ConfirmedWrites(op, Resolved(0, Some(own)), 1) == 0
              && !UncertainWrite([value], 1, Resolved(0, Some(own)))
    ensures forall st :: !ExecutionError(st, true, ApSteps(0, WriteAp(m.sel, DRW, value, true))[1], e).indeterminate
  {
    hide Serve, ReplyAt, PortOf, Overwritten, WriteAt, Carries, WdataErr, ExecutionError, UncertainWrite,
         ConfirmedWrites, LastStep;
    if Overrun(t) {
      r := OverrunTraffic(value);
      OverrunMisread(env, t, m.sel, value);
      e := RefusedBarrier(ReplyAt(env, t, r.frames, r.choices, 4).value, false);
    } else {
      r := SimpleTraffic(value);
      SimpleMisread(env, t, m.sel, value, true);
      e := RefusedRecovery(true, ReplyAt(env, t, r.frames, r.choices, 6).value, false);
    }
    OneWritten(env, m, t.hist, addr, size, value, bytes);
    forall st
      ensures var op := WriteSeq(m.sel, DRW, [value]);
              var own := ExecutionError(st, true, LastStep(op), e);
              && !own.indeterminate && ConfirmedWrites(op, Resolved(0, Some(own)), 1) == 0
              && !UncertainWrite([value], 1, Resolved(0, Some(own)))
    {
      CountsAsLost(st, WriteSeq(m.sel, DRW, [value]), e);
    }
    forall st
      ensures !ExecutionError(st, true, ApSteps(0, WriteAp(m.sel, DRW, value, true))[1], e).indeterminate
    {
      KeepsError(st, ApSteps(0, WriteAp(m.sel, DRW, value, true))[1], e);
    }
  }

  lemma {:induction false} OneWritten(env: Env, m: MemPort, h: seq<ApAccess>, addr: int, size: Size, value: Word,
                                      bytes: seq<Byte>)
    requires WriteAt(env, m, h, addr, size, 1) && Carries(m.big, addr, size, [value], bytes)
    requires !env.faults(h + [ApAccess(PortOf(m.sel, DRW), false, value)])
    ensures Overwritten(env, m, h, h + [ApAccess(PortOf(m.sel, DRW), false, value)], addr, bytes, Bytes(size))
  {
    hide PortOf, Overwritten, WriteAt, Carries;
    var w := ApAccess(PortOf(m.sel, DRW), false, value);
    assert WritesOf(m.sel, DRW, [value], 0) == [] && WritesOf(m.sel, DRW, [value], 1) == [w];
    OneWrite(env, m, h, addr, size, [value], bytes, 1);
  }
}
