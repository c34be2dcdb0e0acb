/** The debug port: immediate register access, WAIT retries, fault recovery and
    re-entry, all of which keep the SELECT cache right. */
module DapPort {
  import opened Options
  import opened Contexts
  import opened Words
  import opened SwdTarget
  import opened SwdLink
  import opened SwdWire
  import opened SwdBatch
  import SwdAnswers
  import opened SwdConn
  import SwdLifecycle
  import opened DapPlan
  import opened DapState

  /** CTRL/STAT as captured after a fault; `cleared` once its flags are gone again. */
  datatype FaultInfo = FaultInfo(valid: bool, ctrl: Word, cleared: bool)

  /** The properties of an error that decide what happens next. `solely` is bad parity
      and nothing else; `rejected` means that the target took none of the request. */
  datatype Err = Err(wait: bool, parity: bool, solely: bool, fault: Option<FaultInfo>,
                     indeterminate: bool, notExecuted: bool, rejected: bool, notSent: bool)

  const PLAIN := Err(false, false, false, None, false, false, false, false)

  function OfFailure(e: Failure): Err {
    match e
    case Wait => PLAIN.(wait := true)
    case Unclean => PLAIN.(wait := true)
    case Parity => PLAIN.(parity := true, solely := true)
    case Fault => PLAIN.(fault := Some(FaultInfo(false, 0, false)))
    case _ => PLAIN
  }

  function Join(a: Err, b: Err): Err {
    Err(a.wait || b.wait, a.parity || b.parity, false, if a.fault.Some? then a.fault else b.fault,
        a.indeterminate || b.indeterminate, a.notExecuted || b.notExecuted, a.rejected || b.rejected,
        a.notSent || b.notSent)
  }

  /** The ABORT value that clears the sticky flags in a CTRL/STAT value. */
  function StickyClear(ctrl: Word, minimal: bool): Word {
    (if StickyErr(ctrl) then CLEAR_STICKYERR else 0) + (if WdataErr(ctrl) then CLEAR_WDATAERR else 0) +
    (if StickyOrun(ctrl) then CLEAR_STICKYORUN else 0) +
    (if !minimal && StickyCmp(ctrl) then CLEAR_STICKYCMP else 0)
  }

  /** A bus fault of the access port and nothing else, since cleared. */
  predicate OrdinaryFaultCleared(e: Err) {
    && e.fault.Some? && e.fault.value.cleared
    && StickyErr(e.fault.value.ctrl) && !WdataErr(e.fault.value.ctrl) && !StickyCmp(e.fault.value.ctrl)
  }

  predicate FaultMayAffectAp(req: Req, apWork: bool, ctrl: Word) {
    apWork && !(req.ap && !req.read) && (req.ap || !WdataErr(ctrl))
  }

  predicate FaultValid(e: Err) {
    e.fault.Some? && e.fault.value.valid
  }

  /** Requests that the architecture does not let the target stall. */
  predicate WaitForbidden(st: PortState, req: Req) {
    IsIdRead(req) || IsAbortWrite(req) || (IsCtrlStatRead(req) && IsBankZero(st.select))
  }

  function MinVersion(reg: DpReg): nat {
    match reg
    case DLCR => 1
    case TARGETID => 2
    case DLPIDR => 2
    case EVENTSTAT => 2
    case _ => 0
  }

  /** A named register's content, whatever bank is selected. */
  function RegisterValue(env: Env, t: Target, reg: DpReg): Word {
    match reg
    case DPIDR => env.dpidr
    case CTRLSTAT => CtrlWord(t.ctrl)
    case DLCR => t.dlcr
    case _ => env.banked(BankFor(reg))
  }

  /** Two target states that differ at most in their sticky flags and posted data. */
  ghost predicate SamePlace(t0: Target, t: Target) {
    t.hist == t0.hist && t.select == t0.select && t.dlcr == t0.dlcr && Overrun(t) == Overrun(t0) &&
    Power(t) == Power(t0)
  }

  lemma {:induction false} OnceSucceeds(env: Env, t0: Target, f: Frame, r: Res, t: Target)
    requires Once(env, t0, f, r, t) && r.e.NoError?
    ensures r.value == Response(env, t0, f)
    ensures Sticky(t0) ==> Exempt(f.req, t0.select)
    ensures t == Apply(env, t0, f) || (!f.req.read && t == Lose(t0))
    ensures !f.req.ap ==> t.hist == t0.hist
  {
  }

  lemma {:induction false} OncePower(env: Env, t0: Target, f: Frame, r: Res, t: Target)
    requires Once(env, t0, f, r, t) && (r.e.Unsent? || r.e.Invalid?)
    ensures Power(t) == Power(t0)
  {
  }

  /** Only an accepted access reaches the ports, and WAIT leaves the target where it was. */
  lemma {:induction false} OnceHist(env: Env, t0: Target, f: Frame, r: Res, t: Target)
    requires Once(env, t0, f, r, t)
    ensures !f.req.ap ==> t.hist == t0.hist
    ensures r.e.Wait? ==> SamePlace(t0, t) && (!Overrun(t0) ==> t == t0)
    ensures t.hist == t0.hist || t.hist == Apply(env, t0, f).hist
    ensures r.e.Unsent? || r.e.Invalid? ==> t.hist == t0.hist
    ensures r.e.NoError? || r.e.Wait? ==> Sticky(t0) ==> Exempt(f.req, t0.select)
  {
  }

  /** An access is the same wherever sticky flags and posted data stand. */
  lemma {:induction false} SameAccess(env: Env, t0: Target, t: Target, f: Frame)
    requires SamePlace(t0, t)
    ensures Apply(env, t, f).hist == Apply(env, t0, f).hist
  {
  }

  lemma {:induction false} SamePower(t0: Target, s: Target, f: Frame, t: Target)
    requires SamePlace(t0, s)
    ensures Power(s) == Power(t0) && (SwdAnswers.Powered(s, f, t) ==> SwdAnswers.Powered(t0, f, t))
  {
    hide PowerOf, BankOf;
  }

  lemma {:induction false} StillPowered(t0: Target, f: Frame, s: Target, t: Target)
    requires Power(t) == Power(s)
    ensures SwdAnswers.Powered(t0, f, s) ==> SwdAnswers.Powered(t0, f, t)
  {
  }

  lemma {:induction false} ObservedStays(st: PortState, settle: bool, req: Req, r: Res)
    ensures var m := Observed(st, settle, req, r);
            && (m.response == st.response || m.response.Lost?) && (m.session == st.session || m.session.RepairRequired?)
            && (WaitForbidden(st, req) && !st.pending ==> !m.pending && WaitForbidden(m, req))
            && (m.pending ==> st.pending && m.select == st.select && m.prior == st.prior)
            && (r.e.Unsent? ==> m == st) && (r.e.NoError? && !st.pending ==> m.select == st.select)
            && (r.e.Wait? || r.e.Unclean? ==>
                  (m.pending ==> !m.response.OverrunResponse?) && (m.select == st.select || m.response.Lost?))
            && (m.writePending != st.writePending ==> st.writePending && SettlesPreviousWrite(req, r.e))
            && ((r.e.NoError? || r.e.Parity?) && NeverExempt(req) ==> !m.pending && m.select == st.select)
  {
  }

  class Port {
    const conn: Conn
    const maxWaits: nat
    var st: PortState
    // The identity that re-entry must find, and that of the last connection made.
    var identity: Option<Word>
    var last: Option<Word>
    // The power requests to give back, and the access ports with a memory handle.
    var owned: Requests
    var memAps: set<Word>
    var sessionId: nat

    constructor (conn: Conn, maxWaits: nat)
      requires SwdLifecycle.Owned(conn)
      ensures this.conn == conn && this.maxWaits == maxWaits && Valid()
      ensures st.session.NoSession? && owned == Requests(false, false) && identity.None?
    {
      this.conn := conn;
      this.maxWaits := maxWaits;
      st := PortState(NoSession, Unchecked, Empty, Empty, false, false, 0);
      identity, last := None, None;
      owned, memAps, sessionId := Requests(false, false), {}, 0;
    }

    /** The connection is in order, and the state `s` agrees with it: the response
        grammar with the link's unless that is idle, and SELECT with the target's while
        the link is ready. */
    ghost predicate SoundWith(s: PortState)
      reads conn, conn.wire
    {
      && SwdLifecycle.Owned(conn)
      && (s.pending ==> s.select.Cached?)
      && (ResponseKnown(s) ==> (conn.link.mode.Fixed? <==> s.response.OverrunResponse? && !conn.link.phase.Idle?))
      && (conn.link.phase.Ready? ==> Agrees(s, conn.wire.t))
    }

    ghost predicate Sound()
      reads this, conn, conn.wire
    {
      SoundWith(st)
    }

    /** Between operations a provisional SELECT is also an unsettled write. */
    ghost predicate Valid()
      reads this, conn, conn.wire
    {
      Sound() && (st.pending ==> st.writePending)
    }

    ghost predicate ExactNow()
      reads this, conn, conn.wire
    {
      conn.link.phase.Ready? ==> Exact(st, conn.wire.t)
    }

    /** Traffic that is no part of a transaction and that the access ports do not see. */
    twostate predicate Unseen()
      reads conn, conn.wire
    {
      conn.wire.log == old(conn.wire.log) && conn.wire.t.hist == old(conn.wire.t.hist)
    }

    /** That, with the power requests as they were, and the session too unless it needs repair. */
    twostate predicate Aside()
      reads this, conn, conn.wire
    {
      Unseen() && Power(conn.wire.t) == Power(old(conn.wire.t)) && Withdrawn()
    }

    twostate predicate Withdrawn()
      reads this
    {
      st.session == old(st.session) || st.session.RepairRequired?
    }

    /** What the request may have done to the power requests. */
    twostate predicate Charged(f: Frame)
      reads conn, conn.wire
    {
      || Power(conn.wire.t) == Power(old(conn.wire.t))
      || (old(conn.link.phase.Ready?) && SwdAnswers.Powered(old(conn.wire.t), f, conn.wire.t))
    }

    twostate predicate Sent(f: Frame, r: Res)
      reads conn, conn.wire
    {
      && Kept(old(conn.link), conn.link) && conn.wire.log == old(conn.wire.log)
      && Once(conn.wire.env, old(conn.wire.t), f, r, conn.wire.t)
      && SwdAnswers.Powered(old(conn.wire.t), f, conn.wire.t)
      && (conn.link.phase.Ready? ==> !r.e.Uncertain? && !r.e.Unclean?)
      && (!old(conn.link.phase.Ready?) ==> r.e.Unsent? || r.e.Invalid?)
    }

    method TransferOnce(ctx: Ctx, f: Frame) returns (r: Res)
      requires SwdLifecycle.Owned(conn)
      modifies conn`link, conn.wire, ctx
      ensures SwdLifecycle.Owned(conn) && Sent(f, r) && ctx.budget <= old(ctx.budget)
    {
      hide Delivered, Coherent, Once, SwdAnswers.Accounted, SwdAnswers.Powered;
      var res, n, k := conn.Commit(ctx, [f], false);
      r := res[0];
      assert res == [r];
      SwdAnswers.OnePower(conn.wire.env, old(conn.wire.t), f, r, conn.wire.t, old(conn.wire.log), conn.wire.log, false);
      OnceDelivered(conn.wire.env, old(conn.wire.t), f, r, n, k, conn.wire.t);
    }

    method CleanupContext() returns (ctx: Ctx)
      ensures fresh(ctx)
    {
      var budget: nat := *;
      ctx := new Ctx(budget);
    }

    predicate Minimal(ctrl: Word)
      reads this
    {
      if identity.Some? then identity.value / 0x1_0000 % 2 == 1
      else if last.Some? then last.value / 0x1_0000 % 2 == 1
      else !StickyCmp(ctrl)
    }

    /** Clears the sticky flags in `ctrl` and checks that they are gone. */
    method ClearFaultState(ctx: Ctx, ctrl: Word, minimal: bool, affected: bool) returns (ok: bool, e: Err)
      requires Sound() && !st.pending
      modifies this`st, conn`link, conn.wire, ctx
      ensures Sound() && Aside() && !st.pending && !e.rejected && !e.notExecuted
    {
      hide StickyClear, CtrlWord, StickyErr, WdataErr, StickyOrun, StickyCmp, OrunDetect, Coherent;
      ghost var t := conn.wire.t;
      var r := TransferOnce(ctx, DpFrame(ABORT, false, StickyClear(ctrl, minimal)));
      if !r.e.NoError? {
        st := LoseFraming(st);
        return false, OfFailure(r.e);
      }
      AbortKeeps(conn.wire.env, st, t, StickyClear(ctrl, minimal), r, conn.wire.t);
      t := conn.wire.t;
      r := TransferOnce(ctx, DpFrame(CTRLSTAT, true, 0));
      if !r.e.NoError? {
        st := LoseFraming(st);
        return false, OfFailure(r.e);
      }
      if StickyClear(r.value, minimal) != 0 {
        st := (if affected then InvalidateAp(st) else st).(session := RepairRequired);
        return false, PLAIN;
      }
      return true, PLAIN;
    }

    /** Reads CTRL/STAT after FAULT, settles a provisional SELECT by it and clears it. */
    method HandleFault(req: Req, apWork: bool, kept: bool) returns (err: Err)
      requires Sound()
      modifies this`st, conn`link, conn.wire
      ensures Sound() && Aside() && !st.pending && err.fault.Some?
      ensures !err.solely && !err.rejected && !err.notExecuted && (err.fault.value.cleared ==> !err.parity)
    {
      hide StickyClear, CtrlWord, StickyErr, WdataErr, StickyOrun, StickyCmp, OrunDetect, Coherent, BankOf;
      err := PLAIN.(fault := Some(FaultInfo(false, 0, false)));
      if !ResponseKnown(st) || !FaultBankZero(st) {
        st := LoseFraming(st);
        return;
      }
      var ctx := CleanupContext();
      ghost var t := conn.wire.t;
      var r := TransferOnce(ctx, DpFrame(CTRLSTAT, true, 0));
      if !r.e.NoError? {
        st := LoseFraming(st);
        err := Join(err, OfFailure(r.e));
        return;
      }
      CtrlStatValue(conn.wire.env, st, t, r, conn.wire.t);
      err := PLAIN.(fault := Some(FaultInfo(true, r.value, false)));
      var affected := FaultMayAffectAp(req, apWork, r.value);
      st := ResolveFromCtrlStat(st.(writePending := false), r.value);
      var minimal := Minimal(r.value);
      if StickyClear(r.value, minimal) != 0 {
        var ok, e := ClearFaultState(ctx, r.value, minimal, affected);
        if !ok {
          err := Join(err, e);
          return;
        }
      }
      err := PLAIN.(fault := Some(FaultInfo(true, r.value, true)));
      if affected && (!kept || !OrdinaryFaultCleared(err)) {
        st := InvalidateAp(st);
      }
    }

    // ----- Recovery after WAIT -----

    /** Enters the protocol again; the cache restarts from the SELECT that Connect left. */
    method Reenter(ctx: Ctx) returns (ok: bool, e: Err)
      requires Sound()
      modifies this`st, conn`link, conn.wire, ctx
      ensures Sound() && Aside() && !st.pending && !e.notExecuted
      ensures ok ==> ResponseKnown(st)
      decreases 0, 10
    {
      hide Coherent, CtrlWord, OrunDetect;
      st := BeginEntry(st);
      var dpidr;
      ok, dpidr := SwdLifecycle.Connect(conn, ctx);
      if !ok || dpidr % 2 == 0 || (identity.Some? && identity.value != dpidr) {
        st := LoseFraming(st);
        return false, PLAIN;
      }
      st := ConfirmSelect(RecordSelect(st, 0)).(writePending := false);
      var value, err := ReadDp(ctx, CTRLSTAT, true, false);
      if err.Some? {
        st := LoseFraming(st);
        return false, err.value;
      }
      e := PLAIN;
    }

    method RestoreAfterAbort(ctx: Ctx) returns (ok: bool, e: Err)
      requires Sound() && ExactNow()
      modifies this`st, conn`link, conn.wire, ctx
      ensures Sound() && Aside() && (ok ==> st.pending ==> st.writePending) && !e.notExecuted
      decreases 0, 11
    {
      hide StickyClear, CtrlWord, StickyErr, WdataErr, StickyOrun, StickyCmp, OrunDetect, Coherent, BankOf;
      if !FaultBankZero(st) {
        ok, e := Reenter(ctx);
        return;
      }
      ghost var t, l := conn.wire.t, conn.link;
      var r := TransferOnce(ctx, DpFrame(CTRLSTAT, true, 0));
      if !r.e.NoError? {
        if conn.link.phase.Ready? {
          CtrlReadKeeps(conn.wire.env, st, t, r, conn.wire.t);
        }
        return false, OfFailure(r.e);
      }
      CoherentMode(l, t);
      CtrlStatValue(conn.wire.env, st, t, r, conn.wire.t);
      st := ConfirmResponse(st, r.value);
      var clear := StickyClear(r.value, Minimal(r.value));
      if clear != 0 {
        t := conn.wire.t;
        r := TransferOnce(ctx, DpFrame(ABORT, false, clear));
        if conn.link.phase.Ready? {
          AbortKeeps(conn.wire.env, st, t, clear, r, conn.wire.t);
        }
        if !r.e.NoError? {
          return false, OfFailure(r.e);
        }
      }
      var err := WriteDp(ctx, SELECT, 0, true);
      ok, e := err.None?, if err.Some? then err.value else PLAIN;
    }

    /** Gives up a request that the target keeps stalling. */
    method AbortWait(cause: Err, recovering: bool) returns (err: Err)
      requires Sound() && ExactNow()
      modifies this`st, conn`link, conn.wire
      ensures Sound() && Aside()
      ensures !recovering ==> st.pending ==> st.writePending
      ensures err.rejected && (err == cause.(rejected := true) || !st.pending) &&
              (err.notExecuted ==> cause.notExecuted)
      ensures err.solely ==> cause.solely
      decreases if recovering then 0 else 1, 0
    {
      hide Coherent, BankOf, Once;
      err := cause.(rejected := true);
      if recovering {
        return;
      }
      st := InvalidateAp(st);
      var ctx := CleanupContext();
      ghost var t := conn.wire.t;
      var r := TransferOnce(ctx, DpFrame(ABORT, false, DAPABORT));
      OnceHist(conn.wire.env, t, DpFrame(ABORT, false, DAPABORT), r, conn.wire.t);
      if !r.e.NoError? {
        st := LoseFraming(st);
        err := Join(err, OfFailure(r.e));
        return;
      }
      AbortOnce(conn.wire.env, st, t, r, conn.wire.t);
      var ok, e := RestoreAfterAbort(ctx);
      if !ok {
        st := LoseFraming(st);
        err := Join(err, e);
      }
    }

    // ----- Retried transfers -----

    /** `f` took effect in a state `s` at the same place as `t0`, or its data was lost. */
    ghost predicate Succeeded(t0: Target, s: Target, f: Frame, value: Word)
      reads conn, conn.wire
    {
      && SamePlace(t0, s) && value == Response(conn.wire.env, s, f)
      && (Sticky(s) ==> Exempt(f.req, s.select))
      && Overrun(s) == conn.link.mode.Fixed?
      && (conn.wire.t == Apply(conn.wire.env, s, f) || (!f.req.read && conn.wire.t == Lose(s)))
    }

    method FinishRetry(req: Req, r: Res, waits: nat, apWork: bool) returns (value: Word, err: Err)
      requires Sound()
      modifies this`st, conn`link, conn.wire
      ensures Sound() && Aside() && (r.e.Parity? ==> st == old(st)) && (!r.e.Parity? ==> !st.pending) &&
              !err.notExecuted
    {
      hide Coherent, BankOf;
      if r.e.Fault? {
        err := HandleFault(req, apWork, false);
        return 0, err;
      }
      if r.e.Parity? {
        return r.value, OfFailure(Parity);
      }
      st := LoseFraming(st);
      return 0, PLAIN.(wait := waits > 0);
    }

    /** Decides whether a request answered WAIT may be sent again. */
    method PrepareRetry(ctx: Ctx, req: Req, e: Failure, waits: nat, recovering: bool, pendingRead: bool)
      returns (err: Option<Err>)
      requires Sound() && (e.Wait? || e.Unclean?)
      requires e.Wait? && !WaitForbidden(st, req) ==> ExactNow()
      requires st.pending ==> !st.response.OverrunResponse?
      modifies this`st, conn`link, conn.wire, ctx
      ensures Sound() && Aside()
      ensures err.None? ==>
                && st == old(st) && conn.link == old(conn.link) && conn.wire.t == old(conn.wire.t)
                && e.Wait? && !WaitForbidden(st, req) && ResponseKnown(st)
                && ctx.budget < old(ctx.budget) && (maxWaits > 0 ==> waits < maxWaits)
                && (pendingRead ==> !st.response.OverrunResponse?)
      ensures err.Some? && (err.value.parity || err.value.fault.Some?) ==> !st.pending
      ensures err.Some? ==> !err.value.notExecuted
      ensures err.Some? && !recovering ==> (st.pending ==> st.writePending) || (st == old(st) && WaitForbidden(st, req))
      ensures ctx.budget <= old(ctx.budget)
      ensures WaitForbidden(old(st), req) && !old(st.pending) ==> !st.pending
      decreases if recovering then 0 else 1, 1, 0
    {
      hide Coherent, BankOf;
      var wait := true;
      if e.Unclean? {
        var canceled := ctx.Err();
        wait := !canceled;
      }
      if WaitForbidden(st, req) || e.Unclean? || !ResponseKnown(st) {
        if e.Unclean? || !WaitForbidden(st, req) {
          st := LoseFraming(st);
        }
        return Some(PLAIN.(wait := wait, indeterminate := pendingRead));
      }
      if pendingRead && st.response.OverrunResponse? {
        st := InvalidateAp(st);
        return Some(PLAIN.(wait := true, indeterminate := true));
      }
      var ended := ctx.Err();
      if ended || (maxWaits != 0 && waits >= maxWaits) {
        var cause := AbortWait(PLAIN.(wait := !ended), recovering);
        return Some(cause);
      }
      return None;
    }

    /** What becomes of a request that was not taken: it may be sent again, or it failed. */
    method AfterFailure(ctx: Ctx, req: Req, r: Res, waits: nat, apWork: bool, recovering: bool, pendingRead: bool)
      returns (value: Word, err: Option<Err>)
      requires Sound() && !r.e.NoError?
      requires r.e.Wait? && !WaitForbidden(st, req) ==> ExactNow()
      requires (r.e.Wait? || r.e.Unclean?) && st.pending ==> !st.response.OverrunResponse?
      modifies this`st, conn`link, conn.wire, ctx
      ensures Sound() && Aside() && ctx.budget <= old(ctx.budget)
      ensures err.None? ==>
                && st == old(st) && conn.link == old(conn.link) && conn.wire.t == old(conn.wire.t)
                && r.e.Wait? && !WaitForbidden(st, req) && ResponseKnown(st)
                && ctx.budget < old(ctx.budget) && (maxWaits > 0 ==> waits + 1 < maxWaits)
                && (pendingRead ==> !st.response.OverrunResponse?)
      ensures err.Some? && (err.value.parity || err.value.fault.Some?) ==> !st.pending || (r.e.Parity? && st == old(st))
      ensures err.Some? ==> !err.value.notExecuted
      ensures err.Some? && !recovering && st.pending && !st.writePending ==>
                st == old(st) && (WaitForbidden(st, req) || r.e.Parity?)
      ensures WaitForbidden(old(st), req) && !old(st.pending) ==> !st.pending
      decreases if recovering then 0 else 1, 1, 1
    {
      hide Coherent, BankOf;
      value := 0;
      if r.e.Wait? || r.e.Unclean? {
        err := PrepareRetry(ctx, req, r.e, waits + 1, recovering, pendingRead);
      } else {
        var e;
        value, e := FinishRetry(req, r, waits, apWork);
        err := Some(e);
      }
    }

    /** The ports have seen `f` at most once, and only if the link was ready for it. */
    twostate predicate Seen(f: Frame)
      reads conn, conn.wire
    {
      || conn.wire.t.hist == old(conn.wire.t.hist)
      || (old(conn.link.phase.Ready?) && conn.wire.t.hist == Apply(conn.wire.env, old(conn.wire.t), f).hist)
    }

    /** One try, and what it says about a provisional SELECT. */
    method Attempt(ctx: Ctx, f: Frame, settlePrevious: bool) returns (r: Res)
      requires Sound() && (st.pending ==> !IsCtrlStatRead(f.req))
      modifies this`st, conn`link, conn.wire, ctx
      ensures SoundWith(if IsSelectWrite(f.req) && r.e.NoError? then RecordSelect(st, f.data) else st)
      ensures Kept(old(conn.link), conn.link) && ctx.budget <= old(ctx.budget)
      ensures conn.wire.log == old(conn.wire.log) && (!f.req.ap ==> conn.wire.t.hist == old(conn.wire.t.hist))
      ensures Charged(f)
      ensures st == Observed(old(st), settlePrevious, f.req, r)
      ensures r.e.NoError? ==> old(conn.link.phase.Ready?) && Succeeded(old(conn.wire.t), old(conn.wire.t), f, r.value)
      ensures r.e.Wait? ==> SamePlace(old(conn.wire.t), conn.wire.t) && (!WaitForbidden(st, f.req) ==> ExactNow())
      ensures r.e.Wait? ==> old(conn.link.phase.Ready?) && (conn.link.mode.Simple? ==> conn.wire.t == old(conn.wire.t))
      ensures Seen(f) && (r.e.NoError? || r.e.Wait? ==> Sticky(old(conn.wire.t)) ==>
                            Exempt(f.req, old(conn.wire.t.select)))
    {
      hide Coherent, Once, BankOf, Apply, Response, Lose, Sticky, Exempt, Observed;
      ghost var s, before, l := conn.wire.t, st, conn.link;
      r := TransferOnce(ctx, f);
      st := Observed(st, settlePrevious, f.req, r);
      ObservedStays(before, settlePrevious, f.req, r);
      if r.e.Unsent? || r.e.Invalid? {
        OncePower(conn.wire.env, s, f, r, conn.wire.t);
      }
      OnceHist(conn.wire.env, s, f, r, conn.wire.t);
      if conn.link.phase.Ready? {
        ObservedAgrees(conn.wire.env, before, settlePrevious, s, f, r, conn.wire.t);
        if r.e.Wait? && !WaitForbidden(st, f.req) {
          WaitExact(conn.wire.env, before, s, f, r, conn.wire.t);
        }
      }
      if r.e.Wait? {
        CoherentMode(l, s);
      }
      if r.e.NoError? {
        CoherentMode(l, s);
        OnceSucceeds(conn.wire.env, s, f, r, conn.wire.t);
      }
    }

    /** One try, and what follows from it: the request is through, it failed, or it was
        answered WAIT and may be sent again. */
    method TryOnce(ctx: Ctx, f: Frame, waits: nat, apWork: bool, settlePrevious: bool, recovering: bool,
                   pendingRead: bool)
      returns (value: Word, err: Option<Err>, again: bool)
      requires Sound() && (st.pending ==> !IsCtrlStatRead(f.req))
      modifies this`st, conn`link, conn.wire, ctx
      ensures SoundWith(if IsSelectWrite(f.req) && err.None? && !again then RecordSelect(st, f.data) else st)
      ensures conn.wire.log == old(conn.wire.log) && (!f.req.ap ==> conn.wire.t.hist == old(conn.wire.t.hist))
      ensures Seen(f) && Charged(f) && Withdrawn() && ctx.budget <= old(ctx.budget)
      ensures err.None? ==>
                && old(conn.link.phase.Ready?) && (Sticky(old(conn.wire.t)) ==> Exempt(f.req, old(conn.wire.t.select)))
                && (st.writePending ==> old(st.writePending))
      ensures err.None? && !again ==>
                && Succeeded(old(conn.wire.t), old(conn.wire.t), f, value)
                && (NeverExempt(f.req) ==> !st.pending && st.select == old(st.select))
                && (!old(st.pending) ==> !st.pending && st.select == old(st.select))
      ensures again ==>
                && err.None? && Kept(old(conn.link), conn.link) && SamePlace(old(conn.wire.t), conn.wire.t)
                && ExactNow()
                && (st.pending ==> old(st.pending)) && st.select == old(st.select) && !WaitForbidden(old(st), f.req)
                && (pendingRead ==> conn.wire.t == old(conn.wire.t))
                && ctx.budget < old(ctx.budget) && (maxWaits > 0 ==> waits + 1 < maxWaits)
      ensures err.Some? && (err.value.parity || err.value.fault.Some?) && NeverExempt(f.req) ==> !st.pending
      ensures err.Some? ==> !err.value.notExecuted
      ensures !again && !recovering &&
              (old(st.pending ==> st.writePending) || (waits > 0 && !WaitForbidden(old(st), f.req))) ==>
                st.pending ==> st.writePending
      ensures !again && WaitForbidden(old(st), f.req) && !old(st.pending) ==> !st.pending
      decreases if recovering then 0 else 1, 1, 2
    {
      hide Coherent, BankOf, Apply, Response, Lose, Sticky, Exempt, Observed, SwdAnswers.Powered, SamePlace, Succeeded;
      ghost var before := st;
      var r := Attempt(ctx, f, settlePrevious);
      ObservedStays(before, settlePrevious, f.req, r);
      value, err, again := r.value, None, false;
      if r.e.NoError? {
        return;
      }
      if waits == 0 && r.e.Unsent? {
        return 0, Some(PLAIN.(notSent := true)), false;
      }
      ghost var sent := conn.wire.t;
      value, err := AfterFailure(ctx, f.req, r, waits, apWork, recovering, pendingRead);
      StillPowered(old(conn.wire.t), f, sent, conn.wire.t);
      again := err.None?;
    }

    /** Sends one request until it is not answered WAIT. On success `s` is the state it
        took effect in: where the port was, give or take the posted data that a WAIT
        cleanup discards. */
    method TransferRetry(ctx: Ctx, f: Frame, apWork: bool, settlePrevious: bool, recovering: bool, pendingRead: bool)
      returns (value: Word, err: Option<Err>, ghost s: Target)
      requires Sound() && (st.pending ==> !IsCtrlStatRead(f.req))
      modifies this`st, conn`link, conn.wire, ctx
      ensures SoundWith(if IsSelectWrite(f.req) && err.None? then RecordSelect(st, f.data) else st)
      ensures conn.wire.log == old(conn.wire.log) && (!f.req.ap ==> conn.wire.t.hist == old(conn.wire.t.hist))
      ensures err.None? ==> Succeeded(old(conn.wire.t), s, f, value) && old(conn.link.phase.Ready?)
      ensures Seen(f) && Charged(f) && Withdrawn()
      ensures err.None? ==> Sticky(old(conn.wire.t)) ==> Exempt(f.req, old(conn.wire.t.select))
      ensures err.None? && pendingRead ==> s == old(conn.wire.t)
      ensures err.None? && NeverExempt(f.req) ==> !st.pending && st.select == old(st.select)
      ensures err.None? && !old(st.pending) ==> !st.pending && st.select == old(st.select)
      ensures err.None? && st.writePending ==> old(st.writePending)
      ensures err.Some? && (err.value.parity || err.value.fault.Some?) && NeverExempt(f.req) ==> !st.pending
      ensures err.Some? ==> !err.value.notExecuted
      ensures !recovering && old(st.pending ==> st.writePending) ==> st.pending ==> st.writePending
      ensures ctx.budget <= old(ctx.budget)
      ensures WaitForbidden(old(st), f.req) && !old(st.pending) ==> !st.pending
      decreases if recovering then 0 else 1, 2
    {
      hide SwdAnswers.Powered, Coherent, BankOf, Apply, Response, Lose, Sticky, Exempt, Observed;
      value, s := 0, conn.wire.t;
      if st.response.Lost? {
        return 0, Some(PLAIN), s;
      }
      var waits := 0;
      while true
        invariant Sound() && (st.pending ==> !IsCtrlStatRead(f.req))
        invariant Kept(old(conn.link), conn.link) && SamePlace(old(conn.wire.t), conn.wire.t)
        invariant conn.wire.log == old(conn.wire.log) && st.select == old(st.select)
        invariant (st.session == old(st.session) || st.session.RepairRequired?) &&
                  (st.writePending ==> old(st.writePending))
        invariant waits == 0 ==> conn.wire.t == old(conn.wire.t)
        invariant waits > 0 ==>
                    old(conn.link.phase.Ready?) && (Sticky(old(conn.wire.t)) ==> Exempt(f.req, old(conn.wire.t.select)))
        invariant pendingRead ==> conn.wire.t == old(conn.wire.t)
        invariant waits == 0 ==> st == old(st)
        invariant waits > 0 ==> ExactNow() && !WaitForbidden(old(st), f.req)
        invariant (maxWaits > 0 ==> waits < maxWaits) && ctx.budget <= old(ctx.budget)
        decreases if maxWaits > 0 then maxWaits - waits else ctx.budget
      {
        var ended := ctx.Err();
        if ended {
          if waits == 0 {
            return 0, Some(PLAIN.(notSent := true)), s;
          }
          var e := AbortWait(PLAIN, recovering);
          return 0, Some(e), s;
        }
        s := conn.wire.t;
        SameAccess(conn.wire.env, old(conn.wire.t), s, f);
        var again;
        value, err, again := TryOnce(ctx, f, waits, apWork, settlePrevious, recovering, pendingRead);
        SamePower(old(conn.wire.t), s, f, conn.wire.t);
        if !again {
          return;
        }
        waits := waits + 1;
      }
    }

    // ----- Immediate register access -----

    /** RDBUFF as the barrier of an earlier DP write. */
    method WriteBarrier(ctx: Ctx, recovering: bool, pendingRead: bool)
      returns (value: Word, err: Option<Err>, ghost s: Target)
      requires Sound()
      modifies this`st, conn`link, conn.wire, ctx
      ensures Sound() && Aside()
      ensures err.None? ==> !st.pending && !st.writePending && st.select == old(st.select)
      ensures err.None? ==> Succeeded(old(conn.wire.t), s, BARRIER, value) && old(conn.link.phase.Ready?)
      ensures err.None? ==> !Sticky(old(conn.wire.t)) && (pendingRead ==> s == old(conn.wire.t))
      ensures err.Some? ==> !err.value.notExecuted
      ensures !recovering && old(st.pending ==> st.writePending) ==> st.pending ==> st.writePending
      ensures ctx.budget <= old(ctx.budget)
      decreases if recovering then 0 else 1, 3
    {
      hide Coherent, BankOf, Apply, Response, Lose, Sticky;
      value, err, s := TransferRetry(ctx, BARRIER, false, false, recovering, pendingRead);
      if err.None? || err.value.parity || FaultValid(err.value) {
        st := st.(writePending := false);
      }
    }

    method SettlePrevious(ctx: Ctx, recovering: bool) returns (err: Option<Err>)
      requires Sound()
      modifies this`st, conn`link, conn.wire, ctx
      ensures Sound() && Aside()
      ensures err.None? ==> !st.writePending && st.select == old(st.select) && (old(st.writePending) ==> !st.pending)
      ensures err.None? ==>
                SamePlace(old(conn.wire.t), conn.wire.t) && (old(st.writePending) ==> conn.wire.t.rdbuff == 0)
      ensures !old(st.writePending) ==> conn.wire.t == old(conn.wire.t) && conn.link == old(conn.link) && st == old(st)
      ensures err.Some? ==> !err.value.notExecuted
      ensures !recovering && old(st.pending ==> st.writePending) ==> st.pending ==> st.writePending
      ensures ctx.budget <= old(ctx.budget)
      ensures err.None? && old(st.writePending) ==> !Sticky(old(conn.wire.t))
      decreases if recovering then 0 else 1, 4
    {
      hide Coherent, BankOf;
      err := None;
      if st.writePending {
        var value;
        ghost var s;
        value, err, s := WriteBarrier(ctx, recovering, false);
        BarrierPlace(conn.wire.env, s);
      }
    }

    /** The selected bank is `bank`, for certain. */
    ghost predicate InBank(bank: Word)
      reads this
    {
      !st.pending && st.select.Cached? && BankOf(st.select.value) == bank
    }

    /** Bank zero is selected, and no write is left to settle. */
    ghost predicate Quiescent()
      reads this
    {
      InBank(0) && !st.writePending
    }

    /** One physical register read, the bank being right. */
    method ReadRegister(ctx: Ctx, reg: DpReg, recovering: bool, pendingRead: bool)
      returns (value: Word, err: Option<Err>)
      requires Sound() && Readable(reg) && (Banked(reg) ==> InBank(BankFor(reg)))
      modifies this`st, conn`link, conn.wire, ctx
      ensures Sound() && Aside()
      ensures err.None? && !reg.RDBUFF? && !reg.RESEND? ==> value == RegisterValue(conn.wire.env, conn.wire.t, reg)
      ensures err.None? && reg.RDBUFF? ==> !st.pending && !st.writePending && st.select == old(st.select)
      ensures err.None? && Banked(reg) ==> !st.pending
      ensures err.None? && reg.RDBUFF? ==>
                !Sticky(old(conn.wire.t)) && (pendingRead ==> value == old(conn.wire.t.rdbuff))
      ensures err.Some? ==> !err.value.notExecuted
      ensures !recovering && old(st.pending ==> st.writePending) ==> st.pending ==> st.writePending
      ensures ctx.budget <= old(ctx.budget)
      ensures err.None? && reg.CTRLSTAT? ==> ResponseKnown(st) && st.select == old(st.select)
      ensures err.None? && st.writePending ==> old(st.writePending)
      ensures reg.CTRLSTAT? && old(InBank(0)) ==> !st.pending
      decreases if recovering then 0 else 1, 5
    {
      hide Coherent, CtrlWord, OrunDetect;
      ghost var s;
      if reg.RDBUFF? && st.writePending {
        value, err, s := WriteBarrier(ctx, recovering, pendingRead);
      } else {
        value, err, s := TransferRetry(ctx, DpFrame(reg, true, 0), reg.RDBUFF?, true, recovering, pendingRead);
      }
      if err.None? {
        RegisterRead(conn.wire.env, s, reg);
        BarrierPlace(conn.wire.env, s);
        if !reg.DPIDR? && !reg.CTRLSTAT? {
          st := st.(writePending := false);
        }
        if reg.CTRLSTAT? && IsBankZero(st.select) {
          CtrlWordFlags(s.ctrl);
          st := ConfirmResponse(st, value);
        }
      }
    }

    method ConfirmPending(ctx: Ctx, recovering: bool) returns (err: Option<Err>)
      requires Sound()
      modifies this`st, conn`link, conn.wire, ctx
      ensures Sound() && Aside()
      ensures !old(st.pending) ==> err.None? && st == old(st)
      ensures err.None? ==> !st.pending && st.select == old(st.select)
      ensures err.None? && old(st.pending) ==> !st.writePending
      ensures err.Some? ==> !err.value.notExecuted
      ensures !recovering && old(st.pending ==> st.writePending) ==> st.pending ==> st.writePending
      ensures ctx.budget <= old(ctx.budget)
      decreases if recovering then 0 else 1, 6
    {
      hide Coherent, BankOf;
      err := None;
      if st.pending {
        var value;
        value, err := ReadRegister(ctx, RDBUFF, recovering, false);
      }
    }

    /** One physical register write; a success may still lose its data. */
    method WriteRegister(ctx: Ctx, reg: DpReg, data: Word, recovering: bool) returns (err: Option<Err>, ghost s: Target)
      requires Sound() && Writable(reg)
      modifies this`st, conn`link, conn.wire, ctx
      ensures Sound() && Unseen() && Withdrawn() && Charged(DpFrame(reg, false, data))
      ensures err.None? ==>
                && Succeeded(old(conn.wire.t), s, DpFrame(reg, false, data), 0) && old(conn.link.phase.Ready?)
                && st.writePending && (reg.SELECT? ==> st.pending && st.select == Cached(data))
      ensures err.Some? ==> !err.value.notExecuted
      ensures !recovering && old(st.pending ==> st.writePending) ==> st.pending ==> st.writePending
      ensures ctx.budget <= old(ctx.budget)
      decreases if recovering then 0 else 1, 3
    {
      hide Coherent, BankOf, Apply, Lose, Sticky, Exempt;
      var value;
      value, err, s := TransferRetry(ctx, DpFrame(reg, false, data), false, true, recovering, false);
      if err.None? {
        st := st.(writePending := true);
        if reg.SELECT? {
          st := RecordSelect(st, data);
        }
        if reg.ABORT? && AbortsDap(data) {
          st := InvalidateAp(st);
        }
      }
    }

    /** Makes `bank` the selected one for certain, keeping the AP selection if known. */
    method SelectBank(ctx: Ctx, bank: Word, recovering: bool) returns (err: Option<Err>)
      requires Sound() && bank < 16
      modifies this`st, conn`link, conn.wire, ctx
      ensures Sound() && Aside()
      ensures old(InBank(bank)) ==> err.None? && st == old(st)
      ensures err.None? ==> InBank(bank) && (st.writePending ==> old(st.writePending))
      ensures err.Some? ==> !err.value.notExecuted
      ensures !recovering && old(st.pending ==> st.writePending) ==> st.pending ==> st.writePending
      ensures ctx.budget <= old(ctx.budget)
      decreases if recovering then 0 else 1, 7
    {
      hide Coherent;
      if !(st.select.Cached? && BankOf(st.select.value) == bank) {
        ghost var s;
        err, s := WriteRegister(ctx, SELECT, BankValue(st.select, bank), recovering);
        if err.Some? {
          return;
        }
      }
      err := ConfirmPending(ctx, recovering);
    }

    /** The register exists on this debug port. */
    predicate Supported(reg: DpReg)
      reads this
    {
      BankFor(reg) == 0 ||
      (!st.session.NoSession? && identity.Some? && MinVersion(reg) <= identity.value / 0x1000 % 16 <= 3)
    }

    /** Reads one logical register. A success returns that register's own content,
        whatever was selected before. */
    method ReadDp(ctx: Ctx, reg: DpReg, recovering: bool, pendingRead: bool) returns (value: Word, err: Option<Err>)
      requires Sound()
      modifies this`st, conn`link, conn.wire, ctx
      ensures Sound() && Aside()
      ensures err.None? && !reg.RDBUFF? && !reg.RESEND? ==> value == RegisterValue(conn.wire.env, conn.wire.t, reg)
      ensures err.None? && Banked(reg) ==> !st.pending
      ensures err.None? && reg.RDBUFF? ==>
                !Sticky(old(conn.wire.t)) && (pendingRead ==> value == old(conn.wire.t.rdbuff))
      ensures err.Some? && old(InBank(BankFor(reg)) && !st.writePending) ==> !err.value.notExecuted
      ensures !recovering && old(st.pending ==> st.writePending) ==> st.pending ==> st.writePending
      ensures ctx.budget <= old(ctx.budget)
      ensures err.None? && reg.CTRLSTAT? ==> ResponseKnown(st) && (old(st.writePending) ==> !Sticky(old(conn.wire.t)))
      ensures err.None? && reg.CTRLSTAT? ==> Quiescent()
      ensures reg.CTRLSTAT? && old(Quiescent()) ==> !st.pending
      decreases if recovering then 0 else 1, 8
    {
      hide Coherent, BankOf, CtrlWord;
      if !Readable(reg) || !Supported(reg) {
        return 0, Some(PLAIN);
      }
      value := 0;
      if reg.CTRLSTAT? || reg.DPIDR? {
        err := SettlePrevious(ctx, recovering);
        if err.Some? {
          return;
        }
      }
      if Banked(reg) {
        err := ConfirmPending(ctx, recovering);
        if err.Some? {
          return;
        }
        err := SelectBank(ctx, BankFor(reg), recovering);
        if err.Some? {
          err := Some(err.value.(notSent := true, notExecuted := true));
          return;
        }
      }
      value, err := ReadRegister(ctx, reg, recovering, pendingRead);
    }

    /** CTRL/STAT writes keep the response grammar and use no transaction modes; DLCR
        writes keep the turnaround. */
    predicate WriteValid(reg: DpReg, data: Word)
      reads this
    {
      && Writable(reg) && Supported(reg)
      && (reg.CTRLSTAT? ==>
            data / 4 % 4 == 0 && data / 0x1000 % 0x1000 == 0 && ResponseKnown(st) &&
            OrunDetect(data) == st.response.OverrunResponse?)
      && (reg.DLCR? ==> KeepsTurnaround(data))
    }

    /** Writes one logical register. A success reached that register, or raised WDATAERR. */
    method WriteDp(ctx: Ctx, reg: DpReg, data: Word, recovering: bool) returns (err: Option<Err>)
      requires Sound()
      modifies this`st, conn`link, conn.wire, ctx
      ensures Sound() && Unseen() && Withdrawn()
      ensures Power(conn.wire.t) == Power(old(conn.wire.t)) || (reg.CTRLSTAT? && Power(conn.wire.t) == PowerOf(data))
      ensures err.None? ==> st.pending ==> st.writePending
      ensures err.None? ==> conn.wire.t.ctrl.wdata || Written(conn.wire.t, reg, data)
      ensures err.None? && reg.SELECT? ==> st.select == Cached(data)
      ensures err.Some? && !Banked(reg) ==> !err.value.notExecuted
      ensures !recovering && old(st.pending ==> st.writePending) ==> st.pending ==> st.writePending
      ensures ctx.budget <= old(ctx.budget) && (err.None? ==> st.writePending)
      decreases if recovering then 0 else 1, 8
    {
      hide Coherent, OrunDetect, PowerOf, BankOf, Apply, Lose, Response, Sticky, Exempt, Written;
      if !WriteValid(reg, data) {
        return Some(PLAIN);
      }
      if Banked(reg) {
        err := ConfirmPending(ctx, recovering);
        if err.None? {
          err := SelectBank(ctx, BankFor(reg), recovering);
        }
        if err.Some? {
          err := Some(err.value.(notSent := true, notExecuted := true));
          return;
        }
      }
      ghost var s;
      err, s := WriteRegister(ctx, reg, data, recovering);
      if err.None? {
        WriteEffect(conn.wire.env, s, reg, data, conn.wire.t);
      }
    }
  }

  /** What a named register holds once `data` has been written to it. */
  ghost predicate Written(t: Target, reg: DpReg, data: Word) {
    && (reg.CTRLSTAT? ==> t.ctrl == SetPower(t.ctrl, data))
    && (reg.DLCR? ==> t.dlcr == data)
    && (reg.SELECT? ==> t.select == data)
  }

  lemma {:induction false} WriteEffect(env: Env, s: Target, reg: DpReg, data: Word, t: Target)
    requires Writable(reg) && (t == Apply(env, s, DpFrame(reg, false, data)) || t == Lose(s))
    ensures (Banked(reg) ==> Bank(s) == BankFor(reg)) ==> t.ctrl.wdata || Written(t, reg, data)
    ensures !reg.CTRLSTAT? && (Banked(reg) ==> Bank(s) == BankFor(reg)) ==> Power(t) == Power(s)
  {
    hide OrunDetect, PowerOf, BankOf;
  }

  lemma {:induction false} BarrierPlace(env: Env, s: Target)
    ensures var t := Apply(env, s, BARRIER); SamePlace(s, t) && t.rdbuff == 0
  {
  }

  lemma {:induction false} RegisterRead(env: Env, s: Target, reg: DpReg)
    requires Readable(reg)
    ensures !reg.RDBUFF? && !reg.RESEND? && (Banked(reg) ==> Bank(s) == BankFor(reg)) ==>
              Response(env, s, DpFrame(reg, true, 0)) == RegisterValue(env, s, reg)
    ensures reg.RDBUFF? ==> Response(env, s, DpFrame(reg, true, 0)) == s.rdbuff
    ensures !reg.RDBUFF? ==> Apply(env, s, DpFrame(reg, true, 0)) == s
  {
    hide CtrlWord;
  }
}
