/** Connect and Release: entering SWD, owning ORUNDETECT and giving it back. */
module SwdLifecycle {
  import opened Options
  import opened Contexts
  import opened Words
  import opened SwdTarget
  import opened SwdLink
  import opened SwdWire
  import opened SwdBatch
  import opened SwdConn

  const WAIT_LIMIT := 100

  const ID_READ := Frame(Req(false, true, 0x00), 0)
  const CTRLSTAT_READ := Frame(Req(false, true, 0x04), 0)
  const BARRIER := Frame(RDBUFF_READ, 0)
  const SELECT_ZERO := Frame(Req(false, false, 0x08), 0)

  function AbortFrame(data: Word): Frame {
    Frame(Req(false, false, 0x00), data)
  }

  function ControlFrame(data: Word): Frame {
    Frame(Req(false, false, 0x04), data)
  }

  function SetOrun(w: Word, on: bool): (r: Word)
    ensures OrunDetect(r) == on && PowerOf(r) == PowerOf(w)
  {
    TopBytes(w, w - w % 2 + BitOf(on));
    w - w % 2 + BitOf(on)
  }

  /** What a raw debug-port transfer may do to the target, even if it failed: it
      shows nothing to the access ports, changes SELECT only to the value it writes,
      and changes ORUNDETECT and the power requests only by a bank-zero CTRL/STAT write. */
  ghost predicate RawEffect(t0: Target, f: Frame, t: Target) {
    && t.hist == t0.hist
    && (t.select == t0.select || (IsSelectWrite(f.req) && t.select == f.data))
    && (Overrun(t) == Overrun(t0) || (IsBankedWrite(f.req) && Bank(t0) == 0 && Overrun(t) == OrunDetect(f.data)))
    && (Power(t) == Power(t0) || (IsBankedWrite(f.req) && Bank(t0) == 0 && Power(t) == PowerOf(f.data)))
  }

  lemma {:induction false} StepEffect(env: Env, t: Target, f: Frame, c: Choice)
    requires !f.req.ap
    ensures RawEffect(t, f, Step(env, t, f, c))
  {
  }

  /** One transfer outside the ready state: no validation and no observation. */
  method Raw(c: Conn, ctx: Ctx, f: Frame) returns (r: Res)
    requires !f.req.ap
    modifies c`link, c.wire, ctx
    ensures RawEffect(old(c.wire.t), f, c.wire.t) && c.wire.log == old(c.wire.log)
    ensures c.link == old(c.link) || c.link == RequireRepair(old(c.link))
    ensures r.e.NoError? ==>
              && (Sticky(old(c.wire.t)) ==> !NeverExempt(f.req))
              && r.value == Response(c.wire.env, old(c.wire.t), f)
              && (c.wire.t == Apply(c.wire.env, old(c.wire.t), f) || (!f.req.read && c.wire.t == Lose(old(c.wire.t))))
              && c.link == old(c.link)
    ensures Complete(r.e) && !old(c.link).pending ==> c.link == old(c.link)
    ensures ctx.budget <= old(ctx.budget)
  {
    hide Step, Response, Apply, Lose, BankOf, PowerOf, OrunDetect;
    var ended := ctx.Err();
    if ended {
      return Res(0, Unsent);
    }
    ghost var t0 := c.wire.t;
    var r0, ch, sent := c.TransferFrame(f, false);
    r := r0;
    if sent {
      StepEffect(c.wire.env, t0, f, ch);
    }
    if r.e.NoError? {
      AcceptedEffect(c.wire.env, t0, f, ch);
    }
    if c.link.mode.Fixed? && r.e.Wait? {
      if IsAbortWrite(f.req) {
        c.link := RequireRepair(c.link);
        r := Res(0, Unclean);
      } else {
        var ok := c.ClearOverrun();
        if !ok {
          r := Res(0, Unclean);
        } else if c.link.pending {
          c.link := RequireRepair(c.link);
        }
      }
    }
  }

  lemma {:induction false} AcceptedEffect(env: Env, t: Target, f: Frame, c: Choice)
    requires ReplyTo(env, t, f, c).Done?
    ensures Sticky(t) ==> !NeverExempt(f.req)
    ensures ReplyTo(env, t, f, c).value == Response(env, t, f)
    ensures Step(env, t, f, c) == Apply(env, t, f) || (!f.req.read && Step(env, t, f, c) == Lose(t))
  {
  }

  /** The parts of the link that raw traffic and repair leave alone. */
  ghost predicate SameOwner(l0: Link, l: Link) {
    l.identity == l0.identity && l.original == l0.original && (l.phase.Idle? <==> l0.phase.Idle?)
  }

  /** Raw debug-port traffic that selected nothing and left CTRL/STAT's settings alone. */
  ghost predicate Quiet(t0: Target, t: Target) {
    t.hist == t0.hist && t.select == t0.select && Overrun(t) == Overrun(t0) && Power(t) == Power(t0)
  }

  /** Reads bank-zero CTRL/STAT; any error requires repair. */
  method ReadState(c: Conn, ctx: Ctx) returns (ok: bool, state: Word)
    requires Bank(c.wire.t) == 0
    modifies c`link, c.wire, ctx
    ensures Quiet(old(c.wire.t), c.wire.t) && c.wire.log == old(c.wire.log)
    ensures ok ==> OrunDetect(state) == Overrun(c.wire.t) && PowerOf(state) == Power(c.wire.t) && c.link == old(c.link)
    ensures !ok ==> c.link == RequireRepair(old(c.link))
    ensures ctx.budget <= old(ctx.budget)
  {
    hide BankOf, PowerOf, OrunDetect, CtrlWord;
    ghost var t0 := c.wire.t;
    var r := Raw(c, ctx, CTRLSTAT_READ);
    ok, state := r.e.NoError?, r.value;
    if ok {
      CtrlWordFlags(t0.ctrl);
      CtrlWordPower(t0.ctrl);
    } else {
      c.link := RequireRepair(c.link);
    }
  }

  /** Writes ABORT; any error requires repair. */
  method WriteAbort(c: Conn, ctx: Ctx, data: Word) returns (e: Failure)
    modifies c`link, c.wire, ctx
    ensures Quiet(old(c.wire.t), c.wire.t) && c.wire.log == old(c.wire.log)
    ensures e.NoError? ==> c.link == old(c.link)
    ensures !e.NoError? ==> c.link == RequireRepair(old(c.link))
    ensures ctx.budget <= old(ctx.budget)
  {
    hide BankOf, PowerOf, OrunDetect;
    var r := Raw(c, ctx, AbortFrame(data));
    e := r.e;
    if !e.NoError? {
      c.link := RequireRepair(c.link);
    }
  }

  /** Selects bank zero and settles the write: an accepted RDBUFF read means that
      its data arrived. */
  method SelectZero(c: Conn, ctx: Ctx) returns (e: Failure)
    modifies c`link, c.wire, ctx
    ensures c.wire.t.hist == old(c.wire.t.hist) && Overrun(c.wire.t) == Overrun(old(c.wire.t))
    ensures c.wire.log == old(c.wire.log) && Power(c.wire.t) == Power(old(c.wire.t))
    ensures e.NoError? ==> c.link == old(c.link) && c.wire.t.select == 0
    ensures !e.NoError? ==> c.link == RequireRepair(old(c.link))
    ensures ctx.budget <= old(ctx.budget)
  {
    var r := Raw(c, ctx, SELECT_ZERO);
    if r.e.NoError? {
      ghost var t := c.wire.t;
      r := Raw(c, ctx, BARRIER);
      assert r.e.NoError? ==> !Sticky(t) && t.select == 0;
    }
    e := r.e;
    if !e.NoError? {
      c.link := RequireRepair(c.link);
    }
  }

  // CTRL/STAT values with one sticky flag taken out, ORUNDETECT untouched.
  function DropOrun(w: Word): (r: Word)
    ensures OrunDetect(r) == OrunDetect(w) && PowerOf(r) == PowerOf(w)
  {
    if StickyOrun(w) then OrunInByte(w); TopBytes(w, w - 0x02); w - 0x02 else w
  }

  function DropCmp(w: Word): (r: Word)
    ensures OrunDetect(r) == OrunDetect(w) && PowerOf(r) == PowerOf(w)
  {
    if StickyCmp(w) then CmpInByte(w); TopBytes(w, w - 0x10); w - 0x10 else w
  }

  function DropErr(w: Word): (r: Word)
    ensures OrunDetect(r) == OrunDetect(w) && PowerOf(r) == PowerOf(w)
  {
    if StickyErr(w) then TopBytes(w, w - 0x20); w - 0x20 else w
  }

  function DropWdata(w: Word): (r: Word)
    ensures OrunDetect(r) == OrunDetect(w) && PowerOf(r) == PowerOf(w)
  {
    if WdataErr(w) then TopBytes(w, w - 0x80); w - 0x80 else w
  }

  predicate MinimalDp(l: Link) {
    l.identity.Some? && l.identity.value / 0x1_0000 % 2 == 1
  }

  /** What every step of an ORUNDETECT change guarantees: the selection stays,
      the ports see nothing, ownership is kept, and a failure requires repair. */
  twostate predicate Steady(c: Conn, ok: bool)
    reads c, c.wire
  {
    && c.wire.t.hist == old(c.wire.t.hist) && c.wire.log == old(c.wire.log)
    && c.wire.t.select == old(c.wire.t.select)
    && SameOwner(old(c.link), c.link) && !c.link.pending
    && (ok ==> c.link.phase == old(c.link.phase) && c.link.bank == old(c.link.bank))
    && (!ok ==> !c.link.phase.Ready?)
  }

  twostate predicate Held(c: Conn, ok: bool)
    reads c, c.wire
  {
    Steady(c, ok) && Power(c.wire.t) == Power(old(c.wire.t))
  }

  /** Clears the sticky flags seen in `state`, so that they do not block the write. */
  method PrepareWrite(c: Conn, ctx: Ctx, state: Word) returns (ok: bool, cleared: Word)
    requires Bank(c.wire.t) == 0 && !c.link.pending
    modifies c`link, c.wire, ctx
    ensures Held(c, ok) && ctx.budget <= old(ctx.budget)
    ensures Overrun(c.wire.t) == Overrun(old(c.wire.t))
    ensures ok ==>
              c.link == old(c.link) && OrunDetect(cleared) == OrunDetect(state) && PowerOf(cleared) == PowerOf(state)
  {
    hide OrunDetect, PowerOf, StickyOrun, StickyErr, WdataErr, StickyCmp, BankOf;
    var compare := StickyCmp(state) && !MinimalDp(c.link);
    var clear := (if StickyOrun(state) then CLEAR_STICKYORUN else 0) +
        (if StickyErr(state) then CLEAR_STICKYERR else 0) +
                 (if WdataErr(state) then CLEAR_WDATAERR else 0) + (if compare then CLEAR_STICKYCMP else 0);
    if clear == 0 {
      return true, state;
    }
    var e := WriteAbort(c, ctx, clear);
    ok := e.NoError?;
    cleared := DropWdata(DropErr(DropOrun(if compare then DropCmp(state) else state)));
  }

  method Verify(c: Conn, ctx: Ctx, enabled: bool, fallback: bool) returns (ok: bool)
    requires Bank(c.wire.t) == 0 && !c.link.pending && (fallback ==> enabled)
    modifies c`link, c.wire, ctx
    ensures Held(c, ok) && ctx.budget <= old(ctx.budget)
    ensures Overrun(c.wire.t) == Overrun(old(c.wire.t))
    ensures ok ==> c.link.mode.Fixed? == Overrun(c.wire.t) && (fallback || Overrun(c.wire.t) == enabled)
  {
    hide OrunDetect, PowerOf, BankOf;
    c.link := c.link.(mode := if enabled then Fixed else Simple);
    var state;
    ok, state := ReadState(c, ctx);
    if ok && OrunDetect(state) != enabled {
      c.link := c.link.(mode := Simple);
      if !fallback {
        c.link := RequireRepair(c.link);
        ok := false;
      }
    }
  }

  /** A WAIT to the barrier abandoned the write; returns the state to retry from. */
  method RecoverAbandoned(c: Conn, ctx: Ctx) returns (ok: bool, state: Word)
    requires Bank(c.wire.t) == 0 && !c.link.pending
    modifies c`link, c.wire, ctx
    ensures Held(c, ok) && ctx.budget <= old(ctx.budget)
    ensures Overrun(c.wire.t) == Overrun(old(c.wire.t))
    ensures ok ==> PowerOf(state) == Power(c.wire.t)
  {
    hide OrunDetect, PowerOf, BankOf, WdataErr;
    ok, state := ReadState(c, ctx);
    if ok && WdataErr(state) {
      var e := WriteAbort(c, ctx, CLEAR_WDATAERR);
      ok, state := e.NoError?, DropWdata(state);
    }
  }

  /** FAULT to the barrier: what CTRL/STAT holds decides whether the write took effect. */
  method ResolveFault(c: Conn, ctx: Ctx, enabled: bool, fallback: bool) returns (ok: bool, retry: bool, state: Word)
    requires Bank(c.wire.t) == 0 && !c.link.pending
    modifies c`link, c.wire, ctx
    ensures Held(c, ok) && ctx.budget <= old(ctx.budget)
    ensures ok && !retry ==> c.link.mode.Fixed? == Overrun(c.wire.t) && (fallback || Overrun(c.wire.t) == enabled)
    ensures ok && retry ==> PowerOf(state) == Power(c.wire.t)
  {
    hide OrunDetect, PowerOf, BankOf, WdataErr, StickyOrun;
    retry := false;
    ok, state := ReadState(c, ctx);
    if !ok {
      return;
    }
    c.link := c.link.(mode := if OrunDetect(state) then Fixed else Simple);
    var clear := (if WdataErr(state) then CLEAR_WDATAERR else 0) + (if StickyOrun(state) then CLEAR_STICKYORUN else 0);
    if clear != 0 {
      var e := WriteAbort(c, ctx, clear);
      if !e.NoError? {
        return false, false, 0;
      }
    }
    retry := OrunDetect(state) != enabled && !fallback;
    state := DropOrun(DropWdata(state));
  }

  /** Polls RDBUFF until the CTRL/STAT write is settled one way or the other. */
  method Settle(c: Conn, ctx: Ctx, enabled: bool, fallback: bool) returns (ok: bool, retry: bool, state: Word)
    requires Bank(c.wire.t) == 0 && !c.link.pending && (fallback ==> enabled)
    modifies c`link, c.wire, ctx
    ensures Held(c, ok) && ctx.budget <= old(ctx.budget)
    ensures ok && !retry ==> c.link.mode.Fixed? == Overrun(c.wire.t) && (fallback || Overrun(c.wire.t) == enabled)
    ensures ok && retry ==> PowerOf(state) == Power(c.wire.t)
  {
    hide OrunDetect, PowerOf, BankOf;
    ok, retry, state := false, false, 0;
    var attempts := 0;
    while attempts <= WAIT_LIMIT
      invariant Held(c, true) && ctx.budget <= old(ctx.budget)
      decreases WAIT_LIMIT - attempts
    {
      var r := Raw(c, ctx, BARRIER);
      if r.e.Wait? && c.link.mode.Simple? {
        attempts := attempts + 1;
        continue;
      }
      match r.e {
        case NoError => ok := Verify(c, ctx, enabled, fallback);
        case Parity => ok := Verify(c, ctx, enabled, fallback);
        case Wait =>
          ok, state := RecoverAbandoned(c, ctx);
          retry := true;
        case Fault => ok, retry, state := ResolveFault(c, ctx, enabled, fallback);
        case _ => c.link := RequireRepair(c.link);
      }
      return;
    }
    c.link := RequireRepair(c.link);
  }

  /** Sets ORUNDETECT. Without fallback, success means that the target has it so. */
  method ChangeOverrun(c: Conn, ctx: Ctx, seen: Word, enabled: bool, fallback: bool) returns (ok: bool)
    requires Bank(c.wire.t) == 0 && !c.link.pending && (fallback ==> enabled)
    modifies c`link, c.wire, ctx
    ensures Steady(c, ok) && ctx.budget <= old(ctx.budget)
    ensures ok ==> c.link.mode.Fixed? == Overrun(c.wire.t) && (fallback || Overrun(c.wire.t) == enabled)
    ensures PowerOf(seen) == Power(old(c.wire.t)) ==> Power(c.wire.t) == Power(old(c.wire.t))
  {
    hide OrunDetect, PowerOf, BankOf;
    var state, attempts := seen, 0;
    while attempts <= WAIT_LIMIT
      invariant Steady(c, true) && ctx.budget <= old(ctx.budget)
      invariant PowerOf(seen) == Power(old(c.wire.t)) ==> PowerOf(state) == Power(c.wire.t) == Power(old(c.wire.t))
      decreases WAIT_LIMIT - attempts
    {
      ok, state := PrepareWrite(c, ctx, state);
      if !ok {
        return;
      }
      var r := Raw(c, ctx, ControlFrame(SetOrun(state, enabled)));
      if !r.e.NoError? {
        c.link := RequireRepair(c.link);
        return false;
      }
      var retry;
      ok, retry, state := Settle(c, ctx, enabled, fallback);
      if !ok || !retry {
        return;
      }
      attempts := attempts + 1;
    }
    c.link := RequireRepair(c.link);
    ok := false;
  }

  /** What protocol entry guarantees. The ports see nothing, ORUNDETECT and its owner
      stay as they are, and failure leaves the connection unusable; it is given up as
      idle only if no identity was ever accepted. */
  twostate predicate Entering(c: Conn, ok: bool)
    reads c, c.wire
  {
    && c.wire.t.hist == old(c.wire.t.hist) && c.wire.log == old(c.wire.log)
    && Overrun(c.wire.t) == Overrun(old(c.wire.t)) && Power(c.wire.t) == Power(old(c.wire.t))
    && c.link.original == old(c.link.original) && !c.link.pending
    && (old(c.link.identity.Some?) ==> c.link.identity == old(c.link.identity))
    && (c.link.phase.Idle? ==> c.link.identity.None? || old(c.link.phase.Idle?))
    && (ok ==>
          c.link.identity.Some? && c.wire.t.select == 0 && (c.link.phase == old(c.link.phase) || c.link.phase.Repair?))
    && (!ok ==> !c.link.phase.Ready?)
  }

  predicate ReportsWait(e: Failure) {
    e.Wait? || e.Unclean?
  }

  method BootstrapAttempt(c: Conn, ctx: Ctx, abort: bool) returns (e: Failure, dpidr: Word)
    requires !c.link.pending
    modifies c`link, c.wire, ctx
    ensures Entering(c, e.NoError?) && ctx.budget <= old(ctx.budget)
    ensures e.NoError? ==> c.link.bank == Known(0) && c.link.mode == old(c.link.mode) && c.link.identity == Some(dpidr)
    ensures e.NoError? ==> dpidr == c.wire.env.dpidr
    ensures ReportsWait(e) ==> (c.link.phase.Idle? <==> old(c.link.phase.Idle?))
  {
    hide BankOf, PowerOf, OrunDetect;
    var r := Raw(c, ctx, ID_READ);
    e, dpidr := r.e, r.value;
    if !e.NoError? {
      c.link := RequireRepair(c.link);
      return;
    }
    if dpidr % 2 == 0 {
      if c.link.identity.Some? {
        c.link := RequireRepair(c.link);
      } else {
        c.link := InvalidateBank(c.link.(phase := Idle, mode := Simple));
      }
      return Invalid, 0;
    }
    if c.link.identity.Some? && c.link.identity.value != dpidr {
      c.link := RequireRepair(c.link);
      return Invalid, 0;
    }
    c.link := c.link.(identity := Some(dpidr));
    var clear := CLEAR_STICKYERR + CLEAR_WDATAERR + CLEAR_STICKYORUN + (if abort then DAPABORT else 0) +
                 (if MinimalDp(c.link) then 0 else CLEAR_STICKYCMP);
    e := WriteAbort(c, ctx, clear);
    if !e.NoError? {
      return;
    }
    e := SelectZero(c, ctx);
    if e.NoError? {
      c.link := c.link.(bank := Known(0));
    }
  }

  /** Identity, sticky state and bank zero; a WAIT gets one fresh entry with DAPABORT. */
  method Bootstrap(c: Conn, ctx: Ctx) returns (ok: bool, dpidr: Word)
    requires !c.link.pending && c.link.mode.Simple?
    modifies c`link, c.wire, ctx
    ensures Entering(c, ok) && ctx.budget <= old(ctx.budget)
    ensures ok ==> c.link.bank == Known(0) && c.link.mode.Simple? && c.link.identity == Some(dpidr)
    ensures ok ==> dpidr == c.wire.env.dpidr
  {
    hide BankOf, PowerOf, OrunDetect;
    var e;
    e, dpidr := BootstrapAttempt(c, ctx, false);
    ok := e.NoError?;
    if ReportsWait(e) {
      c.link := InvalidateBank(c.link.(mode := Simple));
      var entered := c.wire.EnterSwd();
      if entered {
        e, dpidr := BootstrapAttempt(c, ctx, true);
        ok := e.NoError?;
      }
    }
  }

  /** Between calls: a ready connection agrees with its target, and a captured
      ORUNDETECT setting is held by exactly the connections that are not idle. */
  ghost predicate Owned(c: Conn)
    reads c, c.wire
  {
    && c.Valid()
    && (c.link.original.None? <==> c.link.phase.Idle?) && (c.link.phase.Idle? ==> c.link.mode.Simple?)
    && (c.link.original.Some? ==> c.link.identity.Some?)
  }

  /** What every call keeps of the target's ORUNDETECT setting. The first value seen
      is captured and never overwritten, and cleanup stops being pending only with
      that value restored. Nothing is changed before it is captured, and the power
      requests never are. */
  twostate predicate Restoring(c: Conn)
    reads c, c.wire
  {
    && c.wire.t.hist == old(c.wire.t.hist) && c.wire.log == old(c.wire.log) && Power(c.wire.t) == Power(old(c.wire.t))
    && var inherited := if old(c.link.original.Some?) then old(c.link.original.value) else Overrun(old(c.wire.t));
       if c.link.original.Some? then c.link.original.value == inherited
       else Overrun(c.wire.t) == inherited
  }

  /** Makes bank zero the selected one, re-entering the protocol if need be. */
  method PrepareRelease(c: Conn, ctx: Ctx) returns (ok: bool)
    requires Owned(c) && !c.link.phase.Idle? && c.link.original.Some?
    modifies c`link, c.wire, ctx
    ensures c.wire.t.hist == old(c.wire.t.hist) && c.wire.log == old(c.wire.log)
    ensures Overrun(c.wire.t) == Overrun(old(c.wire.t)) && c.link.original == old(c.link.original)
    ensures c.link.identity.Some? && !c.link.phase.Idle? && Power(c.wire.t) == Power(old(c.wire.t))
    ensures ok ==> Bank(c.wire.t) == 0 && !c.link.pending && c.link.mode.Fixed? == Overrun(c.wire.t)
    ensures !ok ==> !c.link.phase.Ready?
    ensures ctx.budget <= old(ctx.budget)
  {
    hide OrunDetect, PowerOf;
    ok := true;
    if !c.link.phase.Ready? || !c.link.bank.Known? || c.link.pending {
      c.link := InvalidateBank(c.link.(mode := Simple));
      ok := c.wire.EnterSwd();
      if !ok {
        c.link := RequireRepair(c.link);
        return;
      }
      var dpidr, state;
      ok, dpidr := Bootstrap(c, ctx);
      if !ok {
        return;
      }
      ok, state := ReadState(c, ctx);
      if !ok {
        return;
      }
      if OrunDetect(state) {
        c.link := c.link.(mode := Fixed);
      }
    }
    if c.link.bank.bank != 0 {
      var e := SelectZero(c, ctx);
      ok := e.NoError?;
      if ok {
        c.link := c.link.(bank := Known(0));
      }
    }
  }

  method RestoreOverrun(c: Conn, ctx: Ctx) returns (ok: bool)
    requires Bank(c.wire.t) == 0 && !c.link.pending && c.link.original.Some?
    modifies c`link, c.wire, ctx
    ensures Held(c, ok) && ctx.budget <= old(ctx.budget)
    ensures ok ==> Overrun(c.wire.t) == old(c.link.original.value)
  {
    hide BankOf, PowerOf, OrunDetect;
    var state;
    ok, state := ReadState(c, ctx);
    if ok && OrunDetect(state) != c.link.original.value {
      ok := ChangeOverrun(c, ctx, state, c.link.original.value, false);
    }
  }

  function FinishRelease(l: Link): Link {
    InvalidateBank(l.(phase := Idle, mode := Simple, identity := None, original := None))
  }

  /** Restores the ORUNDETECT setting found by Connect; may be retried after failure.
      A call rejected before any traffic has changed nothing. */
  method Release(c: Conn, ctx: Ctx) returns (ok: bool, rejected: bool)
    requires Owned(c)
    modifies c`link, c.wire, ctx
    ensures Owned(c) && Restoring(c) && ctx.budget <= old(ctx.budget)
    ensures ok ==> c.link.phase.Idle?
    ensures rejected ==> !ok && c.link == old(c.link) && c.wire.t == old(c.wire.t)
  {
    hide BankOf, PowerOf, OrunDetect, Coherent;
    if c.link.phase.Idle? {
      return true, false;
    }
    var ended := ctx.Err();
    if ended {
      return false, true;
    }
    rejected := false;
    ok := PrepareRelease(c, ctx);
    if !ok {
      return;
    }
    ok := RestoreOverrun(c, ctx);
    if !ok {
      return;
    }
    c.link := FinishRelease(c.link);
    ended := ctx.Err();
    ok := !ended;
  }

  /** Entry, identity and the inherited CTRL/STAT value. */
  method PrepareConnection(c: Conn, ctx: Ctx) returns (ok: bool, dpidr: Word, state: Word)
    modifies c`link, c.wire, ctx
    ensures c.wire.t.hist == old(c.wire.t.hist) && c.wire.log == old(c.wire.log)
    ensures Overrun(c.wire.t) == Overrun(old(c.wire.t)) && c.link.original == old(c.link.original)
    ensures Power(c.wire.t) == Power(old(c.wire.t)) &&
            (ok ==> PowerOf(state) == Power(c.wire.t) && dpidr == c.wire.env.dpidr)
    ensures old(c.link.identity.Some?) ==> c.link.identity == old(c.link.identity)
    ensures c.link.phase.Repair? || (!ok && c.link.phase.Idle? && c.link.identity.None?)
    ensures ok ==> && c.wire.t.select == 0 && !c.link.pending && c.link.mode.Simple? && c.link.bank == Known(0)
                   && OrunDetect(state) == Overrun(c.wire.t) && c.link.identity == Some(dpidr)
    ensures ctx.budget <= old(ctx.budget)
  {
    hide OrunDetect, PowerOf;
    dpidr, state := 0, 0;
    c.link := InvalidateBank(c.link.(phase := Repair, mode := Simple));
    ok := c.wire.EnterSwd();
    if ok {
      ok, dpidr := Bootstrap(c, ctx);
    }
    if ok {
      ok, state := ReadState(c, ctx);
    }
  }

  /** Connects, or cleans up the failed attempt as far as it can. */
  method Connect(c: Conn, ctx: Ctx) returns (ok: bool, dpidr: Word)
    requires Owned(c)
    modifies c`link, c.wire, ctx
    ensures Owned(c) && Restoring(c) && ctx.budget <= old(ctx.budget)
    ensures ok ==> c.link.phase.Ready? && c.link.bank == Known(0) && !c.link.pending && c.link.identity == Some(dpidr)
    ensures ok ==> c.wire.t.select == 0 && dpidr == c.wire.env.dpidr
  {
    hide OrunDetect, PowerOf;
    dpidr := 0;
    var ended := ctx.Err();
    if ended {
      return false, 0;
    }
    var state;
    ok, dpidr, state := PrepareConnection(c, ctx);
    if ok {
      if c.link.original.None? {
        c.link := c.link.(original := Some(OrunDetect(state)));
      }
      if OrunDetect(state) {
        c.link := c.link.(mode := Fixed);
      } else {
        ok := ChangeOverrun(c, ctx, state, true, true);
      }
    }
    if ok {
      c.link := c.link.(phase := Ready);
      ended := ctx.Err();
      ok := !ended;
    }
    if !ok {
      CleanUpFailedConnect(c);
    }
  }

  /** A failed Connect gives up an attempt that captured nothing, and otherwise tries
      to restore with a context of its own. */
  method CleanUpFailedConnect(c: Conn)
    requires c.Valid() && (c.link.original.Some? ==> c.link.identity.Some? && !c.link.phase.Idle?)
    modifies c`link, c.wire
    ensures Owned(c)
    ensures old(c.link.original.None?) ==>
              c.link.original.None? && c.wire.t == old(c.wire.t) && c.wire.log == old(c.wire.log)
    ensures old(c.link.original.Some?) ==> Restoring(c)
  {
    if c.link.original.None? {
      c.link := FinishRelease(c.link);
    } else {
      var budget: nat := *;
      var cleanup := new Ctx(budget);
      var ok, rejected := Release(c, cleanup);
    }
  }
}
