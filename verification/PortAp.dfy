/** Immediate access-port operations: one access and its barrier, without a queue. */
module DapPortAp {
  import opened Options
  import opened Contexts
  import opened Words
  import opened SwdTarget
  import opened SwdLink
  import opened SwdWire
  import opened DapPlan
  import opened DapState
  import opened DapPort
  import opened DapPartial

  /** Makes SELECT right for one access-port register, for certain. */
  method SelectAp(port: Port, ctx: Ctx, sel: Word, addr: Word) returns (err: Option<Err>)
    requires port.Valid() && ValidAddress(sel, addr)
    modifies port`st, port.conn`link, port.conn.wire, ctx
    ensures port.Valid() && port.Aside()
    ensures err.None? ==> !port.st.pending && port.st.select == Cached(SelectFor(sel, addr))
  {
    hide Coherent, Agrees, SelectFor;
    var value := SelectFor(sel, addr);
    if port.st.select != Cached(value) {
      err := port.WriteDp(ctx, SELECT, value, false);
      if err.Some? {
        return;
      }
    }
    err := port.ConfirmPending(ctx, false);
  }

  /** The ports have seen `a`, or nothing. */
  ghost predicate OnceAtMost(h0: seq<ApAccess>, a: ApAccess, h: seq<ApAccess>) {
    h == h0 || h == h0 + [a]
  }

  /** Sends one access; a read's data is left posted. */
  method SendAp(port: Port, ctx: Ctx, sel: Word, addr: Word, read: bool, data: Word) returns (err: Option<Err>)
    requires port.Valid() && ValidAddress(sel, addr)
    modifies port`st, port.conn`link, port.conn.wire, ctx
    ensures port.Valid() && port.Withdrawn() && Power(port.conn.wire.t) == Power(old(port.conn.wire.t))
    ensures OnceAtMost(old(port.conn.wire.t.hist), ApAccess(PortOf(sel, addr), read, if read then 0 else data),
                       port.conn.wire.t.hist)
    ensures err.None? && !Sticky(port.conn.wire.t) ==>
              && port.conn.wire.t.hist == old(port.conn.wire.t.hist) +
                 [ApAccess(PortOf(sel, addr), read, if read then 0 else data)]
              && !port.conn.wire.env.faults(port.conn.wire.t.hist)
              && (read ==> port.conn.wire.t.rdbuff == port.conn.wire.env.value(port.conn.wire.t.hist))
  {
    hide Coherent, SelectFor, PortOf, SwdTarget.Port, PowerOf;
    err := SelectAp(port, ctx, sel, addr);
    if err.Some? {
      err := Some(err.value.(notSent := true, notExecuted := true));
      return;
    }
    ghost var t, env := port.conn.wire.t, port.conn.wire.env;
    var value;
    ghost var s;
    value, err, s := port.TransferRetry(ctx, ApFrame(addr, read, data), true, true, false, false);
    if port.conn.wire.t.hist != t.hist {
      SentAccess(env, t, sel, addr, read, data);
    }
    if err.None? {
      SentAccess(env, s, sel, addr, read, data);
    }
  }

  lemma {:induction false} SentAccess(env: Env, t: Target, sel: Word, addr: Word, read: bool, data: Word)
    requires ValidAddress(sel, addr) && t.select == SelectFor(sel, addr)
    ensures var u := Apply(env, t, ApFrame(addr, read, data));
            && u.hist == t.hist + [ApAccess(PortOf(sel, addr), read, if read then 0 else data)]
            && (env.faults(u.hist) ==> Sticky(u))
            && (!env.faults(u.hist) && read ==> u.rdbuff == env.value(u.hist))
  {
    hide SelectFor, PortOf, SwdTarget.Port;
    AccessHist(env, t, sel, addr, read, data);
  }

  /** An access that may have happened. */
  predicate Possible(e: Err) {
    !e.rejected && !e.notSent && e.fault.None?
  }

  /** Reads one register. A success is what the port returned to exactly this access. */
  method ReadAp(port: Port, ctx: Ctx, sel: Word, addr: Word) returns (value: Word, err: Option<Err>)
    requires port.Valid()
    modifies port`st, port.conn`link, port.conn.wire, ctx
    ensures port.Valid() && port.Withdrawn() && Power(port.conn.wire.t) == Power(old(port.conn.wire.t))
    ensures OnceAtMost(old(port.conn.wire.t.hist), ApAccess(PortOf(sel, addr), true, 0), port.conn.wire.t.hist)
    ensures err.None? ==>
              && port.conn.wire.t.hist == old(port.conn.wire.t.hist) + [ApAccess(PortOf(sel, addr), true, 0)]
              && value == port.conn.wire.env.value(port.conn.wire.t.hist)
  {
    hide Coherent, Agrees, PortOf;
    value := 0;
    if !ValidAddress(sel, addr) {
      return 0, Some(PLAIN);
    }
    err := SendAp(port, ctx, sel, addr, true, 0);
    if err.Some? {
      if Possible(err.value) && err.value.parity {
        err := Some(Join(err.value, PLAIN.(indeterminate := true)));
      }
      return;
    }
    value, err := port.ReadDp(ctx, RDBUFF, false, true);
  }

  /** Writes one register and waits for its barrier. A success reached the port. */
  method WriteAp(port: Port, ctx: Ctx, sel: Word, addr: Word, data: Word) returns (err: Option<Err>)
    requires port.Valid()
    modifies port`st, port.conn`link, port.conn.wire, ctx
    ensures port.Valid() && port.Withdrawn() && Power(port.conn.wire.t) == Power(old(port.conn.wire.t))
    ensures OnceAtMost(old(port.conn.wire.t.hist), ApAccess(PortOf(sel, addr), false, data), port.conn.wire.t.hist)
    ensures err.None? ==>
              port.conn.wire.t.hist == old(port.conn.wire.t.hist) + [ApAccess(PortOf(sel, addr), false, data)]
  {
    hide Coherent, Agrees, PortOf;
    if !ValidAddress(sel, addr) || addr == IDR {
      return Some(PLAIN);
    }
    err := SendAp(port, ctx, sel, addr, false, data);
    if err.Some? {
      if Possible(err.value) {
        err := Some(Join(err.value, PLAIN.(indeterminate := true)));
      }
      return;
    }
    var value;
    value, err := port.ReadDp(ctx, RDBUFF, false, false);
    if err.Some? && !(FaultValid(err.value) && WdataErr(err.value.fault.value.ctrl)) && !err.value.solely {
      err := Some(Join(err.value, PLAIN.(indeterminate := true)));
    }
  }
}
