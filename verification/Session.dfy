/** A debug-port session: Connect acquires the power requests that are not there yet,
    and Release gives exactly those back. */
module DapSession {
  import opened Options
  import opened Contexts
  import opened Words
  import opened SwdTarget
  import opened SwdLink
  import SwdLifecycle
  import opened DapPlan
  import opened DapState
  import opened DapPort
  import Immediate = DapPortAp

  const NONE := Requests(false, false)
  const BOTH := Requests(true, true)

  function Minus(a: Requests, b: Requests): Requests {
    Requests(a.debug && !b.debug, a.system && !b.system)
  }

  function Both(a: Requests, b: Requests): Requests {
    Requests(a.debug || b.debug, a.system || b.system)
  }

  /** Pushed operations or the transaction counter. */
  predicate TransactionModes(w: Word) {
    w / 4 % 4 != 0 || w / 0x1000 % 0x1000 != 0
  }

  /** The upper four bits of CTRL/STAT: each request below its acknowledgement. */
  function Nibble(w: Word): Word {
    w / 0x1000_0000
  }

  /** The requests in a nibble. */
  function InNibble(n: int): Requests {
    Requests(n % 2 == 1, n / 4 % 2 == 1)
  }

  lemma {:induction false} PowerInNibble(w: Word)
    ensures PowerOf(w) == InNibble(Nibble(w))
  {
    assert w / 0x4000_0000 == Nibble(w) / 4;
  }

  function AsNibble(r: Requests): int {
    (if r.debug then 1 else 0) + (if r.system then 4 else 0)
  }

  lemma {:induction false} NibbleChanges(n: int, r: Requests)
    requires 0 <= n < 16
    ensures Minus(r, InNibble(n)) == r ==> n + AsNibble(r) < 16 && InNibble(n + AsNibble(r)) == Both(InNibble(n), r)
    ensures Minus(r, InNibble(n)) == NONE ==> AsNibble(r) <= n && InNibble(n - AsNibble(r)) == Minus(InNibble(n), r)
  {
  }

  /** Adding to the nibble, without overflow, leaves the other bits alone. */
  lemma {:induction false} UpperBits(w: Word, change: int)
    requires 0 <= Nibble(w) + change < 16
    ensures var r := w + 0x1000_0000 * change;
            && 0 <= r < 0x1_0000_0000 && r % 0x1000_0000 == w % 0x1000_0000
            && PowerOf(r) == InNibble(Nibble(w) + change)
  {
    PowerInNibble(w + 0x1000_0000 * change);
  }

  /** CTRL/STAT with both requests set. */
  function WithPower(w: Word): (r: Word)
    ensures PowerOf(r) == BOTH && r % 0x1000_0000 == w % 0x1000_0000
  {
    var missing := Minus(BOTH, PowerOf(w));
    PowerInNibble(w);
    NibbleChanges(Nibble(w), missing);
    UpperBits(w, AsNibble(missing));
    w + 0x1000_0000 * AsNibble(missing)
  }

  /** CTRL/STAT with the requests in `owned` cleared. */
  function WithoutPower(w: Word, owned: Requests): (r: Word)
    ensures PowerOf(r) == Minus(PowerOf(w), owned) && r % 0x1000_0000 == w % 0x1000_0000
  {
    var cleared := Minus(owned, Minus(owned, PowerOf(w)));
    PowerInNibble(w);
    NibbleChanges(Nibble(w), cleared);
    UpperBits(w, -AsNibble(cleared));
    w - 0x1000_0000 * AsNibble(cleared)
  }

  /** Every acknowledgement of the requests in `mask` reads as `on`. */
  predicate Acknowledged(w: Word, mask: Requests, on: bool) {
    && (mask.debug ==> (w / 0x2000_0000 % 2 == 1) == on)
    && (mask.system ==> (w / 0x8000_0000 % 2 == 1) == on)
  }

  /** The requests that are not the session's own. */
  ghost function Foreign(p: Port): Requests
    reads p, p.conn, p.conn.wire
  {
    Minus(Power(p.conn.wire.t), p.owned)
  }

  /** Reads CTRL/STAT until the acknowledgements are there. A success is settled: an
      earlier write that the target lost would have failed it. */
  method WaitPower(p: Port, ctx: Ctx, mask: Requests, on: bool) returns (err: Option<Err>)
    requires p.Valid()
    modifies p`st, p.conn`link, p.conn.wire, ctx
    ensures p.Valid() && p.Aside() && ctx.budget <= old(ctx.budget)
    ensures err.None? ==> Acknowledged(CtrlWord(p.conn.wire.t.ctrl), mask, on)
    ensures old(p.Quiescent()) ==> !p.st.pending
    ensures err.None? ==>
              ResponseKnown(p.st) && p.Quiescent() && (old(p.st.writePending) ==> !Sticky(old(p.conn.wire.t)))
  {
    hide Coherent, CtrlWord, PowerOf, BankOf, Acknowledged;
    ghost var polls := 0;
    while true
      invariant p.Valid() && p.Aside() && ctx.budget <= old(ctx.budget)
      invariant polls == 0 ==> p.st == old(p.st) && p.conn.wire.t == old(p.conn.wire.t)
      invariant polls > 0 ==> p.Quiescent()
      invariant polls > 0 && old(p.st.writePending) ==> !Sticky(old(p.conn.wire.t))
      decreases ctx.budget
    {
      var state;
      state, err := p.ReadDp(ctx, CTRLSTAT, false, false);
      polls := polls + 1;
      if err.Some? || Acknowledged(state, mask, on) {
        return;
      }
      var ended := ctx.Err();
      if ended {
        return Some(PLAIN);
      }
    }
  }

  /** Gives back the owned requests. A success takes exactly those from what CTRL/STAT held. */
  method ReleasePower(p: Port, ctx: Ctx) returns (err: Option<Err>)
    requires p.Valid()
    modifies p`st, p`owned, p.conn`link, p.conn.wire, ctx
    ensures p.Valid() && p.Unseen() && p.Withdrawn() && Foreign(p) == old(Foreign(p))
    ensures err.None? ==> p.owned == NONE
    ensures err.Some? ==> p.owned == old(p.owned)
    ensures err.None? ==> !p.st.pending || (old(p.owned) == NONE && p.st == old(p.st))
  {
    hide Coherent, CtrlWord, PowerOf, BankOf, Acknowledged;
    if p.owned == NONE {
      return None;
    }
    var state;
    state, err := p.ReadDp(ctx, CTRLSTAT, false, false);
    if err.Some? {
      return;
    }
    CtrlWordPower(p.conn.wire.t.ctrl);
    err := p.WriteDp(ctx, CTRLSTAT, WithoutPower(state, p.owned), false);
    if err.Some? {
      return;
    }
    err := WaitPower(p, ctx, p.owned, false);
    if err.None? {
      p.owned := NONE;
    }
  }

  /** An idle session owns nothing and has left the protocol. */
  ghost predicate Rested(p: Port)
    reads p, p.conn
  {
    p.st.session.NoSession? ==> p.conn.link.phase.Idle? && p.owned == NONE && p.identity.None?
  }

  method CompleteRelease(p: Port)
    requires p.Sound() && p.conn.link.phase.Idle?
    modifies p`st, p`identity, p`owned
    ensures p.Sound() && p.st.pending == old(p.st.pending) && Rested(p) && p.st.session.NoSession?
  {
    hide Coherent;
    p.identity, p.owned := None, NONE;
    p.st := p.st.(session := NoSession, writePending := false);
  }

  /** Leaves the protocol. Completion with an error still ends the session; otherwise
      framing is lost unless the call was rejected before any traffic. */
  method ReleaseLink(p: Port, ctx: Ctx) returns (ok: bool)
    requires p.Valid() && !p.st.session.NoSession? && p.owned == NONE
    modifies p`st, p`identity, p`owned, p.conn`link, p.conn.wire, ctx
    ensures p.Sound() && (!old(p.st.pending) ==> p.Valid())
    ensures p.Unseen() && Rested(p) && Power(p.conn.wire.t) == Power(old(p.conn.wire.t))
    ensures ok ==> p.st.session.NoSession?
    ensures p.owned == NONE && (p.st.session.NoSession? || p.Withdrawn())
  {
    hide Coherent;
    var rejected;
    ok, rejected := SwdLifecycle.Release(p.conn, ctx);
    if p.conn.link.phase.Idle? {
      CompleteRelease(p);
    } else if !rejected {
      p.st := LoseFraming(p.st);
    }
  }

  /** A failed Connect rolls back what it acquired, with a context of its own. */
  method FailConnect(p: Port)
    requires p.Valid() && p.st.session.RepairRequired?
    modifies p`st, p`identity, p`owned, p.conn`link, p.conn.wire
    ensures p.Sound() && p.Unseen() && Rested(p) && !p.st.session.Connected? && Foreign(p) == old(Foreign(p))
    ensures old(p.st.response.Lost? || p.owned != NONE || !p.st.pending) ==> p.Valid()
  {
    hide Coherent;
    var ctx := p.CleanupContext();
    if p.st.response.Lost? || p.owned != NONE {
      var ok, e := p.Reenter(ctx);
      if !ok {
        return;
      }
    }
    var err := ReleasePower(p, ctx);
    if err.Some? {
      return;
    }
    var ok := ReleaseLink(p, ctx);
  }

  /** Checks what entry found. On success `state` is the CTRL/STAT value it holds. */
  method Initialize(p: Port, ctx: Ctx, raw: Word) returns (ok: bool, state: Word)
    requires p.Sound() && p.conn.wire.t.select == 0 && !p.st.pending
    modifies p`st, p`identity, p.conn`link, p.conn.wire, ctx
    ensures p.Valid() && p.Aside() && !p.st.pending
    ensures ok ==> p.identity == Some(raw) && raw % 2 == 1 && raw / 0x1000 % 16 != 3
    ensures ok ==>
              p.Quiescent() && state == CtrlWord(p.conn.wire.t.ctrl) && !TransactionModes(state) && ResponseKnown(p.st)
  {
    hide Coherent, CtrlWord;
    state := 0;
    if raw % 2 == 0 {
      return false, 0;
    }
    p.identity := Some(raw);
    p.st := ConfirmSelect(RecordSelect(p.st, 0)).(writePending := false);
    var err;
    state, err := p.ReadDp(ctx, CTRLSTAT, false, false);
    ok := err.None? && !TransactionModes(state) && raw / 0x1000 % 16 != 3;
  }

  /** Sets the missing requests and waits for both acknowledgements. */
  method PowerUp(p: Port, ctx: Ctx, state: Word) returns (err: Option<Err>)
    requires p.Valid() && p.owned == NONE && state == CtrlWord(p.conn.wire.t.ctrl)
    modifies p`st, p`owned, p.conn`link, p.conn.wire, ctx
    ensures p.Valid() && p.Unseen() && p.Withdrawn() && Foreign(p) == old(Foreign(p))
    ensures p.owned == Minus(BOTH, Power(old(p.conn.wire.t)))
    ensures old(p.Quiescent()) ==> p.owned != NONE || !p.st.pending
    ensures err.None? ==> Power(p.conn.wire.t) == BOTH && ResponseKnown(p.st) && !p.st.pending
  {
    hide Coherent, CtrlWord, PowerOf, BankOf, Acknowledged;
    ghost var t := p.conn.wire.t;
    CtrlWordPower(t.ctrl);
    var missing := Minus(BOTH, PowerOf(state));
    if missing != NONE {
      p.owned := missing;
      err := p.WriteDp(ctx, CTRLSTAT, WithPower(state), false);
      if err.Some? {
        return;
      }
    }
    err := WaitPower(p, ctx, BOTH, true);
  }

  /** Begins a session: enters the protocol and checks the debug port. A failure is
      rolled back. */
  method ConnectLink(p: Port, ctx: Ctx) returns (ok: bool, id: Word, state: Word)
    requires p.Valid() && Rested(p) && p.st.session.NoSession?
    modifies p`st, p`identity, p`owned, p`memAps, p`sessionId, p.conn`link, p.conn.wire, ctx
    ensures p.Valid() && p.Unseen() && Rested(p) && !p.st.session.Connected?
    ensures Foreign(p) == old(Foreign(p))
    ensures p.sessionId == old(p.sessionId) + 1 && p.memAps == {}
    ensures ok ==> p.Quiescent() && p.st.session.RepairRequired? && p.owned == NONE && ResponseKnown(p.st)
    ensures ok ==> p.identity == Some(id) && id == p.conn.wire.env.dpidr && state == CtrlWord(p.conn.wire.t.ctrl)
  {
    hide Coherent, CtrlWord, PowerOf, BankOf;
    state := 0;
    p.memAps, p.identity, p.sessionId := {}, None, p.sessionId + 1;
    p.st := BeginEntry(p.st.(session := RepairRequired));
    ok, id := SwdLifecycle.Connect(p.conn, ctx);
    if !ok {
      if p.conn.link.phase.Idle? {
        CompleteRelease(p);
      } else {
        p.st := LoseFraming(p.st);
      }
      return;
    }
    ok, state := Initialize(p, ctx, id);
    if !ok {
      FailConnect(p);
    }
  }

  /** Connects an idle port. On success both power requests are acknowledged, and the
      ones to give back are those that were missing; on failure nothing is connected. */
  method Connect(p: Port, ctx: Ctx) returns (ok: bool, id: Word)
    requires p.Valid() && Rested(p)
    modifies p, p.conn`link, p.conn.wire, ctx
    ensures p.Valid() && p.Unseen() && Rested(p) && Foreign(p) == old(Foreign(p))
    ensures !old(p.st.session.NoSession?) ==> !ok && unchanged(p) && unchanged(p.conn) && unchanged(p.conn.wire)
    ensures old(p.st.session.NoSession?) ==> (ok <==> p.st.session.Connected?)
    ensures ok ==> Power(p.conn.wire.t) == BOTH && p.owned == Minus(BOTH, Power(old(p.conn.wire.t)))
    ensures ok ==>
              id == p.conn.wire.env.dpidr && p.identity == p.last == Some(id) && ResponseKnown(p.st) && !p.st.pending
    ensures ok ==> p.sessionId == old(p.sessionId) + 1 && p.memAps == {}
  {
    hide Coherent, CtrlWord, PowerOf, BankOf;
    id := 0;
    if !p.st.session.NoSession? {
      return false, 0;
    }
    var ended := ctx.Err();
    if ended {
      return false, 0;
    }
    var state;
    ok, id, state := ConnectLink(p, ctx);
    if !ok {
      return;
    }
    var err := PowerUp(p, ctx, state);
    ok := err.None?;
    if ok {
      ended := ctx.Err();
      ok := !ended;
    }
    if !ok {
      FailConnect(p);
      return;
    }
    p.last := p.identity;
    p.st := p.st.(session := Connected);
  }

  /** Ends a session. On success exactly the owned requests are gone; a failure leaves the
      session to a later Release, unless only the last report went wrong. */
  method Release(p: Port, ctx: Ctx) returns (ok: bool)
    requires p.Valid() && Rested(p)
    modifies p`st, p`identity, p`owned, p.conn`link, p.conn.wire, ctx
    ensures p.Valid() && p.Unseen() && Rested(p) && Foreign(p) == old(Foreign(p))
    ensures old(p.st.session.NoSession?) ==> ok && unchanged(p) && unchanged(p.conn) && unchanged(p.conn.wire)
    ensures ok ==> p.st.session.NoSession?
    ensures p.st.session.Connected? ==> !ok && p.st == old(p.st) && p.conn.wire.t == old(p.conn.wire.t)
  {
    hide Coherent, CtrlWord, PowerOf, BankOf;
    if p.st.session.NoSession? {
      return true;
    }
    var ended := ctx.Err();
    if ended {
      return false;
    }
    p.st := p.st.(session := RepairRequired);
    if !ResponseKnown(p.st) {
      var e;
      ok, e := p.Reenter(ctx);
      if !ok {
        return;
      }
    }
    var err := p.WriteDp(ctx, SELECT, 0, false);
    if err.None? {
      err := p.ConfirmPending(ctx, false);
    }
    if err.None? {
      err := ReleasePower(p, ctx);
    }
    if err.Some? {
      return false;
    }
    ok := ReleaseLink(p, ctx);
  }

  // ----- Whole runs -----

  datatype Call =
    | Connecting
    | Releasing
    | Reading(reg: DpReg)
    | Writing(reg: DpReg, data: Word)
    | LoadingAp(sel: Word, addr: Word)
    | StoringAp(sel: Word, addr: Word, data: Word)

  /** Between calls. The requests that are not the session's own are the inherited ones:
      an idle port has given everything back. A connected one has both. */
  ghost predicate Balanced(p: Port, inherited: Requests)
    reads p, p.conn, p.conn.wire
  {
    && p.Valid() && Rested(p) && Foreign(p) == inherited
    && (p.st.session.NoSession? ==> Power(p.conn.wire.t) == inherited)
    && (p.st.session.Connected? ==> Power(p.conn.wire.t) == BOTH)
  }

  /** Every run of calls that do not themselves write CTRL/STAT, each under any context and
      failing wherever it may. */
  method RunSessions(p: Port, calls: seq<Call>)
    requires p.Valid() && Rested(p) && p.st.session.NoSession?
    requires forall i :: 0 <= i < |calls| && calls[i].Writing? ==> !calls[i].reg.CTRLSTAT?
    modifies p, p.conn`link, p.conn.wire
    ensures Balanced(p, old(Power(p.conn.wire.t)))
  {
    hide Coherent, BankOf;
    for i := 0 to |calls|
      invariant Balanced(p, old(Power(p.conn.wire.t)))
    {
      Perform(p, calls[i], old(Power(p.conn.wire.t)));
    }
  }

  method Perform(p: Port, call: Call, ghost inherited: Requests)
    requires Balanced(p, inherited) && (call.Writing? ==> !call.reg.CTRLSTAT?)
    modifies p, p.conn`link, p.conn.wire
    ensures Balanced(p, inherited)
  {
    hide Coherent, BankOf, PowerOf;
    var budget: nat := *;
    var ctx := new Ctx(budget);
    if call.Connecting? {
      var ok, id := Connect(p, ctx);
    } else if call.Releasing? {
      var ok := Release(p, ctx);
    } else if p.st.session.Connected? {
      match call {
        case Reading(reg) =>
          var value, err := p.ReadDp(ctx, reg, false, false);
        case Writing(reg, data) =>
          var err := p.WriteDp(ctx, reg, data, false);
        case LoadingAp(sel, addr) =>
          var value, err := Immediate.ReadAp(p, ctx, sel, addr);
        case StoringAp(sel, addr, data) =>
          var err := Immediate.WriteAp(p, ctx, sel, addr, data);
      }
    }
  }
}
