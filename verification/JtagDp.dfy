/** The JTAG-DP pipeline: a request is accepted by the scan that shifts it in, and its
    result comes out of the next scan that is not answered WAIT. */
module DapJtag {
  import opened Options
  import opened Contexts
  import opened Bits
  import DapPlan
  import opened Rows
  import opened JtagDevice
  import opened JtagTrace
  import opened JtagConn
  import opened JtagDiscover
  import opened JtagChain
  import opened DapState

  // Instructions, without the leading ones of an eight-bit register.
  const ABORT := 0x8
  const DPACC := 0xa
  const APACC := 0xb
  const IDCODE := 0xe

  const WAIT := 1
  const OK := 2

  predicate IrWidth(ir: nat) {
    ir == 4 || ir == 8
  }

  function Instruction(code: nat, ir: nat): (s: seq<bool>)
    requires IrWidth(ir) && code < 16
    ensures |s| == ir
  {
    BitsOf(if ir == 8 then code + 0xf0 else code, ir)
  }

  lemma {:induction false} PowSmall()
    ensures Pow2(3) == 8 && Pow2(4) == 16 && Pow2(8) == 256
  {
  }

  /** Different codes are different instructions, and only 0xf is BYPASS. */
  lemma {:induction false} Distinguished(a: nat, b: nat, ir: nat)
    requires IrWidth(ir) && a < 16 && b < 16
    ensures Instruction(a, ir) == Instruction(b, ir) <==> a == b
    ensures Instruction(a, ir) == Ones(ir) ==> a == 15
  {
    hide Pow2, BitsOf;
    PowSmall();
    var x, y := if ir == 8 then a + 0xf0 else a, if ir == 8 then b + 0xf0 else b;
    ValueOfBits(x, ir);
    ValueOfBits(y, ir);
    AllOnes(Instruction(a, ir));
  }

  // ----- Requests -----

  datatype Request = Request(ap: bool, read: bool, addr: nat, data: nat)

  predicate ValidRequest(r: Request) {
    r.addr < 16 && r.addr % 4 == 0 && r.data < 0x1_0000_0000
  }

  const RDBUFF := Request(false, true, 0x0c, 0)

  function Encode(r: Request): nat {
    r.data * 8 + r.addr / 4 * 2 + Bit(r.read)
  }

  function Decode(ap: bool, v: nat): Request {
    Request(ap, v % 2 == 1, v / 2 % 4 * 4, v / 8)
  }

  lemma {:induction false} Pow35()
    ensures Pow2(35) == 0x8_0000_0000
  {
    hide Pow2;
    Pow32();
    PowSmall();
    PowJoin(32, 3);
  }

  lemma {:induction false} PowJoin(a: nat, b: nat)
    ensures Pow2(a + b) == Pow2(a) * Pow2(b)
  {
    if b > 0 {
      PowJoin(a, b - 1);
    }
  }

  /** The 35 bits of a request say what the request is. */
  lemma {:induction false} RequestRoundTrip(r: Request)
    requires ValidRequest(r)
    ensures Encode(r) < Pow2(35) && Decode(r.ap, Value(BitsOf(Encode(r), 35))) == r
  {
    hide Pow2, Value, BitsOf;
    Pow35();
    ValueOfBits(Encode(r), 35);
    var low := r.addr / 4;
    assert Encode(r) == (r.data * 4 + low) * 2 + Bit(r.read);
    assert (r.data * 4 + low) % 4 == low;
  }

  // ----- The debug port -----

  datatype Event = Accept(r: Request) | Abort

  /** A JTAG-DP: how it answers each scan, and what the accepted requests return. */
  datatype Dp = Dp(ack: seq<Update> -> nat, result: seq<Event> -> nat, noise: seq<Update> -> nat)

  /** What one update means to the port in position `k`. */
  function EventsOf(dp: Dp, k: nat, ir: nat, u: Update, before: seq<Update>): seq<Event>
    requires IrWidth(ir)
  {
    if k >= |u.instructions| || k >= |u.data| then []
    else if u.instructions[k] == Instruction(ABORT, ir) then [Abort]
    else if u.instructions[k] == Instruction(DPACC, ir) || u.instructions[k] == Instruction(APACC, ir) then
      if dp.ack(before) == WAIT then []
      else [Accept(Decode(u.instructions[k] == Instruction(APACC, ir), Value(u.data[k])))]
    else []
  }

  function Events(dp: Dp, k: nat, ir: nat, hist: seq<Update>, n: nat): seq<Event>
    requires n <= |hist| && IrWidth(ir)
  {
    if n == 0 then [] else Events(dp, k, ir, hist, n - 1) + EventsOf(dp, k, ir, hist[n - 1], hist[..n - 1])
  }

  lemma {:induction false} EventsPrefix(dp: Dp, k: nat, ir: nat, hist: seq<Update>, more: seq<Update>, n: nat)
    requires n <= |hist| && IrWidth(ir)
    ensures Events(dp, k, ir, hist + more, n) == Events(dp, k, ir, hist, n)
  {
    hide EventsOf;
    if n > 0 {
      EventsPrefix(dp, k, ir, hist, more, n - 1);
      assert (hist + more)[..n - 1] == hist[..n - 1];
    }
  }

  lemma {:induction false} EventsMore(dp: Dp, k: nat, ir: nat, hist: seq<Update>, u: Update)
    requires IrWidth(ir)
    ensures Events(dp, k, ir, hist + [u], |hist| + 1) == Events(dp, k, ir, hist, |hist|) + EventsOf(dp, k, ir, u, hist)
  {
    hide EventsOf;
    EventsPrefix(dp, k, ir, hist, [u], |hist|);
    assert (hist + [u])[..|hist|] == hist;
  }

  /** What a scan of DPACC or APACC captures. */
  function Response(dp: Dp, k: nat, ir: nat, hist: seq<Update>): seq<bool>
    requires IrWidth(ir)
  {
    BitsOf((if dp.ack(hist) == OK then dp.result(Events(dp, k, ir, hist, |hist|)) else dp.noise(hist)) * 8 +
           dp.ack(hist), 35)
  }

  /** The TAP in position `k` is that port. */
  ghost predicate Speaks(env: Env, k: nat, ir: nat, dp: Dp) {
    && IrWidth(ir) && k < |env.ir| && env.ir[k] == ir
    && (forall h :: dp.ack(h) < 8 && dp.noise(h) < 0x1_0000_0000)
    && (forall e :: dp.result(e) < 0x1_0000_0000)
    && (forall h :: env.capture(k, Instruction(DPACC, ir), h) == Response(dp, k, ir, h))
    && (forall h :: env.capture(k, Instruction(APACC, ir), h) == Response(dp, k, ir, h))
    && (forall h :: |env.capture(k, Instruction(ABORT, ir), h)| == 35)
    && (forall h :: |env.capture(k, Instruction(IDCODE, ir), h)| == 32)
  }

  function Width(code: nat): nat {
    if code == IDCODE then 32 else 35
  }

  predicate IsCode(code: nat) {
    code == ABORT || code == DPACC || code == APACC || code == IDCODE
  }

  lemma {:induction false} CaptureOf(env: Env, k: nat, ir: nat, dp: Dp, code: nat, hist: seq<Update>)
    requires Speaks(env, k, ir, dp) && IsCode(code)
    ensures var c := DrCapture(env, Instruction(code, ir), hist, k);
            && |c| == Width(code) && (code == DPACC || code == APACC ==> c == Response(dp, k, ir, hist))
  {
    hide BitsOf, Instruction, Events;
    Distinguished(code, code, ir);
    assert env.capture(k, Instruction(DPACC, ir), hist) == Response(dp, k, ir, hist);
    assert env.capture(k, Instruction(APACC, ir), hist) == Response(dp, k, ir, hist);
    assert |env.capture(k, Instruction(ABORT, ir), hist)| == 35;
    assert |env.capture(k, Instruction(IDCODE, ir), hist)| == 32;
  }

  lemma {:induction false} ResponseParts(dp: Dp, k: nat, ir: nat, hist: seq<Update>)
    requires IrWidth(ir) && dp.ack(hist) < 8 && dp.noise(hist) < 0x1_0000_0000
    requires forall e :: dp.result(e) < 0x1_0000_0000
    ensures var v := Value(Response(dp, k, ir, hist));
            v % 8 == dp.ack(hist) && (dp.ack(hist) == OK ==> v / 8 == dp.result(Events(dp, k, ir, hist, |hist|)))
  {
    hide Pow2, Value, BitsOf, Events;
    Pow35();
    var data := if dp.ack(hist) == OK then dp.result(Events(dp, k, ir, hist, |hist|)) else dp.noise(hist);
    ValueOfBits(data * 8 + dp.ack(hist), 35);
  }

  // ----- The executor -----

  datatype Outcome = Unsent | InFlight | Confirmed | Indeterminate

  datatype Cause = Ended | Waited | Broken | Sticky

  datatype Result = Result(data: nat, outcome: Outcome, cause: Option<Cause>)

  /** The events after `e0` are nothing, or exactly the acceptance of `r`. */
  ghost predicate AtMost(e0: seq<Event>, r: Request, e: seq<Event>) {
    e == e0 || e == e0 + [Accept(r)]
  }

  /** At most one access-port request was accepted after `e0`. */
  ghost predicate AtMostOne(e0: seq<Event>, e: seq<Event>) {
    e0 <= e && forall i, j :: |e0| <= i < j < |e| ==> !IsAp(e[i]) || !IsAp(e[j])
  }

  predicate IsAp(e: Event) {
    e.Accept? && e.r.ap
  }

  /** The access register of the TAP in position `k` is in a scan. */
  ghost predicate Exposes(d: Device, k: nat, ir: nat)
    requires IrWidth(ir)
  {
    DrPath(d.state) && k < |d.instructions| && d.instructions[k] == Instruction(APACC, ir)
  }

  /** From `e0` to `e` one access-port request was accepted at most, and only if one was
      exposed before and is not any more. */
  ghost predicate Stray(e0: seq<Event>, was: bool, e: seq<Event>, exposed: bool) {
    && AtMostOne(e0, e) && (!was ==> NoAp(e0, e)) && (exposed ==> was && NoAp(e0, e))
  }

  lemma {:induction false} StrayMore(e0: seq<Event>, was: bool, e1: seq<Event>, mid: bool, e: seq<Event>, exposed: bool)
    requires Stray(e0, was, e1, mid) && Stray(e1, mid, e, exposed)
    ensures Stray(e0, was, e, exposed)
  {
  }

  /** An access and what followed it are one acceptance together: what was accepted is not
      exposed any more. */
  lemma {:induction false} OneAccess(e0: seq<Event>, mid: seq<Event>, e1: seq<Event>, was: bool, e: seq<Event>,
                                     exposed: bool)
    requires NoAp(e0, mid) && AtMostOne(mid, e1) && (was ==> e1 == mid) && Stray(e1, was, e, exposed)
    ensures AtMostOne(e0, e)
  {
  }

  lemma {:induction false} StrayThen(e0: seq<Event>, was: bool, e1: seq<Event>, mid: bool, e: seq<Event>, exposed: bool)
    requires Stray(e0, was, e1, mid) && NoAp(e1, e) && (exposed ==> mid)
    ensures Stray(e0, was, e, exposed)
  {
  }

  lemma {:induction false} StrayNone(e0: seq<Event>, was: bool, e: seq<Event>, exposed: bool)
    requires NoAp(e0, e) && (exposed ==> was)
    ensures Stray(e0, was, e, exposed)
  {
  }

  /** The port does not reset to its access register. */
  ghost predicate ResetsOff(env: Env, k: nat, ir: nat)
    requires IrWidth(ir)
  {
    k < |env.reset| && env.reset[k] != Instruction(APACC, ir)
  }

  lemma {:induction false} UpdatesOff(dp: Dp, k: nat, ir: nat, h: seq<Update>, a: nat, n: nat)
    requires IrWidth(ir) && a <= n <= |h|
    requires forall i :: a <= i < n ==> k < |h[i].instructions| && h[i].instructions[k] != Instruction(APACC, ir)
    ensures NoAp(Events(dp, k, ir, h, a), Events(dp, k, ir, h, n))
  {
    hide Instruction, Value;
    if a < n {
      UpdatesOff(dp, k, ir, h, a, n - 1);
    }
  }

  /** A reset makes the port accept at most what was exposed. */
  lemma {:induction false} TracedStray(dp: Dp, env: Env, k: nat, ir: nat, d0: Device, d: Device)
    requires IrWidth(ir) && Sound(env, d0) && ResetsOff(env, k, ir) && Traced(env, d0, d)
    ensures Stray(Events(dp, k, ir, d0.hist, |d0.hist|), Exposes(d0, k, ir), Events(dp, k, ir, d.hist, |d.hist|),
                  Exposes(d, k, ir))
  {
    hide Events, EventsOf, Instruction;
    var h0, h := d0.hist, d.hist;
    var e0, e := Events(dp, k, ir, h0, |h0|), Events(dp, k, ir, h, |h|);
    EventsPrefix(dp, k, ir, h0, h[|h0|..], |h0|);
    assert h == h0 + h[|h0|..];
    if |h| > |h0| {
      var e1 := Events(dp, k, ir, h, |h0| + 1);
      UpdatesOff(dp, k, ir, h, |h0| + 1, |h|);
      if !Exposes(d0, k, ir) {
        UpdatesOff(dp, k, ir, h, |h0|, |h0| + 1);
      }
      FirstUpdate(dp, k, ir, h, |h0|);
    }
  }

  lemma {:induction false} FirstUpdate(dp: Dp, k: nat, ir: nat, h: seq<Update>, n: nat)
    requires IrWidth(ir) && n < |h|
    ensures Events(dp, k, ir, h, n) <= Events(dp, k, ir, h, n + 1)
    ensures |Events(dp, k, ir, h, n + 1)| <= |Events(dp, k, ir, h, n)| + 1
  {
    hide Instruction, Value;
  }

  class Executor {
    const chain: Chain
    const index: nat
    const ir: nat
    const maxWaits: nat
    var tap: JtagChain.Tap
    var st: PortState
    var abortRequired: bool
    var faultPending: bool
    // The IDCODE of the first entry.
    var identity: Option<nat>
    ghost const dp: Dp

    constructor (chain: Chain, index: nat, maxWaits: nat, st: PortState, ghost dp: Dp)
      requires chain.Valid() && chain.Describes() && index < |chain.layout|
      requires Speaks(chain.conn.wire.env, index, chain.layout[index].ir, dp)
      ensures Valid() && this.chain == chain && this.dp == dp && this.st == st
    {
      this.chain, this.index, this.ir, this.maxWaits, this.st, this.dp :=
        chain, index, chain.layout[index].ir, maxWaits, st, dp;
      tap, abortRequired, faultPending, identity := JtagChain.Tap(index, 0), false, false, None;
    }

    ghost predicate Valid()
      reads this, chain, chain.conn, chain.conn.wire
    {
      && chain.Valid() && chain.Describes() && index < |chain.layout| && tap.index == index
      && IrWidth(ir) && chain.layout[index].ir == ir && Speaks(chain.conn.wire.env, index, ir, dp)
    }

    ghost function Hist(): seq<Update>
      reads this, chain, chain.conn, chain.conn.wire
    {
      chain.conn.wire.d.hist
    }

    /** What the port has accepted so far. */
    ghost function Log(): seq<Event>
      requires IrWidth(ir)
      reads this, chain, chain.conn, chain.conn.wire
    {
      Events(dp, index, ir, Hist(), |Hist()|)
    }

    /** The device has the port's access register in a scan that was not updated. */
    ghost predicate Exposed()
      requires IrWidth(ir)
      reads this, chain, chain.conn, chain.conn.wire
    {
      Exposes(chain.conn.wire.d, index, ir)
    }

    /** Whatever was sent, no access-port request was accepted: at most one that was in the
        register before, by a reset. */
    twostate predicate Strayed()
      requires IrWidth(ir)
      reads this, chain, chain.conn, chain.conn.wire
    {
      Stray(old(Log()), old(Exposed()), Log(), Exposed())
    }

    /** One scan of the instruction and of the register it selects. A failure loses track. */
    method Scan(ctx: Ctx, code: nat, data: seq<bool>) returns (capture: Option<seq<bool>>)
      requires Valid() && IsCode(code) && |data| == Width(code)
      modifies this`st, chain`serial, chain`valid, chain`selected, chain.conn`state, chain.conn`serial, chain.conn.wire,
               ctx
      ensures Valid()
      ensures ctx.budget <= old(ctx.budget)
      ensures capture.Some? ==>
                && st == old(st) && capture.value ==
                   DrCapture(chain.conn.wire.env, Instruction(code, ir), old(Hist()), index)
                && Meant(dp, index, ir, old(Hist()), Hist(), code, data)
      ensures capture.None? ==> st == LoseFraming(old(st))
      ensures Exposed() ==> Hist() == old(Hist()) && (code == APACC || old(Exposed()))
      ensures Hist() == old(Hist()) || Meant(dp, index, ir, old(Hist()), Hist(), code, data)
    {
      hide Sound, DrCapture, Extended, Updated, Alone, Instruction, LoseFraming, Speaks, EventsOf;
      var selected := chain.TapScanIr(tap, ctx, Instruction(code, ir));
      if selected.None? {
        st := LoseFraming(st);
        return None;
      }
      Distinguished(code, APACC, ir);
      ghost var d := chain.conn.wire.d;
      CaptureOf(chain.conn.wire.env, index, ir, dp, code, d.hist);
      capture := chain.TapScanDr(tap, ctx, data, |data|);
      assert data[..|data|] == data;
      if Hist() != d.hist {
        ScanMeant(dp, chain.conn.wire.env, d, Hist(), index, ir, code, data);
      }
      if capture.None? {
        st := LoseFraming(st);
      } else {
        ExtendedMore(chain.conn.wire.env, d, chain.conn.wire.d, index, data);
      }
    }

    /** Shifts one request in, and the answer to the one before it out. */
    method Exchange(ctx: Ctx, req: Request) returns (ok: bool, value: nat, ack: nat)
      requires Valid() && ValidRequest(req)
      modifies this`st, chain`serial, chain`valid, chain`selected, chain.conn`state, chain.conn`serial, chain.conn.wire,
               ctx
      ensures Valid() && value < 0x1_0000_0000 && (ok ==> st == old(st)) && (!ok ==> st == LoseFraming(old(st)))
      ensures ctx.budget <= old(ctx.budget)
      ensures ok && ack == WAIT ==> Log() == old(Log())
      ensures ok && ack != WAIT ==> Log() == old(Log()) + [Accept(req)]
      ensures ok && ack == OK ==> value == dp.result(old(Log()))
      ensures AtMost(old(Log()), req, Log())
      ensures Exposed() ==> !ok && Log() == old(Log()) && (req.ap || old(Exposed()))
    {
      hide Sound, Instruction, LoseFraming, EventsOf, Events, Value, BitsOf, Pow2;
      RequestRoundTrip(req);
      ghost var h := Hist();
      var code := if req.ap then APACC else DPACC;
      var capture := Scan(ctx, code, BitsOf(Encode(req), 35));
      if capture.None? {
        return false, 0, 0;
      }
      CaptureOf(chain.conn.wire.env, index, ir, dp, code, h);
      ResponseParts(dp, index, ir, h);
      WordBound(capture.value);
      return true, Value(capture.value) / 8, Value(capture.value) % 8;
    }

    /** Shifts `next` in until it is accepted. A WAIT discards the request of its scan and
        leaves the one before it in flight. */
    method Poll(ctx: Ctx, next: Request) returns (value: nat, err: Option<Cause>)
      requires Valid() && ValidRequest(next)
      modifies this`st, chain`serial, chain`valid, chain`selected, chain.conn`state, chain.conn`serial, chain.conn.wire,
               ctx
      ensures Valid() && value < 0x1_0000_0000 && (st == old(st) || st == LoseFraming(old(st)))
      ensures err.None? ==> st == old(st) && Log() == old(Log()) + [Accept(next)] && value == dp.result(old(Log()))
      ensures err.Some? && !st.response.Lost? ==> Log() == old(Log())
      ensures AtMost(old(Log()), next, Log())
      ensures Exposed() ==> err.Some? && Log() == old(Log()) && (next.ap || old(Exposed()))
    {
      hide Sound, LoseFraming, Events, Speaks;
      LosesTrack(st);
      value := 0;
      var waits := 0;
      while true
        invariant Valid() && st == old(st) && Log() == old(Log())
        invariant Exposed() ==> old(Exposed())
        invariant maxWaits > 0 ==> waits < maxWaits
        decreases if maxWaits > 0 then maxWaits - waits else ctx.budget
      {
        var ended := ctx.Err();
        if ended {
          return 0, Some(Ended);
        }
        var ok, v, ack := Exchange(ctx, next);
        if !ok {
          return 0, Some(Broken);
        }
        if ack == OK {
          return v, None;
        }
        if ack != WAIT {
          st := LoseFraming(st);
          return 0, Some(Broken);
        }
        waits := waits + 1;
        ended := ctx.Err();
        if ended {
          return 0, Some(Ended);
        }
        if maxWaits != 0 && waits >= maxWaits {
          return 0, Some(Waited);
        }
      }
    }

    /** One request and the RDBUFF read that collects its result. Its outcome says how often
        the port accepted it, and a confirmed one returns its own result. */
    method Transfer(ctx: Ctx, req: Request) returns (r: Result)
      requires Valid() && ValidRequest(req)
      modifies this`st, chain`serial, chain`valid, chain`selected, chain.conn`state, chain.conn`serial, chain.conn.wire,
               ctx
      ensures Valid() && r.data < 0x1_0000_0000 && (st == old(st) || st.response.Lost?)
      ensures r.outcome.Confirmed? <==> r.cause.None?
      ensures r.outcome.Confirmed? ==>
                st == old(st) && Log() == old(Log()) + [Accept(req), Accept(RDBUFF)] &&
                r.data == dp.result(old(Log()) + [Accept(req)])
      ensures r.outcome.Unsent? ==> Log() == old(Log())
      ensures r.outcome.InFlight? ==> Log() == old(Log()) + [Accept(req)] && !st.response.Lost?
      ensures Exposed() ==> Log() == old(Log()) && (req.ap || old(Exposed()))
      ensures r.outcome.Indeterminate? ==>
                st.response.Lost? && (AtMost(old(Log()), req, Log()) ||
                                      Log() == old(Log()) + [Accept(req), Accept(RDBUFF)])
    {
      hide Sound, LoseFraming, Events, Speaks;
      LosesTrack(st);
      var ended := ctx.Err();
      if ended {
        return Result(0, Unsent, Some(Ended));
      }
      ghost var e := Log();
      var value, err := Poll(ctx, req);
      if err.Some? {
        return Result(0, if st.response.Lost? then Indeterminate else Unsent, err);
      }
      assert (e + [Accept(req)]) + [Accept(RDBUFF)] == e + [Accept(req), Accept(RDBUFF)];
      value, err := Poll(ctx, RDBUFF);
      if err.Some? {
        return Result(0, if st.response.Lost? then Indeterminate else InFlight, err);
      }
      return Result(value, Confirmed, None);
    }

    // ----- Debug-port registers and recovery -----

    method ReadDp(ctx: Ctx, addr: nat) returns (value: nat, err: Option<Cause>)
      requires Valid() && addr < 16 && addr % 4 == 0
      modifies this`st, chain`serial, chain`valid, chain`selected, chain.conn`state, chain.conn`serial, chain.conn.wire,
               ctx
      ensures Valid() && value < 0x1_0000_0000 && NoAp(old(Log()), Log()) && (st == old(st) || st.response.Lost?)
      ensures Exposed() ==> old(Exposed())
      ensures err.None? ==>
                var read := Accept(Request(false, true, addr, 0));
                value == dp.result(old(Log()) + [read]) && Log() == old(Log()) + [read, Accept(RDBUFF)]
    {
      hide Sound, Events, Speaks, Exposes;
      var r := Transfer(ctx, Request(false, true, addr, 0));
      value, err := r.data, r.cause;
    }

    method AbortPending(ctx: Ctx) returns (ok: bool)
      requires Valid()
      modifies this`st, this`abortRequired, chain`serial, chain`valid, chain`selected, chain.conn`state,
               chain.conn`serial, chain.conn.wire, ctx
      ensures Valid() && NoAp(old(Log()), Log())
      ensures Exposed() ==> old(Exposed())
      ensures ok ==> !abortRequired && Log() == old(Log()) + if old(abortRequired) then [Abort] else []
      ensures !ok ==> abortRequired && st.response.Lost?
    {
      hide Sound, Instruction, EventsOf, Events, Value, BitsOf, Speaks, DrCapture;
      if !abortRequired {
        return true;
      }
      var capture := Scan(ctx, ABORT, BitsOf(8, 35));
      ok := capture.Some?;
      if ok {
        abortRequired := false;
      }
    }

    /** Two RDBUFF reads: after them nothing of before is in the pipeline. */
    method Prime(ctx: Ctx) returns (err: Option<Cause>)
      requires Valid()
      modifies this`st, chain`serial, chain`valid, chain`selected, chain.conn`state, chain.conn`serial, chain.conn.wire,
               ctx
      ensures Valid() && NoAp(old(Log()), Log())
      ensures Exposed() ==> old(Exposed())
      ensures err.None? ==> st == old(st) && Log() == old(Log()) + [Accept(RDBUFF), Accept(RDBUFF)]
    {
      hide Sound, Events, Speaks, Exposes;
      var value;
      value, err := Poll(ctx, RDBUFF);
      if err.None? {
        value, err := Poll(ctx, RDBUFF);
      }
    }

    /** Writes CTRL/STAT, SELECT or ABORT. */
    method WriteDp(ctx: Ctx, addr: nat, value: nat) returns (err: Option<Cause>)
      requires Valid() && (addr == CTRLSTAT || addr == SELECT || addr == ABORT_REGISTER) && value < 0x1_0000_0000
      modifies this`st, this`abortRequired, chain`serial, chain`valid, chain`selected, chain.conn`state,
               chain.conn`serial, chain.conn.wire, ctx
      ensures Valid() && NoAp(old(Log()), Log())
      ensures Exposed() ==> old(Exposed())
      ensures err.None? && addr != ABORT_REGISTER ==>
                Log() == old(Log()) + [Accept(Request(false, false, addr, value)), Accept(RDBUFF)]
      ensures err.None? && addr == ABORT_REGISTER ==>
                Log() == old(Log()) + [Abort, Accept(RDBUFF), Accept(RDBUFF)] && !abortRequired
      ensures err.None? && addr == SELECT ==> st.select == DapPlan.Cached(value) && !st.pending
      ensures addr != ABORT_REGISTER ==> abortRequired == old(abortRequired)
    {
      hide Sound, Events, Speaks, Exposes;
      var ended := ctx.Err();
      if ended {
        return Some(Ended);
      }
      if addr == ABORT_REGISTER {
        st, abortRequired := InvalidateAp(st), true;
        var ok := AbortPending(ctx);
        if !ok {
          return Some(Broken);
        }
        err := Prime(ctx);
        return;
      }
      var r := Transfer(ctx, Request(false, false, addr, value));
      err := r.cause;
      if err.Some? {
        if r.outcome.InFlight? || r.outcome.Indeterminate? {
          st := LoseFraming(st);
        }
      } else if addr == SELECT {
        st := ConfirmSelect(RecordSelect(st, value));
      }
    }

    method ClearFault(ctx: Ctx, state: nat) returns (ok: bool)
      requires Valid() && state < 0x1_0000_0000
      modifies this`st, this`abortRequired, this`faultPending, chain`serial, chain`valid, chain`selected,
               chain.conn`state, chain.conn`serial, chain.conn.wire, ctx
      ensures Valid() && NoAp(old(Log()), Log()) && abortRequired == old(abortRequired)
      ensures Exposed() ==> old(Exposed())
      ensures ok == !faultPending && (!ok ==> st.session.RepairRequired?)
      ensures ok ==> |Log()| > |old(Log())| && !HasSticky(dp.result(Log()[..|Log()| - 1]))
    {
      hide Sound, Events, Speaks, Exposes;
      faultPending := true;
      var err := WriteDp(ctx, CTRLSTAT, state);
      if err.Some? {
        st := st.(session := RepairRequired);
        return false;
      }
      ghost var before := Log();
      var value;
      value, err := ReadDp(ctx, CTRLSTAT);
      assert err.None? ==> Log()[..|Log()| - 1] == before + [Accept(Request(false, true, CTRLSTAT, 0))];
      if err.Some? || HasSticky(value) {
        st := st.(session := RepairRequired);
        return false;
      }
      faultPending := false;
      ok := true;
    }

    method RepairFault(ctx: Ctx) returns (ok: bool)
      requires Valid()
      modifies this`st, this`abortRequired, this`faultPending, chain`serial, chain`valid, chain`selected,
               chain.conn`state, chain.conn`serial, chain.conn.wire, ctx
      ensures Valid() && NoAp(old(Log()), Log()) && abortRequired == old(abortRequired)
      ensures Exposed() ==> old(Exposed())
      ensures ok ==> !faultPending
      ensures old(faultPending) || (st == old(st) && ok && Log() == old(Log()))
    {
      hide Sound, Events, Speaks, Exposes;
      if !faultPending {
        return true;
      }
      var value, err := ReadDp(ctx, CTRLSTAT);
      if err.Some? {
        return false;
      }
      ok := ClearFault(ctx, value);
    }

    // ----- Protocol entry -----

    method PrimeEntry(ctx: Ctx) returns (ok: bool)
      requires Valid()
      modifies this`st, this`abortRequired, chain`serial, chain`valid, chain`selected, chain.conn`state,
               chain.conn`serial, chain.conn.wire, ctx
      ensures Valid() && NoAp(old(Log()), Log())
      ensures Exposed() ==> old(Exposed())
      ensures (ok ==> Drained(Log()) && (abortRequired ==> old(abortRequired))) && (!ok ==> abortRequired)
    {
      hide Sound, Events, Speaks, Exposes;
      var err := Prime(ctx);
      if err.None? {
        return true;
      }
      abortRequired := true;
      st := InvalidateAp(st);
      if !err.value.Waited? {
        return false;
      }
      ok := AbortPending(ctx);
      if ok {
        err := Prime(ctx);
        ok := err.None?;
        if !ok {
          abortRequired := true;
        }
      }
    }

    /** Validates the chain and checks that the port there is the one that was there before. */
    method Recognize(ctx: Ctx) returns (ok: bool)
      requires Valid()
      modifies this`st, this`tap, this`identity, chain`generation, chain`released, chain`serial, chain`valid,
               chain`selected, chain.conn`state, chain.conn`serial, chain.conn.wire, ctx
      ensures Valid()
      ensures ResetsOff(chain.conn.wire.env, index, ir) ==> Strayed()
      ensures ok ==>
                && identity.Some? && chain.layout[index].reset == IdCode(identity.value)
                && (old(identity.Some?) ==> identity == old(identity))
    {
      hide Sound, Events, Speaks, DrCapture, Resets, Value, BitsOf, Total, Exposes, Stray, Traced;
      ghost var d, e, was := chain.conn.wire.d, Log(), Exposed();
      st := BeginEntry(st);
      ok := chain.Connect(ctx, []);
      if ResetsOff(chain.conn.wire.env, index, ir) {
        TracedStray(dp, chain.conn.wire.env, index, ir, d, chain.conn.wire.d);
      }
      if !ok {
        st := LoseFraming(st);
        return;
      }
      var t := chain.Borrow(index);
      tap := t.value;
      ghost var e1, exposed := Log(), Exposed();
      var capture := Scan(ctx, IDCODE, BitsOf(0, 32));
      if ResetsOff(chain.conn.wire.env, index, ir) {
        StrayThen(e, was, e1, exposed, Log(), Exposed());
      }
      if capture.None? {
        return false;
      }
      var id := Value(capture.value);
      if chain.layout[index].reset != IdCode(id) || (identity.Some? && identity.value != id) {
        st := LoseFraming(st);
        return false;
      }
      identity := Some(id);
    }

    /** The port's part of an entry: an abort that is owed, two reads and SELECT zero. */
    method EmptyPipeline(ctx: Ctx) returns (ok: bool)
      requires Valid()
      modifies this`st, this`abortRequired, chain`serial, chain`valid, chain`selected, chain.conn`state,
               chain.conn`serial, chain.conn.wire, ctx
      ensures Valid() && NoAp(old(Log()), Log())
      ensures Exposed() ==> old(Exposed())
      ensures ok ==> ResponseKnown(st) && st.select == DapPlan.Cached(0) && !st.pending && !abortRequired
    {
      hide Sound, Events, Speaks, Exposes, Drained, LoseFraming;
      ok := AbortPending(ctx);
      if !ok {
        return;
      }
      ok := PrimeEntry(ctx);
      if ok {
        var err := WriteDp(ctx, SELECT, 0);
        ok := err.None?;
      }
      st := if ok then st.(response := SimpleResponse) else LoseFraming(st);
    }

    /** Enters the protocol and empties the port's pipeline. */
    method Enter(ctx: Ctx) returns (ok: bool)
      requires Valid()
      modifies this`st, this`tap, this`abortRequired, this`identity, chain`generation, chain`released, chain`serial,
               chain`valid, chain`selected, chain.conn`state, chain.conn`serial, chain.conn.wire, ctx
      ensures Valid()
      ensures ResetsOff(chain.conn.wire.env, index, ir) ==> Strayed()
      ensures ok ==>
                && ResponseKnown(st) && st.select == DapPlan.Cached(0) && !st.pending && !abortRequired
                && identity.Some? && chain.layout[index].reset == IdCode(identity.value)
                && (old(identity.Some?) ==> identity == old(identity))
    {
      hide Sound, Events, Speaks, DrCapture, Value, BitsOf, Total, Drained, LoseFraming, Exposes, Stray;
      ghost var e, was := Log(), Exposed();
      ok := Recognize(ctx);
      if !ok {
        return;
      }
      ghost var e1, exposed := Log(), Exposed();
      ok := EmptyPipeline(ctx);
      if ResetsOff(chain.conn.wire.env, index, ir) {
        StrayThen(e, was, e1, exposed, Log(), Exposed());
      }
    }

    method AbortNow(ctx: Ctx) returns (ok: bool)
      requires Valid()
      modifies this`st, this`abortRequired, chain`serial, chain`valid, chain`selected, chain.conn`state,
               chain.conn`serial, chain.conn.wire, ctx
      ensures Valid() && NoAp(old(Log()), Log())
      ensures Exposed() ==> old(Exposed())
    {
      hide Sound, Events, Speaks, Exposes;
      ok := AbortPending(ctx);
      if ok {
        var err := Prime(ctx);
        ok := err.None?;
      }
    }

    /** Gives up an access that may still be in flight. */
    method AbortAp() returns (ok: bool, ghost reentered: bool)
      requires Valid()
      modifies this`st, this`tap, this`abortRequired, this`faultPending, this`identity, chain`generation,
               chain`released, chain`serial, chain`valid, chain`selected, chain.conn`state, chain.conn`serial,
               chain.conn.wire
      ensures Valid() && (reentered <==> !old(ResponseKnown(st)))
      ensures !reentered ==> NoAp(old(Log()), Log())
      ensures ResetsOff(chain.conn.wire.env, index, ir) ==> Strayed()
    {
      hide Sound, Events, Speaks, Exposes, Stray;
      var known := ResponseKnown(st);
      reentered := !known;
      st := InvalidateAp(st);
      abortRequired, faultPending := true, true;
      var budget: nat := *;
      var ctx := new Ctx(budget);
      ghost var e, was := Log(), Exposed();
      if !known {
        ok := Enter(ctx);
      } else {
        ok := AbortNow(ctx);
        StrayNone(e, was, Log(), Exposed());
      }
      if ok {
        ghost var e1, exposed := Log(), Exposed();
        ok := RepairFault(ctx);
        if ResetsOff(chain.conn.wire.env, index, ir) {
          StrayThen(e, was, e1, exposed, Log(), Exposed());
        }
      }
      if !ok {
        st := LoseFraming(st);
      }
    }

    /** Looks for a fault of a completed access; the result of a read survives one. */
    method CheckFault(ctx: Ctx, req: Request, done: Result) returns (r: Result, ghost reentered: bool)
      requires Valid() && done.outcome.Confirmed? && done.cause.None?
      modifies this`st, this`tap, this`abortRequired, this`faultPending, this`identity, chain`generation,
               chain`released, chain`serial, chain`valid, chain`selected, chain.conn`state, chain.conn`serial,
               chain.conn.wire, ctx
      ensures Valid() && r.data == done.data && (r.outcome.Confirmed? || r.outcome.Indeterminate?)
      ensures r.outcome.Confirmed? ==> !reentered && (r.cause.Some? ==> req.read)
      ensures !reentered ==> NoAp(old(Log()), Log())
      ensures ResetsOff(chain.conn.wire.env, index, ir) ==> Strayed()
      ensures r.cause.None? ==>
                var read := Accept(Request(false, true, CTRLSTAT, 0));
                r.outcome.Confirmed? && Log() == old(Log()) + [read, Accept(RDBUFF)] &&
                !HasSticky(dp.result(old(Log()) + [read]))
    {
      hide Sound, Events, Speaks, Exposes, Stray;
      r, reentered := done, false;
      ghost var e, was := Log(), Exposed();
      var state, err := ReadDp(ctx, CTRLSTAT);
      ghost var e1, exposed := Log(), Exposed();
      StrayNone(e, was, e1, exposed);
      if err.Some? {
        r := r.(outcome := Indeterminate, cause := err);
        var aborted;
        aborted, reentered := AbortAp();
        if ResetsOff(chain.conn.wire.env, index, ir) {
          StrayMore(e, was, e1, exposed, Log(), Exposed());
        }
        return;
      }
      if HasSticky(state) {
        r := r.(outcome := if req.read then Confirmed else Indeterminate, cause := Some(Sticky));
        var budget: nat := *;
        var cleanup := new Ctx(budget);
        var cleared := ClearFault(cleanup, state);
        StrayThen(e, was, e1, exposed, Log(), Exposed());
      }
    }

    /** One access-port access with its fault check. Unless framing was lost and the
        protocol entered again, the port has accepted the access as the outcome says:
        not at all, once, or at most once; and a confirmed one returns its own result. */
    method AccessAp(ctx: Ctx, req: Request) returns (r: Result, ghost mid: seq<Event>, ghost reentered: bool)
      requires Valid() && ValidRequest(req) && req.ap
      modifies this`st, this`tap, this`abortRequired, this`faultPending, this`identity, chain`generation,
               chain`released, chain`serial, chain`valid, chain`selected, chain.conn`state, chain.conn`serial,
               chain.conn.wire, ctx
      ensures Valid() && NoAp(old(Log()), mid)
      ensures r.outcome.Unsent? ==> NoAp(old(Log()), Log())
      ensures r.outcome.Confirmed? ==> !reentered && r.data == dp.result(mid + [Accept(req)])
      ensures !reentered && (r.outcome.Confirmed? || r.outcome.InFlight?) ==> NoAp(mid + [Accept(req)], Log())
      ensures !reentered && r.outcome.Indeterminate? ==> NoAp(mid, Log()) || NoAp(mid + [Accept(req)], Log())
      ensures ResetsOff(chain.conn.wire.env, index, ir) ==> AtMostOne(old(Log()), Log())
      ensures reentered ==> r.outcome.InFlight? || r.outcome.Indeterminate?
      ensures r.outcome.Confirmed? && r.cause.Some? ==> req.read
      ensures r.cause.None? ==>
                var read, sent := Accept(Request(false, true, CTRLSTAT, 0)), mid + [Accept(req), Accept(RDBUFF)];
                r.outcome.Confirmed? && Log() == sent + [read, Accept(RDBUFF)] && !HasSticky(dp.result(sent + [read]))
    {
      hide Sound, Events, Speaks, Exposes, Stray;
      reentered := false;
      var ok := RepairFault(ctx);
      mid := Log();
      if !ok {
        return Result(0, Unsent, Some(Broken)), mid, false;
      }
      r := Transfer(ctx, req);
      ghost var e1, exposed := Log(), Exposed();
      if r.cause.Some? {
        if r.outcome.InFlight? || r.outcome.Indeterminate? {
          var aborted;
          aborted, reentered := AbortAp();
          if ResetsOff(chain.conn.wire.env, index, ir) {
            OneAccess(old(Log()), mid, e1, exposed, Log(), Exposed());
          }
        }
        return;
      }
      r, reentered := CheckFault(ctx, req, r);
      if ResetsOff(chain.conn.wire.env, index, ir) {
        OneAccess(old(Log()), mid, e1, exposed, Log(), Exposed());
      }
    }
  }

  /** Nothing sent before the last two RDBUFF reads is still in the pipeline. */
  ghost predicate Drained(log: seq<Event>) {
    |log| >= 2 && log[|log| - 2..] == [Accept(RDBUFF), Accept(RDBUFF)]
  }

  /** The history goes on with one update of the port's register, and means just that. */
  ghost predicate Meant(dp: Dp, k: nat, ir: nat, h0: seq<Update>, h: seq<Update>, code: nat, data: seq<bool>)
    requires IrWidth(ir)
  {
    && |h| == |h0| + 1 && h[..|h0|] == h0
    && Events(dp, k, ir, h, |h|) == Events(dp, k, ir, h0, |h0|) + Meaning(dp, h0, code, data)
  }

  /** What shifting `data` in under `code` does. */
  function Meaning(dp: Dp, before: seq<Update>, code: nat, data: seq<bool>): seq<Event> {
    if code == ABORT then [Abort]
    else if code == DPACC || code == APACC then
      if dp.ack(before) == WAIT then [] else [Accept(Decode(code == APACC, Value(data)))]
    else []
  }

  lemma {:induction false} ScanMeant(dp: Dp, env: Env, d: Device, h: seq<Update>, k: nat, ir: nat, code: nat,
                                     data: seq<bool>)
    requires Sound(env, d) && IrWidth(ir) && IsCode(code) && k < |env.ir| && d.instructions[k] == Instruction(code, ir)
    requires Extended(env, d, h, k, data)
    ensures Meant(dp, k, ir, d.hist, h, code, data)
  {
    hide Value, Instruction;
    var u := h[|d.hist|];
    assert h == d.hist + [u];
    EventsMore(dp, k, ir, d.hist, u);
    Distinguished(code, ABORT, ir);
    Distinguished(code, DPACC, ir);
    Distinguished(code, APACC, ir);
  }

  lemma {:induction false} ExtendedMore(env: Env, d: Device, e: Device, k: nat, data: seq<bool>)
    requires Sound(env, d) && Updated(env, d, e, k, data)
    ensures e.hist != d.hist && Extended(env, d, e.hist, k, data)
  {
  }

  const CTRLSTAT := 0x04
  const SELECT := 0x08
  const ABORT_REGISTER := 0x00

  predicate HasSticky(ctrl: nat) {
    ctrl / 2 % 2 == 1 || ctrl / 16 % 2 == 1 || ctrl / 32 % 2 == 1
  }

  /** The events go on from `e0` without an access-port request. */
  ghost predicate NoAp(e0: seq<Event>, e: seq<Event>) {
    e0 <= e && forall i :: |e0| <= i < |e| ==> !IsAp(e[i])
  }

  lemma {:induction false} LosesTrack(st: PortState)
    ensures LoseFraming(st).response.Lost?
  {
  }

  lemma {:induction false} WordBound(bits: seq<bool>)
    requires |bits| == 35
    ensures Value(bits) / 8 < 0x1_0000_0000
  {
    hide Pow2, Value;
    Pow35();
  }
}
