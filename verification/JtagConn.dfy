/** A JTAG connection: clocking in bounded pieces, movement and scans. */
module JtagConn {
  import opened Options
  import opened Contexts
  import opened Rows
  import opened JtagTap
  import opened JtagDevice
  import opened JtagTrace

  const MAX_SCAN_BITS := 0x10_0000

  /** The wire to a chain. A failed call has clocked any number of its bits. */
  class Wire {
    const env: Env
    const limit: int
    var d: Device

    constructor (env: Env, limit: int, d: Device)
      ensures this.env == env && this.limit == limit && this.d == d
    {
      this.env, this.limit, this.d := env, limit, d;
    }

    method Io(tms: seq<bool>, tdi: seq<bool>) returns (ok: bool, tdo: seq<bool>, ghost m: nat)
      requires Sound(env, d) && |tms| == |tdi|
      modifies this
      ensures m <= |tms| && d == Clock(env, old(d), tms, tdi, m)
      ensures ok ==> m == |tms| && tdo == Out(env, old(d), tms, tdi, |tms|)
    {
      hide Sound, Tick, Tdo;
      tdo, m := [], 0;
      for i := 0 to |tms|
        invariant m == i && d == Clock(env, old(d), tms, tdi, i) && tdo == Out(env, old(d), tms, tdi, i)
      {
        var fails: bool := *;
        if fails {
          return false, [], i;
        }
        tdo := tdo + [Tdo(d, tdi[i])];
        d := Tick(env, d, tms[i], tdi[i]);
        m := i + 1;
      }
      ok := true;
    }
  }

  datatype Host = Unknown | At(state: State)

  lemma {:induction false} ClockStaysSound(env: Env, d: Device, tms: seq<bool>, tdi: seq<bool>, n: nat)
    requires Sound(env, d) && n <= |tms| == |tdi|
    ensures Sound(env, Clock(env, d, tms, tdi, n))
  {
  }

  class Conn {
    const wire: Wire
    var state: Host
    var serial: nat

    constructor (wire: Wire)
      requires Sound(wire.env, wire.d)
      ensures Valid() && this.wire == wire && state == Unknown
    {
      this.wire, state, serial := wire, Unknown, 0;
    }

    /** A known state is the chain's own. */
    ghost predicate Valid()
      reads this, wire
    {
      Sound(wire.env, wire.d) && (state.At? ==> wire.d.state == state.state)
    }

    method Validate(ctx: Ctx) returns (ok: bool)
      modifies ctx
      ensures ctx.budget <= old(ctx.budget)
      ensures ok ==> wire.limit > 0 && ctx.budget < old(ctx.budget)
      ensures !ok ==> wire.limit <= 0 || ctx.budget == old(ctx.budget) == 0
    {
      var ended := ctx.Err();
      ok := !ended && wire.limit > 0;
    }

    /** Follows the controller through `tms`, if its state is known. */
    method Track(tms: seq<bool>)
      modifies this`state
      ensures state == if old(state.At?) then At(Walk(old(state.state), tms, |tms|)) else Unknown
    {
      for i := 0 to |tms|
        invariant state == if old(state.At?) then At(Walk(old(state.state), tms, i)) else Unknown
      {
        if state.At? {
          state := At(Next(state.state, tms[i]));
        }
      }
    }

    /** Clocks `tms` and `tdi` in pieces of at most the wire's limit. The result and the
        effect are those of one exchange, whatever the limit. */
    method ClockIn(ctx: Ctx, tms: seq<bool>, tdi: seq<bool>) returns (out: Option<seq<bool>>, ghost m: nat)
      requires Valid() && |tms| == |tdi|
      modifies this`state, this`serial, wire, ctx
      ensures Valid() && m <= |tms| && wire.d == Clock(wire.env, old(wire.d), tms, tdi, m)
      ensures ctx.budget <= old(ctx.budget)
      ensures serial >= old(serial) && (serial == old(serial) ==> m == 0 && state == old(state))
      ensures out.Some? ==> m == |tms| && out.value == Out(wire.env, old(wire.d), tms, tdi, |tms|)
      ensures out.Some? && old(state.At?) ==> state.At?
    {
      hide Sound, Clock, Out, Next;
      m := 0;
      ghost var env, d0 := wire.env, wire.d;
      ClockNone(env, d0, tms, tdi);
      var ok := Validate(ctx);
      if !ok {
        return None, 0;
      }
      var output: seq<bool> := [];
      while |output| < |tms|
        invariant m == |output| <= |tms| && Valid() && serial >= old(serial)
        invariant wire.d == Clock(env, d0, tms, tdi, m) && output == Out(env, d0, tms, tdi, m)
        invariant serial == old(serial) ==> m == 0
        invariant ctx.budget <= old(ctx.budget)
        invariant (m == 0 ==> state == old(state)) && (old(state.At?) ==> state.At?)
        decreases |tms| - |output|
      {
        var ended := ctx.Err();
        if ended {
          return None, m;
        }
        var start := |output|;
        var n := if wire.limit < |tms| - start then wire.limit else |tms| - start;
        var end := start + n;
        var ms, di := tms[start..end], tdi[start..end];
        var tdo;
        ghost var k;
        ok, tdo, k := wire.Io(ms, di);
        serial := serial + 1;
        ClockStaysSound(env, Clock(env, d0, tms, tdi, start), ms, di, k);
        ClockParts(env, d0, tms, tdi, start, end, k);
        m := start + k;
        if !ok {
          state := Unknown;
          return None, m;
        }
        output := output + tdo;
        ClockWalks(env, Clock(env, d0, tms, tdi, start), ms, di, n);
        Track(ms);
      }
      return Some(output), m;
    }

    /** Five clocks with TMS high lead to Reset from anywhere. A data scan that was left
        open is updated at most once on the way. */
    method ResetTaps(ctx: Ctx) returns (ok: bool)
      requires Valid()
      modifies this`state, this`serial, wire, ctx
      ensures Closing(old(wire.d), wire.d)
      ensures Valid() && serial >= old(serial) &&
              (serial == old(serial) ==> wire.d == old(wire.d) && state == old(state))
      ensures ok ==> state == At(Reset)
    {
      hide Sound, Clock, Out, Next;
      ghost var d0 := wire.d;
      ok := Validate(ctx);
      if !ok {
        return;
      }
      var out, m := ClockIn(ctx, Ones(5), Zeros(5));
      ClockNone(wire.env, d0, Ones(5), Zeros(5));
      ClosingRun(wire.env, d0, m, 5);
      ok := out.Some?;
      if ok {
        ClockWalks(wire.env, d0, Ones(5), Zeros(5), 5);
        FiveOnes(d0.state);
        state := At(Reset);
      }
    }

    /** Takes a shortest path to `target`, which does not enter Reset unless asked to. */
    method Move(ctx: Ctx, target: State) returns (ok: bool, ghost path: seq<bool>, ghost m: nat)
      requires Valid()
      modifies this`state, this`serial, wire, ctx
      ensures Valid() && serial >= old(serial) &&
              (serial == old(serial) ==> wire.d == old(wire.d) && state == old(state))
      ensures ctx.budget <= old(ctx.budget)
      ensures m <= |path| && wire.d == Clock(wire.env, old(wire.d), path, Zeros(|path|), m)
      ensures ok || m > 0 ==> old(state.At?) && Shortest(old(state.state), path, target)
      ensures ok ==> state == At(target) && m == |path|
    {
      hide Sound, Clock, Out, Leads;
      path, m := [], 0;
      ghost var d0 := wire.d;
      ClockNone(wire.env, d0, [], Zeros(0));
      ok := Validate(ctx);
      if !ok || state.Unknown? {
        return false, [], 0;
      }
      var bits := Path(state.state, target);
      path := bits;
      var out;
      out, m := ClockIn(ctx, bits, Zeros(|bits|));
      ClockNone(wire.env, d0, path, Zeros(|path|));
      ok := out.Some?;
      if ok {
        ClockWalks(wire.env, d0, path, Zeros(|path|), |path|);
        LeadsThere(d0.state, path, target);
      }
    }

    /** What a completed scan did: it entered Idle, and from there captured, shifted all
        of `data` and updated. */
    ghost predicate Scanned(ir: bool, data: seq<bool>, d0: Device, d1: Device, capture: seq<bool>)
      reads this, wire
    {
      && Sound(wire.env, d0) && Sound(wire.env, d1) && d1.state.Idle? && Entered(wire.env, d0, d1)
      && wire.d == Scan(wire.env, d1, ir, data)
      && capture == (Captured(wire.env, d1, ir) + data)[..|data|]
    }

    /** Captures, shifts and updates one register row. A capture means that the scan and
        the way back to Idle are complete, even if the caller's context has ended. */
    method ScanRow(ctx: Ctx, data: seq<bool>, bits: int, ir: bool)
      returns (capture: Option<seq<bool>>, err: bool, ghost d1: Device)
      requires Valid()
      modifies this`state, this`serial, wire, ctx
      ensures Valid() && serial >= old(serial) &&
              (serial == old(serial) ==> wire.d == old(wire.d) && state == old(state))
      ensures ctx.budget <= old(ctx.budget)
      ensures capture.None? ==> err
      ensures capture.Some? ==>
                && 0 < bits <= MAX_SCAN_BITS && bits <= |data| && state == At(Idle) && serial > old(serial)
                && Scanned(ir, data[..bits], old(wire.d), d1, capture.value)
      ensures old(state) == At(Idle) ==> Partway(old(wire.d), wire.d, ir)
      ensures old(state) == At(Reset) ==> Traced(wire.env, old(wire.d), wire.d)
      ensures old(state) == At(Idle) && 0 < bits <= |data| ==>
                UpdatedAtMost(wire.env, old(wire.d), wire.d, ir, data[..bits])
      ensures !(0 < bits <= |data|) ==> wire.d == old(wire.d)
    {
      hide Sound, Clock, Out, Scan, Captured, FromIdle;
      d1 := wire.d;
      var ok := Validate(ctx);
      if !ok || bits <= 0 || bits > MAX_SCAN_BITS || |data| < bits {
        return None, true, d1;
      }
      var before := serial;
      var budget: nat := *;
      var completion := new Ctx(budget);
      capture, d1 := Complete(completion, data[..bits], ir);
      err := capture.None?;
      if err && serial != before {
        state := Unknown;
      }
      var ended := ctx.Err();
      err := err || ended;
    }

    /** The movements of a scan, under a context of their own. */
    method Complete(ctx: Ctx, data: seq<bool>, ir: bool) returns (capture: Option<seq<bool>>, ghost d1: Device)
      requires Valid() && data != []
      modifies this`state, this`serial, wire, ctx
      ensures Valid() && serial >= old(serial) &&
              (serial == old(serial) ==> wire.d == old(wire.d) && state == old(state))
      ensures capture.Some? ==>
                state == At(Idle) && serial > old(serial) && Scanned(ir, data, old(wire.d), d1, capture.value)
      ensures old(state) == At(Idle) ==> Partway(old(wire.d), wire.d, ir)
      ensures old(state) == At(Reset) ==> Traced(wire.env, old(wire.d), wire.d)
      ensures old(state) == At(Idle) ==> UpdatedAtMost(wire.env, old(wire.d), wire.d, ir, data)
    {
      hide Sound, Clock, Out, Scan, Captured, FromIdle, Shortest;
      ghost var d0, env := wire.d, wire.env;
      d1 := d0;
      var ok, path, m := Move(ctx, Idle);
      if d0.state.Idle? {
        StayedPut(env, d0, ok, path, m);
      }
      if d0.state.Reset? {
        OutOfReset(env, d0, ok, path, m);
      }
      if !ok {
        return None, d1;
      }
      d1 := wire.d;
      EnteredBy(env, d0, path, d1);
      capture := FromRest(ctx, data, ir);
      if d0.state.Reset? {
        PartwayTraced(env, d1, wire.d, ir);
        TracedMore(env, d0, d1, wire.d);
      }
    }

    /** The same from Idle. */
    method FromRest(ctx: Ctx, data: seq<bool>, ir: bool) returns (capture: Option<seq<bool>>)
      requires Valid() && data != [] && state == At(Idle)
      modifies this`state, this`serial, wire, ctx
      ensures Valid() && serial >= old(serial) &&
              (serial == old(serial) ==> wire.d == old(wire.d) && state == old(state))
      ensures capture.Some? ==>
                && state == At(Idle) && serial > old(serial) && wire.d == Scan(wire.env, old(wire.d), ir, data)
                && capture.value == (Captured(wire.env, old(wire.d), ir) + data)[..|data|]
      ensures Partway(old(wire.d), wire.d, ir)
      ensures UpdatedAtMost(wire.env, old(wire.d), wire.d, ir, data)
    {
      hide Sound, Clock, Out, Scan, Captured, FromIdle, Shortest;
      ghost var d, env := wire.d, wire.env;
      var ok, path, m := Move(ctx, if ir then ShiftIr else ShiftDr);
      EntryPart(env, d, ir, ok, path, m);
      EntryPartway(env, d, ir, ok, path, m);
      if !ok {
        return None;
      }
      var tms := seq(|data|, i => i == |data| - 1);
      ghost var e := wire.d;
      capture, m := ClockIn(ctx, tms, data);
      ShiftPart(env, d, e, ir, tms, data, m);
      ShiftPartway(env, d, e, ir, tms, data, m);
      if capture.None? {
        return;
      }
      ghost var f := wire.d;
      ScanSteps(env, d, ir, data, tms);
      ok, path, m := Move(ctx, Idle);
      ExitPart(env, d, f, ir, data, ok, path, m);
      ExitPartway(env, d, f, ir, ok, path, m);
      if !ok {
        return None;
      }
    }

    /** Run-Test/Idle for a number of clocks. */
    method RunIdle(ctx: Ctx, cycles: int) returns (ok: bool)
      requires Valid()
      modifies this`state, this`serial, wire, ctx
      ensures Valid() && serial >= old(serial) &&
              (serial == old(serial) ==> wire.d == old(wire.d) && state == old(state))
      ensures ok && cycles != 0 ==> state == At(Idle)
      ensures ok && old(state) == At(Idle) ==> wire.d == old(wire.d) && state == At(Idle)
    {
      hide Sound, Clock, Out, Next;
      ok := Validate(ctx);
      if !ok || cycles < 0 || cycles > MAX_SCAN_BITS {
        return false;
      }
      if cycles == 0 {
        return;
      }
      ghost var d0, path, k := wire.d, [], 0;
      ok, path, k := Move(ctx, Idle);
      if !ok {
        return;
      }
      if d0.state.Idle? {
        StayPath(path);
        ClockNone(wire.env, d0, path, Zeros(|path|));
      }
      ghost var d1 := wire.d;
      var out, m := ClockIn(ctx, Zeros(cycles), Zeros(cycles));
      IdleClocks(wire.env, d1, Zeros(cycles), Zeros(cycles), m);
      ok := out.Some?;
    }
  }

  lemma {:induction false} FiveOnes(s: State)
    ensures Walk(s, Ones(5), 5).Reset?
  {
    hide Walk;
    WalkBits(s, Ones(5));
  }

  ghost predicate Shortest(s: State, path: seq<bool>, to: State) {
    Leads(s, path, to) && forall w :: Leads(s, w, to) ==> |path| <= |w|
  }

  lemma {:induction false} LeadsThere(s: State, path: seq<bool>, to: State)
    requires Leads(s, path, to)
    ensures Walk(s, path, |path|) == to
  {
    hide Walk;
  }

  /** The controller was led from `d0` to `d1` by a shortest path with TDI low. */
  ghost predicate Entered(env: Env, d0: Device, d1: Device)
    requires Sound(env, d0)
  {
    exists path :: Shortest(d0.state, path, d1.state) && d1 == Clock(env, d0, path, Zeros(|path|), |path|)
  }

  lemma {:induction false} EnteredBy(env: Env, d0: Device, path: seq<bool>, d1: Device)
    requires Sound(env, d0) && Shortest(d0.state, path, d1.state) && d1 == Clock(env, d0, path, Zeros(|path|), |path|)
    ensures Entered(env, d0, d1)
  {
  }

  /** There is only one shortest way from Idle into a shift state, and one way back. */
  lemma {:induction false} EntryPath(path: seq<bool>, ir: bool)
    requires Shortest(Idle, path, if ir then ShiftIr else ShiftDr)
    ensures path == FromIdle(if ir then ShiftIr else ShiftDr)
  {
    hide Walk;
    var to := if ir then ShiftIr else ShiftDr;
    FromIdleLeads(to);
    WalkBits(Idle, path);
  }

  lemma {:induction false} ExitPath(path: seq<bool>, from: State)
    requires Shortest(from, path, Idle) && (from.Exit1Ir? || from.Exit1Dr?)
    ensures path == [true, false]
  {
    hide Walk;
    ToIdleLeads(from);
    WalkBits(from, path);
  }

  lemma {:induction false} StayPath(path: seq<bool>)
    requires Shortest(Idle, path, Idle)
    ensures path == []
  {
    hide Walk;
    ToIdleLeads(Idle);
  }

  lemma {:induction false} IdleClocks(env: Env, d: Device, tms: seq<bool>, tdi: seq<bool>, n: nat)
    requires Sound(env, d) && d.state.Idle? && n <= |tms| == |tdi| && forall i :: 0 <= i < |tms| ==> !tms[i]
    ensures Clock(env, d, tms, tdi, n) == d
  {
    hide Sound, Clock, Out;
    if n == 0 {
      ClockNone(env, d, tms, tdi);
    } else {
      IdleClocks(env, d, tms, tdi, n - 1);
      ClockNext(env, d, tms, tdi, n);
    }
  }

  /** Whatever part of a scan from Idle was clocked, the data registers are as before, or
      they have had the one update of the whole scan. */
  ghost predicate UpdatedAtMost(env: Env, d: Device, e: Device, ir: bool, data: seq<bool>)
    requires Sound(env, d)
  {
    e.hist == d.hist || e.hist == Scan(env, d, ir, data).hist
  }

  lemma {:induction false} StayedPut(env: Env, d: Device, ok: bool, path: seq<bool>, m: nat)
    requires Sound(env, d) && m <= |path| && (ok || m > 0 ==> Shortest(Idle, path, Idle))
    ensures Clock(env, d, path, Zeros(|path|), m) == d
  {
    hide Sound, Clock, Out, Shortest;
    ClockNone(env, d, path, Zeros(|path|));
    if ok || m > 0 {
      StayPath(path);
    }
  }

  lemma {:induction false} EntryPart(env: Env, d: Device, ir: bool, ok: bool, path: seq<bool>, m: nat)
    requires Sound(env, d) && d.state.Idle? && m <= |path|
    requires ok || m > 0 ==> Shortest(Idle, path, if ir then ShiftIr else ShiftDr)
    ensures Clock(env, d, path, Zeros(|path|), m).hist == d.hist
    ensures ok ==> path == FromIdle(if ir then ShiftIr else ShiftDr)
  {
    hide Sound, Clock, Out, Shortest, Flat, Lens;
    ClockNone(env, d, path, Zeros(|path|));
    if ok || m > 0 {
      EntryPath(path, ir);
      ClockFour(env, d, path, Zeros(|path|));
    }
  }

  lemma {:induction false} ShiftPart(env: Env, d: Device, e: Device, ir: bool, tms: seq<bool>, data: seq<bool>, m: nat)
    requires Sound(env, d) && d.state.Idle? && m <= |tms| == |data| &&
             forall i :: 0 <= i < |tms| ==> tms[i] == (i == |tms| - 1)
    requires var path := FromIdle(if ir then ShiftIr else ShiftDr); e == Clock(env, d, path, Zeros(|path|), |path|)
    ensures Clock(env, e, tms, data, m).hist == d.hist
  {
    hide Sound, Clock, Out, FromIdle;
    Enter(env, d, ir);
    ShiftRun(env, e, tms, data, m);
  }

  lemma {:induction false} ExitPart(env: Env, d: Device, f: Device, ir: bool, data: seq<bool>, ok: bool,
                                    path: seq<bool>, m: nat)
    requires Sound(env, d) && Sound(env, f) && m <= |path| && (ok || m > 0 ==> Shortest(f.state, path, Idle))
    requires f.hist == d.hist && (f.state.Exit1Ir? || f.state.Exit1Dr?)
    requires Clock(env, f, [true, false], Zeros(2), 2) == Scan(env, d, ir, data)
    ensures UpdatedAtMost(env, d, Clock(env, f, path, Zeros(|path|), m), ir, data)
    ensures ok ==> path == [true, false]
  {
    hide Sound, Clock, Out, Shortest, Scan, Parts;
    ClockNone(env, f, path, Zeros(|path|));
    if ok || m > 0 {
      ExitPath(path, f.state);
      ClockFour(env, f, path, Zeros(|path|));
    }
  }

  lemma {:induction false} EntryPartway(env: Env, d: Device, ir: bool, ok: bool, path: seq<bool>, m: nat)
    requires Sound(env, d) && d.state.Idle? && m <= |path|
    requires ok || m > 0 ==> Shortest(Idle, path, if ir then ShiftIr else ShiftDr)
    ensures Partway(d, Clock(env, d, path, Zeros(|path|), m), ir)
  {
    hide Sound, Clock, Out, Shortest, Flat, Lens;
    ClockNone(env, d, path, Zeros(|path|));
    if ok || m > 0 {
      EntryPath(path, ir);
      ClockFour(env, d, path, Zeros(|path|));
    }
  }

  lemma {:induction false} ShiftPartway(env: Env, d: Device, e: Device, ir: bool, tms: seq<bool>, data: seq<bool>,
                                        m: nat)
    requires Sound(env, d) && d.state.Idle? && m <= |tms| == |data| &&
             forall i :: 0 <= i < |tms| ==> tms[i] == (i == |tms| - 1)
    requires var path := FromIdle(if ir then ShiftIr else ShiftDr); e == Clock(env, d, path, Zeros(|path|), |path|)
    ensures Partway(d, Clock(env, e, tms, data, m), ir)
    ensures Clock(env, e, tms, data, m).instructions == d.instructions
  {
    hide Sound, Clock, Out, FromIdle;
    Enter(env, d, ir);
    ShiftRun(env, e, tms, data, m);
  }

  lemma {:induction false} ExitPartway(env: Env, d: Device, f: Device, ir: bool, ok: bool, path: seq<bool>, m: nat)
    requires Sound(env, d) && Sound(env, f) && m <= |path| && (ok || m > 0 ==> Shortest(f.state, path, Idle))
    requires f.hist == d.hist && f.instructions == d.instructions && f.state == (if ir then Exit1Ir else Exit1Dr)
    ensures Partway(d, Clock(env, f, path, Zeros(|path|), m), ir)
  {
    hide Sound, Clock, Out, Shortest, Parts;
    ClockNone(env, f, path, Zeros(|path|));
    if ok || m > 0 {
      ExitPath(path, f.state);
      ClockFour(env, f, path, Zeros(|path|));
    }
  }

  /** From Reset the way to Idle is one clock, which leaves the reset instructions. */
  lemma {:induction false} OutOfReset(env: Env, d: Device, ok: bool, path: seq<bool>, m: nat)
    requires Sound(env, d) && d.state.Reset? && m <= |path| && (ok || m > 0 ==> Shortest(Reset, path, Idle)) &&
             (ok ==> m == |path|)
    ensures var e := Clock(env, d, path, Zeros(|path|), m);
            && Traced(env, d, e) && !DrPath(e.state) && (ok ==> e == d.(state := Idle, instructions := env.reset))
  {
    hide Sound, Clock, Out, Walk;
    ClockNone(env, d, path, Zeros(|path|));
    if ok || m > 0 {
      ToIdleLeads(Reset);
      WalkBits(Reset, path);
      ClockNext(env, d, path, Zeros(|path|), 1);
    }
  }
}
