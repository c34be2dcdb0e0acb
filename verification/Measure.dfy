/** Measuring the total length of the instruction registers. */
module JtagMeasure {
  import opened Options
  import opened Contexts
  import opened Rows
  import opened JtagTap
  import opened JtagDevice
  import opened JtagConn
  import opened JtagTrace

  /** The only zero of `output` is at `n`, and not before the shortest chain ends. */
  ghost predicate Marker(output: seq<bool>, n: nat) {
    2 <= n < |output| && !output[n] && forall i :: 0 <= i < |output| && i != n ==> output[i]
  }

  /** Finds the marker, if there is exactly one and it is in a possible place. */
  method MarkerLength(output: seq<bool>) returns (length: Option<nat>)
    ensures length.Some? ==> Marker(output, length.value)
    ensures forall n: nat :: Marker(output, n) ==> length == Some(n)
  {
    var n := 0;
    for i := 0 to |output|
      invariant n == 0 ==> forall j :: 0 <= j < i ==> output[j]
      invariant n != 0 ==> 2 <= n < i && !output[n] && forall j :: 0 <= j < i && j != n ==> output[j]
    {
      if !output[i] {
        if n != 0 || i < 2 {
          return None;
        }
        n := i;
      }
    }
    length := if n == 0 then None else Some(n);
  }

  /** Every TAP holds BYPASS. */
  ghost predicate Parked(env: Env, d: Device)
    requires Sound(env, d)
  {
    forall i :: 0 <= i < |env.ir| ==> Bypass(env, d.instructions[i], i)
  }

  function MarkerBits(maxBits: nat): (s: seq<bool>)
    ensures |s| == maxBits + 1
  {
    [false] + Ones(maxBits)
  }

  /** Measures the chain. If the bound holds, the result is the chain's length and every
      instruction bit is one afterwards. */
  method MeasureIr(c: Conn, ctx: Ctx, maxBits: int) returns (length: Option<nat>, ghost complete: bool)
    requires c.Valid()
    modifies c`state, c`serial, c.wire, ctx
    ensures c.Valid() && c.serial >= old(c.serial) &&
            (c.serial == old(c.serial) ==> c.wire.d == old(c.wire.d) && c.state == old(c.state))
    ensures old(c.state) == At(Idle) ==> Partway(old(c.wire.d), c.wire.d, true)
    ensures length.Some? ==> complete
    ensures complete ==> 2 <= maxBits <= 65536 && c.state == At(Idle)
    ensures complete && 2 <= Total(c.wire.env.ir, |c.wire.env.ir|) <= maxBits ==>
              length == Some(Total(c.wire.env.ir, |c.wire.env.ir|)) && Parked(c.wire.env, c.wire.d)
  {
    hide Sound, Clock, Out, FromIdle, Total, Parked, Shortest, Marker;
    complete := false;
    var ok := c.Validate(ctx);
    if !ok || maxBits < 2 || maxBits > 65536 {
      return None, false;
    }
    ghost var path, m, d0 := [], 0, c.wire.d;
    ok, path, m := c.Move(ctx, Idle);
    if d0.state.Idle? {
      StayedPut(c.wire.env, d0, ok, path, m);
    }
    if !ok {
      return None, false;
    }
    var out := MarkIr(c, ctx, maxBits);
    if out.Some? {
      complete := true;
      length := MarkerLength(out.value);
    } else {
      length := None;
    }
  }

  /** Flushes ones in and lets a zero through, from Idle and back. */
  method MarkIr(c: Conn, ctx: Ctx, maxBits: nat) returns (out: Option<seq<bool>>)
    requires c.Valid() && c.state == At(Idle)
    modifies c`state, c`serial, c.wire, ctx
    ensures c.Valid() && c.serial >= old(c.serial) &&
            (c.serial == old(c.serial) ==> c.wire.d == old(c.wire.d) && c.state == old(c.state))
    ensures Partway(old(c.wire.d), c.wire.d, true)
    ensures out.Some? ==> c.state == At(Idle)
    ensures out.Some? && 2 <= Total(c.wire.env.ir, |c.wire.env.ir|) <= maxBits ==>
              Marker(out.value, Total(c.wire.env.ir, |c.wire.env.ir|)) && Parked(c.wire.env, c.wire.d)
  {
    hide Sound, Clock, Out, FromIdle, Total, Parked, Shortest, Partway, MarkerBits, Marker;
    ghost var d, env := c.wire.d, c.wire.env;
    var ok, path, m := c.Move(ctx, ShiftIr);
    EntryPartway(env, d, true, ok, path, m);
    if !ok {
      return None;
    }
    EntryPath(path, true);
    ghost var e := c.wire.d;
    Entry(env, d, path, e);
    out, m := c.ClockIn(ctx, Zeros(maxBits), Ones(maxBits));
    Shifting(env, d, e, Zeros(maxBits), Ones(maxBits), m);
    if out.None? {
      return;
    }
    ghost var f := c.wire.d;
    var tms := seq(maxBits + 1, i => i == maxBits);
    FlushState(env, d, maxBits);
    out, m := c.ClockIn(ctx, tms, MarkerBits(maxBits));
    Shifting(env, d, f, tms, MarkerBits(maxBits), m);
    if out.None? {
      return;
    }
    ghost var g := c.wire.d;
    MarkState(env, f, maxBits, tms);
    ok, path, m := c.Move(ctx, Idle);
    ExitPartway(env, d, g, true, ok, path, m);
    if !ok {
      return None;
    }
    ExitPath(path, g.state);
    Leave(env, g);
    if 2 <= Total(env.ir, |env.ir|) <= maxBits {
      MarkerReturns(env, d, maxBits, tms);
    }
  }

  lemma {:induction false} Entry(env: Env, d: Device, path: seq<bool>, e: Device)
    requires Sound(env, d) && d.state.Idle? && path == FromIdle(ShiftIr) &&
             e == Clock(env, d, path, Zeros(|path|), |path|)
    ensures e.state.ShiftIr? && e.hist == d.hist && e.instructions == d.instructions
  {
    hide Sound, Clock, Out, FromIdle, Flat, Lens;
    Enter(env, d, true);
  }

  /** Shifting instructions leaves the data registers alone. */
  lemma {:induction false} Shifting(env: Env, d: Device, e: Device, tms: seq<bool>, data: seq<bool>, m: nat)
    requires Sound(env, e) && e.state.ShiftIr? && e.hist == d.hist && e.instructions == d.instructions &&
             m <= |tms| == |data|
    requires forall i :: 0 <= i < |tms| - 1 ==> !tms[i]
    ensures var f := Clock(env, e, tms, data, m);
            Partway(d, f, true) && f.hist == d.hist && f.instructions == d.instructions
  {
    hide Sound, Clock, Out;
    ShiftRun(env, e, tms, data, m);
  }

  /** The chain while ones are flushed in. */
  ghost function Flushed(env: Env, d: Device, maxBits: nat): Device
    requires Sound(env, d) && d.state.Idle?
  {
    var path := FromIdle(ShiftIr);
    Clock(env, Clock(env, d, path, Zeros(|path|), |path|), Zeros(maxBits), Ones(maxBits), maxBits)
  }

  lemma {:induction false} FlushState(env: Env, d: Device, maxBits: nat)
    requires Sound(env, d) && d.state.Idle?
    ensures var f := Flushed(env, d, maxBits);
            var flat := Flat(IrCaptures(env), |env.ir|);
            && f.state.ShiftIr? && f.lens == env.ir && f.instructions == d.instructions
            && f.shift == (flat + Ones(maxBits))[maxBits..maxBits + |flat|]
  {
    hide Sound, Clock, Out, Flat;
    Enter(env, d, true);
    IrLens(env);
    var path := FromIdle(ShiftIr);
    ShiftRun(env, Clock(env, d, path, Zeros(|path|), |path|), Zeros(maxBits), Ones(maxBits), maxBits);
  }

  lemma {:induction false} MarkState(env: Env, f: Device, maxBits: nat, tms: seq<bool>)
    requires Sound(env, f) && f.state.ShiftIr? && |tms| == maxBits + 1 &&
             forall i :: 0 <= i < |tms| ==> tms[i] == (i == maxBits)
    ensures var g := Clock(env, f, tms, MarkerBits(maxBits), |tms|);
            var all := f.shift + MarkerBits(maxBits);
            && g.state.Exit1Ir? && g.lens == f.lens && g.shift == all[maxBits + 1..maxBits + 1 + |f.shift|]
            && Out(env, f, tms, MarkerBits(maxBits), |tms|) == all[..maxBits + 1]
  {
    hide Sound, Clock, Out;
    ShiftRun(env, f, tms, MarkerBits(maxBits), |tms|);
  }

  /** Within the bound the marker comes out at the chain's length, and ones stay. */
  lemma {:induction false} MarkerReturns(env: Env, d: Device, maxBits: nat, tms: seq<bool>)
    requires Sound(env, d) && d.state.Idle? && 2 <= Total(env.ir, |env.ir|) <= maxBits
    requires |tms| == maxBits + 1 && forall i :: 0 <= i < |tms| ==> tms[i] == (i == maxBits)
    ensures var f := Flushed(env, d, maxBits);
            var g := Clock(env, f, tms, MarkerBits(maxBits), |tms|);
            && g.state.Exit1Ir?
            && Marker(Out(env, f, tms, MarkerBits(maxBits), |tms|), Total(env.ir, |env.ir|))
            && Parked(env, Clock(env, g, [true, false], Zeros(2), 2))
  {
    hide Sound, Clock, Out, Flat, Marker, Total, MarkerBits, Parts;
    var total := Total(env.ir, |env.ir|);
    var f := Flushed(env, d, maxBits);
    FlushState(env, d, maxBits);
    FlatLength(IrCaptures(env), |env.ir|);
    IrLens(env);
    FlushedOnes(Flat(IrCaptures(env), |env.ir|), maxBits);
    MarkState(env, f, maxBits, tms);
    MarkerOut(total, maxBits);
    Leave(env, Clock(env, f, tms, MarkerBits(maxBits), |tms|));
    PartsOnes(env.ir);
  }

  lemma {:induction false} FlushedOnes(flat: seq<bool>, maxBits: nat)
    requires |flat| <= maxBits
    ensures (flat + Ones(maxBits))[maxBits..maxBits + |flat|] == Ones(|flat|)
  {
  }

  lemma {:induction false} MarkerOut(total: nat, maxBits: nat)
    requires 2 <= total <= maxBits
    ensures var all := Ones(total) + MarkerBits(maxBits);
            Marker(all[..maxBits + 1], total) && all[maxBits + 1..maxBits + 1 + total] == Ones(total)
  {
  }

  lemma {:induction false} PartsOnes(lens: seq<nat>)
    ensures forall i :: 0 <= i < |lens| ==> Parts(Ones(Total(lens, |lens|)), lens)[i] == Ones(lens[i])
  {
    hide Total;
    forall i | 0 <= i < |lens|
      ensures Part(Ones(Total(lens, |lens|)), lens, i) == Ones(lens[i])
    {
      TotalGrows(lens, i + 1, |lens|);
      TotalGrows(lens, i, i + 1);
    }
  }
}
