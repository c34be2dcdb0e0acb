/** What resetting the TAPs does to data registers that were in use: a scan that was
    broken off is updated at most once on the way. */
module JtagTrace {
  import opened Rows
  import opened JtagTap
  import opened JtagDevice

  /** The data registers are in a scan. */
  predicate DrPath(s: State) {
    s.CaptureDr? || s.ShiftDr? || s.Exit1Dr? || s.PauseDr? || s.Exit2Dr? || s.UpdateDr?
  }

  /** `h` goes on from `h0` with one update under these instructions. */
  ghost predicate OneUpdate(h0: seq<Update>, h: seq<Update>, instructions: seq<seq<bool>>) {
    |h| == |h0| + 1 && h[..|h0|] == h0 && h[|h0|].instructions == instructions
  }

  /** Part of a reset: nothing is updated yet, and a scan that is still open was open
      before; or it was updated, once, and is over. */
  ghost predicate Closing(d: Device, e: Device) {
    || (e.hist == d.hist && (DrPath(e.state) ==> DrPath(d.state) && e.instructions == d.instructions))
    || (DrPath(d.state) && !DrPath(e.state) && OneUpdate(d.hist, e.hist, d.instructions))
  }

  lemma {:induction false} ClosingTick(env: Env, d: Device, e: Device, tdi: bool)
    requires Sound(env, e) && Closing(d, e)
    ensures Closing(d, Tick(env, e, true, tdi))
  {
    hide Sound, Flat, Lens, Parts;
  }

  lemma {:induction false} ClosingRun(env: Env, d: Device, n: nat, k: nat)
    requires Sound(env, d) && n <= k
    ensures Closing(d, Clock(env, d, Ones(k), Zeros(k), n))
  {
    hide Sound, Clock, Out, Tick;
    if n == 0 {
      ClockNone(env, d, Ones(k), Zeros(k));
    } else {
      ClosingRun(env, d, n - 1, k);
      ClockNext(env, d, Ones(k), Zeros(k), n);
      ClosingTick(env, d, Clock(env, d, Ones(k), Zeros(k), n - 1), false);
    }
  }

  /** Everything from a reset on: the first new update may be that of a scan left open,
      and all others are made under the reset instructions. */
  ghost predicate Traced(env: Env, d0: Device, d: Device) {
    && d0.hist <= d.hist
    && (forall i :: |d0.hist| <= i < |d.hist| ==>
          || d.hist[i].instructions == env.reset
          || (i == |d0.hist| && DrPath(d0.state) && d.hist[i].instructions == d0.instructions))
    && (DrPath(d.state) ==>
          || d.instructions == env.reset
          || (d.hist == d0.hist && DrPath(d0.state) && d.instructions == d0.instructions))
  }

  lemma {:induction false} ClosingTraced(env: Env, d0: Device, d: Device)
    requires Closing(d0, d)
    ensures Traced(env, d0, d)
  {
  }

  lemma {:induction false} TracedMore(env: Env, d0: Device, d1: Device, d: Device)
    requires Traced(env, d0, d1) && !DrPath(d1.state) && Traced(env, d1, d)
    ensures Traced(env, d0, d)
  {
  }

  /** Part of a scan from Idle: an instruction scan leaves the data registers alone; a
      data scan keeps the instructions, and once it has updated it is over. */
  ghost predicate Partway(d: Device, e: Device, ir: bool) {
    if ir then e.hist == d.hist && !DrPath(e.state)
    else e.instructions == d.instructions &&
         (e.hist == d.hist || (!DrPath(e.state) && OneUpdate(d.hist, e.hist, d.instructions)))
  }

  lemma {:induction false} PartwayTraced(env: Env, d: Device, e: Device, ir: bool)
    requires Partway(d, e, ir) && (!ir ==> d.instructions == env.reset)
    ensures Traced(env, d, e)
  {
  }

  /** Outside a data scan nothing is updated. */
  lemma {:induction false} Elsewhere(env: Env, d: Device, tms: seq<bool>, tdi: seq<bool>, n: nat)
    requires Sound(env, d) && n <= |tms| == |tdi| && forall i :: 0 <= i <= n ==> !DrPath(Walk(d.state, tms, i))
    ensures Clock(env, d, tms, tdi, n).hist == d.hist && !DrPath(Clock(env, d, tms, tdi, n).state)
  {
    hide Sound, Clock, Out, Walk, DrPath, Flat, Parts, Lens;
    ClockWalks(env, d, tms, tdi, n);
    if n == 0 {
      ClockNone(env, d, tms, tdi);
    } else {
      Elsewhere(env, d, tms, tdi, n - 1);
      ClockNext(env, d, tms, tdi, n);
      assert !DrPath(Walk(d.state, tms, n - 1));
      NoUpdate(env, Clock(env, d, tms, tdi, n - 1), tms[n - 1], tdi[n - 1]);
    }
  }

  lemma {:induction false} NoUpdate(env: Env, d: Device, tms: bool, tdi: bool)
    requires Sound(env, d) && !DrPath(d.state)
    ensures Tick(env, d, tms, tdi).hist == d.hist
  {
    hide Sound;
  }
}
