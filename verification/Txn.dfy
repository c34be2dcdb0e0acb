/** Transactions: queued operations, executed exactly once and in order. */
module DapTxn {
  import opened Options
  import opened Contexts
  import opened Words
  import opened SwdTarget
  import opened SwdLink
  import opened SwdWire
  import opened SwdBatch
  import SwdAnswers
  import opened SwdConn
  import SwdLifecycle
  import opened DapPlan
  import opened DapPlanShape
  import opened DapMeaning
  import opened DapPlanner
  import opened DapState
  import opened DapPort
  import opened DapExec

  datatype OpResult = Waiting | Resolved(value: Word, err: Option<Err>)

  const NOT_EXECUTED := PLAIN.(notExecuted := true)

  /** Operations of a MEM-AP owner, which a cleared bus fault does not disturb. */
  predicate KeepsAp(op: Op) {
    op.ReadSeq? || op.WriteSeq? || ((op.ReadAp? || op.WriteAp?) && op.kept)
  }

  predicate WriteBarrierStep(s: Step) {
    s.settles || s.completes
  }

  predicate ReportsWdata(e: Err) {
    FaultValid(e) && WdataErr(e.fault.value.ctrl)
  }

  /** The error of an operation whose step `s` failed with `e`. */
  function ExecutionError(st: PortState, kept: bool, s: Step, e: Err): Err {
    if s.apRead && kept && OrdinaryFaultCleared(e) then e
    else if WriteBarrierStep(s) && e.solely then e
    else if s.started && (!WriteBarrierStep(s) || !ReportsWdata(e)) then Join(e, PLAIN.(indeterminate := true))
    else if e.rejected then e
    else if e.parity || (st.response.Lost? && e.fault.None?) then Join(e, PLAIN.(indeterminate := true))
    else e
  }

  lemma {:induction false} BegunError(st: PortState, kept: bool, s: Step, e: Err)
    ensures ExecutionError(st, kept, s, e).notExecuted == e.notExecuted
  {
  }

  /** What the error of an operation says whose step `s` failed after an earlier one may have taken
      effect: that the outcome is open, that the fault was cleared, or, on a barrier, that the data
      was lost or that only the barrier's parity was bad. */
  predicate Admits(s: Step, e: Err) {
    || e.indeterminate
    || (s.apRead && OrdinaryFaultCleared(e))
    || (WriteBarrierStep(s) && (ReportsWdata(e) || Completed(e)))
  }

  lemma {:induction false} StartedAdmits(st: PortState, kept: bool, s: Step, e: Err)
    requires s.started && (e.solely ==> Completed(e))
    ensures Admits(s, ExecutionError(st, kept, s, e))
  {
    hide OrdinaryFaultCleared, ReportsWdata;
  }

  /** The error of a run that stopped at `s`, the target having taken more than that when `more`. */
  predicate Told(s: Step, more: bool, result: OpResult, err: Err) {
    err.indeterminate || (!more && (s.started ==> Admits(s, err)) && result.Resolved? && result.err == Some(err))
  }

  /** The target took a write at step `c`, or a step behind it. */
  predicate Beyond(steps: seq<Step>, c: nat, k: nat)
    requires c < |steps|
  {
    k > c + 1 || (k == c + 1 && !steps[c].f.req.read)
  }

  /** The same, for the plan `steps` stopped at step `c` of operation `n`. */
  predicate Accounted(steps: seq<Step>, c: nat, k: nat, results: seq<OpResult>, n: nat, err: Err) {
    c < |steps| && n < |results| && Told(steps[c], Beyond(steps, c, k), results[n], err)
  }

  function FailedEffect(st: PortState, kept: bool, s: Step, e: Err): PortState {
    if (kept && OrdinaryFaultCleared(e)) || st.response.Lost? then st
    else if (e.indeterminate && (s.invalidates || s.apRead || s.apWrite)) ||
            (s.completes && s.invalidates && e.parity) then
      InvalidateAp(st)
    else st
  }

  predicate StepMayAffectAp(s: Step) {
    s.f.req.ap || (s.started && !s.settles)
  }

  /** Operations so far: the first `|vals|` succeeded with those values. */
  ghost predicate Succeeding(results: seq<OpResult>, vals: seq<Word>) {
    && |vals| <= |results|
    && (forall i :: 0 <= i < |vals| ==> results[i] == Resolved(vals[i], None))
    && (forall i :: |vals| <= i < |results| ==> results[i].Waiting?)
  }

  /** While failures are recorded: the operations up to `m` are resolved. */
  ghost predicate Failing(results: seq<OpResult>, vals: seq<Word>, m: nat) {
    && |vals| <= m <= |results|
    && (forall i :: 0 <= i < |vals| ==> results[i] == Resolved(vals[i], None))
    && (forall i :: |vals| <= i < m ==> results[i].Resolved? && results[i].err.Some?)
    && (forall i :: m <= i < |results| ==> results[i].Waiting?)
  }

  /** All results: successes, then operations that failed, then operations that were
      not executed. */
  ghost predicate Finished(results: seq<OpResult>, vals: seq<Word>, m: nat) {
    && |vals| <= m <= |results|
    && (forall i :: 0 <= i < |vals| ==> results[i] == Resolved(vals[i], None))
    && (forall i :: |vals| <= i < m ==> results[i].Resolved? && results[i].err.Some?)
    && (forall i :: m <= i < |results| ==> results[i] == Resolved(0, Some(NOT_EXECUTED)))
  }

  function Delivery(s: Step, value: Word): seq<Word> {
    if s.deliver then [if s.deliverValue then value else 0] else []
  }

  /** `now` counts, beyond `base`, the data writes among the first `i` steps. */
  ghost predicate Counted(base: seq<nat>, now: seq<nat>, steps: seq<Step>, i: nat)
    requires i <= |steps|
  {
    |now| == |base| && forall j :: 0 <= j < |now| ==> now[j] == base[j] + Writes(steps, i, j)
  }

  lemma {:induction false} CountedNone(base: seq<nat>, steps: seq<Step>)
    ensures Counted(base, base, steps, 0)
  {
  }

  lemma {:induction false} CountedNext(base: seq<nat>, now: seq<nat>, steps: seq<Step>, i: nat)
    requires i < |steps| && Counted(base, now, steps, i) && steps[i].op < |now|
    ensures Counted(base, if steps[i].acceptWrite then now[steps[i].op := now[steps[i].op] + 1] else now, steps, i + 1)
  {
  }

  lemma {:induction false} PrefixNone(st: PortState, steps: seq<Step>, values: seq<Word>)
    ensures AcceptTo(st, steps, values, 0) == st && HostOutputs(steps, values, 0) == [] && Delivers(steps, 0) == 0
  {
  }

  lemma {:induction false} PrefixNext(st: PortState, steps: seq<Step>, values: seq<Word>, i: nat)
    requires i < |steps| && i < |values|
    ensures AcceptTo(st, steps, values, i + 1) == AcceptStep(AcceptTo(st, steps, values, i), steps[i], values[i])
    ensures HostOutputs(steps, values, i + 1) == HostOutputs(steps, values, i) + Delivery(steps[i], values[i])
    ensures Delivers(steps, i + 1) == Delivers(steps, i) + |Delivery(steps[i], values[i])|
  {
    hide AcceptStep;
  }

  lemma {:induction false} CountedSplit(base: seq<nat>, mid: seq<nat>, now: seq<nat>, steps: seq<Step>, c: nat, e: nat,
                                        i: nat)
    requires c <= e <= |steps| && i <= e - c
    requires Counted(base, mid, steps, c) && Counted(mid, now, steps[c..e], i)
    ensures Counted(base, now, steps, c + i)
  {
    hide Writes;
    forall j | 0 <= j < |now|
      ensures now[j] == base[j] + Writes(steps, c + i, j)
    {
      WritesSplit(steps, c, e, i, j);
    }
  }

  /** Consecutive steps belong to the same operation or to the next one. */
  ghost predicate InOrder(part: seq<Step>, n: nat) {
    && (forall j :: 0 <= j < |part| ==> part[j].op < n)
    && (forall j :: 0 <= j < |part| - 1 ==> part[j + 1].op == part[j].op + (if part[j].deliver then 1 else 0))
  }

  class Txn {
    const port: Port
    var ops: seq<Op>
    var results: seq<OpResult>
    // Accepted data writes of each operation.
    var accepted: seq<nat>
    var committed: bool

    constructor (port: Port)
      ensures this.port == port && ops == [] && results == [] && accepted == [] && !committed
    {
      this.port := port;
      ops, results, accepted, committed := [], [], [], false;
    }

    /** Nothing has been resolved or accepted yet. */
    ghost predicate Untouched()
      reads this
    {
      |results| == |ops| && Succeeding(results, []) && accepted == seq(|ops|, _ => 0)
    }

    ghost predicate Queued()
      reads this
    {
      Untouched() && !committed
    }

    method Queue(op: Op)
      requires Queued()
      modifies this
      ensures Queued() && ops == old(ops) + [op]
    {
      ops, results, accepted := ops + [op], results + [Waiting], accepted + [0];
    }

    /** Resolves one result; a result once resolved never changes. */
    method ResolveOne(i: nat, value: Word, err: Option<Err>)
      requires i < |results|
      modifies this`results
      ensures results == if old(results)[i].Waiting? then old(results)[i := Resolved(value, err)] else old(results)
    {
      if results[i].Waiting? {
        results := results[i := Resolved(value, err)];
      }
    }

    method ResolveSuffix(start: nat, ghost vals: seq<Word>)
      requires Failing(results, vals, start)
      modifies this`results
      ensures |results| == |old(results)| && Finished(results, vals, start)
      ensures forall i :: 0 <= i < start ==> results[i] == old(results)[i]
    {
      for i := start to |results|
        invariant |results| == |old(results)|
        invariant forall j :: 0 <= j < |results| ==>
                    results[j] == if start <= j < i then Resolved(0, Some(NOT_EXECUTED)) else old(results)[j]
      {
        ResolveOne(i, 0, Some(NOT_EXECUTED));
      }
    }

    /** Resolves the operations of `part` with `err`. */
    method ResolveSteps(part: seq<Step>, err: Err, ghost vals: seq<Word>, ghost m: nat)
      requires Failing(results, vals, m) && InOrder(part, |results|)
      requires part != [] ==> part[0].op <= m <= part[0].op + 1 && |vals| <= part[0].op
      modifies this`results
      ensures |results| == |old(results)|
      ensures part != [] ==> Failing(results, vals, part[|part| - 1].op + 1)
      ensures part == [] ==> results == old(results)
      ensures part != [] && old(results)[part[0].op].Waiting? ==> results[part[0].op] == Resolved(0, Some(err))
      ensures forall i :: 0 <= i < |results| && old(results)[i].Resolved? ==> results[i] == old(results)[i]
    {
      for i := 0 to |part|
        invariant |results| == |old(results)|
        invariant i > 0 ==> Failing(results, vals, part[i - 1].op + 1)
        invariant i == 0 ==> results == old(results)
        invariant i > 0 && old(results)[part[0].op].Waiting? ==> results[part[0].op] == Resolved(0, Some(err))
        invariant forall i :: 0 <= i < |results| && old(results)[i].Resolved? ==> results[i] == old(results)[i]
      {
        ResolveOne(part[i].op, 0, Some(err));
      }
    }

    /** Fails the operation of step `s` and gives up the rest. */
    method FailStep(s: Step, e: Err, ghost vals: seq<Word>) returns (err: Err)
      requires port.Valid() && |results| == |ops| && Succeeding(results, vals) && s.op == |vals| < |ops|
      requires e.solely ==> Completed(e)
      modifies this`results, port`st
      ensures port.Valid() && |results| == |ops| && Finished(results, vals, s.op + 1)
      ensures results[s.op].err == Some(err) && err == ExecutionError(old(port.st), KeepsAp(ops[s.op]), s, e)
      ensures !e.notExecuted ==> Begun(results, s.op)
      ensures Told(s, false, results[s.op], err)
    {
      hide Admits;
      var kept := KeepsAp(ops[s.op]);
      if s.started {
        StartedAdmits(port.st, kept, s, e);
      }
      err := ExecutionError(port.st, kept, s, e);
      port.st := FailedEffect(port.st, kept, s, err);
      ResolveOne(s.op, 0, Some(err));
      ResolveSuffix(s.op + 1, vals);
    }

    // ----- Batches -----

    /** Takes note of one accepted step, and delivers its operation's result. */
    method AcceptOne(s: Step, value: Word, ghost vals: seq<Word>)
      requires |results| == |ops| == |accepted| && Succeeding(results, vals) && s.op == |vals| < |ops|
      modifies this`results, this`accepted, port`st
      ensures port.st == AcceptStep(old(port.st), s, value)
      ensures |results| == |ops| && Succeeding(results, vals + Delivery(s, value))
      ensures accepted == if s.acceptWrite then old(accepted)[s.op := old(accepted)[s.op] + 1] else old(accepted)
    {
      hide AcceptStep;
      port.st := AcceptStep(port.st, s, value);
      if s.acceptWrite {
        accepted := accepted[s.op := accepted[s.op] + 1];
      }
      if s.deliver {
        ResolveOne(s.op, if s.deliverValue then value else 0, None);
      }
    }

    /** Accepts the first `count` steps of a batch. */
    method AcceptPrefix(part: seq<Step>, values: seq<Word>, count: nat, ghost vals: seq<Word>)
      requires count <= |part| && count <= |values| && |results| == |ops| == |accepted| && Succeeding(results, vals)
      requires forall j :: 0 <= j < count ==> part[j].op == |vals| + Delivers(part, j) < |ops|
      modifies this`results, this`accepted, port`st
      ensures port.st == AcceptTo(old(port.st), part, values, count)
      ensures |results| == |ops| == |accepted| && Succeeding(results, vals + HostOutputs(part, values, count))
      ensures Counted(old(accepted), accepted, part, count)
    {
      hide AcceptStep, Succeeding, Counted, AcceptTo, HostOutputs, Delivers, Delivery;
      ghost var all := vals;
      CountedNone(accepted, part);
      PrefixNone(port.st, part, values);
      for i := 0 to count
        invariant port.st == AcceptTo(old(port.st), part, values, i)
        invariant all == vals + HostOutputs(part, values, i) && |all| == |vals| + Delivers(part, i)
        invariant |results| == |ops| == |accepted| && Succeeding(results, all)
        invariant Counted(old(accepted), accepted, part, i)
      {
        CountedNext(old(accepted), accepted, part, i);
        PrefixNext(old(port.st), part, values, i);
        AcceptOne(part[i], values[i], all);
        all := all + Delivery(part[i], values[i]);
      }
    }

    /** The port may send `s` again: nothing is provisional, and no posted data that `s`
        would collect has been discarded. */
    ghost predicate Resuming(s: Step)
      reads this, port, port.conn, port.conn.wire
    {
      && port.Sound() && port.ExactNow() && !port.st.pending && ResponseKnown(port.st)
      && !WaitForbidden(port.st, s.f.req)
      && (Collects(s) ==> port.conn.link.mode.Simple?)
    }

    /** Everything clocked is indeterminate; framing is lost. */
    method FailClocked(part: seq<Step>, e: Err, ghost vals: seq<Word>) returns (err: Err, ghost m: nat)
      requires !e.notExecuted
      requires SwdLifecycle.Owned(port.conn) && |results| == |ops| && Succeeding(results, vals)
      requires part != [] && InOrder(part, |ops|) && part[0].op == |vals|
      modifies this`results, port`st
      ensures port.Valid() && |results| == |ops| && Finished(results, vals, m) && m > |vals| && Begun(results, |vals|)
      ensures err.indeterminate && results[|vals|].err == Some(err)
    {
      err := Join(e, PLAIN.(indeterminate := true));
      port.st := LoseFraming(port.st);
      ResolveSteps(part, err, vals, |vals|);
      ResolveSuffix(part[|part| - 1].op + 1, vals);
      m := part[|part| - 1].op + 1;
    }

    /** The wire failed: the operations of the failed chunk are indeterminate. */
    method FailTransport(part: seq<Step>, res: seq<Res>, ghost vals: seq<Word>) returns (err: Err, ghost m: nat)
      requires SwdLifecycle.Owned(port.conn) && |results| == |ops| && Succeeding(results, vals)
      requires part != [] && |part| == |res| && InOrder(part, |ops|) && part[0].op == |vals| && res[0].e.Uncertain?
      modifies this`results, port`st
      ensures port.Valid() && |results| == |ops| && Finished(results, vals, m) && m > |vals| && Begun(results, |vals|)
      ensures err.indeterminate && results[|vals|].err == Some(err)
    {
      err := PLAIN.(indeterminate := true);
      port.st := LoseFraming(port.st);
      var n := 1;
      while n < |part| && res[n].e.Uncertain?
        invariant 1 <= n <= |part|
      {
        n := n + 1;
      }
      ResolveSteps(part[..n], err, vals, |vals|);
      ResolveSuffix(part[n - 1].op + 1, vals);
      m := part[n - 1].op + 1;
    }

    /** Bad parity on a barrier that was accepted, with more clocked behind it: the
        barrier's own operation is complete if nothing of it follows. */
    method FailCompletedBarrier(part: seq<Step>, e: Err, ghost vals: seq<Word>) returns (err: Err, ghost m: nat)
      requires !e.notExecuted
      requires SwdLifecycle.Owned(port.conn) && |results| == |ops| && Succeeding(results, vals)
      requires |part| > 1 && InOrder(part, |ops|) && part[0].op == |vals|
      modifies this`results, port`st
      ensures port.Valid() && |results| == |ops| && Finished(results, vals, m) && m > |vals| && Begun(results, |vals|)
      ensures err.indeterminate
    {
      hide ExecutionError, FailedEffect, LoseFraming, Coherent, Succeeding, Failing, Finished;
      var kept := KeepsAp(ops[part[0].op]);
      LostSound(FailedEffect(port.st, kept, part[0], ExecutionError(port.st, kept, part[0], e)));
      var own := ExecutionError(port.st, kept, part[0], e);
      BegunError(port.st, kept, part[0], e);
      port.st := LoseFraming(FailedEffect(port.st, kept, part[0], own));
      err := Join(own, PLAIN.(indeterminate := true));
      FailOne(results, vals, if part[1].op == part[0].op then err else own);
      ResolveOne(part[0].op, 0, Some(if part[1].op == part[0].op then err else own));
      ResolveSteps(part[1..], err, vals, part[0].op + 1);
      ResolveSuffix(part[|part| - 1].op + 1, vals);
      m := part[|part| - 1].op + 1;
    }

    /** Whether a step that met a clean WAIT may be sent again: not if SELECT is
        provisional, the posted data was discarded, the limit is reached or the
        context ended. */
    method DecideRetry(ctx: Ctx, s: Step, waits: nat) returns (err: Option<Err>)
      requires port.Sound() && port.ExactNow()
      modifies port`st, port.conn`link, port.conn.wire, ctx
      ensures port.Unseen()
      ensures err.None? ==>
                && Resuming(s) && ctx.budget < old(ctx.budget)
                && port.conn.link == old(port.conn.link) && port.conn.wire.t == old(port.conn.wire.t)
                && port.st.select == old(port.st.select)
      ensures err.None? && port.maxWaits > 0 ==> waits + 1 < port.maxWaits
      ensures err.Some? ==> port.Valid() && !err.value.notExecuted && !err.value.solely
    {
      hide LoseFraming, Coherent, BankOf;
      LostSound(port.st);
      if port.st.pending {
        port.st := LoseFraming(port.st);
        return Some(PLAIN.(wait := true, indeterminate := true));
      }
      port.st := ObserveStep(port.st, s, 0, Wait);
      if WaitForbidden(port.st, s.f.req) {
        return Some(PLAIN.(wait := true));
      }
      if !ResponseKnown(port.st) {
        LostSound(port.st);
        port.st := LoseFraming(port.st);
        return Some(PLAIN.(wait := true));
      }
      var ended := ctx.Err();
      if Collects(s) && port.st.response.OverrunResponse? {
        return Some(PLAIN.(wait := !ended, indeterminate := true));
      }
      if ended || (port.maxWaits != 0 && waits + 1 >= port.maxWaits) {
        var e := port.AbortWait(PLAIN.(wait := !ended), false);
        return Some(e);
      }
      return None;
    }

    /** A clean WAIT: the request behind it was not taken, and it may be sent again. */
    method RetryWait(ctx: Ctx, part: seq<Step>, res: seq<Res>, waits: nat, ghost vals: seq<Word>)
      returns (err: Option<Err>, ghost m: nat)
      requires port.Sound() && port.ExactNow() && |results| == |ops| && Succeeding(results, vals)
      requires part != [] && |part| == |res| && InOrder(part, |ops|) && part[0].op == |vals|
      modifies this`results, port`st, port.conn`link, port.conn.wire, ctx
      ensures port.Unseen() && |results| == |ops|
      ensures err.None? ==>
                && Resuming(part[0]) && ctx.budget < old(ctx.budget) && results == old(results)
                && port.conn.link == old(port.conn.link) && port.conn.wire.t == old(port.conn.wire.t)
                && port.st.select == old(port.st.select)
      ensures err.None? && port.maxWaits > 0 ==> waits + 1 < port.maxWaits
      ensures err.Some? ==> port.Valid() && Finished(results, vals, m) && m > |vals| && Begun(results, |vals|)
      ensures err.Some? ==> Told(part[0], false, results[|vals|], err.value)
    {
      hide LoseFraming, ExecutionError, Coherent, Finished, BankOf, Succeeding, Agrees, Admits;
      m := |vals| + 1;
      if !SuffixAbandoned(res, 1, false) {
        var e;
        e, m := FailClocked(part[..Clocked(res)], PLAIN.(wait := true), vals);
        return Some(e), m;
      }
      err := DecideRetry(ctx, part[0], waits);
      if err.Some? {
        var e := FailStep(part[0], err.value, vals);
        err := Some(e);
      }
    }

    /** WAIT whose cleanup failed: framing is lost. */
    method FailWaitCleanup(ctx: Ctx, part: seq<Step>, res: seq<Res>, ghost vals: seq<Word>)
      returns (err: Err, ghost m: nat)
      requires SwdLifecycle.Owned(port.conn) && |results| == |ops| && Succeeding(results, vals)
      requires part != [] && |part| == |res| && InOrder(part, |ops|) && part[0].op == |vals|
      modifies this`results, port`st, ctx
      ensures port.Valid() && |results| == |ops| && Finished(results, vals, m) && m > |vals| && Begun(results, |vals|)
      ensures results[|vals|].err.Some? && !Completed(results[|vals|].err.value)
      ensures Told(part[0], false, results[|vals|], err)
    {
      hide LoseFraming, Coherent, Succeeding, Failing, Finished;
      if !SuffixAbandoned(res, 1, false) {
        err, m := FailClocked(part[..Clocked(res)], PLAIN.(wait := true), vals);
        return;
      }
      var ended := ctx.Err();
      err := ExecutionError(port.st, KeepsAp(ops[part[0].op]), part[0], PLAIN.(wait := !ended));
      LostSound(port.st);
      port.st := LoseFraming(port.st);
      FailOne(results, vals, err);
      ResolveOne(part[0].op, 0, Some(err));
      ResolveSuffix(part[0].op + 1, vals);
      m := |vals| + 1;
    }

    /** FAULT: the requests behind it were abandoned, and the fault is read and cleared. */
    method FailFault(part: seq<Step>, res: seq<Res>, ghost vals: seq<Word>) returns (err: Err, ghost m: nat)
      requires port.Sound() && |results| == |ops| && Succeeding(results, vals)
      requires part != [] && |part| == |res| && InOrder(part, |ops|) && part[0].op == |vals|
      modifies this`results, port`st, port.conn`link, port.conn.wire
      ensures port.Valid() && port.Unseen() && |results| == |ops| && Finished(results, vals, m) && m > |vals| &&
              Begun(results, |vals|)
      ensures results[|vals|].err.Some? && (part[0].started ==> !Completed(results[|vals|].err.value))
      ensures Told(part[0], false, results[|vals|], err)
    {
      hide LoseFraming, Coherent, Succeeding, Failing, Finished, Admits, StickyErr, WdataErr, StickyCmp, BankOf;
      if !SuffixAbandoned(res, 1, false) {
        err, m := FailClocked(part[..Clocked(res)], OfFailure(Fault), vals);
        return;
      }
      var s := part[0];
      err := port.HandleFault(s.f.req, StepMayAffectAp(s), KeepsAp(ops[s.op]));
      err := FailStep(s, err, vals);
      m := |vals| + 1;
    }

    /** Bad parity: with nothing behind it only its own operation fails. */
    method FailParity(part: seq<Step>, res: seq<Res>, ghost vals: seq<Word>) returns (err: Err, ghost m: nat)
      requires SwdLifecycle.Owned(port.conn) && (!Posted(res, 0) ==> port.Sound() && port.ExactNow())
      requires part != [] && |part| == |res| && InOrder(part, |ops|) && part[0].op == |vals| && res[0].e.Parity?
      requires port.st.pending ==> port.st.writePending && NeverExempt(part[0].f.req)
      requires |results| == |ops| && Succeeding(results, vals)
      modifies this`results, port`st
      ensures port.Valid() && |results| == |ops| && Finished(results, vals, m) && m > |vals| && Begun(results, |vals|)
      ensures Told(part[0], Posted(res, 0), results[|vals|], err)
    {
      hide LoseFraming, Coherent, Succeeding, Failing, Finished, ExecutionError, BankOf, Admits;
      var s, n := part[0], Clocked(res);
      port.st := ObserveStep(port.st, s, res[0].value, Parity);
      if n == 1 {
        err := FailStep(s, OfFailure(Parity), vals);
        m := |vals| + 1;
      } else if WriteBarrierStep(s) {
        err, m := FailCompletedBarrier(part[..n], OfFailure(Parity), vals);
      } else {
        err, m := FailClocked(part[..n], OfFailure(Parity), vals);
      }
    }

    /** A request that was not sent; after WAIT it is given up. */
    method FailUnsent(s: Step, waits: nat, ghost vals: seq<Word>) returns (err: Err)
      requires port.Valid() && (waits > 0 ==> !port.st.pending)
      requires |results| == |ops| && Succeeding(results, vals) && s.op == |vals| < |ops|
      modifies this`results, port`st, port.conn`link, port.conn.wire
      ensures port.Valid() && port.Unseen() && |results| == |ops| && Finished(results, vals, |vals| + 1) &&
              Begun(results, |vals|)
      ensures results[|vals|].err.Some? && (waits == 0 ==> !Completed(results[|vals|].err.value))
      ensures Told(s, false, results[|vals|], err)
    {
      hide LoseFraming, Coherent, Succeeding, Failing, Finished, BankOf, Admits;
      var e := PLAIN;
      if waits > 0 {
        e := port.AbortWait(e, false);
      }
      err := FailStep(s, e, vals);
    }

    /** What to do about the first failed step of a batch: send it again after a clean
        WAIT, or resolve every operation. */
    method HandleBatchFailure(ctx: Ctx, part: seq<Step>, res: seq<Res>, waits: nat, ghost vals: seq<Word>)
      returns (err: Option<Err>, ghost m: nat)
      requires |part| == |res| > 0 && !res[0].e.NoError? && InOrder(part, |ops|) && part[0].op == |vals|
      requires SwdLifecycle.Owned(port.conn) && (!Posted(res, 0) ==> port.Sound())
      requires (res[0].e.Wait? || res[0].e.Parity?) && !Posted(res, 0) ==> port.ExactNow()
      requires port.st.pending ==> port.st.writePending && NeverExempt(part[0].f.req)
      requires waits > 0 ==> !port.st.pending
      requires |results| == |ops| && Succeeding(results, vals)
      modifies this`results, port`st, port.conn`link, port.conn.wire, ctx
      ensures port.Unseen() && |results| == |ops|
      ensures err.None? ==>
                && Resuming(part[0]) && ctx.budget < old(ctx.budget) && results == old(results) && res[0].e.Wait?
                && port.conn.link == old(port.conn.link) && port.conn.wire.t == old(port.conn.wire.t)
                && port.st.select == old(port.st.select)
      ensures err.None? && port.maxWaits > 0 ==> waits + 1 < port.maxWaits
      ensures err.Some? ==> port.Valid() && Finished(results, vals, m) && m > |vals| && Begun(results, |vals|)
      ensures err.Some? && part[0].started && Excused(results, |vals|) ==>
                res[0].e.Parity? || res[0].e.Wait? || waits > 0
      ensures err.Some? ==> Told(part[0], res[0].e.Uncertain? || Posted(res, 0), results[|vals|], err.value)
    {
      hide LoseFraming, Coherent, Succeeding, Failing, Finished, ExecutionError, Agrees, Admits;
      m := |vals| + 1;
      var e: Err;
      if res[0].e.Uncertain? {
        e, m := FailTransport(part, res, vals);
      } else if res[0].e.Unsent? {
        e := FailUnsent(part[0], waits, vals);
      } else if res[0].e.Unclean? {
        e, m := FailWaitCleanup(ctx, part, res, vals);
      } else if res[0].e.Wait? {
        err, m := RetryWait(ctx, part, res, waits, vals);
        return;
      } else if res[0].e.Fault? {
        e, m := FailFault(part, res, vals);
      } else if res[0].e.Parity? {
        e, m := FailParity(part, res, vals);
      } else {
        e, m := FailInvalid(part, res, vals);
      }
      err := Some(e);
    }

    /** A request that validation refused; what went out with it is indeterminate. */
    method FailInvalid(part: seq<Step>, res: seq<Res>, ghost vals: seq<Word>) returns (err: Err, ghost m: nat)
      requires SwdLifecycle.Owned(port.conn) && |results| == |ops| && Succeeding(results, vals)
      requires |part| == |res| > 0 && InOrder(part, |ops|) && part[0].op == |vals|
      modifies this`results, port`st
      ensures port.Valid() && |results| == |ops| && Finished(results, vals, m) && m > |vals| && Begun(results, |vals|)
      ensures results[|vals|].err.Some? && !Completed(results[|vals|].err.value) && err.indeterminate
    {
      hide LoseFraming, Coherent, Succeeding, Failing, Finished;
      err, m := FailClocked(part[..Clocked(res)], PLAIN, vals);
    }

    // ----- The execution loop -----

    /** The host's side of a plan after its first `c` steps, which delivered `vals`. */
    ghost predicate Bookkeeping(steps: seq<Step>, c: nat, vals: seq<Word>)
      requires c <= |steps|
      reads this, port
    {
      && Block(steps, 0, |ops|) && |results| == |ops| == |accepted|
      && Succeeding(results, vals) && |vals| == Delivers(steps, c)
      && Counted(seq(|ops|, _ => 0), accepted, steps, c)
      && Between(port.st, steps, c)
    }

    /** After a batch the port is sound again, unless frames went out behind a
        bad-parity one. */
    lemma {:induction false} BatchSound(l: Link, st: PortState, steps: seq<Step>, c: nat, e: nat, values: seq<Word>,
                                        t: Target,
                     res: seq<Res>, f: nat, k: nat, known: bool)
      requires Block(steps, 0, |ops|) && Unmixed(steps, c, e) && Between(st, steps, c)
      requires st.select.Cached? <==> Knows(known, steps, c)
      requires SwdLifecycle.Owned(port.conn) && Kept(l, port.conn.link)
      requires Delivered(port.conn.wire.env, t, Frames(steps[c..e]), res, f, k, port.conn.wire.t)
      requires f <= |values| && forall i :: 0 <= i < f ==> values[i] == res[i].value
      requires ResponseKnown(st) ==> (l.mode.Fixed? <==> st.response.OverrunResponse? && !l.phase.Idle?)
      requires l.phase.Ready? ==> Coherent(l, t) && Agrees(st, t)
      requires !l.phase.Ready? ==> f == 0 && Refused(res)
      requires port.conn.link.phase.Ready? ==> Sure(res)
      requires Parked(port.conn.link, res, f)
      ensures var m := AcceptTo(st, steps[c..e], values, f);
              && Between(m, steps, c + f) && (m.select.Cached? <==> Knows(known, steps, c + f))
              && (!Posted(res, f) ==> port.SoundWith(m))
              && (f < |res| && !Posted(res, f) && (res[f].e.Wait? || res[f].e.Parity?) ==> Exact(m, port.conn.wire.t))
      ensures f < |res| && res[f].e.Wait? && port.conn.link.mode.Simple? ==> !Overrun(port.conn.wire.t)
    {
      hide Coherent, Delivered, Agrees, Exact, Block, AcceptTo, Knows, Overrun, Chain, ResponseKnown;
      var env, t' := port.conn.wire.env, port.conn.wire.t;
      KeptCount(env, t, Frames(steps[c..e]), res, f, k, t');
      if l.phase.Ready? {
        CoherentMode(l, t);
      }
      var fixed := if l.phase.Idle? then st.response.OverrunResponse? else l.mode.Fixed?;
      BatchHost(env, st, steps, c, e, values, t, res, f, k, t', fixed, known, |ops|);
      if l.phase.Ready? && (f < |res| ==> !res[f].e.Uncertain? && !res[f].e.Unclean? && !Posted(res, f)) {
        ChainPart(steps, c, e, |ops|, st);
        BatchAgrees(env, st, steps[c..e], values, t, res, f, k, t');
      }
      if port.conn.link.phase.Ready? {
        CoherentMode(port.conn.link, t');
      }
    }

    /** The plan is at step `c`: what it did so far, it did once, in order, on both sides. */
    ghost predicate Running(steps: seq<Step>, c: nat, u0: Target, clean: bool, known: bool, log: seq<Frame>,
                            vals: seq<Word>)
      reads this, port, port.conn, port.conn.wire
    {
      && c <= |steps| && Bookkeeping(steps, c, vals) && port.Sound()
      && (port.st.select.Cached? <==> Knows(known, steps, c))
      && Placed(port.conn.wire.env, u0, clean, steps, c, vals, port.conn.wire.t)
      && port.conn.wire.log == log + Frames(steps)[..c]
    }

    /** The batch up to `e` stopped at step `c`; `res` are the results from there on. */
    ghost predicate Stalled(steps: seq<Step>, c: nat, e: nat, k: nat, res: seq<Res>,
                            u0: Target, clean: bool, known: bool, log: seq<Frame>, vals: seq<Word>)
      reads this, port, port.conn, port.conn.wire
    {
      && c < e <= |steps| && |res| == e - c && c <= k <= e && !res[0].e.NoError? && (res[0].e.Wait? ==> k == c)
      && Bookkeeping(steps, c, vals) && port.conn.wire.log == log + Frames(steps)[..k]
      && (port.st.select.Cached? <==> Knows(known, steps, c))
      && SwdLifecycle.Owned(port.conn) && (!Posted(res, 0) ==> port.Sound())
      && (!Posted(res, 0) && (res[0].e.Wait? || res[0].e.Parity?) ==> Exact(port.st, port.conn.wire.t))
      && (res[0].e.Wait? && port.conn.link.mode.Simple? ==> !Overrun(port.conn.wire.t))
      && (Beyond(steps, c, k) ==> res[0].e.Uncertain? || Posted(res, 0))
      && Left(port.conn.wire.env, u0, clean, steps, c, k, vals, res[0], port.conn.wire.t)
    }

    /** Clocks the steps from `c` to `e` and accepts those that succeeded. */
    method RunBatch(ctx: Ctx, steps: seq<Step>, c: nat, e: nat,
                    ghost u0: Target, ghost clean: bool, ghost known: bool, ghost log: seq<Frame>,
                    ghost vals: seq<Word>)
      returns (res: seq<Res>, failed: nat, ghost k: nat, ghost out: seq<Word>)
      requires Unmixed(steps, c, e) && Running(steps, c, u0, clean, known, log, vals)
      modifies this`results, this`accepted, port`st, port.conn`link, port.conn.wire, ctx
      ensures |res| == e - c && failed <= e - c && ctx.budget <= old(ctx.budget)
      ensures failed == e - c ==> Running(steps, e, u0, clean, known, log, out)
      ensures failed < e - c ==> Stalled(steps, c + failed, e, k, res[failed..], u0, clean, known, log, out)
      ensures failed == 0 ==> port.st == old(port.st)
      ensures failed > 0 || k > c ==> old(port.conn.link.phase.Ready?)
      ensures Kept(old(port.conn.link), port.conn.link)
      ensures k == c ==> port.conn.wire.t.hist == old(port.conn.wire.t.hist)
    {
      hide Coherent, Delivered, Agrees, Exact, Block, Placed, Left, Succeeding, Counted, AcceptTo, HostOutputs,
           Delivers, Knows,
           Sure, Parked, Overrun, Beyond, SwdAnswers.Accounted;
      ghost var t, st, l := port.conn.wire.t, port.st, port.conn.link;
      var part := steps[c..e];
      UnmixedSafe(steps, c, e, |ops|);
      ghost var f, kk;
      res, f, kk := port.conn.Commit(ctx, Frames(part), true);
      k := c + kk;
      failed := FirstFailed(res);
      FailedIs(port.conn.wire.env, t, Frames(part), res, f, kk, port.conn.wire.t);
      KeptCount(port.conn.wire.env, t, Frames(part), res, f, kk, port.conn.wire.t);
      var values := seq(|res|, i requires 0 <= i < |res| => res[i].value);
      forall j | 0 <= j < failed
        ensures part[j].op == |vals| + Delivers(part, j) < |ops|
      {
        PartOps(steps, c, e, |ops|, j);
      }
      ghost var base := accepted;
      AcceptPrefix(part, values, failed, vals);
      out := vals + HostOutputs(part, values, failed);
      HostCount(steps, c, e, values, failed);
      CountedSplit(seq(|ops|, _ => 0), base, accepted, steps, c, e, failed);
      BatchSound(l, st, steps, c, e, values, t, res, failed, kk, known);
      BatchPlaced(port.conn.wire.env, u0, clean, steps, c, e, vals, t, res, failed, kk, port.conn.wire.t, values,
                  |ops|);
      LogPart(log + Frames(steps)[..c], steps, c, e, kk);
      LogGrows(log, steps, c, k);
      AcceptNone(st, part, values);
      if failed < |res| {
        BeyondFails(port.conn.wire.env, t, steps, c, e, res, f, kk, port.conn.wire.t);
        assert res[failed..][0] == res[failed] && Posted(res[failed..], 0) == Posted(res, failed);
      }
    }

    method NextBatchBoundary(steps: seq<Step>, start: nat) returns (end: nat)
      requires start < |steps|
      ensures Unmixed(steps, start, end)
    {
      end := start + 1;
      if !Boundary(steps[start]) {
        while end < |steps| && !Boundary(steps[end])
          invariant start < end <= |steps|
          invariant forall j :: start <= j < end ==> !Boundary(steps[j])
        {
          end := end + 1;
        }
      }
    }

    /** What a failed plan leaves behind. The first `k` requests were accepted, once each
        and in order; the operations before step `c` succeeded. */
    ghost predicate Ended(steps: seq<Step>, c: nat, k: nat, u0: Target, clean: bool, log: seq<Frame>, vals: seq<Word>,
                          m: nat)
      reads this, port, port.conn, port.conn.wire
    {
      && c <= k <= |steps| && c < |steps| && port.Valid()
      && |results| == |ops| && Finished(results, vals, m) && m > |vals| == Delivers(steps, c) && Begun(results, |vals|)
      && port.conn.wire.log == log + Frames(steps)[..k]
      && Counted(seq(|ops|, _ => 0), accepted, steps, c)
      && var env, t := port.conn.wire.env, port.conn.wire.t;
         && (Plain(clean, steps) ==> vals == Outputs(env, u0, steps, c)) && AllowedAll(env, u0, steps, k)
         && HistAfter(env, u0, Frames(steps), k, t)
         && (steps[c].started && Excused(results, |vals|) ==> Reached(env, u0, steps, c, t))
    }

    /** After a batch that stopped at step `c`: go on from there, or give up. */
    method Recover(ctx: Ctx, steps: seq<Step>, c: nat, e: nat, res: seq<Res>, waits: nat, ghost k: nat,
                   ghost u0: Target, ghost clean: bool, ghost known: bool, ghost log: seq<Frame>, ghost vals: seq<Word>)
      returns (err: Option<Err>, ghost m: nat)
      requires Stalled(steps, c, e, k, res, u0, clean, known, log, vals) && Informed(known, steps)
      requires waits > 0 ==>
                 !port.st.pending && (k == c ==> Reached(port.conn.wire.env, u0, steps, c, port.conn.wire.t))
      modifies this`results, port`st, port.conn`link, port.conn.wire, ctx
      ensures err.None? ==>
                && Running(steps, c, u0, clean, known, log, vals) && !port.st.pending && ctx.budget < old(ctx.budget)
                && port.conn.link == old(port.conn.link)
                && Reached(port.conn.wire.env, u0, steps, c, port.conn.wire.t)
                && (port.maxWaits > 0 ==> waits + 1 < port.maxWaits)
      ensures err.Some? ==>
                Ended(steps, c, k, u0, clean, log, vals, m) && Accounted(steps, c, k, results, |vals|, err.value)
    {
      hide Coherent, Agrees, Exact, Block, Placed, Left, Succeeding, Counted, Delivers, Knows, Outputs, Exec, Allowed,
           HistAfter, Finished, Informed, AllowedAll, Overrun, InOrder, Collects, Exempt, LoseFraming, ResponseKnown,
           Excused,
           WaitForbidden, SwdLifecycle.Owned, Reached, Plain;
      ghost var t, st, env := port.conn.wire.t, port.st, port.conn.wire.env;
      PartInOrder(steps, c, e, |ops|);
      assert steps[c..e][0] == steps[c];
      err, m := HandleBatchFailure(ctx, steps[c..e], res, waits, vals);
      FailureLeaves(env, u0, clean, steps, c, k, vals, res[0], t, port.conn.wire.t);
      StillReached(env, u0, steps, c, t, port.conn.wire.t);
      if err.None? {
        NotExemptRetry(st, port.st, steps, c, known, t);
        RetryPlaced(env, u0, clean, steps, c, k, vals, res[0], t, |ops|);
      }
    }

    /** One round: a batch, and the handling of its failure. */
    method Round(ctx: Ctx, steps: seq<Step>, c: nat, waits: nat,
                 ghost u0: Target, ghost clean: bool, ghost known: bool, ghost log: seq<Frame>, ghost vals: seq<Word>)
      returns (err: Option<Err>, next: nat, waited: bool, ghost k: nat, ghost out: seq<Word>, ghost m: nat)
      requires c < |steps| && Running(steps, c, u0, clean, known, log, vals) && Informed(known, steps)
      requires waits > 0 ==>
                 !port.st.pending && Reached(port.conn.wire.env, u0, steps, c, port.conn.wire.t)
      modifies this`results, this`accepted, port`st, port.conn`link, port.conn.wire, ctx
      ensures c <= next <= |steps|
      ensures err.None? ==>
                Running(steps, next, u0, clean, known, log, out) && Kept(old(port.conn.link), port.conn.link)
      ensures c < next || (err.Some? && c < k) ==> old(port.conn.link.phase.Ready?)
      ensures err.None? && !waited ==> c < next
      ensures err.None? && waited ==>
                && next < |steps| && !port.st.pending && ctx.budget < old(ctx.budget)
                && Reached(port.conn.wire.env, u0, steps, next, port.conn.wire.t)
                && (port.maxWaits > 0 ==> (if next == c then waits else 0) + 1 < port.maxWaits)
      ensures err.Some? ==>
                Ended(steps, next, k, u0, clean, log, out, m) && Accounted(steps, next, k, results, |out|, err.value)
    {
      hide Running, Stalled, Ended, Reached, Exec, Allowed, Informed, Unmixed;
      var end := NextBatchBoundary(steps, c);
      BatchWithin(steps, c, end);
      var res, failed, kk, vals' := RunBatch(ctx, steps, c, end, u0, clean, known, log, vals);
      err, waited, next, out, k, m := None, false, c + failed, vals', kk, 0;
      if failed < |res| {
        StillReached(port.conn.wire.env, u0, steps, c, old(port.conn.wire.t), port.conn.wire.t);
        err, m := Recover(ctx, steps, next, end, res[failed..], if failed == 0 then waits else 0, k, u0, clean, known,
                          log, out);
        waited := true;
      }
    }

    /** How far the WAIT budget of the current step still goes. */
    ghost function Patience(waits: seq<nat>, cursor: nat, ctx: Ctx): int
      reads ctx
    {
      if port.maxWaits == 0 then ctx.budget
      else if cursor < |waits| then port.maxWaits - waits[cursor]
      else 0
    }

    /** Runs a plan. The target accepts exactly its first `k` requests, each once and in
        order, and all of them on success; every result is resolved, the first `|vals|`
        with success. The delivered values are those the plan defines, and the ports see
        exactly the accepted accesses, whatever stale data the target held. */
    method Execute(ctx: Ctx, steps: seq<Step>)
      returns (err: Option<Err>, ghost c: nat, ghost k: nat, ghost vals: seq<Word>, ghost m: nat)
      requires Untouched()
      requires port.Sound() && !port.st.pending && Block(steps, 0, |ops|) && Informed(port.st.select.Cached?, steps)
      modifies this`results, this`accepted, port`st, port.conn`link, port.conn.wire, ctx
      ensures err.None? ==>
                && port.Valid() && |results| == |ops| == |vals| && Succeeding(results, vals)
                && (steps != [] ==> old(port.conn.link.phase.Ready?))
                && Counted(seq(|ops|, _ => 0), accepted, steps, |steps|)
                && port.conn.wire.log == old(port.conn.wire.log) + Frames(steps)
                && Over(port.conn.wire.env, old(port.conn.wire.t), steps, vals, port.conn.wire.t)
      ensures err.Some? && k > 0 ==> old(port.conn.link.phase.Ready?)
      ensures err.Some? ==>
                && Ended(steps, c, k, Fresh(old(port.conn.wire.t)), Clean(old(port.conn.wire.t)),
                         old(port.conn.wire.log), vals, m)
                && Accounted(steps, c, k, results, |vals|, err.value)
    {
      hide Coherent, Agrees, Exact, Block, Placed, Left, Succeeding, Counted, Delivers, Knows, Outputs, Exec, Allowed,
           HistAfter, Finished, Informed, AllowedAll, Overrun, Excused, Reached, Over, Plain;
      ghost var u0, clean, known, log :=
        Fresh(port.conn.wire.t), Clean(port.conn.wire.t), port.st.select.Cached?, port.conn.wire.log;
      c, k, vals, m := 0, 0, [], 0;
      var waits: seq<nat> := seq(|steps|, _ => 0);
      var cursor := 0;
      StartPlaced(port.conn.wire.env, port.conn.wire.t, steps, accepted, known);
      while cursor < |steps|
        invariant Running(steps, cursor, u0, clean, known, log, vals) && |waits| == |steps|
        invariant Kept(old(port.conn.link), port.conn.link) && (cursor > 0 ==> old(port.conn.link.phase.Ready?))
        invariant forall j :: cursor < j < |steps| ==> waits[j] == 0
        invariant port.maxWaits > 0 && cursor < |steps| ==> waits[cursor] < port.maxWaits
        invariant cursor < |steps| && waits[cursor] > 0 ==>
                    !port.st.pending && Reached(port.conn.wire.env, u0, steps, cursor, port.conn.wire.t)
        decreases |steps| - cursor, Patience(waits, cursor, ctx)
      {
        var e, next, waited, kk, out, mm := Round(ctx, steps, cursor, waits[cursor], u0, clean, known, log, vals);
        vals := out;
        if e.Some? {
          return e, next, kk, out, mm;
        }
        if waited {
          waits := waits[next := waits[next] + 1];
        }
        cursor := next;
      }
      PlacedEnd(port.conn.wire.env, old(port.conn.wire.t), steps, vals, port.conn.wire.t);
      OpIndexEnd(steps, |ops|);
      assert Frames(steps)[..|steps|] == Frames(steps);
      err := None;
    }

    /** The register exists here and may be written so, for the operations that name one. */
    predicate Acceptable(op: Op)
      reads port
    {
      && ValidOp(op)
      && (op.ReadDp? ==> port.Supported(op.reg))
      && (op.WriteDp? ==> port.WriteValid(op.reg, op.data))
    }

    /** Resolves every result without traffic: its own error, or not executed. */
    method ResolveInvalid(bad: seq<bool>)
      requires |bad| == |results| && Succeeding(results, [])
      modifies this`results
      ensures |results| == |old(results)|
      ensures forall i :: 0 <= i < |results| ==> results[i] == Resolved(0, Some(if bad[i] then PLAIN else NOT_EXECUTED))
    {
      for i := 0 to |results|
        invariant |results| == |old(results)|
        invariant forall j :: 0 <= j < i ==> results[j] == Resolved(0, Some(if bad[j] then PLAIN else NOT_EXECUTED))
        invariant forall j :: i <= j < |results| ==> results[j].Waiting?
      {
        ResolveOne(i, 0, Some(if bad[i] then PLAIN else NOT_EXECUTED));
      }
    }

    /** Every operation has its result, the first `|vals|` of them success; the target
        accepted the first `k` requests of `plan`, once each and in order. */
    ghost predicate Done(plan: seq<Step>, k: nat, log: seq<Frame>, vals: seq<Word>)
      reads this, port, port.conn, port.conn.wire
    {
      && k <= |plan| && |vals| <= |results| == |ops|
      && (forall i :: 0 <= i < |vals| ==> results[i] == Resolved(vals[i], None))
      && (forall i :: |vals| <= i < |ops| ==> results[i].Resolved? && results[i].err.Some?)
      && port.conn.wire.log == log + Frames(plan)[..k]
    }

    /** Where a run of `plan` from `t1` ended: the steps before `at` succeeded and
        delivered `vals`, and the ports have seen exactly the first `k` requests. */
    ghost predicate Traced(plan: seq<Step>, at: nat, k: nat, t1: Target, vals: seq<Word>)
      reads this, port, port.conn, port.conn.wire
    {
      && at <= k <= |plan| && Counted(seq(|ops|, _ => 0), accepted, plan, at)
      && var env, t := port.conn.wire.env, port.conn.wire.t;
         && (Plain(Clean(t1), plan) ==> vals == Outputs(env, Fresh(t1), plan, at))
         && AllowedAll(env, Fresh(t1), plan, k)
         && HistAfter(env, Fresh(t1), Frames(plan), k, t)
         && (at < |plan| && plan[at].started && Excused(results, |vals|) ==> Reached(env, Fresh(t1), plan, at, t))
    }

    /** A successful queue: every read has the value, and the target is in the state, that
        running the operations one at a time from `t1` gives. */
    ghost predicate Meant(t1: Target, c: Cache, vals: seq<Word>)
      reads this, port, port.conn, port.conn.wire
    {
      ValidOps(ops) &&
      var o := NaiveRun(port.conn.wire.env, Fresh(t1), c, ops, 0, |ops|);
      vals == o.values && Bare(port.conn.wire.t) == Bare(o.t)
    }

    /** Executes the plan of the queue. */
    method RunPlan(ctx: Ctx, plan: seq<Step>, ghost c: Cache)
      returns (err: Option<Err>, ghost at: nat, ghost k: nat, ghost vals: seq<Word>)
      requires Untouched() && ops != [] && ValidOps(ops) && port.Sound() && !port.st.pending
      requires c == port.st.select && plan == Plan(Planner(c, false), ops, 0)
      modifies this`results, this`accepted, port`st, port.conn`link, port.conn.wire, ctx
      ensures port.Valid() && Done(plan, k, old(port.conn.wire.log), vals) &&
              Traced(plan, at, k, old(port.conn.wire.t), vals)
      ensures k > 0 && c.Cached? ==> old(port.conn.wire.t.select) == c.value
      ensures err.Some? ==> |vals| < |ops| && Broke(plan, at, k, results, vals, err.value)
      ensures err.None? ==>
                && plan != [] && at == k == |plan| && |vals| == |ops|
                && (Regular(Clean(old(port.conn.wire.t)), ops) ==> Meant(old(port.conn.wire.t), c, vals))
    {
      hide Coherent, Agrees, Block, Counted, Delivers, Outputs, Exec, Allowed, HistAfter, Informed, AllowedAll,
           Succeeding, Reached, Excused, Plan, NaiveRun, Norm, Finished, Plain, Over, Bare, Regular;
      ghost var t1 := port.conn.wire.t;
      PlanReady(Planner(c, false), ops);
      ghost var m;
      if port.conn.link.phase.Ready? {
        SettledExact(port.st, t1);
      }
      err, at, k, vals, m := Execute(ctx, plan);
      if err.None? {
        at, k := |plan|, |plan|;
        SucceedingDone(results, vals);
        OverSeen(port.conn.wire.env, t1, plan, vals, port.conn.wire.t);
        if Regular(Clean(t1), ops) {
          PlanCarries(port.conn.wire.env, t1, c, ops, vals, port.conn.wire.t);
        }
        assert Frames(plan)[..|plan|] == Frames(plan);
      } else {
        FinishedDone(results, vals, m);
        assert GivenUp(results, vals);
      }
    }

    /** Nothing was planned: no operation is executed. */
    method GiveAllUp(ghost t1: Target)
      requires Untouched() && port.Valid() && port.conn.wire.t.hist == t1.hist
      modifies this`results
      ensures Done([], 0, port.conn.wire.log, []) && Traced([], 0, 0, t1, [])
    {
      hide Coherent, Agrees, Counted, Outputs, Exec, Allowed, HistAfter, AllowedAll, Succeeding, Reached, Excused,
           Finished, Plain;
      NothingDone(port.conn.wire.env, t1, port.conn.wire.t, accepted);
      StartFailing(results);
      ResolveSuffix(0, []);
      FinishedDone(results, [], 0);
    }

    /** Settles an earlier write, plans the queue and executes the plan. */
    method ExecuteTxn(ctx: Ctx)
      returns (err: Option<Err>, ghost t1: Target, ghost c: Cache, ghost plan: seq<Step>, ghost at: nat, ghost k: nat,
               ghost vals: seq<Word>)
      requires port.Valid() && Untouched() && ops != [] && ValidOps(ops)
      modifies this`results, this`accepted, port`st, port.conn`link, port.conn.wire, ctx
      ensures port.Valid() && Done(plan, k, old(port.conn.wire.log), vals) && Traced(plan, at, k, t1, vals)
      ensures plan == [] || plan == Plan(Planner(c, false), ops, 0)
      ensures k > 0 && c.Cached? ==> t1.select == c.value
      ensures SamePlace(old(port.conn.wire.t), t1) && (!old(port.st.writePending) ==> t1 == old(port.conn.wire.t))
      ensures plan != [] && old(port.st.writePending) ==> Clean(t1)
      ensures err.Some? ==> |vals| < |ops| && (plan != [] ==> Broke(plan, at, k, results, vals, err.value))
      ensures err.None? ==>
                && plan != [] && at == k == |plan| && |vals| == |ops|
                && (Regular(Clean(t1), ops) ==> Meant(t1, c, vals))
    {
      hide Coherent, Agrees, Counted, Outputs, Exec, Allowed, HistAfter, AllowedAll, Succeeding, Reached, Excused, Plan,
           NaiveRun, Norm, Response, BankOf, Finished, Plain, Bare, Regular, Broke, Done, Traced, Meant;
      t1, c, plan, at, k, vals := port.conn.wire.t, port.st.select, [], 0, 0, [];
      err := port.SettlePrevious(ctx, false);
      if err.Some? {
        GiveAllUp(t1);
        return;
      }
      t1 := port.conn.wire.t;
      var planner := new SwdTxnPlanner(port.st.select, port.st.pending);
      planner.PlanAll(ops);
      plan := planner.steps;
      err, at, k, vals := RunPlan(ctx, planner.steps, c);
    }

    method Validate() returns (bad: seq<bool>)
      ensures |bad| == |ops|
      ensures forall i :: 0 <= i < |ops| ==> bad[i] == !Acceptable(ops[i])
    {
      bad := [];
      for i := 0 to |ops|
        invariant |bad| == i
        invariant forall j :: 0 <= j < i ==> bad[j] == !Acceptable(ops[j])
      {
        bad := bad + [!Acceptable(ops[i])];
      }
    }

    /** Commits the queue, once. Whatever happens, every operation is resolved, successes
        first; the target accepts a prefix of the plan, each request once; and a nil
        error means the whole plan, with the values and the state that running the
        operations one at a time gives. */
    method Commit(ctx: Ctx)
      returns (err: Option<Err>, ghost t1: Target, ghost c: Cache, ghost plan: seq<Step>, ghost at: nat, ghost k: nat,
               ghost vals: seq<Word>)
      requires port.Valid() && (!committed ==> Untouched())
      modifies this`results, this`accepted, this`committed, port`st, port.conn`link, port.conn.wire, ctx
      ensures port.Valid() && committed
      ensures old(committed) ==> err.Some? && results == old(results) && port.Unseen()
      ensures !old(committed) ==>
                && Done(plan, k, old(port.conn.wire.log), vals) && Traced(plan, at, k, t1, vals)
                && (plan == [] || (ValidOps(ops) && plan == Plan(Planner(c, false), ops, 0)))
                && (k > 0 && c.Cached? ==> t1.select == c.value)
                && SamePlace(old(port.conn.wire.t), t1) && (!old(port.st.writePending) ==> t1 == old(port.conn.wire.t))
                && (plan != [] && old(port.st.writePending) ==> Clean(t1))
                && (err.Some? ==> |vals| < |ops| && (plan != [] ==> Broke(plan, at, k, results, vals, err.value)))
      ensures !old(committed) && err.None? && ops != [] ==>
                && plan != [] && at == k == |plan| && |vals| == |ops|
                && (Regular(Clean(t1), ops) ==> Meant(t1, c, vals))
    {
      hide Coherent, Agrees, Outputs, Exec, Allowed, HistAfter, AllowedAll, Reached, Excused, Plan, NaiveRun, Norm,
           Counted, Broke;
      t1, c, plan, at, k, vals := port.conn.wire.t, port.st.select, [], 0, 0, [];
      NothingDone(port.conn.wire.env, t1, t1, accepted);
      if committed {
        err := Some(PLAIN);
        return;
      }
      committed := true;
      if ops == [] {
        err := None;
        return;
      }
      var bad := Validate();
      if exists i :: 0 <= i < |ops| && bad[i] {
        ResolveInvalid(bad);
        err := Some(PLAIN);
        return;
      }
      if !port.st.session.Connected? {
        ResolveInvalid(seq(|ops|, i => i == 0));
        err := Some(PLAIN);
        return;
      }
      err, t1, c, plan, at, k, vals := ExecuteTxn(ctx);
    }
  }

  lemma {:induction false} NothingDone(env: Env, t1: Target, t: Target, zeros: seq<nat>)
    requires t.hist == t1.hist
    ensures Counted(zeros, zeros, [], 0) && Outputs(env, Fresh(t1), [], 0) == [] && AllowedAll(env, Fresh(t1), [], 0)
    ensures HistAfter(env, Fresh(t1), Frames([]), 0, t) && Frames([])[..0] == []
  {
  }

  lemma {:induction false} StartFailing(results: seq<OpResult>)
    requires Succeeding(results, [])
    ensures Failing(results, [], 0)
  {
  }

  lemma {:induction false} SettledExact(st: PortState, t: Target)
    requires Agrees(st, t) && !st.pending
    ensures Exact(st, t)
  {
  }

  lemma {:induction false} FinishedDone(results: seq<OpResult>, vals: seq<Word>, m: nat)
    requires Finished(results, vals, m)
    ensures |vals| <= m <= |results|
    ensures forall i :: 0 <= i < |vals| ==> results[i] == Resolved(vals[i], None)
    ensures forall i :: |vals| <= i < |results| ==> results[i].Resolved? && results[i].err.Some?
  {
  }

  lemma {:induction false} SucceedingDone(results: seq<OpResult>, vals: seq<Word>)
    requires Succeeding(results, vals)
    ensures |vals| <= |results|
    ensures forall i :: 0 <= i < |vals| ==> results[i] == Resolved(vals[i], None)
  {
  }

  /** A plan is what the executor expects. */
  lemma {:induction false} PlanReady(p: Planner, ops: seq<Op>)
    requires ValidOps(ops)
    ensures Block(Plan(p, ops, 0), 0, |ops|) && Informed(p.select.Cached?, Plan(p, ops, 0))
    ensures ops != [] ==> Plan(p, ops, 0) != []
  {
    hide Informed, Plan, Local, Adjacent;
    PlanBlock(p, ops, 0);
    PlanInformed(p, ops, 0);
  }

  /** Without stale data of an earlier read. */
  function Fresh(t: Target): Target {
    t.(rdbuff := 0)
  }

  predicate Clean(t: Target) {
    t.rdbuff == 0
  }

  /** RESEND and RDBUFF apart: what the registers and the access ports hold. */
  function Bare(t: Target): Target {
    t.(rdbuff := 0, resend := 0)
  }

  /** A plan ran to its end from `t1`. */
  ghost predicate Over(env: Env, t1: Target, steps: seq<Step>, vals: seq<Word>, t: Target) {
    && (Plain(Clean(t1), steps) ==> vals == Outputs(env, Fresh(t1), steps, |steps|))
    && AllowedAll(env, Fresh(t1), steps, |steps|)
    && Like(Clean(t1), ReadBehind(steps, |steps|), t, Exec(env, Fresh(t1), Frames(steps), |steps|))
  }

  lemma {:induction false} OverSeen(env: Env, t1: Target, steps: seq<Step>, vals: seq<Word>, t: Target)
    requires Over(env, t1, steps, vals, t)
    ensures Plain(Clean(t1), steps) ==> vals == Outputs(env, Fresh(t1), steps, |steps|)
    ensures AllowedAll(env, Fresh(t1), steps, |steps|) && HistAfter(env, Fresh(t1), Frames(steps), |steps|, t)
  {
    hide Exec, Outputs, Allowed, Plain;
  }

  /** Queues that read RESEND, or stale data through RDBUFF, depend on earlier traffic. */
  ghost predicate Regular(clean: bool, ops: seq<Op>) {
    NoResend(ops) && (clean || forall i :: 0 <= i < |ops| ==> ops[i] != ReadDp(RDBUFF))
  }

  /** The meaning of a plan that ran to its end. */
  lemma {:induction false} PlanCarries(env: Env, t1: Target, c: Cache, ops: seq<Op>, vals: seq<Word>, t: Target)
    requires ValidOps(ops) && Regular(Clean(t1), ops) && (c.Cached? ==> t1.select == c.value)
    requires Over(env, t1, Plan(Planner(c, false), ops, 0), vals, t)
    ensures var o := NaiveRun(env, Fresh(t1), c, ops, 0, |ops|); vals == o.values && Bare(t) == Bare(o.t)
  {
    hide Outputs, Exec, Plan, NaiveRun, Norm, Allowed, Plain, AllowedAll;
    var plan := Plan(Planner(c, false), ops, 0);
    PlanPlain(Clean(t1), Planner(c, false), ops, 0);
    AllowedSmooth(env, Fresh(t1), plan);
    PlanMeans(env, Fresh(t1), c, ops, 0);
    NormBare(Run(env, Fresh(t1), plan), NaiveRun(env, Fresh(t1), c, ops, 0, |ops|).t);
  }

  lemma {:induction false} AllowedSmooth(env: Env, t: Target, steps: seq<Step>)
    requires AllowedAll(env, t, steps, |steps|)
    ensures Smooth(env, t, steps)
  {
    hide Allowed;
  }

  lemma {:induction false} NormBare(t: Target, u: Target)
    requires Norm(t) == Norm(u)
    ensures Bare(t) == Bare(u)
  {
  }

  lemma {:induction false} StepsPlain(clean: bool, p: Planner, i: nat, op: Op)
    requires ValidOp(op) && !op.ReadSeq? && op != ReadDp(RESEND) && (clean || op != ReadDp(RDBUFF))
    ensures Plain(clean, Lower(p, i, op))
  {
    hide SelectFor, BankValue, WriteSteps;
    if op.WriteSeq? {
      forall j | 0 <= j < |op.values|
        ensures !WriteSteps(i, op.addr, op.values, |op.values|)[j].deliverValue
      {
        WriteStepsAt(i, op.addr, op.values, |op.values|, j);
      }
    }
  }

  lemma {:induction false} GroupPlain(clean: bool, p: Planner, i: nat, value: Word, addr: Word, n: nat)
    requires n > 0
    ensures Plain(clean, Choose(p, i, value) + ReadSeqSteps(i, addr, n))
  {
    hide PostedSteps;
    forall j | 0 <= j < n
      ensures PostedSteps(i, addr, n)[j].deliverValue ==> Collects(PostedSteps(i, addr, n)[j])
    {
      PostedStepsAt(i, addr, n, j);
    }
  }

  lemma {:induction false} PlainConcat(clean: bool, a: seq<Step>, b: seq<Step>)
    requires Plain(clean, a) && Plain(clean, b)
    ensures Plain(clean, a + b)
  {
    hide Collects;
  }

  lemma {:induction false} PlanPlain(clean: bool, p: Planner, ops: seq<Op>, i: nat)
    requires i <= |ops| && ValidOps(ops) && Regular(clean, ops)
    ensures Plain(clean, Plan(p, ops, i))
    decreases |ops| - i
  {
    hide Plain, Lower, Choose, ReadSeqSteps, After;
    if i == |ops| {
      PlainNone(clean);
    } else if ops[i].ReadSeq? {
      var e := GroupEnd(ops, i, i + 1);
      GroupPlain(clean, p, i, ApSelect(ops[i]), ops[i].addr, e - i);
      PlanPlain(clean, After(p, ops[i]), ops, e);
      PlainConcat(clean, Choose(p, i, ApSelect(ops[i])) + ReadSeqSteps(i, ops[i].addr, e - i),
                  Plan(After(p, ops[i]), ops, e));
    } else {
      StepsPlain(clean, p, i, ops[i]);
      PlanPlain(clean, After(p, ops[i]), ops, i + 1);
      PlainConcat(clean, Lower(p, i, ops[i]), Plan(After(p, ops[i]), ops, i + 1));
    }
  }

  lemma {:induction false} PlainNone(clean: bool)
    ensures Plain(clean, [])
  {
  }

  lemma {:induction false} StartPlaced(env: Env, t: Target, steps: seq<Step>, zeros: seq<nat>, known: bool)
    ensures Placed(env, Fresh(t), Clean(t), steps, 0, [], t) && Counted(zeros, zeros, steps, 0)
    ensures Knows(known, steps, 0) == known && Delivers(steps, 0) == 0
  {
    ExecNone(env, Fresh(t), Frames(steps));
  }

  lemma {:induction false} LogGrows(log: seq<Frame>, steps: seq<Step>, c: nat, k: nat)
    requires c <= k <= |steps|
    ensures (log + Frames(steps)[..c]) + Frames(steps)[c..k] == log + Frames(steps)[..k]
  {
    var frames := Frames(steps);
    hide Frames;
    assert frames[..c] + frames[c..k] == frames[..k];
  }

  lemma {:induction false} PartInOrder(steps: seq<Step>, c: nat, e: nat, last: nat)
    requires Block(steps, 0, last) && c < e <= |steps|
    ensures InOrder(steps[c..e], last) && steps[c..e][0].op == Delivers(steps, c)
  {
    hide Block, Delivers, Adjacent;
    var part := steps[c..e];
    OpIndex(steps, last, c);
    forall j | 0 <= j < |part|
      ensures part[j].op < last
    {
      OpIndex(steps, last, c + j);
    }
    forall j | 0 <= j < |part| - 1
      ensures part[j + 1].op == part[j].op + (if part[j].deliver then 1 else 0)
    {
      BlockAdjacent(steps, 0, last, c + j);
      AdjacentOps(steps[c + j], steps[c + j + 1]);
    }
  }

  /** Recovery traffic changes nothing of what the plan did. */
  lemma {:induction false} FailureLeaves(env: Env, u0: Target, clean: bool, steps: seq<Step>, c: nat, k: nat,
                                         vals: seq<Word>, r: Res,
                                         t: Target, t': Target)
    requires c <= k <= |steps| && c < |steps| && Left(env, u0, clean, steps, c, k, vals, r, t) && t'.hist == t.hist
    ensures (Plain(clean, steps) ==> vals == Outputs(env, u0, steps, c)) && AllowedAll(env, u0, steps, k)
    ensures HistAfter(env, u0, Frames(steps), k, t')
    ensures r.e.Parity? || r.e.Wait? || c < k ==> Reached(env, u0, steps, c, t')
  {
    hide Exec, Outputs, Allowed, Resumed, AllowedAll, Plain, WaitedAt;
    if c < k {
      AcceptedReached(env, u0, steps, c, k, t');
    } else if r.e.Wait? {
      WaitReached(env, u0, clean, steps, c, t);
    }
  }

  lemma {:induction false} BatchWithin(steps: seq<Step>, c: nat, e: nat)
    requires Unmixed(steps, c, e)
    ensures c < e <= |steps|
  {
  }

  lemma {:induction false} StillReached(env: Env, t0: Target, steps: seq<Step>, c: nat, t: Target, t': Target)
    requires c < |steps|
    ensures Reached(env, t0, steps, c, t) && t'.hist == t.hist ==> Reached(env, t0, steps, c, t')
  {
    hide Exec, Allowed;
  }

  /** A step that may be retried is one that sticky flags would stop. */
  lemma {:induction false} NotExemptRetry(before: PortState, st: PortState, steps: seq<Step>, c: nat, known: bool,
                                          t: Target)
    requires c < |steps| && Informed(known, steps) && Exact(before, t) && !WaitForbidden(st, steps[c].f.req)
    requires st.select == before.select
    requires st.select.Cached? <==> Knows(known, steps, c)
    ensures !Exempt(steps[c].f.req, t.select)
  {
    hide Knows;
  }

  lemma {:induction false} PlacedEnd(env: Env, t1: Target, steps: seq<Step>, vals: seq<Word>, t: Target)
    requires Placed(env, Fresh(t1), Clean(t1), steps, |steps|, vals, t)
    ensures Over(env, t1, steps, vals, t)
  {
    hide Exec, Outputs, Allowed, Plain, Like;
  }

  lemma {:induction false} KeptCount(env: Env, t0: Target, fs: seq<Frame>, res: seq<Res>, f: nat, k: nat, t: Target)
    requires Delivered(env, t0, fs, res, f, k, t)
    ensures |res| == |fs| && f <= k <= |fs| && (f == 0 && Refused(res) ==> k == 0)
    ensures f < |res| && res[f].e.Wait? ==> k == f
    ensures k == 0 ==> t.hist == t0.hist
  {
    hide Response, Took, AllowedTo, Stopped, Resumed, Allowed, ValuesTo, Apply;
  }

  /** A failed step that the target took, or one behind it, ended in doubt. */
  lemma {:induction false} BeyondFails(env: Env, t0: Target, steps: seq<Step>, c: nat, e: nat, res: seq<Res>, f: nat,
                                       k: nat, t: Target)
    requires c <= e <= |steps| && Delivered(env, t0, Frames(steps[c..e]), res, f, k, t) && f < e - c
    ensures Beyond(steps, c + f, c + k) ==> res[f].e.Uncertain? || Posted(res, f)
  {
    hide Response, Took, Stopped, Resumed, Allowed, ValuesTo, HistAfter, Exec;
    assert Frames(steps[c..e])[f] == steps[c + f].f;
  }

  function FirstFailed(res: seq<Res>, i: nat := 0): (f: nat)
    requires i <= |res|
    ensures i <= f <= |res|
    ensures forall j :: i <= j < f ==> res[j].e.NoError?
    ensures f < |res| ==> !res[f].e.NoError?
    decreases |res| - i
  {
    if i == |res| || !res[i].e.NoError? then i else FirstFailed(res, i + 1)
  }

  lemma {:induction false} FailedIs(env: Env, t0: Target, fs: seq<Frame>, res: seq<Res>, f: nat, k: nat, t: Target)
    requires Delivered(env, t0, fs, res, f, k, t)
    ensures FirstFailed(res) == f && f <= k <= |fs| == |res| && (f == |fs| ==> k == f)
  {
    hide Exec, Response, Took, HistAfter, AllowedTo, Stopped, Resumed, Allowed;
  }

  lemma {:induction false} LogPart(log: seq<Frame>, steps: seq<Step>, c: nat, e: nat, k: nat)
    requires c <= e <= |steps| && k <= e - c
    ensures log + Frames(steps[c..e])[..k] == log + Frames(steps)[c..c + k]
  {
    FramesPart(steps, c, e);
  }

  /** Operation `n` failed, and not because it was given up before it began. */
  ghost predicate Begun(results: seq<OpResult>, n: nat) {
    n < |results| && results[n].Resolved? && results[n].err.Some? && !results[n].err.value.notExecuted
  }

  /** After the successes at least one operation failed, and those after the failed ones were not executed. */
  ghost predicate GivenUp(results: seq<OpResult>, vals: seq<Word>) {
    exists m: nat :: |vals| < m && Finished(results, vals, m)
  }

  /** How a run ends that failed at step `at`, `k` steps having been taken: operation `|vals|` failed
      after it began, the rest was given up, and the error says so of what may have happened. */
  ghost predicate Broke(plan: seq<Step>, at: nat, k: nat, results: seq<OpResult>, vals: seq<Word>, err: Err) {
    && at < |plan| && Begun(results, |vals|) && GivenUp(results, vals)
    && Accounted(plan, at, k, results, |vals|, err)
  }

  /** The result of operation `n` reports a complete operation. */
  ghost predicate Excused(results: seq<OpResult>, n: nat) {
    n < |results| && results[n].Resolved? && results[n].err.Some? && Completed(results[n].err.value)
  }

  /** An operation error that still says the operation is complete: bad parity, and
      nothing else, on its barrier. */
  predicate Completed(e: Err) {
    e.parity && !e.indeterminate
  }

  lemma {:induction false} FailOne(results: seq<OpResult>, vals: seq<Word>, e: Err)
    requires Succeeding(results, vals) && |vals| < |results|
    ensures results[|vals|].Waiting? && Failing(results[|vals| := Resolved(0, Some(e))], vals, |vals| + 1)
  {
  }

  lemma {:induction false} LostSound(st: PortState)
    ensures var m := LoseFraming(st);
            !m.pending && m.select == Empty && !ResponseKnown(m) && m.response.Lost?
  {
  }

  /** No request behind the first result was accepted. */
  predicate SuffixAbandoned(res: seq<Res>, i: nat, unsent: bool)
    requires 0 < i <= |res|
    decreases |res| - i
  {
    if i == |res| then true
    else if res[i].e.Unsent? then SuffixAbandoned(res, i + 1, true)
    else !unsent && res[i].e.Fault? && SuffixAbandoned(res, i + 1, unsent)
  }

  /** How many requests went out. */
  function Clocked(res: seq<Res>, i: nat := 1): (n: nat)
    requires 0 < i <= |res|
    ensures i <= n <= |res|
    ensures i == 1 && |res| > 1 && res[1].e.Unsent? ==> n == 1
    ensures i == 1 && |res| > 1 && !res[1].e.Unsent? ==> n > 1
    decreases |res| - i
  {
    if i == |res| || res[i].e.Unsent? then i else Clocked(res, i + 1)
  }
}
