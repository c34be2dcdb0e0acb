/** Transactions of access-port operations only, as the access ports see them. */
module DapApTxn {
  import opened Options
  import opened Contexts
  import opened Words
  import opened SwdTarget
  import opened SwdLink
  import opened SwdWire
  import opened SwdBatch
  import opened DapPlan
  import opened DapPlanShape
  import opened DapMeaning
  import opened DapState
  import opened DapPort
  import opened DapExec
  import opened DapTxn
  import opened DapPartial

  /** The accesses `h` after `h0`: a part of the queue's; the first `n` operations are
      complete, without a fault, and each of their reads has what the port returned. */
  ghost predicate Answered(env: Env, ops: seq<Op>, results: seq<OpResult>, h0: seq<ApAccess>, n: nat,
                           h: seq<ApAccess>) {
    && n <= |ops| == |results|
    && (forall j :: 0 <= j < n ==> results[j].Resolved? && results[j].err.None?)
    && (forall j :: n <= j < |ops| ==> results[j].Resolved? && results[j].err.Some?)
    && (forall j :: 0 <= j < n && IsRead(ops[j]) ==> results[j].value == env.value(h0 + Seen(ops, 0, j + 1)))
    && NoFault(env, h0, Seen(ops, 0, n)) && Partly(h0, Seen(ops, 0, |ops|), h) && Unbroken(env, h0, h)
    && (n == |ops| ==> h == h0 + Seen(ops, 0, |ops|))
  }

  lemma {:induction false} PlanSeen(env: Env, t: Target, c: Cache, ops: seq<Op>, plan: seq<Step>, k: nat, t': Target)
    requires ValidOps(ops) && Right(c, t) && plan == Plan(Planner(c, false), ops, 0)
    requires k <= |plan| && HistAfter(env, t, Frames(plan), k, t')
    ensures Partly(t.hist, Seen(ops, 0, |ops|), t'.hist)
    ensures k == |plan| && (ops != [] ==> plan[k - 1].f.req.read) ==> t'.hist == t.hist + Seen(ops, 0, |ops|)
  {
    hide Exec, Plan, Seen, Partly;
    HistPrefix(env, t, c, ops, 0, k);
    if k > 0 {
      HistPrefix(env, t, c, ops, 0, k - 1);
    }
    PlanNonEmpty(c, ops);
  }

  lemma {:induction false} PlanUnbroken(env: Env, t: Target, c: Cache, ops: seq<Op>, plan: seq<Step>, k: nat,
                                        t': Target)
    requires ValidOps(ops) && AllAp(ops) && plan == Plan(Planner(c, false), ops, 0)
    requires k <= |plan| && HistAfter(env, t, Frames(plan), k, t') && AllowedAll(env, t, plan, k)
    ensures Unbroken(env, t.hist, t'.hist)
  {
    hide Exec, Plan, AllowedAll, Unbroken;
    PlanNoAbort(Planner(c, false), ops, 0);
    FaultFree(env, t, plan, k);
    if k > 0 {
      AllowedFewer(env, t, plan, k - 1, k);
      FaultFree(env, t, plan, k - 1);
    }
  }

  lemma {:induction false} PlanNonEmpty(c: Cache, ops: seq<Op>)
    requires ValidOps(ops)
    ensures ops != [] ==> Plan(Planner(c, false), ops, 0) != []
    ensures var plan := Plan(Planner(c, false), ops, 0);
            plan != [] ==> ops != [] && plan[|plan| - 1].f.req.read && !plan[|plan| - 1].f.req.ap
  {
    hide Plan;
    PlanReady(Planner(c, false), ops);
    var plan := Plan(Planner(c, false), ops, 0);
    if plan != [] {
      BlockLocal(plan, 0, |ops|, |plan| - 1);
    }
  }

  lemma {:induction false} ApRegular(clean: bool, ops: seq<Op>)
    requires AllAp(ops)
    ensures Regular(clean, ops)
  {
  }

  /** What a run of an AP queue that reached step `at` has delivered. */
  lemma {:induction false} RunAnswers(env: Env, t: Target, c: Cache, ops: seq<Op>, plan: seq<Step>, at: nat,
                                      vals: seq<Word>)
    requires ValidOps(ops) && AllAp(ops) && Calm(c, t) && plan == Plan(Planner(c, false), ops, 0)
    requires at <= |plan| && AllowedAll(env, t, plan, at) && vals == Outputs(env, t, plan, at)
    ensures |vals| <= |ops| && NoFault(env, t.hist, Seen(ops, 0, |vals|))
    ensures forall j :: 0 <= j < |vals| && IsRead(ops[j]) ==> vals[j] == env.value(t.hist + Seen(ops, 0, j + 1))
  {
    hide Exec, Plan, Seen, NoFault, NaiveRun, Outputs, AllowedAll, Calm, IsRead, Delivers;
    PlanPrefix(env, t, c, ops, 0, at);
    var n := Delivers(plan, at);
    RunSees(env, t, c, ops, n);
    NothingFaults(env, t.hist);
    NoneSeenYet(ops);
    if n > 0 {
      NotSticky(NaiveRun(env, t, c, ops, 0, n).t);
    }
  }

  lemma {:induction false} NoneSeenYet(ops: seq<Op>)
    ensures Seen(ops, 0, 0) == []
  {
  }

  lemma {:induction false} NotSticky(t: Target)
    requires !Sticky(t)
    ensures !t.ctrl.error
  {
  }

  /** A data write sequence on its own: when all its writes were accepted and its barrier
      was not rejected, the ports have seen all of them and none ended in a fault. */
  lemma {:induction false} SequenceReached(env: Env, t: Target, c: Cache, ops: seq<Op>, plan: seq<Step>, at: nat,
                                           t': Target)
    requires ValidOps(ops) && |ops| == 1 && ops[0].WriteSeq? && Right(c, t) && plan == Plan(Planner(c, false), ops, 0)
    requires at < |plan| && Writes(plan, at, 0) == |ops[0].values| && Reached(env, t, plan, at, t')
    requires Partly(t.hist, Seen(ops, 0, 1), t'.hist) && AllowedAll(env, t, plan, at)
    ensures plan[at].started && t'.hist == t.hist + Seen(ops, 0, 1) && !env.faults(t'.hist)
  {
    hide Exec, Choose, WriteSteps, SelectFor, AllowedAll, NoAbort;
    var op := ops[0];
    assert plan == Lower(Planner(c, false), 0, op) by {
      assert Plan(After(Planner(c, false), op), ops, 1) == [];
    }
    SequenceWrites(c, op, plan, at);
    WriteSeqHist(env, t, c, 0, op, at);
    assert Seen(ops, 0, 0) == [] && Seen(ops, 0, 1) == AccessOf(op);
    PlanNoAbort(Planner(c, false), ops, 0);
    FaultFree(env, t, plan, at);
  }

  /** All data writes of a sequence come before its barrier, and nothing after it. */
  lemma {:induction false} SequenceWrites(c: Cache, op: Op, plan: seq<Step>, at: nat)
    requires ValidOp(op) && op.WriteSeq? && plan == Lower(Planner(c, false), 0, op)
    requires at < |plan| && Writes(plan, at, 0) == |op.values|
    ensures at == |plan| - 1 && plan[at].started
  {
    hide SelectFor, WriteSteps;
    var choose := Choose(Planner(c, false), 0, ApSelect(op));
    var n := |op.values|;
    var writes := WriteSteps(0, op.addr, op.values, n);
    assert plan == choose + (writes + [plan[|plan| - 1]]);
    if at < |plan| - 1 {
      FewerWrites(plan, |choose|, at);
    }
  }

  lemma {:induction false} FewerWrites(steps: seq<Step>, c: nat, at: nat)
    requires c <= |steps| && at <= |steps| && forall j :: 0 <= j < c ==> !steps[j].acceptWrite
    ensures Writes(steps, at, 0) <= if at <= c then 0 else at - c
  {
    if at > 0 {
      FewerWrites(steps, c, at - 1);
    }
  }

  /** How many values of a write sequence are confirmed in the target. */
  function ConfirmedWrites(op: Op, result: OpResult, accepted: nat): nat
    requires op.WriteSeq?
  {
    if !result.Resolved? then 0
    else if result.err.None? then |op.values|
    else if accepted == |op.values| && Completed(result.err.value) then |op.values|
    else 0
  }

  /** What the error of a failed write says of its effect: that it is open, or the ports have seen nothing of
      the write, or the target reported lost data, or only the answer to the last barrier was bad. */
  ghost predicate Confessed(ops: seq<Op>, results: seq<OpResult>, accepted: seq<nat>, n: nat, h0: seq<ApAccess>,
                            h: seq<ApAccess>, err: Err)
    requires |accepted| == |ops| == |results|
  {
    n < |ops| && IsWriteOp(ops[n]) ==>
      || err.indeterminate
      || h == h0 + Seen(ops, 0, n)
      || (&& results[n].Resolved? && results[n].err == Some(err) && (ReportsWdata(err) || Completed(err))
          && (|ops| == 1 && ops[0].WriteSeq? ==> accepted[0] == |ops[0].values|))
  }

  /** An error that does not hide what may have happened: it says that the outcome is open, or that only the
      answer to a completed write was bad, or it carries the captured report of lost write data. */
  predicate Open(err: Err) {
    err.indeterminate || Completed(err) || ReportsWdata(err)
  }

  /** When the ports have seen more writes than operations succeeded, the error is open about it. */
  lemma {:induction false} WritesOpen(ops: seq<Op>, results: seq<OpResult>, accepted: seq<nat>, n: nat,
                                      h0: seq<ApAccess>, h: seq<ApAccess>, err: Err)
    requires |accepted| == |ops| == |results| && n < |ops| && Confessed(ops, results, accepted, n, h0, h, err)
    requires (forall i :: 0 <= i < |ops| ==> ops[i].WriteAp?) && |h| > |h0| + n
    ensures Open(err)
  {
    hide Seen;
    SingleWrites(ops, n);
  }

  lemma {:induction false} SingleWrites(ops: seq<Op>, n: nat)
    requires n <= |ops| && forall i :: 0 <= i < |ops| ==> ops[i].WriteAp?
    ensures |Seen(ops, 0, n)| == n
  {
    if n > 0 {
      SingleWrites(ops, n - 1);
    }
  }

  /** Stopped before anything of operation `n` happened. */
  lemma {:induction false} StoppedOpening(env: Env, u: Target, c: Cache, ops: seq<Op>, plan: seq<Step>, at: nat, k: nat,
                                          t: Target)
    requires ValidOps(ops) && Right(c, u) && plan == Plan(Planner(c, false), ops, 0) && at < |plan| && !plan[at].started
    requires at <= k <= |plan| && !Beyond(plan, at, k) && HistAfter(env, u, Frames(plan), k, t)
    ensures plan[at].op < |ops| && (IsWriteOp(ops[plan[at].op]) ==> t.hist == u.hist + Seen(ops, 0, plan[at].op))
  {
    hide Plan, Seen, Exec, IsWriteOp;
    OpeningHist(env, u, c, ops, 0, at);
    if k > at {
      StepSilent(env, u, plan, at);
    } else if at > 0 {
      StepSilent(env, u, plan, at - 1);
    }
  }

  /** A debug-port step shows nothing to the access ports. */
  lemma {:induction false} StepSilent(env: Env, u: Target, plan: seq<Step>, j: nat)
    requires j < |plan|
    ensures !plan[j].f.req.ap ==> Exec(env, u, Frames(plan), j + 1).hist == Exec(env, u, Frames(plan), j).hist
  {
    hide Apply;
    if !plan[j].f.req.ap {
      DpStepHist(env, Exec(env, u, Frames(plan), j), plan[j]);
    }
  }

  /** The barrier of a write sequence comes when all its writes were accepted. */
  lemma {:induction false} BarrierLast(c: Cache, ops: seq<Op>, at: nat)
    requires ValidOps(ops) && |ops| == 1 && ops[0].WriteSeq? && at < |Plan(Planner(c, false), ops, 0)|
    requires Plan(Planner(c, false), ops, 0)[at].started && WriteBarrierStep(Plan(Planner(c, false), ops, 0)[at])
    ensures Writes(Plan(Planner(c, false), ops, 0), at, 0) == |ops[0].values|
  {
    hide SelectFor, Plan, WriteSteps;
    PlanIsLower(c, ops);
    var op, plan := ops[0], Plan(Planner(c, false), ops, 0);
    var choose := Choose(Planner(c, false), 0, ApSelect(op));
    if |choose| <= at < |choose| + |op.values| {
      WriteStepsAt(0, op.addr, op.values, |op.values|, at - |choose|);
    }
    CountWrites(plan, |choose|, |op.values|, op);
  }

  lemma {:induction false} CountWrites(plan: seq<Step>, first: nat, n: nat, op: Op)
    requires op.WriteSeq? && n <= |op.values| && first + n <= |plan|
    requires forall j :: 0 <= j < first ==> !plan[j].acceptWrite
    requires forall j :: first <= j < first + |op.values| && j < |plan| ==>
               plan[j] == WriteSteps(0, op.addr, op.values, |op.values|)[j - first]
    ensures Writes(plan, first + n, 0) == n
  {
    hide WriteSteps;
    if n > 0 {
      CountWrites(plan, first, n - 1, op);
      WriteStepsAt(0, op.addr, op.values, |op.values|, n - 1);
    } else {
      FewerWrites(plan, first, first);
    }
  }

  lemma {:induction false} Confesses(env: Env, t1: Target, c: Cache, ops: seq<Op>, plan: seq<Step>, at: nat, k: nat,
                                     vals: seq<Word>, results: seq<OpResult>, accepted: seq<nat>, t: Target, err: Err)
    requires AllAp(ops) && |results| == |ops| == |accepted| && |vals| < |ops| && at <= k <= |plan|
    requires plan == [] || (ValidOps(ops) && plan == Plan(Planner(c, false), ops, 0))
    requires Plain(Clean(t1), plan) ==> vals == Outputs(env, Fresh(t1), plan, at)
    requires HistAfter(env, Fresh(t1), Frames(plan), k, t) && Counted(seq(|ops|, _ => 0), accepted, plan, at)
    requires k > 0 && c.Cached? ==> t1.select == c.value
    requires plan != [] ==> Accounted(plan, at, k, results, |vals|, err)
    ensures Confessed(ops, results, accepted, |vals|, t1.hist, t.hist, err)
  {
    hide Plan, Seen, Exec, Plain, Outputs, Counted, AllAp, Beyond, HistAfter, ValidOps, Writes;
    var u := Fresh(t1);
    ApRegular(Clean(t1), ops);
    PlainNone(Clean(t1));
    NoneSeenYet(ops);
    if plan != [] {
      PlanPlain(Clean(t1), Planner(c, false), ops, 0);
      PlanBlock(Planner(c, false), ops, 0);
      OpIndex(plan, |ops|, at);
      OutputsCount(env, u, plan, at);
      if k == 0 {
        NothingRan(env, u, plan, vals, t, ops);
        NoneDelivered(plan);
      } else if !plan[at].started {
        if !err.indeterminate {
          StoppedOpening(env, u, c, ops, plan, at, k, t);
        }
      } else {
        WritingPlan(Planner(c, false), ops, 0, at);
        if |ops| == 1 && ops[0].WriteSeq? && !err.indeterminate {
          BarrierLast(c, ops, at);
          AcceptedIs(ops, accepted, plan, at);
        }
      }
    } else {
      NothingRan(env, u, plan, vals, t, ops);
    }
  }

  lemma {:induction false} AcceptedIs(ops: seq<Op>, accepted: seq<nat>, plan: seq<Step>, at: nat)
    requires |ops| == 1 && at <= |plan| && Counted(seq(|ops|, _ => 0), accepted, plan, at)
    ensures |accepted| == 1 && accepted[0] == Writes(plan, at, 0)
  {
  }

  lemma {:induction false} OutputsCount(env: Env, t: Target, steps: seq<Step>, i: nat)
    requires i <= |steps|
    ensures |Outputs(env, t, steps, i)| == Delivers(steps, i)
  {
    hide Exec, Response;
    if i > 0 {
      OutputsCount(env, t, steps, i - 1);
    }
  }

  lemma {:induction false} NoneDelivered(plan: seq<Step>)
    ensures Delivers(plan, 0) == 0
  {
  }

  /** Commits a queue of AP operations. The ports see the queue's accesses in order, from
      the first on and each once, all of them on success; and every read that succeeds
      has what its port returned to it. */
  method CommitAp(txn: Txn, ctx: Ctx) returns (err: Option<Err>, ghost n: nat)
    requires txn.port.Valid() && txn.Queued() && AllAp(txn.ops)
    modifies txn`results, txn`accepted, txn`committed, txn.port`st, txn.port.conn`link, txn.port.conn.wire, ctx
    ensures txn.port.Valid()
    ensures Answered(txn.port.conn.wire.env, txn.ops, txn.results, old(txn.port.conn.wire.t.hist), n,
                     txn.port.conn.wire.t.hist)
    ensures err.None? ==> n == |txn.ops|
    ensures |txn.accepted| == |txn.ops|
    ensures n < |txn.ops| && !Begun(txn.results, n) ==> txn.port.conn.wire.t.hist == old(txn.port.conn.wire.t.hist)
    ensures err.Some? ==>
              && n < |txn.ops|
              && Confessed(txn.ops, txn.results, txn.accepted, n, old(txn.port.conn.wire.t.hist),
                           txn.port.conn.wire.t.hist, err.value)
    ensures |txn.ops| == 1 && txn.ops[0].WriteSeq? &&
            ConfirmedWrites(txn.ops[0], txn.results[0], txn.accepted[0]) > 0 ==>
              && txn.port.conn.wire.t.hist == old(txn.port.conn.wire.t.hist) + Seen(txn.ops, 0, 1)
              && !txn.port.conn.wire.env.faults(txn.port.conn.wire.t.hist)
  {
    hide Exec, Plan, Seen, Partly, NoFault, Outputs, AllowedAll, Plain, Regular, Norm, Reached, Allowed, HistAfter,
         Coherent, Agrees, IsRead, Excused, NaiveRun, Confessed, Accounted;
    ghost var t1, c, plan, at, k, vals;
    err, t1, c, plan, at, k, vals := txn.Commit(ctx);
    n := |vals|;
    CountedLength(seq(|txn.ops|, _ => 0), txn.accepted, plan, at);
    ApAnswers(txn.port.conn.wire.env, t1, c, txn.ops, plan, at, k, vals, err.None?, txn.results, txn.accepted,
              txn.port.conn.wire.t);
    if err.Some? {
      Confesses(txn.port.conn.wire.env, t1, c, txn.ops, plan, at, k, vals, txn.results, txn.accepted,
                txn.port.conn.wire.t, err.value);
    }
  }

  /** What a committed AP queue has done, read off its trace. */
  lemma {:induction false} ApAnswers(env: Env, t1: Target, c: Cache, ops: seq<Op>, plan: seq<Step>, at: nat, k: nat,
                                     vals: seq<Word>, ok: bool, results: seq<OpResult>, accepted: seq<nat>, t: Target)
    requires AllAp(ops) && |results| == |ops| == |accepted| && |vals| <= |ops| && at <= k <= |plan|
    requires plan == [] || (ValidOps(ops) && plan == Plan(Planner(c, false), ops, 0))
    requires forall i :: 0 <= i < |vals| ==> results[i] == Resolved(vals[i], None)
    requires forall i :: |vals| <= i < |ops| ==> results[i].Resolved? && results[i].err.Some?
    requires Plain(Clean(t1), plan) ==> vals == Outputs(env, Fresh(t1), plan, at)
    requires AllowedAll(env, Fresh(t1), plan, k) && HistAfter(env, Fresh(t1), Frames(plan), k, t)
    requires at < |plan| && plan[at].started && Excused(results, |vals|) ==> Reached(env, Fresh(t1), plan, at, t)
    requires Counted(seq(|ops|, _ => 0), accepted, plan, at)
    requires k > 0 && c.Cached? ==> t1.select == c.value
    requires ok && ops != [] ==> plan != [] && at == k == |plan| && |vals| == |ops|
    requires !ok ==> |vals| < |ops| && (plan != [] ==> at < |plan| && Begun(results, |vals|))
    ensures Answered(env, ops, results, t1.hist, |vals|, t.hist)
    ensures |vals| < |ops| && !Begun(results, |vals|) ==> t.hist == t1.hist
    ensures |ops| == 1 && ops[0].WriteSeq? && ConfirmedWrites(ops[0], results[0], accepted[0]) > 0 ==>
              t.hist == t1.hist + Seen(ops, 0, 1) && !env.faults(t.hist)
  {
    hide Exec, Plan, Seen, Partly, NoFault, Outputs, AllowedAll, Plain, Regular, Norm, Reached, Allowed, HistAfter,
         IsRead, Excused, NaiveRun, Counted, ValidOps, AllAp, Frames, Unbroken;
    var u := Fresh(t1);
    ApRegular(Clean(t1), ops);
    PlainNone(Clean(t1));
    if plan != [] {
      PlanPlain(Clean(t1), Planner(c, false), ops, 0);
    }
    if k == 0 {
      NothingRan(env, u, plan, vals, t, ops);
      NoneSeenYet(ops);
      NothingFaults(env, u.hist);
      NoneCounted(ops, accepted, plan);
      UnbrokenNone(env, u.hist);
    } else {
      AllowedFewer(env, u, plan, at, k);
      RunAnswers(env, u, c, ops, plan, at, vals);
      PlanNonEmpty(c, ops);
      PlanSeen(env, u, c, ops, plan, k, t);
      PlanUnbroken(env, u, c, ops, plan, k, t);
      if |ops| == 1 && ops[0].WriteSeq? && ConfirmedWrites(ops[0], results[0], accepted[0]) > 0 {
        if vals == [] {
          WrittenOnce(env, u, c, ops, plan, at, k, vals, results, accepted, t);
        } else {
          WrittenWell(env, u.hist, ops);
        }
      }
    }
  }

  lemma {:induction false} NoneCounted(ops: seq<Op>, now: seq<nat>, steps: seq<Step>)
    requires Counted(seq(|ops|, _ => 0), now, steps, 0)
    ensures |now| == |ops| && forall i :: 0 <= i < |now| ==> now[i] == 0
  {
  }

  lemma {:induction false} CountedLength(base: seq<nat>, now: seq<nat>, steps: seq<Step>, i: nat)
    requires i <= |steps| && Counted(base, now, steps, i)
    ensures |now| == |base|
  {
  }

  lemma {:induction false} NothingRan(env: Env, u: Target, plan: seq<Step>, vals: seq<Word>, t: Target, ops: seq<Op>)
    requires HistAfter(env, u, Frames(plan), 0, t)
    ensures t.hist == u.hist && NoFault(env, u.hist, Seen(ops, 0, 0)) && Partly(u.hist, Seen(ops, 0, |ops|), t.hist)
    ensures Outputs(env, u, plan, 0) == []
  {
    hide Seen;
    NoneSeenYet(ops);
  }

  lemma {:induction false} WrittenOnce(env: Env, u: Target, c: Cache, ops: seq<Op>, plan: seq<Step>, at: nat, k: nat,
                                       vals: seq<Word>, results: seq<OpResult>, accepted: seq<nat>, t: Target)
    requires ValidOps(ops) && |ops| == |results| == 1 && ops[0].WriteSeq? && Right(c, u) &&
             plan == Plan(Planner(c, false), ops, 0)
    requires at <= k <= |plan| && |vals| == 0 && results[0].Resolved? && results[0].err.Some?
    requires Counted(seq(|ops|, _ => 0), accepted, plan, at)
    requires ConfirmedWrites(ops[0], results[0], accepted[0]) > 0
    requires at < |plan| && (plan[at].started && Excused(results, 0) ==> Reached(env, u, plan, at, t))
    requires Partly(u.hist, Seen(ops, 0, 1), t.hist) && AllowedAll(env, u, plan, at)
    ensures t.hist == u.hist + Seen(ops, 0, 1) && !env.faults(t.hist)
  {
    hide Exec, Plan, Seen, Partly, Reached, Allowed, AllowedAll;
    assert Writes(plan, at, 0) == |ops[0].values|;
    PlanIsLower(c, ops);
    SequenceWrites(c, ops[0], plan, at);
    SequenceReached(env, u, c, ops, plan, at, t);
  }

  /** A complete write sequence without a fault. */
  lemma {:induction false} WrittenWell(env: Env, h: seq<ApAccess>, ops: seq<Op>)
    requires ValidOps(ops) && |ops| == 1 && ops[0].WriteSeq? && NoFault(env, h, Seen(ops, 0, 1))
    ensures !env.faults(h + Seen(ops, 0, 1))
  {
    hide WritesOf;
    var s := Seen(ops, 0, 1);
    assert Seen(ops, 0, 0) == [] && s == AccessOf(ops[0]);
    assert s[..|s|] == s;
  }

  lemma {:induction false} PlanIsLower(c: Cache, ops: seq<Op>)
    requires ValidOps(ops) && |ops| == 1 && !ops[0].ReadSeq?
    ensures Plan(Planner(c, false), ops, 0) == Lower(Planner(c, false), 0, ops[0])
  {
    hide Lower;
    assert Plan(After(Planner(c, false), ops[0]), ops, 1) == [];
  }
}
