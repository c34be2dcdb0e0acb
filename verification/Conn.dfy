/** The connection object: single transfers and batches over one wire. */
module SwdConn {
  import opened Options
  import opened Contexts
  import opened SwdTarget
  import opened SwdLink
  import opened SwdWire
  import opened SwdBatch
  import opened SwdAnswers

  /** Nothing was sent. */
  ghost predicate Refused(res: seq<Res>) {
    forall i :: 0 <= i < |res| ==> res[i].e.Unsent? || res[i].e.Invalid?
  }

  /** Every operation of a queue has a register address and passes validation in its turn. */
  ghost predicate Sendable(l: Link, ops: seq<Frame>) {
    (forall i :: 0 <= i < |ops| ==> ValidAddr(ops[i].req.addr)) && DryValid(l, ops)
  }

  /** A packed exchange must end with operation `j`: ABORT, or one that may be answered
      in another bank than the pending SELECT asked for. */
  ghost predicate EndsChunk(l: Link, ops: seq<Frame>, start: nat, j: nat)
    requires start <= j < |ops|
  {
    var d := Dry(l, ops[start..], j - start);
    IsAbortWrite(ops[j].req) || (d.pending && MayReachCtrlStat(ops[j].req, d.prior))
  }

  /** With simple responses, a batch that met WAIT at operation `f` may go on. */
  ghost predicate Parked(l: Link, res: seq<Res>, f: nat) {
    l.mode.Simple? && f < |res| && res[f].e.Wait? ==> l.phase.Ready?
  }

  class Conn {
    const wire: Wire
    var link: Link

    constructor (wire: Wire)
      ensures this.wire == wire && Valid() && link.phase.Idle? && link.original.None?
    {
      this.wire := wire;
      link := Link(Simple, Idle, Unknown, Unknown, false, None, None);
    }

    /** A ready connection agrees with its target. */
    ghost predicate Valid()
      reads this, wire
    {
      link.phase.Ready? ==> Coherent(link, wire.t)
    }

    /** Clocks one frame in the current grammar. A wire failure is `Uncertain`. */
    method TransferFrame(f: Frame, ghost plan: bool) returns (r: Res, ghost c: Choice, ghost sent: bool)
      modifies wire
      ensures sent ==> wire.t == Step(wire.env, old(wire.t), f, c)
      ensures !sent ==> wire.t == old(wire.t)
      ensures wire.log == old(wire.log) +
              (if plan && sent && Accepts(ReplyTo(wire.env, old(wire.t), f, c)) then [f] else [])
      ensures !r.e.Uncertain? ==>
                var reply := ReplyTo(wire.env, old(wire.t), f, c);
                sent && r == Res(ValueOf(reply), FailureOf(reply))
      ensures r.e.Wait? || r.e.Fault? ==> Overrun(old(wire.t)) == link.mode.Fixed?
    {
      hide Step, ReplyTo;
      var ok, replies, cs, m := wire.Exchange([f], link.mode.Fixed?, plan);
      c, sent := cs[0], m == 1;
      assert Serve(wire.env, old(wire.t), [f], cs, 1) == Step(wire.env, Serve(wire.env, old(wire.t), [f], cs, 0), f, c);
      r := if ok then Res(ValueOf(replies[0]), FailureOf(replies[0])) else Res(0, Uncertain);
    }

    /** Clears STICKYORUN after WAIT; any other answer than OK requires repair. */
    method ClearOverrun() returns (ok: bool)
      modifies this`link, wire
      ensures wire.log == old(wire.log) && wire.t.hist == old(wire.t.hist)
      ensures wire.t.select == old(wire.t.select) && Overrun(wire.t) == Overrun(old(wire.t))
      ensures Power(wire.t) == Power(old(wire.t)) && (ok ==> link == old(link))
      ensures ok ==> || wire.t == Apply(wire.env, old(wire.t), CLEAR_OVERRUN)
                     || wire.t == Lose(old(wire.t))
      ensures !ok ==> link == RequireRepair(old(link))
    {
      var r, c, sent := TransferFrame(CLEAR_OVERRUN, false);
      ok := r.e.NoError?;
      if !ok {
        link := RequireRepair(link);
      }
    }

    /** The results of `fs` against the target, which answered the first `m` of them by `cs`. */
    twostate predicate Served(fs: seq<Frame>, res: seq<Res>, cs: seq<Choice>, m: nat, plan: bool)
      reads wire
    {
      && Account(wire.env, old(wire.t), fs, res, cs, m, wire.t, old(wire.log), wire.log, plan)
      && ((forall i :: 0 <= i < |res| ==> res[i].e.NoError?) ==>
            m == |fs| && wire.t == Serve(wire.env, old(wire.t), fs, cs, m))
    }

    /** One validated register operation on a ready connection, sent once. */
    method Send(f: Frame, ghost plan: bool) returns (r: Res, ghost k: nat, ghost c: Choice, ghost m: nat)
      requires link.phase.Ready? && Coherent(link, wire.t) && Validates(link, f)
      modifies this`link, wire
      ensures Valid()
      ensures k <= 1 && wire.log == old(wire.log) + (if plan then [f][..k] else [])
      ensures Delivered(wire.env, old(wire.t), [f], [r], if r.e.NoError? then 1 else 0, k, wire.t)
      ensures Served([f], [r], [c], m, plan)
      ensures Kept(old(link), link)
      ensures r.e.NoError? ==> k == 1 && link.phase.Ready?
      ensures link.phase.Ready? ==> !r.e.Uncertain? && !r.e.Unclean?
      ensures link.mode.Simple? && r.e.Wait? ==> link.phase.Ready?
    {
      hide Step, ReplyTo, Delivered, Observe, Validates, Apply, Lose;
      ghost var t0, l := wire.t, link;
      var r0;
      ghost var sent;
      r0, c, sent := TransferFrame(f, plan);
      r, k, m := r0, if sent then Accepted(wire.env, t0, f, c) else 0, if sent then 1 else 0;
      OneServed(wire.env, t0, f, c);
      if r.e.Uncertain? {
        OneLost(wire.env, t0, f, c, sent, r);
        link := RequireRepair(link);
        return;
      }
      ghost var s := wire.t;
      SentCoherent(wire.env, l, t0, f, c, r);
      if link.mode.Fixed? && r.e.Wait? {
        if IsAbortWrite(f.req) {
          link := RequireRepair(link);
          r := Res(0, Unclean);
        } else {
          var ok := ClearOverrun();
          if !ok {
            r := Res(0, Unclean);
          } else {
            CleanupCoherent(wire.env, l, s, wire.t);
            if link.pending {
              link := RequireRepair(link);
            }
          }
        }
      }
      link := Observe(link, f, r.value, r.e);
      OneAnswered(wire.env, t0, f, c, r, l.mode.Fixed?, wire.t);
    }

    /** Observes every reply of a packed chunk. A WAIT met while a SELECT write is
        provisional is only noted. */
    method ObserveReplies(fs: seq<Frame>, rs: seq<Reply>) returns (pendingWait: bool, exempt: seq<bool>)
      requires |fs| == |rs|
      modifies this`link
      ensures link == ObserveTo(old(link), fs, rs, |fs|)
      ensures |exempt| == |fs| &&
              forall i :: 0 <= i < |fs| ==> exempt[i] == HostExempt(ObserveTo(old(link), fs, rs, i), fs[i].req)
      ensures pendingWait <==> exists i :: 0 <= i < |fs| && rs[i].Waited? && ObserveTo(old(link), fs, rs, i).pending
    {
      hide Observe, ObserveTo, HostExempt;
      ObserveNone(link, fs, rs);
      pendingWait, exempt := false, [];
      for i := 0 to |fs|
        invariant link == ObserveTo(old(link), fs, rs, i)
        invariant |exempt| == i &&
                  forall j :: 0 <= j < i ==> exempt[j] == HostExempt(ObserveTo(old(link), fs, rs, j), fs[j].req)
        invariant pendingWait <==> exists j :: 0 <= j < i && rs[j].Waited? && ObserveTo(old(link), fs, rs, j).pending
      {
        exempt := exempt + [HostExempt(link, fs[i].req)];
        RejectionTeachesNothing(link, fs[i]);
        ObserveNext(old(link), fs, rs, i);
        if rs[i].Waited? && link.pending {
          pendingWait := true;
        } else {
          link := Observe(link, fs[i], ValueOf(rs[i]), FailureOf(rs[i]));
        }
      }
    }

    /** Clears STICKYORUN after a WAIT in a packed chunk; impossible if ABORT itself was
        asked to wait. */
    method CleanupPackedWait(abort: bool, pendingWait: bool) returns (clean: bool)
      requires link.phase.Ready? && Coherent(link, wire.t)
      modifies this`link, wire
      ensures Valid() && Kept(old(link), link) && (link.phase.Ready? ==> link == old(link) && clean)
      ensures wire.log == old(wire.log) && wire.t.hist == old(wire.t.hist) && Power(wire.t) == Power(old(wire.t))
      ensures clean ==> wire.t == Apply(wire.env, old(wire.t), CLEAR_OVERRUN) || wire.t == Lose(old(wire.t))
    {
      hide Coherent, Apply, Lose;
      if abort {
        link := RequireRepair(link);
        clean := false;
      } else {
        clean := ClearOverrun();
        if clean {
          CleanupCoherent(wire.env, link, old(wire.t), wire.t);
        }
      }
      if pendingWait {
        link := RequireRepair(link);
      }
    }

    /** Turns a chunk's replies into results: a frame accepted after a rejected one
        is out of order and makes the rest uncertain; a WAIT is cleaned up. */
    method FinishChunk(fs: seq<Frame>, rs: seq<Reply>, pendingWait: bool, exempt: seq<bool>) returns (res: seq<Res>)
      requires |fs| == |rs| == |exempt|
      requires link.phase.Ready? && Coherent(link, wire.t)
      modifies this`link, wire
      ensures Valid()
      ensures |res| == |fs| && wire.log == old(wire.log) && wire.t.hist == old(wire.t.hist)
      ensures Power(wire.t) == Power(old(wire.t))
      ensures forall i :: 0 <= i < |fs| ==> Says(res[i], true, rs[i])
      ensures Orderly(rs) ==> Reports(res, rs) && Cleaned(wire.env, rs, res, true, old(wire.t), wire.t)
      ensures (forall i :: 0 <= i < |rs| ==> rs[i].Done?) ==> link == old(link) && wire.t == old(wire.t)
      ensures Kept(old(link), link)
      ensures link.phase.Ready? ==> link == old(link) && Sure(res)
      ensures forall i :: 0 <= i < |fs| && res[i].e.NoError? ==> rs[i].Done?
    {
      hide Coherent, Apply, Lose, Successes, Says;
      res := seq(|fs|, i requires 0 <= i < |fs| => Res(ValueOf(rs[i]), FailureOf(rs[i])));
      forall i | 0 <= i < |fs|
        ensures Says(res[i], true, rs[i]) && Says(Res(0, Uncertain), true, rs[i])
        ensures rs[i].Waited? ==> Says(Res(0, Unclean), true, rs[i])
      {
        ReplySays(rs[i]);
      }
      var first := FirstRejected(rs);
      var i := first + 1;
      while i < |fs| && (rs[i].Faulted? || (exempt[i] && Accepts(rs[i])))
        invariant first < i
      {
        i := i + 1;
      }
      if first < |fs| && i < |fs| {
        link := RequireRepair(link);
        res := res[..i] + seq(|fs| - i, _ => Res(0, Uncertain));
      }
      var w := FirstWaited(rs);
      if w < |fs| && link.phase.Ready? {
        var clean := CleanupPackedWait(IsAbortWrite(fs[w].req), pendingWait);
        if !clean {
          res := res[w := Res(0, Unclean)];
        }
      }
    }

    /** One packed exchange. `d` is the dry-run link the chunk was validated with. */
    method CommitChunk(fs: seq<Frame>, ghost d: Link, ghost plan: bool)
      returns (res: seq<Res>, ghost f: nat, ghost k: nat, ghost cs: seq<Choice>, ghost m: nat)
      requires fs != [] && link.phase.Ready? && link.mode.Fixed? && Coherent(link, wire.t)
      requires Coherent(d, wire.t) && d.mode.Fixed? && DryValid(d, fs) && AbortLast(fs)
      modifies this`link, wire
      ensures Valid() && |res| == |fs| && k <= |fs|
      ensures (forall i :: 0 <= i < |fs| ==> res[i].e.NoError?) ==>
                link.phase.Ready? && link.mode.Fixed? && Coherent(Dry(d, fs, |fs|), wire.t)
      ensures Served(fs, res, cs, m, plan)
      ensures Kept(old(link), link) && (link.phase.Ready? ==> Sure(res))
      ensures PackSafe(fs) ==>
                && Delivered(wire.env, old(wire.t), fs, res, f, k, wire.t)
                && wire.log == old(wire.log) + (if plan then fs[..k] else [])
    {
      hide Serve, Step, Lead, Coherent, DryValid, AbortLast, Delivered, ReplyAt, Observe, ObserveTo, Framed, Cleaned,
           Says, Taken;
      ghost var t0, l := wire.t, link;
      var ok, rs;
      ok, rs, cs, m := wire.Exchange(fs, true, plan);
      ChunkFramed(wire.env, d, t0, fs, cs, m);
      k := Lead(wire.env, t0, fs, cs, m);
      if PackSafe(fs) {
        ChunkHist(wire.env, t0, fs, cs, m);
      }
      if !ok {
        link := RequireRepair(link);
        res, f := seq(|fs|, _ => Res(0, Uncertain)), 0;
        if PackSafe(fs) {
          ChunkLost(wire.env, t0, fs, cs, m, res);
        }
        assert res[0].e.Uncertain?;
        UncertainSays(wire.env, t0, fs, res, cs, m);
        return;
      }
      f := Successes(rs, |rs|);
      ObservedCoherent(wire.env, d, l, t0, fs, cs, rs, |fs|);
      var pendingWait, exempt := ObserveReplies(fs, rs);
      res := FinishChunk(fs, rs, pendingWait, exempt);
      if forall i :: 0 <= i < |fs| ==> rs[i].Done? {
        AllDoneLeads(wire.env, t0, fs, cs, rs);
      }
      if PackSafe(fs) {
        ChunkOrderly(wire.env, t0, fs, cs, rs);
        CoherentMode(l, t0);
        ChunkAnswered(wire.env, t0, fs, cs, rs, res, true, wire.t);
      }
    }

    /** Simple responses: one operation at a time, stopping at the first error. */
    method CommitSequential(ctx: Ctx, ops: seq<Frame>, ghost plan: bool)
      returns (res: seq<Res>, ghost f: nat, ghost k: nat)
      requires link.phase.Ready? && Coherent(link, wire.t)
      modifies this`link, wire, ctx
      ensures Valid() && |res| == |ops| && ctx.budget <= old(ctx.budget)
      ensures Kept(old(link), link) && (link.phase.Ready? ==> Sure(res))
      ensures Accounted(wire.env, old(wire.t), ops, res, wire.t, old(wire.log), wire.log, plan)
      ensures Parked(link, res, f)
      ensures PackSafe(ops) ==>
                && Delivered(wire.env, old(wire.t), ops, res, f, k, wire.t)
                && wire.log == old(wire.log) + (if plan then ops[..k] else [])
    {
      hide Exec, Coherent, Delivered, Progress, Joined, Validates, PackSafe, Reached, Accounted, Chosen, Splice,
           Account;
      ghost var t0 := wire.t;
      res := seq(|ops|, _ => Res(0, Unsent));
      ProgressNone(wire.env, t0, ops, res);
      ghost var cs := seq(|ops|, _ => Stall);
      NothingSent(wire.env, t0, ops, res, wire.log, plan);
      f, k := 0, 0;
      var i := 0;
      while i < |ops|
        invariant i == f == k <= |ops| == |res| && ctx.budget <= old(ctx.budget)
        invariant link.phase.Ready? && Coherent(link, wire.t) && Kept(old(link), link) && Sure(res)
        invariant forall j :: i <= j < |ops| ==> res[j].e.Unsent?
        invariant |cs| == |ops| && Reached(wire.env, t0, ops, res, cs, i, wire.t, old(wire.log), wire.log, plan)
        invariant PackSafe(ops) ==>
                    && Progress(wire.env, t0, ops, res, i, wire.t)
                    && wire.log == old(wire.log) + (if plan then ops[..i] else [])
      {
        var ended := ctx.Err();
        if ended || !Validates(link, ops[i]) {
          if !ended {
            StillProgress(wire.env, t0, ops, res, i, wire.t, Res(0, Invalid));
            StillReached(wire.env, t0, ops, res, cs, i, wire.t, old(wire.log), wire.log, plan, Res(0, Invalid));
            res := res[i := Res(0, Invalid)];
          }
          break;
        }
        ghost var t := wire.t;
        ghost var log := wire.log;
        var r, kk, c, m := Send(ops[i], plan);
        ghost var res0 := res;
        res := res[i := r];
        SpliceOne(res0, i, r);
        f, k := i + (if r.e.NoError? then 1 else 0), i + kk;
        assert [ops[i]] == ops[i..i + 1] && ops[..i] + [ops[i]][..kk] == ops[..k];
        if PackSafe(ops) {
          OneMore(wire.env, t0, ops, res0, i, t, r, f - i, kk, wire.t, res);
        }
        Reaches(wire.env, t0, ops, res0, cs, i, i + 1, t, log, [r], [c], m, wire.t, old(wire.log), wire.log, plan);
        if !r.e.NoError? {
          return;
        }
        cs := Chosen(cs, i, i + 1, [c]);
        i := i + 1;
        ended := ctx.Err();
        if ended {
          break;
        }
      }
      ReachedAccounted(wire.env, t0, ops, res, cs, i, wire.t, old(wire.log), wire.log, plan);
      if PackSafe(ops) {
        StoppedBefore(wire.env, t0, ops, res, i, wire.t);
      }
    }

    /** Where the chunk starting at `start` ends: after ABORT, which can clear sticky
        state, and after a read that may still reach the old bank's CTRL/STAT. */
    method ChunkEnd(ops: seq<Frame>, start: nat, limit: nat) returns (end: nat)
      requires start < limit <= |ops|
      ensures start < end <= limit
      ensures AbortLast(ops[start..end])
      ensures forall j :: start <= j < end - 1 ==> !EndsChunk(link, ops, start, j)
      ensures end == limit || EndsChunk(link, ops, start, end - 1)
    {
      hide Observe;
      var shadow := link;
      end := start;
      while end < limit
        invariant start <= end <= limit
        invariant shadow == Dry(link, ops[start..], end - start)
        invariant forall j :: start <= j < end ==> !EndsChunk(link, ops, start, j)
      {
        var op := ops[end];
        var boundary := shadow.pending && MayReachCtrlStat(op.req, shadow.prior);
        shadow := Observe(shadow, op, 0, NoError);
        end := end + 1;
        assert ops[start..][end - 1 - start] == op;
        if boundary || IsAbortWrite(op.req) {
          break;
        }
      }
      forall i | 0 <= i < end - start - 1
        ensures !IsAbortWrite(ops[start..end][i].req)
      {
        assert !EndsChunk(link, ops, start, start + i);
      }
    }

    /** Sends the chunk `start..end` of a batch whose earlier operations all succeeded. */
    method SendPart(ops: seq<Frame>, start: nat, end: nat, done: seq<Res>, ghost t0: Target, ghost l0: Link,
                    ghost log: seq<Frame>, ghost cs: seq<Choice>, ghost plan: bool)
      returns (res: seq<Res>, failed: bool, ghost f: nat, ghost k: nat, ghost ds: seq<Choice>)
      requires start < end <= |ops| == |done| && AbortLast(ops[start..end]) && l0.mode.Fixed? && DryValid(l0, ops)
      requires link.phase.Ready? && link.mode.Fixed? && Coherent(link, wire.t) && Sure(done)
      requires Coherent(Dry(l0, ops, start), wire.t)
      requires forall j :: start <= j < |ops| ==> done[j].e.Unsent?
      requires |cs| == |ops| && Reached(wire.env, t0, ops, done, cs, start, wire.t, log, wire.log, plan)
      requires PackSafe(ops) ==>
                 && Progress(wire.env, t0, ops, done, start, wire.t)
                 && wire.log == log + (if plan then ops[..start] else [])
      modifies this`link, wire
      ensures Valid() && |res| == |ops| && Kept(old(link), link) && (link.phase.Ready? ==> Sure(res))
      ensures |ds| == |ops| && Accounted(wire.env, t0, ops, res, wire.t, log, wire.log, plan)
      ensures !failed ==> Reached(wire.env, t0, ops, res, ds, end, wire.t, log, wire.log, plan)
      ensures PackSafe(ops) ==>
                && Delivered(wire.env, t0, ops, res, f, k, wire.t)
                && wire.log == log + (if plan then ops[..k] else [])
      ensures !failed ==>
                && f == k == end
                && link.phase.Ready? && link.mode.Fixed? && Coherent(link, wire.t)
                && Coherent(Dry(l0, ops, end), wire.t)
                && (forall j :: end <= j < |ops| ==> res[j].e.Unsent?)
                && (PackSafe(ops) ==> Progress(wire.env, t0, ops, res, end, wire.t))
    {
      hide Exec, Coherent, Delivered, Progress, PackSafe, Dry, DryValid, AbortLast, Joined, Sure, Splice, Reached,
           Accounted, Chosen, Account;
      ghost var t, before := wire.t, wire.log;
      DryPart(l0, ops, start, end);
      PackSafePart(ops, start, end);
      var part, ff, kk, ps, pm := CommitChunk(ops[start..end], Dry(l0, ops, start), plan);
      res := Splice(done, start, end, part);
      Reaches(wire.env, t0, ops, done, cs, start, end, t, before, part, ps, pm, wire.t, log, wire.log, plan);
      ds := Chosen(cs, start, end, ps);
      if Sure(part) {
        SureJoin(done, start, end, part);
      }
      if PackSafe(ops) {
        Merge(wire.env, t0, ops, done, start, end, t, part, ff, kk, wire.t, res);
      }
      failed := exists j :: 0 <= j < |part| && !part[j].e.NoError?;
      f, k := if failed then start + ff else end, if failed then start + kk else end;
    }

    /** Overrun responses: packed chunks of whole frames. Only the first operation of
        a chunk is validated again at run time. */
    method CommitOverrun(ctx: Ctx, ops: seq<Frame>, frames: nat, ghost plan: bool)
      returns (res: seq<Res>, ghost f: nat, ghost k: nat)
      requires frames > 0
      requires link.phase.Ready? && link.mode.Fixed? && Coherent(link, wire.t) && DryValid(link, ops)
      modifies this`link, wire, ctx
      ensures Valid() && |res| == |ops| && ctx.budget <= old(ctx.budget)
      ensures Kept(old(link), link) && (link.phase.Ready? ==> Sure(res))
      ensures Accounted(wire.env, old(wire.t), ops, res, wire.t, old(wire.log), wire.log, plan)
      ensures Parked(link, res, f)
      ensures PackSafe(ops) ==>
                && Delivered(wire.env, old(wire.t), ops, res, f, k, wire.t)
                && wire.log == old(wire.log) + (if plan then ops[..k] else [])
    {
      hide Exec, Coherent, Delivered, Progress, Validates, PackSafe, Dry, DryValid, AbortLast, Sure, EndsChunk, Reached,
           Accounted;
      ghost var t0, l0 := wire.t, link;
      res := seq(|ops|, _ => Res(0, Unsent));
      ProgressNone(wire.env, t0, ops, res);
      ghost var cs := seq(|ops|, _ => Stall);
      NothingSent(wire.env, t0, ops, res, wire.log, plan);
      UnsentSure(res);
      DryNone(l0, ops);
      f, k := 0, 0;
      var start := 0;
      while start < |ops|
        invariant start == f == k <= |ops| == |res| && ctx.budget <= old(ctx.budget)
        invariant link.phase.Ready? && link.mode.Fixed? && Coherent(link, wire.t) && Kept(old(link), link) && Sure(res)
        invariant Coherent(Dry(l0, ops, start), wire.t)
        invariant forall j :: start <= j < |ops| ==> res[j].e.Unsent?
        invariant |cs| == |ops| && Reached(wire.env, t0, ops, res, cs, start, wire.t, old(wire.log), wire.log, plan)
        invariant PackSafe(ops) ==>
                    && Progress(wire.env, t0, ops, res, start, wire.t)
                    && wire.log == old(wire.log) + (if plan then ops[..start] else [])
      {
        var ended := ctx.Err();
        if ended || !Validates(link, ops[start]) {
          if !ended {
            StillProgress(wire.env, t0, ops, res, start, wire.t, Res(0, Invalid));
            SureUpdate(res, start, Res(0, Invalid));
            StillReached(wire.env, t0, ops, res, cs, start, wire.t, old(wire.log), wire.log, plan, Res(0, Invalid));
            res := res[start := Res(0, Invalid)];
          }
          break;
        }
        var end := ChunkEnd(ops, start, if start + frames < |ops| then start + frames else |ops|);
        ended := ctx.Err();
        if ended {
          break;
        }
        var failed;
        res, failed, f, k, cs := SendPart(ops, start, end, res, t0, l0, old(wire.log), cs, plan);
        if failed {
          return;
        }
        start := end;
        ended := ctx.Err();
        if ended {
          break;
        }
      }
      ReachedAccounted(wire.env, t0, ops, res, cs, start, wire.t, old(wire.log), wire.log, plan);
      if PackSafe(ops) {
        StoppedBefore(wire.env, t0, ops, res, start, wire.t);
      }
    }

    /** Dry-runs the whole queue; `bad` marks the operations validation refuses. */
    method ValidateAll(ops: seq<Frame>) returns (bad: seq<bool>)
      ensures |bad| == |ops|
      ensures (forall i :: 0 <= i < |ops| ==> !bad[i]) <==> DryValid(link, ops)
    {
      hide Observe, Validates;
      bad := [];
      var shadow, clean := link, true;
      ghost var culprit := 0;
      for i := 0 to |ops|
        invariant |bad| == i
        invariant !clean ==> culprit < i && bad[culprit] && !Validates(Dry(link, ops, culprit), ops[culprit])
        invariant clean ==>
                    && (forall j :: 0 <= j < i ==> !bad[j])
                    && shadow == Dry(link, ops, i)
                    && forall j :: 0 <= j < i ==> Validates(Dry(link, ops, j), ops[j])
      {
        if Validates(shadow, ops[i]) {
          shadow := Observe(shadow, ops[i], 0, NoError);
          bad := bad + [false];
        } else {
          culprit := if clean then i else culprit;
          bad, clean := bad + [true], false;
        }
      }
    }

    /** Validates the complete queue, then sends it. When only the first operation can
        be one that sticky state lets through, the target accepts exactly the first
        `k` operations, once each and in order, and the results say so. */
    method Commit(ctx: Ctx, ops: seq<Frame>, ghost plan: bool)
      returns (res: seq<Res>, ghost f: nat, ghost k: nat)
      requires Valid()
      modifies this`link, wire, ctx
      ensures !old(link.phase.Ready?) ==>
                link == old(link) && wire.t == old(wire.t) && f == 0 && |res| == |ops| && Refused(res)
      ensures !Sendable(old(link), ops) ==>
                link == old(link) && wire.t == old(wire.t) && wire.log == old(wire.log) && |res| == |ops| &&
                Refused(res)
      ensures Valid() && |res| == |ops| && ctx.budget <= old(ctx.budget)
      ensures Kept(old(link), link) && (link.phase.Ready? ==> Sure(res))
      ensures Accounted(wire.env, old(wire.t), ops, res, wire.t, old(wire.log), wire.log, plan)
      ensures Parked(link, res, f)
      ensures PackSafe(ops) ==>
                && Delivered(wire.env, old(wire.t), ops, res, f, k, wire.t)
                && wire.log == old(wire.log) + (if plan then ops[..k] else [])
    {
      hide Exec, Coherent, Delivered, Progress, PackSafe, DryValid, Accounted;
      f, k := 0, 0;
      res := seq(|ops|, i requires 0 <= i < |ops| => Res(0, if ValidAddr(ops[i].req.addr) then Unsent else Invalid));
      Refusal(wire.env, wire.t, ops, res, wire.log, plan);
      ProgressNone(wire.env, wire.t, ops, res);
      StoppedBefore(wire.env, wire.t, ops, res, 0, wire.t);
      if ops == [] || exists i :: 0 <= i < |ops| && !ValidAddr(ops[i].req.addr) {
        return;
      }
      var ended := ctx.Err();
      if !link.phase.Ready? || ended {
        return;
      }
      var bad := ValidateAll(ops);
      if exists i :: 0 <= i < |ops| && bad[i] {
        res := seq(|ops|, i requires 0 <= i < |ops| => Res(0, if bad[i] then Invalid else Unsent));
        Refusal(wire.env, wire.t, ops, res, wire.log, plan);
        ProgressNone(wire.env, wire.t, ops, res);
        StoppedBefore(wire.env, wire.t, ops, res, 0, wire.t);
      } else if link.mode.Simple? {
        res, f, k := CommitSequential(ctx, ops, plan);
      } else if wire.limit >= FRAME_BITS {
        res, f, k := CommitOverrun(ctx, ops, wire.limit / FRAME_BITS, plan);
      }
    }

    /** One register operation without a batch. */
    method Transfer(ctx: Ctx, f: Frame, ghost plan: bool) returns (r: Res, ghost k: nat)
      requires Valid()
      modifies this`link, wire, ctx
      ensures Valid() && ctx.budget <= old(ctx.budget)
      ensures k <= 1 && wire.log == old(wire.log) + (if plan then [f][..k] else [])
      ensures Delivered(wire.env, old(wire.t), [f], [r], if r.e.NoError? then 1 else 0, k, wire.t)
      ensures Kept(old(link), link)
      ensures !old(link.phase.Ready?) || !ValidAddr(f.req.addr) || !Validates(old(link), f) ==>
                link == old(link) && wire.t == old(wire.t) && r.e.Unsent?
    {
      hide Exec, Coherent, Delivered, Progress, Validates;
      var ended := ctx.Err();
      if !ValidAddr(f.req.addr) || !link.phase.Ready? || ended || !Validates(link, f) {
        r, k := Res(0, Unsent), 0;
        ProgressNone(wire.env, wire.t, [f], [r]);
        StoppedBefore(wire.env, wire.t, [f], [r], 0, wire.t);
      } else {
        ghost var c, m;
        r, k, c, m := Send(f, plan);
      }
    }
  }
}
