/** Whole runs of one SWD connection. */
module SwdRun {
  import opened Options
  import opened Contexts
  import opened SwdTarget
  import opened SwdLink
  import opened SwdConn
  import opened SwdLifecycle

  datatype Action = Connecting | Releasing | Sending(ops: seq<Frame>) | Transferring(f: Frame)

  datatype Snapshot = Snapshot(link: Link, t: Target)

  /** A state between two calls of a run that began with ORUNDETECT at `inherited`. While
      it is ready, the connection knows the response grammar and the bank. It owns
      the setting exactly while it is not idle, and an idle target has it back. */
  ghost predicate Orderly(inherited: bool, s: Snapshot) {
    && (s.link.phase.Ready? ==> Coherent(s.link, s.t))
    && (s.link.original.Some? <==> !s.link.phase.Idle?)
    && (if s.link.original.Some? then s.link.original.value == inherited else Overrun(s.t) == inherited)
  }

  /** Any run of Connect, Release, batches and single transfers, with every call failing wherever it may. */
  method RunLink(c: Conn, actions: seq<Action>) returns (ghost trace: seq<Snapshot>)
    requires Owned(c) && c.link.phase.Idle?
    modifies c`link, c.wire
    ensures Owned(c) && |trace| == |actions| + 1 && trace[|actions|] == Snapshot(c.link, c.wire.t)
    ensures forall i :: 0 <= i < |trace| ==> Orderly(Overrun(old(c.wire.t)), trace[i])
  {
    hide Coherent;
    ghost var inherited := Overrun(c.wire.t);
    trace := [Snapshot(c.link, c.wire.t)];
    for i := 0 to |actions|
      invariant Owned(c) && |trace| == i + 1 && trace[i] == Snapshot(c.link, c.wire.t)
      invariant forall j :: 0 <= j < |trace| ==> Orderly(inherited, trace[j])
    {
      Perform(c, actions[i], inherited);
      trace := trace + [Snapshot(c.link, c.wire.t)];
    }
  }

  /** One call under some context. */
  method Perform(c: Conn, action: Action, ghost inherited: bool)
    requires Owned(c) && Orderly(inherited, Snapshot(c.link, c.wire.t))
    modifies c`link, c.wire
    ensures Owned(c) && Orderly(inherited, Snapshot(c.link, c.wire.t))
  {
    hide Coherent;
    var budget: nat := *;
    var ctx := new Ctx(budget);
    if action.Connecting? {
      var ok, dpidr := Connect(c, ctx);
    } else if action.Releasing? {
      var ok, rejected := Release(c, ctx);
    } else if action.Sending? {
      var res, f, k := c.Commit(ctx, action.ops, false);
    } else {
      var r, k := c.Transfer(ctx, action.f, false);
    }
  }
}
