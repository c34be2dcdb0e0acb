/** The ROM table walk: an explicit stack that does what a recursive depth-first search does. */
module RomWalk {
  import opened Options
  import opened CoreSight

  datatype Limits = Limits(maxDepth: int, maxComponents: int, maxEntries: int)

  predicate ValidLimits(l: Limits) {
    l.maxDepth >= 0 && l.maxComponents > 0 && l.maxEntries > 0
  }

  datatype WalkError =
    | BadArguments
    | ComponentLimit(base: nat, depth: int)
    | EntryLimit(base: nat, index: nat)
    | Repeated(base: nat)
    | PowerDomain(base: nat, powerId: nat)
    | Failed(error: Error)

  /** A component reached; `parent` indexes the visits, and the root has parent and index -1. */
  datatype Visit = Visit(parent: int, index: int, entry: Entry, component: Option<Component>, err: Option<WalkError>)

  datatype Frame = Frame(table: Table, parent: nat, next: nat, depth: nat)

  datatype State = State(now: nat, entries: nat, visits: seq<Visit>, tables: set<nat>, skipped: seq<WalkError>)

  datatype Outcome = Outcome(state: State, err: Option<WalkError>)

  const NO_ENTRY := Entry(0, 0, false, false, 0, false)

  function Root(): Visit {
    Visit(-1, -1, NO_ENTRY, None, None)
  }

  function Child(f: Frame, e: Entry): Visit {
    Visit(f.parent, f.next, e, None, None)
  }

  // ----- The recursive search -----

  /** One component: recorded, and identified unless a limit, its power domain or an earlier table forbids it. */
  datatype Inspection = Inspection(state: State, err: Option<WalkError>, frame: Option<Frame>)

  function Inspect(env: Env, l: Limits, w: State, base: Address, visit: Visit, depth: nat): (r: Inspection)
    ensures r.state.entries == w.entries
  {
    if depth > l.maxDepth || |w.visits| == l.maxComponents then Inspection(w, Some(ComponentLimit(base, depth)), None)
    else if visit.entry.powered then
      var err := PowerDomain(base, visit.entry.powerId);
      Inspection(w.(visits := w.visits + [visit.(err := Some(err))], skipped := w.skipped + [err]), None, None)
    else if base in w.tables then
      Inspection(w.(visits := w.visits + [visit.(err := Some(Repeated(base)))]), Some(Repeated(base)), None)
    else
      var id := Identify(env, w.now, base);
      var w := w.(now := id.now);
      if id.result.Err? then
        var err := Failed(id.result.error);
        Inspection(w.(visits := w.visits + [visit.(err := Some(err))]), Some(err), None)
      else
        var visit := visit.(component := Some(id.result.value));
        var table := RomTable(id.result.value);
        if table.Ok? then
          var w := w.(visits := w.visits + [visit], tables := w.tables + {base});
          Inspection(w, None, Some(Frame(table.value, |w.visits| - 1, 0, depth)))
        else if table.error == NotRomTable then Inspection(w.(visits := w.visits + [visit]), None, None)
        else
          var err := Failed(table.error);
          Inspection(w.(visits := w.visits + [visit.(err := Some(err))]), Some(err), None)
  }

  /** A component and everything below it. */
  function Explore(env: Env, l: Limits, w: State, base: Address, visit: Visit, depth: nat): (r: Outcome)
    requires w.entries <= l.maxEntries
    ensures w.entries <= r.state.entries <= l.maxEntries
    decreases l.maxEntries - w.entries, 1
  {
    var i := Inspect(env, l, w, base, visit, depth);
    if i.err.Some? || i.frame.None? then Outcome(i.state, i.err) else Scan(env, l, i.state, i.frame.value)
  }

  /** The entries of a table from `f.next` on, each with everything below it. */
  function Scan(env: Env, l: Limits, w: State, f: Frame): (r: Outcome)
    requires w.entries <= l.maxEntries
    ensures w.entries <= r.state.entries <= l.maxEntries
    decreases l.maxEntries - w.entries, 0
  {
    var live, w := env.live(w.now), w.(now := w.now + 1);
    if !live then Outcome(w, Some(Failed(Cancelled)))
    else if f.next == f.table.count then Outcome(w, None)
    else if w.entries == l.maxEntries then Outcome(w, Some(EntryLimit(f.table.base, f.next)))
    else
      var e := ReadEntry(env, w.now, f.table, f.next);
      var w := w.(now := e.now, entries := w.entries + 1);
      if e.result.Err? then Outcome(w, Some(Failed(e.result.error)))
      else if e.result.value.end then Outcome(w, None)
      else if !e.result.value.present then Scan(env, l, w, f.(next := f.next + 1))
      else
        var below := Explore(env, l, w, e.result.value.base, Child(f, e.result.value), f.depth + 1);
        if below.err.Some? then below else Scan(env, l, below.state, f.(next := f.next + 1))
  }

  function Start(now: nat): State {
    State(now, 0, [], {}, [])
  }

  // ----- The walk -----

  /** What is left to do when the tables on the stack are open: the top one first. */
  function Resume(env: Env, l: Limits, w: State, stack: seq<Frame>): (r: Outcome)
    requires w.entries <= l.maxEntries
    decreases |stack|
  {
    if stack == [] then Outcome(w, None)
    else
      var top := Scan(env, l, w, stack[|stack| - 1]);
      if top.err.Some? then top else Resume(env, l, top.state, stack[..|stack| - 1])
  }

  class Walker {
    const env: Env
    const limits: Limits
    var now: nat
    var entries: nat
    var visits: seq<Visit>
    var stack: seq<Frame>
    var tables: set<nat>
    var skipped: seq<WalkError>

    constructor (env: Env, limits: Limits, now: nat)
      ensures this.env == env && this.limits == limits && stack == [] && Abs() == Start(now)
    {
      this.env, this.limits, this.now := env, limits, now;
      entries, visits, stack, tables, skipped := 0, [], [], {}, [];
    }

    ghost function Abs(): State
      reads this
    {
      State(now, entries, visits, tables, skipped)
    }

    ghost function Rest(): Outcome
      requires entries <= limits.maxEntries
      reads this
    {
      Resume(env, limits, Abs(), stack)
    }

    method IdentifyVisit(base: Address, index: nat, depth: nat) returns (err: Option<WalkError>)
      requires index + 1 == |visits|
      modifies this
      ensures entries == old(entries) && skipped == old(skipped) && |visits| == index + 1 &&
              visits[..index] == old(visits[..index])
      ensures old(base in tables) ==>
                err == Some(Repeated(base)) && now == old(now) && stack == old(stack) && tables == old(tables) &&
                visits == old(visits)
      ensures old(base !in tables) ==>
                && var id := Identify(env, old(now), base);
                && now == id.now
                && (id.result.Err? ==>
                      err == Some(Failed(id.result.error)) && stack == old(stack) && tables == old(tables) &&
                      visits == old(visits))
                && (id.result.Ok? ==>
                      && visits[index] == old(visits[index]).(component := Some(id.result.value))
                      && var t := RomTable(id.result.value);
                      && (t.Ok? ==>
                            err == None && tables == old(tables) + {base} &&
                            stack == old(stack) + [Frame(t.value, index, 0, depth)])
                      && (t.Err? ==>
                            && tables == old(tables) && stack == old(stack)
                            && err == if t.error == NotRomTable then None else Some(Failed(t.error))))
    {
      if base in tables {
        return Some(Repeated(base));
      }
      var id := Identify(env, now, base);
      now := id.now;
      if id.result.Err? {
        return Some(Failed(id.result.error));
      }
      visits := visits[index := visits[index].(component := Some(id.result.value))];
      var table := RomTable(id.result.value);
      if table.Err? {
        return if table.error == NotRomTable then None else Some(Failed(table.error));
      }
      tables := tables + {base};
      stack := stack + [Frame(table.value, index, 0, depth)];
      return None;
    }

    /** Records a component and opens it if it is a table. */
    method InspectVisit(base: Address, visit: Visit, depth: nat) returns (err: Option<WalkError>)
      modifies this
      ensures var i := Inspect(env, limits, old(Abs()), base, visit, depth);
              && Abs() == i.state && err == i.err
              && stack == old(stack) + if i.frame.Some? then [i.frame.value] else []
    {
      hide Identify, RomTable;
      if depth > limits.maxDepth || |visits| == limits.maxComponents {
        return Some(ComponentLimit(base, depth));
      }
      var index := |visits|;
      visits := visits + [visit];
      if visit.entry.powered {
        var skip := PowerDomain(base, visit.entry.powerId);
        visits := visits[index := visits[index].(err := Some(skip))];
        skipped := skipped + [skip];
        return None;
      }
      err := IdentifyVisit(base, index, depth);
      if err.Some? {
        visits := visits[index := visits[index].(err := err)];
      }
      assert visits == old(visits) + [visits[index]];
    }

    /** One entry of the innermost open table; what the walk will return does not change. */
    method Next() returns (err: Option<WalkError>)
      requires stack != [] && entries <= limits.maxEntries
      modifies this
      ensures entries <= limits.maxEntries
      ensures old(Rest()) == if err.Some? then Outcome(Abs(), err) else Rest()
      ensures err.None? ==> entries > old(entries) || (entries == old(entries) && |stack| < |old(stack)|)
    {
      hide Inspect, ReadEntry;
      var live := env.live(now);
      now := now + 1;
      if !live {
        return Some(Failed(Cancelled));
      }
      var top := |stack| - 1;
      var frame := stack[top];
      if frame.next == frame.table.count {
        stack := stack[..top];
        return None;
      }
      if entries == limits.maxEntries {
        return Some(EntryLimit(frame.table.base, frame.next));
      }
      entries := entries + 1;
      var e := ReadEntry(env, now, frame.table, frame.next);
      now := e.now;
      if e.result.Err? {
        return Some(Failed(e.result.error));
      }
      var entry := e.result.value;
      var after := frame.(next := frame.next + 1);
      stack := stack[top := after];
      assert stack[..top] == old(stack)[..top];
      if entry.end {
        stack := stack[..top];
        return None;
      }
      if !entry.present {
        return None;
      }
      ghost var w, open := Abs(), stack;
      err := InspectVisit(entry.base, Child(frame, entry), frame.depth + 1);
      Descend(env, limits, w, open, entry.base, Child(frame, entry), frame.depth + 1);
    }
  }

  /** Exploring a child and then resuming the open tables is resuming with the child's table on top. */
  lemma {:induction false} Descend(env: Env, l: Limits, w: State, open: seq<Frame>, base: Address, visit: Visit,
                                   depth: nat)
    requires w.entries <= l.maxEntries
    ensures var i := Inspect(env, l, w, base, visit, depth);
            var below := Explore(env, l, w, base, visit, depth);
            && (i.err.Some? ==> below == Outcome(i.state, i.err))
            && (i.err.None? ==>
                  Resume(env, l, i.state, open + if i.frame.Some? then [i.frame.value] else [])
                  == if below.err.Some? then below else Resume(env, l, below.state, open))
  {
    hide Inspect, Scan;
    var i := Inspect(env, l, w, base, visit, depth);
    if i.err.None? {
      if i.frame.Some? {
        assert (open + [i.frame.value])[..|open|] == open;
      } else {
        assert open + [] == open;
      }
    }
  }
}
