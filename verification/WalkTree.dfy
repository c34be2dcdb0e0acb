/** What a ROM walk returns: a tree in preorder, within the limits, each table once,
    complete unless it says otherwise. */
module RomWalkTree {
  import opened Options
  import opened CoreSight
  import opened RomWalk

  // ----- The shape of the visits -----

  /** The table a visit opened. */
  function Opened(v: Visit): Option<Table> {
    if v.err.Some? || v.component.None? then None
    else
      var t := RomTable(v.component.value);
      if t.Ok? then Some(t.value) else None
  }

  function Depth(visits: seq<Visit>, i: nat): nat
    requires i < |visits|
    decreases i
  {
    if 0 <= visits[i].parent < i then 1 + Depth(visits, visits[i].parent) else 0
  }

  /** The root comes first; every other visit is a present entry of a table visited before it. */
  ghost predicate Rooted(visits: seq<Visit>, i: nat)
    requires i < |visits|
  {
    var v := visits[i];
    if i == 0 then v.parent == -1 && v.index == -1
    else
      && 0 <= v.parent < i && Opened(visits[v.parent]).Some?
      && 0 <= v.index < Opened(visits[v.parent]).value.count && v.entry.present
  }

  /** Two children of one table were reached in entry order. */
  ghost predicate InOrder(visits: seq<Visit>) {
    forall i, j :: 0 <= i < j < |visits| && visits[i].parent == visits[j].parent ==> visits[i].index < visits[j].index
  }

  ghost predicate Distinct(visits: seq<Visit>) {
    forall i, j :: 0 <= i < j < |visits| && Opened(visits[i]).Some? && Opened(visits[j]).Some? ==>
      Opened(visits[i]).value.base != Opened(visits[j]).value.base
  }

  ghost predicate Tree(l: Limits, visits: seq<Visit>) {
    && |visits| <= l.maxComponents
    && (forall i :: 0 <= i < |visits| ==> Rooted(visits, i) && Depth(visits, i) <= l.maxDepth)
    && InOrder(visits) && Distinct(visits)
  }

  /** The errors of the children left alone for their power domain, in order. */
  function Skips(visits: seq<Visit>): seq<WalkError> {
    if visits == [] then []
    else
      var last := visits[|visits| - 1];
      Skips(visits[..|visits| - 1]) + if last.err.Some? && last.err.value.PowerDomain? then [last.err.value] else []
  }

  ghost predicate Good(l: Limits, w: State) {
    && Tree(l, w.visits) && w.skipped == Skips(w.visits)
    && forall i :: 0 <= i < |w.visits| && Opened(w.visits[i]).Some? ==> Opened(w.visits[i]).value.base in w.tables
  }

  /** An open table: its visit, its depth, and children reached only before `f.next`. */
  ghost predicate Open(l: Limits, w: State, f: Frame) {
    && f.parent < |w.visits| && Opened(w.visits[f.parent]) == Some(f.table) && f.next <= f.table.count
    && Depth(w.visits, f.parent) == f.depth
    && forall i :: 0 <= i < |w.visits| && w.visits[i].parent == f.parent ==> w.visits[i].index < f.next
  }

  /** Visits only get added: below the new ones, or as children of `parent` for entries in `lo..hi`. */
  ghost predicate Grew(was: seq<Visit>, now: seq<Visit>, parent: int, lo: int, hi: int) {
    && was <= now
    && forall i :: |was| <= i < |now| ==> now[i].parent >= |was| || (now[i].parent == parent && lo <= now[i].index < hi)
  }

  lemma {:induction false} GrewOn(a: seq<Visit>, b: seq<Visit>, c: seq<Visit>, parent: int, lo: int, mid: int, hi: int)
    requires lo <= mid <= hi && Grew(a, b, parent, lo, mid) && Grew(b, c, parent, mid, hi)
    ensures Grew(a, c, parent, lo, hi)
  {
    assert forall i :: 0 <= i < |b| ==> c[i] == b[i];
  }

  /** A new component and what was found below it. */
  lemma {:induction false} GrewBelow(a: seq<Visit>, b: seq<Visit>, c: seq<Visit>, parent: int, lo: int, hi: int,
                                     count: int)
    requires Grew(a, b, parent, lo, hi) && Grew(b, c, |a|, 0, count)
    ensures Grew(a, c, parent, lo, hi)
  {
    assert forall i :: 0 <= i < |b| ==> c[i] == b[i];
  }

  lemma {:induction false} DepthKept(was: seq<Visit>, now: seq<Visit>, i: nat)
    requires was <= now && i < |was|
    ensures Depth(now, i) == Depth(was, i)
    decreases i
  {
    assert now[i] == was[i];
    if 0 <= was[i].parent < i {
      DepthKept(was, now, was[i].parent);
    }
  }

  /** One more visit, at its place in the tree. */
  lemma {:induction false} Added(l: Limits, visits: seq<Visit>, v: Visit, depth: nat)
    requires Tree(l, visits) && |visits| < l.maxComponents && depth <= l.maxDepth
    requires Rooted(visits + [v], |visits|)
    requires depth == if |visits| == 0 then 0 else 1 + Depth(visits, v.parent)
    requires forall i :: 0 <= i < |visits| && visits[i].parent == v.parent ==> visits[i].index < v.index
    requires Opened(v).Some? ==>
               forall i :: 0 <= i < |visits| && Opened(visits[i]).Some? ==>
                 Opened(visits[i]).value.base != Opened(v).value.base
    ensures Tree(l, visits + [v]) && Depth(visits + [v], |visits|) == depth
  {
    hide Opened;
    var now := visits + [v];
    forall i | 0 <= i < |visits|
      ensures Rooted(now, i) && Depth(now, i) <= l.maxDepth
    {
      assert Rooted(visits, i);
      DepthKept(visits, now, i);
    }
    if |visits| > 0 {
      DepthKept(visits, now, v.parent);
    }
    assert forall i :: 0 <= i < |visits| ==> now[i] == visits[i];
  }

  /** Where a component may be visited next. */
  ghost predicate Next(w: State, visit: Visit, depth: nat) {
    && visit.component.None? && visit.err.None?
    && if w.visits == [] then visit == Root() && depth == 0
       else
         && 0 <= visit.parent < |w.visits| && Opened(w.visits[visit.parent]).Some? && visit.entry.present
         && 0 <= visit.index < Opened(w.visits[visit.parent]).value.count && depth == 1 + Depth(w.visits, visit.parent)
         && forall i :: 0 <= i < |w.visits| && w.visits[i].parent == visit.parent ==> w.visits[i].index < visit.index
  }

  lemma {:induction false} SkipsMore(visits: seq<Visit>, v: Visit)
    ensures Skips(visits + [v]) == Skips(visits) + if v.err.Some? && v.err.value.PowerDomain? then [v.err.value] else []
  {
    assert (visits + [v])[..|visits|] == visits;
  }

  /** The visit added for a component, whatever became of it. */
  lemma {:induction false} Recorded(l: Limits, w: State, visit: Visit, depth: nat, v: Visit)
    requires Good(l, w) && Next(w, visit, depth) && |w.visits| < l.maxComponents && depth <= l.maxDepth
    requires v.parent == visit.parent && v.index == visit.index && v.entry == visit.entry
    requires Opened(v).Some? ==> Opened(v).value.base !in w.tables
    ensures Tree(l, w.visits + [v]) && Depth(w.visits + [v], |w.visits|) == depth
    ensures Grew(w.visits, w.visits + [v], visit.parent, visit.index, visit.index + 1)
  {
    hide Opened;
    assert Rooted(w.visits + [v], |w.visits|);
    Added(l, w.visits, v, depth);
  }

  /** What inspecting a component does to the state: nothing, or one visit `v`. */
  ghost predicate Became(w: State, i: Inspection, base: Address, visit: Visit, depth: nat, v: Visit) {
    && i.state.visits == w.visits + [v]
    && v.parent == visit.parent && v.index == visit.index && v.entry == visit.entry
    && i.state.skipped == w.skipped + (if v.err.Some? && v.err.value.PowerDomain? then [v.err.value] else [])
    && (if Opened(v).Some?
        then && i.err.None? && i.frame == Some(Frame(Opened(v).value, |w.visits|, 0, depth))
             && Opened(v).value.base == base && base !in w.tables && i.state.tables == w.tables + {base}
        else i.frame.None? && i.state.tables == w.tables)
  }

  lemma {:induction false} InspectOne(env: Env, l: Limits, w: State, base: Address, visit: Visit, depth: nat)
    requires visit.component.None? && visit.err.None?
    ensures var i := Inspect(env, l, w, base, visit, depth);
            if depth > l.maxDepth || |w.visits| == l.maxComponents then i.state == w && i.err.Some? && i.frame.None?
            else |i.state.visits| > |w.visits| && Became(w, i, base, visit, depth, i.state.visits[|w.visits|])
  {
    hide Identify, RomTable;
  }

  lemma {:induction false} InspectGood(env: Env, l: Limits, w: State, base: Address, visit: Visit, depth: nat)
    requires Good(l, w) && Next(w, visit, depth)
    ensures var i := Inspect(env, l, w, base, visit, depth);
            && Good(l, i.state) && Grew(w.visits, i.state.visits, visit.parent, visit.index, visit.index + 1)
            && (i.frame.Some? ==> Open(l, i.state, i.frame.value))
  {
    hide Inspect, Opened, Tree, Grew, Depth, Skips, Next;
    var i := Inspect(env, l, w, base, visit, depth);
    NextFresh(w, visit, depth);
    InspectOne(env, l, w, base, visit, depth);
    if depth > l.maxDepth || |w.visits| == l.maxComponents {
      GrewNot(w.visits, visit.parent, visit.index, visit.index + 1);
    } else {
      CountBound(l, w);
      var v := i.state.visits[|w.visits|];
      Recorded(l, w, visit, depth, v);
      SkipsMore(w.visits, v);
      NoChildren(l, i.state);
    }
  }

  lemma {:induction false} NextFresh(w: State, visit: Visit, depth: nat)
    requires Next(w, visit, depth)
    ensures visit.component.None? && visit.err.None?
  {
  }

  lemma {:induction false} CountBound(l: Limits, w: State)
    requires Good(l, w)
    ensures |w.visits| <= l.maxComponents
  {
  }

  lemma {:induction false} GrewNot(visits: seq<Visit>, parent: int, lo: int, hi: int)
    ensures Grew(visits, visits, parent, lo, hi)
  {
  }

  /** The visit made last has no children yet. */
  lemma {:induction false} NoChildren(l: Limits, w: State)
    requires Tree(l, w.visits)
    ensures forall i :: 0 <= i < |w.visits| ==> w.visits[i].parent < |w.visits| - 1
  {
    hide Opened, Depth;
    forall i | 0 <= i < |w.visits|
      ensures w.visits[i].parent < |w.visits| - 1
    {
      assert Rooted(w.visits, i);
    }
  }

  lemma {:induction false} OpenNext(l: Limits, w: State, f: Frame, e: Entry)
    requires Good(l, w) && Open(l, w, f) && f.next < f.table.count && e.present
    ensures Next(w, Child(f, e), f.depth + 1)
  {
    hide Opened, Tree, Depth;
  }

  lemma {:induction false} OpenOn(l: Limits, w: State, now: State, f: Frame)
    requires Open(l, w, f) && f.next < f.table.count && Grew(w.visits, now.visits, f.parent, f.next, f.next + 1)
    ensures Open(l, now, f.(next := f.next + 1))
  {
    hide Opened;
    assert now.visits[f.parent] == w.visits[f.parent];
    DepthKept(w.visits, now.visits, f.parent);
    assert forall i :: 0 <= i < |w.visits| ==> now.visits[i] == w.visits[i];
  }

  lemma {:induction false} ExploreGood(env: Env, l: Limits, w: State, base: Address, visit: Visit, depth: nat)
    requires w.entries <= l.maxEntries && Good(l, w) && Next(w, visit, depth)
    ensures var r := Explore(env, l, w, base, visit, depth).state;
            Good(l, r) && Grew(w.visits, r.visits, visit.parent, visit.index, visit.index + 1)
    decreases l.maxEntries - w.entries, 1
  {
    hide Inspect, Scan, Good, Next, Opened, Grew, Open;
    InspectGood(env, l, w, base, visit, depth);
    NextFresh(w, visit, depth);
    InspectOne(env, l, w, base, visit, depth);
    var i := Inspect(env, l, w, base, visit, depth);
    if i.err.None? && i.frame.Some? {
      var f := i.frame.value;
      ScanGood(env, l, i.state, f);
      GrewBelow(w.visits, i.state.visits, Scan(env, l, i.state, f).state.visits, visit.parent, visit.index,
                visit.index + 1, f.table.count);
    }
  }

  lemma {:induction false} ScanGood(env: Env, l: Limits, w: State, f: Frame)
    requires w.entries <= l.maxEntries && Good(l, w) && Open(l, w, f)
    ensures var r := Scan(env, l, w, f).state;
            Good(l, r) && Grew(w.visits, r.visits, f.parent, f.next, f.table.count)
    decreases l.maxEntries - w.entries, 0
  {
    hide Explore, Tree, Next, Opened, Grew, ReadEntry, Depth, Skips;
    var count := f.table.count;
    GrewNot(w.visits, f.parent, f.next, count);
    var e := ReadEntry(env, w.now + 1, f.table, f.next);
    if env.live(w.now) && f.next != count && w.entries < l.maxEntries && e.result.Ok? && !e.result.value.end {
      var w1 := w.(now := e.now, entries := w.entries + 1);
      var entry := e.result.value;
      if entry.present {
        OpenNext(l, w1, f, entry);
        ExploreGood(env, l, w1, entry.base, Child(f, entry), f.depth + 1);
        var below := Explore(env, l, w1, entry.base, Child(f, entry), f.depth + 1);
        GrewNot(below.state.visits, f.parent, f.next + 1, count);
        if below.err.None? {
          OpenOn(l, w1, below.state, f);
          ScanGood(env, l, below.state, f.(next := f.next + 1));
        }
        GrewOn(w.visits, below.state.visits, Scan(env, l, w, f).state.visits, f.parent, f.next, f.next + 1, count);
      } else {
        GrewNot(w.visits, f.parent, f.next, f.next + 1);
        OpenOn(l, w, w1, f);
        ScanGood(env, l, w1, f.(next := f.next + 1));
        GrewOn(w.visits, w.visits, Scan(env, l, w, f).state.visits, f.parent, f.next, f.next + 1, count);
      }
    }
  }

  // ----- Completeness over unchanging memory -----

  /** Memory that holds still. Reads may still fail, and the caller may still give up. */
  ghost predicate Static(env: Env, mem: nat -> Option<Word>) {
    forall n: nat, a: nat :: env.word(n, a) == mem(a)
  }

  /** The entry memory holds, if it can be read and decoded. */
  function Stored(mem: nat -> Option<Word>, t: Table, k: nat): Result<Entry> {
    ReadEntry(Env((_: nat, a: nat) => mem(a), (_: nat) => true), 0, t, k).result
  }

  lemma {:induction false} ReadsStored(env: Env, mem: nat -> Option<Word>, now: nat, t: Table, k: nat)
    requires Static(env, mem) && ReadEntry(env, now, t, k).result.Ok?
    ensures Stored(mem, t, k) == ReadEntry(env, now, t, k).result
  {
    hide Decode;
  }

  ghost predicate HasChild(visits: seq<Visit>, i: nat, k: nat, e: Entry) {
    exists j :: 0 <= j < |visits| && visits[j].parent == i && visits[j].index == k && visits[j].entry == e
  }

  /** Entry `k` of table visit `i` was read as stored, does not end the table, and was followed if present. */
  ghost predicate Followed(mem: nat -> Option<Word>, visits: seq<Visit>, i: nat, t: Table, k: nat) {
    var e := Stored(mem, t, k);
    e.Ok? && !e.value.end && (e.value.present ==> HasChild(visits, i, k, e.value))
  }

  ghost predicate FollowedTo(mem: nat -> Option<Word>, visits: seq<Visit>, i: nat, t: Table, stop: nat) {
    forall k: nat :: k < stop ==> Followed(mem, visits, i, t, k)
  }

  ghost predicate Ends(mem: nat -> Option<Word>, t: Table, stop: nat) {
    stop == t.count || (Stored(mem, t, stop).Ok? && Stored(mem, t, stop).value.end)
  }

  /** Every entry of the table up to its end was followed. */
  ghost predicate Covered(mem: nat -> Option<Word>, visits: seq<Visit>, i: nat)
    requires i < |visits|
  {
    Opened(visits[i]).Some? ==>
      var t := Opened(visits[i]).value;
      exists stop: nat :: Ends(mem, t, stop) && FollowedTo(mem, visits, i, t, stop)
  }

  /** A visit is a stored, present entry of its parent's table, before the end of that table. */
  ghost predicate Genuine(mem: nat -> Option<Word>, visits: seq<Visit>, j: nat)
    requires j < |visits|
  {
    var v := visits[j];
    && 0 <= v.parent < j && v.index >= 0 && Opened(visits[v.parent]).Some?
    && var t := Opened(visits[v.parent]).value;
       && Stored(mem, t, v.index) == Ok(v.entry) && v.entry.present
       && forall k: nat :: k < v.index ==> Stored(mem, t, k).Ok? && !Stored(mem, t, k).value.end
  }

  lemma {:induction false} ChildKept(was: seq<Visit>, now: seq<Visit>, i: nat, k: nat, e: Entry)
    requires was <= now && HasChild(was, i, k, e)
    ensures HasChild(now, i, k, e)
  {
    var j :| 0 <= j < |was| && was[j].parent == i && was[j].index == k && was[j].entry == e;
    assert now[j] == was[j];
  }

  lemma {:induction false} FollowedKept(mem: nat -> Option<Word>, was: seq<Visit>, now: seq<Visit>, i: nat, t: Table,
                                        stop: nat)
    requires was <= now && FollowedTo(mem, was, i, t, stop)
    ensures FollowedTo(mem, now, i, t, stop)
  {
    forall k: nat | k < stop
      ensures Followed(mem, now, i, t, k)
    {
      assert Followed(mem, was, i, t, k);
      var e := Stored(mem, t, k);
      if e.value.present {
        ChildKept(was, now, i, k, e.value);
      }
    }
  }

  lemma {:induction false} CoveredKept(mem: nat -> Option<Word>, was: seq<Visit>, now: seq<Visit>, i: nat)
    requires was <= now && i < |was| && Covered(mem, was, i)
    ensures Covered(mem, now, i)
  {
    hide Stored, FollowedTo, Ends;
    assert now[i] == was[i];
    if Opened(was[i]).Some? {
      var t := Opened(was[i]).value;
      var stop: nat :| Ends(mem, t, stop) && FollowedTo(mem, was, i, t, stop);
      FollowedKept(mem, was, now, i, t, stop);
    }
  }

  ghost predicate AllCovered(mem: nat -> Option<Word>, visits: seq<Visit>, from: nat) {
    forall i :: from <= i < |visits| ==> Covered(mem, visits, i)
  }

  ghost predicate AllGenuine(mem: nat -> Option<Word>, visits: seq<Visit>, from: nat) {
    forall i :: from <= i < |visits| ==> Genuine(mem, visits, i)
  }

  lemma {:induction false} GenuineKept(mem: nat -> Option<Word>, was: seq<Visit>, now: seq<Visit>, j: nat)
    requires was <= now && j < |was| && Genuine(mem, was, j)
    ensures Genuine(mem, now, j)
  {
    hide Stored, Opened;
    assert now[j] == was[j] && now[was[j].parent] == was[was[j].parent];
  }

  lemma {:induction false} AllGenuineOn(mem: nat -> Option<Word>, was: seq<Visit>, now: seq<Visit>, from: nat)
    requires was <= now && AllGenuine(mem, was, from) && AllGenuine(mem, now, |was|)
    ensures AllGenuine(mem, now, from)
  {
    hide Genuine;
    forall i | from <= i < |now|
      ensures Genuine(mem, now, i)
    {
      if i < |was| {
        GenuineKept(mem, was, now, i);
      }
    }
  }

  lemma {:induction false} AllCoveredOn(mem: nat -> Option<Word>, was: seq<Visit>, now: seq<Visit>, from: nat)
    requires was <= now && AllCovered(mem, was, from) && AllCovered(mem, now, |was|)
    ensures AllCovered(mem, now, from)
  {
    hide Covered;
    forall i | from <= i < |now|
      ensures Covered(mem, now, i)
    {
      if i < |was| {
        CoveredKept(mem, was, now, i);
      }
    }
  }

  /** The child just explored is genuine, and so its entry is followed. */
  lemma {:induction false} ChildFollowed(mem: nat -> Option<Word>, was: seq<Visit>, now: seq<Visit>, f: Frame, e: Entry)
    requires was <= now && |was| < |now| && f.parent < |was| && Opened(was[f.parent]) == Some(f.table)
    requires FollowedTo(mem, was, f.parent, f.table, f.next) && Stored(mem, f.table, f.next) == Ok(e) && e.present &&
             !e.end
    requires now[|was|].parent == f.parent && now[|was|].index == f.next && now[|was|].entry == e
    ensures Genuine(mem, now, |was|) && FollowedTo(mem, now, f.parent, f.table, f.next + 1)
  {
    hide Stored, Opened;
    assert now[f.parent] == was[f.parent];
    FollowedKept(mem, was, now, f.parent, f.table, f.next);
    forall k: nat | k < f.next
      ensures Stored(mem, f.table, k).Ok? && !Stored(mem, f.table, k).value.end
    {
      assert Followed(mem, now, f.parent, f.table, k);
    }
    assert HasChild(now, f.parent, f.next, e);
  }

  /** The visit of an explored component comes first among the new ones. */
  lemma {:induction false} FirstIsChild(env: Env, l: Limits, w: State, base: Address, visit: Visit, depth: nat)
    requires w.entries <= l.maxEntries && Good(l, w) && Next(w, visit, depth)
    ensures var r := Explore(env, l, w, base, visit, depth);
            && (r.err.None? ==> |r.state.visits| > |w.visits|)
            && (|r.state.visits| > |w.visits| ==>
                  var v := r.state.visits[|w.visits|];
                      v.parent == visit.parent && v.index == visit.index && v.entry == visit.entry)
  {
    hide Inspect, Scan, Good, Next, Opened, Grew, Open;
    NextFresh(w, visit, depth);
    InspectOne(env, l, w, base, visit, depth);
    InspectGood(env, l, w, base, visit, depth);
    var i := Inspect(env, l, w, base, visit, depth);
    if i.err.None? && i.frame.Some? {
      ScanGood(env, l, i.state, i.frame.value);
      GrewPrefix(i.state.visits, Scan(env, l, i.state, i.frame.value).state.visits, i.frame.value.parent, 0,
                 i.frame.value.table.count);
    }
  }

  lemma {:induction false} GrewPrefix(was: seq<Visit>, now: seq<Visit>, parent: int, lo: int, hi: int)
    requires Grew(was, now, parent, lo, hi)
    ensures was <= now && forall i :: 0 <= i < |was| ==> now[i] == was[i]
  {
  }

  lemma {:induction false} OpenTable(l: Limits, w: State, f: Frame)
    requires Open(l, w, f)
    ensures f.parent < |w.visits| && Opened(w.visits[f.parent]) == Some(f.table) && f.next <= f.table.count
  {
  }

  /** Every visit below a component is genuine; without an error every table below it is covered. */
  lemma {:induction false} ExploreWhole(env: Env, l: Limits, mem: nat -> Option<Word>, w: State, base: Address,
                                        visit: Visit, depth: nat)
    requires Static(env, mem) && w.entries <= l.maxEntries && Good(l, w) && Next(w, visit, depth)
    ensures var r := Explore(env, l, w, base, visit, depth);
            && AllGenuine(mem, r.state.visits, |w.visits| + 1)
            && (r.err.None? ==> AllCovered(mem, r.state.visits, |w.visits|))
    decreases l.maxEntries - w.entries, 1
  {
    hide Inspect, Scan, Good, Next, Grew, Open, Stored, Static;
    NextFresh(w, visit, depth);
    InspectOne(env, l, w, base, visit, depth);
    InspectGood(env, l, w, base, visit, depth);
    var i := Inspect(env, l, w, base, visit, depth);
    if i.err.None? && i.frame.Some? {
      ScanWhole(env, l, mem, i.state, i.frame.value);
    }
  }

  lemma {:induction false} SameVisits(l: Limits, w: State, now: State, f: Frame)
    requires Good(l, w) && Open(l, w, f) && now.visits == w.visits && now.tables == w.tables && now.skipped == w.skipped
    ensures Good(l, now) && Open(l, now, f)
  {
    hide Tree, Opened, Depth, Skips;
  }

  /** What scanning a table from `f` leaves: genuine visits, and tables covered if nothing failed. */
  ghost predicate Whole(mem: nat -> Option<Word>, w: State, f: Frame, r: Outcome) {
    && w.visits <= r.state.visits && f.parent < |w.visits|
    && AllGenuine(mem, r.state.visits, |w.visits|)
    && (r.err.None? ==> AllCovered(mem, r.state.visits, |w.visits|) && Covered(mem, r.state.visits, f.parent))
  }

  lemma {:induction false} ScanChild(env: Env, l: Limits, mem: nat -> Option<Word>, w: State, f: Frame, e: Entry)
    requires Static(env, mem) && w.entries <= l.maxEntries && Good(l, w) && Open(l, w, f) && f.next < f.table.count
    requires FollowedTo(mem, w.visits, f.parent, f.table, f.next)
    requires Stored(mem, f.table, f.next) == Ok(e) && e.present && !e.end && e.base < ADDRESS_LIMIT
    ensures var below := Explore(env, l, w, e.base, Child(f, e), f.depth + 1);
            Whole(mem, w, f, if below.err.Some? then below else Scan(env, l, below.state, f.(next := f.next + 1)))
    decreases l.maxEntries - w.entries, 2
  {
    hide Explore, Scan, Good, Next, Opened, Grew, Open, Stored, Static, Genuine, Covered, FollowedTo, AllGenuine,
         AllCovered;
    var visit, depth := Child(f, e), f.depth + 1;
    var below := Explore(env, l, w, e.base, visit, depth);
    var now := below.state.visits;
    OpenTable(l, w, f);
    OpenNext(l, w, f, e);
    FirstIsChild(env, l, w, e.base, visit, depth);
    ExploreGood(env, l, w, e.base, visit, depth);
    ExploreWhole(env, l, mem, w, e.base, visit, depth);
    GrewPrefix(w.visits, now, f.parent, f.next, f.next + 1);
    if |now| > |w.visits| {
      ChildFollowed(mem, w.visits, now, f, e);
    }
    OneMoreGenuine(mem, now, |w.visits|);
    if below.err.None? {
      OpenOn(l, w, below.state, f);
      ScanWhole(env, l, mem, below.state, f.(next := f.next + 1));
      var r := Scan(env, l, below.state, f.(next := f.next + 1));
      AllGenuineOn(mem, now, r.state.visits, |w.visits|);
      if r.err.None? {
        AllCoveredOn(mem, now, r.state.visits, |w.visits|);
      }
    }
  }

  lemma {:induction false} OneMoreGenuine(mem: nat -> Option<Word>, visits: seq<Visit>, from: nat)
    requires AllGenuine(mem, visits, from + 1) && (from < |visits| ==> Genuine(mem, visits, from))
    ensures AllGenuine(mem, visits, from)
  {
  }

  lemma {:induction false} ScanAbsent(env: Env, l: Limits, mem: nat -> Option<Word>, w: State, f: Frame, e: Entry)
    requires Static(env, mem) && w.entries <= l.maxEntries && Good(l, w) && Open(l, w, f) && f.next < f.table.count
    requires FollowedTo(mem, w.visits, f.parent, f.table, f.next)
    requires Stored(mem, f.table, f.next) == Ok(e) && !e.present && !e.end
    ensures Whole(mem, w, f, Scan(env, l, w, f.(next := f.next + 1)))
    decreases l.maxEntries - w.entries, 2
  {
    hide Scan, Good, Opened, Open, Stored, Static, Genuine, Covered;
    assert FollowedTo(mem, w.visits, f.parent, f.table, f.next + 1);
    GrewNot(w.visits, f.parent, f.next, f.next + 1);
    OpenOn(l, w, w, f);
    ScanWhole(env, l, mem, w, f.(next := f.next + 1));
  }

  /** A table that ends here is covered. */
  lemma {:induction false} EndCovers(mem: nat -> Option<Word>, visits: seq<Visit>, f: Frame)
    requires f.parent < |visits| && Opened(visits[f.parent]) == Some(f.table)
    requires FollowedTo(mem, visits, f.parent, f.table, f.next) && Ends(mem, f.table, f.next)
    ensures Covered(mem, visits, f.parent)
  {
    hide Ends, FollowedTo;
  }

  lemma {:induction false} ScanWhole(env: Env, l: Limits, mem: nat -> Option<Word>, w: State, f: Frame)
    requires Static(env, mem) && w.entries <= l.maxEntries && Good(l, w) && Open(l, w, f)
    requires FollowedTo(mem, w.visits, f.parent, f.table, f.next)
    ensures Whole(mem, w, f, Scan(env, l, w, f))
    decreases l.maxEntries - w.entries, 0
  {
    hide Explore, Good, Opened, ReadEntry, Open, Stored, Static, Genuine, Covered, FollowedTo;
    OpenTable(l, w, f);
    var e := ReadEntry(env, w.now + 1, f.table, f.next);
    if f.next == f.table.count {
      EndCovers(mem, w.visits, f);
    } else if e.result.Ok? {
      ReadsStored(env, mem, w.now + 1, f.table, f.next);
      if e.result.value.end {
        EndCovers(mem, w.visits, f);
      } else if w.entries < l.maxEntries {
        var w1 := w.(now := e.now, entries := w.entries + 1);
        SameVisits(l, w, w1, f);
        if e.result.value.present {
          ScanChild(env, l, mem, w1, f, e.result.value);
        } else {
          ScanAbsent(env, l, mem, w1, f, e.result.value);
        }
      }
    }
  }

  // ----- Limits only cut -----

  ghost predicate Roomier(l: Limits, big: Limits) {
    l.maxDepth <= big.maxDepth && l.maxComponents <= big.maxComponents && l.maxEntries <= big.maxEntries
  }

  /** The same outcome, or a limit was reached first and the visits are where a roomier search began. */
  ghost predicate Cut(a: Outcome, b: Outcome) {
    if a.err.Some? && (a.err.value.ComponentLimit? || a.err.value.EntryLimit?) then a.state.visits <= b.state.visits
    else a == b
  }

  lemma {:induction false} ExploreGrows(env: Env, l: Limits, w: State, base: Address, visit: Visit, depth: nat)
    requires w.entries <= l.maxEntries
    ensures w.visits <= Explore(env, l, w, base, visit, depth).state.visits
    decreases l.maxEntries - w.entries, 1
  {
    hide Scan, Identify, RomTable;
    var i := Inspect(env, l, w, base, visit, depth);
    if i.err.None? && i.frame.Some? {
      ScanGrows(env, l, i.state, i.frame.value);
    }
  }

  lemma {:induction false} ScanGrows(env: Env, l: Limits, w: State, f: Frame)
    requires w.entries <= l.maxEntries
    ensures w.visits <= Scan(env, l, w, f).state.visits
    decreases l.maxEntries - w.entries, 0
  {
    hide Explore, ReadEntry;
    var e := ReadEntry(env, w.now + 1, f.table, f.next);
    if w.entries < l.maxEntries && e.result.Ok? {
      var w1 := w.(now := e.now, entries := w.entries + 1);
      var on := f.(next := f.next + 1);
      if e.result.value.present {
        ExploreGrows(env, l, w1, e.result.value.base, Child(f, e.result.value), f.depth + 1);
        ScanGrows(env, l, Explore(env, l, w1, e.result.value.base, Child(f, e.result.value), f.depth + 1).state, on);
      } else {
        ScanGrows(env, l, w1, on);
      }
    }
  }

  /** A walk with smaller limits returns a prefix of the visits, and the very same result if no limit stopped it. */
  lemma {:induction false} ExploreCut(env: Env, l: Limits, big: Limits, w: State, base: Address, visit: Visit,
                                      depth: nat)
    requires Roomier(l, big) && w.entries <= l.maxEntries && |w.visits| <= l.maxComponents
    ensures Cut(Explore(env, l, w, base, visit, depth), Explore(env, big, w, base, visit, depth))
    ensures |Explore(env, l, w, base, visit, depth).state.visits| <= l.maxComponents
    decreases l.maxEntries - w.entries, 1
  {
    hide Scan, Identify, RomTable;
    ExploreGrows(env, big, w, base, visit, depth);
    var i := Inspect(env, l, w, base, visit, depth);
    if i.err.None? && i.frame.Some? {
      ScanCut(env, l, big, i.state, i.frame.value);
    }
  }

  lemma {:induction false} ScanCut(env: Env, l: Limits, big: Limits, w: State, f: Frame)
    requires Roomier(l, big) && w.entries <= l.maxEntries && |w.visits| <= l.maxComponents
    ensures Cut(Scan(env, l, w, f), Scan(env, big, w, f))
    ensures |Scan(env, l, w, f).state.visits| <= l.maxComponents
    decreases l.maxEntries - w.entries, 0
  {
    hide Explore, ReadEntry;
    ScanGrows(env, big, w, f);
    var e := ReadEntry(env, w.now + 1, f.table, f.next);
    if w.entries < l.maxEntries && e.result.Ok? {
      var w1 := w.(now := e.now, entries := w.entries + 1);
      var on := f.(next := f.next + 1);
      if e.result.value.present {
        var visit, depth := Child(f, e.result.value), f.depth + 1;
        ExploreCut(env, l, big, w1, e.result.value.base, visit, depth);
        ScanGrows(env, big, Explore(env, big, w1, e.result.value.base, visit, depth).state, on);
        ScanCut(env, l, big, Explore(env, l, w1, e.result.value.base, visit, depth).state, on);
      } else {
        ScanCut(env, l, big, w1, on);
      }
    }
  }

  lemma {:induction false} StartGood(l: Limits, now: nat)
    requires ValidLimits(l)
    ensures Good(l, Start(now)) && Next(Start(now), Root(), 0)
  {
  }

  /**
    * The walk returns what the recursive search returns, whatever the memory, the limits and the caller do:
    * a tree in preorder within the limits, in which no table is opened twice. Over memory that holds still
    * every visit is a stored entry, and if no error stops the walk every table was followed to its end.
    */
  method Walk(env: Env, base: Address, limits: Limits, now: nat, ghost mem: nat -> Option<Word>)
    returns (visits: seq<Visit>, skipped: seq<WalkError>, err: Option<WalkError>)
    ensures !ValidLimits(limits) || base % PAGE != 0 ==> visits == [] && skipped == [] && err == Some(BadArguments)
    ensures ValidLimits(limits) && base % PAGE == 0 && !env.live(now) ==>
              visits == [] && skipped == [] && err == Some(Failed(Cancelled))
    ensures ValidLimits(limits) && base % PAGE == 0 && env.live(now) ==>
              var r := Explore(env, limits, Start(now + 1), base, Root(), 0);
              visits == r.state.visits && skipped == r.state.skipped && err == r.err
    ensures ValidLimits(limits) ==> Tree(limits, visits) && skipped == Skips(visits)
    ensures Static(env, mem) ==> AllGenuine(mem, visits, 1) && (err.None? ==> AllCovered(mem, visits, 0))
  {
    hide Inspect, Scan, Explore, Tree, Static, AllGenuine, AllCovered, Good, Next;
    Nothing(limits, mem);
    if !ValidLimits(limits) || base % PAGE != 0 {
      return [], [], Some(BadArguments);
    }
    if !env.live(now) {
      return [], [], Some(Failed(Cancelled));
    }
    var w := new Walker(env, limits, now + 1);
    Promised(env, base, limits, now + 1, mem);
    Descend(env, limits, w.Abs(), w.stack, base, Root(), 0);
    ghost var all := Explore(env, limits, w.Abs(), base, Root(), 0);
    err := w.InspectVisit(base, Root(), 0);
    while err.None? && |w.stack| > 0
      invariant w.entries <= limits.maxEntries && w.env == env && w.limits == limits
      invariant all == if err.Some? then Outcome(w.Abs(), err) else w.Rest()
      decreases err.None?, limits.maxEntries - w.entries, |w.stack|
    {
      err := w.Next();
    }
    return w.visits, w.skipped, err;
  }

  lemma {:induction false} Nothing(l: Limits, mem: nat -> Option<Word>)
    ensures ValidLimits(l) ==> Tree(l, [])
    ensures Skips([]) == [] && AllGenuine(mem, [], 1) && AllCovered(mem, [], 0)
  {
  }

  lemma {:induction false} Promised(env: Env, base: Address, l: Limits, now: nat, mem: nat -> Option<Word>)
    requires ValidLimits(l)
    ensures var r := Explore(env, l, Start(now), base, Root(), 0);
            && Tree(l, r.state.visits) && r.state.skipped == Skips(r.state.visits)
            && (Static(env, mem) ==>
                  AllGenuine(mem, r.state.visits, 1) && (r.err.None? ==> AllCovered(mem, r.state.visits, 0)))
  {
    hide Explore, Tree, Static, AllGenuine, AllCovered, Next;
    StartGood(l, now);
    ExploreGood(env, l, Start(now), base, Root(), 0);
    if Static(env, mem) {
      ExploreWhole(env, l, mem, Start(now), base, Root(), 0);
    }
  }
}
