/** The TAP controller of IEEE 1149.1 and shortest paths through it. */
module JtagTap {

  datatype State =
    | Reset | Idle
    | SelectDr | CaptureDr | ShiftDr | Exit1Dr | PauseDr | Exit2Dr | UpdateDr
    | SelectIr | CaptureIr | ShiftIr | Exit1Ir | PauseIr | Exit2Ir | UpdateIr

  function Next(s: State, tms: bool): State {
    match s
    case Reset => if tms then Reset else Idle
    case Idle => if tms then SelectDr else Idle
    case SelectDr => if tms then SelectIr else CaptureDr
    case CaptureDr => if tms then Exit1Dr else ShiftDr
    case ShiftDr => if tms then Exit1Dr else ShiftDr
    case Exit1Dr => if tms then UpdateDr else PauseDr
    case PauseDr => if tms then Exit2Dr else PauseDr
    case Exit2Dr => if tms then UpdateDr else ShiftDr
    case UpdateDr => if tms then SelectDr else Idle
    case SelectIr => if tms then Reset else CaptureIr
    case CaptureIr => if tms then Exit1Ir else ShiftIr
    case ShiftIr => if tms then Exit1Ir else ShiftIr
    case Exit1Ir => if tms then UpdateIr else PauseIr
    case PauseIr => if tms then Exit2Ir else PauseIr
    case Exit2Ir => if tms then UpdateIr else ShiftIr
    case UpdateIr => if tms then SelectDr else Idle
  }

  /** Where the first `n` bits of `tms` lead. */
  function Walk(s: State, tms: seq<bool>, n: nat): State
    requires n <= |tms|
  {
    if n == 0 then s else Next(Walk(s, tms, n - 1), tms[n - 1])
  }

  /** The path leads to `to`, and enters Reset only if that is where it goes. */
  ghost predicate Leads(s: State, tms: seq<bool>, to: State) {
    Walk(s, tms, |tms|) == to && Avoids(s, tms, |tms|, to)
  }

  ghost predicate Avoids(s: State, tms: seq<bool>, n: nat, to: State)
    requires n <= |tms|
  {
    to.Reset? || forall i :: 0 < i <= n ==> !Walk(s, tms, i).Reset?
  }

  lemma {:induction false} WalkMore(s: State, tms: seq<bool>, more: seq<bool>, n: nat)
    requires n <= |tms|
    ensures Walk(s, tms + more, n) == Walk(s, tms, n)
  {
    if n > 0 {
      WalkMore(s, tms, more, n - 1);
    }
  }

  lemma {:induction false} LeadsMore(s: State, tms: seq<bool>, bit: bool, to: State)
    requires Avoids(s, tms, |tms|, to) && (to.Reset? || !Next(Walk(s, tms, |tms|), bit).Reset?)
    ensures Walk(s, tms + [bit], |tms| + 1) == Next(Walk(s, tms, |tms|), bit)
    ensures Avoids(s, tms + [bit], |tms| + 1, to)
  {
    hide Next;
    forall i | 0 <= i <= |tms|
      ensures Walk(s, tms + [bit], i) == Walk(s, tms, i)
    {
      WalkMore(s, tms, [bit], i);
    }
  }

  // ----- Every state can be reached -----

  function ToIdle(s: State): seq<bool> {
    match s
    case Reset => [false]
    case Idle => []
    case SelectDr => [false, true, true, false]
    case CaptureDr => [true, true, false]
    case ShiftDr => [true, true, false]
    case Exit1Dr => [true, false]
    case PauseDr => [true, true, false]
    case Exit2Dr => [true, false]
    case UpdateDr => [false]
    case SelectIr => [false, true, true, false]
    case CaptureIr => [true, true, false]
    case ShiftIr => [true, true, false]
    case Exit1Ir => [true, false]
    case PauseIr => [true, true, false]
    case Exit2Ir => [true, false]
    case UpdateIr => [false]
  }

  function FromIdle(s: State): seq<bool> {
    match s
    case Reset => [true, true, true]
    case Idle => []
    case SelectDr => [true]
    case CaptureDr => [true, false]
    case ShiftDr => [true, false, false]
    case Exit1Dr => [true, false, true]
    case PauseDr => [true, false, true, false]
    case Exit2Dr => [true, false, true, false, true]
    case UpdateDr => [true, false, true, true]
    case SelectIr => [true, true]
    case CaptureIr => [true, true, false]
    case ShiftIr => [true, true, false, false]
    case Exit1Ir => [true, true, false, true]
    case PauseIr => [true, true, false, true, false]
    case Exit2Ir => [true, true, false, true, false, true]
    case UpdateIr => [true, true, false, true, true]
  }

  lemma {:induction false} WalkBits(s: State, tms: seq<bool>)
    requires |tms| <= 6
    ensures var n := |tms|;
            && (n > 0 ==> Walk(s, tms, 1) == Next(s, tms[0]))
            && (n > 1 ==> Walk(s, tms, 2) == Next(Walk(s, tms, 1), tms[1]))
            && (n > 2 ==> Walk(s, tms, 3) == Next(Walk(s, tms, 2), tms[2]))
            && (n > 3 ==> Walk(s, tms, 4) == Next(Walk(s, tms, 3), tms[3]))
            && (n > 4 ==> Walk(s, tms, 5) == Next(Walk(s, tms, 4), tms[4]))
            && (n > 5 ==> Walk(s, tms, 6) == Next(Walk(s, tms, 5), tms[5]))
            && Walk(s, tms, 0) == s
  {
    hide Next;
  }

  lemma {:induction false} ToIdleLeads(s: State)
    ensures Leads(s, ToIdle(s), Idle)
  {
    hide Walk;
    WalkBits(s, ToIdle(s));
  }

  lemma {:induction false} FromIdleLeads(to: State)
    ensures Leads(Idle, FromIdle(to), to)
  {
    hide Walk;
    WalkBits(Idle, FromIdle(to));
  }

  /** Joining two paths. */
  lemma {:induction false} WalkJoin(s: State, a: seq<bool>, b: seq<bool>, n: nat)
    requires n <= |b|
    ensures Walk(s, a + b, |a| + n) == Walk(Walk(s, a, |a|), b, n)
  {
    hide Next;
    if n == 0 {
      WalkMore(s, a, b, |a|);
    } else {
      WalkJoin(s, a, b, n - 1);
    }
  }

  function Detour(s: State, to: State): seq<bool> {
    ToIdle(s) + FromIdle(to)
  }

  lemma {:induction false} DetourLeads(s: State, to: State)
    ensures Leads(s, Detour(s, to), to)
  {
    hide Next, ToIdle, FromIdle;
    var a, b := ToIdle(s), FromIdle(to);
    ToIdleLeads(s);
    FromIdleLeads(to);
    WalkJoin(s, a, b, |b|);
    forall i | 0 < i <= |a + b|
      ensures to.Reset? || !Walk(s, a + b, i).Reset?
    {
      if i <= |a| {
        WalkMore(s, a, b, i);
      } else {
        WalkJoin(s, a, b, i - |a|);
      }
    }
  }

  // ----- Breadth-first search -----

  datatype Route = Route(state: State, bits: seq<bool>)

  /** The route's bits lead from `s` to its state. */
  ghost predicate Found(s: State, r: Route, to: State) {
    Walk(s, r.bits, |r.bits|) == r.state && Avoids(s, r.bits, |r.bits|, to)
  }

  ghost predicate Queued(queue: seq<Route>, v: State) {
    exists i :: 0 <= i < |queue| && queue[i].state == v
  }

  /** A transition the search may take. */
  predicate Open(v: State, bit: bool, to: State) {
    to.Reset? || !Next(v, bit).Reset?
  }

  /** Distances of the routes in the queue: right, in order, and at most one apart. */
  ghost predicate InOrder(s: State, to: State, queue: seq<Route>, dist: map<State, nat>) {
    && (forall i :: 0 <= i < |queue| ==>
          queue[i].state in dist && dist[queue[i].state] == |queue[i].bits| && Found(s, queue[i], to))
    && (forall i, j :: 0 <= i < j < |queue| ==> queue[i].state != queue[j].state && |queue[i].bits| <= |queue[j].bits|)
  }

  /** States whose neighbours have all been found. */
  ghost predicate Explored(s: State, to: State, done: set<State>, dist: map<State, nat>) {
    && s in dist && dist[s] == 0 && to !in done
    && (forall v :: v in done ==> v in dist)
    && (forall v, bit :: v in done && Open(v, bit, to) ==> Next(v, bit) in dist && dist[Next(v, bit)] <= dist[v] + 1)
  }

  ghost predicate Within(done: set<State>, dist: map<State, nat>, bound: nat) {
    forall v :: v in done && v in dist ==> dist[v] <= bound
  }

  /** Between two rounds of the search. */
  ghost predicate Search(s: State, to: State, queue: seq<Route>, done: set<State>, dist: map<State, nat>) {
    && (forall v :: v in dist <==> v in done || Queued(queue, v))
    && (forall i :: 0 <= i < |queue| ==> queue[i].state !in done && |queue[i].bits| <= |queue[0].bits| + 1)
    && InOrder(s, to, queue, dist) && Explored(s, to, done, dist)
    && (queue != [] ==> Within(done, dist, |queue[0].bits|))
  }

  /** While the neighbours of `r` are looked at. */
  ghost predicate Exploring(s: State, to: State, queue: seq<Route>, done: set<State>, dist: map<State, nat>, r: Route) {
    && (forall v :: v in dist <==> v in done || v == r.state || Queued(queue, v))
    && (forall i :: 0 <= i < |queue| ==>
          queue[i].state !in done && queue[i].state != r.state && |r.bits| <= |queue[i].bits| <= |r.bits| + 1)
    && InOrder(s, to, queue, dist) && Explored(s, to, done, dist) && Within(done, dist, |r.bits|)
    && r.state !in done && r.state != to && r.state in dist && dist[r.state] == |r.bits| && Found(s, r, to)
  }

  lemma {:induction false} QueuedFirst(queue: seq<Route>, v: State)
    requires queue != []
    ensures Queued(queue, v) <==> v == queue[0].state || Queued(queue[1..], v)
  {
    var rest := queue[1..];
    if Queued(queue, v) && v != queue[0].state {
      var i :| 0 <= i < |queue| && queue[i].state == v;
      assert rest[i - 1].state == v;
    }
    if Queued(rest, v) {
      var i :| 0 <= i < |rest| && rest[i].state == v;
      assert queue[i + 1].state == v;
    }
  }

  lemma {:induction false} QueuedLast(queue: seq<Route>, r: Route, v: State)
    ensures Queued(queue + [r], v) <==> v == r.state || Queued(queue, v)
  {
    var longer := queue + [r];
    assert longer[|queue|] == r;
    if Queued(queue, v) {
      var i :| 0 <= i < |queue| && queue[i].state == v;
      assert longer[i].state == v;
    }
  }

  lemma {:induction false} Pop(s: State, to: State, queue: seq<Route>, done: set<State>, dist: map<State, nat>)
    requires Search(s, to, queue, done, dist) && queue != [] && queue[0].state != to
    ensures Exploring(s, to, queue[1..], done, dist, queue[0])
  {
    hide Found, Open, Next, Explored, Queued, Within;
    forall v
      ensures Queued(queue, v) <==> v == queue[0].state || Queued(queue[1..], v)
    {
      QueuedFirst(queue, v);
    }
  }

  lemma {:induction false} ExploredMore(s: State, to: State, done: set<State>, dist: map<State, nat>, v: State, d: nat)
    requires Explored(s, to, done, dist) && v !in dist
    ensures Explored(s, to, done, dist[v := d])
  {
    hide Open, Next;
  }

  lemma {:induction false} InOrderMore(s: State, to: State, queue: seq<Route>, dist: map<State, nat>, r: Route)
    requires InOrder(s, to, queue, dist) && r.state !in dist && Found(s, r, to)
    requires forall i :: 0 <= i < |queue| ==> |queue[i].bits| <= |r.bits|
    ensures InOrder(s, to, queue + [r], dist[r.state := |r.bits|])
  {
    hide Found;
  }

  lemma {:induction false} NextFound(s: State, to: State, r: Route, bit: bool)
    requires Found(s, r, to) && Open(r.state, bit, to)
    ensures Found(s, Route(Next(r.state, bit), r.bits + [bit]), to)
  {
    hide Next, Walk, Avoids;
    LeadsMore(s, r.bits, bit, to);
  }

  lemma {:induction false} Enqueue(s: State, to: State, queue: seq<Route>, done: set<State>, dist: map<State, nat>,
                                   r: Route, next: Route)
    requires Exploring(s, to, queue, done, dist, r) && Found(s, next, to) && next.state !in dist &&
             |next.bits| == |r.bits| + 1
    ensures Exploring(s, to, queue + [next], done, dist[next.state := |next.bits|], r)
  {
    hide Found, Queued, Explored, InOrder;
    var dist' := dist[next.state := |next.bits|];
    ExploredMore(s, to, done, dist, next.state, |next.bits|);
    InOrderMore(s, to, queue, dist, next);
    forall v
      ensures v in dist' <==> v in done || v == r.state || Queued(queue + [next], v)
    {
      QueuedLast(queue, next, v);
    }
  }

  lemma {:induction false} Push(s: State, to: State, queue: seq<Route>, done: set<State>, dist: map<State, nat>,
                                r: Route)
    requires Exploring(s, to, queue, done, dist, r)
    requires Beside(to, dist, r, false) && Beside(to, dist, r, true)
    ensures Search(s, to, queue, done + {r.state}, dist) && r.state !in done
  {
    hide Next, Found, Open, Queued, InOrder;
    assert forall bit :: Beside(to, dist, r, bit);
  }

  /** The neighbour has been found, and no later than through `r`. */
  ghost predicate Beside(to: State, dist: map<State, nat>, r: Route, bit: bool) {
    Open(r.state, bit, to) ==> Next(r.state, bit) in dist && dist[Next(r.state, bit)] <= |r.bits| + 1
  }

  lemma {:induction false} FoundBeside(s: State, to: State, queue: seq<Route>, done: set<State>, dist: map<State, nat>,
                                       r: Route, bit: bool)
    requires Exploring(s, to, queue, done, dist, r) && (Open(r.state, bit, to) ==> Next(r.state, bit) in dist)
    ensures Beside(to, dist, r, bit)
  {
    hide Next, Found, Open;
    var v := Next(r.state, bit);
    if v in dist && Queued(queue, v) {
      var i :| 0 <= i < |queue| && queue[i].state == v;
    }
  }

  /** Whatever path there is, its end has been found no later, or the search is not there yet. */
  lemma {:induction false} NoShortcut(s: State, to: State, queue: seq<Route>, done: set<State>, dist: map<State, nat>,
                                      w: seq<bool>, n: nat)
    requires Search(s, to, queue, done, dist) && n <= |w| && Avoids(s, w, |w|, to)
    ensures var v := Walk(s, w, n); (queue != [] && |queue[0].bits| <= n) || (v in done && dist[v] <= n)
  {
    hide Next, Found, Queued;
    if n == 0 {
      InFront(s, to, queue, dist, s);
    } else {
      NoShortcut(s, to, queue, done, dist, w, n - 1);
      var u, v := Walk(s, w, n - 1), Walk(s, w, n);
      if !(queue != [] && |queue[0].bits| <= n) {
        assert Open(u, w[n - 1], to);
        InFront(s, to, queue, dist, v);
      }
    }
  }

  lemma {:induction false} InFront(s: State, to: State, queue: seq<Route>, dist: map<State, nat>, v: State)
    requires InOrder(s, to, queue, dist) && v in dist
    ensures Queued(queue, v) ==> queue != [] && |queue[0].bits| <= dist[v]
  {
    hide Found;
    if Queued(queue, v) {
      var i :| 0 <= i < |queue| && queue[i].state == v;
    }
  }

  lemma {:induction false} StartSearch(from: State, to: State)
    ensures Search(from, to, [Route(from, [])], {}, map[from := 0])
  {
    hide InOrder, Explored, Queued;
    StartQueue(from, to);
    forall v
      ensures Queued([Route(from, [])], v) <==> v == from
    {
      QueuedLast([], Route(from, []), v);
      assert [] + [Route(from, [])] == [Route(from, [])];
      NoneQueued(v);
    }
  }

  lemma {:induction false} NoneQueued(v: State)
    ensures !Queued([], v)
  {
  }

  lemma {:induction false} StartQueue(from: State, to: State)
    ensures InOrder(from, to, [Route(from, [])], map[from := 0]) && Explored(from, to, {}, map[from := 0])
  {
    hide Next, Open;
  }

  /** The front of the queue is a shortest path to its state. */
  lemma {:induction false} FrontShortest(s: State, to: State, queue: seq<Route>, done: set<State>,
                                         dist: map<State, nat>)
    requires Search(s, to, queue, done, dist) && queue != [] && queue[0].state == to
    ensures Leads(s, queue[0].bits, to) && forall w :: Leads(s, w, to) ==> |queue[0].bits| <= |w|
  {
    hide Next, Walk;
    forall w | Leads(s, w, to)
      ensures |queue[0].bits| <= |w|
    {
      NoShortcut(s, to, queue, done, dist, w, |w|);
    }
  }

  /** The search does not run dry before it has found `to`. */
  lemma {:induction false} NeverDry(s: State, to: State, queue: seq<Route>, done: set<State>, dist: map<State, nat>)
    requires Search(s, to, queue, done, dist)
    ensures queue != []
  {
    hide Next, Walk, Detour;
    DetourLeads(s, to);
    NoShortcut(s, to, queue, done, dist, Detour(s, to), |Detour(s, to)|);
  }

  function AllStates(): set<State> {
    {Reset, Idle, SelectDr, CaptureDr, ShiftDr, Exit1Dr, PauseDr, Exit2Dr, UpdateDr,
     SelectIr, CaptureIr, ShiftIr, Exit1Ir, PauseIr, Exit2Ir, UpdateIr}
  }

  lemma {:induction false} Everywhere(s: State)
    ensures s in AllStates()
  {
  }

  /** One state fewer to explore. */
  lemma {:induction false} FewerLeft(done: set<State>, v: State)
    requires v !in done
    ensures AllStates() - (done + {v}) < AllStates() - done
  {
    Everywhere(v);
  }

  /** A shortest path that does not enter Reset unless asked to. */
  method Path(from: State, to: State) returns (bits: seq<bool>)
    ensures Leads(from, bits, to)
    ensures forall w :: Leads(from, w, to) ==> |bits| <= |w|
  {
    hide Next, Found, Search, Exploring, Leads, AllStates;
    var queue := [Route(from, [])];
    var seen := {from};
    ghost var done: set<State>, dist: map<State, nat> := {}, map[from := 0];
    StartSearch(from, to);
    while true
      invariant Search(from, to, queue, done, dist) && dist.Keys == seen
      decreases AllStates() - done
    {
      NeverDry(from, to, queue, done, dist);
      var r := queue[0];
      if r.state == to {
        FrontShortest(from, to, queue, done, dist);
        return r.bits;
      }
      Pop(from, to, queue, done, dist);
      queue := queue[1..];
      queue, seen, dist := Look(from, to, queue, seen, done, dist, r, false);
      queue, seen, dist := Look(from, to, queue, seen, done, dist, r, true);
      Push(from, to, queue, done, dist, r);
      FewerLeft(done, r.state);
      done := done + {r.state};
    }
  }

  /** Looks at one neighbour of `r`. */
  method Look(from: State, to: State, queue: seq<Route>, seen: set<State>, ghost done: set<State>,
              ghost dist: map<State, nat>, r: Route, bit: bool)
    returns (queue': seq<Route>, seen': set<State>, ghost dist': map<State, nat>)
    requires Exploring(from, to, queue, done, dist, r) && dist.Keys == seen
    ensures Exploring(from, to, queue', done, dist', r) && dist'.Keys == seen' && Beside(to, dist', r, bit)
    ensures forall b :: Beside(to, dist, r, b) ==> Beside(to, dist', r, b)
  {
    hide Next, Found;
    queue', seen', dist' := queue, seen, dist;
    var next := Next(r.state, bit);
    if Open(r.state, bit, to) && next !in seen {
      NextFound(from, to, r, bit);
      Enqueue(from, to, queue, done, dist, r, Route(next, r.bits + [bit]));
      queue', seen', dist' := queue + [Route(next, r.bits + [bit])], seen + {next}, dist[next := |r.bits| + 1];
    }
    FoundBeside(from, to, queue', done, dist', r, bit);
  }
}
