/**
 * The room graph that the tracker walks, as a value: open exits, walks along them, and the
 * breadth-first search of track.cs written as a function of its queue and its set of marked rooms.
 */
module RoomGraph {
  import opened Wrappers

  const BFS_ERROR := -1
  const BFS_ALREADY_THERE := -2
  const BFS_NO_PATH := -3

  datatype ExitData = ExitData(direction: nat, closed: bool, destination: int)

  /** Each known room's exits, in list order. */
  type World = map<int, seq<ExitData>>

  /** A queued room, with the direction of the first-level room it descends from. */
  datatype Entry = Entry(room: int, dir: nat)

  predicate Open(w: World, e: ExitData) {
    e.destination in w && !e.closed
  }

  function Exits(w: World, room: int): seq<ExitData> {
    if room in w then w[room] else []
  }

  ghost predicate Step(w: World, u: int, v: int) {
    exists e :: e in Exits(w, u) && Open(w, e) && e.destination == v
  }

  /** One step is one exit that is not closed, from a known room to a known room. */
  lemma StepIs(w: World, u: int, v: int)
    ensures Step(w, u, v) <==>
      u in w && v in w && exists k :: 0 <= k < |w[u]| && !w[u][k].closed && w[u][k].destination == v
  {
    if u in w && v in w {
      if k :| 0 <= k < |w[u]| && !w[u][k].closed && w[u][k].destination == v {
        assert w[u][k] in Exits(w, u);
      }
      if e :| e in Exits(w, u) && Open(w, e) && e.destination == v {
        var k :| 0 <= k < |w[u]| && w[u][k] == e;
      }
    }
  }

  /** A walk of exactly `n` open exits leads from `u` to `v`. */
  ghost predicate Walk(w: World, u: int, v: int, n: nat)
    decreases n
  {
    if n == 0 then u == v else exists m :: Walk(w, u, m, n - 1) && Step(w, m, v)
  }

  /** A walk of exactly `n` open exits leads from `src` to `v`, and its first exit points to `dir`. */
  ghost predicate WalkVia(w: World, src: int, dir: nat, v: int, n: nat) {
    0 < n &&
    exists e :: e in Exits(w, src) && Open(w, e) && e.direction == dir && Walk(w, e.destination, v, n - 1)
  }

  ghost predicate Reachable(w: World, u: int, v: int) {
    exists n: nat :: Walk(w, u, v, n)
  }

  /** `dir` starts a walk from `src` to `v` and no walk between them is shorter. */
  ghost predicate StartsShortestWalk(w: World, src: int, dir: nat, v: int) {
    exists n: nat :: WalkVia(w, src, dir, v, n) && forall m: nat :: Walk(w, src, v, m) ==> n <= m
  }

  lemma {:induction false} WalkViaIsWalk(w: World, src: int, dir: nat, v: int, n: nat)
    requires WalkVia(w, src, dir, v, n)
    ensures Walk(w, src, v, n)
  {
    var e :| e in Exits(w, src) && Open(w, e) && e.direction == dir && Walk(w, e.destination, v, n - 1);
    WalkPrepend(w, src, e.destination, v, n - 1);
  }

  lemma {:induction false} WalkPrepend(w: World, u: int, m: int, v: int, n: nat)
    requires Step(w, u, m) && Walk(w, m, v, n)
    ensures Walk(w, u, v, n + 1)
    decreases n
  {
    if n == 0 {
      assert Walk(w, u, u, 0) && Step(w, u, v);
    } else {
      var x :| Walk(w, m, x, n - 1) && Step(w, x, v);
      WalkPrepend(w, u, m, x, n - 1);
    }
  }

  // ----- the search on values

  function Rooms(queue: seq<Entry>): set<int> {
    set q <- queue :: q.room
  }

  /**
   * The entries queued while scanning `exits` when the rooms in `seen` carry the mark. The tag is the
   * queue head's direction, or nothing at the source, where every exit supplies its own.
   */
  function Discover(w: World, exits: seq<ExitData>, seen: set<int>, tag: Option<nat>): seq<Entry> {
    if exits == [] then []
    else
      var found := Discover(w, exits[..|exits| - 1], seen, tag);
      var e := exits[|exits| - 1];
      if Open(w, e) && e.destination !in seen + Rooms(found)
      then found + [Entry(e.destination, if tag.Some? then tag.value else e.direction)]
      else found
  }

  lemma DiscoverOneMore(w: World, exits: seq<ExitData>, i: nat, seen: set<int>, tag: Option<nat>)
    requires i < |exits|
    ensures var found, e := Discover(w, exits[..i], seen, tag), exits[i];
      Discover(w, exits[..i + 1], seen, tag) ==
      if Open(w, e) && e.destination !in seen + Rooms(found)
      then found + [Entry(e.destination, if tag.Some? then tag.value else e.direction)]
      else found
  {
    assert exits[..i + 1][..i] == exits[..i];
  }

  lemma RoomsOneMore(queue: seq<Entry>, q: Entry)
    ensures Rooms(queue + [q]) == Rooms(queue) + {q.room}
  {
    assert forall r :: r in queue + [q] <==> r in queue || r == q;
  }

  ghost predicate DistinctEntries(queue: seq<Entry>) {
    forall i, j :: 0 <= i < j < |queue| ==> queue[i].room != queue[j].room
  }

  /** Some open exit leads to the queued room and the entry carries the right direction. */
  ghost predicate FoundBy(w: World, exits: seq<ExitData>, tag: Option<nat>, q: Entry) {
    exists e :: (e in exits && Open(w, e) && e.destination == q.room &&
                 q.dir == if tag.Some? then tag.value else e.direction)
  }

  lemma {:induction false} DiscoverFresh(w: World, exits: seq<ExitData>, seen: set<int>, tag: Option<nat>)
    ensures var found := Discover(w, exits, seen, tag);
      DistinctEntries(found) && Rooms(found) <= w.Keys && Rooms(found) !! seen
  {
    if exits != [] {
      DiscoverFresh(w, exits[..|exits| - 1], seen, tag);
      var found := Discover(w, exits[..|exits| - 1], seen, tag);
      forall i | 0 <= i < |found|
        ensures found[i].room in Rooms(found)
      {
        assert found[i] in found;
      }
    }
  }

  lemma {:induction false} DiscoverFinds(w: World, exits: seq<ExitData>, seen: set<int>, tag: Option<nat>)
    ensures var found := Discover(w, exits, seen, tag);
      && (forall q :: q in found ==> FoundBy(w, exits, tag, q))
      && (forall e :: e in exits && Open(w, e) ==> e.destination in seen + Rooms(found))
  {
    if exits != [] {
      var before := exits[..|exits| - 1];
      DiscoverFinds(w, before, seen, tag);
      assert exits == before + [exits[|exits| - 1]];
      assert Rooms(Discover(w, before, seen, tag)) <= Rooms(Discover(w, exits, seen, tag));
      forall q | q in Discover(w, exits, seen, tag)
        ensures FoundBy(w, exits, tag, q)
      {
        if q in Discover(w, before, seen, tag) {
          assert FoundBy(w, before, tag, q);
        } else {
          assert exits[|exits| - 1] in exits;
        }
      }
      var found := Discover(w, exits, seen, tag);
      var e := exits[|exits| - 1];
      if Open(w, e) && e.destination !in seen + Rooms(Discover(w, before, seen, tag)) {
        assert found[|found| - 1] in found;
      }
    }
  }

  function NextQueue(w: World, queue: seq<Entry>, seen: set<int>): seq<Entry>
    requires queue != []
  {
    queue[1..] + Discover(w, Exits(w, queue[0].room), seen, Some(queue[0].dir))
  }

  function NextMarked(w: World, queue: seq<Entry>, seen: set<int>): set<int>
    requires queue != []
  {
    seen + Rooms(Discover(w, Exits(w, queue[0].room), seen, Some(queue[0].dir)))
  }

  /** The main loop: `budget` queue heads may still be examined. */
  function Explore(w: World, queue: seq<Entry>, seen: set<int>, target: int, budget: nat): int
    decreases budget
  {
    if queue == [] || budget == 0 then BFS_NO_PATH
    else if queue[0].room == target then queue[0].dir
    else
      Explore(w, NextQueue(w, queue, seen), NextMarked(w, queue, seen), target, budget - 1)
  }

  lemma ExploreUnfolds(w: World, queue: seq<Entry>, seen: set<int>, target: int, budget: nat)
    ensures Explore(w, queue, seen, target, budget) ==
            if queue == [] || budget == 0 then BFS_NO_PATH
            else if queue[0].room == target then queue[0].dir
            else Explore(w, NextQueue(w, queue, seen), NextMarked(w, queue, seen), target, budget - 1)
  {
  }

  /** The whole search between two distinct rooms. */
  function Search(w: World, src: int, target: int, maxdist: int): int {
    var first := Discover(w, Exits(w, src), {src}, None);
    Explore(w, first, {src} + Rooms(first), target, if maxdist < 0 then 0 else maxdist)
  }

  // ----- what every step of the search keeps

  /** Every queued room is marked and was found along a walk that starts in its direction. */
  ghost predicate Traced(w: World, src: int, queue: seq<Entry>, depth: map<int, nat>) {
    forall q :: q in queue ==>
      q.room in depth && q.room != src && WalkVia(w, src, q.dir, q.room, depth[q.room])
  }

  /** The queue is ordered by depth and spans at most two levels. */
  ghost predicate Layered(queue: seq<Entry>, depth: map<int, nat>)
    requires Rooms(queue) <= depth.Keys
  {
    forall i, j :: 0 <= i < j < |queue| ==>
      queue[i].room in Rooms(queue) && queue[j].room in Rooms(queue) &&
      depth[queue[i].room] <= depth[queue[j].room] <= depth[queue[i].room] + 1
  }

  /** A marked room that has left the queue lies no deeper than the head, and all its neighbours are marked. */
  ghost predicate Settled(w: World, queue: seq<Entry>, depth: map<int, nat>)
    requires Rooms(queue) <= depth.Keys
  {
    && (queue != [] ==> queue[0].room in Rooms(queue))
    && (queue != [] ==>
         forall u {:trigger depth[u]} :: u in depth && u !in Rooms(queue) ==> depth[u] <= depth[queue[0].room])
    && (forall u, v {:trigger Step(w, u, v)} :: u in depth && u !in Rooms(queue) && Step(w, u, v) ==>
         v in depth && depth[v] <= depth[u] + 1)
  }

  /** `depth` gives each marked room the length of the walk that found it. */
  ghost predicate SearchState(w: World, src: int, queue: seq<Entry>, depth: map<int, nat>) {
    && src in depth && depth[src] == 0 && depth.Keys <= w.Keys
    && Rooms(queue) <= depth.Keys
    && DistinctEntries(queue)
    && Traced(w, src, queue, depth)
    && Layered(queue, depth)
    && Settled(w, queue, depth)
  }

  /** The source at depth 0, its neighbours at depth 1. */
  ghost function FirstDepth(w: World, src: int): map<int, nat>
    requires src in w
  {
    (map v | v in Rooms(Discover(w, Exits(w, src), {src}, None)) :: 1 as nat)[src := 0]
  }

  lemma FirstLevel(w: World, src: int)
    requires src in w
    ensures SearchState(w, src, Discover(w, Exits(w, src), {src}, None), FirstDepth(w, src))
  {
    var first := Discover(w, Exits(w, src), {src}, None);
    DiscoverFresh(w, Exits(w, src), {src}, None);
    DiscoverFinds(w, Exits(w, src), {src}, None);
    forall q | q in first
      ensures WalkVia(w, src, q.dir, q.room, 1)
    {
      assert FoundBy(w, Exits(w, src), None, q);
      var e :| e in Exits(w, src) && Open(w, e) && e.destination == q.room && q.dir == e.direction;
      assert Walk(w, e.destination, q.room, 0);
    }
  }

  /** Depths after the head's exits have been scanned. */
  ghost function Deepen(depth: map<int, nat>, found: seq<Entry>, level: nat): map<int, nat> {
    depth + map v | v in Rooms(found) :: level
  }

  lemma NextRooms(queue: seq<Entry>, found: seq<Entry>)
    requires queue != []
    ensures Rooms(queue[1..] + found) == Rooms(queue[1..]) + Rooms(found)
    ensures Rooms(queue) == {queue[0].room} + Rooms(queue[1..])
    ensures DistinctEntries(queue) ==> queue[0].room !in Rooms(queue[1..])
  {
    assert forall q :: q in queue[1..] + found <==> q in queue[1..] || q in found;
    assert queue == [queue[0]] + queue[1..];
  }

  lemma NextTraced(w: World, src: int, queue: seq<Entry>, depth: map<int, nat>, found: seq<Entry>, level: nat)
    requires queue != [] && Traced(w, src, queue, depth) && src in depth
    requires level == depth[queue[0].room] + 1
    requires found == Discover(w, Exits(w, queue[0].room), depth.Keys, Some(queue[0].dir))
    ensures Traced(w, src, queue[1..] + found, Deepen(depth, found, level))
  {
    var head := queue[0];
    DiscoverFresh(w, Exits(w, head.room), depth.Keys, Some(head.dir));
    DiscoverFinds(w, Exits(w, head.room), depth.Keys, Some(head.dir));
    forall q | q in found
      ensures q.room !in depth && q.room != src && WalkVia(w, src, q.dir, q.room, level)
    {
      assert q.room in Rooms(found) && FoundBy(w, Exits(w, head.room), Some(head.dir), q);
      var e :| e in Exits(w, head.room) && Open(w, e) && e.destination == q.room && q.dir == head.dir;
      var f :| f in Exits(w, src) && Open(w, f) && f.direction == head.dir &&
               Walk(w, f.destination, head.room, depth[head.room] - 1);
      assert Step(w, head.room, q.room);
      assert Walk(w, f.destination, q.room, level - 1);
    }
    forall q | q in queue[1..]
      ensures q.room !in Rooms(found)
    {
      assert q in queue;
    }
  }

  lemma NextLayered(queue: seq<Entry>, depth: map<int, nat>, found: seq<Entry>, level: nat)
    requires queue != [] && Rooms(queue) <= depth.Keys && Rooms(found) !! depth.Keys
    requires queue[0].room in depth && level == depth[queue[0].room] + 1
    requires Layered(queue, depth)
    ensures Rooms(queue[1..] + found) <= Deepen(depth, found, level).Keys
    ensures Layered(queue[1..] + found, Deepen(depth, found, level))
  {
    NextRooms(queue, found);
    var queue', depth' := queue[1..] + found, Deepen(depth, found, level);
    forall i | 0 <= i < |queue'|
      ensures queue'[i].room in Rooms(queue') && queue'[i].room in depth'
      ensures level - 1 <= depth'[queue'[i].room] <= level
      ensures i < |queue| - 1 ==> depth'[queue'[i].room] == depth[queue[i + 1].room]
      ensures i >= |queue| - 1 ==> depth'[queue'[i].room] == level
    {
      assert queue'[i] in queue';
      if i < |queue| - 1 {
        assert queue'[i] == queue[i + 1] && queue[0].room in Rooms(queue) && queue[i + 1].room in Rooms(queue);
      } else {
        assert queue'[i] == found[i - |queue| + 1] && queue'[i].room in Rooms(found);
      }
    }
  }

  /** Each neighbour of the head is already marked no deeper than the next level, or is found now. */
  lemma HeadNeighbour(w: World, queue: seq<Entry>, depth: map<int, nat>, v: int)
    requires queue != [] && Rooms(queue) <= depth.Keys && queue[0].room in depth
    requires Layered(queue, depth) && Settled(w, queue, depth)
    requires Step(w, queue[0].room, v)
    ensures v in depth ==> depth[v] <= depth[queue[0].room] + 1
    ensures v !in depth ==> v in Rooms(Discover(w, Exits(w, queue[0].room), depth.Keys, Some(queue[0].dir)))
  {
    DiscoverFinds(w, Exits(w, queue[0].room), depth.Keys, Some(queue[0].dir));
    if v in Rooms(queue) {
      var q :| q in queue && q.room == v;
      var i :| 0 <= i < |queue| && queue[i] == q;
    }
  }

  lemma NextSettled(w: World, queue: seq<Entry>, depth: map<int, nat>, found: seq<Entry>, level: nat)
    requires queue != [] && Rooms(queue) <= depth.Keys
    requires queue[0].room in depth && level == depth[queue[0].room] + 1
    requires found == Discover(w, Exits(w, queue[0].room), depth.Keys, Some(queue[0].dir))
    requires Layered(queue, depth) && Settled(w, queue, depth)
    ensures Rooms(queue[1..] + found) <= Deepen(depth, found, level).Keys
    ensures Settled(w, queue[1..] + found, Deepen(depth, found, level))
  {
    hide Walk, Open;
    DiscoverFresh(w, Exits(w, queue[0].room), depth.Keys, Some(queue[0].dir));
    NextRooms(queue, found);
    NextLayered(queue, depth, found, level);
    var queue', depth' := queue[1..] + found, Deepen(depth, found, level);
    forall u | u in depth' && u !in Rooms(queue')
      ensures queue' != [] ==> queue'[0].room in Rooms(queue') && depth'[u] <= depth'[queue'[0].room]
    {
      if queue' != [] {
        assert queue'[0] in queue';
        if |queue| > 1 {
          assert queue[1].room in Rooms(queue);
        } else {
          assert queue'[0].room in Rooms(found);
        }
      }
    }
    forall u, v | u in depth' && u !in Rooms(queue') && Step(w, u, v)
      ensures v in depth' && depth'[v] <= depth'[u] + 1
    {
      if u == queue[0].room {
        HeadNeighbour(w, queue, depth, v);
      }
    }
  }

  lemma NextState(w: World, src: int, queue: seq<Entry>, depth: map<int, nat>)
    requires queue != [] && SearchState(w, src, queue, depth)
    ensures var found := Discover(w, Exits(w, queue[0].room), depth.Keys, Some(queue[0].dir));
      queue[0].room in depth &&
      SearchState(w, src, queue[1..] + found, Deepen(depth, found, depth[queue[0].room] + 1))
  {
    var head := queue[0];
    assert head in queue && head.room in Rooms(queue);
    hide Walk, WalkVia, Traced, Layered, Settled, DistinctEntries, Discover, Rooms;
    var found := Discover(w, Exits(w, head.room), depth.Keys, Some(head.dir));
    var level := depth[head.room] + 1;
    DiscoverFresh(w, Exits(w, head.room), depth.Keys, Some(head.dir));
    NextRooms(queue, found);
    NextTraced(w, src, queue, depth, found, level);
    NextLayered(queue, depth, found, level);
    NextSettled(w, queue, depth, found, level);
    NextDistinct(queue, found, depth.Keys);
  }

  lemma NextDistinct(queue: seq<Entry>, found: seq<Entry>, seen: set<int>)
    requires queue != [] && DistinctEntries(queue) && DistinctEntries(found)
    requires Rooms(queue) <= seen && Rooms(found) !! seen
    ensures DistinctEntries(queue[1..] + found)
  {
    forall i, j | 0 <= i < |queue| - 1 && 0 <= j < |found|
      ensures queue[1..][i].room != found[j].room
    {
      assert queue[1..][i] in queue && found[j] in found;
      assert queue[1..][i].room in Rooms(queue) && found[j].room in Rooms(found);
    }
  }

  /** While rooms are queued, a walk to any room is at least as long as the head is deep, unless it was examined. */
  lemma {:induction false} HeadIsNearest(w: World, src: int, queue: seq<Entry>, depth: map<int, nat>, v: int, n: nat)
    requires SearchState(w, src, queue, depth) && Walk(w, src, v, n)
    ensures (v in depth && v !in Rooms(queue) && depth[v] <= n) || (queue != [] && depth[queue[0].room] <= n)
    decreases n
  {
    if n == 0 {
      assert src !in Rooms(queue);
    } else {
      var m :| Walk(w, src, m, n - 1) && Step(w, m, v);
      HeadIsNearest(w, src, queue, depth, m, n - 1);
      if v in depth && v in Rooms(queue) {
        var q :| q in queue && q.room == v;
      }
    }
  }

  lemma TargetAtHead(w: World, src: int, queue: seq<Entry>, depth: map<int, nat>)
    requires queue != [] && SearchState(w, src, queue, depth)
    ensures StartsShortestWalk(w, src, queue[0].dir, queue[0].room)
  {
    var target := queue[0].room;
    assert queue[0] in queue && target in Rooms(queue);
    forall m: nat | Walk(w, src, target, m)
      ensures depth[target] <= m
    {
      HeadIsNearest(w, src, queue, depth, target, m);
    }
    assert WalkVia(w, src, queue[0].dir, target, depth[target]);
  }

  lemma NothingLeft(w: World, src: int, depth: map<int, nat>, target: int)
    requires SearchState(w, src, [], depth) && target !in depth
    ensures !Reachable(w, src, target)
  {
    forall n: nat
      ensures !Walk(w, src, target, n)
    {
      if Walk(w, src, target, n) {
        HeadIsNearest(w, src, [], depth, target, n);
      }
    }
  }

  /** What an answer below promises; a search that had budget for every unmarked room also promises completeness. */
  ghost predicate RightAnswer(w: World, src: int, target: int, r: int, complete: bool) {
    if r >= 0 then StartsShortestWalk(w, src, r, target)
    else r == BFS_NO_PATH && (complete ==> !Reachable(w, src, target))
  }

  ghost predicate Ample(w: World, queue: seq<Entry>, seen: set<int>, budget: nat) {
    budget >= |queue| + |w.Keys - seen|
  }

  /** Some later state has the same answer, and the target has not been passed over on the way. */
  lemma ExploreStep(w: World, src: int, queue: seq<Entry>, depth: map<int, nat>, target: int, budget: nat)
      returns (queue': seq<Entry>, depth': map<int, nat>)
    requires SearchState(w, src, queue, depth) && queue != [] && budget > 0 && queue[0].room != target
    requires target in depth ==> target in Rooms(queue)
    ensures SearchState(w, src, queue', depth')
    ensures target in depth' ==> target in Rooms(queue')
    ensures queue' == NextQueue(w, queue, depth.Keys) && depth'.Keys == NextMarked(w, queue, depth.Keys)
  {
    hide SearchState;
    NextState(w, src, queue, depth);
    var found := Discover(w, Exits(w, queue[0].room), depth.Keys, Some(queue[0].dir));
    queue', depth' := queue[1..] + found, Deepen(depth, found, depth[queue[0].room] + 1);
    NextRooms(queue, found);
  }

  lemma AmpleStep(w: World, queue: seq<Entry>, seen: set<int>, budget: nat)
    requires queue != [] && budget > 0 && Ample(w, queue, seen, budget)
    ensures Ample(w, NextQueue(w, queue, seen), NextMarked(w, queue, seen), budget - 1)
  {
    NextCount(w, queue, seen, Discover(w, Exits(w, queue[0].room), seen, Some(queue[0].dir)));
  }

  /** The search from any of its states, told apart by its answer. */
  lemma {:induction false} ExploreCorrect(w: World, src: int, queue: seq<Entry>, depth: map<int, nat>,
                                          target: int, budget: nat, r: int, complete: bool)
    requires SearchState(w, src, queue, depth)
    requires target in depth ==> target in Rooms(queue)
    requires r == Explore(w, queue, depth.Keys, target, budget)
    requires complete ==> Ample(w, queue, depth.Keys, budget)
    ensures RightAnswer(w, src, target, r, complete)
    decreases budget
  {
    hide SearchState;
    if queue == [] {
      NothingLeft(w, src, depth, target);
    } else if budget != 0 {
      if queue[0].room == target {
        TargetAtHead(w, src, queue, depth);
      } else {
        var queue', depth' := ExploreStep(w, src, queue, depth, target, budget);
        if complete {
          AmpleStep(w, queue, depth.Keys, budget);
        }
        ExploreCorrect(w, src, queue', depth', target, budget - 1, r, complete);
      }
    }
  }

  /** Scanning the head marks as many rooms as it queues. */
  lemma NextCount(w: World, queue: seq<Entry>, seen: set<int>, found: seq<Entry>)
    requires queue != [] && found == Discover(w, Exits(w, queue[0].room), seen, Some(queue[0].dir))
    ensures |found| + |w.Keys - (seen + Rooms(found))| == |w.Keys - seen|
  {
    DiscoverFresh(w, Exits(w, queue[0].room), seen, Some(queue[0].dir));
    DistinctRooms(found);
    MovedCount(w.Keys, seen, Rooms(found));
  }

  lemma MovedCount(all: set<int>, seen: set<int>, moved: set<int>)
    requires moved <= all && moved !! seen
    ensures |moved| + |all - (seen + moved)| == |all - seen|
  {
    assert all - seen == (all - (seen + moved)) + moved;
  }

  lemma {:induction false} DistinctRooms(queue: seq<Entry>)
    requires DistinctEntries(queue)
    ensures |Rooms(queue)| == |queue|
  {
    if queue != [] {
      DistinctRooms(queue[1..]);
      assert Rooms(queue) == {queue[0].room} + Rooms(queue[1..]);
    }
  }

  // ----- main results about a whole search

  lemma SearchStart(w: World, src: int)
    requires src in w
    ensures var first, depth := Discover(w, Exits(w, src), {src}, None), FirstDepth(w, src);
      && SearchState(w, src, first, depth)
      && depth.Keys == {src} + Rooms(first)
      && Ample(w, first, depth.Keys, |w|)
  {
    hide SearchState;
    var first := Discover(w, Exits(w, src), {src}, None);
    FirstLevel(w, src);
    DiscoverFresh(w, Exits(w, src), {src}, None);
    DistinctRooms(first);
    MovedCount(w.Keys, {src}, Rooms(first));
    assert |w.Keys - {src}| == |w.Keys| - 1;
  }

  lemma SearchCorrect(w: World, src: int, target: int, maxdist: int)
    requires src in w && src != target
    ensures var r := Search(w, src, target, maxdist);
      && (r >= 0 ==> StartsShortestWalk(w, src, r, target))
      && (r < 0 ==> r == BFS_NO_PATH)
      && (maxdist >= |w| ==> (r == BFS_NO_PATH <==> !Reachable(w, src, target)))
  {
    hide SearchState;
    SearchStart(w, src);
    var r := Search(w, src, target, maxdist);
    ExploreCorrect(w, src, Discover(w, Exits(w, src), {src}, None), FirstDepth(w, src), target,
                   if maxdist < 0 then 0 else maxdist, r, maxdist >= |w|);
    if r >= 0 {
      var n: nat :| WalkVia(w, src, r, target, n) && forall m: nat :: Walk(w, src, target, m) ==> n <= m;
      WalkViaIsWalk(w, src, r, target, n);
    }
  }

  /** A longer budget never changes an answer that names a direction. */
  lemma {:induction false} BudgetOnlyHides(w: World, queue: seq<Entry>, seen: set<int>, target: int, a: nat, b: nat)
    requires a <= b
    requires Explore(w, queue, seen, target, a) >= 0
    ensures Explore(w, queue, seen, target, b) == Explore(w, queue, seen, target, a)
    decreases a
  {
    if queue[0].room != target {
      BudgetOnlyHides(w, NextQueue(w, queue, seen), NextMarked(w, queue, seen), target, a - 1, b - 1);
    }
  }

  /**
   * For every pair of rooms with a walk between them one number of examined rooms decides the answer:
   * below it the search gives up, from it on the answer is always the same direction.
   */
  lemma {:induction false} SearchThreshold(w: World, src: int, target: int) returns (enough: nat, dir: nat)
    requires src in w && src != target && Reachable(w, src, target)
    ensures 0 < enough <= |w|
    ensures forall maxdist :: Search(w, src, target, maxdist) == if maxdist < enough then BFS_NO_PATH else dir
  {
    SearchCorrect(w, src, target, |w|);
    dir := Search(w, src, target, |w|);
    enough := |w|;
    while Search(w, src, target, enough - 1) >= 0
      decreases enough
      invariant 0 < enough <= |w| && Search(w, src, target, enough) == dir
    {
      SearchMonotone(w, src, target, enough - 1, |w|);
      enough := enough - 1;
      assert Search(w, src, target, 0) < 0;
    }
    forall maxdist
      ensures Search(w, src, target, maxdist) == if maxdist < enough then BFS_NO_PATH else dir
    {
      SearchCorrect(w, src, target, maxdist);
      if maxdist >= enough {
        SearchMonotone(w, src, target, enough, maxdist);
      } else if Search(w, src, target, maxdist) >= 0 {
        SearchMonotone(w, src, target, maxdist, enough - 1);
      }
    }
  }

  lemma {:induction false} SearchMonotone(w: World, src: int, target: int, a: int, b: int)
    requires a <= b && Search(w, src, target, a) >= 0
    ensures Search(w, src, target, b) == Search(w, src, target, a)
  {
    var first := Discover(w, Exits(w, src), {src}, None);
    BudgetOnlyHides(w, first, {src} + Rooms(first), target, if a < 0 then 0 else a, if b < 0 then 0 else b);
  }
}
