/**
 * Which of several shortest ways the search of track.cs picks: the one whose first exit comes first in the source's
 * list of exits. This settles the answer completely.
 */
module ExitOrder {
  import opened Wrappers
  import opened RoomGraph

  /** The k-th exit of `src` is open and starts a walk of exactly `n` exits to `v`. */
  ghost predicate Starts(w: World, src: int, k: nat, v: int, n: nat) {
    k < |Exits(w, src)| && n > 0 && Open(w, Exits(w, src)[k]) && Walk(w, Exits(w, src)[k].destination, v, n - 1)
  }

  ghost predicate FirstStart(w: World, src: int, k: nat, v: int, n: nat) {
    Starts(w, src, k, v, n) && forall j: nat :: j < k ==> !Starts(w, src, j, v, n)
  }

  ghost predicate Shortest(w: World, src: int, v: int, n: nat) {
    forall m: nat :: Walk(w, src, v, m) ==> n <= m
  }

  /** `dir` is the direction of the first exit in the list that starts a shortest walk. */
  ghost predicate FirstShortest(w: World, src: int, dir: nat, v: int) {
    exists n: nat, k: nat :: FirstStart(w, src, k, v, n) && Shortest(w, src, v, n) && Exits(w, src)[k].direction == dir
  }

  // ----- what every step of the search keeps

  /** `rank` numbers, for each queued room, the first exit of the source that starts a walk as long as it is deep. */
  ghost predicate Placed(w: World, src: int, queue: seq<Entry>, depth: map<int, nat>, rank: map<int, nat>) {
    forall q :: q in queue ==>
      && q.room in depth && q.room in rank
      && FirstStart(w, src, rank[q.room], q.room, depth[q.room])
      && Exits(w, src)[rank[q.room]].direction == q.dir
  }

  /** Rooms of one depth are queued by rank, and none of the next depth is ranked after one still to be examined. */
  ghost predicate InOrder(queue: seq<Entry>, depth: map<int, nat>, rank: map<int, nat>) {
    && (forall q :: q in queue ==> q.room in depth && q.room in rank)
    && forall i, j :: 0 <= i < j < |queue| ==> Follows(queue[i].room, queue[j].room, depth, rank)
  }

  ghost predicate Follows(u: int, v: int, depth: map<int, nat>, rank: map<int, nat>) {
    u in depth && v in depth && u in rank && v in rank &&
    (depth[u] == depth[v] ==> rank[u] <= rank[v]) &&
    (depth[u] + 1 == depth[v] ==> rank[v] <= rank[u])
  }

  /** Whatever lies no farther than the head is deep is marked. */
  lemma NearIsMarked(w: World, src: int, queue: seq<Entry>, depth: map<int, nat>, m: int, n: nat)
    requires SearchState(w, src, queue, depth) && queue != [] && queue[0].room in depth
    requires Walk(w, src, m, n) && n <= depth[queue[0].room]
    ensures m in depth && depth[m] <= n
  {
    hide Traced, Layered, DistinctEntries, Rooms, Open;
    if n > 0 {
      var u :| Walk(w, src, u, n - 1) && Step(w, u, m);
      HeadIsNearest(w, src, queue, depth, u, n - 1);
    }
  }

  /** A room found from the head shares its rank: an earlier exit would have led to it through an earlier head. */
  lemma HeadStarts(w: World, src: int, queue: seq<Entry>, depth: map<int, nat>, rank: map<int, nat>, v: int)
    requires SearchState(w, src, queue, depth) && Placed(w, src, queue, depth, rank) && InOrder(queue, depth, rank)
    requires queue != [] && v !in depth && Step(w, queue[0].room, v)
    ensures queue[0] in queue && FirstStart(w, src, rank[queue[0].room], v, depth[queue[0].room] + 1)
  {
    var h := queue[0].room;
    assert queue[0] in queue;
    var n, r := depth[h] + 1, rank[h];
    assert Starts(w, src, r, h, depth[h]) && Starts(w, src, r, v, n);
    forall j: nat | Starts(w, src, j, v, n)
      ensures r <= j
    {
      EarlierWouldBeMarked(w, src, queue, depth, rank, v, j);
    }
  }

  lemma StartIsWalk(w: World, src: int, k: nat, v: int, n: nat)
    requires Starts(w, src, k, v, n)
    ensures Walk(w, src, v, n)
  {
    var e := Exits(w, src)[k];
    assert Step(w, src, e.destination);
    WalkPrepend(w, src, e.destination, v, n - 1);
  }

  /** A walk of more than one exit has a last room before its end. */
  lemma LastBefore(w: World, src: int, j: nat, v: int, n: nat) returns (m: int)
    requires Starts(w, src, j, v, n + 1) && n > 0
    ensures Starts(w, src, j, m, n) && Step(w, m, v) && Walk(w, src, m, n)
  {
    hide Step, Open;
    var e := Exits(w, src)[j];
    m :| Walk(w, e.destination, m, n - 1) && Step(w, m, v);
    StartIsWalk(w, src, j, m, n);
  }

  lemma EarlierWouldBeMarked(w: World, src: int, queue: seq<Entry>, depth: map<int, nat>, rank: map<int, nat>, v: int,
                             j: nat)
    requires SearchState(w, src, queue, depth) && Placed(w, src, queue, depth, rank) && InOrder(queue, depth, rank)
    requires queue != [] && queue[0] in queue && v !in depth
    requires depth[queue[0].room] > 0 && Starts(w, src, j, v, depth[queue[0].room] + 1)
    ensures rank[queue[0].room] <= j
  {
    hide Walk, Step, Starts, Exits, WalkVia, DistinctEntries;
    var h := queue[0].room;
    var d := depth[h];
    var m := LastBefore(w, src, j, v, d);
    NearIsMarked(w, src, queue, depth, m, d);
    assert m in Rooms(queue);
    var i := QueuedAt(queue, m);
    assert queue[i] in queue && (i > 0 ==> Follows(h, m, depth, rank));
  }

  lemma QueuedAt(queue: seq<Entry>, room: int) returns (i: nat)
    requires room in Rooms(queue)
    ensures i < |queue| && queue[i].room == room
  {
    var q :| q in queue && q.room == room;
    i :| 0 <= i < |queue| && queue[i] == q;
  }

  /** Ranks after the head's exits have been scanned. */
  ghost function Rerank(rank: map<int, nat>, found: seq<Entry>, r: nat): map<int, nat> {
    rank + map v | v in Rooms(found) :: r
  }

  lemma NextPlaced(w: World, src: int, queue: seq<Entry>, depth: map<int, nat>, rank: map<int, nat>, found: seq<Entry>)
    requires SearchState(w, src, queue, depth) && Placed(w, src, queue, depth, rank) && InOrder(queue, depth, rank)
    requires queue != [] && queue[0] in queue
    requires found == Discover(w, Exits(w, queue[0].room), depth.Keys, Some(queue[0].dir))
    ensures Placed(w, src, queue[1..] + found, Deepen(depth, found, depth[queue[0].room] + 1),
                   Rerank(rank, found, rank[queue[0].room]))
  {
    hide Discover, SearchState, FirstStart, InOrder;
    var head := queue[0];
    forall q | q in queue[1..] + found
      ensures q in found ==> q.room in Rooms(found) && q.dir == head.dir &&
                             FirstStart(w, src, rank[head.room], q.room, depth[head.room] + 1)
      ensures q !in found ==> q in queue && q.room !in Rooms(found)
    {
      if q in found {
        FoundStarts(w, src, queue, depth, rank, q);
      } else {
        assert q in queue[1..];
        DiscoverFresh(w, Exits(w, head.room), depth.Keys, Some(head.dir));
      }
    }
  }

  /** An entry found from the head. */
  lemma FoundStarts(w: World, src: int, queue: seq<Entry>, depth: map<int, nat>, rank: map<int, nat>, q: Entry)
    requires SearchState(w, src, queue, depth) && Placed(w, src, queue, depth, rank) && InOrder(queue, depth, rank)
    requires queue != [] && queue[0] in queue
    requires q in Discover(w, Exits(w, queue[0].room), depth.Keys, Some(queue[0].dir))
    ensures q.dir == queue[0].dir && FirstStart(w, src, rank[queue[0].room], q.room, depth[queue[0].room] + 1)
  {
    hide Walk, Discover, SearchState, FirstStart, InOrder;
    var head := queue[0];
    var found := Discover(w, Exits(w, head.room), depth.Keys, Some(head.dir));
    DiscoverFresh(w, Exits(w, head.room), depth.Keys, Some(head.dir));
    DiscoverFinds(w, Exits(w, head.room), depth.Keys, Some(head.dir));
    assert q.room in Rooms(found) && FoundBy(w, Exits(w, head.room), Some(head.dir), q);
    HeadStarts(w, src, queue, depth, rank, q.room);
  }

  lemma NextInOrder(queue: seq<Entry>, depth: map<int, nat>, rank: map<int, nat>, found: seq<Entry>)
    requires queue != [] && queue[0] in queue && InOrder(queue, depth, rank) && Rooms(found) !! depth.Keys
    ensures InOrder(queue[1..] + found, Deepen(depth, found, depth[queue[0].room] + 1),
                    Rerank(rank, found, rank[queue[0].room]))
  {
    var h := queue[0].room;
    var queue', depth', rank' := queue[1..] + found, Deepen(depth, found, depth[h] + 1), Rerank(rank, found, rank[h]);
    forall i | 0 <= i < |queue'|
      ensures queue'[i].room in depth' && queue'[i].room in rank'
      ensures i < |queue| - 1 ==> queue'[i] == queue[i + 1] && queue'[i].room !in Rooms(found)
      ensures i < |queue| - 1 ==> Follows(h, queue'[i].room, depth, rank)
      ensures i >= |queue| - 1 ==> queue'[i].room in Rooms(found)
    {
      if i < |queue| - 1 {
        assert queue'[i] == queue[i + 1] && queue[i + 1] in queue;
      } else {
        assert queue'[i] == found[i - |queue| + 1];
      }
    }
    forall i, j | 0 <= i < j < |queue'|
      ensures Follows(queue'[i].room, queue'[j].room, depth', rank')
    {
      if j < |queue| - 1 {
        assert Follows(queue[i + 1].room, queue[j + 1].room, depth, rank);
      }
    }
  }

  // ----- the first level

  /** The number of the first open exit that leads to `v`, or the number of all exits. */
  ghost function FirstExit(w: World, exits: seq<ExitData>, v: int): (k: nat)
    ensures k <= |exits|
    ensures k < |exits| ==> Open(w, exits[k]) && exits[k].destination == v
    ensures forall j :: 0 <= j < k ==> !(Open(w, exits[j]) && exits[j].destination == v)
  {
    if exits == [] then 0
    else
      var n := |exits| - 1;
      var k := FirstExit(w, exits[..n], v);
      if k < n || (Open(w, exits[n]) && exits[n].destination == v) then k else n + 1
  }

  lemma NotFoundYet(w: World, src: int, exits: seq<ExitData>, v: int)
    requires v !in {src} + Rooms(Discover(w, exits, {src}, None))
    ensures FirstExit(w, exits, v) == |exits|
  {
    hide Discover;
    var k := FirstExit(w, exits, v);
    if k < |exits| {
      assert exits[k] in exits;
      DiscoverFinds(w, exits, {src}, None);
    }
  }

  /** The entries of the first level stand in the order of the exits that queued them. */
  lemma {:induction false} FirstRanks(w: World, src: int, exits: seq<ExitData>)
    ensures var found := Discover(w, exits, {src}, None);
      && (forall q :: q in found ==>
           FirstExit(w, exits, q.room) < |exits| && exits[FirstExit(w, exits, q.room)].direction == q.dir)
      && (forall i, j :: 0 <= i < j < |found| ==>
           FirstExit(w, exits, found[i].room) < FirstExit(w, exits, found[j].room))
    decreases |exits|
  {
    if exits != [] {
      var n := |exits| - 1;
      var before, e := exits[..n], exits[n];
      FirstRanks(w, src, before);
      var found := Discover(w, before, {src}, None);
      forall q | q in found
        ensures FirstExit(w, exits, q.room) == FirstExit(w, before, q.room)
      {
      }
      assert forall i :: 0 <= i < |found| ==> found[i] in found;
      if Open(w, e) && e.destination !in {src} + Rooms(found) {
        NotFoundYet(w, src, before, e.destination);
      }
    }
  }

  ghost function FirstRank(w: World, src: int): map<int, nat> {
    map v | v in Rooms(Discover(w, Exits(w, src), {src}, None)) :: FirstExit(w, Exits(w, src), v)
  }

  lemma FirstLevelPlaced(w: World, src: int)
    requires src in w
    ensures var first := Discover(w, Exits(w, src), {src}, None);
      && Placed(w, src, first, FirstDepth(w, src), FirstRank(w, src))
      && InOrder(first, FirstDepth(w, src), FirstRank(w, src))
  {
    hide Discover, FirstExit, FirstStart;
    var exits, first := Exits(w, src), Discover(w, Exits(w, src), {src}, None);
    FirstRanks(w, src, exits);
    DiscoverFresh(w, exits, {src}, None);
    forall q | q in first
      ensures q.room in Rooms(first) && q.room != src && FirstStart(w, src, FirstExit(w, exits, q.room), q.room, 1)
    {
      assert q.room in Rooms(first);
      FirstExitStarts(w, src, q.room);
    }
    assert forall i :: 0 <= i < |first| ==> first[i] in first;
  }

  lemma FirstExitStarts(w: World, src: int, v: int)
    requires FirstExit(w, Exits(w, src), v) < |Exits(w, src)|
    ensures FirstStart(w, src, FirstExit(w, Exits(w, src), v), v, 1)
  {
    hide FirstExit;
  }

  // ----- the whole search

  lemma {:induction false} ExplorePicks(w: World, src: int, queue: seq<Entry>, depth: map<int, nat>,
                                        rank: map<int, nat>, target: int, budget: nat)
    requires SearchState(w, src, queue, depth) && Placed(w, src, queue, depth, rank) && InOrder(queue, depth, rank)
    requires target in depth ==> target in Rooms(queue)
    requires Explore(w, queue, depth.Keys, target, budget) >= 0
    ensures FirstShortest(w, src, Explore(w, queue, depth.Keys, target, budget), target)
    decreases budget
  {
    hide SearchState, Placed, InOrder, Discover, FirstShortest, Explore, Rooms;
    ExploreUnfolds(w, queue, depth.Keys, target, budget);
    if queue[0].room == target {
      HeadPicked(w, src, queue, depth, rank);
    } else {
      var found := Discover(w, Exits(w, queue[0].room), depth.Keys, Some(queue[0].dir));
      NextState(w, src, queue, depth);
      NextRanked(w, src, queue, depth, rank, found);
      NextRooms(queue, found);
      ExplorePicks(w, src, queue[1..] + found, Deepen(depth, found, depth[queue[0].room] + 1),
                   Rerank(rank, found, rank[queue[0].room]), target, budget - 1);
    }
  }

  lemma NextRanked(w: World, src: int, queue: seq<Entry>, depth: map<int, nat>, rank: map<int, nat>, found: seq<Entry>)
    requires SearchState(w, src, queue, depth) && Placed(w, src, queue, depth, rank) && InOrder(queue, depth, rank)
    requires queue != [] && found == Discover(w, Exits(w, queue[0].room), depth.Keys, Some(queue[0].dir))
    ensures queue[0] in queue && queue[0].room in depth && queue[0].room in rank
    ensures var depth' := Deepen(depth, found, depth[queue[0].room] + 1);
      var rank' := Rerank(rank, found, rank[queue[0].room]);
      Placed(w, src, queue[1..] + found, depth', rank') && InOrder(queue[1..] + found, depth', rank')
    ensures Deepen(depth, found, depth[queue[0].room] + 1).Keys == depth.Keys + Rooms(found)
  {
    assert queue[0] in queue;
    hide SearchState, FirstStart, Discover;
    DiscoverFresh(w, Exits(w, queue[0].room), depth.Keys, Some(queue[0].dir));
    NextPlaced(w, src, queue, depth, rank, found);
    NextInOrder(queue, depth, rank, found);
  }

  lemma HeadPicked(w: World, src: int, queue: seq<Entry>, depth: map<int, nat>, rank: map<int, nat>)
    requires SearchState(w, src, queue, depth) && Placed(w, src, queue, depth, rank) && queue != []
    ensures FirstShortest(w, src, queue[0].dir, queue[0].room)
  {
    var target := queue[0].room;
    assert queue[0] in queue && target in Rooms(queue);
    forall m: nat | Walk(w, src, target, m)
      ensures depth[target] <= m
    {
      HeadIsNearest(w, src, queue, depth, target, m);
    }
    assert Shortest(w, src, target, depth[target]);
  }

  lemma FirstIsUnique(w: World, src: int, a: nat, b: nat, v: int)
    requires FirstShortest(w, src, a, v) && FirstShortest(w, src, b, v)
    ensures a == b
  {
    hide Walk, Open;
    var n: nat, k: nat :| FirstStart(w, src, k, v, n) && Shortest(w, src, v, n) && Exits(w, src)[k].direction == a;
    var m: nat, j: nat :| FirstStart(w, src, j, v, m) && Shortest(w, src, v, m) && Exits(w, src)[j].direction == b;
    StartIsWalk(w, src, k, v, n);
    StartIsWalk(w, src, j, v, m);
    assert n == m;
    assert k == j by {
      assert Starts(w, src, k, v, n) && Starts(w, src, j, v, n);
    }
  }

  /** A direction in the answer is that of the first exit in the list that starts a shortest walk. */
  lemma SearchPicksFirst(w: World, src: int, target: int, maxdist: int)
    requires src in w && src != target && Search(w, src, target, maxdist) >= 0
    ensures FirstShortest(w, src, Search(w, src, target, maxdist), target)
  {
    hide SearchState, Placed, InOrder, FirstShortest, Discover, Explore;
    SearchStart(w, src);
    FirstLevelPlaced(w, src);
    var first := Discover(w, Exits(w, src), {src}, None);
    ExplorePicks(w, src, first, FirstDepth(w, src), FirstRank(w, src), target, if maxdist < 0 then 0 else maxdist);
  }

  /** With a budget for all rooms the answer is that direction if there is one, and "no path" if there is none. */
  lemma SearchSettled(w: World, src: int, target: int, maxdist: int, dir: nat)
    requires src in w && src != target && maxdist >= |w|
    ensures Search(w, src, target, maxdist) == dir <==> FirstShortest(w, src, dir, target)
    ensures Search(w, src, target, maxdist) == BFS_NO_PATH <==> !Reachable(w, src, target)
  {
    hide Search, FirstShortest, Reachable, StartsShortestWalk;
    SearchCorrect(w, src, target, maxdist);
    var r := Search(w, src, target, maxdist);
    if r >= 0 {
      SearchPicksFirst(w, src, target, maxdist);
      if FirstShortest(w, src, dir, target) {
        FirstIsUnique(w, src, r, dir, target);
      }
    } else if FirstShortest(w, src, dir, target) {
      FirstIsReachable(w, src, dir, target);
    }
  }

  lemma FirstIsReachable(w: World, src: int, dir: nat, target: int)
    requires FirstShortest(w, src, dir, target)
    ensures Reachable(w, src, target)
  {
    hide Walk;
    var n: nat, k: nat :|
      FirstStart(w, src, k, target, n) && Shortest(w, src, target, n) && Exits(w, src)[k].direction == dir;
    StartIsWalk(w, src, k, target, n);
  }

  // ----- the smallest budgets

  /** With a budget of none nothing is found; with one, just the room behind the first exit that is followed. */
  lemma SmallBudgets(w: World, src: int, target: int, dir: nat)
    requires src in w && src != target
    ensures Search(w, src, target, 0) == BFS_NO_PATH
    ensures Search(w, src, target, 1) == dir <==>
      var first := Discover(w, Exits(w, src), {src}, None); first != [] && first[0] == Entry(target, dir)
  {
    var first := Discover(w, Exits(w, src), {src}, None);
    var seen := {src} + Rooms(first);
    ExploreUnfolds(w, first, seen, target, 0);
    ExploreUnfolds(w, first, seen, target, 1);
    if first != [] {
      ExploreUnfolds(w, NextQueue(w, first, seen), NextMarked(w, first, seen), target, 0);
    }
  }
}
