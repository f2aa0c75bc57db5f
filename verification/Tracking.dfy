/**
 * The room tracker of track.cs: marks on rooms, a work queue and a list of touched rooms.
 *
 * The model is the search the file sets out to perform. Five statements of the file stop short of it:
 *  - the number of the mark, 2 to the 32nd, is converted to a 32-bit integer when the class is first used (19), which
 *    is an exception; here the mark is a flag that a room can carry;
 *  - MARK (track.cs:24-27) tests the flag where it should set it, and UNMARK (29-32) computes the cleared
 *    flags without storing them; here they set and clear the mark;
 *  - the head of the queue is read once, before the loop (101); here it is read again after every dequeue,
 *    and an empty queue ends the loop;
 *  - clean_room_queue (68-71) forgets the touched rooms with their marks on; here it unmarks them first;
 *  - valid_edge (39-46) compares a numeric destination with null; here an exit whose destination is not a
 *    known room is not followed.
 * Module TrackingAsWritten keeps the statements as they are and says when the answer is still right.
 */
module Tracking {
  import opened Wrappers
  import opened RoomGraph
  import opened ExitOrder

  class RoomTemplate {
    const id: int
    const area: int
    const exits: seq<ExitData>
    var bfsMark: bool

    constructor (id: int, area: int, exits: seq<ExitData>)
      ensures this.id == id && this.area == area && this.exits == exits && !bfsMark
    {
      this.id, this.area, this.exits, this.bfsMark := id, area, exits, false;
    }
  }

  datatype BFSQueueData = BFSQueueData(room: RoomTemplate, dir: nat)

  function Entries(queue: seq<BFSQueueData>): (entries: seq<Entry>)
    ensures |entries| == |queue|
    ensures forall i :: 0 <= i < |queue| ==> entries[i] == Entry(queue[i].room.id, queue[i].dir)
  {
    seq(|queue|, i requires 0 <= i < |queue| => Entry(queue[i].room.id, queue[i].dir))
  }

  class Tracker {
    const rooms: map<int, RoomTemplate>
    var bfsData: seq<BFSQueueData>
    var roomQueue: seq<RoomTemplate>

    /** Rooms are filed under their own id, and every marked room is on the list of touched rooms. */
    ghost predicate Valid()
      reads this, rooms.Values
    {
      && (forall id :: id in rooms ==> rooms[id].id == id)
      && (forall q :: q in bfsData ==> q.room.id in rooms && rooms[q.room.id] == q.room)
      && (forall room :: room in roomQueue ==> room.id in rooms && rooms[room.id] == room)
      && (forall id :: id in rooms && rooms[id].bfsMark ==> rooms[id] in roomQueue)
    }

    /** Between searches: both queues are empty and no room is marked. */
    ghost predicate Idle()
      reads this, rooms.Values
    {
      bfsData == [] && roomQueue == [] && Marked() == {}
    }

    ghost function Graph(): (w: World)
      ensures w.Keys == rooms.Keys
    {
      map id | id in rooms :: rooms[id].exits
    }

    ghost function Marked(): set<int>
      reads rooms.Values
    {
      set id | id in rooms && rooms[id].bfsMark
    }

    constructor (rooms: map<int, RoomTemplate>)
      requires forall id :: id in rooms ==> rooms[id].id == id && !rooms[id].bfsMark
      ensures Valid() && Idle() && this.rooms == rooms
    {
      this.rooms, bfsData, roomQueue := rooms, [], [];
      new;
      assert forall id :: id in this.rooms ==> !this.rooms[id].bfsMark;
    }

    method ValidEdge(exit: ExitData) returns (valid: bool)
      requires Valid()
      ensures valid == (Open(Graph(), exit) && exit.destination !in Marked())
    {
      valid := exit.destination in rooms && !exit.closed && !rooms[exit.destination].bfsMark;
    }

    /** MARK and room_enqueue, which the search always calls together. */
    method Touch(room: RoomTemplate)
      requires Valid() && room.id in rooms && rooms[room.id] == room
      modifies this`roomQueue, room`bfsMark
      ensures Valid() && roomQueue == old(roomQueue) + [room] && Marked() == old(Marked()) + {room.id}
    {
      room.bfsMark := true;
      roomQueue := roomQueue + [room];
      assert forall id :: id in rooms ==> (rooms[id] == room <==> id == room.id);
      assert forall id :: id in rooms ==> (rooms[id].bfsMark <==> id == room.id || old(rooms[id].bfsMark));
    }

    /** A newly found room is touched and then queued by bfs_enqueue. */
    method Visit(room: RoomTemplate, dir: nat)
      requires Valid() && room.id in rooms && rooms[room.id] == room
      modifies this, room`bfsMark
      ensures Valid()
      ensures Entries(bfsData) == old(Entries(bfsData)) + [Entry(room.id, dir)]
      ensures Marked() == old(Marked()) + {room.id}
    {
      Touch(room);
      bfsData := bfsData + [BFSQueueData(room, dir)];
    }

    method CleanRoomQueue()
      requires Valid()
      modifies this`roomQueue, rooms.Values
      ensures Valid() && roomQueue == [] && Marked() == {}
    {
      assert roomQueue[..|roomQueue|] == roomQueue;
      for i := 0 to |roomQueue|
        invariant Valid() && roomQueue == old(roomQueue) && bfsData == old(bfsData)
        invariant forall room :: room in roomQueue[..i] ==> !room.bfsMark
      {
        assert roomQueue[i].id in rooms && roomQueue[i] in rooms.Values;
        roomQueue[i].bfsMark := false;
      }
      assert roomQueue[..|roomQueue|] == roomQueue;
      assert forall id :: id in rooms ==> !rooms[id].bfsMark;
      roomQueue := [];
    }

    method BfsClearQueue()
      modifies this`bfsData
      ensures bfsData == []
    {
      bfsData := [];
    }

    /** One exit of a room that is scanned. */
    method Follow(exit: ExitData, tag: Option<nat>)
      requires Valid()
      modifies this, rooms.Values
      ensures Valid()
      ensures if Open(Graph(), exit) && exit.destination !in old(Marked())
        then Entries(bfsData) ==
             old(Entries(bfsData)) + [Entry(exit.destination, if tag.Some? then tag.value else exit.direction)] &&
             Marked() == old(Marked()) + {exit.destination}
        else Entries(bfsData) == old(Entries(bfsData)) && Marked() == old(Marked())
    {
      var valid := ValidEdge(exit);
      if valid {
        Visit(rooms[exit.destination], if tag.Some? then tag.value else exit.direction);
      }
    }

    /** Scans a room's exits: marks, lists and queues every unmarked neighbour behind an open exit. */
    method Scan(room: RoomTemplate, tag: Option<nat>)
      requires Valid() && room.id in rooms && rooms[room.id] == room
      modifies this, rooms.Values
      ensures Valid()
      ensures var found := Discover(Graph(), room.exits, old(Marked()), tag);
        && Entries(bfsData) == old(Entries(bfsData)) + found
        && Marked() == old(Marked()) + Rooms(found)
    {
      ghost var w, seen, queue := Graph(), Marked(), Entries(bfsData);
      assert Discover(w, room.exits[..0], seen, tag) == [];
      hide Discover, Rooms, Open;
      for i := 0 to |room.exits|
        invariant Valid()
        invariant Entries(bfsData) == queue + Discover(w, room.exits[..i], seen, tag)
        invariant Marked() == seen + Rooms(Discover(w, room.exits[..i], seen, tag))
      {
        ghost var exit, found := room.exits[i], Discover(w, room.exits[..i], seen, tag);
        ghost var entry := Entry(exit.destination, if tag.Some? then tag.value else exit.direction);
        DiscoverOneMore(w, room.exits, i, seen, tag);
        RoomsOneMore(found, entry);
        assert queue + found + [entry] == queue + (found + [entry]);
        Follow(room.exits[i], tag);
      }
      assert room.exits[..|room.exits|] == room.exits;
    }

    /** The body of the loop for a head that is not the target: scan its exits, then dequeue it. */
    method ExamineHead()
      requires Valid() && bfsData != []
      modifies this, rooms.Values
      ensures Valid()
      ensures Entries(bfsData) == NextQueue(Graph(), old(Entries(bfsData)), old(Marked()))
      ensures Marked() == NextMarked(Graph(), old(Entries(bfsData)), old(Marked()))
    {
      hide Discover;
      var head := bfsData[0];
      assert Exits(Graph(), head.room.id) == head.room.exits;
      Scan(head.room, Some(head.dir));
      assert Entries(bfsData[1..]) == Entries(bfsData)[1..];
      bfsData := bfsData[1..];
    }

    /** The search itself, from the marking of the source on. */
    method LookFor(src: RoomTemplate, target: RoomTemplate, maxdist: int) returns (r: int)
      requires Valid() && Idle() && src != target
      requires src.id in rooms && rooms[src.id] == src && target.id in rooms && rooms[target.id] == target
      modifies this, rooms.Values
      ensures Valid() && Idle()
      ensures r == Search(Graph(), src.id, target.id, maxdist)
    {
      hide Discover, Explore, NextQueue, NextMarked;
      ghost var w := Graph();
      Touch(src);
      assert Entries(bfsData) == [] && Marked() == {src.id};
      Scan(src, None);
      assert Exits(w, src.id) == src.exits;
      assert Entries(bfsData) == Discover(w, Exits(w, src.id), {src.id}, None);
      var count := 0;
      ghost var answer := Search(w, src.id, target.id, maxdist);
      while bfsData != []
        invariant Valid()
        invariant 0 <= count && (maxdist >= 0 ==> count <= maxdist)
        invariant answer == Explore(w, Entries(bfsData), Marked(), target.id, Remaining(maxdist, count))
        decreases Remaining(maxdist, count)
      {
        ExploreUnfolds(w, Entries(bfsData), Marked(), target.id, Remaining(maxdist, count));
        count := count + 1;
        if count > maxdist {
          BfsClearQueue();
          CleanRoomQueue();
          return BFS_NO_PATH;
        }
        var head := bfsData[0];
        if head.room == target {
          BfsClearQueue();
          CleanRoomQueue();
          return head.dir;
        }
        ExamineHead();
      }
      ExploreUnfolds(w, [], Marked(), target.id, Remaining(maxdist, count));
      CleanRoomQueue();
      return BFS_NO_PATH;
    }

    method FindFirstStep(src: RoomTemplate?, target: RoomTemplate?, maxdist: int) returns (r: int)
      requires Valid() && Idle()
      requires src != null ==> src.id in rooms && rooms[src.id] == src
      requires target != null ==> target.id in rooms && rooms[target.id] == target
      modifies this, rooms.Values
      ensures Valid() && Idle()
      ensures src == null || target == null ==> r == BFS_ERROR
      ensures src != null && src == target ==> r == BFS_ALREADY_THERE
      ensures src != null && target != null && src.area != target.area ==> r == BFS_NO_PATH
      // the answer depends on nothing but the graph, so a second search repeats it
      ensures src != null && target != null && src != target && src.area == target.area ==>
        && r == Search(Graph(), src.id, target.id, maxdist)
        && (r >= 0 ==> StartsShortestWalk(Graph(), src.id, r, target.id))
        && (r >= 0 ==> FirstShortest(Graph(), src.id, r, target.id))
        && (r < 0 ==> r == BFS_NO_PATH)
        && (maxdist >= |rooms| ==> (r == BFS_NO_PATH <==> !Reachable(Graph(), src.id, target.id)))
    {
      hide Search, StartsShortestWalk, FirstShortest, Reachable;
      if src == null || target == null {
        return BFS_ERROR;
      }
      if src == target {
        return BFS_ALREADY_THERE;
      }
      if src.area != target.area {
        return BFS_NO_PATH;
      }
      r := LookFor(src, target, maxdist);
      SearchCorrect(Graph(), src.id, target.id, maxdist);
      assert |Graph().Keys| == |rooms.Keys|;
      if r >= 0 {
        SearchPicksFirst(Graph(), src.id, target.id, maxdist);
      }
    }
  }

  /** How many more queue heads the search may look at. */
  ghost function Remaining(maxdist: int, count: int): nat {
    if maxdist <= count then 0 else maxdist - count
  }
}
