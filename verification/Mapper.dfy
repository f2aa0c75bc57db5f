/**
 * The mapper command of ackmapper.c: the whole map around the viewer, the recursion on its 100 by 100 array,
 * and the map sizes for which that array is large enough.
 */
module Mapper {
  import opened Basics
  import opened Wrappers
  import opened LineOfSight
  import opened SightDrawn

  const MAX_MAP := 100

  const CENTER := Cell(MAX_MAP / 2, MAX_MAP / 2)

  const BLANK := Picture(map[], [])

  const COMPASS := {North, East, South, West}

  /** The window that do_mapper passes on for a map of the given size. */
  function WindowOf(rooms: World, npc: bool, size: int): View {
    View(rooms, npc, MAX_MAP / 2 - size / 2 - 1, MAX_MAP / 2 + size / 2)
  }

  // ----- what the whole map shows

  /** `r` is reached from `start` by `n` passable shown exits, all in direction `d` and all leading back. */
  ghost predicate Run(v: View, start: int, d: Dir, n: nat, r: int)
    decreases n
  {
    if n == 0 then r == start
    else exists p, e :: Run(v, start, d, n - 1, p) && RunsOn(v, p, d, e, r)
  }

  ghost predicate RunsOn(v: View, p: int, d: Dir, e: Exit, r: int) {
    p in v.rooms && e in v.rooms[p].exits && e.vdir == d && Shown(v, e) && Passable(e) && HasReturn(v, e, p) &&
    e.toRoom == r
  }

  ghost predicate IsRoomMark(mark: int) {
    mark >= 0 && mark != SECT_UNSEEN
  }

  /** The room that stands at cell `q` of the finished map, by the definition of a line of sight alone. */
  function RoomOnMap(v: View, start: int, d: Dir, n: nat): (r: Option<int>)
    requires start in v.rooms && Compass(d)
    ensures r.Some? ==> r.value in v.rooms
  {
    RoomAt(v, start, CENTER, d, Move(CENTER, d, 2 * n))
  }

  function Finished(v: View, start: int): Picture
    requires ViewOk(v) && start in v.rooms
  {
    MapArea(v, BLANK, start, CENTER, None)
  }

  lemma FinishedDrawn(v: View, start: int)
    requires ViewOk(v) && start in v.rooms && Inside(v, CENTER)
    ensures ExitsDrawn(v, Enter(BLANK, CENTER, v.rooms[start].sector), Finished(v, start), start, CENTER, COMPASS, 0)
  {
    var g := Enter(BLANK, CENTER, v.rooms[start].sector);
    assert Ready(v, g, CENTER, None, COMPASS) by {
      forall s, q | s in COMPASS && Ahead(q, Move(CENTER, s, 2), s)
        ensures At(g, q) == SECT_UNSEEN
      {
        MoveFacts(CENTER, s);
      }
    }
    hide Ready, ExitsDrawn;
    ExitsCorrect(v, g, start, CENTER, None, COMPASS, 0);
  }

  /** Every cell on the four lines through the centre carries exactly the mark of the room seen there. */
  lemma RoomsOnMap(v: View, start: int, d: Dir, n: nat)
    requires ViewOk(v) && start in v.rooms && Inside(v, CENTER) && Compass(d)
    ensures var q, r := Move(CENTER, d, 2 * n), RoomOnMap(v, start, d, n);
      At(Finished(v, start), q) == if r == None then SECT_UNSEEN else RoomMark(v, r.value, Inside(v, q))
  {
    hide NextRoom, OneWay, ExitElsewhere, ExitDoors, DoorsBeyond, Tracks, MapArea;
    FinishedDrawn(v, start);
    var q := Move(CENTER, d, 2 * n);
    MoveFacts(CENTER, d);
    OnAxis(d, n);
    if n > 0 {
      assert Ahead(q, Move(CENTER, d, 2), d) && q != CENTER;
      assert At(Finished(v, start), q) == BeyondMark(v, start, CENTER, d, 0, q);
      RoomAtFarther(v, start, CENTER, d, q);
    }
  }

  lemma OnAxis(d: Dir, n: nat)
    requires Compass(d)
    ensures Ahead(Move(CENTER, d, 2 * n), CENTER, d)
    ensures Move(CENTER, d, 2 * n) == CENTER <==> n == 0
  {
  }

  /** How many rooms away `q` lies from the centre. */
  function RoomsAway(d: Dir, q: Cell): (n: nat)
    requires Ahead(q, CENTER, d)
    ensures q == Move(CENTER, d, 2 * n)
  {
    if d.North? then (CENTER.x - q.x) / 2
    else if d.East? then (q.y - CENTER.y) / 2
    else if d.South? then (q.x - CENTER.x) / 2
    else (CENTER.y - q.y) / 2
  }

  /** A room mark lies on the row or the column through the centre, both of its offsets being even. */
  lemma RoomsOnAxes(v: View, start: int, q: Cell) returns (d: Dir, n: nat)
    requires ViewOk(v) && start in v.rooms && Inside(v, CENTER) && IsRoomMark(At(Finished(v, start), q))
    ensures Compass(d) && q == Move(CENTER, d, 2 * n)
  {
    hide Accounted, ExitRooms, ExitDoors, DoorsBeyond, Tracks, MapArea;
    FinishedDrawn(v, start);
    if q == CENTER {
      d, n := North, 0;
    } else {
      if !RoomCell(CENTER, COMPASS, q) {
        AccountedOdd(v, start, CENTER, COMPASS, 0, q, At(Finished(v, start), q));
      }
      d :| d in COMPASS && Ahead(q, Move(CENTER, d, 2), d);
      MoveFacts(CENTER, d);
      n := RoomsAway(d, q);
    }
  }

  /** The room seen `n` rooms away is joined to the centre by an unbroken run of `n` passable exits. */
  lemma SeenAlongRun(v: View, start: int, d: Dir, n: nat)
    requires start in v.rooms && Compass(d) && RoomOnMap(v, start, d, n).Some?
    ensures Run(v, start, d, n, RoomOnMap(v, start, d, n).value)
  {
    RunSound(v, start, start, d, 0, n);
  }

  lemma {:induction false} RunSound(v: View, start: int, vnum: int, d: Dir, k: nat, n: nat)
    requires start in v.rooms && vnum in v.rooms && Compass(d) && k <= n && Run(v, start, d, k, vnum)
    requires RoomAt(v, vnum, Move(CENTER, d, 2 * k), d, Move(CENTER, d, 2 * n)).Some?
    ensures Run(v, start, d, n, RoomAt(v, vnum, Move(CENTER, d, 2 * k), d, Move(CENTER, d, 2 * n)).value)
    decreases n - k
  {
    hide NextRoom;
    var c := Move(CENTER, d, 2 * k);
    if k < n {
      var next := NextRoom(v, vnum, d, 0).value;
      NextRoomSound(v, vnum, d, 0);
      var e :| RunsOn(v, vnum, d, e, next);
      assert Run(v, start, d, k + 1, next);
      assert Move(c, d, 2) == Move(CENTER, d, 2 * (k + 1));
      RunSound(v, start, next, d, k + 1, n);
    }
  }

  lemma {:induction false} NextRoomSound(v: View, vnum: int, d: Dir, i: nat)
    requires vnum in v.rooms && Compass(d) && i <= |v.rooms[vnum].exits| && NextRoom(v, vnum, d, i).Some?
    ensures exists e :: RunsOn(v, vnum, d, e, NextRoom(v, vnum, d, i).value)
    decreases |v.rooms[vnum].exits| - i
  {
    var e := v.rooms[vnum].exits[i];
    if Compass(e.vdir) && e.vdir == d && Shown(v, e) && Passable(e) {
      assert RunsOn(v, vnum, d, e, e.toRoom);
    } else {
      NextRoomSound(v, vnum, d, i + 1);
    }
  }

  /** Every compass exit of the room leads back, and no two of its exits point in direction `d`. */
  ghost predicate Tidy(v: View, r: int, d: Dir)
    requires r in v.rooms
  {
    && (forall e :: e in v.rooms[r].exits && Compass(e.vdir) ==> HasReturn(v, e, r))
    && (forall i, j :: 0 <= i < j < |v.rooms[r].exits| ==>
         v.rooms[r].exits[i].vdir != d || v.rooms[r].exits[j].vdir != d)
  }

  /** A run through tidy rooms; the last room may be as it likes. */
  ghost predicate TidyRun(v: View, start: int, d: Dir, n: nat, r: int)
    decreases n
  {
    if n == 0 then r == start
    else exists p, e :: TidyRun(v, start, d, n - 1, p) && RunsOn(v, p, d, e, r) && Tidy(v, p, d)
  }

  lemma {:induction false} NextRoomComplete(v: View, vnum: int, d: Dir, e: Exit, r: int, i: nat, j: nat)
    requires Compass(d) && RunsOn(v, vnum, d, e, r) && Tidy(v, vnum, d)
    requires i <= j < |v.rooms[vnum].exits| && v.rooms[vnum].exits[j] == e
    ensures NextRoom(v, vnum, d, i) == Some(r)
    decreases j - i
  {
    var exits := v.rooms[vnum].exits;
    assert exits[i] in exits;
    if i < j {
      NextRoomComplete(v, vnum, d, e, r, i + 1, j);
    }
  }

  /** Conversely, a run through tidy rooms inside the window is seen to its end. */
  lemma {:induction false} RunIsSeen(v: View, start: int, d: Dir, n: nat, r: int)
    requires start in v.rooms && Compass(d) && TidyRun(v, start, d, n, r)
    requires forall k :: 0 <= k < n ==> Inside(v, Move(CENTER, d, 2 * k))
    ensures RoomOnMap(v, start, d, n) == Some(r)
  {
    hide NextRoom, HasReturn, Tidy;
    if n > 0 {
      var p, e :| TidyRun(v, start, d, n - 1, p) && RunsOn(v, p, d, e, r) && Tidy(v, p, d);
      RunIsSeen(v, start, d, n - 1, p);
      var j :| 0 <= j < |v.rooms[p].exits| && v.rooms[p].exits[j] == e;
      NextRoomComplete(v, p, d, e, r, 0, j);
      SeenNext(v, start, d, 0, n - 1);
    }
  }

  /** A sight line inside the window goes on from its n-th room to that room's next room. */
  lemma {:induction false} SeenNext(v: View, vnum: int, d: Dir, k: nat, n: nat)
    requires vnum in v.rooms && Compass(d) && k <= n
    requires Inside(v, Move(CENTER, d, 2 * n))
    requires forall j :: k <= j <= n ==> Inside(v, Move(CENTER, d, 2 * j))
    requires RoomAt(v, vnum, Move(CENTER, d, 2 * k), d, Move(CENTER, d, 2 * n)).Some?
    ensures RoomAt(v, vnum, Move(CENTER, d, 2 * k), d, Move(CENTER, d, 2 * (n + 1))) ==
            NextRoom(v, RoomAt(v, vnum, Move(CENTER, d, 2 * k), d, Move(CENTER, d, 2 * n)).value, d, 0)
    decreases n - k
  {
    hide NextRoom;
    var c := Move(CENTER, d, 2 * k);
    assert Move(c, d, 2) == Move(CENTER, d, 2 * (k + 1));
    assert Inside(v, c);
    var next := NextRoom(v, vnum, d, 0);
    if k < n {
      SeenNext(v, next.value, d, k + 1, n);
    } else if next.Some? {
      assert RoomAt(v, next.value, Move(c, d, 2), d, Move(c, d, 2)) == next;
    }
  }

  // ----- doors

  /** A room on the map, inside the window, has `mark` as the last door on the side where `q` lies. */
  ghost predicate DoorFacing(v: View, start: int, q: Cell, d: Dir, n: nat, s: Dir, mark: int)
    requires start in v.rooms
  {
    Compass(d) && Compass(s) && q == Move(Move(CENTER, d, 2 * n), s, 1) && Inside(v, Move(CENTER, d, 2 * n)) &&
    RoomOnMap(v, start, d, n).Some? && LastDoor(v, RoomOnMap(v, start, d, n).value, s, 0) == Some(mark)
  }

  /** Anything else on the map is a door: exactly one offset is odd, and a room next to it faces it with that mark. */
  lemma DoorsOnMap(v: View, start: int, q: Cell)
    requires ViewOk(v) && start in v.rooms && Inside(v, CENTER) && !IsRoomMark(At(Finished(v, start), q))
    ensures var mark := At(Finished(v, start), q);
      mark == SECT_UNSEEN || (mark < 0 && Odd(q, CENTER) && exists d, n, s :: DoorFacing(v, start, q, d, n, s, mark))
  {
    hide ExitDoors, DoorsBeyond, Tracks, MapArea, Faced, LastDoor, NextRoom, OneWay, RoomAt;
    var mark := At(Finished(v, start), q);
    FinishedDrawn(v, start);
    if mark != SECT_UNSEEN {
      assert !RoomCell(CENTER, COMPASS, q) by {
        if RoomCell(CENTER, COMPASS, q) {
          RoomCellsHoldRooms(v, start, q);
        }
      }
      AccountedOdd(v, start, CENTER, COMPASS, 0, q, mark);
      if s :| Compass(s) && OwnDoor(v, start, CENTER, s, 0, q, mark) {
        OwnFacing(v, start, q, s, mark);
      } else {
        var s :| s in COMPASS && Beyond(v, start, CENTER, s, 0, q, mark);
        FacedFarther(v, start, CENTER, s, q, mark);
        FacingFromFaced(v, start, s, q, mark);
      }
    }
  }

  lemma RoomCellsHoldRooms(v: View, start: int, q: Cell)
    requires ViewOk(v) && start in v.rooms && Inside(v, CENTER) && RoomCell(CENTER, COMPASS, q)
    ensures At(Finished(v, start), q) >= 0
  {
    hide ExitElsewhere, ExitDoors, DoorsBeyond, Tracks, MapArea;
    FinishedDrawn(v, start);
    if q != CENTER {
      var s :| s in COMPASS && Ahead(q, Move(CENTER, s, 2), s);
      assert At(Finished(v, start), q) == BeyondMark(v, start, CENTER, s, 0, q);
    }
  }

  lemma OwnFacing(v: View, start: int, q: Cell, s: Dir, mark: int)
    requires start in v.rooms && Compass(s) && OwnDoor(v, start, CENTER, s, 0, q, mark) && Inside(v, CENTER)
    ensures exists d, n, t :: DoorFacing(v, start, q, d, n, t, mark)
  {
    assert Move(CENTER, North, 2 * 0) == CENTER;
    assert DoorFacing(v, start, q, North, 0, s, mark);
  }

  lemma FacingFromFaced(v: View, start: int, d: Dir, q: Cell, mark: int)
    requires start in v.rooms && Compass(d) && Faced(v, start, CENTER, d, q, mark)
    ensures exists t, n, s :: DoorFacing(v, start, q, t, n, s, mark)
  {
    hide LastDoor, RoomAt;
    var s :| Compass(s) && FacedFrom(v, start, CENTER, d, q, s, mark);
    var p := Move(q, s, -1);
    var n := RoomsAway(d, p);
    assert q == Move(p, s, 1);
    assert DoorFacing(v, start, q, d, n, s, mark);
  }

  /** Conversely, no shown door of a room on the map and inside the window is missing. */
  lemma EveryDoorShows(v: View, start: int, q: Cell, d: Dir, n: nat, s: Dir, mark: int)
    requires ViewOk(v) && start in v.rooms && Inside(v, CENTER) && DoorFacing(v, start, q, d, n, s, mark)
    ensures At(Finished(v, start), q) < 0
  {
    hide ExitRooms, ExitElsewhere, Accounted, Tracks, MapArea, LastDoor, NextRoom, OneWay;
    FinishedDrawn(v, start);
    var p := Move(CENTER, d, 2 * n);
    OnAxis(d, n);
    if n > 0 {
      RoomAtFarther(v, start, CENTER, d, p);
      MoveFacts(CENTER, d);
      assert HasDoor(v, NextRoom(v, start, d, 0).value, Move(CENTER, d, 2), d, p, s);
    }
    AccountedOdd(v, start, CENTER, COMPASS, 0, q, At(Finished(v, start), q));
  }

  // ----- no cell is entered twice

  /** A line of sight enters its cells in a straight row, and just those where it shows a room. */
  lemma {:induction false} TrackCells(v: View, vnum: int, c: Cell, d: Dir)
    requires vnum in v.rooms && Compass(d)
    ensures var track := Track(v, vnum, c, d);
      && (forall i :: 0 <= i < |track| ==> track[i] == Move(c, d, 2 * i))
      && (forall q :: q in track <==> RoomAt(v, vnum, c, d, q).Some?)
    decreases Distance(v, c, Some(d))
  {
    hide NextRoom;
    var next := NextRoom(v, vnum, d, 0);
    if Inside(v, c) && next.Some? {
      TrackCells(v, next.value, Move(c, d, 2), d);
      assert forall q :: q in Track(v, vnum, c, d) <==> q == c || q in Track(v, next.value, Move(c, d, 2), d);
    }
  }

  lemma TrackDistinct(v: View, vnum: int, c: Cell, d: Dir)
    requires vnum in v.rooms && Compass(d)
    ensures Distinct(Track(v, vnum, c, d))
    ensures forall q :: q in Track(v, vnum, c, d) ==> Ahead(q, c, d)
  {
    TrackCells(v, vnum, c, d);
    forall q | q in Track(v, vnum, c, d)
      ensures Ahead(q, c, d)
    {
      RoomAtAhead(v, vnum, c, d, q);
    }
  }

  /** Room `vnum` sees a room at `q` through one of its exits from i on, in a direction still to be entered. */
  ghost predicate SeenBeyond(v: View, vnum: int, c: Cell, todo: set<Dir>, i: nat, q: Cell)
    requires vnum in v.rooms && i <= |v.rooms[vnum].exits|
  {
    exists s :: s in todo && SeenThrough(v, vnum, c, s, i, q)
  }

  ghost predicate SeenThrough(v: View, vnum: int, c: Cell, s: Dir, i: nat, q: Cell)
    requires vnum in v.rooms && i <= |v.rooms[vnum].exits|
  {
    Compass(s) && NextRoom(v, vnum, s, i).Some? &&
    RoomAt(v, NextRoom(v, vnum, s, i).value, Move(c, s, 2), s, q).Some?
  }

  /** The exits from i on enter each cell at most once, and just those where they show a room. */
  ghost predicate TracksAre(v: View, vnum: int, c: Cell, todo: set<Dir>, i: nat)
    requires vnum in v.rooms && i <= |v.rooms[vnum].exits|
  {
    Distinct(Tracks(v, vnum, c, todo, i)) &&
    forall q :: q in Tracks(v, vnum, c, todo, i) <==> SeenBeyond(v, vnum, c, todo, i, q)
  }

  lemma {:induction false} TracksCells(v: View, vnum: int, c: Cell, todo: set<Dir>, i: nat)
    requires vnum in v.rooms && i <= |v.rooms[vnum].exits| && forall s :: s in todo ==> Compass(s)
    ensures TracksAre(v, vnum, c, todo, i)
    decreases |v.rooms[vnum].exits| - i
  {
    hide RoomAt, Track;
    if i < |v.rooms[vnum].exits| {
      var e := v.rooms[vnum].exits[i];
      if !Compass(e.vdir) {
        TracksCells(v, vnum, c, todo, i + 1);
        assert forall s, q :: SeenThrough(v, vnum, c, s, i, q) <==> SeenThrough(v, vnum, c, s, i + 1, q);
      } else if HasReturn(v, e, vnum) {
        TracksCells(v, vnum, c, StillTodo(v, e, todo), i + 1);
        SeenNow(v, vnum, c, todo, i);
        if Enters(v, e, todo) {
          TracksJoin(v, vnum, c, todo, i);
        }
      }
    }
  }

  lemma SeenNow(v: View, vnum: int, c: Cell, todo: set<Dir>, i: nat)
    requires Usable(v, vnum, i) && forall s :: s in todo ==> Compass(s)
    ensures var e := v.rooms[vnum].exits[i];
      forall q :: SeenBeyond(v, vnum, c, todo, i, q) <==>
                  (SeenBeyond(v, vnum, c, StillTodo(v, e, todo), i + 1, q) ||
                   (Enters(v, e, todo) && RoomAt(v, e.toRoom, Move(c, e.vdir, 2), e.vdir, q).Some?))
  {
    hide RoomAt, NextRoom;
    var e := v.rooms[vnum].exits[i];
    NextUnchanged(v, vnum, todo, i, e.vdir);
    forall s | s in StillTodo(v, e, todo)
      ensures NextRoom(v, vnum, s, i) == NextRoom(v, vnum, s, i + 1)
    {
      NextUnchanged(v, vnum, todo, i, s);
    }
    forall q
      ensures SeenBeyond(v, vnum, c, todo, i, q) <==>
              (SeenBeyond(v, vnum, c, StillTodo(v, e, todo), i + 1, q) ||
               (Enters(v, e, todo) && RoomAt(v, e.toRoom, Move(c, e.vdir, 2), e.vdir, q).Some?))
    {
      if s :| s in StillTodo(v, e, todo) && SeenThrough(v, vnum, c, s, i + 1, q) {
        assert s in todo && SeenThrough(v, vnum, c, s, i, q);
      }
      if Enters(v, e, todo) && RoomAt(v, e.toRoom, Move(c, e.vdir, 2), e.vdir, q).Some? {
        assert e.vdir in todo && SeenThrough(v, vnum, c, e.vdir, i, q);
      }
      if s :| s in todo && SeenThrough(v, vnum, c, s, i, q) {
        assert s in StillTodo(v, e, todo) ==> SeenThrough(v, vnum, c, s, i + 1, q);
      }
    }
  }

  /** The line of sight entered through the i-th exit shares no cell with the later ones. */
  lemma TracksJoin(v: View, vnum: int, c: Cell, todo: set<Dir>, i: nat)
    requires Usable(v, vnum, i) && Enters(v, v.rooms[vnum].exits[i], todo) && forall s :: s in todo ==> Compass(s)
    requires TracksAre(v, vnum, c, todo - {v.rooms[vnum].exits[i].vdir}, i + 1)
    ensures var e := v.rooms[vnum].exits[i];
      && Distinct(Tracks(v, vnum, c, todo, i))
      && forall q :: q in Tracks(v, vnum, c, todo, i) <==>
                     (SeenBeyond(v, vnum, c, todo - {e.vdir}, i + 1, q) ||
                      RoomAt(v, e.toRoom, Move(c, e.vdir, 2), e.vdir, q).Some?)
  {
    hide RoomAt, Track, NextRoom;
    var e := v.rooms[vnum].exits[i];
    var next, rest := Move(c, e.vdir, 2), todo - {e.vdir};
    var first, later := Track(v, e.toRoom, next, e.vdir), Tracks(v, vnum, c, rest, i + 1);
    TrackDistinct(v, e.toRoom, next, e.vdir);
    TrackCells(v, e.toRoom, next, e.vdir);
    assert Tracks(v, vnum, c, todo, i) == first + later;
    forall q | q in first && q in later
      ensures false
    {
      var s :| s in rest && SeenThrough(v, vnum, c, s, i + 1, q);
      RoomAtAhead(v, NextRoom(v, vnum, s, i + 1).value, Move(c, s, 2), s, q);
      assert Ahead(q, next, e.vdir);
      MoveFacts(c, s);
    }
    assert forall q :: q in first + later <==> q in first || q in later;
    forall a, b | 0 <= a < b < |first + later|
      ensures (first + later)[a] != (first + later)[b]
    {
      if a < |first| <= b {
        assert first[a] in first && later[b - |first|] in later;
      }
    }
  }

  /** The fill enters each cell at most once, and the cells it enters are those that carry a room mark. */
  lemma EnteredOnce(v: View, start: int)
    requires ViewOk(v) && start in v.rooms && Inside(v, CENTER)
    ensures Distinct(Finished(v, start).entered)
    ensures forall q :: q in Finished(v, start).entered <==> IsRoomMark(At(Finished(v, start), q))
  {
    hide ExitElsewhere, ExitDoors, DoorsBeyond, MapArea, RoomAt, NextRoom, OneWay, Tracks;
    var g := Finished(v, start);
    FinishedDrawn(v, start);
    TracksCells(v, start, CENTER, COMPASS, 0);
    assert g.entered == [CENTER] + Tracks(v, start, CENTER, COMPASS, 0);
    forall q
      ensures q in g.entered <==> q == CENTER || SeenBeyond(v, start, CENTER, COMPASS, 0, q)
      ensures SeenBeyond(v, start, CENTER, COMPASS, 0, q) ==> q != CENTER && IsRoomMark(At(g, q))
      ensures IsRoomMark(At(g, q)) && q != CENTER ==> SeenBeyond(v, start, CENTER, COMPASS, 0, q)
    {
      if s :| s in COMPASS && SeenThrough(v, start, CENTER, s, 0, q) {
        RoomAtAhead(v, NextRoom(v, start, s, 0).value, Move(CENTER, s, 2), s, q);
        MoveFacts(CENTER, s);
        assert At(g, q) == BeyondMark(v, start, CENTER, s, 0, q);
      }
      if IsRoomMark(At(g, q)) && q != CENTER {
        var d, n := RoomsOnAxes(v, start, q);
        OnAxis(d, n);
        MoveFacts(CENTER, d);
        assert At(g, q) == BeyondMark(v, start, CENTER, d, 0, q);
        assert d in COMPASS && SeenThrough(v, start, CENTER, d, 0, q);
      }
    }
  }

  // ----- the array

  predicate InArray(c: Cell) {
    0 <= c.x < MAX_MAP && 0 <= c.y < MAX_MAP
  }

  ghost predicate InsideArray(g: Picture) {
    forall c :: c in g.marks ==> InArray(c)
  }

  /** The global `map` array, with the picture it holds. */
  class MapArray {
    const cells: array2<int>
    ghost var picture: Picture

    ghost predicate Valid()
      reads this, cells
    {
      && cells.Length0 == MAX_MAP && cells.Length1 == MAX_MAP
      && InsideArray(picture)
      && forall x, y :: 0 <= x < MAX_MAP && 0 <= y < MAX_MAP ==> cells[x, y] == At(picture, Cell(x, y))
    }

    constructor ()
      ensures Valid() && fresh(cells) && picture == BLANK
    {
      cells := new int[MAX_MAP, MAX_MAP]((x, y) => SECT_UNSEEN);
      picture := BLANK;
    }

    method Put(x: int, y: int, mark: int)
      requires Valid() && InArray(Cell(x, y))
      modifies this`picture, cells
      ensures Valid() && picture == Draw(old(picture), Cell(x, y), mark)
    {
      cells[x, y] := mark;
      picture := Draw(picture, Cell(x, y), mark);
    }

    /** The recursion; every index it forms lies inside the array when the window keeps two cells clear of its edge. */
    method MapArea(v: View, vnum: int, x: int, y: int, los: Option<Dir>)
      requires Valid() && ViewOk(v) && vnum in v.rooms && (los.Some? ==> Compass(los.value))
      requires 2 <= v.lo && v.hi <= MAX_MAP - 3
      requires v.lo - 2 <= x <= v.hi + 2 && v.lo - 2 <= y <= v.hi + 2
      modifies this`picture, cells
      ensures Valid() && picture == LineOfSight.MapArea(v, old(picture), vnum, Cell(x, y), los)
      decreases if los == None then 1 else 0, Distance(v, Cell(x, y), los), 1, 0
    {
      hide ViewOk, Shown, DoorType, Passable, HasReturn, LineOfSight.MapDoor;
      ghost var c := Cell(x, y);
      if cells[x, y] < 0 {
        return;
      }
      var room := v.rooms[vnum];
      Put(x, y, room.sector);
      picture := picture.(entered := picture.entered + [c]);
      ghost var finished := MapExits(v, picture, vnum, c, los, 0);
      for i := 0 to |room.exits|
        invariant Valid() && finished == MapExits(v, picture, vnum, c, los, i)
      {
        var door := room.exits[i];
        if !Compass(door.vdir) {
          continue;
        }
        if x < v.lo || y < v.lo || x > v.hi || y > v.hi {
          return;
        }
        if !HasReturn(v, door, vnum) {
          Put(x, y, SECT_BLOCKED);
          return;
        }
        MapDoor(v, vnum, x, y, los, door);
      }
    }

    /** One exit of a room inside the window: its door mark, and the room behind it when the sight goes through. */
    method MapDoor(v: View, vnum: int, x: int, y: int, los: Option<Dir>, door: Exit)
      requires Valid() && ViewOk(v) && (los.Some? ==> Compass(los.value)) && 2 <= v.lo && v.hi <= MAX_MAP - 3
      requires Compass(door.vdir) && Inside(v, Cell(x, y)) && HasReturn(v, door, vnum)
      modifies this`picture, cells
      ensures Valid() && picture == LineOfSight.MapDoor(v, old(picture), vnum, Cell(x, y), los, door)
      decreases if los == None then 1 else 0, Distance(v, Cell(x, y), los), 0, 0
    {
      hide ViewOk, Shown, DoorType, Passable, MapExits;
      if Shown(v, door) {
        var mark, next := Move(Cell(x, y), door.vdir, 1), Move(Cell(x, y), door.vdir, 2);
        Put(mark.x, mark.y, DoorType(door));
        if Passable(door) && Along(los, door.vdir) && cells[next.x, next.y] == SECT_UNSEEN {
          MapArea(v, door.toRoom, next.x, next.y, Some(door.vdir));
        }
      }
    }

    /** do_mapper from the chosen size on: the window, the blank array, and the fill from the middle. */
    method DrawMap(rooms: World, npc: bool, start: int, size: int)
      requires Valid() && ViewOk(WindowOf(rooms, npc, size)) && start in rooms && 3 <= size <= 95
      modifies this`picture, cells
      ensures Valid() && picture == Finished(WindowOf(rooms, npc, size), start)
    {
      for x := 0 to MAX_MAP
        invariant forall a, b :: 0 <= a < x && 0 <= b < MAX_MAP ==> cells[a, b] == SECT_UNSEEN
      {
        for y := 0 to MAX_MAP
          invariant forall a, b :: 0 <= a < x && 0 <= b < MAX_MAP ==> cells[a, b] == SECT_UNSEEN
          invariant forall b :: 0 <= b < y ==> cells[x, b] == SECT_UNSEEN
        {
          cells[x, y] := SECT_UNSEEN;
        }
      }
      picture := BLANK;
      MapArea(WindowOf(rooms, npc, size), start, CENTER.x, CENTER.y, None);
    }
  }

  // ----- which sizes fit

  lemma {:induction false} AreaInside(v: View, g: Picture, vnum: int, c: Cell, los: Option<Dir>)
    requires ViewOk(v) && vnum in v.rooms && (los.Some? ==> Compass(los.value))
    requires 2 <= v.lo && v.hi <= MAX_MAP - 3 && InsideArray(g)
    requires v.lo - 2 <= c.x <= v.hi + 2 && v.lo - 2 <= c.y <= v.hi + 2
    ensures InsideArray(LineOfSight.MapArea(v, g, vnum, c, los))
    decreases if los == None then 1 else 0, Distance(v, c, los), 1, 0
  {
    if At(g, c) >= 0 {
      ExitsInside(v, Enter(g, c, v.rooms[vnum].sector), vnum, c, los, 0);
    }
  }

  lemma {:induction false} ExitsInside(v: View, g: Picture, vnum: int, c: Cell, los: Option<Dir>, i: nat)
    requires ViewOk(v) && vnum in v.rooms && (los.Some? ==> Compass(los.value)) && i <= |v.rooms[vnum].exits|
    requires 2 <= v.lo && v.hi <= MAX_MAP - 3 && InsideArray(g) && InArray(c)
    ensures InsideArray(MapExits(v, g, vnum, c, los, i))
    decreases if los == None then 1 else 0, Distance(v, c, los), 0, |v.rooms[vnum].exits| - i
  {
    if i < |v.rooms[vnum].exits| {
      var door := v.rooms[vnum].exits[i];
      if !Compass(door.vdir) {
        ExitsInside(v, g, vnum, c, los, i + 1);
      } else if Inside(v, c) && HasReturn(v, door, vnum) {
        var marked, next := Draw(g, Move(c, door.vdir, 1), DoorType(door)), Move(c, door.vdir, 2);
        if Shown(v, door) && Passable(door) && Along(los, door.vdir) && At(marked, next) == SECT_UNSEEN {
          AreaInside(v, marked, door.toRoom, next, Some(door.vdir));
        }
        ExitsInside(v, MapDoor(v, g, vnum, c, los, door), vnum, c, los, i + 1);
      }
    }
  }

  /** One room whose north and south exits lead back into itself. */
  const LOOP: World := map[1 := Room(0, [
    Exit(South, 1, false, false, false, false, ""),
    Exit(North, 1, false, false, false, false, "")])]

  lemma {:induction false} LoopGoesOn(v: View, n: nat)
    requires v.rooms == LOOP && !v.npc && v.lo <= CENTER.x && CENTER.x + 2 * n <= v.hi + 2
    ensures RoomOnMap(v, 1, South, n) == Some(1)
  {
    if n > 0 {
      LoopGoesOn(v, n - 1);
      forall k | 0 <= k <= n - 1
        ensures Inside(v, Move(CENTER, South, 2 * k))
      {
      }
      SeenNext(v, 1, South, 0, n - 1);
      LoopNext(v);
    }
  }

  lemma LoopNext(v: View)
    requires v.rooms == LOOP && !v.npc
    ensures 1 in v.rooms && NextRoom(v, 1, South, 0) == Some(1)
  {
    var exits := v.rooms[1].exits;
    assert exits[1] in exits && HasReturn(v, exits[0], 1);
  }

  /** The array is large enough for every world exactly when the size is at most 95, not 100 as the command allows. */
  lemma SizesThatFit(size: int)
    requires 3 <= size <= MAX_MAP
    ensures (forall rooms: World, npc: bool, start: int ::
              ViewOk(WindowOf(rooms, npc, size)) && start in rooms ==>
              InsideArray(Finished(WindowOf(rooms, npc, size), start)))
            <==> size <= 95
  {
    if size <= 95 {
      forall rooms: World, npc: bool, start: int | ViewOk(WindowOf(rooms, npc, size)) && start in rooms
        ensures InsideArray(Finished(WindowOf(rooms, npc, size), start))
      {
        AreaInside(WindowOf(rooms, npc, size), BLANK, start, CENTER, None);
      }
    } else {
      var v := WindowOf(LOOP, false, size);
      LoopGoesOn(v, 25);
      RoomsOnMap(v, 1, South, 25);
      assert Cell(100, 50) in Finished(v, 1).marks && !InArray(Cell(100, 50));
    }
  }
}
