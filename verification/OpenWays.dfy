/**
 * What the finished map means in terms of the exits themselves: which exits let the viewer see on, which marks the
 * doors carry, and which rooms are blocked. Nothing here is said through the tests that the fill makes.
 */
module OpenWays {
  import opened Basics
  import opened Wrappers
  import opened LineOfSight
  import opened SightDrawn
  import opened Mapper

  /** The viewer is no NPC and the exit needs no keyword. */
  predicate Plain(v: View, e: Exit) {
    !v.npc && e.keyword == ""
  }

  /** Nothing stands in the way: there is no door, or it is neither locked nor closed. */
  predicate Clear(e: Exit) {
    !e.isDoor || (!e.locked && !e.closed)
  }

  predicate Opposite(d: Dir, s: Dir) {
    (d.North? && s.South?) || (d.South? && s.North?) || (d.East? && s.West?) || (d.West? && s.East?)
  }

  /** The room that the exit leads to is known and has an exit straight back. */
  ghost predicate LeadsBack(v: View, p: int, e: Exit) {
    e.toRoom in v.rooms && exists b :: b in v.rooms[e.toRoom].exits && b.toRoom == p && Opposite(e.vdir, b.vdir)
  }

  ghost predicate ClearStep(v: View, p: int, d: Dir, e: Exit, r: int) {
    p in v.rooms && e in v.rooms[p].exits && e.vdir == d && e.toRoom == r &&
    Plain(v, e) && Clear(e) && LeadsBack(v, p, e)
  }

  /** `r` is reached from `start` by `n` steps in direction `d`, nothing standing in the way of any. */
  ghost predicate ClearRun(v: View, start: int, d: Dir, n: nat, r: int)
    decreases n
  {
    if n == 0 then r == start
    else exists p, e :: ClearRun(v, start, d, n - 1, p) && ClearStep(v, p, d, e, r)
  }

  lemma ReturnIs(v: View, e: Exit, p: int)
    requires Compass(e.vdir)
    ensures HasReturn(v, e, p) <==> LeadsBack(v, p, e)
  {
    if LeadsBack(v, p, e) {
      var b :| b in v.rooms[e.toRoom].exits && b.toRoom == p && Opposite(e.vdir, b.vdir);
    }
    if HasReturn(v, e, p) {
      var b :| b in v.rooms[e.toRoom].exits && b.vdir == Back(e.vdir) && b.toRoom == p;
      assert Opposite(e.vdir, b.vdir);
    }
  }

  lemma StepIs(v: View, p: int, d: Dir, e: Exit, r: int)
    requires Compass(d)
    ensures RunsOn(v, p, d, e, r) <==> ClearStep(v, p, d, e, r)
  {
    hide HasReturn, LeadsBack;
    if e.vdir == d {
      ReturnIs(v, e, p);
    }
  }

  /** The runs of the fill are the clear runs. */
  lemma {:induction false} RunIs(v: View, start: int, d: Dir, n: nat, r: int)
    requires Compass(d)
    ensures Run(v, start, d, n, r) <==> ClearRun(v, start, d, n, r)
    decreases n
  {
    hide RunsOn, ClearStep;
    if n > 0 {
      forall p, e
        ensures Run(v, start, d, n - 1, p) <==> ClearRun(v, start, d, n - 1, p)
        ensures RunsOn(v, p, d, e, r) <==> ClearStep(v, p, d, e, r)
      {
        RunIs(v, start, d, n - 1, p);
        StepIs(v, p, d, e, r);
      }
    }
  }

  // ----- rooms

  /** Every room mark on the map belongs to a room that a clear run joins to the centre. */
  lemma SeenClearly(v: View, start: int, q: Cell) returns (d: Dir, n: nat, r: int)
    requires ViewOk(v) && start in v.rooms && Inside(v, CENTER) && IsRoomMark(At(Finished(v, start), q))
    ensures Compass(d) && q == Move(CENTER, d, 2 * n) && ClearRun(v, start, d, n, r) && r in v.rooms
    ensures At(Finished(v, start), q) == 19 || At(Finished(v, start), q) == v.rooms[r].sector
  {
    hide ViewOk, Run, ClearRun, MapArea, RoomAt, OneWay;
    d, n := RoomsOnAxes(v, start, q);
    RoomsOnMap(v, start, d, n);
    SeenAlongRun(v, start, d, n);
    r := RoomOnMap(v, start, d, n).value;
    RunIs(v, start, d, n, r);
  }

  /** A line of sight that does not go on from its n-th room shows no farther room. */
  lemma {:induction false} SightEnds(v: View, vnum: int, d: Dir, k: nat, n: nat, m: nat)
    requires vnum in v.rooms && Compass(d) && k <= n < m
    requires RoomAt(v, vnum, Move(CENTER, d, 2 * k), d, Move(CENTER, d, 2 * n)).Some?
    requires NextRoom(v, RoomAt(v, vnum, Move(CENTER, d, 2 * k), d, Move(CENTER, d, 2 * n)).value, d, 0) == None
    ensures RoomAt(v, vnum, Move(CENTER, d, 2 * k), d, Move(CENTER, d, 2 * m)) == None
    decreases n - k
  {
    hide NextRoom;
    var c := Move(CENTER, d, 2 * k);
    assert Move(c, d, 2) == Move(CENTER, d, 2 * (k + 1));
    if k < n {
      SightEnds(v, NextRoom(v, vnum, d, 0).value, d, k + 1, n, m);
    }
  }

  /** Every compass exit of the room leads back, and no two of its exits point in direction `d`. */
  ghost predicate Orderly(v: View, p: int, d: Dir)
    requires p in v.rooms
  {
    && (forall e :: e in v.rooms[p].exits && Compass(e.vdir) ==> LeadsBack(v, p, e))
    && (forall i, j :: 0 <= i < j < |v.rooms[p].exits| ==>
         v.rooms[p].exits[i].vdir != d || v.rooms[p].exits[j].vdir != d)
  }

  ghost predicate OrderlyRun(v: View, start: int, d: Dir, n: nat, r: int)
    decreases n
  {
    if n == 0 then r == start
    else exists p, e :: OrderlyRun(v, start, d, n - 1, p) && ClearStep(v, p, d, e, r) && Orderly(v, p, d)
  }

  lemma {:induction false} OrderlyIsTidy(v: View, start: int, d: Dir, n: nat, r: int)
    requires Compass(d) && OrderlyRun(v, start, d, n, r)
    ensures TidyRun(v, start, d, n, r)
    decreases n
  {
    hide HasReturn, LeadsBack, RunsOn;
    if n > 0 {
      var p, e :| OrderlyRun(v, start, d, n - 1, p) && ClearStep(v, p, d, e, r) && Orderly(v, p, d);
      OrderlyIsTidy(v, start, d, n - 1, p);
      StepIs(v, p, d, e, r);
      forall f | f in v.rooms[p].exits && Compass(f.vdir)
        ensures HasReturn(v, f, p)
      {
        ReturnIs(v, f, p);
      }
    }
  }

  /** A clear run through orderly rooms inside the window is seen to its end. */
  lemma ClearRunSeen(v: View, start: int, d: Dir, n: nat, r: int)
    requires start in v.rooms && Compass(d) && OrderlyRun(v, start, d, n, r)
    requires forall k :: 0 <= k < n ==> Inside(v, Move(CENTER, d, 2 * k))
    ensures RoomOnMap(v, start, d, n) == Some(r)
  {
    hide OrderlyRun, TidyRun, RoomAt;
    OrderlyIsTidy(v, start, d, n, r);
    RunIsSeen(v, start, d, n, r);
  }

  /** Where every exit of a drawn room in one direction is a closed or locked door, nothing is seen beyond it. */
  lemma NothingBehindDoors(v: View, start: int, d: Dir, n: nat, m: nat)
    requires ViewOk(v) && start in v.rooms && Inside(v, CENTER) && Compass(d) && n < m
    requires RoomOnMap(v, start, d, n).Some?
    requires var r := RoomOnMap(v, start, d, n).value;
      forall e :: e in v.rooms[r].exits && e.vdir == d ==> e.isDoor && (e.closed || e.locked)
    ensures At(Finished(v, start), Move(CENTER, d, 2 * m)) == SECT_UNSEEN
  {
    hide ViewOk, MapArea, RoomAt, NextRoom, LeadsBack, HasReturn;
    var r := RoomOnMap(v, start, d, n).value;
    if NextRoom(v, r, d, 0).Some? {
      NextRoomSound(v, r, d, 0);
      var e :| RunsOn(v, r, d, e, NextRoom(v, r, d, 0).value);
      StepIs(v, r, d, e, NextRoom(v, r, d, 0).value);
    }
    SightEnds(v, start, d, 0, n, m);
    RoomsOnMap(v, start, d, m);
  }

  /** Some compass exit of the room, from the i-th on, does not lead back. */
  ghost predicate Blocked(v: View, r: int, i: nat)
    requires r in v.rooms
  {
    exists j :: i <= j < |v.rooms[r].exits| && StrayExit(v, r, v.rooms[r].exits[j])
  }

  ghost predicate StrayExit(v: View, r: int, e: Exit) {
    Compass(e.vdir) && !LeadsBack(v, r, e)
  }

  lemma {:induction false} OneWayIs(v: View, r: int, i: nat)
    requires r in v.rooms && i <= |v.rooms[r].exits|
    ensures OneWay(v, r, i) <==> Blocked(v, r, i)
    decreases |v.rooms[r].exits| - i
  {
    hide HasReturn, LeadsBack;
    if i < |v.rooms[r].exits| {
      OneWayIs(v, r, i + 1);
      var e := v.rooms[r].exits[i];
      if Compass(e.vdir) {
        ReturnIs(v, e, r);
      }
      assert Blocked(v, r, i) <==> StrayExit(v, r, e) || Blocked(v, r, i + 1);
    }
  }

  /** What a cell on one of the four lines carries, in numbers. */
  lemma RoomNumbers(v: View, start: int, d: Dir, n: nat)
    requires ViewOk(v) && start in v.rooms && Inside(v, CENTER) && Compass(d)
    ensures var q, r := Move(CENTER, d, 2 * n), RoomOnMap(v, start, d, n);
      At(Finished(v, start), q) ==
        if r == None then 18
        else if Inside(v, q) && Blocked(v, r.value, 0) then 19
        else v.rooms[r.value].sector
  {
    hide ViewOk, MapArea, RoomAt, Blocked, OneWay;
    RoomsOnMap(v, start, d, n);
    if RoomOnMap(v, start, d, n).Some? {
      OneWayIs(v, RoomOnMap(v, start, d, n).value, 0);
    }
  }

  // ----- doors

  /** The exit shows as a door mark: a closed door unless it is hidden, a locked one only if it is closed as well. */
  predicate Visible(v: View, e: Exit) {
    Plain(v, e) && (Clear(e) || (e.closed && !e.hidden))
  }

  /** The mark of an exit, in numbers. */
  predicate Looks(e: Exit, mark: int) {
    mark ==
      if e.isDoor then (if e.locked then -1 else if e.closed then -2 else -3)
      else if e.vdir.North? || e.vdir.South? then -4 else -5
  }

  lemma VisibleIs(v: View, e: Exit)
    ensures Shown(v, e) <==> Visible(v, e)
    ensures Looks(e, DoorType(e))
  {
  }

  /** A door mark left on the side `s` of a room is that of one of its visible exits on that side. */
  lemma {:induction false} DoorIsExit(v: View, r: int, s: Dir, i: nat) returns (e: Exit)
    requires r in v.rooms && Compass(s) && i <= |v.rooms[r].exits| && LastDoor(v, r, s, i).Some?
    ensures e in v.rooms[r].exits && e.vdir == s && Visible(v, e) && Looks(e, LastDoor(v, r, s, i).value)
    decreases |v.rooms[r].exits| - i
  {
    hide Shown, DoorType, HasReturn, Visible, Looks;
    e := v.rooms[r].exits[i];
    if LastDoor(v, r, s, i + 1).Some? {
      e := DoorIsExit(v, r, s, i + 1);
    } else {
      VisibleIs(v, e);
    }
  }

  /** A visible exit leaves a door mark, unless an exit before or at it does not lead back. */
  lemma {:induction false} ExitIsDoor(v: View, r: int, i: nat, j: nat)
    requires r in v.rooms && i <= j < |v.rooms[r].exits|
    requires Compass(v.rooms[r].exits[j].vdir) && Visible(v, v.rooms[r].exits[j])
    requires forall k :: i <= k <= j && Compass(v.rooms[r].exits[k].vdir) ==> LeadsBack(v, r, v.rooms[r].exits[k])
    ensures LastDoor(v, r, v.rooms[r].exits[j].vdir, i).Some?
    decreases j - i
  {
    hide Shown, DoorType, HasReturn, Visible, LeadsBack;
    var e := v.rooms[r].exits[i];
    if Compass(e.vdir) {
      ReturnIs(v, e, r);
    }
    VisibleIs(v, v.rooms[r].exits[j]);
    if i < j {
      ExitIsDoor(v, r, i + 1, j);
    }
  }

  /** Any mark that is no room mark is that of a visible exit of a drawn room next to it. */
  lemma DoorClearly(v: View, start: int, q: Cell) returns (d: Dir, n: nat, r: int, e: Exit)
    requires ViewOk(v) && start in v.rooms && Inside(v, CENTER) && At(Finished(v, start), q) != SECT_UNSEEN
    requires !IsRoomMark(At(Finished(v, start), q))
    ensures Compass(d) && ClearRun(v, start, d, n, r) && r in v.rooms && e in v.rooms[r].exits && Compass(e.vdir)
    ensures q == Move(Move(CENTER, d, 2 * n), e.vdir, 1) && Visible(v, e) && Looks(e, At(Finished(v, start), q))
  {
    hide ViewOk, MapArea, RoomAt, LastDoor, Run, ClearRun, Visible, Looks;
    DoorsOnMap(v, start, q);
    var mark := At(Finished(v, start), q);
    var d', n', s :| DoorFacing(v, start, q, d', n', s, mark);
    d, n := d', n';
    r := RoomOnMap(v, start, d, n).value;
    SeenAlongRun(v, start, d, n);
    RunIs(v, start, d, n, r);
    e := DoorIsExit(v, r, s, 0);
  }

  /** Every visible exit of a drawn room inside the window, all of whose exits lead back, has a door on the map. */
  lemma DoorShows(v: View, start: int, d: Dir, n: nat, j: nat)
    requires ViewOk(v) && start in v.rooms && Inside(v, CENTER) && Compass(d) && Inside(v, Move(CENTER, d, 2 * n))
    requires RoomOnMap(v, start, d, n).Some? && j < |v.rooms[RoomOnMap(v, start, d, n).value].exits|
    requires var r := RoomOnMap(v, start, d, n).value;
      && Compass(v.rooms[r].exits[j].vdir) && Visible(v, v.rooms[r].exits[j])
      && forall k :: 0 <= k <= j && Compass(v.rooms[r].exits[k].vdir) ==> LeadsBack(v, r, v.rooms[r].exits[k])
    ensures var e := v.rooms[RoomOnMap(v, start, d, n).value].exits[j];
      At(Finished(v, start), Move(Move(CENTER, d, 2 * n), e.vdir, 1)) < 0
  {
    hide ViewOk, MapArea, RoomAt, LastDoor, LeadsBack, Visible;
    var r := RoomOnMap(v, start, d, n).value;
    var s := v.rooms[r].exits[j].vdir;
    ExitIsDoor(v, r, 0, j);
    EveryDoorShows(v, start, Move(Move(CENTER, d, 2 * n), s, 1), d, n, s, LastDoor(v, r, s, 0).value);
  }

  // ----- the window, and a closed door

  /** The window in numbers: of the places that the map shows, it leaves out none. */
  lemma WindowNumbers(rooms: World, npc: bool)
    ensures WindowOf(rooms, npc, 3) == View(rooms, npc, 48, 51)
    ensures WindowOf(rooms, npc, 21) == View(rooms, npc, 39, 60)
    ensures WindowOf(rooms, npc, 95) == View(rooms, npc, 2, 97)
  {
  }

  function Ahead1(to: int, closed: bool): Exit {
    Exit(North, to, closed, false, closed, false, "")
  }

  function Back1(to: int): Exit {
    Exit(South, to, false, false, false, false, "")
  }

  /** Two rooms, one north of the other: the northern one is seen at (48, 50) unless the door between them is closed. */
  lemma NorthOfHere(closed: bool)
    ensures var v := WindowOf(map[1 := Room(1, [Ahead1(2, closed)]), 2 := Room(3, [Back1(1)])], false, 21);
      && ViewOk(v)
      && At(Finished(v, 1), Cell(50, 50)) == 1
      && At(Finished(v, 1), Cell(48, 50)) == (if closed then 18 else 3)
      && At(Finished(v, 1), Cell(49, 50)) < 0
  {
    var v := WindowOf(map[1 := Room(1, [Ahead1(2, closed)]), 2 := Room(3, [Back1(1)])], false, 21);
    TwoRooms(v, closed);
    hide MapArea, RoomAt, NextRoom, LeadsBack, OneWay, LastDoor;
    assert Move(CENTER, North, 2 * 0) == CENTER && Move(CENTER, North, 2 * 1) == Cell(48, 50);
    CenterRoom(v, 1);
    RoomNumbers(v, 1, North, 0);
    RoomNumbers(v, 1, North, 1);
    if closed {
      NothingBehindDoors(v, 1, North, 0, 1);
    } else {
      ClearRunSeen(v, 1, North, 1, 2);
    }
    DoorShows(v, 1, North, 0, 0);
  }

  lemma CenterRoom(v: View, start: int)
    requires start in v.rooms
    ensures RoomOnMap(v, start, North, 0) == Some(start)
  {
    assert Move(CENTER, North, 2 * 0) == CENTER;
  }

  lemma TwoRooms(v: View, closed: bool)
    requires v == WindowOf(map[1 := Room(1, [Ahead1(2, closed)]), 2 := Room(3, [Back1(1)])], false, 21)
    ensures ViewOk(v) && LeadsBack(v, 1, Ahead1(2, closed)) && LeadsBack(v, 2, Back1(1))
    ensures !closed ==> OrderlyRun(v, 1, North, 1, 2)
  {
    assert OrderlyRun(v, 1, North, 0, 1);
    assert Back1(1) in v.rooms[2].exits && Ahead1(2, closed) in v.rooms[1].exits;
    assert Opposite(North, South) && Opposite(South, North);
    assert LeadsBack(v, 1, Ahead1(2, closed)) && LeadsBack(v, 2, Back1(1));
    if !closed {
      assert ClearStep(v, 1, North, Ahead1(2, closed), 2) && Orderly(v, 1, North);
    }
  }
}
