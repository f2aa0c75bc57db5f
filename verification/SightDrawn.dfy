/** What the fill of module LineOfSight draws along one line of sight, exit by exit and room by room. */
module SightDrawn {
  import opened Wrappers
  import opened LineOfSight

  // ----- vocabulary

  /** Exactly one of the two offsets of `q` from `c` is odd. */
  predicate Odd(q: Cell, c: Cell) {
    (q.x - c.x) % 2 != (q.y - c.y) % 2
  }

  /** The cells that a line of sight enters, in order. */
  function Track(v: View, vnum: int, c: Cell, d: Dir): seq<Cell>
    requires vnum in v.rooms && Compass(d)
    decreases Distance(v, c, Some(d))
  {
    if !Inside(v, c) || NextRoom(v, vnum, d, 0) == None then [c]
    else [c] + Track(v, NextRoom(v, vnum, d, 0).value, Move(c, d, 2), d)
  }

  /** The cells that the exits from i on enter when the directions in `todo` have not been entered yet. */
  function Tracks(v: View, vnum: int, c: Cell, todo: set<Dir>, i: nat): seq<Cell>
    requires vnum in v.rooms && i <= |v.rooms[vnum].exits|
    decreases |v.rooms[vnum].exits| - i
  {
    if i == |v.rooms[vnum].exits| then []
    else
      var e := v.rooms[vnum].exits[i];
      if !Compass(e.vdir) then Tracks(v, vnum, c, todo, i + 1)
      else if !HasReturn(v, e, vnum) then []
      else if e.vdir in todo && Shown(v, e) && Passable(e)
      then Track(v, e.toRoom, Move(c, e.vdir, 2), e.vdir) + Tracks(v, vnum, c, todo - {e.vdir}, i + 1)
      else Tracks(v, vnum, c, todo, i + 1)
  }

  /** A room shown at `p` and inside the window has a shown exit on its side `t`. */
  ghost predicate HasDoor(v: View, vnum: int, c: Cell, d: Dir, p: Cell, t: Dir)
    requires vnum in v.rooms && Compass(d)
  {
    Compass(t) && Ahead(p, c, d) && Inside(v, p) &&
    var r := RoomAt(v, vnum, c, d, p);
    r.Some? && LastDoor(v, r.value, t, 0).Some?
  }

  ghost predicate RayRooms(v: View, g': Picture, vnum: int, c: Cell, d: Dir)
    requires vnum in v.rooms && Compass(d)
  {
    forall q :: Ahead(q, c, d) ==> At(g', q) == MarkAt(v, vnum, c, d, q)
  }

  ghost predicate RayElsewhere(v: View, g: Picture, g': Picture, vnum: int, c: Cell, d: Dir)
    requires vnum in v.rooms && Compass(d)
  {
    forall q :: !Ahead(q, c, d) ==> At(g', q) == At(g, q) || Faced(v, vnum, c, d, q, At(g', q))
  }

  ghost predicate RayDoors(v: View, g': Picture, vnum: int, c: Cell, d: Dir)
    requires vnum in v.rooms && Compass(d)
  {
    forall p, t :: HasDoor(v, vnum, c, d, p, t) ==> Faced(v, vnum, c, d, Move(p, t, 1), At(g', Move(p, t, 1)))
  }

  /** The fill has turned `g` into `g'` by drawing the line of sight from room `vnum` at `c` towards `d`. */
  ghost predicate RayDrawn(v: View, g: Picture, g': Picture, vnum: int, c: Cell, d: Dir)
    requires vnum in v.rooms && Compass(d)
  {
    && RayRooms(v, g', vnum, c, d)
    && RayElsewhere(v, g, g', vnum, c, d)
    && RayDoors(v, g', vnum, c, d)
    && g'.entered == g.entered + Track(v, vnum, c, d)
  }

  /** One of the exits from i on leaves `mark` as the last door on the room's own side `s`, at `q`. */
  ghost predicate OwnDoor(v: View, vnum: int, c: Cell, s: Dir, i: nat, q: Cell, mark: int)
    requires vnum in v.rooms && i <= |v.rooms[vnum].exits|
  {
    q == Move(c, s, 1) && LastDoor(v, vnum, s, i) == Some(mark)
  }

  /** A room seen through the exits from i on in direction `s` faces `q` with a door marked `mark`. */
  ghost predicate Beyond(v: View, vnum: int, c: Cell, s: Dir, i: nat, q: Cell, mark: int)
    requires vnum in v.rooms && i <= |v.rooms[vnum].exits|
  {
    Compass(s) && NextRoom(v, vnum, s, i).Some? && Faced(v, NextRoom(v, vnum, s, i).value, Move(c, s, 2), s, q, mark)
  }

  ghost predicate Accounted(v: View, vnum: int, c: Cell, todo: set<Dir>, i: nat, q: Cell, mark: int)
    requires vnum in v.rooms && i <= |v.rooms[vnum].exits|
  {
    || (exists s :: Compass(s) && OwnDoor(v, vnum, c, s, i, q, mark))
    || (exists s :: s in todo && Beyond(v, vnum, c, s, i, q, mark))
  }

  ghost function BeyondMark(v: View, vnum: int, c: Cell, s: Dir, i: nat, q: Cell): int
    requires vnum in v.rooms && Compass(s) && i <= |v.rooms[vnum].exits|
  {
    var next := NextRoom(v, vnum, s, i);
    if next == None then SECT_UNSEEN else MarkAt(v, next.value, Move(c, s, 2), s, q)
  }

  ghost predicate RoomCell(c: Cell, todo: set<Dir>, q: Cell) {
    q == c || exists s :: s in todo && Ahead(q, Move(c, s, 2), s)
  }

  ghost predicate ExitRooms(v: View, g': Picture, vnum: int, c: Cell, todo: set<Dir>, i: nat)
    requires vnum in v.rooms && i <= |v.rooms[vnum].exits|
  {
    forall s, q :: s in todo && Compass(s) && Ahead(q, Move(c, s, 2), s) ==>
      At(g', q) == BeyondMark(v, vnum, c, s, i, q)
  }

  ghost predicate ExitElsewhere(v: View, g: Picture, g': Picture, vnum: int, c: Cell, todo: set<Dir>, i: nat)
    requires vnum in v.rooms && i <= |v.rooms[vnum].exits|
  {
    forall q :: !RoomCell(c, todo, q) ==>
      At(g', q) == At(g, q) || Accounted(v, vnum, c, todo, i, q, At(g', q))
  }

  ghost predicate ExitDoors(v: View, g': Picture, vnum: int, c: Cell, todo: set<Dir>, i: nat)
    requires vnum in v.rooms && i <= |v.rooms[vnum].exits|
  {
    forall s :: Compass(s) && LastDoor(v, vnum, s, i).Some? ==>
      Accounted(v, vnum, c, todo, i, Move(c, s, 1), At(g', Move(c, s, 1)))
  }

  ghost predicate DoorsBeyond(v: View, g': Picture, vnum: int, c: Cell, todo: set<Dir>, i: nat)
    requires vnum in v.rooms && i <= |v.rooms[vnum].exits|
  {
    forall s, p, t :: (s in todo && Compass(s) && NextRoom(v, vnum, s, i).Some? &&
                       HasDoor(v, NextRoom(v, vnum, s, i).value, Move(c, s, 2), s, p, t)) ==>
      Accounted(v, vnum, c, todo, i, Move(p, t, 1), At(g', Move(p, t, 1)))
  }

  /** The exits from i on of room `vnum` at `c` have turned `g` into `g'`, entering only directions in `todo`. */
  ghost predicate ExitsDrawn(v: View, g: Picture, g': Picture, vnum: int, c: Cell, todo: set<Dir>, i: nat)
    requires vnum in v.rooms && i <= |v.rooms[vnum].exits|
  {
    && At(g', c) == (if OneWay(v, vnum, i) then SECT_BLOCKED else At(g, c))
    && ExitRooms(v, g', vnum, c, todo, i)
    && ExitElsewhere(v, g, g', vnum, c, todo, i)
    && ExitDoors(v, g', vnum, c, todo, i)
    && DoorsBeyond(v, g', vnum, c, todo, i)
    && g'.entered == g.entered + Tracks(v, vnum, c, todo, i)
  }

  /** Nothing is drawn yet in the directions in `todo`, and the other directions in sight are closed off. */
  ghost predicate Ready(v: View, g: Picture, c: Cell, los: Option<Dir>, todo: set<Dir>) {
    && (forall s :: s in todo ==> Compass(s) && Along(los, s))
    && (forall s, q :: s in todo && Ahead(q, Move(c, s, 2), s) ==> At(g, q) == SECT_UNSEEN)
    && (forall s :: Compass(s) && Along(los, s) && s !in todo ==> At(g, Move(c, s, 2)) != SECT_UNSEEN)
  }

  // ----- parity keeps rooms and doors apart

  lemma AheadEven(q: Cell, c: Cell, d: Dir)
    requires Ahead(q, c, d)
    ensures !Odd(q, c)
  {
  }

  lemma FacedOdd(v: View, vnum: int, c: Cell, d: Dir, q: Cell, mark: int)
    requires vnum in v.rooms && Compass(d) && Faced(v, vnum, c, d, q, mark)
    ensures Odd(q, c) && mark < 0
  {
    hide RoomAt, LastDoor;
    var s :| Compass(s) && FacedFrom(v, vnum, c, d, q, s, mark);
    AheadEven(Move(q, s, -1), c, d);
    OddStep(Move(q, s, -1), s, c);
  }

  lemma OddStep(p: Cell, s: Dir, c: Cell)
    requires Compass(s) && !Odd(p, c)
    ensures Odd(Move(p, s, 1), c)
  {
  }

  lemma AccountedOdd(v: View, vnum: int, c: Cell, todo: set<Dir>, i: nat, q: Cell, mark: int)
    requires vnum in v.rooms && i <= |v.rooms[vnum].exits| && Accounted(v, vnum, c, todo, i, q, mark)
    ensures Odd(q, c) && mark < 0
  {
    hide RoomAt, LastDoor, NextRoom, Faced;
    if s :| s in todo && Beyond(v, vnum, c, s, i, q, mark) {
      FacedOdd(v, NextRoom(v, vnum, s, i).value, Move(c, s, 2), s, q, mark);
      OddFarther(q, c, s);
    } else {
      var s :| Compass(s) && OwnDoor(v, vnum, c, s, i, q, mark);
      OddStep(c, s, c);
    }
  }

  lemma OddFarther(q: Cell, c: Cell, s: Dir)
    requires Compass(s) && Odd(q, Move(c, s, 2))
    ensures Odd(q, c)
  {
  }

  lemma OddCell(c: Cell, s: Dir, q: Cell)
    requires Compass(s)
    ensures Odd(Move(c, s, 1), c) && !Odd(Move(c, s, 2), c) && !Odd(c, c)
    ensures Ahead(q, Move(c, s, 2), s) ==> !Odd(q, c)
  {
  }

  // ----- a room outside the window draws nothing but itself

  lemma {:induction false} OutsideExits(v: View, g: Picture, vnum: int, c: Cell, los: Option<Dir>, i: nat)
    requires ViewOk(v) && vnum in v.rooms && (los.Some? ==> Compass(los.value)) && i <= |v.rooms[vnum].exits|
    requires !Inside(v, c)
    ensures MapExits(v, g, vnum, c, los, i) == g
    decreases |v.rooms[vnum].exits| - i
  {
    if i < |v.rooms[vnum].exits| && !Compass(v.rooms[vnum].exits[i].vdir) {
      OutsideExits(v, g, vnum, c, los, i + 1);
    }
  }

  // ----- one exit

  lemma FirstMark(v: View, vnum: int, c: Cell, d: Dir)
    requires ViewOk(v) && vnum in v.rooms && Compass(d)
    ensures Ahead(c, c, d) && MarkAt(v, vnum, c, d, c) == RoomMark(v, vnum, Inside(v, c)) != SECT_UNSEEN
  {
  }

  /** Whether the i-th exit sends the sight on into the next room. */
  ghost predicate Enters(v: View, e: Exit, todo: set<Dir>) {
    e.vdir in todo && Shown(v, e) && Passable(e)
  }

  ghost function StillTodo(v: View, e: Exit, todo: set<Dir>): set<Dir> {
    if Enters(v, e, todo) then todo - {e.vdir} else todo
  }

  /** What one exit with a way back changes: its door, and the line of sight behind it if it is entered. */
  ghost predicate DoorDrawn(v: View, g: Picture, g1: Picture, c: Cell, todo: set<Dir>, e: Exit)
    requires e.toRoom in v.rooms
  {
    var marked := if Shown(v, e) then Draw(g, Move(c, e.vdir, 1), DoorType(e)) else g;
    if Enters(v, e, todo) then Compass(e.vdir) && RayDrawn(v, marked, g1, e.toRoom, Move(c, e.vdir, 2), e.vdir)
    else g1 == marked
  }

  lemma ReadyNext(v: View, g: Picture, g1: Picture, c: Cell, los: Option<Dir>, todo: set<Dir>, e: Exit)
    requires ViewOk(v) && e.toRoom in v.rooms && Compass(e.vdir)
    requires Ready(v, g, c, los, todo) && DoorDrawn(v, g, g1, c, todo, e)
    ensures Ready(v, g1, c, los, StillTodo(v, e, todo)) && At(g1, c) == At(g, c)
  {
    hide RoomAt, LastDoor, Faced, OneWay;
    var next := Move(c, e.vdir, 2);
    var marked := if Shown(v, e) then Draw(g, Move(c, e.vdir, 1), DoorType(e)) else g;
    forall q | !Odd(q, c) && !(Enters(v, e, todo) && Ahead(q, next, e.vdir))
      ensures At(g1, q) == At(g, q)
    {
      OddCell(c, e.vdir, q);
      if Enters(v, e, todo) && Faced(v, e.toRoom, next, e.vdir, q, At(g1, q)) {
        FacedOdd(v, e.toRoom, next, e.vdir, q, At(g1, q));
      }
    }
    MoveFacts(c, e.vdir);
    OddCell(c, e.vdir, c);
    forall s, q | s in StillTodo(v, e, todo) && Ahead(q, Move(c, s, 2), s)
      ensures At(g1, q) == SECT_UNSEEN
    {
      OddCell(c, s, q);
    }
    forall s | Compass(s) && Along(los, s) && s !in StillTodo(v, e, todo)
      ensures At(g1, Move(c, s, 2)) != SECT_UNSEEN
    {
      OddCell(c, s, c);
      MoveFacts(c, s);
      if Enters(v, e, todo) && s == e.vdir {
        FirstMark(v, e.toRoom, next, s);
      }
    }
  }

  // ----- one exit, then the rest

  /** The i-th exit of the room exists, points along the grid and leads back. */
  ghost predicate Usable(v: View, vnum: int, i: nat) {
    vnum in v.rooms && i < |v.rooms[vnum].exits| &&
    Compass(v.rooms[vnum].exits[i].vdir) && HasReturn(v, v.rooms[vnum].exits[i], vnum)
  }

  lemma NextUnchanged(v: View, vnum: int, todo: set<Dir>, i: nat, s: Dir)
    requires Usable(v, vnum, i)
    ensures var e := v.rooms[vnum].exits[i];
      && (s in StillTodo(v, e, todo) ==> NextRoom(v, vnum, s, i) == NextRoom(v, vnum, s, i + 1))
      && (Enters(v, e, todo) ==> NextRoom(v, vnum, e.vdir, i) == Some(e.toRoom))
      && (s in todo ==> s in StillTodo(v, e, todo) || (Enters(v, e, todo) && s == e.vdir))
  {
  }

  lemma AccountedEarlier(v: View, vnum: int, c: Cell, todo: set<Dir>, i: nat, q: Cell, mark: int)
    requires Usable(v, vnum, i)
    requires Accounted(v, vnum, c, StillTodo(v, v.rooms[vnum].exits[i], todo), i + 1, q, mark)
    ensures Accounted(v, vnum, c, todo, i, q, mark)
  {
    hide Faced;
    var e := v.rooms[vnum].exits[i];
    if s :| s in StillTodo(v, e, todo) && Beyond(v, vnum, c, s, i + 1, q, mark) {
      NextUnchanged(v, vnum, todo, i, s);
      assert s in todo && Beyond(v, vnum, c, s, i, q, mark);
    } else {
      var s :| Compass(s) && OwnDoor(v, vnum, c, s, i + 1, q, mark);
      assert OwnDoor(v, vnum, c, s, i, q, mark);
    }
  }

  lemma AccountedBeyond(v: View, vnum: int, c: Cell, todo: set<Dir>, i: nat, q: Cell, mark: int)
    requires Usable(v, vnum, i)
    requires var e := v.rooms[vnum].exits[i];
      Enters(v, e, todo) && Faced(v, e.toRoom, Move(c, e.vdir, 2), e.vdir, q, mark)
    ensures Accounted(v, vnum, c, todo, i, q, mark)
  {
    hide Faced;
    var e := v.rooms[vnum].exits[i];
    NextUnchanged(v, vnum, todo, i, e.vdir);
    assert e.vdir in todo && Beyond(v, vnum, c, e.vdir, i, q, mark);
  }

  /** After an exit has been drawn and the rest of the exits too. */
  ghost predicate ThenRest(v: View, g: Picture, g1: Picture, g': Picture, vnum: int, c: Cell, todo: set<Dir>, i: nat) {
    Usable(v, vnum, i) && (forall s :: s in todo ==> Compass(s)) &&
    var e := v.rooms[vnum].exits[i];
    DoorDrawn(v, g, g1, c, todo, e) && ExitsDrawn(v, g1, g', vnum, c, StillTodo(v, e, todo), i + 1)
  }

  /** A door cell that the rest leaves alone keeps what this exit put there; otherwise the rest accounts for it. */
  lemma StepAccounted(v: View, g: Picture, g1: Picture, g': Picture, vnum: int, c: Cell, todo: set<Dir>, i: nat,
                      q: Cell)
    requires ThenRest(v, g, g1, g', vnum, c, todo, i)
    requires !RoomCell(c, StillTodo(v, v.rooms[vnum].exits[i], todo), q)
    requires Accounted(v, vnum, c, todo, i, q, At(g1, q))
    ensures Accounted(v, vnum, c, todo, i, q, At(g', q))
  {
    hide Accounted, ExitRooms, ExitDoors, DoorsBeyond, DoorDrawn, RoomCell;
    if At(g', q) != At(g1, q) {
      AccountedEarlier(v, vnum, c, todo, i, q, At(g', q));
    }
  }

  lemma StepDoors(v: View, g: Picture, g1: Picture, g': Picture, vnum: int, c: Cell, todo: set<Dir>, i: nat, s: Dir)
    requires ThenRest(v, g, g1, g', vnum, c, todo, i) && Compass(s) && LastDoor(v, vnum, s, i).Some?
    ensures Accounted(v, vnum, c, todo, i, Move(c, s, 1), At(g', Move(c, s, 1)))
  {
    hide Accounted, ExitRooms, ExitElsewhere, DoorsBeyond, RoomAt, Faced;
    var e, q := v.rooms[vnum].exits[i], Move(c, s, 1);
    if LastDoor(v, vnum, s, i + 1).Some? {
      AccountedEarlier(v, vnum, c, todo, i, q, At(g', q));
    } else {
      assert OwnDoor(v, vnum, c, s, i, q, DoorType(e));
      OddRoomCell(c, todo, q, s);
      OddRoomCell(c, StillTodo(v, e, todo), q, s);
      MoveFacts(c, s);
      if Enters(v, e, todo) && At(g1, q) != DoorType(e) {
        AccountedBeyond(v, vnum, c, todo, i, q, At(g1, q));
      } else {
        OwnAccounted(v, vnum, c, todo, i, s);
      }
      StepAccounted(v, g, g1, g', vnum, c, todo, i, q);
    }
  }

  lemma OwnAccounted(v: View, vnum: int, c: Cell, todo: set<Dir>, i: nat, s: Dir)
    requires vnum in v.rooms && i <= |v.rooms[vnum].exits| && Compass(s) && LastDoor(v, vnum, s, i).Some?
    ensures Accounted(v, vnum, c, todo, i, Move(c, s, 1), LastDoor(v, vnum, s, i).value)
  {
    assert OwnDoor(v, vnum, c, s, i, Move(c, s, 1), LastDoor(v, vnum, s, i).value);
  }

  lemma OddRoomCell(c: Cell, todo: set<Dir>, q: Cell, s: Dir)
    requires Compass(s) && q == Move(c, s, 1)
    ensures !RoomCell(c, todo, q)
  {
    OddCell(c, s, c);
    if t :| t in todo && Ahead(q, Move(c, t, 2), t) {
      OddCell(c, t, q);
    }
  }

  lemma EvenRoomCell(c: Cell, todo: set<Dir>, q: Cell)
    requires Odd(q, c) && forall s :: s in todo ==> Compass(s)
    ensures !RoomCell(c, todo, q)
  {
    OddCell(c, North, q);
    if t :| t in todo && Ahead(q, Move(c, t, 2), t) {
      OddCell(c, t, q);
    }
  }

  lemma StepElsewhere(v: View, g: Picture, g1: Picture, g': Picture, vnum: int, c: Cell, todo: set<Dir>, i: nat,
                      q: Cell)
    requires ThenRest(v, g, g1, g', vnum, c, todo, i) && !RoomCell(c, todo, q)
    ensures At(g', q) == At(g, q) || Accounted(v, vnum, c, todo, i, q, At(g', q))
  {
    hide Accounted, ExitRooms, ExitDoors, DoorsBeyond, RoomAt, Faced;
    var e := v.rooms[vnum].exits[i];
    assert !RoomCell(c, StillTodo(v, e, todo), q);
    if Shown(v, e) && q == Move(c, e.vdir, 1) {
      assert LastDoor(v, vnum, e.vdir, i).Some?;
      StepDoors(v, g, g1, g', vnum, c, todo, i, e.vdir);
    } else if Enters(v, e, todo) && At(g1, q) != At(g, q) {
      AccountedBeyond(v, vnum, c, todo, i, q, At(g1, q));
      StepAccounted(v, g, g1, g', vnum, c, todo, i, q);
    } else if At(g', q) != At(g1, q) {
      AccountedEarlier(v, vnum, c, todo, i, q, At(g', q));
    }
  }

  lemma StepBeyond(v: View, g: Picture, g1: Picture, g': Picture, vnum: int, c: Cell, todo: set<Dir>, i: nat,
                   s: Dir, p: Cell, t: Dir)
    requires ThenRest(v, g, g1, g', vnum, c, todo, i)
    requires s in todo && Compass(s) && NextRoom(v, vnum, s, i).Some?
    requires HasDoor(v, NextRoom(v, vnum, s, i).value, Move(c, s, 2), s, p, t)
    ensures Accounted(v, vnum, c, todo, i, Move(p, t, 1), At(g', Move(p, t, 1)))
  {
    hide Accounted, ExitRooms, ExitElsewhere, ExitDoors, RoomAt, Faced, LastDoor, NextRoom;
    var e, q := v.rooms[vnum].exits[i], Move(p, t, 1);
    NextUnchanged(v, vnum, todo, i, s);
    if Enters(v, e, todo) && s == e.vdir {
      AccountedBeyond(v, vnum, c, todo, i, q, At(g1, q));
      OddCell(c, s, p);
      OddStep(p, t, c);
      EvenRoomCell(c, StillTodo(v, e, todo), q);
      StepAccounted(v, g, g1, g', vnum, c, todo, i, q);
    } else {
      AccountedEarlier(v, vnum, c, todo, i, q, At(g', q));
    }
  }

  lemma StepRooms(v: View, g: Picture, g1: Picture, g': Picture, vnum: int, c: Cell, todo: set<Dir>, i: nat,
                  s: Dir, q: Cell)
    requires ThenRest(v, g, g1, g', vnum, c, todo, i)
    requires s in todo && Compass(s) && Ahead(q, Move(c, s, 2), s)
    ensures At(g', q) == BeyondMark(v, vnum, c, s, i, q)
  {
    hide Accounted, ExitDoors, DoorsBeyond, MarkAt, Faced, LastDoor, NextRoom;
    var e := v.rooms[vnum].exits[i];
    NextUnchanged(v, vnum, todo, i, s);
    if Enters(v, e, todo) && s == e.vdir {
      var rest := StillTodo(v, e, todo);
      OddCell(c, s, q);
      MoveFacts(c, s);
      assert !RoomCell(c, rest, q);
      if At(g', q) != At(g1, q) {
        AccountedOdd(v, vnum, c, rest, i + 1, q, At(g', q));
      }
    }
  }

  lemma RestUsable(v: View, g: Picture, g1: Picture, g': Picture, vnum: int, c: Cell, todo: set<Dir>, i: nat)
    requires ThenRest(v, g, g1, g', vnum, c, todo, i)
    ensures Usable(v, vnum, i)
  {
  }

  lemma AllRooms(v: View, g: Picture, g1: Picture, g': Picture, vnum: int, c: Cell, todo: set<Dir>, i: nat)
    requires ThenRest(v, g, g1, g', vnum, c, todo, i)
    ensures Usable(v, vnum, i) && ExitRooms(v, g', vnum, c, todo, i)
  {
    hide ThenRest, BeyondMark, Ahead;
    RestUsable(v, g, g1, g', vnum, c, todo, i);
    forall s, q | s in todo && Compass(s) && Ahead(q, Move(c, s, 2), s)
      ensures At(g', q) == BeyondMark(v, vnum, c, s, i, q)
    {
      StepRooms(v, g, g1, g', vnum, c, todo, i, s, q);
    }
  }

  lemma AllElsewhere(v: View, g: Picture, g1: Picture, g': Picture, vnum: int, c: Cell, todo: set<Dir>, i: nat)
    requires ThenRest(v, g, g1, g', vnum, c, todo, i)
    ensures Usable(v, vnum, i) && ExitElsewhere(v, g, g', vnum, c, todo, i)
  {
    hide ThenRest, RoomCell, Accounted;
    RestUsable(v, g, g1, g', vnum, c, todo, i);
    forall q | !RoomCell(c, todo, q)
      ensures At(g', q) == At(g, q) || Accounted(v, vnum, c, todo, i, q, At(g', q))
    {
      StepElsewhere(v, g, g1, g', vnum, c, todo, i, q);
    }
  }

  lemma AllDoors(v: View, g: Picture, g1: Picture, g': Picture, vnum: int, c: Cell, todo: set<Dir>, i: nat)
    requires ThenRest(v, g, g1, g', vnum, c, todo, i)
    ensures Usable(v, vnum, i) && ExitDoors(v, g', vnum, c, todo, i)
  {
    hide ThenRest, LastDoor, Accounted;
    RestUsable(v, g, g1, g', vnum, c, todo, i);
    forall s | Compass(s) && LastDoor(v, vnum, s, i).Some?
      ensures Accounted(v, vnum, c, todo, i, Move(c, s, 1), At(g', Move(c, s, 1)))
    {
      StepDoors(v, g, g1, g', vnum, c, todo, i, s);
    }
  }

  lemma AllBeyond(v: View, g: Picture, g1: Picture, g': Picture, vnum: int, c: Cell, todo: set<Dir>, i: nat)
    requires ThenRest(v, g, g1, g', vnum, c, todo, i)
    ensures Usable(v, vnum, i) && DoorsBeyond(v, g', vnum, c, todo, i)
  {
    hide ThenRest, NextRoom, HasDoor, Accounted;
    RestUsable(v, g, g1, g', vnum, c, todo, i);
    forall s, p, t | s in todo && Compass(s) && NextRoom(v, vnum, s, i).Some? &&
                     HasDoor(v, NextRoom(v, vnum, s, i).value, Move(c, s, 2), s, p, t)
      ensures Accounted(v, vnum, c, todo, i, Move(p, t, 1), At(g', Move(p, t, 1)))
    {
      StepBeyond(v, g, g1, g', vnum, c, todo, i, s, p, t);
    }
  }

  lemma ExitStep(v: View, g: Picture, g1: Picture, g': Picture, vnum: int, c: Cell, todo: set<Dir>, i: nat)
    requires ThenRest(v, g, g1, g', vnum, c, todo, i) && At(g1, c) == At(g, c)
    ensures ExitsDrawn(v, g, g', vnum, c, todo, i)
  {
    hide ExitRooms, ExitElsewhere, ExitDoors, DoorsBeyond, RayRooms, RayElsewhere, RayDoors, NextRoom, LastDoor;
    AllRooms(v, g, g1, g', vnum, c, todo, i);
    AllElsewhere(v, g, g1, g', vnum, c, todo, i);
    AllDoors(v, g, g1, g', vnum, c, todo, i);
    AllBeyond(v, g, g1, g', vnum, c, todo, i);
  }

  // ----- from the exits of a room to the line of sight that starts there

  lemma RoomAtFarther(v: View, vnum: int, c: Cell, d: Dir, q: Cell)
    requires vnum in v.rooms && Compass(d) && Inside(v, c) && q != c
    ensures var next := NextRoom(v, vnum, d, 0);
      RoomAt(v, vnum, c, d, q) == if next == None then None else RoomAt(v, next.value, Move(c, d, 2), d, q)
  {
  }

  /** What the room behind the first exit accounts for, the room itself accounts for. */
  lemma FacedFarther(v: View, vnum: int, c: Cell, d: Dir, q: Cell, mark: int)
    requires vnum in v.rooms && Compass(d) && Inside(v, c) && Beyond(v, vnum, c, d, 0, q, mark)
    ensures Faced(v, vnum, c, d, q, mark)
  {
    hide RoomAt, LastDoor, NextRoom;
    var next := NextRoom(v, vnum, d, 0).value;
    var s :| Compass(s) && FacedFrom(v, next, Move(c, d, 2), d, q, s, mark);
    MoveFacts(c, d);
    RoomAtFarther(v, vnum, c, d, Move(q, s, -1));
    assert FacedFrom(v, vnum, c, d, q, s, mark);
  }

  lemma FacedOwn(v: View, vnum: int, c: Cell, d: Dir, s: Dir, q: Cell, mark: int)
    requires vnum in v.rooms && Compass(d) && Compass(s) && Inside(v, c) && OwnDoor(v, vnum, c, s, 0, q, mark)
    ensures Faced(v, vnum, c, d, q, mark)
  {
    MoveFacts(c, d);
    assert Move(q, s, -1) == c && RoomAt(v, vnum, c, d, c) == Some(vnum);
    assert FacedFrom(v, vnum, c, d, q, s, mark);
  }

  lemma AccountedFaced(v: View, vnum: int, c: Cell, d: Dir, q: Cell, mark: int)
    requires vnum in v.rooms && Compass(d) && Inside(v, c) && Accounted(v, vnum, c, {d}, 0, q, mark)
    ensures Faced(v, vnum, c, d, q, mark)
  {
    hide Faced, Beyond, OwnDoor;
    if s :| Compass(s) && OwnDoor(v, vnum, c, s, 0, q, mark) {
      FacedOwn(v, vnum, c, d, s, q, mark);
    } else {
      FacedFarther(v, vnum, c, d, q, mark);
    }
  }

  lemma RoomsOfRay(v: View, g: Picture, g': Picture, vnum: int, c: Cell, d: Dir)
    requires ViewOk(v) && vnum in v.rooms && Compass(d) && Inside(v, c)
    requires ExitsDrawn(v, Enter(g, c, v.rooms[vnum].sector), g', vnum, c, {d}, 0)
    ensures RayRooms(v, g', vnum, c, d)
  {
    hide ExitElsewhere, ExitDoors, DoorsBeyond, NextRoom, OneWay, Tracks;
    MoveFacts(c, d);
    forall q | Ahead(q, c, d)
      ensures At(g', q) == MarkAt(v, vnum, c, d, q)
    {
      if q != c {
        RoomAtFarther(v, vnum, c, d, q);
      }
    }
  }

  lemma RestOfRay(v: View, g: Picture, g': Picture, vnum: int, c: Cell, d: Dir)
    requires ViewOk(v) && vnum in v.rooms && Compass(d) && Inside(v, c)
    requires ExitsDrawn(v, Enter(g, c, v.rooms[vnum].sector), g', vnum, c, {d}, 0)
    ensures RayElsewhere(v, g, g', vnum, c, d)
  {
    hide ExitRooms, ExitDoors, DoorsBeyond, Accounted, Faced, OneWay, Tracks;
    MoveFacts(c, d);
    forall q | !Ahead(q, c, d)
      ensures At(g', q) == At(g, q) || Faced(v, vnum, c, d, q, At(g', q))
    {
      assert !RoomCell(c, {d}, q);
      if At(g', q) != At(g, q) {
        AccountedFaced(v, vnum, c, d, q, At(g', q));
      }
    }
  }

  lemma DoorsOfRay(v: View, g: Picture, g': Picture, vnum: int, c: Cell, d: Dir)
    requires ViewOk(v) && vnum in v.rooms && Compass(d) && Inside(v, c)
    requires ExitsDrawn(v, Enter(g, c, v.rooms[vnum].sector), g', vnum, c, {d}, 0)
    ensures RayDoors(v, g', vnum, c, d)
  {
    hide ExitRooms, ExitElsewhere, Accounted, Faced, LastDoor, NextRoom, OneWay, Tracks;
    MoveFacts(c, d);
    forall p, t | HasDoor(v, vnum, c, d, p, t)
      ensures Faced(v, vnum, c, d, Move(p, t, 1), At(g', Move(p, t, 1)))
    {
      if p != c {
        RoomAtFarther(v, vnum, c, d, p);
        assert HasDoor(v, NextRoom(v, vnum, d, 0).value, Move(c, d, 2), d, p, t);
      }
      AccountedFaced(v, vnum, c, d, Move(p, t, 1), At(g', Move(p, t, 1)));
    }
  }

  lemma EnteredOfRay(v: View, g: Picture, g': Picture, vnum: int, c: Cell, d: Dir)
    requires ViewOk(v) && vnum in v.rooms && Compass(d) && Inside(v, c)
    requires ExitsDrawn(v, Enter(g, c, v.rooms[vnum].sector), g', vnum, c, {d}, 0)
    ensures g'.entered == g.entered + Track(v, vnum, c, d)
  {
    hide ExitRooms, ExitElsewhere, ExitDoors, DoorsBeyond, Tracks, NextRoom, OneWay;
    TracksOfOne(v, vnum, c, d, 0);
  }

  lemma RayFromExits(v: View, g: Picture, g': Picture, vnum: int, c: Cell, d: Dir)
    requires ViewOk(v) && vnum in v.rooms && Compass(d) && Inside(v, c)
    requires ExitsDrawn(v, Enter(g, c, v.rooms[vnum].sector), g', vnum, c, {d}, 0)
    ensures RayDrawn(v, g, g', vnum, c, d)
  {
    hide ExitsDrawn, RayRooms, RayElsewhere, RayDoors, Track, Enter;
    RoomsOfRay(v, g, g', vnum, c, d);
    RestOfRay(v, g, g', vnum, c, d);
    DoorsOfRay(v, g, g', vnum, c, d);
    EnteredOfRay(v, g, g', vnum, c, d);
  }

  /** With one direction left to enter, the exits enter the room behind the first one that goes through. */
  lemma {:induction false} TracksOfOne(v: View, vnum: int, c: Cell, d: Dir, i: nat)
    requires vnum in v.rooms && Compass(d) && i <= |v.rooms[vnum].exits|
    ensures var next := NextRoom(v, vnum, d, i);
      Tracks(v, vnum, c, {d}, i) == if next == None then [] else Track(v, next.value, Move(c, d, 2), d)
    decreases |v.rooms[vnum].exits| - i
  {
    hide Track;
    if i < |v.rooms[vnum].exits| {
      TracksOfOne(v, vnum, c, d, i + 1);
      var e := v.rooms[vnum].exits[i];
      if Compass(e.vdir) && HasReturn(v, e, vnum) && Enters(v, e, {d}) {
        assert {d} - {e.vdir} == {};
        TracksOfNone(v, vnum, c, i + 1);
      }
    }
  }

  lemma {:induction false} TracksOfNone(v: View, vnum: int, c: Cell, i: nat)
    requires vnum in v.rooms && i <= |v.rooms[vnum].exits|
    ensures Tracks(v, vnum, c, {}, i) == []
    decreases |v.rooms[vnum].exits| - i
  {
    if i < |v.rooms[vnum].exits| {
      TracksOfNone(v, vnum, c, i + 1);
    }
  }

  ghost predicate BlankAhead(g: Picture, c: Cell, d: Dir) {
    forall q :: Ahead(q, c, d) ==> At(g, q) == SECT_UNSEEN
  }

  /** Outside the window a line of sight is the one room it starts with. */
  lemma RayOutside(v: View, g: Picture, vnum: int, c: Cell, d: Dir)
    requires ViewOk(v) && vnum in v.rooms && Compass(d) && !Inside(v, c) && BlankAhead(g, c, d)
    ensures RayDrawn(v, g, Enter(g, c, v.rooms[vnum].sector), vnum, c, d)
  {
  }

  /** A one-way exit ends the loop with the room marked as blocked. */
  lemma BlockedExits(v: View, g: Picture, vnum: int, c: Cell, los: Option<Dir>, todo: set<Dir>, i: nat)
    requires vnum in v.rooms && i < |v.rooms[vnum].exits| && Ready(v, g, c, los, todo)
    requires Compass(v.rooms[vnum].exits[i].vdir) && !HasReturn(v, v.rooms[vnum].exits[i], vnum)
    ensures ExitsDrawn(v, g, Draw(g, c, SECT_BLOCKED), vnum, c, todo, i)
  {
    hide Accounted;
    var g' := Draw(g, c, SECT_BLOCKED);
    forall s, q | s in todo && Compass(s) && Ahead(q, Move(c, s, 2), s)
      ensures At(g', q) == BeyondMark(v, vnum, c, s, i, q)
    {
      OddCell(c, s, q);
      assert q != c && At(g', q) == At(g, q);
      assert NextRoom(v, vnum, s, i) == None;
    }
    assert g'.entered == g.entered + Tracks(v, vnum, c, todo, i);
  }

  /** Exits that point nowhere on the grid change nothing. */
  lemma SkippedSide(v: View, vnum: int, i: nat, s: Dir)
    requires vnum in v.rooms && i < |v.rooms[vnum].exits| && !Compass(v.rooms[vnum].exits[i].vdir)
    ensures NextRoom(v, vnum, s, i) == NextRoom(v, vnum, s, i + 1)
    ensures LastDoor(v, vnum, s, i) == LastDoor(v, vnum, s, i + 1)
  {
  }

  lemma SkippedAccounted(v: View, vnum: int, c: Cell, todo: set<Dir>, i: nat, q: Cell, mark: int)
    requires vnum in v.rooms && i < |v.rooms[vnum].exits| && !Compass(v.rooms[vnum].exits[i].vdir)
    ensures Accounted(v, vnum, c, todo, i, q, mark) == Accounted(v, vnum, c, todo, i + 1, q, mark)
  {
    hide Faced, NextRoom, LastDoor;
    forall s
      ensures OwnDoor(v, vnum, c, s, i, q, mark) == OwnDoor(v, vnum, c, s, i + 1, q, mark)
      ensures Beyond(v, vnum, c, s, i, q, mark) == Beyond(v, vnum, c, s, i + 1, q, mark)
    {
      SkippedSide(v, vnum, i, s);
    }
  }

  lemma SkippedExit(v: View, g: Picture, g': Picture, vnum: int, c: Cell, todo: set<Dir>, i: nat)
    requires vnum in v.rooms && i < |v.rooms[vnum].exits| && !Compass(v.rooms[vnum].exits[i].vdir)
    requires ExitsDrawn(v, g, g', vnum, c, todo, i + 1)
    ensures ExitsDrawn(v, g, g', vnum, c, todo, i)
  {
    hide Faced, MarkAt, Accounted, NextRoom, LastDoor, RoomCell, HasDoor;
    forall s
      ensures NextRoom(v, vnum, s, i) == NextRoom(v, vnum, s, i + 1)
      ensures LastDoor(v, vnum, s, i) == LastDoor(v, vnum, s, i + 1)
    {
      SkippedSide(v, vnum, i, s);
    }
    forall q, mark
      ensures Accounted(v, vnum, c, todo, i, q, mark) == Accounted(v, vnum, c, todo, i + 1, q, mark)
    {
      SkippedAccounted(v, vnum, c, todo, i, q, mark);
    }
  }

  lemma NoExitsLeft(v: View, g: Picture, vnum: int, c: Cell, los: Option<Dir>, todo: set<Dir>)
    requires vnum in v.rooms && Ready(v, g, c, los, todo)
    ensures ExitsDrawn(v, g, g, vnum, c, todo, |v.rooms[vnum].exits|)
  {
    hide Accounted;
  }

  // ----- the fill itself

  /** A line of sight over blank cells draws exactly the rooms it shows, and each of their doors. */
  lemma {:induction false} AreaCorrect(v: View, g: Picture, vnum: int, c: Cell, d: Dir)
    requires ViewOk(v) && vnum in v.rooms && Compass(d) && BlankAhead(g, c, d)
    ensures RayDrawn(v, g, MapArea(v, g, vnum, c, Some(d)), vnum, c, d)
    decreases 0, Distance(v, c, Some(d)), 1, 0
  {
    hide RayDrawn, ExitsDrawn, MapExits;
    MoveFacts(c, d);
    assert At(g, c) == SECT_UNSEEN;
    var g0 := Enter(g, c, v.rooms[vnum].sector);
    if !Inside(v, c) {
      OutsideExits(v, g0, vnum, c, Some(d), 0);
      RayOutside(v, g, vnum, c, d);
    } else {
      assert Ready(v, g0, c, Some(d), {d});
      ExitsCorrect(v, g0, vnum, c, Some(d), {d}, 0);
      RayFromExits(v, g, MapExits(v, g0, vnum, c, Some(d), 0), vnum, c, d);
    }
  }

  lemma {:induction false} ExitsCorrect(v: View, g: Picture, vnum: int, c: Cell, los: Option<Dir>, todo: set<Dir>,
                                        i: nat)
    requires ViewOk(v) && vnum in v.rooms && i <= |v.rooms[vnum].exits| && (los.Some? ==> Compass(los.value))
    requires Inside(v, c) && Ready(v, g, c, los, todo)
    ensures ExitsDrawn(v, g, MapExits(v, g, vnum, c, los, i), vnum, c, todo, i)
    decreases if los == None then 1 else 0, Distance(v, c, los), 0, |v.rooms[vnum].exits| - i
  {
    assert forall s :: s in todo ==> Compass(s);
    hide RayDrawn, ExitsDrawn, Ready;
    if i == |v.rooms[vnum].exits| {
      NoExitsLeft(v, g, vnum, c, los, todo);
    } else {
      var e := v.rooms[vnum].exits[i];
      if !Compass(e.vdir) {
        ExitsCorrect(v, g, vnum, c, los, todo, i + 1);
        SkippedExit(v, g, MapExits(v, g, vnum, c, los, i + 1), vnum, c, todo, i);
      } else if !HasReturn(v, e, vnum) {
        BlockedExits(v, g, vnum, c, los, todo, i);
      } else {
        var g1 := MapDoor(v, g, vnum, c, los, e);
        DoorCorrect(v, g, vnum, c, los, todo, e);
        ReadyNext(v, g, g1, c, los, todo, e);
        ExitsCorrect(v, g1, vnum, c, los, StillTodo(v, e, todo), i + 1);
        ExitStep(v, g, g1, MapExits(v, g1, vnum, c, los, i + 1), vnum, c, todo, i);
      }
    }
  }

  lemma DoorCorrect(v: View, g: Picture, vnum: int, c: Cell, los: Option<Dir>, todo: set<Dir>, e: Exit)
    requires ViewOk(v) && (los.Some? ==> Compass(los.value)) && Inside(v, c) && Ready(v, g, c, los, todo)
    requires Compass(e.vdir) && HasReturn(v, e, vnum)
    ensures DoorDrawn(v, g, MapDoor(v, g, vnum, c, los, e), c, todo, e)
    decreases if los == None then 1 else 0, Distance(v, c, los), 0, 0
  {
    hide RayDrawn, MapArea;
    if Shown(v, e) {
      var marked, next := Draw(g, Move(c, e.vdir, 1), DoorType(e)), Move(c, e.vdir, 2);
      OddCell(c, e.vdir, c);
      assert At(marked, next) == At(g, next);
      MoveFacts(c, e.vdir);
      if Enters(v, e, todo) {
        forall q | Ahead(q, next, e.vdir)
          ensures At(marked, q) == SECT_UNSEEN
        {
          OddCell(c, e.vdir, q);
          assert q != Move(c, e.vdir, 1) && At(marked, q) == At(g, q);
        }
        AreaCorrect(v, marked, e.toRoom, next, e.vdir);
      }
    }
  }
}
