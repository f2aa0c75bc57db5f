/**
 * The recursive fill of ackmapper.c as a function on pictures of an unbounded grid, and what it draws.
 *
 * Rooms sit on cells whose two offsets from the centre are even, doors on the cells between them. The same
 * recursion on the real 100 by 100 array is module Mapper.
 */
module LineOfSight {
  import opened Wrappers

  datatype Dir = North | East | South | West | Up | Down | NorthEast | NorthWest | SouthEast | SouthWest | Somewhere

  predicate Compass(d: Dir) {
    d.North? || d.East? || d.South? || d.West?
  }

  function Back(d: Dir): Dir {
    match d
    case North => South
    case East => West
    case South => North
    case West => East
    case Up => Down
    case Down => Up
    case NorthEast => SouthWest
    case NorthWest => SouthEast
    case SouthEast => NorthWest
    case SouthWest => NorthEast
    case Somewhere => Somewhere
  }

  /** An exit; its `toRoom` is the vnum of the room it leads to. */
  datatype Exit = Exit(vdir: Dir, toRoom: int, isDoor: bool, locked: bool, closed: bool, hidden: bool, keyword: string)

  datatype Room = Room(sector: int, exits: seq<Exit>)

  type World = map<int, Room>

  /** What the fill looks at throughout one map: the world, whether the viewer is an NPC, and the window. */
  datatype View = View(rooms: World, npc: bool, lo: int, hi: int)

  const SECT_MAX := 17
  const SECT_UNSEEN := SECT_MAX + 1
  const SECT_BLOCKED := SECT_UNSEEN + 1

  const DOOR_LOCKED := -1
  const DOOR_CLOSED := -2
  const DOOR_OPEN := -3
  const DOOR_NS := -4
  const DOOR_EW := -5

  datatype Cell = Cell(x: int, y: int)

  /** The cell `n` places from `c` in direction `d`; x grows southwards and y eastwards. */
  function Move(c: Cell, d: Dir, n: int): Cell {
    match d
    case North => Cell(c.x - n, c.y)
    case East => Cell(c.x, c.y + n)
    case South => Cell(c.x + n, c.y)
    case West => Cell(c.x, c.y - n)
    case _ => c
  }

  /** The marks drawn so far, and the cells that a room was drawn at, in order. */
  datatype Picture = Picture(marks: map<Cell, int>, entered: seq<Cell>)

  function At(g: Picture, c: Cell): int {
    if c in g.marks then g.marks[c] else SECT_UNSEEN
  }

  function Draw(g: Picture, c: Cell, mark: int): Picture {
    g.(marks := g.marks[c := mark])
  }

  function Enter(g: Picture, c: Cell, sector: int): Picture {
    Picture(g.marks[c := sector], g.entered + [c])
  }

  /** The world as the mapper takes it: real sectors, and no exit in the one direction its tables lack. */
  predicate ViewOk(v: View) {
    forall vnum :: vnum in v.rooms ==>
      0 <= v.rooms[vnum].sector < SECT_MAX && forall e :: e in v.rooms[vnum].exits ==> e.vdir != Somewhere
  }

  /** get_exit_to: the neighbour has an exit that leads straight back. */
  predicate HasReturn(v: View, e: Exit, vnum: int) {
    e.toRoom in v.rooms && exists r :: r in v.rooms[e.toRoom].exits && r.vdir == Back(e.vdir) && r.toRoom == vnum
  }

  function DoorType(e: Exit): int {
    if !e.isDoor then (if e.vdir.North? || e.vdir.South? then DOOR_NS else DOOR_EW)
    else if e.locked then DOOR_LOCKED
    else if e.closed then DOOR_CLOSED
    else DOOR_OPEN
  }

  predicate Shown(v: View, e: Exit) {
    !v.npc && e.keyword == "" && (DoorType(e) <= DOOR_OPEN || !e.isDoor || (e.closed && !e.hidden))
  }

  predicate Passable(e: Exit) {
    DoorType(e) < DOOR_CLOSED
  }

  predicate Inside(v: View, c: Cell) {
    v.lo <= c.x <= v.hi && v.lo <= c.y <= v.hi
  }

  /** How far a line of sight can still run before it leaves the window. */
  function Distance(v: View, c: Cell, los: Option<Dir>): nat {
    if !Inside(v, c) then 0
    else match los
      case None => 0
      case Some(North) => c.x - v.lo + 1
      case Some(East) => v.hi - c.y + 1
      case Some(South) => v.hi - c.x + 1
      case Some(West) => c.y - v.lo + 1
      case _ => 0
  }

  predicate Along(los: Option<Dir>, d: Dir) {
    los == None || los == Some(d)
  }

  function MapArea(v: View, g: Picture, vnum: int, c: Cell, los: Option<Dir>): Picture
    requires ViewOk(v) && vnum in v.rooms && (los.Some? ==> Compass(los.value))
    decreases if los == None then 1 else 0, Distance(v, c, los), 1, 0
  {
    if At(g, c) < 0 then g
    else MapExits(v, Enter(g, c, v.rooms[vnum].sector), vnum, c, los, 0)
  }

  /** The loop over the room's exits from the i-th on. */
  function MapExits(v: View, g: Picture, vnum: int, c: Cell, los: Option<Dir>,
                    i: nat): Picture
    requires ViewOk(v) && vnum in v.rooms && (los.Some? ==> Compass(los.value)) && i <= |v.rooms[vnum].exits|
    decreases if los == None then 1 else 0, Distance(v, c, los), 0, |v.rooms[vnum].exits| - i
  {
    if i == |v.rooms[vnum].exits| then g
    else
      var door := v.rooms[vnum].exits[i];
      if !Compass(door.vdir) then MapExits(v, g, vnum, c, los, i + 1)
      else if !Inside(v, c) then g
      else if !HasReturn(v, door, vnum) then Draw(g, c, SECT_BLOCKED)
      else MapExits(v, MapDoor(v, g, vnum, c, los, door), vnum, c, los, i + 1)
  }

  /** One exit of a room inside the window: its door mark, then the room behind it when the sight goes through. */
  function MapDoor(v: View, g: Picture, vnum: int, c: Cell, los: Option<Dir>,
                   door: Exit): Picture
    requires ViewOk(v) && (los.Some? ==> Compass(los.value))
    requires Compass(door.vdir) && Inside(v, c) && HasReturn(v, door, vnum)
    decreases if los == None then 1 else 0, Distance(v, c, los), 0, 0
  {
    if !Shown(v, door) then g
    else
      var marked := Draw(g, Move(c, door.vdir, 1), DoorType(door));
      var next := Move(c, door.vdir, 2);
      if Passable(door) && Along(los, door.vdir) && At(marked, next) == SECT_UNSEEN
      then MapArea(v, marked, door.toRoom, next, Some(door.vdir))
      else marked
  }

  // ----- what one room contributes, exit by exit, without any picture

  /** The room seen through the first passable shown exit in direction `d` among the exits from i on. */
  function NextRoom(v: View, vnum: int, d: Dir, i: nat): (next: Option<int>)
    requires vnum in v.rooms && i <= |v.rooms[vnum].exits|
    ensures next.Some? ==> next.value in v.rooms
    decreases |v.rooms[vnum].exits| - i
  {
    if i == |v.rooms[vnum].exits| then None
    else
      var e := v.rooms[vnum].exits[i];
      if !Compass(e.vdir) then NextRoom(v, vnum, d, i + 1)
      else if !HasReturn(v, e, vnum) then None
      else if e.vdir == d && Shown(v, e) && Passable(e) then Some(e.toRoom)
      else NextRoom(v, vnum, d, i + 1)
  }

  /** The door mark that the exits from i on leave on the side `d` of the room. */
  function LastDoor(v: View, vnum: int, d: Dir, i: nat): (mark: Option<int>)
    requires vnum in v.rooms && i <= |v.rooms[vnum].exits|
    ensures mark.Some? ==> mark.value < 0
    decreases |v.rooms[vnum].exits| - i
  {
    if i == |v.rooms[vnum].exits| then None
    else
      var e := v.rooms[vnum].exits[i];
      if !Compass(e.vdir) then LastDoor(v, vnum, d, i + 1)
      else if !HasReturn(v, e, vnum) then None
      else
        var later := LastDoor(v, vnum, d, i + 1);
        if later == None && e.vdir == d && Shown(v, e) then Some(DoorType(e)) else later
  }

  /** Some compass exit from i on has no way back. */
  predicate OneWay(v: View, vnum: int, i: nat)
    requires vnum in v.rooms && i <= |v.rooms[vnum].exits|
    decreases |v.rooms[vnum].exits| - i
  {
    i < |v.rooms[vnum].exits| &&
    ((Compass(v.rooms[vnum].exits[i].vdir) && !HasReturn(v, v.rooms[vnum].exits[i], vnum)) || OneWay(v, vnum, i + 1))
  }

  /** The mark of a room on the finished map. */
  function RoomMark(v: View, vnum: int, inside: bool): int
    requires vnum in v.rooms
  {
    if inside && OneWay(v, vnum, 0) then SECT_BLOCKED else v.rooms[vnum].sector
  }

  // ----- one line of sight

  /** `q` is one of the room cells that a line of sight from `c` towards `d` runs over. */
  predicate Ahead(q: Cell, c: Cell, d: Dir) {
    match d
    case North => q.y == c.y && q.x <= c.x && (c.x - q.x) % 2 == 0
    case East => q.x == c.x && q.y >= c.y && (q.y - c.y) % 2 == 0
    case South => q.y == c.y && q.x >= c.x && (q.x - c.x) % 2 == 0
    case West => q.x == c.x && q.y <= c.y && (c.y - q.y) % 2 == 0
    case _ => false
  }

  /** The room that a line of sight from room `vnum` at `c` towards `d` shows at `q`. */
  function RoomAt(v: View, vnum: int, c: Cell, d: Dir, q: Cell): (r: Option<int>)
    requires vnum in v.rooms && Compass(d)
    ensures r.Some? ==> r.value in v.rooms
    decreases Distance(v, c, Some(d))
  {
    if q == c then Some(vnum)
    else if !Inside(v, c) then None
    else
      var next := NextRoom(v, vnum, d, 0);
      if next == None then None else RoomAt(v, next.value, Move(c, d, 2), d, q)
  }

  function MarkAt(v: View, vnum: int, c: Cell, d: Dir, q: Cell): int
    requires vnum in v.rooms && Compass(d)
  {
    var r := RoomAt(v, vnum, c, d, q);
    if r == None then SECT_UNSEEN else RoomMark(v, r.value, Inside(v, q))
  }

  /** The line of sight shows, next to `q` and facing it with a door marked `mark`, a room inside the window. */
  predicate Faced(v: View, vnum: int, c: Cell, d: Dir, q: Cell, mark: int)
    requires vnum in v.rooms && Compass(d)
  {
    exists s :: Compass(s) && FacedFrom(v, vnum, c, d, q, s, mark)
  }

  predicate FacedFrom(v: View, vnum: int, c: Cell, d: Dir, q: Cell, s: Dir, mark: int)
    requires vnum in v.rooms && Compass(d)
  {
    var p := Move(q, s, -1);
    Ahead(p, c, d) && Inside(v, p) &&
    var r := RoomAt(v, vnum, c, d, p);
    r.Some? && LastDoor(v, r.value, s, 0) == Some(mark)
  }

  lemma MoveFacts(c: Cell, d: Dir)
    requires Compass(d)
    ensures Ahead(c, c, d) && Ahead(Move(c, d, 2), c, d) && !Ahead(c, Move(c, d, 2), d)
    ensures Move(c, d, 2) != c && Move(c, d, 1) != c && Move(c, d, 1) != Move(c, d, 2)
    ensures forall q :: Ahead(q, c, d) <==> q == c || Ahead(q, Move(c, d, 2), d)
    ensures forall q, s :: Compass(s) && Ahead(q, Move(c, d, 2), d) ==> q != Move(c, s, 1) && q != c
    ensures forall q, s :: Compass(s) && s != d ==> !(Ahead(q, Move(c, d, 2), d) && Ahead(q, Move(c, s, 2), s))
  {
  }

  /** A line of sight shows a room only at cells ahead of it. */
  lemma {:induction false} RoomAtAhead(v: View, vnum: int, c: Cell, d: Dir, q: Cell)
    requires vnum in v.rooms && Compass(d) && RoomAt(v, vnum, c, d, q).Some?
    ensures Ahead(q, c, d)
    decreases Distance(v, c, Some(d))
  {
    MoveFacts(c, d);
    if q != c {
      RoomAtAhead(v, NextRoom(v, vnum, d, 0).value, Move(c, d, 2), d, q);
    }
  }
}
