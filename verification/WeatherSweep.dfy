/**
 * One sweep of WeatherMap.CalculateCellToCellChanges as a function on two grids of readings, the cells and
 * their deltas, and the balance of heat and moisture over the whole sweep.
 *
 * Every random draw is named by the place in the sweep that asks for it and answered by an arbitrary oracle.
 */
module WeatherSweep {
  import opened Basics
  import opened Wrappers

  datatype Pos = Pos(x: int, y: int)

  /** The numeric fields of a WeatherCell. */
  datatype Reading = Reading(temperature: int, pressure: int, cloudCover: int, humidity: int, precipitation: int,
                             energy: int, windSpeedX: int, windSpeedY: int)

  const NOTHING := Reading(0, 0, 0, 0, 0, 0, 0, 0)

  type Grid = map<Pos, Reading>

  datatype Weather = Weather(cells: Grid, deltas: Grid)

  datatype Draw =
    | PickX | PickY | PickField | PickChange
    | DayNight(p: Pos) | Rain(p: Pos) | Precip(p: Pos) | Cloud(p: Pos) | Pressure(p: Pos)
    | Energy(p: Pos, dx: int, dy: int)

  /**
   * The map's extent, whether its grids are arrays of arrays, whether it is day, and the answers of the dice. Looking
   * up a cell asks the grid for its second extent, which an array of arrays answers with an exception.
   */
  datatype Sky = Sky(width: nat, height: nat, jagged: bool, daylight: bool, roll: Draw -> int)

  predicate OnMap(s: Sky, p: Pos) {
    0 <= p.x < s.width && 0 <= p.y < s.height
  }

  function At(g: Grid, p: Pos): Reading {
    if p in g then g[p] else NOTHING
  }

  function Plus(a: Reading, b: Reading): Reading {
    Reading(a.temperature + b.temperature, a.pressure + b.pressure, a.cloudCover + b.cloudCover,
            a.humidity + b.humidity, a.precipitation + b.precipitation, a.energy + b.energy,
            a.windSpeedX + b.windSpeedX, a.windSpeedY + b.windSpeedY)
  }

  function Bump(g: Grid, p: Pos, change: Reading): Grid {
    g[p := Plus(At(g, p), change)]
  }

  // ----- one cell, before its neighbours

  /** PickAndUpdateRandomCell; dice that show none of the eight fields change nothing. */
  function PickedChange(s: Sky): Reading {
    var change := s.roll(PickChange);
    match s.roll(PickField)
    case 1 => NOTHING.(cloudCover := change)
    case 2 => NOTHING.(energy := change)
    case 3 => NOTHING.(humidity := change)
    case 4 => NOTHING.(precipitation := change)
    case 5 => NOTHING.(pressure := change)
    case 6 => NOTHING.(temperature := change)
    case 7 => NOTHING.(windSpeedX := change)
    case 8 => NOTHING.(windSpeedY := change)
    case _ => NOTHING
  }

  function DayNightChange(s: Sky, cell: Reading, p: Pos): int {
    s.roll(DayNight(p)) +
    if s.daylight then (if Div(cell.cloudCover, 10) > 5 then -1 else 1)
    else (if Div(cell.cloudCover, 10) > 5 then 2 else -3)
  }

  function RainChange(s: Sky, cell: Reading, p: Pos): int {
    if cell.precipitation > 40 then 0 - Div(cell.precipitation, 20) else s.roll(Rain(p))
  }

  function PrecipitationChange(s: Sky, cell: Reading, p: Pos): int {
    var mean := Div(cell.humidity + cell.pressure, 2);
    if mean >= 60 then Div(cell.humidity, 10)
    else if mean > 40 then s.roll(Precip(p))
    else 0 - Div(cell.humidity, 5)
  }

  /** Uses the cell after its own precipitation has changed. */
  function CloudChange(s: Sky, cell: Reading, p: Pos): int {
    var mean := Div(cell.humidity + cell.precipitation, 2);
    if mean >= 60 then 0 - Div(cell.humidity, 10)
    else if mean > 40 then s.roll(Cloud(p))
    else Div(cell.humidity, 5)
  }

  function Own(s: Sky, w: Weather, p: Pos): Weather {
    var cell := At(w.cells, p);
    var wetter := Bump(w.cells, p, NOTHING.(precipitation := PrecipitationChange(s, cell, p)));
    var own := NOTHING.(temperature := DayNightChange(s, cell, p), humidity := RainChange(s, cell, p),
                        cloudCover := CloudChange(s, At(wetter, p), p));
    Weather(wetter, Bump(w.deltas, p, own))
  }

  // ----- one pair of neighbours

  predicate Blows(cell: Reading, dx: int, dy: int) {
    || (cell.windSpeedX < 0 && dx < 0)
    || (cell.windSpeedX > 0 && dx > 0)
    || (cell.windSpeedY < 0 && dy < 0)
    || (cell.windSpeedY > 0 && dy > 0)
  }

  /** What the wind carries from the cell to the neighbour. */
  function Carried(cell: Reading, neighbour: Reading, dx: int, dy: int): Reading {
    if Blows(cell, dx, dy)
    then NOTHING.(temperature := Div(cell.temperature + neighbour.temperature, 16),
                  humidity := Div(cell.humidity - neighbour.humidity, 16))
    else NOTHING
  }

  function Kept(s: Sky, cell: Reading, neighbour: Reading, p: Pos, dx: int, dy: int): Reading {
    var carried := Carried(cell, neighbour, dx, dy);
    var wind := Div(cell.pressure - neighbour.pressure, 4);
    NOTHING.(temperature := 0 - carried.temperature, humidity := 0 - carried.humidity,
             windSpeedX := wind * dx, windSpeedY := wind * dy, energy := s.roll(Energy(p, dx, dy)))
  }

  function Exchange(s: Sky, w: Weather, p: Pos, dx: int, dy: int): Weather {
    var n := Pos(p.x + dx, p.y + dy);
    var cell, neighbour := At(w.cells, p), At(w.cells, n);
    w.(deltas := Bump(Bump(w.deltas, n, Carried(cell, neighbour, dx, dy)), p, Kept(s, cell, neighbour, p, dx, dy)))
  }

  predicate IsNeighbour(s: Sky, p: Pos, dx: int, dy: int) {
    !(dx == 0 && dy == 0) && OnMap(s, Pos(p.x + dx, p.y + dy))
  }

  /** The running state of the loops over the neighbours. */
  datatype Around = Around(weather: Weather, totalPressure: int, numPressureCells: int)

  function Meet(s: Sky, a: Around, p: Pos, dx: int, dy: int): Around {
    if IsNeighbour(s, p, dx, dy)
    then Around(Exchange(s, a.weather, p, dx, dy),
                a.totalPressure + At(a.weather.cells, Pos(p.x + dx, p.y + dy)).pressure,
                a.numPressureCells + 1)
    else a
  }

  /** The neighbours from (dx, dy) on, row by row. */
  function MeetFrom(s: Sky, a: Around, p: Pos, dx: int, dy: int): Around
    requires -1 <= dx <= 2 && -1 <= dy <= 2
    decreases 2 - dy, 2 - dx
  {
    if dy > 1 then a
    else if dx > 1 then MeetFrom(s, a, p, -1, dy + 1)
    else MeetFrom(s, Meet(s, a, p, dx, dy), p, dx + 1, dy)
  }

  lemma MeetUnfolds(s: Sky, a: Around, p: Pos, dx: int, dy: int)
    requires -1 <= dx <= 2 && -1 <= dy <= 2
    ensures MeetFrom(s, a, p, dx, dy) ==
            if dy > 1 then a
            else if dx > 1 then MeetFrom(s, a, p, -1, dy + 1)
            else MeetFrom(s, Meet(s, a, p, dx, dy), p, dx + 1, dy)
  {
  }

  // ----- the pressure of one cell, and the whole cell

  function PressureChange(s: Sky, cell: Reading, p: Pos): int {
    if cell.precipitation >= 70 then 0 - Div(cell.pressure, 2)
    else if cell.pressure < 70 && cell.precipitation > 30 then s.roll(Pressure(p))
    else Div(cell.pressure, 2)
  }

  /** Everything the sweep does for one cell; a single neighbour makes the mean pressure divide by zero. */
  function VisitCell(s: Sky, w: Weather, p: Pos): Outcome<Weather> {
    var own := Own(s, w, p);
    var around := MeetFrom(s, Around(own, At(own.cells, p).pressure, -1), p, -1, -1);
    if around.numPressureCells == 0 then Thrown
    else
      var w' := around.weather;
      var cell := At(w'.cells, p);
      var pressure := Div(around.totalPressure, around.numPressureCells) - cell.pressure + PressureChange(s, cell, p);
      Returned(w'.(deltas := w'.deltas[p := At(w'.deltas, p).(pressure := pressure)]))
  }

  /** The cells from (x, y) on, row by row. */
  function SweepFrom(s: Sky, w: Weather, x: nat, y: nat): Outcome<Weather>
    requires x <= s.width && y <= s.height
    decreases s.height - y, s.width - x
  {
    if y == s.height then Returned(w)
    else if x == s.width then SweepFrom(s, w, 0, y + 1)
    else match VisitCell(s, w, Pos(x, y))
      case Thrown => Thrown
      case Returned(w') => SweepFrom(s, w', x + 1, y)
  }

  lemma SweepUnfolds(s: Sky, w: Weather, x: nat, y: nat)
    requires x <= s.width && y <= s.height
    ensures SweepFrom(s, w, x, y) ==
            if y == s.height then Returned(w)
            else if x == s.width then SweepFrom(s, w, 0, y + 1)
            else match VisitCell(s, w, Pos(x, y))
              case Thrown => Thrown
              case Returned(w') => SweepFrom(s, w', x + 1, y)
  {
  }

  /** The cells when the sweep sets out. */
  function Picked(s: Sky, cells: Grid): Grid {
    Bump(cells, Pos(s.roll(PickX), s.roll(PickY)), PickedChange(s))
  }

  /** The whole of CalculateCellToCellChanges; it starts by looking up a cell, and without cells there is none. */
  function Sweep(s: Sky, w: Weather): Outcome<Weather> {
    if s.jagged || s.width == 0 || s.height == 0 then Thrown
    else SweepFrom(s, w.(cells := Picked(s, w.cells)), 0, 0)
  }

  // ----- totals over the map

  datatype Quantity = Heat | Moisture

  function Amount(q: Quantity, r: Reading): int {
    match q
    case Heat => r.temperature
    case Moisture => r.humidity
  }

  /** The total over the cells from (x, y) on, row by row. */
  function Total(s: Sky, q: Quantity, g: Grid, x: nat, y: nat): int
    requires x <= s.width && y <= s.height
    decreases s.height - y, s.width - x
  {
    if y == s.height then 0
    else if x == s.width then Total(s, q, g, 0, y + 1)
    else Amount(q, At(g, Pos(x, y))) + Total(s, q, g, x + 1, y)
  }

  /** The day/night or the precipitation adjustment of one cell. */
  function Adjustment(s: Sky, q: Quantity, cell: Reading, p: Pos): int {
    match q
    case Heat => DayNightChange(s, cell, p)
    case Moisture => RainChange(s, cell, p)
  }

  /** The adjustments of the cells from (x, y) on. */
  function Adjustments(s: Sky, q: Quantity, cells: Grid, x: nat, y: nat): int
    requires x <= s.width && y <= s.height
    decreases s.height - y, s.width - x
  {
    if y == s.height then 0
    else if x == s.width then Adjustments(s, q, cells, 0, y + 1)
    else Adjustment(s, q, At(cells, Pos(x, y)), Pos(x, y)) + Adjustments(s, q, cells, x + 1, y)
  }

  /** `p` comes at or after (x, y) in the order of the sweep. */
  predicate FromOn(p: Pos, x: int, y: int) {
    p.y > y || (p.y == y && p.x >= x)
  }

  lemma {:induction false} TotalBump(s: Sky, q: Quantity, g: Grid, p: Pos, change: Reading, x: nat, y: nat)
    requires OnMap(s, p) && x <= s.width && y <= s.height
    ensures Total(s, q, Bump(g, p, change), x, y) ==
            Total(s, q, g, x, y) + if FromOn(p, x, y) then Amount(q, change) else 0
    decreases s.height - y, s.width - x
  {
    if y < s.height {
      if x == s.width {
        TotalBump(s, q, g, p, change, 0, y + 1);
      } else {
        TotalBump(s, q, g, p, change, x + 1, y);
      }
    }
  }

  /** Wind carries heat and moisture from one cell to another and leaves the totals alone. */
  lemma ExchangeConserves(s: Sky, q: Quantity, w: Weather, p: Pos, dx: int, dy: int)
    requires OnMap(s, p) && IsNeighbour(s, p, dx, dy)
    ensures Total(s, q, Exchange(s, w, p, dx, dy).deltas, 0, 0) == Total(s, q, w.deltas, 0, 0)
  {
    hide Div, Total, Carried, Kept, Bump, Amount;
    var n := Pos(p.x + dx, p.y + dy);
    var cell, neighbour := At(w.cells, p), At(w.cells, n);
    var carried, kept := Carried(cell, neighbour, dx, dy), Kept(s, cell, neighbour, p, dx, dy);
    TotalBump(s, q, w.deltas, n, carried, 0, 0);
    TotalBump(s, q, Bump(w.deltas, n, carried), p, kept, 0, 0);
    WhatIsCarriedIsLost(s, q, cell, neighbour, p, dx, dy);
  }

  lemma WhatIsCarriedIsLost(s: Sky, q: Quantity, cell: Reading, neighbour: Reading, p: Pos, dx: int, dy: int)
    ensures Amount(q, Carried(cell, neighbour, dx, dy)) + Amount(q, Kept(s, cell, neighbour, p, dx, dy)) == 0
  {
    hide Div;
  }

  lemma {:induction false} MeetConserves(s: Sky, q: Quantity, a: Around, p: Pos, dx: int, dy: int)
    requires OnMap(s, p) && -1 <= dx <= 2 && -1 <= dy <= 2
    ensures var after := MeetFrom(s, a, p, dx, dy);
      && after.weather.cells == a.weather.cells
      && Total(s, q, after.weather.deltas, 0, 0) == Total(s, q, a.weather.deltas, 0, 0)
    decreases 2 - dy, 2 - dx
  {
    hide Exchange, Total;
    if dy <= 1 {
      if dx > 1 {
        MeetConserves(s, q, a, p, -1, dy + 1);
      } else {
        if IsNeighbour(s, p, dx, dy) {
          ExchangeConserves(s, q, a.weather, p, dx, dy);
          ExchangeKeepsCells(s, a.weather, p, dx, dy);
        }
        MeetConserves(s, q, Meet(s, a, p, dx, dy), p, dx + 1, dy);
      }
    }
  }

  lemma ExchangeKeepsCells(s: Sky, w: Weather, p: Pos, dx: int, dy: int)
    ensures Exchange(s, w, p, dx, dy).cells == w.cells
  {
  }

  lemma {:induction false} TotalSetPressure(s: Sky, q: Quantity, g: Grid, p: Pos, pressure: int, x: nat, y: nat)
    requires x <= s.width && y <= s.height
    ensures Total(s, q, g[p := At(g, p).(pressure := pressure)], x, y) == Total(s, q, g, x, y)
    decreases s.height - y, s.width - x
  {
    if y < s.height {
      if x == s.width {
        TotalSetPressure(s, q, g, p, pressure, 0, y + 1);
      } else {
        TotalSetPressure(s, q, g, p, pressure, x + 1, y);
      }
    }
  }

  /** Visiting a cell adds exactly its own adjustment, and changes no cell but that one. */
  lemma VisitBalance(s: Sky, q: Quantity, w: Weather, p: Pos)
    requires OnMap(s, p) && VisitCell(s, w, p).Returned?
    ensures var w' := VisitCell(s, w, p).value;
      && Total(s, q, w'.deltas, 0, 0) == Total(s, q, w.deltas, 0, 0) + Adjustment(s, q, At(w.cells, p), p)
      && forall n :: n != p ==> At(w'.cells, n) == At(w.cells, n)
  {
    hide DayNightChange, RainChange, CloudChange, PrecipitationChange, PressureChange, Div, MeetFrom, Total;
    var cell, own := At(w.cells, p), Own(s, w, p);
    TotalBump(s, q, w.deltas, p, NOTHING.(temperature := DayNightChange(s, cell, p), humidity := RainChange(s, cell, p),
              cloudCover := CloudChange(s, At(own.cells, p), p)), 0, 0);
    var a := Around(own, At(own.cells, p).pressure, -1);
    MeetConserves(s, q, a, p, -1, -1);
    var w' := MeetFrom(s, a, p, -1, -1).weather;
    TotalSetPressure(s, q, w'.deltas, p, At(VisitCell(s, w, p).value.deltas, p).pressure, 0, 0);
  }

  lemma {:induction false} AdjustmentsOf(s: Sky, q: Quantity, a: Grid, b: Grid, x: nat, y: nat)
    requires x <= s.width && y <= s.height && forall p :: FromOn(p, x, y) ==> At(a, p) == At(b, p)
    ensures Adjustments(s, q, a, x, y) == Adjustments(s, q, b, x, y)
    decreases s.height - y, s.width - x
  {
    if y < s.height {
      if x == s.width {
        AdjustmentsOf(s, q, a, b, 0, y + 1);
      } else {
        assert FromOn(Pos(x, y), x, y);
        AdjustmentsOf(s, q, a, b, x + 1, y);
      }
    }
  }

  lemma {:induction false} SweepBalance(s: Sky, q: Quantity, w: Weather, x: nat, y: nat)
    requires x <= s.width && y <= s.height && SweepFrom(s, w, x, y).Returned?
    ensures Total(s, q, SweepFrom(s, w, x, y).value.deltas, 0, 0) ==
            Total(s, q, w.deltas, 0, 0) + Adjustments(s, q, w.cells, x, y)
    decreases s.height - y, s.width - x
  {
    hide VisitCell, Total, Adjustment;
    if y < s.height {
      if x == s.width {
        SweepBalance(s, q, w, 0, y + 1);
      } else {
        VisitBalance(s, q, w, Pos(x, y));
        var w' := VisitCell(s, w, Pos(x, y)).value;
        AdjustmentsOf(s, q, w.cells, w'.cells, x + 1, y);
        SweepBalance(s, q, w', x + 1, y);
      }
    }
  }

  /**
   * Over the whole sweep the total heat in the deltas changes only by the day/night adjustments, and the total
   * moisture only by the precipitation adjustments, whatever the wind does.
   */
  lemma SweepConserves(s: Sky, q: Quantity, w: Weather)
    requires Sweep(s, w).Returned?
    ensures var picked := Picked(s, w.cells);
      Total(s, q, Sweep(s, w).value.deltas, 0, 0) == Total(s, q, w.deltas, 0, 0) + Adjustments(s, q, picked, 0, 0)
  {
    SweepBalance(s, q, w.(cells := Picked(s, w.cells)), 0, 0);
  }

  // ----- when the sweep reaches its end

  /** How many of the positions i - 1, i, i + 1 lie on a side of the given length. */
  function Abreast(i: int, length: nat): nat {
    (if 0 <= i - 1 < length then 1 else 0) + (if 0 <= i < length then 1 else 0) + (if 0 <= i + 1 < length then 1 else 0)
  }

  function Neighbours(s: Sky, p: Pos): int {
    Abreast(p.x, s.width) * Abreast(p.y, s.height) - 1
  }

  lemma ThreeRows(s: Sky, p: Pos)
    requires OnMap(s, p)
    ensures var perRow := Abreast(p.x, s.width);
      Neighbours(s, p) == (if 0 <= p.y - 1 then perRow else 0) + perRow - 1 + (if p.y + 1 < s.height then perRow else 0)
  {
  }

  /** The pressure at a position, or nothing beside the map. */
  function PressureAt(s: Sky, cells: Grid, n: Pos): int {
    if OnMap(s, n) then At(cells, n).pressure else 0
  }

  function RowPressure(s: Sky, cells: Grid, p: Pos, dy: int): int {
    PressureAt(s, cells, Pos(p.x - 1, p.y + dy)) + PressureAt(s, cells, Pos(p.x, p.y + dy))
    + PressureAt(s, cells, Pos(p.x + 1, p.y + dy))
  }

  /** The pressure of a cell and of all its neighbours. */
  function BlockPressure(s: Sky, cells: Grid, p: Pos): int {
    RowPressure(s, cells, p, -1) + RowPressure(s, cells, p, 0) + RowPressure(s, cells, p, 1)
  }

  lemma NoRowsLeft(s: Sky, a: Around, p: Pos)
    ensures MeetFrom(s, a, p, -1, 2) == a
  {
  }

  lemma NeighbourCount(s: Sky, a: Around, p: Pos)
    requires OnMap(s, p)
    ensures MeetFrom(s, a, p, -1, -1).numPressureCells ==
            a.numPressureCells + Neighbours(s, p)
    ensures MeetFrom(s, a, p, -1, -1).totalPressure ==
            a.totalPressure + BlockPressure(s, a.weather.cells, p) - At(a.weather.cells, p).pressure
  {
    hide MeetFrom, Abreast, Neighbours, RowPressure;
    ThreeRows(s, p);
    var b := RowCount(s, a, p, -1);
    var c := RowCount(s, b, p, 0);
    var d := RowCount(s, c, p, 1);
    NoRowsLeft(s, d, p);
  }

  lemma RowCount(s: Sky, a: Around, p: Pos, dy: int) returns (b: Around)
    requires OnMap(s, p) && -1 <= dy <= 1
    ensures MeetFrom(s, a, p, -1, dy) == MeetFrom(s, b, p, -1, dy + 1)
    ensures b.weather.cells == a.weather.cells
    ensures b.totalPressure == a.totalPressure + RowPressure(s, a.weather.cells, p, dy)
                               - (if dy == 0 then At(a.weather.cells, p).pressure else 0)
    ensures b.numPressureCells == a.numPressureCells +
            if 0 <= p.y + dy < s.height then Abreast(p.x, s.width) - (if dy == 0 then 1 else 0) else 0
  {
    hide Exchange;
    var b1 := Meet(s, a, p, -1, dy);
    var b2 := Meet(s, b1, p, 0, dy);
    b := Meet(s, b2, p, 1, dy);
    ExchangeKeepsCells(s, a.weather, p, -1, dy);
    ExchangeKeepsCells(s, b1.weather, p, 0, dy);
    ExchangeKeepsCells(s, b2.weather, p, 1, dy);
    assert MeetFrom(s, a, p, -1, dy) == MeetFrom(s, b1, p, 0, dy);
    assert MeetFrom(s, b1, p, 0, dy) == MeetFrom(s, b2, p, 1, dy);
    assert MeetFrom(s, b2, p, 1, dy) == MeetFrom(s, b, p, 2, dy);
  }

  lemma VisitCompletes(s: Sky, w: Weather, p: Pos)
    requires OnMap(s, p)
    ensures VisitCell(s, w, p).Returned? <==> Neighbours(s, p) != 1
  {
    hide MeetFrom, Neighbours, Own, PressureChange, Div;
    var own := Own(s, w, p);
    NeighbourCount(s, Around(own, At(own.cells, p).pressure, -1), p);
  }

  /** The pressure delta of a cell: the pressure of its block is divided by the number of its neighbours less one. */
  lemma VisitPressure(s: Sky, w: Weather, p: Pos)
    requires OnMap(s, p) && VisitCell(s, w, p).Returned?
    ensures Neighbours(s, p) != 1
    ensures At(VisitCell(s, w, p).value.deltas, p).pressure ==
            Div(BlockPressure(s, w.cells, p), Neighbours(s, p) - 1) - At(w.cells, p).pressure
            + PressureChange(s, At(Own(s, w, p).cells, p), p)
  {
    hide MeetFrom, Neighbours, BlockPressure, PressureChange, Div;
    VisitCompletes(s, w, p);
    var own := Own(s, w, p);
    NeighbourCount(s, Around(own, At(own.cells, p).pressure, -1), p);
    MeetConserves(s, Heat, Around(own, At(own.cells, p).pressure, -1), p, -1, -1);
    SamePressures(s, w, p);
  }

  lemma SamePressures(s: Sky, w: Weather, p: Pos)
    ensures BlockPressure(s, Own(s, w, p).cells, p) == BlockPressure(s, w.cells, p)
    ensures At(Own(s, w, p).cells, p).pressure == At(w.cells, p).pressure
  {
    hide PrecipitationChange;
  }

  // ----- pressure over the whole sweep

  /** The cell after its own precipitation has changed. */
  function Wetter(s: Sky, cell: Reading, p: Pos): Reading {
    Plus(cell, NOTHING.(precipitation := PrecipitationChange(s, cell, p)))
  }

  /** The pressure delta that a cell is given, from the cells alone. */
  function PressureDelta(s: Sky, cells: Grid, p: Pos): int
    requires Neighbours(s, p) != 1
  {
    Div(BlockPressure(s, cells, p), Neighbours(s, p) - 1) - At(cells, p).pressure
    + PressureChange(s, Wetter(s, At(cells, p), p), p)
  }

  lemma ExchangeKeepsPressure(s: Sky, w: Weather, p: Pos, dx: int, dy: int, q: Pos)
    ensures At(Exchange(s, w, p, dx, dy).deltas, q).pressure == At(w.deltas, q).pressure
  {
    hide Bump, Carried, Kept;
    var n := Pos(p.x + dx, p.y + dy);
    var carried := Carried(At(w.cells, p), At(w.cells, n), dx, dy);
    var kept := Kept(s, At(w.cells, p), At(w.cells, n), p, dx, dy);
    NoPressureMoved(s, At(w.cells, p), At(w.cells, n), p, dx, dy);
    BumpKeepsPressure(w.deltas, n, carried, q);
    BumpKeepsPressure(Bump(w.deltas, n, carried), p, kept, q);
  }

  lemma BumpKeepsPressure(g: Grid, p: Pos, change: Reading, q: Pos)
    requires change.pressure == 0
    ensures At(Bump(g, p, change), q).pressure == At(g, q).pressure
  {
  }

  lemma NoPressureMoved(s: Sky, cell: Reading, neighbour: Reading, p: Pos, dx: int, dy: int)
    ensures Carried(cell, neighbour, dx, dy).pressure == Kept(s, cell, neighbour, p, dx, dy).pressure == 0
  {
    hide Div;
  }

  lemma {:induction false} MeetKeepsPressure(s: Sky, a: Around, p: Pos, dx: int, dy: int, q: Pos)
    requires -1 <= dx <= 2 && -1 <= dy <= 2
    ensures At(MeetFrom(s, a, p, dx, dy).weather.deltas, q).pressure == At(a.weather.deltas, q).pressure
    decreases 2 - dy, 2 - dx
  {
    hide Exchange, At, IsNeighbour;
    if dy <= 1 {
      if dx > 1 {
        MeetKeepsPressure(s, a, p, -1, dy + 1, q);
      } else {
        ExchangeKeepsPressure(s, a.weather, p, dx, dy, q);
        MeetKeepsPressure(s, Meet(s, a, p, dx, dy), p, dx + 1, dy, q);
      }
    }
  }

  /** A visit gives a pressure delta to its own cell only. */
  lemma VisitKeepsPressure(s: Sky, w: Weather, p: Pos, q: Pos)
    requires q != p && VisitCell(s, w, p).Returned?
    ensures At(VisitCell(s, w, p).value.deltas, q).pressure == At(w.deltas, q).pressure
  {
    hide MeetFrom, PressureChange, Div, DayNightChange, RainChange, CloudChange, PrecipitationChange;
    var own := Own(s, w, p);
    MeetKeepsPressure(s, Around(own, At(own.cells, p).pressure, -1), p, -1, -1, q);
  }

  /** What a visit leaves of the cells: only the visited one becomes wetter. */
  lemma VisitCells(s: Sky, w: Weather, p: Pos, n: Pos)
    requires OnMap(s, p) && VisitCell(s, w, p).Returned?
    ensures At(VisitCell(s, w, p).value.cells, n) == if n == p then Wetter(s, At(w.cells, p), p) else At(w.cells, n)
  {
    hide MeetFrom, PressureChange, Div, DayNightChange, RainChange, CloudChange, PrecipitationChange, Total;
    var own := Own(s, w, p);
    MeetConserves(s, Heat, Around(own, At(own.cells, p).pressure, -1), p, -1, -1);
  }

  /** The delta of a cell that has been visited depends on the other cells through their pressures only. */
  lemma SameDelta(s: Sky, a: Grid, b: Grid, q: Pos)
    requires Neighbours(s, q) != 1 && At(a, q) == At(b, q) && forall n :: At(a, n).pressure == At(b, n).pressure
    ensures PressureDelta(s, a, q) == PressureDelta(s, b, q)
  {
    hide Neighbours, Div, PressureChange, Wetter, At;
    assert BlockPressure(s, a, q) == BlockPressure(s, b, q);
  }

  lemma VisitedPressure(s: Sky, w: Weather, p: Pos)
    requires OnMap(s, p) && VisitCell(s, w, p).Returned?
    ensures Neighbours(s, p) != 1
    ensures At(VisitCell(s, w, p).value.deltas, p).pressure == PressureDelta(s, w.cells, p)
  {
    hide VisitCell, Neighbours, BlockPressure, PressureChange, Div, PrecipitationChange, DayNightChange, RainChange;
    VisitPressure(s, w, p);
  }

  /** Visits from (x, y) on leave the pressure deltas of the cells before alone, and settle those that they reach. */
  lemma {:induction false} SweepFromPressure(s: Sky, w: Weather, x: nat, y: nat, q: Pos)
    requires x <= s.width && y <= s.height && OnMap(s, q) && SweepFrom(s, w, x, y).Returned?
    ensures FromOn(q, x, y) ==> Neighbours(s, q) != 1
    ensures At(SweepFrom(s, w, x, y).value.deltas, q).pressure ==
            if FromOn(q, x, y) then PressureDelta(s, w.cells, q) else At(w.deltas, q).pressure
    decreases s.height - y, s.width - x
  {
    hide VisitCell, PressureDelta, Neighbours, At, Wetter;
    if y < s.height {
      if x == s.width {
        SweepFromPressure(s, w, 0, y + 1, q);
      } else {
        var p := Pos(x, y);
        var w' := VisitCell(s, w, p).value;
        SweepFromPressure(s, w', x + 1, y, q);
        if q == p {
          VisitedPressure(s, w, p);
        } else {
          VisitKeepsPressure(s, w, p, q);
          if FromOn(q, x, y) {
            VisitKeepsSurroundings(s, w, p, q);
          }
        }
      }
    }
  }

  lemma VisitKeepsSurroundings(s: Sky, w: Weather, p: Pos, q: Pos)
    requires OnMap(s, p) && q != p && Neighbours(s, q) != 1 && VisitCell(s, w, p).Returned?
    ensures PressureDelta(s, VisitCell(s, w, p).value.cells, q) == PressureDelta(s, w.cells, q)
  {
    hide VisitCell, PressureDelta, Neighbours, At;
    var w' := VisitCell(s, w, p).value;
    forall n
      ensures At(w'.cells, n).pressure == At(w.cells, n).pressure
      ensures n == q ==> At(w'.cells, n) == At(w.cells, n)
    {
      VisitCells(s, w, p, n);
      WetterPressure(s, At(w.cells, p), p);
    }
    SameDelta(s, w'.cells, w.cells, q);
  }

  lemma WetterPressure(s: Sky, cell: Reading, p: Pos)
    ensures Wetter(s, cell, p).pressure == cell.pressure
  {
    hide PrecipitationChange;
  }

  /** After the whole sweep every cell's pressure delta is the one that the cells at the outset give it. */
  lemma SweepPressure(s: Sky, w: Weather, q: Pos)
    requires OnMap(s, q) && Sweep(s, w).Returned?
    ensures Neighbours(s, q) != 1
    ensures At(Sweep(s, w).value.deltas, q).pressure == PressureDelta(s, Picked(s, w.cells), q)
  {
    hide PressureDelta, Neighbours, SweepFrom, At;
    SweepFromPressure(s, w.(cells := Picked(s, w.cells)), 0, 0, q);
  }

  // ----- calm weather

  /** The cell and its eight neighbours have the same pressure. */
  ghost predicate Calm(s: Sky, cells: Grid, p: Pos) {
    && 0 < p.x < s.width - 1 && 0 < p.y < s.height - 1
    && forall n: Pos :: p.x - 1 <= n.x <= p.x + 1 && p.y - 1 <= n.y <= p.y + 1 ==>
         At(cells, n).pressure == At(cells, p).pressure
  }

  /** The pressure change of the cell is left to the dice. */
  predicate LeftToDice(s: Sky, cell: Reading, p: Pos) {
    cell.pressure < 70 && 30 < Wetter(s, cell, p).precipitation < 70
  }

  /** Nine equal pressures are divided by seven. */
  lemma CalmDelta(s: Sky, cells: Grid, p: Pos)
    requires Calm(s, cells, p)
    ensures Neighbours(s, p) == 8
    ensures PressureDelta(s, cells, p) ==
            Div(9 * At(cells, p).pressure, 7) - At(cells, p).pressure + PressureChange(s, Wetter(s, At(cells, p), p), p)
  {
    hide Div, PressureChange, Wetter, At;
    assert BlockPressure(s, cells, p) == 9 * At(cells, p).pressure;
  }

  /**
   * A calm inner cell keeps its pressure exactly when that pressure lies between -1 and 1, or, where the change is left
   * to the dice, when these happen to make up for the quotient.
   */
  lemma CalmKeepsIff(s: Sky, cells: Grid, p: Pos)
    requires Calm(s, cells, p)
    ensures Neighbours(s, p) == 8
    ensures var cell := At(cells, p);
      PressureDelta(s, cells, p) == 0 <==>
      if LeftToDice(s, cell, p) then s.roll(Pressure(p)) == cell.pressure - Div(9 * cell.pressure, 7)
      else -1 <= cell.pressure <= 1
  {
    hide PressureDelta, Neighbours, At, PrecipitationChange, Calm;
    CalmDelta(s, cells, p);
  }

  /** One visit, and the whole sweep, let a calm inner cell drift unless the condition above is met. */
  lemma CalmCellDrifts(s: Sky, w: Weather, p: Pos)
    requires Calm(s, w.cells, p)
    ensures VisitCell(s, w, p).Returned?
    ensures var cell := At(w.cells, p);
      At(VisitCell(s, w, p).value.deltas, p).pressure == 0 <==>
      if LeftToDice(s, cell, p) then s.roll(Pressure(p)) == cell.pressure - Div(9 * cell.pressure, 7)
      else -1 <= cell.pressure <= 1
  {
    hide VisitCell, PressureDelta, Neighbours, At, LeftToDice, Div;
    CalmKeepsIff(s, w.cells, p);
    VisitCompletes(s, w, p);
    VisitedPressure(s, w, p);
  }

  lemma CalmMapDrifts(s: Sky, w: Weather, p: Pos)
    requires !s.jagged && Calm(s, Picked(s, w.cells), p)
    ensures Sweep(s, w).Returned?
    ensures var cell := At(Picked(s, w.cells), p);
      At(Sweep(s, w).value.deltas, p).pressure == 0 <==>
      if LeftToDice(s, cell, p) then s.roll(Pressure(p)) == cell.pressure - Div(9 * cell.pressure, 7)
      else -1 <= cell.pressure <= 1
  {
    hide Sweep, PressureDelta, Neighbours, At, LeftToDice, Div, Picked;
    CalmKeepsIff(s, Picked(s, w.cells), p);
    SweepCompletes(s, w);
    SweepPressure(s, w, p);
  }

  /** Dry air at pressure 3 gains half of that; nine times 3 divided by seven is 3 again. */
  lemma DryAtThree(s: Sky, p: Pos)
    ensures PressureChange(s, Wetter(s, NOTHING.(pressure := 3), p), p) == 1 && Div(9 * 3, 7) == 3
    ensures NOTHING.(pressure := 3).pressure == 3
  {
  }

  /** In dry air at pressure 3 all around, a cell is given a pressure delta of one. */
  lemma DriftsAtThree(s: Sky, w: Weather, p: Pos)
    requires Calm(s, w.cells, p) && At(w.cells, p) == NOTHING.(pressure := 3)
    ensures VisitCell(s, w, p).Returned? && At(VisitCell(s, w, p).value.deltas, p).pressure == 1
  {
    assert OnMap(s, p);
    hide *;
    CalmCellDrifts(s, w, p);
    VisitedPressure(s, w, p);
    CalmDelta(s, w.cells, p);
    DryAtThree(s, p);
  }

  /** Sides on which no cell has exactly one neighbour. */
  predicate Sweepable(width: nat, height: nat) {
    (width == 1 && height == 1) || (width >= 2 && height >= 2)
  }

  lemma {:induction false} SweepFromCompletes(s: Sky, w: Weather, x: nat, y: nat)
    requires x <= s.width && y <= s.height && Sweepable(s.width, s.height)
    ensures SweepFrom(s, w, x, y).Returned?
    decreases s.height - y, s.width - x
  {
    hide VisitCell;
    if y < s.height {
      if x == s.width {
        SweepFromCompletes(s, w, 0, y + 1);
      } else {
        VisitCompletes(s, w, Pos(x, y));
        if s.width >= 2 {
          assert Abreast(x, s.width) >= 2 && Abreast(y, s.height) >= 2;
          assert Abreast(x, s.width) * Abreast(y, s.height) >= 4;
        }
        SweepFromCompletes(s, VisitCell(s, w, Pos(x, y)).value, x + 1, y);
      }
    }
  }

  /**
   * The sweep ends without an exception exactly on rectangular grids of a single cell or of at least two rows and
   * columns, so never on the arrays of arrays that the program uses.
   */
  lemma SweepCompletes(s: Sky, w: Weather)
    ensures Sweep(s, w).Returned? <==> !s.jagged && Sweepable(s.width, s.height)
  {
    hide VisitCell, Abreast;
    if !s.jagged && s.width > 0 && s.height > 0 {
      var picked := w.(cells := Picked(s, w.cells));
      if Sweepable(s.width, s.height) {
        SweepFromCompletes(s, picked, 0, 0);
      } else {
        VisitCompletes(s, picked, Pos(0, 0));
        CornerOfALine(s.width, s.height);
      }
    }
  }

  /** The smallest map on which the sweep of rectangular grids ends in a division by zero. */
  lemma OneByTwo(s: Sky, w: Weather)
    requires s.width == 1 && s.height == 2
    ensures Sweep(s, w) == Thrown
  {
    hide Sweep;
    SweepCompletes(s, w);
  }

  lemma CornerOfALine(width: nat, height: nat)
    requires width > 0 && height > 0 && !Sweepable(width, height)
    ensures Abreast(0, width) * Abreast(0, height) == 2
  {
    assert width == 1 ==> Abreast(0, width) == 1 && Abreast(0, height) == 2;
    assert height == 1 ==> Abreast(0, height) == 1 && Abreast(0, width) == 2;
  }
}
