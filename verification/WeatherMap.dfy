/**
 * WeatherMap.cs as objects: a grid of cells and a grid of deltas, swept, cleared and applied in place.
 *
 * The program keeps its grids as arrays of arrays and asks them for a second extent whenever it looks up a cell
 * (WeatherMap.cs:71-77, 108-122), which is an exception on every map that has cells. The lookups of this model succeed:
 * its grids are rectangular. Only CalculateCellToCellChanges, which looks up its first cell before it changes anything,
 * is also told what happens to arrays of arrays.
 */
module WeatherGrids {
  import opened Basics
  import opened WeatherSweep

  /** A cell knows its own coordinates; a cell and its delta are two objects. */
  class WeatherCell {
    const pos: Pos
    const isDelta: bool
    var temperature: int
    var pressure: int
    var cloudCover: int
    var humidity: int
    var precipitation: int
    var energy: int
    var windSpeedX: int
    var windSpeedY: int

    constructor (pos: Pos, isDelta: bool)
      ensures this.pos == pos && this.isDelta == isDelta && Read() == NOTHING
    {
      this.pos, this.isDelta := pos, isDelta;
      temperature, pressure, cloudCover, humidity := 0, 0, 0, 0;
      precipitation, energy, windSpeedX, windSpeedY := 0, 0, 0, 0;
    }

    function Read(): Reading
      reads this
    {
      Reading(temperature, pressure, cloudCover, humidity, precipitation, energy, windSpeedX, windSpeedY)
    }

    /** The Change* setters, one amount for each field. */
    method Change(amount: Reading)
      modifies this
      ensures Read() == Plus(old(Read()), amount)
    {
      temperature := temperature + amount.temperature;
      pressure := pressure + amount.pressure;
      cloudCover := cloudCover + amount.cloudCover;
      humidity := humidity + amount.humidity;
      precipitation := precipitation + amount.precipitation;
      energy := energy + amount.energy;
      windSpeedX := windSpeedX + amount.windSpeedX;
      windSpeedY := windSpeedY + amount.windSpeedY;
    }

    method Set(r: Reading)
      modifies this
      ensures Read() == r
    {
      temperature, pressure, cloudCover, humidity := r.temperature, r.pressure, r.cloudCover, r.humidity;
      precipitation, energy, windSpeedX, windSpeedY := r.precipitation, r.energy, r.windSpeedX, r.windSpeedY;
    }
  }

  /** A cell after its delta has been applied, every field held in its range. */
  function Applied(cell: Reading, delta: Reading): Reading {
    Reading(Clamp(cell.temperature + delta.temperature, -30, 100),
            Clamp(cell.pressure + delta.pressure, 0, 100),
            Clamp(cell.cloudCover + delta.cloudCover, 0, 100),
            Clamp(cell.humidity + delta.humidity, 0, 100),
            Clamp(cell.precipitation + delta.precipitation, 0, 100),
            Clamp(cell.energy + delta.energy, 0, 100),
            Clamp(cell.windSpeedX + delta.windSpeedX, -100, 100),
            Clamp(cell.windSpeedY + delta.windSpeedY, -100, 100))
  }

  predicate InRange(r: Reading) {
    && -30 <= r.temperature <= 100 && 0 <= r.pressure <= 100 && 0 <= r.cloudCover <= 100 && 0 <= r.humidity <= 100
    && 0 <= r.precipitation <= 100 && 0 <= r.energy <= 100 && -100 <= r.windSpeedX <= 100 && -100 <= r.windSpeedY <= 100
  }

  class WeatherMap {
    const width: nat
    const height: nat
    const cells: array2<WeatherCell>
    const deltas: array2<WeatherCell>
    /** The objects of both grids. */
    ghost const objects: set<WeatherCell>

    ghost predicate Valid()
      reads this, cells, deltas
    {
      && cells.Length0 == deltas.Length0 == width && cells.Length1 == deltas.Length1 == height
      && cells != deltas
      && (forall x, y :: 0 <= x < width && 0 <= y < height ==> cells[x, y].pos == Pos(x, y) && !cells[x, y].isDelta)
      && (forall x, y :: 0 <= x < width && 0 <= y < height ==> deltas[x, y].pos == Pos(x, y) && deltas[x, y].isDelta)
      && (forall x, y :: 0 <= x < width && 0 <= y < height ==> cells[x, y] in objects && deltas[x, y] in objects)
    }

    /** Two grids of objects that know where they stand; the deltas are objects of their own. */
    constructor (width: nat, height: nat, cells: array2<WeatherCell>, deltas: array2<WeatherCell>)
      requires cells.Length0 == deltas.Length0 == width && cells.Length1 == deltas.Length1 == height
      requires cells != deltas
      requires forall x, y :: 0 <= x < width && 0 <= y < height ==> cells[x, y].pos == Pos(x, y) && !cells[x, y].isDelta
      requires forall x, y :: 0 <= x < width && 0 <= y < height ==>
        deltas[x, y].pos == Pos(x, y) && deltas[x, y].isDelta
      ensures Valid() && this.width == width && this.height == height && this.cells == cells && this.deltas == deltas
    {
      this.width, this.height, this.cells, this.deltas := width, height, cells, deltas;
      objects := (set x, y | 0 <= x < width && 0 <= y < height :: cells[x, y]) +
                 (set x, y | 0 <= x < width && 0 <= y < height :: deltas[x, y]);
    }

    /** The grids hold the readings of `w`. */
    ghost predicate Holds(w: Weather)
      requires Valid()
      reads this, cells, deltas, objects
    {
      && (forall x, y :: 0 <= x < width && 0 <= y < height ==> cells[x, y].Read() == At(w.cells, Pos(x, y)))
      && (forall x, y :: 0 <= x < width && 0 <= y < height ==> deltas[x, y].Read() == At(w.deltas, Pos(x, y)))
    }

    ghost predicate Under(s: Sky)
      reads this
    {
      s.width == width && s.height == height
    }

    method BumpCell(ghost w: Weather, x: int, y: int, amount: Reading)
      requires Valid() && Holds(w) && 0 <= x < width && 0 <= y < height
      modifies cells[x, y]
      ensures Holds(w.(cells := Bump(w.cells, Pos(x, y), amount)))
    {
      cells[x, y].Change(amount);
    }

    method BumpDelta(ghost w: Weather, x: int, y: int, amount: Reading)
      requires Valid() && Holds(w) && 0 <= x < width && 0 <= y < height
      modifies deltas[x, y]
      ensures Holds(w.(deltas := Bump(w.deltas, Pos(x, y), amount)))
    {
      deltas[x, y].Change(amount);
    }

    /** AdjustWindSpeedsBasedOnPressure and AdjustTemperatureAndHumidityWhenWindy for one neighbour. */
    method MeetNeighbour(s: Sky, ghost w: Weather, x: int, y: int, dx: int, dy: int)
      requires Valid() && Holds(w) && Under(s) && OnMap(s, Pos(x, y)) && IsNeighbour(s, Pos(x, y), dx, dy)
      modifies deltas[x, y], deltas[x + dx, y + dy]
      ensures Holds(Exchange(s, w, Pos(x, y), dx, dy))
    {
      hide Carried, Kept, Div, Plus, Bump;
      ghost var p, n := Pos(x, y), Pos(x + dx, y + dy);
      var cell, neighbour := cells[x, y].Read(), cells[x + dx, y + dy].Read();
      assert cell == At(w.cells, p) && neighbour == At(w.cells, n);
      hide Holds, At;
      var carried, kept := Carried(cell, neighbour, dx, dy), Kept(s, cell, neighbour, Pos(x, y), dx, dy);
      ghost var given := w.(deltas := Bump(w.deltas, n, carried));
      BumpDelta(w, x + dx, y + dy, carried);
      BumpDelta(given, x, y, kept);
      assert Exchange(s, w, p, dx, dy) == given.(deltas := Bump(given.deltas, p, kept));
    }

    method OwnChanges(s: Sky, ghost w: Weather, x: int, y: int)
      requires Valid() && Holds(w) && Under(s) && OnMap(s, Pos(x, y))
      modifies cells[x, y], deltas[x, y]
      ensures Holds(Own(s, w, Pos(x, y)))
    {
      hide DayNightChange, RainChange, PrecipitationChange, CloudChange, Div, Plus;
      var p := Pos(x, y);
      var cell := cells[x, y].Read();
      var rain := NOTHING.(temperature := DayNightChange(s, cell, p), humidity := RainChange(s, cell, p));
      var wetter := NOTHING.(precipitation := PrecipitationChange(s, cell, p));
      BumpCell(w, x, y, wetter);
      var clouded := rain.(cloudCover := CloudChange(s, cells[x, y].Read(), p));
      BumpDelta(w.(cells := Bump(w.cells, p, wetter)), x, y, clouded);
    }

    /** The body of the loops over the neighbours of one cell. */
    method MeetOne(s: Sky, ghost a: Around, x: int, y: int, dx: int, dy: int)
        returns (totalPressure: int, numPressureCells: int)
      requires Valid() && Holds(a.weather) && Under(s) && OnMap(s, Pos(x, y))
      modifies objects
      ensures Valid()
      ensures var met := Meet(s, a, Pos(x, y), dx, dy);
        && Holds(met.weather)
        && totalPressure == met.totalPressure - a.totalPressure
        && numPressureCells == met.numPressureCells - a.numPressureCells
    {
      hide Exchange;
      var nx, ny := x + dx, y + dy;
      if (dx == 0 && dy == 0) || nx < 0 || nx >= width || ny < 0 || ny >= height {
        return 0, 0;
      }
      totalPressure, numPressureCells := cells[nx, ny].pressure, 1;
      MeetNeighbour(s, a.weather, x, y, dx, dy);
    }

    /** The loops over the neighbours of one cell. */
    method MeetNeighbours(s: Sky, ghost w: Weather, x: int, y: int)
        returns (totalPressure: int, numPressureCells: int, ghost after: Weather)
      requires Valid() && Holds(w) && Under(s) && OnMap(s, Pos(x, y))
      modifies objects
      ensures Valid()
      ensures Holds(after)
      ensures Around(after, totalPressure, numPressureCells) ==
              MeetFrom(s, Around(w, At(w.cells, Pos(x, y)).pressure, -1), Pos(x, y), -1, -1)
    {
      totalPressure, numPressureCells := cells[x, y].pressure, -1;
      assert totalPressure == At(w.cells, Pos(x, y)).pressure;
      hide Meet, MeetFrom, Holds, IsNeighbour;
      ghost var p, a := Pos(x, y), Around(w, totalPressure, -1);
      ghost var goal := MeetFrom(s, a, p, -1, -1);
      var dy := -1;
      while dy <= 1
        invariant -1 <= dy <= 2 && Holds(a.weather) && MeetFrom(s, a, p, -1, dy) == goal
        invariant a.totalPressure == totalPressure && a.numPressureCells == numPressureCells
      {
        var dx := -1;
        while dx <= 1
          invariant -1 <= dx <= 2 && Holds(a.weather) && MeetFrom(s, a, p, dx, dy) == goal
          invariant a.totalPressure == totalPressure && a.numPressureCells == numPressureCells
        {
          var pressure, cell := MeetOne(s, a, x, y, dx, dy);
          totalPressure, numPressureCells := totalPressure + pressure, numPressureCells + cell;
          MeetUnfolds(s, a, p, dx, dy);
          a := Meet(s, a, p, dx, dy);
          dx := dx + 1;
        }
        MeetUnfolds(s, a, p, 2, dy);
        dy := dy + 1;
      }
      MeetUnfolds(s, a, p, -1, 2);
      after := a.weather;
    }

    method SetPressure(ghost w: Weather, x: int, y: int, pressure: int)
      requires Valid() && Holds(w) && 0 <= x < width && 0 <= y < height
      modifies deltas[x, y]
      ensures Holds(w.(deltas := w.deltas[Pos(x, y) := At(w.deltas, Pos(x, y)).(pressure := pressure)]))
    {
      deltas[x, y].pressure := pressure;
    }

    /** The body of the sweep for one cell; `ok` is false when the mean pressure divides by zero. */
    method Visit(s: Sky, ghost w: Weather, x: int, y: int) returns (ok: bool)
      requires Valid() && Holds(w) && Under(s) && OnMap(s, Pos(x, y))
      modifies objects
      ensures Valid()
      ensures ok == VisitCell(s, w, Pos(x, y)).Returned?
      ensures ok ==> Holds(VisitCell(s, w, Pos(x, y)).value)
    {
      hide Own, MeetFrom, PressureChange, Div;
      OwnChanges(s, w, x, y);
      var totalPressure, numPressureCells, after := MeetNeighbours(s, Own(s, w, Pos(x, y)), x, y);
      if numPressureCells == 0 {
        return false;
      }
      var cell := cells[x, y].Read();
      assert cell == At(after.cells, Pos(x, y));
      hide Holds, At;
      SetPressure(after, x, y,
                  Div(totalPressure, numPressureCells) - cell.pressure + PressureChange(s, cell, Pos(x, y)));
      return true;
    }

    method CalculateCellToCellChanges(s: Sky, ghost w: Weather) returns (ok: bool)
      requires Valid() && Holds(w) && Under(s)
      requires width > 0 && height > 0 ==> OnMap(s, Pos(s.roll(PickX), s.roll(PickY)))
      modifies objects
      ensures Valid()
      ensures ok == (!s.jagged && Sweepable(width, height)) == Sweep(s, w).Returned?
      ensures ok ==> Holds(Sweep(s, w).value)
    {
      hide VisitCell, PickedChange, Sweepable;
      SweepCompletes(s, w);
      if s.jagged || width == 0 || height == 0 {
        return false;
      }
      BumpCell(w, s.roll(PickX), s.roll(PickY), PickedChange(s));
      ghost var now := w.(cells := Picked(s, w.cells));
      ghost var goal := Sweep(s, w);
      assert SweepFrom(s, now, 0, 0) == goal;
      hide Holds, SweepFrom, Sweep;
      for y := 0 to height
        invariant Valid() && Holds(now) && SweepFrom(s, now, 0, y) == goal
      {
        for x := 0 to width
          invariant Valid() && Holds(now) && SweepFrom(s, now, x, y) == goal
        {
          SweepUnfolds(s, now, x, y);
          ok := Visit(s, now, x, y);
          if !ok {
            return;
          }
          now := VisitCell(s, now, Pos(x, y)).value;
        }
        SweepUnfolds(s, now, width, y);
      }
      SweepUnfolds(s, now, 0, height);
      return true;
    }

    /** Sets every delta back to nothing; ClearWeatherDeltas itself leaves the delta objects as they are. */
    method ClearWeatherDeltas(ghost w: Weather)
      requires Valid() && Holds(w)
      modifies objects
      ensures Valid()
      ensures Holds(Weather(w.cells, map[]))
    {
      for y := 0 to height
        invariant forall a, b :: 0 <= a < width && 0 <= b < height ==> cells[a, b].Read() == At(w.cells, Pos(a, b))
        invariant forall a, b :: 0 <= a < width && 0 <= b < y ==> deltas[a, b].Read() == NOTHING
      {
        for x := 0 to width
          invariant forall a, b :: 0 <= a < width && 0 <= b < height ==> cells[a, b].Read() == At(w.cells, Pos(a, b))
          invariant forall a, b :: 0 <= a < width && 0 <= b < y ==> deltas[a, b].Read() == NOTHING
          invariant forall a :: 0 <= a < x ==> deltas[a, y].Read() == NOTHING
        {
          deltas[x, y].Set(NOTHING);
        }
      }
    }

    /** Adds each delta to its cell and leaves every field of every cell in its range. */
    method ApplyDeltaChanges(ghost w: Weather)
      requires Valid() && Holds(w)
      modifies objects
      ensures Valid()
      ensures forall x, y :: 0 <= x < width && 0 <= y < height ==>
        cells[x, y].Read() == Applied(At(w.cells, Pos(x, y)), At(w.deltas, Pos(x, y))) && InRange(cells[x, y].Read())
      ensures forall x, y :: 0 <= x < width && 0 <= y < height ==> deltas[x, y].Read() == At(w.deltas, Pos(x, y))
    {
      hide Applied, InRange;
      for y := 0 to height
        invariant forall a, b :: 0 <= a < width && 0 <= b < height ==> deltas[a, b].Read() == At(w.deltas, Pos(a, b))
        invariant forall a, b :: 0 <= a < width && 0 <= b < height ==>
          cells[a, b].Read() == if b < y then Applied(At(w.cells, Pos(a, b)), At(w.deltas, Pos(a, b)))
                                else At(w.cells, Pos(a, b))
      {
        for x := 0 to width
          invariant forall a, b :: 0 <= a < width && 0 <= b < height ==> deltas[a, b].Read() == At(w.deltas, Pos(a, b))
          invariant forall a, b :: 0 <= a < width && 0 <= b < height ==>
            cells[a, b].Read() == if b < y || (b == y && a < x)
                                  then Applied(At(w.cells, Pos(a, b)), At(w.deltas, Pos(a, b)))
                                  else At(w.cells, Pos(a, b))
        {
          cells[x, y].Set(Applied(cells[x, y].Read(), deltas[x, y].Read()));
        }
      }
      forall x, y | 0 <= x < width && 0 <= y < height
        ensures InRange(cells[x, y].Read())
      {
        AppliedInRange(At(w.cells, Pos(x, y)), At(w.deltas, Pos(x, y)));
      }
    }
  }

  lemma AppliedInRange(cell: Reading, delta: Reading)
    ensures InRange(Applied(cell, delta))
  {
  }
}
