/**
 * What the rules for one cell amount to, in plain numbers: day and night, rain, clouds, pressure, and what the wind
 * between two cells carries. Quotients are given by bounds; the dice are the ones the rules ask for.
 */
module WeatherLaws {
  import opened Basics
  import opened WeatherSweep
  import opened WeatherGrids

  /** `q` is `a` divided by `b`, cut off towards zero. */
  predicate Quotient(q: int, a: int, b: nat) {
    if a >= 0 then q >= 0 && b * q <= a < b * q + b else q <= 0 && b * q - b < a <= b * q
  }

  lemma DivIsQuotient(a: int, b: nat)
    requires b > 0
    ensures Quotient(Div(a, b), a, b)
  {
    DivIs(a, b);
  }

  /**
   * A clear day warms and an overcast one cools by one, a clear night cools by three and an overcast one warms by two,
   * and the die is added. The sky is overcast from a cloud cover of 60 on.
   */
  lemma DayAndNight(s: Sky, cell: Reading, p: Pos)
    ensures DayNightChange(s, cell, p) - s.roll(DayNight(p)) ==
            if s.daylight then (if cell.cloudCover >= 60 then -1 else 1)
            else (if cell.cloudCover >= 60 then 2 else -3)
  {
  }

  /** More than 40 of precipitation dries the air by a twentieth of it; otherwise the die decides. */
  lemma RainDries(s: Sky, cell: Reading, p: Pos)
    ensures if cell.precipitation > 40 then Quotient(0 - RainChange(s, cell, p), cell.precipitation, 20)
            else RainChange(s, cell, p) == s.roll(Rain(p))
  {
    DivIsQuotient(cell.precipitation, 20);
  }

  /**
   * Humidity and pressure of 120 together bring a tenth of the humidity in precipitation; below 82 they take a fifth of
   * it away; in between the die decides.
   */
  lemma PrecipitationFollows(s: Sky, cell: Reading, p: Pos)
    ensures var sum, change := cell.humidity + cell.pressure, PrecipitationChange(s, cell, p);
      if sum >= 120 then Quotient(change, cell.humidity, 10)
      else if sum >= 82 then change == s.roll(Precip(p))
      else Quotient(0 - change, cell.humidity, 5)
  {
    DivIsQuotient(cell.humidity, 10);
    DivIsQuotient(cell.humidity, 5);
  }

  /** Clouds go the other way: wet air takes a tenth of the humidity off them, dry air adds a fifth. */
  lemma CloudsFollow(s: Sky, cell: Reading, p: Pos)
    ensures var sum, change := cell.humidity + cell.precipitation, CloudChange(s, cell, p);
      if sum >= 120 then Quotient(0 - change, cell.humidity, 10)
      else if sum >= 82 then change == s.roll(Cloud(p))
      else Quotient(change, cell.humidity, 5)
  {
    DivIsQuotient(cell.humidity, 10);
    DivIsQuotient(cell.humidity, 5);
  }

  /** Heavy precipitation takes half the pressure off, light adds half; in between, low pressure is left to the die. */
  lemma PressureFollows(s: Sky, cell: Reading, p: Pos)
    ensures var change := PressureChange(s, cell, p);
      if cell.precipitation >= 70 then Quotient(0 - change, cell.pressure, 2)
      else if cell.precipitation > 30 && cell.pressure < 70 then change == s.roll(Pressure(p))
      else Quotient(change, cell.pressure, 2)
  {
    DivIsQuotient(cell.pressure, 2);
  }

  /** The wind of the cell blows from it towards the neighbour in direction (dx, dy), along one of the two axes. */
  predicate BlowsTowards(cell: Reading, dx: int, dy: int) {
    cell.windSpeedX * dx > 0 || cell.windSpeedY * dy > 0
  }

  /**
   * A wind that blows towards the neighbour carries a sixteenth of the two temperatures together, and a sixteenth of
   * the difference in humidity; any other carries nothing. Nothing else is carried.
   */
  lemma WindCarries(cell: Reading, neighbour: Reading, dx: int, dy: int)
    ensures var c := Carried(cell, neighbour, dx, dy);
      && (if BlowsTowards(cell, dx, dy)
          then Quotient(c.temperature, cell.temperature + neighbour.temperature, 16) &&
               Quotient(c.humidity, cell.humidity - neighbour.humidity, 16)
          else c.temperature == 0 && c.humidity == 0)
      && c == NOTHING.(temperature := c.temperature, humidity := c.humidity)
  {
    Signs(cell.windSpeedX, dx);
    Signs(cell.windSpeedY, dy);
    DivIsQuotient(cell.temperature + neighbour.temperature, 16);
    DivIsQuotient(cell.humidity - neighbour.humidity, 16);
    hide Div, Quotient;
  }

  lemma Signs(a: int, b: int)
    ensures a * b > 0 <==> (a < 0 && b < 0) || (a > 0 && b > 0)
  {
  }

  /** The cell loses what is carried, and gets a wind of a quarter of the pressure difference, away from the high. */
  lemma WindRises(s: Sky, cell: Reading, neighbour: Reading, p: Pos, dx: int, dy: int) returns (wind: int)
    ensures Quotient(wind, cell.pressure - neighbour.pressure, 4)
    ensures var c := Carried(cell, neighbour, dx, dy);
      Kept(s, cell, neighbour, p, dx, dy) ==
      Reading(0 - c.temperature, 0, 0, 0 - c.humidity, 0, s.roll(Energy(p, dx, dy)), wind * dx, wind * dy)
  {
    wind := Div(cell.pressure - neighbour.pressure, 4);
    DivIsQuotient(cell.pressure - neighbour.pressure, 4);
  }

  /** The random change goes to one field of one cell, the one that the eight-sided die names. */
  lemma OneFieldPicked(s: Sky)
    ensures var die, r, x := s.roll(PickField), PickedChange(s), s.roll(PickChange);
      && r.cloudCover == (if die == 1 then x else 0) && r.energy == (if die == 2 then x else 0)
      && r.humidity == (if die == 3 then x else 0) && r.precipitation == (if die == 4 then x else 0)
      && r.pressure == (if die == 5 then x else 0) && r.temperature == (if die == 6 then x else 0)
      && r.windSpeedX == (if die == 7 then x else 0) && r.windSpeedY == (if die == 8 then x else 0)
  {
  }

  /** `x` is the number between the bounds that is nearest to `sum`. */
  predicate Nearest(x: int, sum: int, low: int, high: int) {
    low <= x <= high && (low <= sum <= high ==> x == sum) && (sum < low ==> x == low) && (sum > high ==> x == high)
  }

  /** A cell takes up its delta as far as the ranges of its fields allow. */
  lemma DeltaTakenUp(a: Reading, d: Reading)
    ensures var r := Applied(a, d);
      && Nearest(r.temperature, a.temperature + d.temperature, -30, 100)
      && Nearest(r.pressure, a.pressure + d.pressure, 0, 100)
      && Nearest(r.cloudCover, a.cloudCover + d.cloudCover, 0, 100)
      && Nearest(r.humidity, a.humidity + d.humidity, 0, 100)
      && Nearest(r.precipitation, a.precipitation + d.precipitation, 0, 100)
      && Nearest(r.energy, a.energy + d.energy, 0, 100)
      && Nearest(r.windSpeedX, a.windSpeedX + d.windSpeedX, -100, 100)
      && Nearest(r.windSpeedY, a.windSpeedY + d.windSpeedY, -100, 100)
  {
  }
}
