/**
 * What each cell gains and loses over a whole sweep. Although the sweep changes cells and deltas while it goes, every
 * cell's delta of heat and moisture depends on the cells at the outset alone, and not on the order of the visits.
 */
module WeatherFlow {
  import opened Basics
  import opened Wrappers
  import opened WeatherSweep

  /** What the wind carries away from `p` towards its neighbour in direction (dx, dy), if it has one. */
  function Passed(s: Sky, q: Quantity, cells: Grid, p: Pos, dx: int, dy: int): int {
    if IsNeighbour(s, p, dx, dy)
    then Amount(q, Carried(At(cells, p), At(cells, Pos(p.x + dx, p.y + dy)), dx, dy))
    else 0
  }

  /** What the wind carries to `p` from its neighbour in direction (dx, dy), if it has one. */
  function Received(s: Sky, q: Quantity, cells: Grid, p: Pos, dx: int, dy: int): int {
    if IsNeighbour(s, p, dx, dy)
    then Amount(q, Carried(At(cells, Pos(p.x + dx, p.y + dy)), At(cells, p), 0 - dx, 0 - dy))
    else 0
  }

  /** The sum over the nine directions, the one that leads nowhere included. */
  function Nine(f: (int, int) -> int): int {
    f(-1, -1) + f(0, -1) + f(1, -1) + f(-1, 0) + f(0, 0) + f(1, 0) + f(-1, 1) + f(0, 1) + f(1, 1)
  }

  /** All that the wind carries away from a cell. */
  function Given(s: Sky, q: Quantity, cells: Grid, p: Pos): int {
    Nine((dx, dy) => Passed(s, q, cells, p, dx, dy))
  }

  /** All that the wind carries to a cell. */
  function Gained(s: Sky, q: Quantity, cells: Grid, p: Pos): int {
    Nine((dx, dy) => Received(s, q, cells, p, dx, dy))
  }

  // ----- one visit

  /** What meeting one neighbour of `p` adds to the delta of `n`. */
  function MeetEffect(s: Sky, q: Quantity, cells: Grid, p: Pos, dx: int, dy: int, n: Pos): int {
    if n == p then 0 - Passed(s, q, cells, p, dx, dy)
    else if n == Pos(p.x + dx, p.y + dy) then Passed(s, q, cells, p, dx, dy)
    else 0
  }

  lemma BumpAmount(q: Quantity, g: Grid, p: Pos, change: Reading, n: Pos)
    ensures Amount(q, At(Bump(g, p, change), n)) == Amount(q, At(g, n)) + if n == p then Amount(q, change) else 0
  {
  }

  lemma MeetAmount(s: Sky, q: Quantity, a: Around, p: Pos, dx: int, dy: int, n: Pos)
    ensures Meet(s, a, p, dx, dy).weather.cells == a.weather.cells
    ensures Amount(q, At(Meet(s, a, p, dx, dy).weather.deltas, n)) ==
            Amount(q, At(a.weather.deltas, n)) + MeetEffect(s, q, a.weather.cells, p, dx, dy, n)
  {
    hide Bump, Carried, Kept, Amount, At;
    if IsNeighbour(s, p, dx, dy) {
      var w, m := a.weather, Pos(p.x + dx, p.y + dy);
      var cell, neighbour := At(w.cells, p), At(w.cells, m);
      var carried, kept := Carried(cell, neighbour, dx, dy), Kept(s, cell, neighbour, p, dx, dy);
      WhatIsCarriedIsLost(s, q, cell, neighbour, p, dx, dy);
      BumpAmount(q, w.deltas, m, carried, n);
      BumpAmount(q, Bump(w.deltas, m, carried), p, kept, n);
    }
  }

  function RowEffect(s: Sky, q: Quantity, cells: Grid, p: Pos, dy: int, n: Pos): int {
    MeetEffect(s, q, cells, p, -1, dy, n) + MeetEffect(s, q, cells, p, 0, dy, n) + MeetEffect(s, q, cells, p, 1, dy, n)
  }

  lemma RowAmount(s: Sky, q: Quantity, a: Around, p: Pos, dy: int, next: int, n: Pos) returns (b: Around)
    requires -1 <= dy <= 1 && next == dy + 1
    ensures MeetFrom(s, a, p, -1, dy) == MeetFrom(s, b, p, -1, next)
    ensures b.weather.cells == a.weather.cells
    ensures Amount(q, At(b.weather.deltas, n)) ==
            Amount(q, At(a.weather.deltas, n)) + RowEffect(s, q, a.weather.cells, p, dy, n)
  {
    hide Meet, MeetFrom, MeetEffect, Amount, At;
    var b1 := Meet(s, a, p, -1, dy);
    var b2 := Meet(s, b1, p, 0, dy);
    b := Meet(s, b2, p, 1, dy);
    MeetAmount(s, q, a, p, -1, dy, n);
    MeetAmount(s, q, b1, p, 0, dy, n);
    MeetAmount(s, q, b2, p, 1, dy, n);
    MeetUnfolds(s, a, p, -1, dy);
    MeetUnfolds(s, b1, p, 0, dy);
    MeetUnfolds(s, b2, p, 1, dy);
    MeetUnfolds(s, b, p, 2, dy);
  }

  /** What all the neighbours of `p` add to the delta of `n` when `p` is visited. */
  function Effects(s: Sky, q: Quantity, cells: Grid, p: Pos, n: Pos): int {
    Nine((dx, dy) => MeetEffect(s, q, cells, p, dx, dy, n))
  }

  lemma ThreeRowsOfEffects(s: Sky, q: Quantity, cells: Grid, p: Pos, n: Pos)
    ensures Effects(s, q, cells, p, n) ==
            RowEffect(s, q, cells, p, -1, n) + RowEffect(s, q, cells, p, 0, n) + RowEffect(s, q, cells, p, 1, n)
  {
    hide MeetEffect;
  }

  lemma AroundAmount(s: Sky, q: Quantity, a: Around, p: Pos, n: Pos)
    ensures Amount(q, At(MeetFrom(s, a, p, -1, -1).weather.deltas, n)) ==
            Amount(q, At(a.weather.deltas, n)) + Effects(s, q, a.weather.cells, p, n)
  {
    hide *;
    ThreeRowsOfEffects(s, q, a.weather.cells, p, n);
    var b := RowAmount(s, q, a, p, -1, 0, n);
    var c := RowAmount(s, q, b, p, 0, 1, n);
    var d := RowAmount(s, q, c, p, 1, 2, n);
    NoRowsLeft(s, d, p);
  }

  /** What the visit of `p` adds to the delta of `n`. */
  function VisitEffect(s: Sky, q: Quantity, cells: Grid, p: Pos, n: Pos): int {
    if n == p then Adjustment(s, q, At(cells, p), p) - Given(s, q, cells, p)
    else if Beside(p, n) then Passed(s, q, cells, p, n.x - p.x, n.y - p.y)
    else 0
  }

  predicate Beside(p: Pos, n: Pos) {
    n != p && -1 <= n.x - p.x <= 1 && -1 <= n.y - p.y <= 1
  }

  /** The neighbours together take from the visited cell what each of them gets. */
  lemma EffectsAre(s: Sky, q: Quantity, cells: Grid, p: Pos, n: Pos)
    ensures Effects(s, q, cells, p, n) ==
            if n == p then 0 - Given(s, q, cells, p)
            else if Beside(p, n) then Passed(s, q, cells, p, n.x - p.x, n.y - p.y)
            else 0
  {
    hide Passed;
  }

  /** Two grids that differ in precipitation at most. */
  ghost predicate AlikeButRain(a: Grid, b: Grid) {
    forall p :: At(a, p).(precipitation := 0) == At(b, p).(precipitation := 0)
  }

  /** Rain has no influence on what the wind carries. */
  lemma RainIsNotCarried(s: Sky, q: Quantity, a: Grid, b: Grid, p: Pos, dx: int, dy: int)
    requires AlikeButRain(a, b)
    ensures Passed(s, q, a, p, dx, dy) == Passed(s, q, b, p, dx, dy)
    ensures Received(s, q, a, p, dx, dy) == Received(s, q, b, p, dx, dy)
  {
    hide Div, At, IsNeighbour;
    var n := Pos(p.x + dx, p.y + dy);
    assert At(a, p).(precipitation := 0) == At(b, p).(precipitation := 0);
    assert At(a, n).(precipitation := 0) == At(b, n).(precipitation := 0);
  }

  lemma RainIsNotGiven(s: Sky, q: Quantity, a: Grid, b: Grid, p: Pos)
    requires AlikeButRain(a, b)
    ensures Given(s, q, a, p) == Given(s, q, b, p) && Gained(s, q, a, p) == Gained(s, q, b, p)
  {
    hide Passed, Received, AlikeButRain;
    forall dx, dy
      ensures Passed(s, q, a, p, dx, dy) == Passed(s, q, b, p, dx, dy)
      ensures Received(s, q, a, p, dx, dy) == Received(s, q, b, p, dx, dy)
    {
      RainIsNotCarried(s, q, a, b, p, dx, dy);
    }
  }

  lemma OwnAmount(s: Sky, q: Quantity, w: Weather, p: Pos, n: Pos)
    ensures AlikeButRain(Own(s, w, p).cells, w.cells)
    ensures Amount(q, At(Own(s, w, p).deltas, n)) ==
            Amount(q, At(w.deltas, n)) + if n == p then Adjustment(s, q, At(w.cells, p), p) else 0
  {
    hide DayNightChange, RainChange, CloudChange, PrecipitationChange, Div;
  }

  lemma VisitAmount(s: Sky, q: Quantity, w: Weather, p: Pos, n: Pos)
    requires OnMap(s, p) && VisitCell(s, w, p).Returned?
    ensures AlikeButRain(VisitCell(s, w, p).value.cells, w.cells)
    ensures Amount(q, At(VisitCell(s, w, p).value.deltas, n)) ==
            Amount(q, At(w.deltas, n)) + VisitEffect(s, q, w.cells, p, n)
  {
    hide Own, MeetFrom, PressureChange, Div, Adjustment, Given, Passed, AlikeButRain, Effects, Total;
    var own := Own(s, w, p);
    var a := Around(own, At(own.cells, p).pressure, -1);
    OwnAmount(s, q, w, p, n);
    AroundAmount(s, q, a, p, n);
    EffectsAre(s, q, own.cells, p, n);
    RainIsNotGiven(s, q, own.cells, w.cells, p);
    RainIsNotCarried(s, q, own.cells, w.cells, p, n.x - p.x, n.y - p.y);
    MeetConserves(s, q, a, p, -1, -1);
  }

  // ----- the whole sweep

  /** What `n` is still to receive from its neighbour in direction (dx, dy) when the sweep has come to (x, y). */
  function Due(s: Sky, q: Quantity, cells: Grid, n: Pos, x: int, y: int, dx: int, dy: int): int {
    if FromOn(Pos(n.x + dx, n.y + dy), x, y) then Received(s, q, cells, n, dx, dy) else 0
  }

  /** What the visits from (x, y) on add to the delta of `n`. */
  function Later(s: Sky, q: Quantity, cells: Grid, n: Pos, x: int, y: int): int {
    (if FromOn(n, x, y) then Adjustment(s, q, At(cells, n), n) - Given(s, q, cells, n) else 0) +
    Nine((dx, dy) => Due(s, q, cells, n, x, y, dx, dy))
  }

  lemma DueStep(s: Sky, q: Quantity, cells: Grid, n: Pos, x: int, y: int, dx: int, dy: int)
    ensures Due(s, q, cells, n, x, y, dx, dy) == Due(s, q, cells, n, x + 1, y, dx, dy) +
            if Pos(n.x + dx, n.y + dy) == Pos(x, y) then Received(s, q, cells, n, dx, dy) else 0
  {
    hide Received;
  }

  /** What the visit of `p` gives to `n`, as one of the nine things that `n` receives. */
  function Now(s: Sky, q: Quantity, cells: Grid, n: Pos, p: Pos, dx: int, dy: int): int {
    if Pos(n.x + dx, n.y + dy) == p then Received(s, q, cells, n, dx, dy) else 0
  }

  lemma NowAre(s: Sky, q: Quantity, cells: Grid, n: Pos, p: Pos)
    requires OnMap(s, n) && OnMap(s, p)
    ensures Nine((dx, dy) => Now(s, q, cells, n, p, dx, dy)) ==
            if Beside(p, n) then Passed(s, q, cells, p, n.x - p.x, n.y - p.y) else 0
  {
    hide Carried, Amount, At;
  }

  lemma LaterStep(s: Sky, q: Quantity, cells: Grid, n: Pos, x: nat, y: nat)
    requires OnMap(s, n) && OnMap(s, Pos(x, y))
    ensures Later(s, q, cells, n, x, y) == VisitEffect(s, q, cells, Pos(x, y), n) + Later(s, q, cells, n, x + 1, y)
  {
    hide Due, Received, Passed, Adjustment, Given;
    NowAre(s, q, cells, n, Pos(x, y));
    forall dx, dy
      ensures Due(s, q, cells, n, x, y, dx, dy) ==
              Due(s, q, cells, n, x + 1, y, dx, dy) + Now(s, q, cells, n, Pos(x, y), dx, dy)
    {
      DueStep(s, q, cells, n, x, y, dx, dy);
    }
  }

  /** At the end of a row nothing is due from it any more. */
  lemma LaterRow(s: Sky, q: Quantity, cells: Grid, n: Pos, y: nat)
    requires OnMap(s, n)
    ensures Later(s, q, cells, n, s.width, y) == Later(s, q, cells, n, 0, y + 1)
  {
    hide Adjustment, Given, Carried, Amount, At;
    forall dx, dy
      ensures Due(s, q, cells, n, s.width, y, dx, dy) == Due(s, q, cells, n, 0, y + 1, dx, dy)
    {
    }
    hide Due;
  }

  /** Of the cells themselves a visit changes nothing that later visits of other cells look at. */
  lemma LaterAlike(s: Sky, q: Quantity, a: Grid, b: Grid, n: Pos, x: int, y: int)
    requires AlikeButRain(a, b) && (FromOn(n, x, y) ==> At(a, n) == At(b, n))
    ensures Later(s, q, a, n, x, y) == Later(s, q, b, n, x, y)
  {
    hide Received, Given, Gained, Adjustment, AlikeButRain, At, FromOn;
    RainIsNotGiven(s, q, a, b, n);
    forall dx, dy
      ensures Due(s, q, a, n, x, y, dx, dy) == Due(s, q, b, n, x, y, dx, dy)
    {
      RainIsNotCarried(s, q, a, b, n, dx, dy);
    }
    hide Due;
  }

  lemma {:induction false} SweepFromAmount(s: Sky, q: Quantity, w: Weather, x: nat, y: nat, n: Pos)
    requires x <= s.width && y <= s.height && OnMap(s, n) && SweepFrom(s, w, x, y).Returned?
    ensures Amount(q, At(SweepFrom(s, w, x, y).value.deltas, n)) ==
            Amount(q, At(w.deltas, n)) + Later(s, q, w.cells, n, x, y)
    decreases s.height - y, s.width - x
  {
    hide VisitCell, Later, Amount, At, AlikeButRain, VisitEffect;
    if y == s.height {
      NothingLater(s, q, w.cells, n);
    } else if x == s.width {
      LaterRow(s, q, w.cells, n, y);
      SweepFromAmount(s, q, w, 0, y + 1, n);
    } else {
      var p := Pos(x, y);
      VisitAmount(s, q, w, p, n);
      VisitBalance(s, q, w, p);
      var w' := VisitCell(s, w, p).value;
      LaterStep(s, q, w.cells, n, x, y);
      LaterAlike(s, q, w'.cells, w.cells, n, x + 1, y);
      SweepFromAmount(s, q, w', x + 1, y, n);
    }
  }

  lemma NothingLater(s: Sky, q: Quantity, cells: Grid, n: Pos)
    requires OnMap(s, n)
    ensures forall x: nat :: Later(s, q, cells, n, x, s.height) == 0
  {
    hide Adjustment, Given, Carried, Amount, At;
    forall x: nat, dx, dy
      ensures Due(s, q, cells, n, x, s.height, dx, dy) == 0
    {
    }
    hide Due;
  }

  /** From the first cell on, everything is still to come. */
  lemma EverythingLater(s: Sky, q: Quantity, cells: Grid, n: Pos)
    requires OnMap(s, n)
    ensures Later(s, q, cells, n, 0, 0) ==
            Adjustment(s, q, At(cells, n), n) - Given(s, q, cells, n) + Gained(s, q, cells, n)
  {
    hide Adjustment, Given, Carried, Amount, At;
    forall dx, dy
      ensures Due(s, q, cells, n, 0, 0, dx, dy) == Received(s, q, cells, n, dx, dy)
    {
    }
    hide Due, Received;
  }

  /**
   * Over the whole sweep each cell's delta of heat or moisture grows by the cell's own adjustment and by what its
   * neighbours give it, and shrinks by what it gives them, all of it read from the cells at the outset.
   */
  lemma SweepFlow(s: Sky, q: Quantity, w: Weather, n: Pos)
    requires OnMap(s, n) && Sweep(s, w).Returned?
    ensures var cells := Picked(s, w.cells);
      Amount(q, At(Sweep(s, w).value.deltas, n)) == Amount(q, At(w.deltas, n))
        + Adjustment(s, q, At(cells, n), n) + Gained(s, q, cells, n) - Given(s, q, cells, n)
  {
    hide SweepFrom, Later, Amount, At, Adjustment, Gained, Given, Picked;
    SweepFromAmount(s, q, w.(cells := Picked(s, w.cells)), 0, 0, n);
    EverythingLater(s, q, Picked(s, w.cells), n);
  }

  // ----- clouds, energy and wind

  /** The fields that only a cell's own visit changes. */
  function Side(r: Reading): Reading {
    NOTHING.(cloudCover := r.cloudCover, precipitation := r.precipitation, energy := r.energy,
             windSpeedX := r.windSpeedX, windSpeedY := r.windSpeedY)
  }

  /** A quarter of how much the pressure of the cell exceeds that of its neighbour. */
  function Wind(s: Sky, cells: Grid, p: Pos, dx: int, dy: int): int {
    if IsNeighbour(s, p, dx, dy) then Div(At(cells, p).pressure - At(cells, Pos(p.x + dx, p.y + dy)).pressure, 4) else 0
  }

  function Push(s: Sky, p: Pos, dx: int, dy: int): int {
    if IsNeighbour(s, p, dx, dy) then s.roll(Energy(p, dx, dy)) else 0
  }

  /** What meeting one neighbour adds to these fields of the cell's own delta. */
  function Stirred(s: Sky, cells: Grid, p: Pos, dx: int, dy: int): Reading {
    NOTHING.(energy := Push(s, p, dx, dy), windSpeedX := Wind(s, cells, p, dx, dy) * dx,
             windSpeedY := Wind(s, cells, p, dx, dy) * dy)
  }

  lemma BumpSide(g: Grid, p: Pos, change: Reading, n: Pos)
    ensures Side(At(Bump(g, p, change), n)) ==
            if n == p then Plus(Side(At(g, n)), Side(change)) else Side(At(g, n))
  {
  }

  lemma NothingMore(r: Reading)
    ensures Plus(r, NOTHING) == r
  {
  }

  lemma MeetSide(s: Sky, a: Around, p: Pos, dx: int, dy: int, n: Pos)
    ensures Meet(s, a, p, dx, dy).weather.cells == a.weather.cells
    ensures Side(At(Meet(s, a, p, dx, dy).weather.deltas, n)) ==
            if n == p then Plus(Side(At(a.weather.deltas, n)), Stirred(s, a.weather.cells, p, dx, dy))
            else Side(At(a.weather.deltas, n))
  {
    hide Bump, At, Div;
    NothingMore(Side(At(a.weather.deltas, n)));
    if IsNeighbour(s, p, dx, dy) {
      var w, m := a.weather, Pos(p.x + dx, p.y + dy);
      var carried := Carried(At(w.cells, p), At(w.cells, m), dx, dy);
      var kept := Kept(s, At(w.cells, p), At(w.cells, m), p, dx, dy);
      assert Side(carried) == NOTHING && Side(kept) == Stirred(s, w.cells, p, dx, dy);
      hide Carried, Kept, Side, Stirred, Plus;
      BumpSide(w.deltas, m, carried, n);
      BumpSide(Bump(w.deltas, m, carried), p, kept, n);
      NothingMore(Side(At(w.deltas, n)));
    } else {
      assert Stirred(s, a.weather.cells, p, dx, dy) == NOTHING;
    }
  }

  function RowStirred(s: Sky, cells: Grid, p: Pos, dy: int): Reading {
    Plus(Plus(Stirred(s, cells, p, -1, dy), Stirred(s, cells, p, 0, dy)), Stirred(s, cells, p, 1, dy))
  }

  function AllStirred(s: Sky, cells: Grid, p: Pos): Reading {
    Plus(Plus(RowStirred(s, cells, p, -1), RowStirred(s, cells, p, 0)), RowStirred(s, cells, p, 1))
  }

  lemma PlusThree(r: Reading, a: Reading, b: Reading, c: Reading)
    ensures Plus(Plus(Plus(r, a), b), c) == Plus(r, Plus(Plus(a, b), c))
  {
  }

  lemma RowSide(s: Sky, a: Around, p: Pos, dy: int, next: int, n: Pos) returns (b: Around)
    requires -1 <= dy <= 1 && next == dy + 1
    ensures MeetFrom(s, a, p, -1, dy) == MeetFrom(s, b, p, -1, next)
    ensures b.weather.cells == a.weather.cells
    ensures Side(At(b.weather.deltas, n)) ==
            if n == p then Plus(Side(At(a.weather.deltas, n)), RowStirred(s, a.weather.cells, p, dy))
            else Side(At(a.weather.deltas, n))
  {
    hide Meet, MeetFrom, Side, At, Stirred, Plus;
    var b1 := Meet(s, a, p, -1, dy);
    var b2 := Meet(s, b1, p, 0, dy);
    b := Meet(s, b2, p, 1, dy);
    MeetSide(s, a, p, -1, dy, n);
    MeetSide(s, b1, p, 0, dy, n);
    MeetSide(s, b2, p, 1, dy, n);
    PlusThree(Side(At(a.weather.deltas, n)), Stirred(s, a.weather.cells, p, -1, dy),
              Stirred(s, a.weather.cells, p, 0, dy), Stirred(s, a.weather.cells, p, 1, dy));
    MeetUnfolds(s, a, p, -1, dy);
    MeetUnfolds(s, b1, p, 0, dy);
    MeetUnfolds(s, b2, p, 1, dy);
    MeetUnfolds(s, b, p, 2, dy);
  }

  lemma AroundSide(s: Sky, a: Around, p: Pos, n: Pos)
    ensures Side(At(MeetFrom(s, a, p, -1, -1).weather.deltas, n)) ==
            if n == p then Plus(Side(At(a.weather.deltas, n)), AllStirred(s, a.weather.cells, p))
            else Side(At(a.weather.deltas, n))
  {
    hide Meet, MeetFrom, Side, At, RowStirred, Plus;
    var b := RowSide(s, a, p, -1, 0, n);
    var c := RowSide(s, b, p, 0, 1, n);
    var d := RowSide(s, c, p, 1, 2, n);
    NoRowsLeft(s, d, p);
    PlusThree(Side(At(a.weather.deltas, n)), RowStirred(s, a.weather.cells, p, -1),
              RowStirred(s, a.weather.cells, p, 0), RowStirred(s, a.weather.cells, p, 1));
  }

  /** What its own visit adds to these fields of a cell's delta: clouds, as it looks after its rain, energy and wind. */
  function OwnSide(s: Sky, cells: Grid, p: Pos): Reading {
    Plus(NOTHING.(cloudCover := CloudChange(s, Wetter(s, At(cells, p), p), p)), AllStirred(s, cells, p))
  }

  lemma OwnSideFirst(s: Sky, w: Weather, p: Pos, n: Pos)
    ensures At(Own(s, w, p).cells, p) == Wetter(s, At(w.cells, p), p)
    ensures var clouds := NOTHING.(cloudCover := CloudChange(s, Wetter(s, At(w.cells, p), p), p));
      Side(At(Own(s, w, p).deltas, n)) ==
      if n == p then Plus(Side(At(w.deltas, n)), clouds) else Side(At(w.deltas, n))
  {
    hide DayNightChange, RainChange, CloudChange, PrecipitationChange;
  }

  lemma StirredAlike(s: Sky, a: Grid, b: Grid, p: Pos)
    requires forall n :: At(a, n).pressure == At(b, n).pressure
    ensures AllStirred(s, a, p) == AllStirred(s, b, p)
  {
    hide At, Div, Plus, Push, IsNeighbour;
    forall dx, dy
      ensures Wind(s, a, p, dx, dy) == Wind(s, b, p, dx, dy)
    {
    }
    hide Wind;
  }

  lemma VisitSide(s: Sky, w: Weather, p: Pos, n: Pos)
    requires OnMap(s, p) && VisitCell(s, w, p).Returned?
    ensures Side(At(VisitCell(s, w, p).value.deltas, n)) ==
            if n == p then Plus(Side(At(w.deltas, n)), OwnSide(s, w.cells, p)) else Side(At(w.deltas, n))
  {
    hide Own, MeetFrom, PressureChange, Div, AllStirred, CloudChange, Plus, Wetter;
    var own := Own(s, w, p);
    var a := Around(own, At(own.cells, p).pressure, -1);
    OwnSideFirst(s, w, p, n);
    AroundSide(s, a, p, n);
    forall m
      ensures At(own.cells, m).pressure == At(w.cells, m).pressure
    {
      OwnPressure(s, w, p, m);
    }
    StirredAlike(s, own.cells, w.cells, p);
    PlusTwo(Side(At(w.deltas, n)), NOTHING.(cloudCover := CloudChange(s, Wetter(s, At(w.cells, p), p), p)),
            AllStirred(s, w.cells, p));
  }

  lemma PlusTwo(r: Reading, a: Reading, b: Reading)
    ensures Plus(Plus(r, a), b) == Plus(r, Plus(a, b))
  {
  }

  lemma OwnPressure(s: Sky, w: Weather, p: Pos, m: Pos)
    ensures At(Own(s, w, p).cells, m).pressure == At(w.cells, m).pressure
  {
    hide DayNightChange, RainChange, CloudChange, PrecipitationChange;
  }

  /** A visit leaves alone what the visits of other cells add to these fields. */
  lemma OwnSideKept(s: Sky, w: Weather, p: Pos, n: Pos)
    requires OnMap(s, p) && n != p && VisitCell(s, w, p).Returned?
    ensures OwnSide(s, VisitCell(s, w, p).value.cells, n) == OwnSide(s, w.cells, n)
  {
    hide VisitCell, AllStirred, CloudChange, At;
    var w' := VisitCell(s, w, p).value;
    forall m
      ensures At(w'.cells, m).pressure == At(w.cells, m).pressure
      ensures m == n ==> At(w'.cells, m) == At(w.cells, m)
    {
      VisitCells(s, w, p, m);
      WetterPressure(s, At(w.cells, p), p);
    }
    StirredAlike(s, w'.cells, w.cells, n);
  }

  lemma {:induction false} SweepFromSide(s: Sky, w: Weather, x: nat, y: nat, n: Pos)
    requires x <= s.width && y <= s.height && OnMap(s, n) && SweepFrom(s, w, x, y).Returned?
    ensures Side(At(SweepFrom(s, w, x, y).value.deltas, n)) ==
            if FromOn(n, x, y) then Plus(Side(At(w.deltas, n)), OwnSide(s, w.cells, n)) else Side(At(w.deltas, n))
    decreases s.height - y, s.width - x
  {
    hide VisitCell, OwnSide, At, Side, Plus;
    if y < s.height {
      if x == s.width {
        SweepFromSide(s, w, 0, y + 1, n);
      } else {
        var p := Pos(x, y);
        VisitSide(s, w, p, n);
        if n != p {
          OwnSideKept(s, w, p, n);
        }
        SweepFromSide(s, VisitCell(s, w, p).value, x + 1, y, n);
      }
    }
  }

  /** Over the whole sweep each cell's delta takes up its own change of clouds, and its energy and wind from around. */
  lemma SweepSide(s: Sky, w: Weather, n: Pos)
    requires OnMap(s, n) && Sweep(s, w).Returned?
    ensures Side(At(Sweep(s, w).value.deltas, n)) == Plus(Side(At(w.deltas, n)), OwnSide(s, Picked(s, w.cells), n))
  {
    hide SweepFrom, OwnSide, At, Side, Plus, Picked;
    SweepFromSide(s, w.(cells := Picked(s, w.cells)), 0, 0, n);
  }
}
