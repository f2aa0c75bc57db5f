/**
 * The choice loop of decorate_room in act_move.cs: distinct sentence numbers are drawn for a room, a repeated draw
 * being thrown away and drawn again. The draws are an arbitrary finite stream; the loop is watched until the
 * stream runs out.
 */
module SentencePicker {
  import opened Basics

  /** A draw between `low` and `high` never yields `high`, unless the two are the same. */
  predicate Drawn(x: int, low: int, high: int) {
    if low == high then x == low else low <= x < high
  }

  /** How many different sentence numbers can be drawn from `total` sentences. */
  function Range(total: nat): nat
    requires total > 0
  {
    if total == 1 then 1 else total - 1
  }

  lemma DrawnInRange(total: nat, x: int)
    requires total > 0
    ensures Drawn(x, 0, total - 1) <==> 0 <= x < Range(total)
  {
  }

  /** The number of sentences asked for never exceeds what can be drawn, nor the eight places of the array. */
  lemma AskedWithinRange(total: nat, nRand: int)
    requires total > 0 && Drawn(nRand, 1, Min(8, total))
    ensures 1 <= nRand <= Range(total) && nRand <= 7
  {
  }

  /** The sentence numbers recorded after the given draws when `n` are asked for. */
  function Picks(rolls: seq<int>, n: nat): seq<int> {
    if rolls == [] then []
    else
      var before, x := Picks(rolls[..|rolls| - 1], n), rolls[|rolls| - 1];
      if |before| < n && x !in before then before + [x] else before
  }

  function Values(s: seq<int>): set<int> {
    set x <- s
  }

  lemma ValuesAppend(s: seq<int>, x: int)
    ensures Values(s + [x]) == Values(s) + {x}
  {
    assert forall y :: y in s + [x] <==> y in s || y == x;
  }

  lemma {:induction false} PicksAre(rolls: seq<int>, n: nat)
    ensures Distinct(Picks(rolls, n)) && |Picks(rolls, n)| <= n && Values(Picks(rolls, n)) <= Values(rolls)
    decreases |rolls|
  {
    if rolls != [] {
      var first, last := rolls[..|rolls| - 1], rolls[|rolls| - 1];
      PicksAre(first, n);
      ValuesAppend(first, last);
      assert first + [last] == rolls;
      ValuesAppend(Picks(first, n), last);
    }
  }

  lemma {:induction false} DistinctCount(s: seq<int>)
    requires Distinct(s)
    ensures |Values(s)| == |s|
  {
    if s != [] {
      var before := s[..|s| - 1];
      DistinctCount(before);
      assert s == before + [s[|s| - 1]];
      ValuesAppend(before, s[|s| - 1]);
    }
  }

  /** As long as fewer than `n` are recorded, every value drawn so far is recorded. */
  lemma {:induction false} NothingMissed(rolls: seq<int>, n: nat)
    ensures |Picks(rolls, n)| < n ==> Values(Picks(rolls, n)) == Values(rolls)
    decreases |rolls|
  {
    if rolls != [] {
      var before := rolls[..|rolls| - 1];
      NothingMissed(before, n);
      assert rolls == before + [rolls[|rolls| - 1]];
      ValuesAppend(before, rolls[|rolls| - 1]);
      ValuesAppend(Picks(before, n), rolls[|rolls| - 1]);
    }
  }

  /** The picks are complete exactly when the draws have shown enough different values. */
  lemma CompleteIff(rolls: seq<int>, n: nat)
    ensures |Picks(rolls, n)| == n <==> |Values(rolls)| >= n
  {
    PicksAre(rolls, n);
    DistinctCount(Picks(rolls, n));
    NothingMissed(rolls, n);
    if |Picks(rolls, n)| == n {
      SubsetCount(Values(Picks(rolls, n)), Values(rolls));
    }
  }

  lemma SubsetCount(a: set<int>, b: set<int>)
    requires a <= b
    ensures |a| <= |b|
  {
    assert b == a + (b - a);
  }

  /** At every retry some number that can still be drawn has not been recorded yet. */
  lemma UnusedValueLeft(total: nat, nRand: int, picked: seq<int>) returns (x: int)
    requires total > 0 && Drawn(nRand, 1, Min(8, total)) && Distinct(picked) && |picked| < nRand
    ensures Drawn(x, 0, total - 1) && x !in picked
  {
    DistinctCount(picked);
    var all := Span(0, Range(total));
    if all <= Values(picked) {
      SubsetCount(all, Values(picked));
    }
    x :| x in all && x !in Values(picked);
  }

  /**
   * Fills the array from the given draws. The places not reached are left at -1, and every recorded number is one
   * that can be drawn.
   */
  method PickSentences(total: nat, nRand: int, rolls: seq<int>) returns (previous: array<int>, picked: nat)
    requires total > 0 && Drawn(nRand, 1, Min(8, total))
    requires forall i :: 0 <= i < |rolls| ==> Drawn(rolls[i], 0, total - 1)
    ensures fresh(previous) && previous.Length == 8 && picked <= nRand <= 8
    ensures previous[..picked] == Picks(rolls, nRand)
    ensures forall i :: picked <= i < nRand ==> previous[i] == -1
    ensures picked == nRand <==> |Values(rolls)| >= nRand
    ensures forall i :: 0 <= i < picked ==> 0 <= previous[i] < Range(total)
  {
    AskedWithinRange(total, nRand);
    previous := new int[8](_ => 0);
    for i := 0 to nRand
      invariant forall j :: 0 <= j < i ==> previous[j] == -1
    {
      previous[i] := -1;
    }
    var next := 0;
    picked := 0;
    while picked < nRand && next < |rolls|
      invariant 0 <= next <= |rolls| && 0 <= picked <= nRand
      invariant previous[..picked] == Picks(rolls[..next], nRand)
      invariant forall i :: picked <= i < nRand ==> previous[i] == -1
      invariant forall i :: 0 <= i < picked ==> 0 <= previous[i] < Range(total)
      decreases |rolls| - next
    {
      var x := rolls[next];
      DrawnInRange(total, x);
      assert rolls[..next + 1][..next] == rolls[..next];
      next := next + 1;
      var z := 0;
      while z < picked && previous[z] != x
        invariant 0 <= z <= picked && x !in previous[..z]
      {
        z := z + 1;
      }
      if z < picked {
        continue;
      }
      previous[picked] := x;
      picked := picked + 1;
    }
    Finished(rolls, next, nRand);
    CompleteIff(rolls, nRand);
  }

  /** Once all numbers are recorded further draws change nothing. */
  lemma {:induction false} Finished(rolls: seq<int>, k: nat, n: nat)
    requires k <= |rolls| && (k == |rolls| || |Picks(rolls[..k], n)| == n)
    ensures Picks(rolls, n) == Picks(rolls[..k], n)
    decreases |rolls|
  {
    if k == |rolls| {
      assert rolls[..k] == rolls;
    } else {
      assert rolls[..|rolls| - 1][..k] == rolls[..k];
      Finished(rolls[..|rolls| - 1], k, n);
    }
  }
}
