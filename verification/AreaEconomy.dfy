/**
 * The gold of an area in AreaData.cs, kept in two 32-bit integers: billions, and what is left over. Sums that leave
 * the 32-bit range wrap around, as the program's integers do.
 */
module AreaEconomy {

  newtype int32 = x: int | -0x8000_0000 <= x < 0x8000_0000

  const BILLION: int32 := 1000000000

  /** The 32-bit integer that a sum is stored as. */
  function Wrap(x: int): (r: int)
    ensures -0x8000_0000 <= r < 0x8000_0000
    ensures -0x8000_0000 <= x < 0x8000_0000 ==> r == x
  {
    (x + 0x8000_0000) % 0x1_0000_0000 - 0x8000_0000
  }

  function Worth(high: int, low: int): int {
    high * 1000000000 + low
  }

  predicate Normal(high: int, low: int) {
    0 <= low < 1000000000
  }

  // ----- both operations in closed form, for all 32-bit integers

  /** The whole billions that the first loop takes off the sum. */
  function Billions(gold: int): int {
    if gold >= 1000000000 then gold / 1000000000 else 0
  }

  function Boosted(high: int, low: int, gold: int): (int, int) {
    var n := Billions(gold);
    var sum := Wrap(low + (gold - n * 1000000000));
    var m := Billions(sum);
    (Wrap(high + n + m), sum - m * 1000000000)
  }

  /** The billions that must be broken up to make up for a negative remainder. */
  function Broken(low: int): int {
    if low < 0 then (0 - low + 999999999) / 1000000000 else 0
  }

  function Lowered(high: int, low: int, gold: int): (int, int) {
    var n := Billions(gold);
    var sum := Wrap(low - (gold - n * 1000000000));
    var m := Broken(sum);
    (Wrap(high - n - m), sum + m * 1000000000)
  }

  /** A number of billions to be added or taken away. */
  function Signed(n: int, up: bool): int {
    if up then n else 0 - n
  }

  /** What the first loops leave is what the closed forms take off. */
  lemma BillionsAre(gold: int, n: int, left: int)
    requires left == gold - n * 1000000000 < 1000000000 && 0 <= n && (n > 0 ==> left >= 0)
    ensures n == Billions(gold)
  {
  }

  lemma BrokenAre(low: int, m: int, left: int)
    requires left == low + m * 1000000000 >= 0 && 0 <= m && (m > 0 ==> left < 1000000000)
    ensures m == Broken(low)
  {
  }

  // ----- what they amount to

  lemma WrapTwice(x: int, y: int)
    ensures Wrap(Wrap(x) + y) == Wrap(x + y)
  {
  }

  /**
   * From a normal pair and for gold that is not negative, the gold grows by exactly the amount and the pair stays
   * normal, exactly as long as the billions fit into 32 bits.
   */
  lemma BoostIsExact(high: int, low: int, gold: int)
    requires -0x8000_0000 <= high < 0x8000_0000 && 0 <= gold < 0x8000_0000 && Normal(high, low)
    ensures var (h, l) := Boosted(high, low, gold);
      && Normal(h, l)
      && (Worth(h, l) == Worth(high, low) + gold <==> Worth(high, low) + gold < 0x8000_0000 * 1000000000)
  {
  }

  lemma LowerIsExact(high: int, low: int, gold: int)
    requires -0x8000_0000 <= high < 0x8000_0000 && 0 <= gold < 0x8000_0000 && Normal(high, low)
    ensures var (h, l) := Lowered(high, low, gold);
      && Normal(h, l)
      && (Worth(h, l) == Worth(high, low) - gold <==> Worth(high, low) - gold >= -0x8000_0000 * 1000000000)
  {
  }

  /** A negative boost is exact too, but leaves the pair normal only as long as the small change covers it. */
  lemma NegativeBoost(high: int, low: int, gold: int)
    requires -0x8000_0000 <= high < 0x8000_0000 && -0x8000_0000 <= gold < 0 && Normal(high, low)
    ensures var (h, l) := Boosted(high, low, gold);
      && Worth(h, l) == Worth(high, low) + gold
      && (Normal(h, l) <==> low + gold >= 0)
  {
  }

  /**
   * Lowering by a negative sum is exact unless the small change leaves the 32-bit range; it leaves the pair normal
   * unless the small change grows to a billion or more and still fits.
   */
  lemma NegativeLower(high: int, low: int, gold: int)
    requires -0x8000_0000 <= high < 0x8000_0000 && -0x8000_0000 <= gold < 0 && Normal(high, low)
    ensures var (h, l) := Lowered(high, low, gold);
      && (Worth(h, l) == Worth(high, low) - gold <==> low - gold < 0x8000_0000)
      && (Normal(h, l) <==> low - gold < 1000000000 || low - gold >= 0x8000_0000)
  {
  }

  /** Lowering by what was just boosted restores both integers, whatever the sum, even when the billions wrap around. */
  lemma BoostUndone(high: int, low: int, gold: int)
    requires -0x8000_0000 <= high < 0x8000_0000 && -0x8000_0000 <= gold < 0x8000_0000 && Normal(high, low)
    ensures var (h, l) := Boosted(high, low, gold); Lowered(h, l, gold) == (high, low)
  {
  }

  /** Boosting by what was just lowered does so exactly as long as the small change did not leave the 32-bit range. */
  lemma LowerUndoneIff(high: int, low: int, gold: int)
    requires -0x8000_0000 <= high < 0x8000_0000 && -0x8000_0000 <= gold < 0x8000_0000 && Normal(high, low)
    ensures (var (h, l) := Lowered(high, low, gold); Boosted(h, l, gold) == (high, low)) <==> low - gold < 0x8000_0000
  {
  }

  // ----- asking for gold

  /** The sum compared with the gold is a 32-bit integer too. */
  predicate Has(high: int, low: int, gold: int) {
    Wrap((if high > 0 then 1 else 0) * 1000000000 + low) >= gold
  }

  /**
   * An area in debt answers right exactly when its small change does not cover the sum; one with two billions or more
   * exactly when the sum is at most one billion and the small change, or more than everything.
   */
  lemma HasRightIff(high: int, low: int, gold: int)
    requires Normal(high, low) && gold >= 0
    ensures (Has(high, low, gold) <==> Worth(high, low) >= gold)
            <==> (high < 0 ==> low < gold) && (high > 1 ==> gold <= 1000000000 + low || gold > Worth(high, low))
  {
  }

  /** Without debt a yes is always right, and for gold up to a billion so is a no. */
  lemma HasWithoutDebt(high: int, low: int, gold: int)
    requires Normal(high, low) && gold >= 0 && high >= 0
    ensures Has(high, low, gold) ==> Worth(high, low) >= gold
    ensures gold <= 1000000000 ==> (Has(high, low, gold) <==> Worth(high, low) >= gold)
  {
    HasRightIff(high, low, gold);
  }

  /** Two billions are said not to cover one and a half. */
  lemma TwoBillionsTooFew()
    ensures !Has(2, 0, 1500000000) && Worth(2, 0) >= 1500000000
  {
  }

  // ----- the code

  class AreaData {
    var highEconomy: int32
    var lowEconomy: int32

    ghost function Gold(): int
      reads this
    {
      Worth(highEconomy as int, lowEconomy as int)
    }

    ghost function Pair(): (int, int)
      reads this
    {
      (highEconomy as int, lowEconomy as int)
    }

    ghost predicate Valid()
      reads this
    {
      Normal(highEconomy as int, lowEconomy as int)
    }

    constructor ()
      ensures Valid() && Gold() == 0
    {
      highEconomy, lowEconomy := 0, 0;
    }

    method ChangeHigh(amount: int)
      modifies this`highEconomy
      ensures highEconomy as int == Wrap(old(highEconomy) as int + amount)
    {
      highEconomy := Wrap(highEconomy as int + amount) as int32;
    }

    /** The first loop of both operations: whole billions go to or come from the billions, one by one. */
    method MoveBillions(gold: int32, up: bool) returns (left: int32)
      modifies this`highEconomy
      ensures left as int == gold as int - Billions(gold as int) * 1000000000
      ensures highEconomy as int == Wrap(old(highEconomy) as int + Signed(Billions(gold as int), up))
    {
      left := gold;
      ghost var high, n := highEconomy as int, 0;
      hide Wrap, Billions;
      while left >= BILLION
        invariant left as int == gold as int - n * 1000000000 && 0 <= n && (n > 0 ==> left >= 0)
        invariant highEconomy as int == Wrap(high + Signed(n, up))
      {
        ChangeHigh(Signed(1, up));
        WrapTwice(high + Signed(n, up), Signed(1, up));
        left := left - BILLION;
        n := n + 1;
      }
      BillionsAre(gold as int, n, left as int);
    }

    method BoostEconomy(gold: int32)
      modifies this
      ensures Pair() == old(Boosted(highEconomy as int, lowEconomy as int, gold as int))
      ensures old(Valid()) && gold >= 0 && old(Gold()) + gold as int < 0x8000_0000 * 1000000000 ==>
        Valid() && Gold() == old(Gold()) + gold as int
    {
      hide Wrap, Billions, Worth, Normal;
      var left := MoveBillions(gold, true);
      lowEconomy := Wrap(lowEconomy as int + left as int) as int32;
      CarryOver();
      WrapTwice(old(highEconomy as int) + Billions(gold as int), Billions(Wrap(old(lowEconomy as int) + left as int)));
      assert Pair() == old(Boosted(highEconomy as int, lowEconomy as int, gold as int));
      hide Boosted;
      if old(Valid()) && gold >= 0 {
        BoostIsExact(old(highEconomy as int), old(lowEconomy as int), gold as int);
      }
    }

    /** The second loop of BoostEconomy. */
    method CarryOver()
      modifies this
      ensures var m := Billions(old(lowEconomy as int));
        && lowEconomy as int == old(lowEconomy as int) - m * 1000000000
        && highEconomy as int == Wrap(old(highEconomy as int) + m)
    {
      ghost var high, low, m := highEconomy as int, lowEconomy as int, 0;
      hide Wrap, Billions;
      while lowEconomy >= BILLION
        invariant lowEconomy as int == low - m * 1000000000 && 0 <= m && (m > 0 ==> lowEconomy >= 0)
        invariant highEconomy as int == Wrap(high + m)
        decreases lowEconomy
      {
        ChangeHigh(1);
        WrapTwice(high + m, 1);
        lowEconomy := lowEconomy - BILLION;
        m := m + 1;
      }
      BillionsAre(low, m, lowEconomy as int);
    }

    method LowerEconomy(gold: int32)
      modifies this
      ensures Pair() == old(Lowered(highEconomy as int, lowEconomy as int, gold as int))
      ensures old(Valid()) && gold >= 0 && old(Gold()) - gold as int >= -0x8000_0000 * 1000000000 ==>
        Valid() && Gold() == old(Gold()) - gold as int
    {
      hide Wrap, Billions, Broken, Worth, Normal;
      var left := MoveBillions(gold, false);
      lowEconomy := Wrap(lowEconomy as int - left as int) as int32;
      Borrow();
      WrapTwice(old(highEconomy as int) - Billions(gold as int),
                0 - Broken(Wrap(old(lowEconomy as int) - left as int)));
      assert Pair() == old(Lowered(highEconomy as int, lowEconomy as int, gold as int));
      hide Lowered;
      if old(Valid()) && gold >= 0 {
        LowerIsExact(old(highEconomy as int), old(lowEconomy as int), gold as int);
      }
    }

    /** The second loop of LowerEconomy. */
    method Borrow()
      modifies this
      ensures var m := Broken(old(lowEconomy as int));
        && lowEconomy as int == old(lowEconomy as int) + m * 1000000000
        && highEconomy as int == Wrap(old(highEconomy as int) - m)
    {
      ghost var high, low, m := highEconomy as int, lowEconomy as int, 0;
      hide Wrap, Broken;
      while lowEconomy < 0
        invariant lowEconomy as int == low + m * 1000000000 && 0 <= m && (m > 0 ==> lowEconomy < BILLION)
        invariant highEconomy as int == Wrap(high - m)
        decreases BILLION as int - lowEconomy as int
      {
        ChangeHigh(-1);
        WrapTwice(high - m, -1);
        lowEconomy := lowEconomy + BILLION;
        m := m + 1;
      }
      BrokenAre(low, m, lowEconomy as int);
    }

    /** Lowering by what was just boosted restores both integers. */
    method BoostThenLower(gold: int32)
      requires Valid()
      modifies this
      ensures Pair() == old(Pair())
    {
      BoostUndone(highEconomy as int, lowEconomy as int, gold as int);
      BoostEconomy(gold);
      LowerEconomy(gold);
    }

    method EconomyHas(gold: int32) returns (r: bool)
      ensures r == Has(highEconomy as int, lowEconomy as int, gold as int)
      ensures Valid() && gold >= 0 && 0 <= highEconomy <= 1 ==> r == (Gold() >= gold as int)
    {
      var billion := if highEconomy > 0 then BILLION else 0;
      r := Wrap(billion as int + lowEconomy as int) as int32 >= gold;
    }
  }
}
