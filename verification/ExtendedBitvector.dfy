/** The flag vector of ExtendedBitvector.cs: four 32-bit words that stand for a set of numbers below 128. */
module Bitvectors {

  const INTBITS := 32
  const XBI := 4
  const MAX_BITS := XBI * INTBITS

  /** The word with only bit `k` set; bit 31 is the sign bit of the program's integers. */
  function Mask(k: nat): bv32
    requires k < INTBITS
  {
    (1 as bv32) << k
  }

  /** The test of one bit, as IsSet makes it. */
  predicate Bit(w: bv32, k: nat)
    requires k < INTBITS
  {
    Meets(w, Mask(k))
  }

  predicate Meets(w: bv32, m: bv32) {
    w & m != 0
  }

  function Or(v: bv32, w: bv32): bv32 { v | w }

  function And(v: bv32, w: bv32): bv32 { v & w }

  function AndNot(v: bv32, w: bv32): bv32 { v & !w }

  function Xor(v: bv32, w: bv32): bv32 { v ^ w }

  // ----- words, bit by bit

  predicate Single(m: bv32) {
    m != 0 && m & (m - 1) == 0
  }

  lemma MaskSingle(k: nat)
    requires k < INTBITS
    ensures Single(Mask(k))
  {
  }

  lemma MasksDiffer(j: nat, k: nat)
    requires j < INTBITS && k < INTBITS
    ensures Mask(j) == Mask(k) <==> j == k
  {
  }

  lemma SinglesMeet(m: bv32, n: bv32)
    requires Single(m) && Single(n)
    ensures Meets(m, n) <==> m == n
  {
  }

  lemma MaskBit(j: nat, k: nat)
    requires j < INTBITS && k < INTBITS
    ensures Bit(Mask(j), k) <==> j == k
  {
    hide Mask, Single, Meets;
    MaskSingle(j);
    MaskSingle(k);
    SinglesMeet(Mask(j), Mask(k));
    MasksDiffer(j, k);
  }

  lemma OrWord(v: bv32, w: bv32, m: bv32)
    requires Single(m)
    ensures (v | w) & m != 0 <==> v & m != 0 || w & m != 0
  {
  }

  lemma OrBit(v: bv32, w: bv32, m: bv32)
    requires Single(m)
    ensures Meets(Or(v, w), m) <==> Meets(v, m) || Meets(w, m)
  {
    OrWord(v, w, m);
  }

  lemma AndWord(v: bv32, w: bv32, m: bv32)
    requires Single(m)
    ensures (v & w) & m != 0 <==> v & m != 0 && w & m != 0
  {
  }

  lemma AndBit(v: bv32, w: bv32, m: bv32)
    requires Single(m)
    ensures Meets(And(v, w), m) <==> Meets(v, m) && Meets(w, m)
  {
    AndWord(v, w, m);
  }

  lemma AndNotWord(v: bv32, w: bv32, m: bv32)
    requires Single(m)
    ensures (v & !w) & m != 0 <==> v & m != 0 && w & m == 0
  {
  }

  lemma AndNotBit(v: bv32, w: bv32, m: bv32)
    requires Single(m)
    ensures Meets(AndNot(v, w), m) <==> Meets(v, m) && !Meets(w, m)
  {
    AndNotWord(v, w, m);
  }

  lemma XorWord(v: bv32, w: bv32, m: bv32)
    requires Single(m)
    ensures (v ^ w) & m != 0 <==> (v & m != 0) != (w & m != 0)
  {
  }

  lemma XorBit(v: bv32, w: bv32, m: bv32)
    requires Single(m)
    ensures Meets(Xor(v, w), m) <==> (Meets(v, m) != Meets(w, m))
  {
    XorWord(v, w, m);
  }

  lemma BitOps(v: bv32, w: bv32, k: nat)
    requires k < INTBITS
    ensures Bit(Or(v, w), k) <==> Bit(v, k) || Bit(w, k)
    ensures Bit(And(v, w), k) <==> Bit(v, k) && Bit(w, k)
    ensures Bit(AndNot(v, w), k) <==> Bit(v, k) && !Bit(w, k)
    ensures Bit(Xor(v, w), k) <==> (Bit(v, k) != Bit(w, k))
  {
    hide Mask, Single, Meets, Or, And, AndNot, Xor;
    MaskSingle(k);
    OrBit(v, w, Mask(k));
    AndBit(v, w, Mask(k));
    AndNotBit(v, w, Mask(k));
    XorBit(v, w, Mask(k));
  }

  /** The bits below the single bit of `m` are clear. */
  predicate ClearBelow(w: bv32, m: bv32) {
    w & (m - 1) == 0
  }

  lemma {:induction false} LowBitsClear(w: bv32, k: nat)
    requires k < INTBITS && forall j: nat :: j < k ==> !Bit(w, j)
    ensures ClearBelow(w, Mask(k))
  {
    if k == 0 {
      FirstMask(w);
    } else {
      hide Mask, Bit, ClearBelow;
      LowBitsClear(w, k - 1);
      assert !Bit(w, k - 1);
      OneMoreClear(w, k - 1);
    }
  }

  lemma FirstMask(w: bv32)
    ensures ClearBelow(w, Mask(0))
  {
  }

  lemma NextMask(k: nat)
    requires k + 1 < INTBITS
    ensures Mask(k + 1) == Mask(k) << 1
  {
    assert k == 0 || k == 1 || k == 2 || k == 3 || k == 4 || k == 5 || k == 6 || k == 7 || k == 8 || k == 9 || k == 10
        || k == 11 || k == 12 || k == 13 || k == 14 || k == 15 || k == 16 || k == 17 || k == 18 || k == 19 || k == 20
        || k == 21 || k == 22 || k == 23 || k == 24 || k == 25 || k == 26 || k == 27 || k == 28 || k == 29 || k == 30;
  }

  lemma OneMoreClear(w: bv32, k: nat)
    requires k + 1 < INTBITS && !Bit(w, k) && ClearBelow(w, Mask(k))
    ensures ClearBelow(w, Mask(k + 1))
  {
    hide Mask, Single, Meets, ClearBelow;
    NextMask(k);
    MaskSingle(k);
    Doubled(w, Mask(k), Mask(k + 1));
  }

  lemma Doubled(w: bv32, m: bv32, m': bv32)
    requires Single(m) && !Meets(w, m) && ClearBelow(w, m) && m' == m << 1
    ensures ClearBelow(w, m')
  {
  }

  /** A word is zero exactly when none of its 32 bits is set, the sign bit included. */
  lemma ZeroWord(w: bv32)
    ensures w == 0 <==> forall k: nat :: k < INTBITS ==> !Bit(w, k)
  {
    hide Mask, Bit, ClearBelow;
    if forall k: nat :: k < INTBITS ==> !Bit(w, k) {
      LowBitsClear(w, 31);
      assert !Bit(w, 31);
      TopAndLow(w);
    } else {
      var k: nat :| k < INTBITS && Bit(w, k);
      ZeroBit(k);
    }
  }

  lemma TopAndLow(w: bv32)
    requires !Bit(w, 31) && ClearBelow(w, Mask(31))
    ensures w == 0
  {
  }

  lemma ZeroBit(k: nat)
    requires k < INTBITS
    ensures !Bit(0, k)
  {
  }

  lemma XorZeroWord(v: bv32, w: bv32)
    requires v ^ w == 0
    ensures v == w
  {
  }

  lemma XorZero(v: bv32, w: bv32)
    requires Xor(v, w) == 0
    ensures v == w
  {
    XorZeroWord(v, w);
  }

  // ----- four words as a set

  predicate Has(words: seq<bv32>, i: int)
    requires |words| == XBI
  {
    0 <= i < MAX_BITS && Bit(words[i / INTBITS], i % INTBITS)
  }

  function Members(words: seq<bv32>): (s: set<int>)
    requires |words| == XBI
    ensures forall i :: i in s <==> Has(words, i)
  {
    set i | 0 <= i < MAX_BITS && Has(words, i)
  }

  lemma BitOf(x: nat, k: nat)
    requires x < XBI && k < INTBITS
    ensures var i := x * INTBITS + k; 0 <= i < MAX_BITS && i / INTBITS == x && i % INTBITS == k
  {
  }

  lemma ZeroMembers(words: seq<bv32>)
    requires |words| == XBI
    ensures Members(words) == {} <==> forall x :: 0 <= x < XBI ==> words[x] == 0
  {
    hide Bit;
    if Members(words) == {} {
      forall x | 0 <= x < XBI
        ensures words[x] == 0
      {
        forall k: nat | k < INTBITS
          ensures !Bit(words[x], k)
        {
          BitOf(x, k);
          assert !Has(words, x * INTBITS + k);
        }
        ZeroWord(words[x]);
      }
    }
    if forall x :: 0 <= x < XBI ==> words[x] == 0 {
      ZeroWord(0);
    }
  }

  ghost predicate FourWords(a: seq<bv32>, b: seq<bv32>, c: seq<bv32>) {
    |a| == |b| == |c| == XBI
  }

  lemma UnionWords(a: seq<bv32>, b: seq<bv32>, c: seq<bv32>)
    requires FourWords(a, b, c) && forall x :: 0 <= x < XBI ==> c[x] == Or(a[x], b[x])
    ensures Members(c) == Members(a) + Members(b)
  {
    hide Bit, Or;
    forall i | 0 <= i < MAX_BITS
      ensures Has(c, i) <==> Has(a, i) || Has(b, i)
    {
      BitOps(a[i / INTBITS], b[i / INTBITS], i % INTBITS);
    }
  }

  lemma DifferenceWords(a: seq<bv32>, b: seq<bv32>, c: seq<bv32>)
    requires FourWords(a, b, c) && forall x :: 0 <= x < XBI ==> c[x] == AndNot(a[x], b[x])
    ensures Members(c) == Members(a) - Members(b)
  {
    hide Bit, AndNot;
    forall i | 0 <= i < MAX_BITS
      ensures Has(c, i) <==> Has(a, i) && !Has(b, i)
    {
      BitOps(a[i / INTBITS], b[i / INTBITS], i % INTBITS);
    }
  }

  lemma SymmetricWords(a: seq<bv32>, b: seq<bv32>, c: seq<bv32>)
    requires FourWords(a, b, c) && forall x :: 0 <= x < XBI ==> c[x] == Xor(a[x], b[x])
    ensures Members(c) == (Members(a) - Members(b)) + (Members(b) - Members(a))
  {
    hide Bit, Xor;
    forall i | 0 <= i < MAX_BITS
      ensures Has(c, i) <==> (Has(a, i) != Has(b, i))
    {
      BitOps(a[i / INTBITS], b[i / INTBITS], i % INTBITS);
    }
  }

  lemma IntersectionWords(a: seq<bv32>, b: seq<bv32>, c: seq<bv32>)
    requires FourWords(a, b, c) && forall x :: 0 <= x < XBI ==> c[x] == And(a[x], b[x])
    ensures Members(c) == Members(a) * Members(b)
  {
    hide Bit, And;
    forall i | 0 <= i < MAX_BITS
      ensures Has(c, i) <==> Has(a, i) && Has(b, i)
    {
      BitOps(a[i / INTBITS], b[i / INTBITS], i % INTBITS);
    }
  }

  /** Two sets meet exactly when some pair of words has a common bit. */
  lemma MeetingWords(a: seq<bv32>, b: seq<bv32>)
    requires |a| == |b| == XBI
    ensures Members(a) * Members(b) == {} <==> forall x :: 0 <= x < XBI ==> And(a[x], b[x]) == 0
  {
    hide And, Has, Members;
    var both := [And(a[0], b[0]), And(a[1], b[1]), And(a[2], b[2]), And(a[3], b[3])];
    IntersectionWords(a, b, both);
    ZeroMembers(both);
  }

  /** No common member lies below word `x`, and the bits of `r` are the common members in word `x`. */
  ghost predicate FirstMeeting(a: seq<bv32>, b: seq<bv32>, x: int, r: bv32)
    requires |a| == |b| == XBI
  {
    && (forall i :: i in Members(a) * Members(b) ==> i >= x * INTBITS)
    && (forall k :: 0 <= k < INTBITS ==> (Bit(r, k) <==> x * INTBITS + k in Members(a) * Members(b)))
  }

  lemma FirstCommonWord(a: seq<bv32>, b: seq<bv32>, x: int)
    requires |a| == |b| == XBI && 0 <= x < XBI && forall j :: 0 <= j < x ==> And(a[j], b[j]) == 0
    ensures FirstMeeting(a, b, x, And(a[x], b[x]))
  {
    hide Bit, And;
    forall i | 0 <= i < MAX_BITS
      ensures i in Members(a) * Members(b) <==> Bit(And(a[i / INTBITS], b[i / INTBITS]), i % INTBITS)
    {
      BitOps(a[i / INTBITS], b[i / INTBITS], i % INTBITS);
    }
    forall i | i in Members(a) * Members(b)
      ensures i >= x * INTBITS
    {
      if i < x * INTBITS {
        ZeroWord(And(a[i / INTBITS], b[i / INTBITS]));
      }
    }
  }

  /** Two vectors of words are the same exactly when they stand for the same set. */
  lemma SameMembers(a: seq<bv32>, b: seq<bv32>)
    requires |a| == |b| == XBI
    ensures a == b <==> Members(a) == Members(b)
  {
    hide Xor, Has;
    if Members(a) == Members(b) {
      var c := [Xor(a[0], b[0]), Xor(a[1], b[1]), Xor(a[2], b[2]), Xor(a[3], b[3])];
      SymmetricWords(a, b, c);
      ZeroMembers(c);
      forall x | 0 <= x < XBI
        ensures a[x] == b[x]
      {
        assert c[x] == 0;
        XorZero(a[x], b[x]);
      }
    }
  }

  /** One word combined with a mask changes one member and no other. */
  lemma OneBit(words: seq<bv32>, bit: int, w: bv32, i: int)
    requires |words| == XBI && 0 <= bit < MAX_BITS && 0 <= i < MAX_BITS
    requires var v, m := words[bit / INTBITS], Mask(bit % INTBITS); w == Or(v, m) || w == AndNot(v, m) || w == Xor(v, m)
    ensures var m, changed := Mask(bit % INTBITS), words[bit / INTBITS := w];
      && (i != bit ==> Has(changed, i) == Has(words, i))
      && (w == Or(words[bit / INTBITS], m) ==> Has(changed, bit))
      && (w == AndNot(words[bit / INTBITS], m) ==> !Has(changed, bit))
      && (w == Xor(words[bit / INTBITS], m) ==> Has(changed, bit) == !Has(words, bit))
  {
    hide Bit, Mask, Or, AndNot, Xor;
    MaskBit(bit % INTBITS, i % INTBITS);
    MaskBit(bit % INTBITS, bit % INTBITS);
    BitOps(words[bit / INTBITS], Mask(bit % INTBITS), i % INTBITS);
    BitOps(words[bit / INTBITS], Mask(bit % INTBITS), bit % INTBITS);
  }

  // ----- the class

  class ExtendedBitvector {
    const bits: array<bv32>

    ghost predicate Valid() {
      bits.Length == XBI
    }

    ghost function Set(): set<int>
      requires Valid()
      reads bits
    {
      Members(bits[..])
    }

    constructor ()
      ensures Valid() && fresh(bits) && Set() == {}
    {
      bits := new bv32[XBI](_ => 0);
      new;
      ZeroMembers(bits[..]);
    }

    /** The copy is equal and independent: it has words of its own. */
    constructor Clone(clone: ExtendedBitvector)
      requires clone.Valid()
      ensures Valid() && fresh(bits) && Set() == clone.Set()
    {
      var words := new bv32[XBI](_ => 0);
      for x := 0 to XBI
        invariant forall j :: 0 <= j < x ==> words[j] == clone.bits[j]
      {
        words[x] := clone.bits[x];
      }
      bits := words;
      new;
      assert bits[..] == clone.bits[..];
    }

    method IsSet(bit: int) returns (r: bool)
      requires Valid() && 0 <= bit < MAX_BITS
      ensures r == (bit in Set())
    {
      hide Bit;
      r := Bit(bits[bit / INTBITS], bit % INTBITS);
      assert Has(bits[..], bit) == r;
    }

    method SetBit(bit: int)
      requires Valid() && 0 <= bit < MAX_BITS
      modifies bits
      ensures Set() == old(Set()) + {bit}
    {
      hide Or, AndNot, Xor, Mask, Has;
      var w := Or(bits[bit / INTBITS], Mask(bit % INTBITS));
      ghost var before := bits[..];
      forall i | 0 <= i < MAX_BITS
        ensures Has(before[bit / INTBITS := w], i) == (i == bit || Has(before, i))
      {
        OneBit(before, bit, w, i);
      }
      OnlyBits(before, before[bit / INTBITS := w]);
      bits[bit / INTBITS] := w;
    }

    method RemoveBit(bit: int)
      requires Valid() && 0 <= bit < MAX_BITS
      modifies bits
      ensures Set() == old(Set()) - {bit}
    {
      hide Or, AndNot, Xor, Mask, Has;
      var w := AndNot(bits[bit / INTBITS], Mask(bit % INTBITS));
      ghost var before := bits[..];
      forall i | 0 <= i < MAX_BITS
        ensures Has(before[bit / INTBITS := w], i) == (i != bit && Has(before, i))
      {
        OneBit(before, bit, w, i);
      }
      OnlyBits(before, before[bit / INTBITS := w]);
      bits[bit / INTBITS] := w;
    }

    method ToggleBit(bit: int)
      requires Valid() && 0 <= bit < MAX_BITS
      modifies bits
      ensures Set() == if bit in old(Set()) then old(Set()) - {bit} else old(Set()) + {bit}
    {
      hide Or, AndNot, Xor, Mask, Has;
      var w := Xor(bits[bit / INTBITS], Mask(bit % INTBITS));
      ghost var before := bits[..];
      forall i | 0 <= i < MAX_BITS
        ensures Has(before[bit / INTBITS := w], i) == ((i == bit) != Has(before, i))
      {
        OneBit(before, bit, w, i);
      }
      OnlyBits(before, before[bit / INTBITS := w]);
      bits[bit / INTBITS] := w;
    }

    /** The bulk operations work for any other vector, the vector itself included. */
    method SetBits(other: ExtendedBitvector)
      requires Valid() && other.Valid()
      modifies bits
      ensures Set() == old(Set()) + old(other.Set())
    {
      hide Or, AndNot, Xor, Has;
      ghost var a, b := bits[..], other.bits[..];
      for x := 0 to XBI
        invariant forall j :: 0 <= j < x ==> bits[j] == Or(a[j], b[j])
        invariant forall j :: x <= j < XBI ==> bits[j] == a[j] && other.bits[j] == b[j]
      {
        bits[x] := Or(bits[x], other.bits[x]);
      }
      UnionWords(a, b, bits[..]);
    }

    method RemoveBits(other: ExtendedBitvector)
      requires Valid() && other.Valid()
      modifies bits
      ensures Set() == old(Set()) - old(other.Set())
    {
      hide Or, AndNot, Xor, Has;
      ghost var a, b := bits[..], other.bits[..];
      for x := 0 to XBI
        invariant forall j :: 0 <= j < x ==> bits[j] == AndNot(a[j], b[j])
        invariant forall j :: x <= j < XBI ==> bits[j] == a[j] && other.bits[j] == b[j]
      {
        bits[x] := AndNot(bits[x], other.bits[x]);
      }
      DifferenceWords(a, b, bits[..]);
    }

    method ToggleBits(other: ExtendedBitvector)
      requires Valid() && other.Valid()
      modifies bits
      ensures Set() == (old(Set()) - old(other.Set())) + (old(other.Set()) - old(Set()))
    {
      hide Or, AndNot, Xor, Has;
      ghost var a, b := bits[..], other.bits[..];
      for x := 0 to XBI
        invariant forall j :: 0 <= j < x ==> bits[j] == Xor(a[j], b[j])
        invariant forall j :: x <= j < XBI ==> bits[j] == a[j] && other.bits[j] == b[j]
      {
        bits[x] := Xor(bits[x], other.bits[x]);
      }
      SymmetricWords(a, b, bits[..]);
    }

    method ClearBits()
      requires Valid()
      modifies bits
      ensures Set() == {}
    {
      for x := 0 to XBI
        invariant forall j :: 0 <= j < x ==> bits[j] == 0
      {
        bits[x] := 0;
      }
      ZeroMembers(bits[..]);
    }

    method IsEmpty() returns (r: bool)
      requires Valid()
      ensures r == (Set() == {})
    {
      r := true;
      for x := 0 to XBI
        invariant r == forall j :: 0 <= j < x ==> bits[j] == 0
      {
        r := r && bits[x] == 0;
      }
      ZeroMembers(bits[..]);
    }

    /** The first common word that is not zero, or zero when the sets do not meet. */
    method HasBits(other: ExtendedBitvector) returns (r: bv32)
      requires Valid() && other.Valid()
      ensures r != 0 <==> Set() * other.Set() != {}
      ensures r != 0 ==> exists x :: 0 <= x < XBI && FirstMeeting(bits[..], other.bits[..], x, r)
    {
      hide And, Members;
      MeetingWords(bits[..], other.bits[..]);
      for x := 0 to XBI
        invariant forall j :: 0 <= j < x ==> And(bits[..][j], other.bits[..][j]) == 0
      {
        r := And(bits[x], other.bits[x]);
        if r != 0 {
          assert And(bits[..][x], other.bits[..][x]) != 0;
          FirstCommonWord(bits[..], other.bits[..], x);
          return;
        }
      }
      return 0;
    }

    method SameBits(other: ExtendedBitvector) returns (r: bool)
      requires Valid() && other.Valid()
      ensures r == (Set() == other.Set())
    {
      SameMembers(bits[..], other.bits[..]);
      for x := 0 to XBI
        invariant forall j :: 0 <= j < x ==> bits[j] == other.bits[j]
      {
        if bits[x] != other.bits[x] {
          assert bits[..][x] != other.bits[..][x];
          return false;
        }
      }
      assert bits[..] == other.bits[..];
      return true;
    }

    static method Meb(bit: int) returns (v: ExtendedBitvector)
      requires bit < MAX_BITS
      ensures fresh(v) && v.Valid() && fresh(v.bits) && v.Set() == if bit < 0 then {} else {bit}
    {
      v := new ExtendedBitvector();
      if bit >= 0 {
        v.SetBit(bit);
      }
    }

    /** With a negative first bit the other bits are ignored. */
    static method MultiMeb(bit: int, args: seq<int>) returns (v: ExtendedBitvector)
      requires bit < MAX_BITS && (bit >= 0 ==> forall arg :: arg in args ==> 0 <= arg < MAX_BITS)
      ensures fresh(v) && v.Valid() && fresh(v.bits)
      ensures v.Set() == if bit < 0 then {} else {bit} + set arg <- args
    {
      v := new ExtendedBitvector();
      if bit < 0 {
        return;
      }
      v.SetBit(bit);
      for i := 0 to |args|
        invariant fresh(v) && v.Valid() && fresh(v.bits)
        invariant v.Set() == {bit} + set arg <- args[..i]
      {
        assert args[i] in args;
        assert forall arg :: arg in args[..i + 1] <==> arg in args[..i] || arg == args[i];
        v.SetBit(args[i]);
      }
      assert args[..|args|] == args;
    }
  }

  /** No member lies outside the 128 bits. */
  lemma OnlyBits(a: seq<bv32>, b: seq<bv32>)
    requires |a| == |b| == XBI
    ensures forall i :: Has(a, i) || Has(b, i) ==> 0 <= i < MAX_BITS
  {
  }
}
