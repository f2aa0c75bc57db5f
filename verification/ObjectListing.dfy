/**
 * show_list_to_char of act_info.cs: the objects a character sees, merged by description when combining is on,
 * with imaginary objects mixed in when the character is out of sorts.
 *
 * Coins and imaginary objects are oracles: `coin(i)` is the toss before the i-th object, `imagine(k)` the k-th
 * imaginary object. Visibility and description text come with the object.
 */
module ObjectListing {
  import opened Basics
  import opened Wrappers

  datatype Object = Object(worn: bool, visible: bool, isTrap: bool, itemType: int, description: string, count: int)

  datatype Viewer = Viewer(combine: bool, detectsInvisible: bool, mentalState: int, drunk: int)

  datatype Entry = Entry(text: string, count: int, itemType: int)

  datatype Dice = Dice(coin: nat -> bool, imagine: nat -> Entry, fade: nat)

  predicate Seen(v: Viewer, obj: Object) {
    !obj.worn && obj.visible && (!obj.isTrap || v.detectsInvisible)
  }

  // ----- how many objects are imagined

  function Disorder(v: Viewer): int {
    (if v.mentalState > 0 then v.mentalState else 1) * (if v.drunk > 0 then v.drunk / 12 else 1)
  }

  /** A draw below `n`, or 0 when there is nothing to draw from. */
  function Below(roll: nat, n: nat): (r: int)
    ensures 0 <= r && (if n == 0 then r == 0 else r < n)
  {
    if n == 0 then 0 else roll % n
  }

  function OffCount(v: Viewer, count: nat, fade: nat): int {
    var ms := Disorder(v);
    if ms > 40 || ms < -40 then
      var off: int := Clamp(Div(count * ms, 100), 0 - count, count * 2);
      if off < 0 then off + Below(fade, 0 - off) else if off > 0 then off - Below(fade, off) else off
    else 0
  }

  /** The code provides for hidden objects, but no state of mind hides one: the offset is never negative. */
  lemma OffCountRange(v: Viewer, count: nat, fade: nat)
    ensures 0 <= OffCount(v, count, fade) <= 2 * count
    ensures OffCount(v, count, fade) > 0 <==> Disorder(v) > 40 && count * Disorder(v) >= 100
  {
    assert Disorder(v) >= 0;
    assert count * Disorder(v) >= 0;
  }

  // ----- the listing on values

  /** The position of the last entry with the given text, or -1. */
  function LastWith(entries: seq<Entry>, text: string): (i: int)
    ensures -1 <= i < |entries|
    ensures i >= 0 ==> entries[i].text == text
    ensures forall j :: i < j < |entries| ==> entries[j].text != text
  {
    if entries == [] then -1
    else if entries[|entries| - 1].text == text then |entries| - 1
    else LastWith(entries[..|entries| - 1], text)
  }

  function AddObject(v: Viewer, entries: seq<Entry>, obj: Object): seq<Entry> {
    var i := LastWith(entries, obj.description);
    if v.combine && i >= 0 then entries[i := entries[i].(count := entries[i].count + obj.count)]
    else entries + [Entry(obj.description, obj.count, obj.itemType)]
  }

  function Imagined(d: Dice, k: nat): Entry {
    d.imagine(k).(count := 1)
  }

  /** Entries so far and the number of imaginary objects inserted so far. */
  datatype Listing = Listing(entries: seq<Entry>, imagined: nat)

  /** One round of the loop: perhaps an imaginary object, then the object itself if it is seen. */
  function Round(v: Viewer, d: Dice, extra: nat, l: Listing, obj: Object, i: nat): Listing {
    var l' :=
      if l.imagined < extra && d.coin(i) then Listing(l.entries + [Imagined(d, l.imagined)], l.imagined + 1) else l;
    if Seen(v, obj) then l'.(entries := AddObject(v, l'.entries, obj)) else l'
  }

  function Rounds(v: Viewer, d: Dice, extra: nat, objs: seq<Object>): Listing {
    if objs == [] then Listing([], 0)
    else Round(v, d, extra, Rounds(v, d, extra, objs[..|objs| - 1]), objs[|objs| - 1], |objs| - 1)
  }

  /** The imaginary objects that found no place among the others. */
  function Rest(d: Dice, from: nat, extra: nat): seq<Entry>
    requires from <= extra
    decreases extra
  {
    if from == extra then [] else Rest(d, from, extra - 1) + [Imagined(d, extra - 1)]
  }

  /** The objects that the loop looks at: a negative offset cuts the list short. */
  function Looked(objs: seq<Object>, offcount: int): seq<Object>
    requires |objs| + offcount >= 0
  {
    if offcount < 0 then objs[..|objs| + offcount] else objs
  }

  function Shown(v: Viewer, d: Dice, objs: seq<Object>, offcount: int): seq<Entry>
    requires |objs| + offcount >= 0
  {
    var extra := Max(offcount, 0);
    RoundsBounded(v, d, extra, Looked(objs, offcount));
    var l := Rounds(v, d, extra, Looked(objs, offcount));
    l.entries + Rest(d, l.imagined, extra)
  }

  lemma {:induction false} RoundsBounded(v: Viewer, d: Dice, extra: nat, objs: seq<Object>)
    ensures var l := Rounds(v, d, extra, objs); l.imagined <= extra && |l.entries| <= |objs| + l.imagined
    decreases |objs|
  {
    if objs != [] {
      RoundsBounded(v, d, extra, objs[..|objs| - 1]);
    }
  }

  // ----- the code, on three arrays

  ghost predicate Filled(texts: array<string>, counts: array<int>, types: array<int>, n: nat, entries: seq<Entry>)
    reads texts, counts, types
  {
    n == |entries| <= texts.Length == counts.Length == types.Length &&
    forall i :: 0 <= i < n ==> entries[i] == Entry(texts[i], counts[i], types[i])
  }

  method Insert(texts: array<string>, counts: array<int>, types: array<int>, n: nat, e: Entry,
                ghost entries: seq<Entry>)
    requires Filled(texts, counts, types, n, entries) && n < texts.Length && counts != types
    modifies texts, counts, types
    ensures Filled(texts, counts, types, n + 1, entries + [e])
  {
    texts[n] := e.text;
    counts[n] := e.count;
    types[n] := e.itemType;
  }

  /** The search for an entry to merge with, the item type written ahead of the decision, and the decision. */
  method Place(v: Viewer, texts: array<string>, counts: array<int>, types: array<int>, n: nat, obj: Object,
               ghost entries: seq<Entry>) returns (n': nat)
    requires Filled(texts, counts, types, n, entries) && n < texts.Length && counts != types
    modifies texts, counts, types
    ensures Filled(texts, counts, types, n', AddObject(v, entries, obj))
  {
    var fCombine := false;
    if v.combine {
      var i := n - 1;
      while i >= 0
        invariant -1 <= i < n
        invariant forall j :: i < j < n ==> texts[j] != obj.description
        invariant Filled(texts, counts, types, n, entries)
      {
        if texts[i] == obj.description {
          assert i == LastWith(entries, obj.description) by {
            assert entries[i].text == obj.description && forall j :: i < j < n ==> entries[j].text != obj.description;
          }
          counts[i] := counts[i] + obj.count;
          fCombine := true;
          break;
        }
        i := i - 1;
      }
      assert !fCombine ==> LastWith(entries, obj.description) == -1;
    }
    types[n] := obj.itemType;
    n' := n;
    if !fCombine {
      texts[n] := obj.description;
      counts[n] := obj.count;
      n' := n + 1;
    }
  }

  /** One round of the loop on the arrays; `tmp` imaginary objects are still to be placed. */
  method PlaceRound(v: Viewer, d: Dice, extra: nat, texts: array<string>, counts: array<int>, types: array<int>, n: nat,
                    tmp: nat, obj: Object, i: nat, ghost l: Listing) returns (n': nat, tmp': nat)
    requires Filled(texts, counts, types, n, l.entries) && counts != types
    requires l.imagined + tmp == extra && n + (if tmp > 0 then 1 else 0) < texts.Length
    modifies texts, counts, types
    ensures var after := Round(v, d, extra, l, obj, i);
      && Filled(texts, counts, types, n', after.entries)
      && after.imagined + tmp' == extra
  {
    hide AddObject, Filled;
    n', tmp' := n, tmp;
    ghost var entries := l.entries;
    FilledLength(texts, counts, types, n, entries);
    if tmp > 0 && d.coin(i) {
      Insert(texts, counts, types, n, Imagined(d, extra - tmp), entries);
      entries, n', tmp' := entries + [Imagined(d, extra - tmp)], n + 1, tmp - 1;
    }
    if Seen(v, obj) {
      n' := Place(v, texts, counts, types, n', obj, entries);
    }
  }

  lemma FilledLength(texts: array<string>, counts: array<int>, types: array<int>, n: nat, entries: seq<Entry>)
    requires Filled(texts, counts, types, n, entries)
    ensures n == |entries| <= texts.Length == counts.Length == types.Length
  {
  }

  method PlaceAll(v: Viewer, d: Dice, extra: nat, texts: array<string>, counts: array<int>, types: array<int>,
                  objs: seq<Object>, offcount: int) returns (n: nat, tmp: nat)
    requires |objs| + offcount >= 0 && extra == Max(offcount, 0) && counts != types
    requires |objs| + extra == texts.Length == counts.Length == types.Length
    modifies texts, counts, types
    ensures var l := Rounds(v, d, extra, Looked(objs, offcount));
      Filled(texts, counts, types, n, l.entries) && l.imagined + tmp == extra
  {
    var cnt := 0;
    n, tmp := 0, extra;
    ghost var looked, l := Looked(objs, offcount), Listing([], 0);
    hide Filled, Round;
    assert Filled(texts, counts, types, 0, []) by {
      FilledEmpty(texts, counts, types);
    }
    while cnt < |objs|
      invariant 0 <= cnt <= |looked| && l == Rounds(v, d, extra, looked[..cnt])
      invariant Filled(texts, counts, types, n, l.entries) && l.imagined + tmp == extra
    {
      if offcount < 0 && cnt + 1 > |objs| + offcount {
        break;
      }
      assert looked[..cnt + 1][..cnt] == looked[..cnt];
      RoundsBounded(v, d, extra, looked[..cnt]);
      FilledLength(texts, counts, types, n, l.entries);
      n, tmp := PlaceRound(v, d, extra, texts, counts, types, n, tmp, objs[cnt], cnt, l);
      l := Round(v, d, extra, l, objs[cnt], cnt);
      cnt := cnt + 1;
    }
    assert looked[..cnt] == looked;
  }

  lemma FilledEmpty(texts: array<string>, counts: array<int>, types: array<int>)
    requires texts.Length == counts.Length == types.Length
    ensures Filled(texts, counts, types, 0, [])
  {
  }

  /** The imaginary objects that were not placed go to the end. */
  method PlaceRest(d: Dice, extra: nat, texts: array<string>, counts: array<int>, types: array<int>, n: nat, tmp: nat,
                   ghost l: Listing) returns (n': nat)
    requires Filled(texts, counts, types, n, l.entries) && l.imagined + tmp == extra && counts != types
    requires n + tmp <= texts.Length
    modifies texts, counts, types
    ensures Filled(texts, counts, types, n', l.entries + Rest(d, l.imagined, extra))
  {
    hide Filled;
    n' := n;
    ghost var rest := [];
    assert l.entries + rest == l.entries;
    for i := 0 to tmp
      invariant n' == n + i && rest == Rest(d, l.imagined, l.imagined + i)
      invariant Filled(texts, counts, types, n', l.entries + rest)
    {
      var e := Imagined(d, extra - tmp + i);
      Insert(texts, counts, types, n', e, l.entries + rest);
      assert l.entries + rest + [e] == l.entries + (rest + [e]);
      rest, n' := rest + [e], n' + 1;
    }
  }

  /**
   * The display lines; none at all when the character is not connected, has no list, or nothing is left to show.
   * Every array index stays below count + max(offcount, 0).
   */
  method ShowListToChar(connected: bool, list: Option<seq<Object>>, v: Viewer, d: Dice) returns (lines: seq<Entry>)
    ensures lines == if !connected || list == None then []
                     else
                       var off := OffCount(v, |list.value|, d.fade);
                       if |list.value| + off <= 0 then [] else Shown(v, d, list.value, off)
  {
    hide OffCount, Rounds, Rest;
    if !connected || list == None {
      return [];
    }
    var objs := list.value;
    var count := |objs|;
    var offcount: int := OffCount(v, count, d.fade);
    if count + offcount <= 0 {
      return [];
    }
    var extra: nat := Max(offcount, 0);
    var size := count + extra;
    var texts := new string[size](_ => "");
    var counts := new int[size](_ => 0);
    var types := new int[size](_ => 0);
    var nShow, tmp := PlaceAll(v, d, extra, texts, counts, types, objs, offcount);
    ghost var l := Rounds(v, d, extra, Looked(objs, offcount));
    RoundsBounded(v, d, extra, Looked(objs, offcount));
    FilledLength(texts, counts, types, nShow, l.entries);
    nShow := PlaceRest(d, extra, texts, counts, types, nShow, tmp, l);
    ghost var shown := Shown(v, d, objs, offcount);
    lines := [];
    for i := 0 to nShow
      invariant lines == shown[..i] && Filled(texts, counts, types, nShow, shown)
    {
      lines := lines + [Entry(texts[i], counts[i], types[i])];
    }
  }

  // ----- what the listing adds up to

  /** The counts shown under a description. */
  function CountUnder(entries: seq<Entry>, text: string): int {
    if entries == [] then 0
    else CountUnder(entries[..|entries| - 1], text) +
         if entries[|entries| - 1].text == text then entries[|entries| - 1].count else 0
  }

  /** The counts of the seen objects with that description. */
  function Owned(v: Viewer, objs: seq<Object>, text: string): int {
    if objs == [] then 0
    else
      var obj := objs[|objs| - 1];
      Owned(v, objs[..|objs| - 1], text) + if Seen(v, obj) && obj.description == text then obj.count else 0
  }

  /** How many of the first `n` imaginary objects have that description. */
  function Dreamt(d: Dice, n: nat, text: string): nat {
    if n == 0 then 0 else Dreamt(d, n - 1, text) + if Imagined(d, n - 1).text == text then 1 else 0
  }

  lemma CountAppend(entries: seq<Entry>, e: Entry, text: string)
    ensures CountUnder(entries + [e], text) == CountUnder(entries, text) + if e.text == text then e.count else 0
  {
    assert (entries + [e])[..|entries|] == entries;
  }

  lemma {:induction false} CountUpdate(entries: seq<Entry>, i: nat, e: Entry, text: string)
    requires i < |entries| && e.text == entries[i].text
    ensures CountUnder(entries[i := e], text) ==
            CountUnder(entries, text) + if e.text == text then e.count - entries[i].count else 0
    decreases |entries|
  {
    var n := |entries| - 1;
    if i < n {
      CountUpdate(entries[..n], i, e, text);
      assert entries[i := e][..n] == entries[..n][i := e];
    } else {
      assert entries[i := e][..n] == entries[..n];
    }
  }

  lemma AddObjectCounts(v: Viewer, entries: seq<Entry>, obj: Object, text: string)
    ensures CountUnder(AddObject(v, entries, obj), text) ==
            CountUnder(entries, text) + if obj.description == text then obj.count else 0
  {
    var i := LastWith(entries, obj.description);
    if v.combine && i >= 0 {
      CountUpdate(entries, i, entries[i].(count := entries[i].count + obj.count), text);
    } else {
      CountAppend(entries, Entry(obj.description, obj.count, obj.itemType), text);
    }
  }

  lemma {:induction false} RoundsCounts(v: Viewer, d: Dice, extra: nat, objs: seq<Object>, text: string)
    ensures var l := Rounds(v, d, extra, objs);
      CountUnder(l.entries, text) == Owned(v, objs, text) + Dreamt(d, l.imagined, text)
    decreases |objs|
  {
    hide AddObject, CountUnder;
    if objs == [] {
      assert CountUnder([], text) == 0 by {
        CountNothing(text);
      }
    } else {
      var before, obj := Rounds(v, d, extra, objs[..|objs| - 1]), objs[|objs| - 1];
      RoundsCounts(v, d, extra, objs[..|objs| - 1], text);
      CountAppend(before.entries, Imagined(d, before.imagined), text);
      AddObjectCounts(v, before.entries, obj, text);
      AddObjectCounts(v, before.entries + [Imagined(d, before.imagined)], obj, text);
    }
  }

  lemma CountNothing(text: string)
    ensures CountUnder([], text) == 0
  {
  }

  lemma {:induction false} RestCounts(d: Dice, entries: seq<Entry>, from: nat, extra: nat, text: string)
    requires from <= extra
    ensures CountUnder(entries + Rest(d, from, extra), text) ==
            CountUnder(entries, text) + Dreamt(d, extra, text) - Dreamt(d, from, text)
    ensures |Rest(d, from, extra)| == extra - from
    decreases extra
  {
    if from < extra {
      RestCounts(d, entries, from, extra - 1, text);
      assert entries + Rest(d, from, extra) == entries + Rest(d, from, extra - 1) + [Imagined(d, extra - 1)];
      CountAppend(entries + Rest(d, from, extra - 1), Imagined(d, extra - 1), text);
    } else {
      assert entries + Rest(d, from, extra) == entries;
    }
  }

  /**
   * Under every description the counts shown add up to the counts of all seen objects with that description plus
   * the imaginary objects inserted with it, and exactly max(offcount, 0) imaginary objects are inserted, combined
   * or not.
   */
  lemma ShownAddsUp(v: Viewer, d: Dice, objs: seq<Object>, offcount: int, text: string)
    requires |objs| + offcount >= 0
    ensures var extra := Max(offcount, 0);
      && CountUnder(Shown(v, d, objs, offcount), text)
         == Owned(v, Looked(objs, offcount), text) + Dreamt(d, extra, text)
      && |Shown(v, d, objs, offcount)| <= |objs| + extra
  {
    var extra, looked := Max(offcount, 0), Looked(objs, offcount);
    var l := Rounds(v, d, extra, looked);
    RoundsBounded(v, d, extra, looked);
    RoundsCounts(v, d, extra, looked, text);
    RestCounts(d, l.entries, l.imagined, extra, text);
  }

  // ----- which lines share a text

  /** The lines on which the loop put an imaginary object. */
  function Dreams(v: Viewer, d: Dice, extra: nat, objs: seq<Object>): set<int> {
    if objs == [] then {}
    else
      var before, i := Rounds(v, d, extra, objs[..|objs| - 1]), |objs| - 1;
      Dreams(v, d, extra, objs[..i]) + if before.imagined < extra && d.coin(i) then {|before.entries|} else {}
  }

  /** The lines of the whole listing that show an imaginary object: those of the loop, and all after it. */
  function DreamLines(v: Viewer, d: Dice, objs: seq<Object>, offcount: int): set<int>
    requires |objs| + offcount >= 0
  {
    var extra, looked := Max(offcount, 0), Looked(objs, offcount);
    Dreams(v, d, extra, looked) + Span(|Rounds(v, d, extra, looked).entries|, |Shown(v, d, objs, offcount)|)
  }

  /** Of two lines with the same text the later one is imaginary. */
  ghost predicate OnlyDreamsRepeat(entries: seq<Entry>, dreams: set<int>) {
    forall i, j :: 0 <= i < j < |entries| && entries[i].text == entries[j].text ==> j in dreams
  }

  function SeenCount(v: Viewer, objs: seq<Object>): nat {
    if objs == [] then 0 else SeenCount(v, objs[..|objs| - 1]) + if Seen(v, objs[|objs| - 1]) then 1 else 0
  }

  lemma AddObjectRepeats(v: Viewer, entries: seq<Entry>, obj: Object, dreams: set<int>)
    requires v.combine && OnlyDreamsRepeat(entries, dreams)
    ensures OnlyDreamsRepeat(AddObject(v, entries, obj), dreams)
  {
    var added := AddObject(v, entries, obj);
    assert forall i :: 0 <= i < |entries| ==> added[i].text == entries[i].text;
  }

  lemma DreamRepeats(entries: seq<Entry>, e: Entry, dreams: set<int>)
    requires OnlyDreamsRepeat(entries, dreams)
    ensures OnlyDreamsRepeat(entries + [e], dreams + {|entries|})
  {
  }

  lemma {:induction false} RoundsRepeat(v: Viewer, d: Dice, extra: nat, objs: seq<Object>)
    ensures var l, dreams := Rounds(v, d, extra, objs), Dreams(v, d, extra, objs);
      && (v.combine ==> OnlyDreamsRepeat(l.entries, dreams))
      && (!v.combine ==> |l.entries| == SeenCount(v, objs) + l.imagined)
      && |dreams| == l.imagined
      && forall i :: i in dreams ==> 0 <= i < |l.entries|
    decreases |objs|
  {
    hide OnlyDreamsRepeat, Seen, Round;
    if objs == [] {
      NothingRepeats();
    } else {
      var i := |objs| - 1;
      RoundsRepeat(v, d, extra, objs[..i]);
      RoundRepeats(v, d, extra, Rounds(v, d, extra, objs[..i]), objs[i], i, Dreams(v, d, extra, objs[..i]));
    }
  }

  /** One round adds at most one imaginary line, and at most one line of its own. */
  lemma RoundRepeats(v: Viewer, d: Dice, extra: nat, l: Listing, obj: Object, i: nat, dreams: set<int>)
    requires v.combine ==> OnlyDreamsRepeat(l.entries, dreams)
    requires |dreams| == l.imagined && forall k :: k in dreams ==> 0 <= k < |l.entries|
    ensures var after := Round(v, d, extra, l, obj, i);
      var dreams' := dreams + if l.imagined < extra && d.coin(i) then {|l.entries|} else {};
      && (v.combine ==> OnlyDreamsRepeat(after.entries, dreams'))
      && (!v.combine ==> |after.entries| - after.imagined == |l.entries| - l.imagined + if Seen(v, obj) then 1 else 0)
      && |dreams'| == after.imagined
      && forall k :: k in dreams' ==> 0 <= k < |after.entries|
  {
    hide AddObject, OnlyDreamsRepeat, Seen;
    var dreamt := l.entries + [Imagined(d, l.imagined)];
    AddObjectLength(v, l.entries, obj);
    AddObjectLength(v, dreamt, obj);
    if v.combine {
      DreamRepeats(l.entries, Imagined(d, l.imagined), dreams);
      AddObjectRepeats(v, l.entries, obj, dreams);
      AddObjectRepeats(v, dreamt, obj, dreams + {|l.entries|});
    }
  }

  lemma NothingRepeats()
    ensures OnlyDreamsRepeat([], {})
  {
  }

  lemma AddObjectLength(v: Viewer, entries: seq<Entry>, obj: Object)
    ensures |entries| <= |AddObject(v, entries, obj)| <= |entries| + 1
    ensures !v.combine ==> |AddObject(v, entries, obj)| == |entries| + 1
  {
  }

  /**
   * With combining on, of any two lines with the same text the later one shows an imaginary object, so without
   * imaginary objects all texts differ; with combining off every seen object has a line of its own.
   */
  lemma LinesMerge(v: Viewer, d: Dice, objs: seq<Object>, offcount: int)
    requires |objs| + offcount >= 0
    ensures var shown, dreams := Shown(v, d, objs, offcount), DreamLines(v, d, objs, offcount);
      && (v.combine ==> OnlyDreamsRepeat(shown, dreams))
      && (v.combine && offcount <= 0 ==> forall i, j :: 0 <= i < j < |shown| ==> shown[i].text != shown[j].text)
      && (!v.combine ==> |shown| == SeenCount(v, Looked(objs, offcount)) + Max(offcount, 0))
      && |dreams| == Max(offcount, 0)
  {
    hide Rounds, Looked;
    var extra, looked := Max(offcount, 0), Looked(objs, offcount);
    var l, shown := Rounds(v, d, extra, looked), Shown(v, d, objs, offcount);
    RoundsBounded(v, d, extra, looked);
    RoundsRepeat(v, d, extra, looked);
    RestCounts(d, l.entries, l.imagined, extra, "");
    assert Dreams(v, d, extra, looked) !! Span(|l.entries|, |shown|);
    assert forall i :: 0 <= i < |l.entries| ==> shown[i] == l.entries[i];
  }

  // ----- which texts are shown, and in what order

  /** The position of the first seen object with that description, or -1. */
  function FirstSight(v: Viewer, objs: seq<Object>, text: string): (k: int)
    ensures -1 <= k < |objs|
    ensures k >= 0 ==> Seen(v, objs[k]) && objs[k].description == text
    ensures forall j :: 0 <= j < |objs| && Seen(v, objs[j]) && objs[j].description == text ==> 0 <= k <= j
  {
    if objs == [] then -1
    else
      var n := |objs| - 1;
      var k := FirstSight(v, objs[..n], text);
      if k >= 0 then k else if Seen(v, objs[n]) && objs[n].description == text then n else -1
  }

  /** Every seen description has a line. */
  ghost predicate AllShown(v: Viewer, objs: seq<Object>, entries: seq<Entry>) {
    forall obj :: obj in objs && Seen(v, obj) ==> LastWith(entries, obj.description) >= 0
  }

  /** The lines that are no dreams show seen descriptions, in the order of first sight. */
  ghost predicate SightOrder(v: Viewer, objs: seq<Object>, entries: seq<Entry>, dreams: set<int>) {
    && (forall i :: 0 <= i < |entries| && i !in dreams ==> FirstSight(v, objs, entries[i].text) >= 0)
    && (forall i, j :: 0 <= i < j < |entries| && i !in dreams && j !in dreams ==>
         FirstSight(v, objs, entries[i].text) < FirstSight(v, objs, entries[j].text))
  }

  /** Texts once shown stay on their lines. */
  ghost predicate SameTexts(entries: seq<Entry>, longer: seq<Entry>) {
    |entries| <= |longer| && forall i :: 0 <= i < |entries| ==> longer[i].text == entries[i].text
  }

  lemma StillShown(entries: seq<Entry>, longer: seq<Entry>, text: string)
    requires SameTexts(entries, longer) && LastWith(entries, text) >= 0
    ensures LastWith(longer, text) >= 0
  {
    hide LastWith;
    var i := LastWith(entries, text);
    assert longer[i].text == text;
  }

  lemma AddObjectShows(v: Viewer, entries: seq<Entry>, obj: Object)
    ensures SameTexts(entries, AddObject(v, entries, obj))
    ensures LastWith(AddObject(v, entries, obj), obj.description) >= 0
  {
    hide LastWith;
    var added := AddObject(v, entries, obj);
    if !(v.combine && LastWith(entries, obj.description) >= 0) {
      assert added[|entries|].text == obj.description;
    } else {
      assert added[LastWith(entries, obj.description)].text == obj.description;
    }
  }

  /** What was seen first stays what was seen first. */
  lemma SightKept(v: Viewer, objs: seq<Object>, obj: Object, text: string)
    ensures FirstSight(v, objs, text) >= 0 ==> FirstSight(v, objs + [obj], text) == FirstSight(v, objs, text)
    ensures FirstSight(v, objs, text) < 0 && Seen(v, obj) && obj.description == text ==>
      FirstSight(v, objs + [obj], text) == |objs|
  {
    hide Seen;
    assert (objs + [obj])[..|objs|] == objs;
  }

  lemma DreamShown(v: Viewer, objs: seq<Object>, entries: seq<Entry>, e: Entry)
    requires AllShown(v, objs, entries)
    ensures AllShown(v, objs, entries + [e])
  {
    hide Seen, LastWith;
    forall obj | obj in objs && Seen(v, obj)
      ensures LastWith(entries + [e], obj.description) >= 0
    {
      StillShown(entries, entries + [e], obj.description);
    }
  }

  /** An imaginary line disturbs nothing. */
  lemma DreamKeeps(v: Viewer, objs: seq<Object>, entries: seq<Entry>, e: Entry, dreams: set<int>)
    requires AllShown(v, objs, entries) && SightOrder(v, objs, entries, dreams)
    ensures AllShown(v, objs, entries + [e]) && SightOrder(v, objs, entries + [e], dreams + {|entries|})
  {
    hide FirstSight, AllShown;
    DreamShown(v, objs, entries, e);
  }

  lemma MoreShown(v: Viewer, objs: seq<Object>, obj: Object, entries: seq<Entry>)
    requires AllShown(v, objs, entries)
    ensures AllShown(v, objs + [obj], if Seen(v, obj) then AddObject(v, entries, obj) else entries)
  {
    hide AddObject, Seen, LastWith, SameTexts;
    AddObjectShows(v, entries, obj);
    forall o | o in objs + [obj] && Seen(v, o)
      ensures LastWith(if Seen(v, obj) then AddObject(v, entries, obj) else entries, o.description) >= 0
    {
      if o in objs {
        assert LastWith(entries, o.description) >= 0;
        if Seen(v, obj) {
          StillShown(entries, AddObject(v, entries, obj), o.description);
        }
      }
    }
  }

  lemma SightKeptByAll(v: Viewer, objs: seq<Object>, obj: Object, entries: seq<Entry>, dreams: set<int>)
    requires SightOrder(v, objs, entries, dreams)
    ensures SightOrder(v, objs + [obj], entries, dreams)
  {
    hide FirstSight;
    forall i | 0 <= i < |entries| && i !in dreams
      ensures FirstSight(v, objs + [obj], entries[i].text) == FirstSight(v, objs, entries[i].text)
    {
      SightKept(v, objs, obj, entries[i].text);
    }
  }

  /** A new line for an object comes after all others, as its description has not been seen before. */
  lemma AddObjectInOrder(v: Viewer, objs: seq<Object>, obj: Object, entries: seq<Entry>, dreams: set<int>)
    requires v.combine && Seen(v, obj) && AllShown(v, objs, entries) && SightOrder(v, objs, entries, dreams)
    ensures SightOrder(v, objs + [obj], AddObject(v, entries, obj), dreams)
  {
    hide FirstSight, Seen, LastWith;
    SightKeptByAll(v, objs, obj, entries, dreams);
    SightKept(v, objs, obj, obj.description);
    if LastWith(entries, obj.description) < 0 {
      forall i | 0 <= i < |entries| && i !in dreams
        ensures FirstSight(v, objs + [obj], entries[i].text) < |objs|
      {
        SightKept(v, objs, obj, entries[i].text);
      }
    }
  }

  lemma {:induction false} RoundsShow(v: Viewer, d: Dice, extra: nat, objs: seq<Object>)
    ensures var l := Rounds(v, d, extra, objs);
      AllShown(v, objs, l.entries) && (v.combine ==> SightOrder(v, objs, l.entries, Dreams(v, d, extra, objs)))
    decreases |objs|
  {
    hide AllShown, SightOrder, Round;
    if objs == [] {
      NothingShown(v);
    } else {
      var i := |objs| - 1;
      RoundsShow(v, d, extra, objs[..i]);
      assert objs[..i] + [objs[i]] == objs;
      RoundShows(v, d, extra, objs[..i], Rounds(v, d, extra, objs[..i]), objs[i], i, Dreams(v, d, extra, objs[..i]));
    }
  }

  lemma NothingShown(v: Viewer)
    ensures AllShown(v, [], []) && SightOrder(v, [], [], {})
  {
  }

  lemma RoundShows(v: Viewer, d: Dice, extra: nat, objs: seq<Object>, l: Listing, obj: Object, i: nat, dreams: set<int>)
    requires AllShown(v, objs, l.entries) && (v.combine ==> SightOrder(v, objs, l.entries, dreams))
    ensures var after := Round(v, d, extra, l, obj, i);
      var dreams' := dreams + if l.imagined < extra && d.coin(i) then {|l.entries|} else {};
      && AllShown(v, objs + [obj], after.entries)
      && (v.combine ==> SightOrder(v, objs + [obj], after.entries, dreams'))
  {
    hide AllShown, SightOrder, Seen, AddObject;
    var dreamt := l.imagined < extra && d.coin(i);
    var entries := if dreamt then l.entries + [Imagined(d, l.imagined)] else l.entries;
    var dreams' := dreams + if dreamt then {|l.entries|} else {};
    DreamShown(v, objs, l.entries, Imagined(d, l.imagined));
    if v.combine {
      DreamKeeps(v, objs, l.entries, Imagined(d, l.imagined), dreams);
      assert dreams + {} == dreams;
      SightKeptByAll(v, objs, obj, entries, dreams');
      if Seen(v, obj) {
        AddObjectInOrder(v, objs, obj, entries, dreams');
      }
    }
    MoreShown(v, objs, obj, entries);
  }

  /**
   * Every seen description has a line. With combining on, the lines that are no dreams show seen descriptions in the
   * order of first sight, each once; without imaginary objects those are all the lines.
   */
  lemma SightsInOrder(v: Viewer, d: Dice, objs: seq<Object>, offcount: int)
    requires |objs| + offcount >= 0
    ensures var shown, looked := Shown(v, d, objs, offcount), Looked(objs, offcount);
      && AllShown(v, looked, shown)
      && (v.combine ==> SightOrder(v, looked, shown, DreamLines(v, d, objs, offcount)))
      && (offcount <= 0 ==> DreamLines(v, d, objs, offcount) == {})
  {
    hide Rounds, Looked, Seen, FirstSight, LastWith, Dreams;
    var extra, looked := Max(offcount, 0), Looked(objs, offcount);
    var l, shown := Rounds(v, d, extra, looked), Shown(v, d, objs, offcount);
    RoundsShow(v, d, extra, looked);
    LinesMerge(v, d, objs, offcount);
    forall obj | obj in looked && Seen(v, obj)
      ensures LastWith(shown, obj.description) >= 0
    {
      StillShown(l.entries, shown, obj.description);
    }
  }

  // ----- what the lines say besides their texts

  /** The lines that are dreams, or those that are not, in order. */
  function Those(entries: seq<Entry>, dreams: set<int>, dreamt: bool): seq<Entry> {
    if entries == [] then []
    else
      var n := |entries| - 1;
      Those(entries[..n], dreams, dreamt) + if (n in dreams) == dreamt then [entries[n]] else []
  }

  /** The seen objects, in order. */
  function SeenObjects(v: Viewer, objs: seq<Object>): seq<Object> {
    if objs == [] then []
    else
      var n := |objs| - 1;
      SeenObjects(v, objs[..n]) + if Seen(v, objs[n]) then [objs[n]] else []
  }

  /** Each line that is no dream has the item type of the first seen object with its text. */
  ghost predicate FirstTypes(v: Viewer, objs: seq<Object>, entries: seq<Entry>, dreams: set<int>) {
    forall i :: 0 <= i < |entries| && i !in dreams ==>
      FirstSight(v, objs, entries[i].text) >= 0 &&
      entries[i].itemType == objs[FirstSight(v, objs, entries[i].text)].itemType
  }

  /** Line by line the same text and item type; merging changes counts alone. */
  ghost predicate SameLooks(a: seq<Entry>, b: seq<Entry>) {
    |a| == |b| && forall i :: 0 <= i < |a| ==> a[i].text == b[i].text && a[i].itemType == b[i].itemType
  }

  /** The dream lines show the imaginary objects in order. */
  ghost predicate DreamsInOrder(d: Dice, dreams: seq<Entry>) {
    forall k :: 0 <= k < |dreams| ==> dreams[k].text == d.imagine(k).text && dreams[k].itemType == d.imagine(k).itemType
  }

  /** Without merging, the lines are just those of the seen objects. */
  ghost predicate LineForLine(own: seq<Entry>, objs: seq<Object>) {
    |own| == |objs| &&
    forall k :: 0 <= k < |own| ==>
      own[k].text == objs[k].description && own[k].count == objs[k].count && own[k].itemType == objs[k].itemType
  }

  lemma {:induction false} ThoseLookTheSame(a: seq<Entry>, b: seq<Entry>, dreams: set<int>, dreamt: bool)
    requires SameLooks(a, b)
    ensures SameLooks(Those(a, dreams, dreamt), Those(b, dreams, dreamt))
    decreases |a|
  {
    if a != [] {
      ThoseLookTheSame(a[..|a| - 1], b[..|b| - 1], dreams, dreamt);
    }
  }

  lemma ThoseOneMore(entries: seq<Entry>, e: Entry, dreams: set<int>, dreamt: bool)
    ensures Those(entries + [e], dreams, dreamt) ==
            Those(entries, dreams, dreamt) + if (|entries| in dreams) == dreamt then [e] else []
  {
    assert (entries + [e])[..|entries|] == entries;
  }

  /** Whether later lines are dreams does not matter to earlier ones. */
  lemma {:induction false} ThoseEarlier(entries: seq<Entry>, a: set<int>, b: set<int>, dreamt: bool)
    requires forall i :: 0 <= i < |entries| ==> (i in a <==> i in b)
    ensures Those(entries, a, dreamt) == Those(entries, b, dreamt)
  {
    if entries != [] {
      ThoseEarlier(entries[..|entries| - 1], a, b, dreamt);
    }
  }

  /** Placing an object either changes a count or adds a line of its own. */
  lemma Placed(v: Viewer, entries: seq<Entry>, obj: Object)
    ensures var added := AddObject(v, entries, obj);
      if v.combine && LastWith(entries, obj.description) >= 0 then SameLooks(entries, added)
      else |added| == |entries| + 1 && added[..|entries|] == entries &&
           added[|entries|].text == obj.description && added[|entries|].count == obj.count &&
           added[|entries|].itemType == obj.itemType
  {
  }

  lemma FirstTypesKept(v: Viewer, objs: seq<Object>, obj: Object, entries: seq<Entry>, dreams: set<int>)
    requires FirstTypes(v, objs, entries, dreams)
    ensures FirstTypes(v, objs + [obj], entries, dreams)
  {
    hide FirstSight;
    forall i | 0 <= i < |entries| && i !in dreams
      ensures FirstSight(v, objs + [obj], entries[i].text) == FirstSight(v, objs, entries[i].text)
    {
      SightKept(v, objs, obj, entries[i].text);
    }
  }

  lemma FirstTypesPlaced(v: Viewer, objs: seq<Object>, obj: Object, entries: seq<Entry>, dreams: set<int>)
    requires v.combine && Seen(v, obj) && AllShown(v, objs, entries) && FirstTypes(v, objs, entries, dreams)
    ensures FirstTypes(v, objs + [obj], AddObject(v, entries, obj), dreams)
  {
    hide FirstSight, Seen, LastWith, AddObject;
    FirstTypesKept(v, objs, obj, entries, dreams);
    SightKept(v, objs, obj, obj.description);
    Placed(v, entries, obj);
    var added := AddObject(v, entries, obj);
    assert LastWith(entries, obj.description) < 0 ==>
      forall i :: 0 <= i < |entries| ==> added[..|entries|][i] == added[i];
  }

  /** Of the lines of the loop: the types by first sight, the dreams in order, and without merging line for line. */
  ghost predicate LooksRight(v: Viewer, d: Dice, objs: seq<Object>, l: Listing, dreams: set<int>) {
    && (v.combine ==> FirstTypes(v, objs, l.entries, dreams))
    && |Those(l.entries, dreams, true)| == l.imagined && DreamsInOrder(d, Those(l.entries, dreams, true))
    && (!v.combine ==> LineForLine(Those(l.entries, dreams, false), SeenObjects(v, objs)))
    && forall i :: i in dreams ==> 0 <= i < |l.entries|
  }

  lemma DreamLooks(v: Viewer, d: Dice, objs: seq<Object>, l: Listing, dreams: set<int>)
    requires LooksRight(v, d, objs, l, dreams)
    ensures var n := |l.entries|;
      LooksRight(v, d, objs, Listing(l.entries + [Imagined(d, l.imagined)], l.imagined + 1), dreams + {n})
  {
    hide FirstSight, Those, Seen, SeenObjects;
    var n, e := |l.entries|, Imagined(d, l.imagined);
    ThoseEarlier(l.entries, dreams, dreams + {n}, true);
    ThoseEarlier(l.entries, dreams, dreams + {n}, false);
    ThoseOneMore(l.entries, e, dreams + {n}, true);
    ThoseOneMore(l.entries, e, dreams + {n}, false);
  }

  lemma SeenOneMore(v: Viewer, objs: seq<Object>, obj: Object)
    ensures SeenObjects(v, objs + [obj]) == SeenObjects(v, objs) + if Seen(v, obj) then [obj] else []
  {
    assert (objs + [obj])[..|objs|] == objs;
  }

  lemma ObjectLooks(v: Viewer, d: Dice, objs: seq<Object>, obj: Object, l: Listing, dreams: set<int>)
    requires LooksRight(v, d, objs, l, dreams) && AllShown(v, objs, l.entries)
    ensures LooksRight(v, d, objs + [obj],
                       if Seen(v, obj) then l.(entries := AddObject(v, l.entries, obj)) else l, dreams)
  {
    hide FirstTypes, FirstSight, Those, Seen, SeenObjects, AddObject, LastWith, AllShown;
    SeenOneMore(v, objs, obj);
    if v.combine {
      FirstTypesKept(v, objs, obj, l.entries, dreams);
    }
    if Seen(v, obj) {
      var added := AddObject(v, l.entries, obj);
      Placed(v, l.entries, obj);
      if v.combine {
        FirstTypesPlaced(v, objs, obj, l.entries, dreams);
      }
      if v.combine && LastWith(l.entries, obj.description) >= 0 {
        ThoseLookTheSame(l.entries, added, dreams, true);
      } else {
        var n := |l.entries|;
        assert added == l.entries + [added[n]] && n !in dreams;
        ThoseOneMore(l.entries, added[n], dreams, true);
        ThoseOneMore(l.entries, added[n], dreams, false);
      }
    }
  }

  lemma {:induction false} RoundsLook(v: Viewer, d: Dice, extra: nat, objs: seq<Object>)
    ensures LooksRight(v, d, objs, Rounds(v, d, extra, objs), Dreams(v, d, extra, objs))
    decreases |objs|
  {
    hide LooksRight, AllShown, SightOrder, Seen, AddObject;
    if objs == [] {
      NothingLooks(v, d);
    } else {
      var i := |objs| - 1;
      var before, obj, dreams := Rounds(v, d, extra, objs[..i]), objs[i], Dreams(v, d, extra, objs[..i]);
      var e := Imagined(d, before.imagined);
      RoundsLook(v, d, extra, objs[..i]);
      RoundsShow(v, d, extra, objs[..i]);
      assert objs[..i] + [obj] == objs && dreams + {} == dreams;
      if before.imagined < extra && d.coin(i) {
        DreamLooks(v, d, objs[..i], before, dreams);
        DreamShown(v, objs[..i], before.entries, e);
        ObjectLooks(v, d, objs[..i], obj, Listing(before.entries + [e], before.imagined + 1),
                    dreams + {|before.entries|});
      } else {
        ObjectLooks(v, d, objs[..i], obj, before, dreams);
      }
    }
  }

  lemma NothingLooks(v: Viewer, d: Dice)
    ensures LooksRight(v, d, [], Listing([], 0), {})
  {
  }

  lemma {:induction false} RestLooks(v: Viewer, d: Dice, objs: seq<Object>, l: Listing, dreams: set<int>, extra: nat)
    requires LooksRight(v, d, objs, l, dreams) && l.imagined <= extra
    ensures |Rest(d, l.imagined, extra)| == extra - l.imagined
    ensures LooksRight(v, d, objs, Listing(l.entries + Rest(d, l.imagined, extra), extra),
                       dreams + Span(|l.entries|, |l.entries| + extra - l.imagined))
    decreases extra
  {
    hide LooksRight, Span;
    var n := |l.entries|;
    if l.imagined == extra {
      assert l.entries + Rest(d, l.imagined, extra) == l.entries && dreams + Span(n, n) == dreams by {
        assert Span(n, n) == {};
      }
    } else {
      RestLooks(v, d, objs, l, dreams, extra - 1);
      var so := Listing(l.entries + Rest(d, l.imagined, extra - 1), extra - 1);
      var k := n + extra - 1 - l.imagined;
      DreamLooks(v, d, objs, so, dreams + Span(n, k));
      assert l.entries + Rest(d, l.imagined, extra) == so.entries + [Imagined(d, extra - 1)];
      assert dreams + Span(n, k) + {k} == dreams + Span(n, k + 1);
    }
  }

  lemma ShownLooks(v: Viewer, d: Dice, objs: seq<Object>, offcount: int)
    requires |objs| + offcount >= 0
    ensures LooksRight(v, d, Looked(objs, offcount), Listing(Shown(v, d, objs, offcount), Max(offcount, 0)),
                       DreamLines(v, d, objs, offcount))
  {
    hide Rounds, Looked, Dreams, Rest, Span, LooksRight;
    var extra, looked := Max(offcount, 0), Looked(objs, offcount);
    var l := Rounds(v, d, extra, looked);
    RoundsBounded(v, d, extra, looked);
    RoundsLook(v, d, extra, looked);
    RestLooks(v, d, looked, l, Dreams(v, d, extra, looked), extra);
  }

  /**
   * What the lines say besides their texts. With combining on, a line that is no dream has the item type of the first
   * seen object with its description; with combining off, the lines that are no dreams carry the descriptions, counts
   * and item types of the seen objects in order. The dream lines carry the texts and types of the imaginary objects.
   */
  lemma LooksOfLines(v: Viewer, d: Dice, objs: seq<Object>, offcount: int)
    requires |objs| + offcount >= 0
    ensures var shown, looked := Shown(v, d, objs, offcount), Looked(objs, offcount);
      var dreams := DreamLines(v, d, objs, offcount);
      && (v.combine ==> FirstTypes(v, looked, shown, dreams))
      && (!v.combine ==> LineForLine(Those(shown, dreams, false), SeenObjects(v, looked)))
      && |Those(shown, dreams, true)| == Max(offcount, 0) && DreamsInOrder(d, Those(shown, dreams, true))
  {
    hide Shown, DreamLines, Looked, Seen, FirstTypes, LineForLine, DreamsInOrder, Those, SeenObjects;
    ShownLooks(v, d, objs, offcount);
  }

  /** What it takes to be seen, and that it is enough: not worn, visible, and no trap unless traps are detected. */
  lemma SeenObjectsAre(v: Viewer, objs: seq<Object>)
    ensures forall obj :: obj in SeenObjects(v, objs) <==>
      obj in objs && !obj.worn && obj.visible && (obj.isTrap ==> v.detectsInvisible)
  {
    if objs != [] {
      SeenObjectsAre(v, objs[..|objs| - 1]);
      assert objs == objs[..|objs| - 1] + [objs[|objs| - 1]];
    }
  }

  // ----- the offset in closed form

  /** A mind is as disordered as its mental state times its drunkenness by the dozen, where these are positive. */
  lemma DisorderIs(v: Viewer)
    ensures v.mentalState <= 0 && v.drunk <= 0 ==> Disorder(v) == 1
    ensures v.mentalState > 0 && v.drunk <= 0 ==> Disorder(v) == v.mentalState
    ensures v.mentalState <= 0 && v.drunk > 0 ==> 12 * Disorder(v) <= v.drunk < 12 * Disorder(v) + 12
    ensures v.mentalState > 0 && v.drunk == 24 ==> Disorder(v) == 2 * v.mentalState
  {
  }

  /** The offset before the draw: hundredths, at most twice the count. */
  function Hundredths(p: int, count: nat): int {
    Clamp(Div(p, 100), 0 - count, count * 2)
  }

  lemma HundredthsAre(p: nat, count: nat)
    ensures var n := p / 100;
      100 * n <= p < 100 * n + 100 && Hundredths(p, count) == if n > 2 * count then 2 * count else n
  {
  }

  lemma HundredthsOf(count: nat, ms: nat, p: nat)
    requires p == count * ms
    ensures var n := Hundredths(p, count); ms <= 200 ==> n >= 0 && 100 * n <= p < 100 * n + 100
    ensures ms >= 200 ==> Hundredths(p, count) == 2 * count
  {
    hide Hundredths;
    HundredthsAre(p, count);
    if ms >= 200 {
      Proportion(count, 200, ms);
    } else {
      Proportion(count, ms, 200);
    }
  }

  lemma OffCountFrom(v: Viewer, count: nat, fade: nat)
    requires Hundredths(count * Disorder(v), count) >= 0
    ensures var ms, n := Disorder(v), Hundredths(count * Disorder(v), count);
      OffCount(v, count, fade) == if -40 <= ms <= 40 || n == 0 then 0 else n - fade % n
  {
    hide Disorder, Clamp, Div;
  }

  /**
   * Up to 40 nothing is imagined; from there on the count in per cent of the disorder, at most twice the count, less a
   * draw below it.
   */
  lemma OffCountIs(v: Viewer, count: nat, fade: nat) returns (n: nat)
    ensures var ms, off := Disorder(v), OffCount(v, count, fade);
      && (ms <= 40 ==> off == 0)
      && (40 < ms < 200 ==> 100 * n <= count * ms < 100 * n + 100)
      && (ms >= 200 ==> n == 2 * count)
      && (ms > 40 ==> off == if n == 0 then 0 else n - fade % n)
  {
    assert Disorder(v) >= 0;
    hide Disorder, OffCount, Hundredths;
    Proportion(count, 0, Disorder(v));
    HundredthsOf(count, Disorder(v), count * Disorder(v));
    OffCountFrom(v, count, fade);
    n := Hundredths(count * Disorder(v), count);
  }

  lemma Proportion(count: nat, a: nat, b: nat)
    requires a <= b
    ensures count * a <= count * b
  {
  }
}
