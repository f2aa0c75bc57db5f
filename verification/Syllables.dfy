/** The translation of spell names into mystic syllables in tables.cs. */
module Syllables {
  import opened Basics

  datatype Syllable = Syllable(english: string, mystic: string)

  const WORDS: seq<Syllable> := [
    Syllable("ar", "abra"), Syllable("au", "kada"), Syllable("bless", "fido"), Syllable("blind", "nose"),
    Syllable("bur", "mosa"), Syllable("cu", "judi"), Syllable("de", "oculo"), Syllable("en", "unso"),
    Syllable("light", "dies"), Syllable("lo", "hi"), Syllable("mor", "zak"), Syllable("move", "sido"),
    Syllable("ness", "lacri"), Syllable("ning", "illa"), Syllable("per", "duda"), Syllable("polymorph", "iaddahs"),
    Syllable("ra", "gru"), Syllable("re", "candus"), Syllable("son", "sabru"), Syllable("tect", "infra"),
    Syllable("tri", "cula"), Syllable("ven", "nofo")]

  const LETTERS: seq<Syllable> := [
    Syllable("a", "a"), Syllable("b", "b"), Syllable("c", "q"), Syllable("d", "e"), Syllable("e", "z"),
    Syllable("f", "y"), Syllable("g", "o"), Syllable("h", "p"), Syllable("i", "u"), Syllable("j", "y"),
    Syllable("k", "t"), Syllable("l", "r"), Syllable("m", "w"), Syllable("n", "i"), Syllable("o", "a"),
    Syllable("p", "s"), Syllable("q", "d"), Syllable("r", "f"), Syllable("s", "g"), Syllable("t", "h"),
    Syllable("u", "j"), Syllable("v", "z"), Syllable("w", "x"), Syllable("x", "n"), Syllable("y", "l"),
    Syllable("z", "k")]

  /** The entries are tried in this order; the last one fits every string and consumes nothing. */
  const SYLLABLE_TABLE: seq<Syllable> := [Syllable(" ", " ")] + WORDS + LETTERS + [Syllable("", "")]

  /** IsNullOrWhitespace, for the plain white space characters. */
  predicate Blank(s: string) {
    forall c :: c in s ==> c in {' ', '\t', '\n', '\r', '\U{000B}', '\U{000C}'}
  }

  /** The position of the first entry from `k` on that `s` starts with. */
  function FirstFit(s: string, k: nat): (i: nat)
    requires k < |SYLLABLE_TABLE|
    ensures k <= i < |SYLLABLE_TABLE| && StartsWith(s, SYLLABLE_TABLE[i].english)
    ensures forall j :: k <= j < i ==> !StartsWith(s, SYLLABLE_TABLE[j].english)
    decreases |SYLLABLE_TABLE| - k
  {
    LastEntryFits(s);
    if StartsWith(s, SYLLABLE_TABLE[k].english) then k else FirstFit(s, k + 1)
  }

  lemma LastEntryFits(s: string)
    ensures |SYLLABLE_TABLE| == 50 && SYLLABLE_TABLE[49] == Syllable("", "") && StartsWith(s, "")
  {
  }

  function Fit(s: string): (e: Syllable)
    ensures StartsWith(s, e.english)
  {
    LastEntryFits(s);
    SYLLABLE_TABLE[FirstFit(s, 0)]
  }

  /** `rounds` rounds of the loop. */
  function Loop(s: string, rounds: nat): string {
    if rounds == 0 then ""
    else
      var rest := s[|Fit(s).english|..];
      Fit(s).mystic + if Blank(rest) then "" else Loop(rest, rounds - 1)
  }

  lemma LoopUnfolds(s: string, rounds: nat)
    ensures |Fit(s).english| <= |s|
    ensures Loop(s, 0) == ""
    ensures rounds > 0 ==>
              (var rest := s[|Fit(s).english|..];
               Loop(s, rounds) == Fit(s).mystic + if Blank(rest) then "" else Loop(rest, rounds - 1))
  {
  }

  lemma Regroup(a: string, b: string, c: string)
    ensures a + (b + c) == a + b + c && a + "" == a
  {
  }

  method ConvertStringSyllables(sourceString: string) returns (buffer: string)
    ensures buffer == Translate(sourceString)
  {
    hide Fit, Loop, Translate, Blank, StartsWith, SYLLABLE_TABLE;
    buffer := "";
    var oldStr := sourceString;
    LoopIsTranslate(sourceString, |sourceString|);
    for i := 0 to |sourceString|
      invariant buffer + Loop(oldStr, |sourceString| - i) == Translate(sourceString)
    {
      LoopUnfolds(oldStr, |sourceString| - i);
      var tuple := FirstEntry(oldStr);
      ghost var before := buffer;
      buffer := buffer + tuple.mystic;
      oldStr := oldStr[|tuple.english|..];
      if Blank(oldStr) {
        Regroup(before, tuple.mystic, "");
        return;
      }
      Regroup(before, tuple.mystic, Loop(oldStr, |sourceString| - i - 1));
    }
    LoopUnfolds(oldStr, 0);
  }

  /** The search through the table for the first entry that fits. */
  method FirstEntry(s: string) returns (e: Syllable)
    ensures e == Fit(s)
  {
    LastEntryFits(s);
    var k := 0;
    while !StartsWith(s, SYLLABLE_TABLE[k].english)
      invariant k < |SYLLABLE_TABLE| && FirstFit(s, k) == FirstFit(s, 0)
      decreases |SYLLABLE_TABLE| - k
    {
      k := k + 1;
    }
    e := SYLLABLE_TABLE[k];
  }

  // ----- the translation without a bound on its rounds

  /** First fitting entry, then the rest, until only blanks remain or no entry consumes anything. */
  function Translate(s: string): string
    decreases |s|
  {
    if Fit(s).english == "" then ""
    else
      var rest := s[|Fit(s).english|..];
      Fit(s).mystic + if Blank(rest) then "" else Translate(rest)
  }

  lemma EmptyEntry(s: string)
    ensures Fit(s).english == "" ==> Fit(s).mystic == ""
  {
    LastEntryFits(s);
    hide FirstFit;
    var k := FirstFit(s, 0);
    if k < 49 {
      OnlyLastIsEmpty(k);
    }
  }

  lemma OnlyLastIsEmpty(k: nat)
    requires k < 49
    ensures |SYLLABLE_TABLE| == 50 && SYLLABLE_TABLE[k].english != ""
  {
    LastEntryFits("");
    if 1 <= k <= 22 {
      assert SYLLABLE_TABLE[k] == WORDS[k - 1];
      WordEntry(k - 1);
    } else if 23 <= k <= 48 {
      LettersInTable(k - 23);
      OneLetter(k - 23);
    }
  }

  lemma LettersInTable(i: nat)
    requires i < 26
    ensures |LETTERS| == 26 && |SYLLABLE_TABLE| == 50 && SYLLABLE_TABLE[23 + i] == LETTERS[i]
  {
    assert |WORDS| == 22;
  }

  lemma OneLetter(i: nat)
    requires i < 26
    ensures |LETTERS| == 26 && LETTERS[i].english == [(i + 'a' as int) as char]
  {
  }

  lemma WordEntry(k: nat)
    requires k < 22
    ensures |WORDS| == 22 && WORDS[k].english != "" && ' ' !in WORDS[k].english
  {
  }

  lemma {:induction false} StuckLoop(s: string, rounds: nat)
    requires Fit(s).english == ""
    ensures Loop(s, rounds) == ""
    decreases rounds
  {
    hide Fit, Loop, Blank, StartsWith, SYLLABLE_TABLE;
    EmptyEntry(s);
    LoopUnfolds(s, rounds);
    if rounds > 0 {
      assert s[0..] == s;
      StuckLoop(s, rounds - 1);
    }
  }

  lemma TranslateUnfolds(s: string)
    ensures |Fit(s).english| <= |s|
    ensures Fit(s).english == "" ==> Translate(s) == ""
    ensures Fit(s).english != "" ==>
              (var rest := s[|Fit(s).english|..];
               Translate(s) == Fit(s).mystic + if Blank(rest) then "" else Translate(rest))
  {
  }

  /** As many rounds as the string has characters are enough for the whole translation, for every string. */
  lemma {:induction false} LoopIsTranslate(s: string, rounds: nat)
    requires rounds >= |s|
    ensures Loop(s, rounds) == Translate(s)
    decreases rounds
  {
    hide Fit, Loop, Translate, Blank, StartsWith, SYLLABLE_TABLE;
    LoopUnfolds(s, rounds);
    TranslateUnfolds(s);
    if Fit(s).english == "" {
      StuckLoop(s, rounds);
    } else if rounds > 0 {
      LoopIsTranslate(s[|Fit(s).english|..], rounds - 1);
    }
  }

  // ----- letters and spaces

  predicate Plain(s: string) {
    forall c :: c in s ==> c == ' ' || 'a' <= Lower(c) <= 'z'
  }

  /** Every letter, and the space, has an entry of its own. */
  lemma LetterEntry(c: char) returns (k: nat)
    requires c == ' ' || 'a' <= c <= 'z'
    ensures k < 49 && |SYLLABLE_TABLE| == 50 && SYLLABLE_TABLE[k].english == [c]
  {
    k := if c == ' ' then 0 else 23 + (c as int - 'a' as int);
    hide StartsWith, LETTERS;
    LastEntryFits([c]);
    if c != ' ' {
      OneLetter(k - 23);
      LettersInTable(k - 23);
    }
  }

  lemma NeverStuck(s: string)
    requires Plain(s) && s != ""
    ensures Fit(s).english != ""
  {
    hide FirstFit;
    assert s[0] in s;
    var k := LetterEntry(Lower(s[0]));
    assert StartsWith(s, SYLLABLE_TABLE[k].english);
    OnlyLastIsEmpty(FirstFit(s, 0));
  }

  /** The translation of every character, blanks included. */
  function Full(s: string): string
    decreases |s|
  {
    if Fit(s).english == "" then "" else Fit(s).mystic + Full(s[|Fit(s).english|..])
  }

  /** No entry but the first holds a space, so what follows a space does not influence what stands before it. */
  lemma FitIsLocal(a: string, b: string)
    requires a != "" && Plain(a) && (b == "" || b[0] == ' ')
    ensures Fit(a + b) == Fit(a)
  {
    hide FirstFit;
    LastEntryFits(a);
    forall k: nat | k < 50
      ensures StartsWith(a + b, SYLLABLE_TABLE[k].english) == StartsWith(a, SYLLABLE_TABLE[k].english)
    {
      SpacesInTable(k);
      StartsLocal(a, b, SYLLABLE_TABLE[k].english);
    }
    var i, j := FirstFit(a + b, 0), FirstFit(a, 0);
    assert i == j;
  }

  lemma StartsLocal(a: string, b: string, prefix: string)
    requires a != "" && (b == "" || b[0] == ' ') && forall i :: 0 < i < |prefix| ==> prefix[i] != ' '
    ensures StartsWith(a + b, prefix) == StartsWith(a, prefix)
  {
    assert forall i :: 0 <= i < |a| ==> (a + b)[i] == a[i];
    assert b != "" ==> Lower((a + b)[|a|]) == ' ';
  }

  lemma SpacesInTable(k: nat)
    requires k < 50
    ensures |SYLLABLE_TABLE| == 50
    ensures forall i :: 0 < i < |SYLLABLE_TABLE[k].english| ==> SYLLABLE_TABLE[k].english[i] != ' '
  {
    LastEntryFits("");
    if 1 <= k <= 22 {
      assert SYLLABLE_TABLE[k] == WORDS[k - 1];
      WordEntry(k - 1);
    } else if 23 <= k <= 48 {
      LettersInTable(k - 23);
      OneLetter(k - 23);
    }
  }

  lemma FullUnfolds(s: string)
    ensures |Fit(s).english| <= |s|
    ensures Full(s) == if Fit(s).english == "" then "" else Fit(s).mystic + Full(s[|Fit(s).english|..])
    ensures s == "" ==> Fit(s).english == ""
  {
  }

  /** The translation goes word by word. */
  lemma {:induction false} WordByWord(a: string, b: string)
    requires Plain(a) && (b == "" || b[0] == ' ')
    ensures Full(a + b) == Full(a) + Full(b)
    decreases |a|
  {
    hide Fit, Full, Lower, SYLLABLE_TABLE, StartsWith;
    FullUnfolds(a);
    if a == "" {
      assert a + b == b;
    } else {
      FitIsLocal(a, b);
      NeverStuck(a);
      FullUnfolds(a + b);
      var n := |Fit(a).english|;
      assert (a + b)[n..] == a[n..] + b;
      WordByWord(a[n..], b);
      assert Fit(a).mystic + (Full(a[n..]) + Full(b)) == Fit(a).mystic + Full(a[n..]) + Full(b);
    }
  }

  /** What the loop consumes: all but the trailing blanks, or one blank of nothing but blanks. */
  function Used(s: string): string {
    if s == "" then "" else if Blank(s) then s[..1] else TrimEnd(s, SPACE)
  }

  lemma TrimmedEnd(s: string)
    ensures var t := TrimEnd(s, SPACE);
      t <= s && (t == "" || t[|t| - 1] != ' ') && forall i :: |t| <= i < |s| ==> s[i] == ' '
  {
    var j := TrimEndIs(s, SPACE);
  }

  /** An entry that fits either is the space or covers no space. */
  lemma FitBlanks(s: string)
    requires Plain(s) && s != ""
    ensures var n := |Fit(s).english|;
      n <= |s| && if s[0] == ' ' then n == 1 else forall i :: 0 <= i < n ==> s[i] != ' '
  {
    hide FirstFit;
    LastEntryFits(s);
    var k := FirstFit(s, 0);
    SpacesInTable(k);
    if s[0] == ' ' {
      assert StartsWith(s, SYLLABLE_TABLE[0].english);
    }
  }

  lemma TrimEndUnique(s: string, n: nat)
    requires n <= |s| && (n > 0 ==> s[n - 1] != ' ') && forall i :: n <= i < |s| ==> s[i] == ' '
    ensures TrimEnd(s, SPACE) == s[..n]
  {
    TrimmedEnd(s);
    var t := TrimEnd(s, SPACE);
    assert |t| > 0 ==> s[|t| - 1] == t[|t| - 1];
  }

  lemma BlankIsSpaces(s: string)
    requires Plain(s)
    ensures Blank(s) <==> forall i :: 0 <= i < |s| ==> s[i] == ' '
  {
    assert forall i :: 0 <= i < |s| ==> s[i] in s;
  }

  /** When only blanks remain, the first entry is all that is used. */
  lemma UsedUp(s: string, n: nat)
    requires Plain(s) && s != "" && n == |Fit(s).english| && 0 < n <= |s| && Blank(s[n..])
    ensures Used(s) == s[..n]
  {
    hide Fit, Lower;
    FitBlanks(s);
    assert Plain(s[n..]);
    BlankIsSpaces(s[n..]);
    BlankIsSpaces(s);
    assert forall i :: n <= i < |s| ==> s[i] == s[n..][i - n];
    if s[0] != ' ' {
      TrimEndUnique(s, n);
    }
  }

  lemma UsedFarther(s: string, n: nat)
    requires Plain(s) && n <= |s| && !Blank(s[n..])
    ensures Used(s) == s[..n] + Used(s[n..])
  {
    hide Lower;
    var rest := s[n..];
    assert Plain(rest);
    BlankIsSpaces(rest);
    BlankIsSpaces(s);
    TrimmedEnd(rest);
    var t := TrimEnd(rest, SPACE);
    assert forall i :: n + |t| <= i < |s| ==> s[i] == rest[i - n];
    TrimEndUnique(s, n + |t|);
    assert s[..n + |t|] == s[..n] + rest[..|t|];
  }

  /** The first entry of what is used is the first entry of the whole. */
  lemma UsedFits(s: string, n: nat)
    requires Plain(s) && s != "" && n == |Fit(s).english| && 0 < n <= |Used(s)| && Used(s) <= s
    requires |Used(s)| < |s| ==> s[|Used(s)|] == ' '
    ensures Full(Used(s)) == Fit(s).mystic + Full(Used(s)[n..])
  {
    hide Fit, Lower, Full, Used;
    var u := Used(s);
    assert s == u + s[|u|..];
    FitIsLocal(u, s[|u|..]);
    FullUnfolds(u);
  }

  /** All but a trailing blank remainder is used. */
  lemma UsedIs(s: string)
    requires Plain(s)
    ensures Used(s) <= s && Blank(s[|Used(s)|..])
    ensures s != "" ==> Used(s) != "" && (|Used(s)| < |s| ==> s[|Used(s)|] == ' ')
  {
    hide Lower, TrimEnd;
    TrimmedEnd(s);
    BlankIsSpaces(s);
    var rest := s[|Used(s)|..];
    assert Plain(rest);
    BlankIsSpaces(rest);
  }

  /** Of letters and spaces the loop translates all but a trailing blank remainder, and translates that in full. */
  lemma {:induction false} TranslateUsed(s: string)
    requires Plain(s)
    ensures Translate(s) == Full(Used(s)) && Used(s) <= s && Blank(s[|Used(s)|..])
    decreases |s|
  {
    hide Fit, Lower, SYLLABLE_TABLE, StartsWith, Full, Blank, Used, Translate;
    UsedIs(s);
    TranslateUnfolds(s);
    if s == "" {
      FullUnfolds("");
    } else {
      NeverStuck(s);
      FitBlanks(s);
      var n := |Fit(s).english|;
      assert Plain(s[n..]);
      if Blank(s[n..]) {
        UsedUp(s, n);
        assert Used(s)[n..] == "";
        FullUnfolds("");
      } else {
        TranslateUsed(s[n..]);
        UsedFarther(s, n);
        assert Used(s)[n..] == Used(s[n..]);
      }
      UsedFits(s, n);
    }
  }

  // ----- case

  lemma {:induction false} VariantFit(a: string, b: string, k: nat)
    requires CaseVariant(a, b) && k < |SYLLABLE_TABLE|
    ensures FirstFit(a, k) == FirstFit(b, k)
    decreases |SYLLABLE_TABLE| - k
  {
    hide StartsWith, CaseVariant;
    VariantsStart(a, b, SYLLABLE_TABLE[k].english);
    if !StartsWith(a, SYLLABLE_TABLE[k].english) {
      LastEntryFits(a);
      LastEntryFits(b);
      VariantsStart(a, b, SYLLABLE_TABLE[49].english);
      VariantFit(a, b, k + 1);
    }
  }

  lemma VariantBlank(a: string, b: string)
    requires CaseVariant(a, b)
    ensures Blank(a) == Blank(b)
  {
    forall i | 0 <= i < |a|
      ensures a[i] in {' ', '\t', '\n', '\r', '\U{000B}', '\U{000C}'} ==> b[i] == a[i]
      ensures b[i] in {' ', '\t', '\n', '\r', '\U{000B}', '\U{000C}'} ==> b[i] == a[i]
    {
    }
    assert forall i :: 0 <= i < |a| ==> a[i] in a && b[i] in b;
  }

  /** The case of letters makes no difference to the translation. */
  lemma {:induction false} CaseDoesNotMatter(a: string, b: string)
    requires CaseVariant(a, b)
    ensures Translate(a) == Translate(b)
    decreases |a|
  {
    hide FirstFit, Blank, StartsWith, SameLetter, Translate;
    VariantFit(a, b, 0);
    LastEntryFits(a);
    assert Fit(a) == Fit(b);
    TranslateUnfolds(a);
    TranslateUnfolds(b);
    hide Fit;
    if Fit(a).english != "" {
      var n := |Fit(a).english|;
      VariantBlank(a[n..], b[n..]);
      CaseDoesNotMatter(a[n..], b[n..]);
    }
  }

  // ----- single translations

  /** In the order of letters, told apart at position `k`. */
  predicate BeforeAt(a: string, b: string, k: nat) {
    && k < |a| && k < |b| && Lower(a[k]) < Lower(b[k])
    && forall i :: 0 <= i < k ==> Lower(a[i]) == Lower(b[i])
  }

  predicate Before(a: string, b: string) {
    exists k: nat :: k < |a| && BeforeAt(a, b, k)
  }

  lemma BeforeIsTransitive(a: string, b: string, c: string)
    requires Before(a, b) && Before(b, c)
    ensures Before(a, c)
  {
    hide Lower;
    var j: nat :| j < |a| && BeforeAt(a, b, j);
    var k: nat :| k < |b| && BeforeAt(b, c, k);
    assert BeforeAt(a, c, Min(j, k));
  }

  /** A string does not start with one that comes before it. */
  lemma BeforeIsNoStart(a: string, b: string)
    requires Before(a, b)
    ensures !StartsWith(b, a)
  {
    hide Lower;
    var k: nat :| k < |a| && BeforeAt(a, b, k);
  }

  lemma ToldApart(a: string, b: string, k: nat)
    requires k < |a| && k < |b| && a[..k] == b[..k] && 'a' <= a[k] < b[k] <= 'z'
    ensures Before(a, b)
  {
    assert forall i :: 0 <= i < k ==> a[..k][i] == a[i] && b[..k][i] == b[i];
    assert BeforeAt(a, b, k);
  }

  /** The words of the table stand in the order of letters. */
  lemma NextWord(i: nat)
    requires i < 21
    ensures |WORDS| == 22 && Before(WORDS[i].english, WORDS[i + 1].english)
  {
    hide Before;
    var k := if i in {2, 10} then 2 else if i in {0, 3, 8, 12, 14, 16, 19} then 1 else 0;
    NextWordAt(i, k);
    ToldApart(WORDS[i].english, WORDS[i + 1].english, k);
  }

  lemma NextWordAt(i: nat, k: nat)
    requires i < 21 && k == if i in {2, 10} then 2 else if i in {0, 3, 8, 12, 14, 16, 19} then 1 else 0
    ensures |WORDS| == 22
    ensures var a, b := WORDS[i].english, WORDS[i + 1].english;
      k < |a| && k < |b| && a[..k] == b[..k] && 'a' <= a[k] < b[k] <= 'z'
  {
    if k > 0 {
      assert WORDS[i].english[0] == WORDS[i + 1].english[0];
    }
    if k > 1 {
      assert WORDS[i].english[1] == WORDS[i + 1].english[1];
    }
  }

  lemma {:induction false} WordsInOrder(j: nat, i: nat)
    requires j < i < 22
    ensures |WORDS| == 22 && Before(WORDS[j].english, WORDS[i].english)
    decreases i
  {
    hide WORDS, Before;
    NextWord(i - 1);
    if j < i - 1 {
      WordsInOrder(j, i - 1);
      BeforeIsTransitive(WORDS[j].english, WORDS[i - 1].english, WORDS[i].english);
    }
  }

  /** An entry that no earlier entry hides is what its own English is translated to. */
  lemma EntryTranslates(k: nat)
    requires k < 49 && |SYLLABLE_TABLE| == 50
    requires forall j :: 0 <= j < k ==> !StartsWith(SYLLABLE_TABLE[k].english, SYLLABLE_TABLE[j].english)
    ensures Translate(SYLLABLE_TABLE[k].english) == SYLLABLE_TABLE[k].mystic
  {
    hide FirstFit, Translate, SYLLABLE_TABLE;
    var s := SYLLABLE_TABLE[k].english;
    OnlyLastIsEmpty(k);
    assert StartsWith(s, s);
    assert FirstFit(s, 0) == k;
    TranslateUnfolds(s);
    assert s[|s|..] == "" && Blank("");
    assert SYLLABLE_TABLE[k].mystic + "" == SYLLABLE_TABLE[k].mystic;
  }

  lemma WordsInTable(i: nat)
    requires i < 22
    ensures |WORDS| == 22 && |SYLLABLE_TABLE| == 50 && SYLLABLE_TABLE[i + 1] == WORDS[i]
    ensures SYLLABLE_TABLE[0].english == " " && WORDS[i].english != "" && Lower(WORDS[i].english[0]) != ' '
    ensures |WORDS[i].english| >= 2
  {
  }

  lemma WordTranslates(i: nat)
    requires i < 22
    ensures |WORDS| == 22 && Translate(WORDS[i].english) == WORDS[i].mystic
  {
    hide WORDS, SYLLABLE_TABLE, Translate, Lower, StartsWith;
    WordsInTable(i);
    forall j | 0 <= j < i + 1
      ensures !StartsWith(SYLLABLE_TABLE[i + 1].english, SYLLABLE_TABLE[j].english)
    {
      if j == 0 {
        NoSpaceAhead(WORDS[i].english);
      } else {
        WordsInTable(j - 1);
        WordsInOrder(j - 1, i);
        BeforeIsNoStart(WORDS[j - 1].english, WORDS[i].english);
      }
    }
    EntryTranslates(i + 1);
  }

  lemma NoSpaceAhead(s: string)
    requires s != "" && Lower(s[0]) != ' '
    ensures !StartsWith(s, " ")
  {
    assert Lower(" "[0]) == ' ';
  }

  lemma LetterTranslates(i: nat)
    requires i < 26
    ensures |LETTERS| == 26 && Translate(LETTERS[i].english) == LETTERS[i].mystic
  {
    hide WORDS, SYLLABLE_TABLE, Translate, LETTERS, StartsWith;
    OneLetter(i);
    LettersInTable(i);
    var s := LETTERS[i].english;
    forall j | 0 <= j < 23 + i
      ensures !StartsWith(s, SYLLABLE_TABLE[j].english)
    {
      if j == 0 {
        WordsInTable(0);
        NoSpaceAhead(s);
      } else if j <= 22 {
        WordsInTable(j - 1);
        TooShort(s, WORDS[j - 1].english);
      } else {
        OneLetter(j - 23);
        LettersInTable(j - 23);
        OtherLetter(s, LETTERS[j - 23].english);
      }
    }
    EntryTranslates(23 + i);
  }

  lemma TooShort(s: string, prefix: string)
    requires |s| < |prefix|
    ensures !StartsWith(s, prefix)
  {
  }

  lemma OtherLetter(s: string, prefix: string)
    requires |s| == |prefix| == 1 && 'a' <= s[0] <= 'z' && 'a' <= prefix[0] <= 'z' && s != prefix
    ensures !StartsWith(s, prefix)
  {
    assert s[0] != prefix[0];
  }

  /** Every word of the table, translated. */
  lemma FirstWords()
    ensures Translate("ar") == "abra" && Translate("au") == "kada"
    ensures Translate("bless") == "fido" && Translate("blind") == "nose"
    ensures Translate("bur") == "mosa" && Translate("cu") == "judi"
  {
    hide Translate, SYLLABLE_TABLE, LETTERS;
    WordTranslates(0);
    WordTranslates(1);
    WordTranslates(2);
    WordTranslates(3);
    WordTranslates(4);
    WordTranslates(5);
  }

  lemma MoreWords()
    ensures Translate("de") == "oculo" && Translate("en") == "unso"
    ensures Translate("light") == "dies" && Translate("lo") == "hi"
    ensures Translate("mor") == "zak" && Translate("move") == "sido"
    ensures Translate("ness") == "lacri" && Translate("ning") == "illa"
  {
    hide Translate, SYLLABLE_TABLE, LETTERS;
    WordTranslates(6);
    WordTranslates(7);
    WordTranslates(8);
    WordTranslates(9);
    WordTranslates(10);
    WordTranslates(11);
    WordTranslates(12);
    WordTranslates(13);
  }

  lemma LastWords()
    ensures Translate("per") == "duda" && Translate("polymorph") == "iaddahs"
    ensures Translate("ra") == "gru" && Translate("re") == "candus"
    ensures Translate("son") == "sabru" && Translate("tect") == "infra"
    ensures Translate("tri") == "cula" && Translate("ven") == "nofo"
  {
    hide Translate, SYLLABLE_TABLE, LETTERS;
    WordTranslates(14);
    WordTranslates(15);
    WordTranslates(16);
    WordTranslates(17);
    WordTranslates(18);
    WordTranslates(19);
    WordTranslates(20);
    WordTranslates(21);
  }

  /** Every letter, translated. */
  lemma Letters(i: nat)
    requires i < 26
    ensures Translate([(97 + i) as char]) == ["abqezyopuytrwiasdfghjzxnlk"[i]]
  {
    hide Translate;
    LetterTranslates(i);
    OneLetter(i);
  }

  /** White space of any kind after a space is not translated. */
  lemma WhiteSpaceAfterSpace(c: char)
    requires 9 <= c as int <= 13
    ensures Translate(['a', ' ', c]) == "a"
  {
    hide FirstFit, Translate, SYLLABLE_TABLE, LETTERS;
    var s := ['a', ' ', c];
    FitIsLocal("a", [' ', c]);
    assert "a" + [' ', c] == s;
    Letters(0);
    assert [(97 + 0) as char] == "a" && ["abqezyopuytrwiasdfghjzxnlk"[0]] == "a";
    TranslateUnfolds("a");
    TranslateUnfolds(s);
    NeverStuck("a");
    FitBlanks("a");
    hide Fit;
    assert |Fit("a").english| == 1;
    assert s[1..] == [' ', c] && "a"[1..] == "";
    assert Blank([' ', c]) && Blank("");
    assert Fit(s).mystic + "" == Fit(s).mystic;
  }
}
