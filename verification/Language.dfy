/**
 * Speech in a foreign language, as LanguageData.cs garbles it: the better a listener comprehends, the fewer
 * syllables and letters are replaced.
 *
 * Each roll of the hundred-sided die is named by the word, the stage and the place that asks for it. Which
 * characters count as numerals, punctuation or symbols is left to a predicate.
 */
module Language {
  import opened Basics
  import opened Wrappers

  datatype Conversion = Conversion(oldValue: string, newValue: string)

  datatype Roll = Pre(word: int, k: int) | Letter(word: int, k: int) | Post(word: int, k: int)

  datatype Language = Language(alphabet: string, preConversion: seq<Conversion>, conversion: seq<Conversion>)

  /** The die never shows 100. */
  ghost predicate Rolls(d100: Roll -> int) {
    forall r :: 1 <= d100(r) <= 99
  }

  /** The alphabet as the program has it, with t before s. */
  const ENGLISH_ALPHABET := "abcdefghijklmnopqrtsuvwxyz"

  // ----- strings

  predicate IsPrefix(p: string, s: string) {
    |p| <= |s| && s[..|p|] == p
  }

  predicate Contains(s: string, p: string) {
    exists i :: 0 <= i <= |s| && IsPrefix(p, s[i..])
  }

  /** Replaces every occurrence, left to right; replacing the empty string is an exception, stated by the caller. */
  function Replace(s: string, p: string, q: string): string
    requires p != ""
  {
    if s == "" then ""
    else if IsPrefix(p, s) then q + Replace(s[|p|..], p, q)
    else [s[0]] + Replace(s[1..], p, q)
  }

  function Upper(c: char): char {
    if 'a' <= c <= 'z' then ((c as int) - 32) as char else c
  }

  /** The position of a character, or -1. */
  function IndexOf(s: string, c: char): (i: int)
    ensures -1 <= i < |s|
    ensures i >= 0 ==> s[i] == c
    ensures i == -1 ==> c !in s
  {
    if s == "" then -1
    else if s[0] == c then 0
    else
      var i := IndexOf(s[1..], c);
      if i == -1 then -1 else i + 1
  }

  /** The words between single spaces; there is always at least one. */
  function Split(s: string): (words: seq<string>)
    ensures words != []
  {
    if s == "" then [""]
    else
      var rest := Split(s[1..]);
      if s[0] == ' ' then [""] + rest else [[s[0]] + rest[0]] + rest[1..]
  }

  // ----- the code on values

  /** One stage of conversions; `strict` tells "more than" the comprehension from "at least". */
  function Convert(percent: int, strict: bool, conversions: seq<Conversion>, roll: int -> int, k: nat, text: string)
      : Outcome<string>
    requires k <= |conversions|
    decreases |conversions| - k
  {
    if k == |conversions| then Returned(text)
    else
      var c := conversions[k];
      if Contains(text, c.oldValue) && (if strict then roll(k) > percent else roll(k) >= percent) then
        if c.oldValue == "" then Thrown
        else Convert(percent, strict, conversions, roll, k + 1, Replace(text, c.oldValue, c.newValue))
      else Convert(percent, strict, conversions, roll, k + 1, text)
  }

  /** GetAlphabetEquivalent; a letter that neither alphabet has is an exception. */
  function Equivalent(alphabet: string, c: char): Outcome<char> {
    var i := IndexOf(ENGLISH_ALPHABET, Lower(c));
    if i < 0 || i >= |alphabet| then Thrown
    else Returned(if 'A' <= c <= 'Z' then Upper(alphabet[i]) else alphabet[i])
  }

  function ConvertLetters(percent: int, alphabet: string, exempt: char -> bool, roll: int -> int, text: string)
      : Outcome<string> {
    if text == "" then Returned("")
    else
      var k := |text| - 1;
      match ConvertLetters(percent, alphabet, exempt, roll, text[..k])
      case Thrown => Thrown
      case Returned(before) =>
        if exempt(text[k]) || roll(k) <= percent then Returned(before + [text[k]])
        else match Equivalent(alphabet, text[k])
          case Thrown => Thrown
          case Returned(c) => Returned(before + [c])
  }

  /** One word: a pre-conversion that changes it ends its translation. */
  function Word(lang: Language, percent: int, exempt: char -> bool, d100: Roll -> int, n: nat, word: string)
      : Outcome<string> {
    match Convert(percent, false, lang.preConversion, k => d100(Pre(n, k)), 0, word)
    case Thrown => Thrown
    case Returned(first) =>
      if first != word then Returned(first)
      else match ConvertLetters(percent, lang.alphabet, exempt, k => d100(Letter(n, k)), first)
        case Thrown => Thrown
        case Returned(second) => Convert(percent, true, lang.conversion, k => d100(Post(n, k)), 0, second)
  }

  /** The first `n` words, each followed by a space. */
  function Phrase(lang: Language, percent: int, exempt: char -> bool, d100: Roll -> int, words: seq<string>)
      : Outcome<string> {
    if words == [] then Returned("")
    else
      var n := |words| - 1;
      match Phrase(lang, percent, exempt, d100, words[..n])
      case Thrown => Thrown
      case Returned(before) =>
        match Word(lang, percent, exempt, d100, n, words[n])
        case Thrown => Thrown
        case Returned(word) => Returned(before + word + " ")
  }

  function Translated(lang: Language, percent: int, exempt: char -> bool, d100: Roll -> int, text: string)
      : Outcome<string> {
    match Phrase(lang, percent, exempt, d100, Split(text))
    case Thrown => Thrown
    case Returned(phrase) => Returned(Trim(phrase, SPACE))
  }

  // ----- the code

  class LanguageData {
    var alphabet: string
    var preConversion: seq<Conversion>
    var conversion: seq<Conversion>

    ghost function Value(): Language
      reads this
    {
      Language(alphabet, preConversion, conversion)
    }

    constructor (alphabet: string)
      ensures Value() == Language(alphabet, [], [])
    {
      this.alphabet, preConversion, conversion := alphabet, [], [];
    }

    method AddPreConversion(part1: string, part2: string)
      modifies this
      ensures Value() == old(Value()).(preConversion := old(preConversion) + [Conversion(part1, part2)])
    {
      preConversion := preConversion + [Conversion(part1, part2)];
    }

    method AddPostConversion(part1: string, part2: string)
      modifies this
      ensures Value() == old(Value()).(conversion := old(conversion) + [Conversion(part1, part2)])
    {
      conversion := conversion + [Conversion(part1, part2)];
    }

    method DoConversion(percent: int, strict: bool, conversions: seq<Conversion>, roll: int -> int, text: string)
        returns (r: Outcome<string>)
      ensures r == Convert(percent, strict, conversions, roll, 0, text)
    {
      var converted := text;
      for k := 0 to |conversions|
        invariant Convert(percent, strict, conversions, roll, k, converted)
               == Convert(percent, strict, conversions, roll, 0, text)
      {
        var c := conversions[k];
        if Contains(converted, c.oldValue) && (if strict then roll(k) > percent else roll(k) >= percent) {
          if c.oldValue == "" {
            return Thrown;
          }
          converted := Replace(converted, c.oldValue, c.newValue);
        }
      }
      return Returned(converted);
    }

    method DoCharacterConversion(percent: int, exempt: char -> bool, roll: int -> int, text: string)
        returns (r: Outcome<string>)
      ensures r == ConvertLetters(percent, alphabet, exempt, roll, text)
    {
      var newPhrase := "";
      for k := 0 to |text|
        invariant ConvertLetters(percent, alphabet, exempt, roll, text[..k]) == Returned(newPhrase)
      {
        assert text[..k + 1][..k] == text[..k];
        var c := text[k];
        if !exempt(c) && roll(k) > percent {
          var e := Equivalent(alphabet, c);
          if e.Thrown? {
            LettersThrow(percent, alphabet, exempt, roll, text, k + 1);
            return Thrown;
          }
          c := e.value;
        }
        newPhrase := newPhrase + [c];
      }
      assert text[..|text|] == text;
      return Returned(newPhrase);
    }

    /** The body of the loop over the words. */
    method TranslateWord(percent: int, exempt: char -> bool, d100: Roll -> int, n: nat, word: string)
        returns (r: Outcome<string>)
      ensures r == Word(Value(), percent, exempt, d100, n, word)
    {
      hide Convert, ConvertLetters;
      r := DoConversion(percent, false, preConversion, k => d100(Pre(n, k)), word);
      if r.Returned? && r.value == word {
        r := DoCharacterConversion(percent, exempt, k => d100(Letter(n, k)), r.value);
        if r.Returned? {
          r := DoConversion(percent, true, conversion, k => d100(Post(n, k)), r.value);
        }
      }
    }

    method Translate(percent: int, exempt: char -> bool, d100: Roll -> int, text: string) returns (r: Outcome<string>)
      ensures r == Translated(Value(), percent, exempt, d100, text)
      ensures percent >= 100 && Rolls(d100) ==> r == Returned(Trim(text, SPACE))
    {
      hide Trim, Word, Split, Rolls;
      if percent >= 100 && Rolls(d100) {
        FullComprehension(Value(), percent, exempt, d100, text);
      }
      var newPhrase, words := "", Split(text);
      for n := 0 to |words|
        invariant Phrase(Value(), percent, exempt, d100, words[..n]) == Returned(newPhrase)
      {
        assert words[..n + 1][..n] == words[..n];
        var newWord := TranslateWord(percent, exempt, d100, n, words[n]);
        if newWord.Thrown? {
          PhraseThrows(Value(), percent, exempt, d100, words, n + 1);
          return Thrown;
        }
        newPhrase := newPhrase + newWord.value + " ";
      }
      assert words[..|words|] == words;
      return Returned(Trim(newPhrase, SPACE));
    }
  }

  lemma {:induction false} LettersThrow(percent: int, alphabet: string, exempt: char -> bool, roll: int -> int,
                                        text: string, k: nat)
    requires k <= |text| && ConvertLetters(percent, alphabet, exempt, roll, text[..k]).Thrown?
    ensures ConvertLetters(percent, alphabet, exempt, roll, text).Thrown?
    decreases |text|
  {
    if k == |text| {
      assert text[..k] == text;
    } else {
      assert text[..|text| - 1][..k] == text[..k];
      LettersThrow(percent, alphabet, exempt, roll, text[..|text| - 1], k);
    }
  }

  lemma {:induction false} PhraseThrows(lang: Language, percent: int, exempt: char -> bool, d100: Roll -> int,
                                        words: seq<string>, n: nat)
    requires n <= |words| && Phrase(lang, percent, exempt, d100, words[..n]).Thrown?
    ensures Phrase(lang, percent, exempt, d100, words).Thrown?
    decreases |words|
  {
    if n == |words| {
      assert words[..n] == words;
    } else {
      assert words[..|words| - 1][..n] == words[..n];
      PhraseThrows(lang, percent, exempt, d100, words[..|words| - 1], n);
    }
  }

  // ----- full comprehension

  lemma {:induction false} NothingConverted(percent: int, strict: bool, conversions: seq<Conversion>,
                                            roll: int -> int, k: nat, text: string)
    requires k <= |conversions| && forall j :: roll(j) < percent
    ensures Convert(percent, strict, conversions, roll, k, text) == Returned(text)
    decreases |conversions| - k
  {
    if k < |conversions| {
      NothingConverted(percent, strict, conversions, roll, k + 1, text);
    }
  }

  lemma {:induction false} NoLetterConverted(percent: int, alphabet: string, exempt: char -> bool,
                                             roll: int -> int, text: string)
    requires forall j :: roll(j) <= percent
    ensures ConvertLetters(percent, alphabet, exempt, roll, text) == Returned(text)
    decreases |text|
  {
    if text != "" {
      NoLetterConverted(percent, alphabet, exempt, roll, text[..|text| - 1]);
      assert text == text[..|text| - 1] + [text[|text| - 1]];
    }
  }

  /** The words with a space after each. */
  function Spoken(words: seq<string>): string {
    if words == [] then "" else Spoken(words[..|words| - 1]) + words[|words| - 1] + " "
  }

  lemma {:induction false} PhraseUnchanged(lang: Language, percent: int, exempt: char -> bool, d100: Roll -> int,
                                           words: seq<string>)
    requires percent >= 100 && Rolls(d100)
    ensures Phrase(lang, percent, exempt, d100, words) == Returned(Spoken(words))
    decreases |words|
  {
    if words != [] {
      var n := |words| - 1;
      PhraseUnchanged(lang, percent, exempt, d100, words[..n]);
      NothingConverted(percent, false, lang.preConversion, k => d100(Pre(n, k)), 0, words[n]);
      NoLetterConverted(percent, lang.alphabet, exempt, k => d100(Letter(n, k)), words[n]);
      NothingConverted(percent, true, lang.conversion, k => d100(Post(n, k)), 0, words[n]);
    }
  }

  lemma {:induction false} SpokenCons(word: string, words: seq<string>)
    ensures Spoken([word] + words) == word + " " + Spoken(words)
    decreases |words|
  {
    if words == [] {
      assert [word] + words == [word] && [word][..0] == [];
      assert Spoken([word]) == "" + word + " ";
      assert word + " " + "" == word + " ";
    } else {
      SpokenCons(word, words[..|words| - 1]);
      assert ([word] + words)[..|words|] == [word] + words[..|words| - 1];
    }
  }

  lemma SpokenNothing()
    ensures Spoken([]) == ""
  {
  }

  /** Splitting at spaces and joining with spaces gives the text back, with one space more at the end. */
  lemma {:induction false} SpokenSplit(s: string)
    ensures Spoken(Split(s)) == s + " "
    decreases |s|
  {
    hide Spoken;
    if s == "" {
      SpokenNothing();
      SpokenCons("", []);
      assert [""] + [] == [""] && "" + " " + "" == "" + " ";
    } else {
      var rest := Split(s[1..]);
      SpokenSplit(s[1..]);
      assert rest == [rest[0]] + rest[1..];
      SpokenCons(rest[0], rest[1..]);
      if s[0] == ' ' {
        SpokenCons("", rest);
        assert s == " " + s[1..];
      } else {
        SpokenCons([s[0]] + rest[0], rest[1..]);
        assert s == [s[0]] + s[1..];
        assert [s[0]] + rest[0] + " " + Spoken(rest[1..]) == [s[0]] + (rest[0] + " " + Spoken(rest[1..]));
      }
    }
  }

  lemma {:induction false} TrimSpace(s: string)
    ensures Trim(s + " ", SPACE) == Trim(s, SPACE)
    decreases |s|
  {
    if s == "" {
      assert s + " " == " " && " "[1..] == "";
    } else if s[0] == ' ' {
      TrimSpace(s[1..]);
      assert (s + " ")[1..] == s[1..] + " ";
    } else {
      assert (s + " ")[..|s|] == s;
    }
  }

  /** A listener who comprehends fully hears the text, with only its outer spaces trimmed, whatever the dice show. */
  lemma FullComprehension(lang: Language, percent: int, exempt: char -> bool, d100: Roll -> int, text: string)
    requires percent >= 100 && Rolls(d100)
    ensures Translated(lang, percent, exempt, d100, text) == Returned(Trim(text, SPACE))
  {
    PhraseUnchanged(lang, percent, exempt, d100, Split(text));
    SpokenSplit(text);
    TrimSpace(text);
  }

  /** Below full comprehension some language, text and dice give the words away: the guarantee starts at exactly 100. */
  lemma ComprehensionIff(percent: int)
    ensures (forall lang: Language, exempt: char -> bool, d100: Roll -> int, text: string ::
              Rolls(d100) ==> Translated(lang, percent, exempt, d100, text) == Returned(Trim(text, SPACE)))
            <==> percent >= 100
  {
    if percent >= 100 {
      forall lang: Language, exempt: char -> bool, d100: Roll -> int, text: string | Rolls(d100)
        ensures Translated(lang, percent, exempt, d100, text) == Returned(Trim(text, SPACE))
      {
        FullComprehension(lang, percent, exempt, d100, text);
      }
    } else {
      StarBecomesElen(percent);
    }
  }

  lemma StarBecomesElen(percent: int)
    requires percent < 100
    ensures Translated(Language("", [Conversion("s", "e")], []), percent, c => true, r => 99, "s") == Returned("e")
    ensures Trim("s", SPACE) == "s"
  {
    var lang, d100 := Language("", [Conversion("s", "e")], []), (r: Roll) => 99;
    assert Split("s") == ["s"] by {
      assert "s"[1..] == "" && Split("") == [""];
      assert [""][1..] == [] && ['s'] + "" == "s";
      assert ["s"] + [] == ["s"];
    }
    assert IsPrefix("s", "s"[0..]);
    assert Contains("s", "s");
    assert Replace("s", "s", "e") == "e" by {
      assert IsPrefix("s", "s") && "s"[1..] == "";
      assert "e" + Replace("", "s", "e") == "e";
    }
    assert Convert(percent, false, lang.preConversion, k => d100(Pre(0, k)), 1, "e") == Returned("e");
    assert Word(lang, percent, c => true, d100, 0, "s") == Returned("e");
    assert ["s"][..0] == [];
    assert Phrase(lang, percent, c => true, d100, ["s"]) == Returned("" + "e" + " ");
    assert "" + "e" + " " == "e ";
    assert "e "[..1] == "e";
  }

  // ----- letters

  /** One for one: the length stays, exempt characters stay, the rest stay or become their equivalent. */
  lemma {:induction false} LettersOneForOne(percent: int, alphabet: string, exempt: char -> bool,
                                            roll: int -> int, text: string)
    requires ConvertLetters(percent, alphabet, exempt, roll, text).Returned?
    ensures var r := ConvertLetters(percent, alphabet, exempt, roll, text).value;
      && |r| == |text|
      && forall i :: 0 <= i < |r| ==>
           r[i] == text[i] || (!exempt(text[i]) && roll(i) > percent && Equivalent(alphabet, text[i]) == Returned(r[i]))
    decreases |text|
  {
    hide Equivalent;
    if text != "" {
      LettersOneForOne(percent, alphabet, exempt, roll, text[..|text| - 1]);
    }
  }

  // ----- when every die beats the comprehension

  /** Where the program looks a lower-case letter up: its place in the alphabet, with s and t exchanged. */
  function Place(c: char): int {
    if c == 's' then 19 else if c == 't' then 18 else c as int - 97
  }

  predicate Letter26(c: char) {
    65 <= c as int <= 90 || 97 <= c as int <= 122
  }

  /** The letter of a foreign alphabet for an English one, by character codes; capitals stay capitals. */
  function Foreign(alphabet: string, c: char): char
    requires |alphabet| >= 26 && Letter26(c)
  {
    if 97 <= c as int then alphabet[Place(c)]
    else
      var x := alphabet[Place((c as int + 32) as char)];
      if 97 <= x as int <= 122 then (x as int - 32) as char else x
  }

  lemma IndexIsPlace(c: char)
    requires 'a' <= c <= 'z'
    ensures |ENGLISH_ALPHABET| == 26 && IndexOf(ENGLISH_ALPHABET, c) == Place(c) && 0 <= Place(c) < 26
  {
    hide ENGLISH_ALPHABET, IndexOf;
    PlacesAre(Place(c));
    var i := IndexOf(ENGLISH_ALPHABET, c);
    assert ENGLISH_ALPHABET[Place(c)] in ENGLISH_ALPHABET;
    PlacesAre(i);
  }

  lemma PlacesAre(i: nat)
    requires i < 26
    ensures |ENGLISH_ALPHABET| == 26 && Place(ENGLISH_ALPHABET[i]) == i
    ensures ENGLISH_ALPHABET[i] as int == if i == 18 then 116 else if i == 19 then 115 else 97 + i
  {
  }

  lemma EquivalentIs(alphabet: string, c: char)
    requires |alphabet| >= 26
    ensures Letter26(c) ==> Equivalent(alphabet, c) == Returned(Foreign(alphabet, c))
    ensures !Letter26(c) ==> Equivalent(alphabet, c) == Thrown
  {
    hide IndexOf, ENGLISH_ALPHABET, Place;
    if Letter26(c) {
      IndexIsPlace(Lower(c));
    } else {
      NoPlace(Lower(c));
    }
  }

  lemma NoPlace(c: char)
    requires !('a' <= c <= 'z')
    ensures IndexOf(ENGLISH_ALPHABET, c) == -1
  {
    hide IndexOf;
    var i := IndexOf(ENGLISH_ALPHABET, c);
    if i >= 0 {
      PlacesAre(i);
    }
  }

  /** All conversions, one after another. */
  function AllReplaced(conversions: seq<Conversion>, k: nat, text: string): string
    requires k <= |conversions| && forall i :: 0 <= i < |conversions| ==> conversions[i].oldValue != ""
    decreases |conversions| - k
  {
    if k == |conversions| then text
    else AllReplaced(conversions, k + 1, Replace(text, conversions[k].oldValue, conversions[k].newValue))
  }

  /** Every character that is not exempt, in the foreign alphabet. */
  function AllForeign(alphabet: string, exempt: char -> bool, word: string): (r: string)
    requires |alphabet| >= 26 && forall c :: c in word ==> exempt(c) || Letter26(c)
    ensures |r| == |word|
    ensures forall i :: 0 <= i < |word| ==> r[i] == if exempt(word[i]) then word[i] else Foreign(alphabet, word[i])
  {
    seq(|word|, i requires 0 <= i < |word| =>
      assert word[i] in word; if exempt(word[i]) then word[i] else Foreign(alphabet, word[i]))
  }

  /** Where the old value does not occur, nothing is replaced. */
  lemma {:induction false} NothingReplaced(s: string, p: string, q: string)
    requires p != "" && !Contains(s, p)
    ensures Replace(s, p, q) == s
    decreases |s|
  {
    if s != "" {
      assert s[0..] == s;
      forall i | 0 <= i <= |s[1..]|
        ensures !IsPrefix(p, s[1..][i..])
      {
        assert s[1..][i..] == s[i + 1..];
      }
      NothingReplaced(s[1..], p, q);
      assert [s[0]] + s[1..] == s;
    }
  }

  /** The first occurrence is replaced, and the rest of the text goes on from its end. */
  lemma {:induction false} FirstReplaced(a: string, p: string, b: string, q: string)
    requires p != "" && forall i :: 0 <= i < |a| ==> !IsPrefix(p, (a + p + b)[i..])
    ensures Replace(a + p + b, p, q) == a + q + Replace(b, p, q)
    decreases |a|
  {
    var s := a + p + b;
    if a == "" {
      assert s == p + b && s[..|p|] == p && s[|p|..] == b;
      assert "" + q == q;
    } else {
      assert s[0..] == s && s[1..] == a[1..] + p + b;
      forall i | 0 <= i < |a[1..]|
        ensures !IsPrefix(p, (a[1..] + p + b)[i..])
      {
        assert s[1..][i..] == s[i + 1..];
      }
      FirstReplaced(a[1..], p, b, q);
      assert [s[0]] + (a[1..] + q + Replace(b, p, q)) == a + q + Replace(b, p, q);
    }
  }

  lemma {:induction false} ConvertAll(percent: int, strict: bool, conversions: seq<Conversion>, roll: int -> int,
                                      k: nat, text: string)
    requires k <= |conversions| && forall i :: 0 <= i < |conversions| ==> conversions[i].oldValue != ""
    requires forall j :: if strict then roll(j) > percent else roll(j) >= percent
    ensures Convert(percent, strict, conversions, roll, k, text) == Returned(AllReplaced(conversions, k, text))
    decreases |conversions| - k
  {
    hide Replace, Contains;
    if k < |conversions| {
      var c := conversions[k];
      if !Contains(text, c.oldValue) {
        NothingReplaced(text, c.oldValue, c.newValue);
      }
      ConvertAll(percent, strict, conversions, roll, k + 1, Replace(text, c.oldValue, c.newValue));
    }
  }

  lemma {:induction false} ConvertAllLetters(percent: int, alphabet: string, exempt: char -> bool, roll: int -> int,
                                             text: string)
    requires |alphabet| >= 26 && forall c :: c in text ==> exempt(c) || Letter26(c)
    requires forall j :: roll(j) > percent
    ensures ConvertLetters(percent, alphabet, exempt, roll, text) == Returned(AllForeign(alphabet, exempt, text))
    decreases |text|
  {
    hide Equivalent, Foreign, Letter26;
    if text != "" {
      var k := |text| - 1;
      assert text == text[..k] + [text[k]];
      ConvertAllLetters(percent, alphabet, exempt, roll, text[..k]);
      EquivalentIs(alphabet, text[k]);
      var r := AllForeign(alphabet, exempt, text);
      assert AllForeign(alphabet, exempt, text[..k]) == r[..k];
      assert r == r[..k] + [r[k]];
    } else {
      assert AllForeign(alphabet, exempt, text) == "";
    }
  }

  /**
   * When every die beats the comprehension, a word that the pre-conversions change becomes what they make of it; any
   * other word is put letter for letter into the foreign alphabet and then through all later conversions.
   */
  lemma WordGarbled(lang: Language, percent: int, exempt: char -> bool, d100: Roll -> int, n: nat, word: string)
    requires forall r :: d100(r) > percent
    requires forall i :: 0 <= i < |lang.preConversion| ==> lang.preConversion[i].oldValue != ""
    requires forall i :: 0 <= i < |lang.conversion| ==> lang.conversion[i].oldValue != ""
    requires |lang.alphabet| >= 26 && forall c :: c in word ==> exempt(c) || Letter26(c)
    ensures var pre := AllReplaced(lang.preConversion, 0, word);
      Word(lang, percent, exempt, d100, n, word) ==
      Returned(if pre != word then pre else AllReplaced(lang.conversion, 0, AllForeign(lang.alphabet, exempt, word)))
  {
    hide Convert, ConvertLetters, AllReplaced, AllForeign, Letter26;
    ConvertAll(percent, false, lang.preConversion, k => d100(Pre(n, k)), 0, word);
    ConvertAllLetters(percent, lang.alphabet, exempt, k => d100(Letter(n, k)), word);
    ConvertAll(percent, true, lang.conversion, k => d100(Post(n, k)), 0, AllForeign(lang.alphabet, exempt, word));
  }

  /** A die that equals the comprehension lets pre-conversions happen and nothing else. */
  lemma WordAtPar(lang: Language, percent: int, exempt: char -> bool, d100: Roll -> int, n: nat, word: string)
    requires forall r :: d100(r) == percent
    requires forall i :: 0 <= i < |lang.preConversion| ==> lang.preConversion[i].oldValue != ""
    ensures Word(lang, percent, exempt, d100, n, word) == Returned(AllReplaced(lang.preConversion, 0, word))
  {
    hide Convert, ConvertLetters, AllReplaced;
    ConvertAll(percent, false, lang.preConversion, k => d100(Pre(n, k)), 0, word);
    NoLetterConverted(percent, lang.alphabet, exempt, k => d100(Letter(n, k)), word);
    NothingConvertedAtPar(percent, lang.conversion, k => d100(Post(n, k)), 0, word);
  }

  lemma {:induction false} NothingConvertedAtPar(percent: int, conversions: seq<Conversion>, roll: int -> int, k: nat,
                                                 text: string)
    requires k <= |conversions| && forall j :: roll(j) <= percent
    ensures Convert(percent, true, conversions, roll, k, text) == Returned(text)
    decreases |conversions| - k
  {
    if k < |conversions| {
      NothingConvertedAtPar(percent, conversions, roll, k + 1, text);
    }
  }

  /** The words between the spaces hold no space. */
  lemma {:induction false} WordsHoldNoSpace(s: string)
    ensures forall k :: 0 <= k < |Split(s)| ==> ' ' !in Split(s)[k]
    decreases |s|
  {
    if s != "" {
      WordsHoldNoSpace(s[1..]);
      var rest := Split(s[1..]);
      if s[0] != ' ' {
        assert forall k :: 0 < k < |Split(s)| ==> Split(s)[k] == rest[k];
      } else {
        assert forall k :: 0 < k < |Split(s)| ==> Split(s)[k] == rest[k - 1];
      }
    }
  }

  /** With an alphabet that has i for a, o for y and r for r, and "r" for "rr", "array" becomes "irio". */
  lemma ArrayBecomesIrio(lang: Language, exempt: char -> bool, d100: Roll -> int, n: nat)
    requires |lang.alphabet| >= 26 && lang.alphabet[0] == 'i' && lang.alphabet[17] == 'r' && lang.alphabet[24] == 'o'
    requires lang.preConversion == [] && lang.conversion == [Conversion("rr", "r")]
    requires (forall r :: d100(r) > 0) && forall c :: !exempt(c)
    ensures Word(lang, 0, exempt, d100, n, "array") == Returned("irio")
  {
    hide Convert, ConvertLetters, Word;
    WordGarbled(lang, 0, exempt, d100, n, "array");
    assert AllForeign(lang.alphabet, exempt, "array") == "irrio";
    assert AllReplaced(lang.conversion, 0, "irrio") == Replace("irrio", "rr", "r");
    hide AllReplaced, AllForeign, Replace;
    OneRrReplaced();
  }

  lemma OneRrReplaced()
    ensures Replace("irrio", "rr", "r") == "irio"
  {
    assert "i" + "rr" + "io" == "irrio" && "irrio"[0..] == "irrio";
    assert "irrio"[..2][0] == 'i' && "rr"[0] == 'r';
    FirstReplaced("i", "rr", "io", "r");
    forall i | 0 <= i <= 2
      ensures !IsPrefix("rr", "io"[i..])
    {
    }
    NothingReplaced("io", "rr", "r");
    assert "i" + "r" + "io" == "irio";
  }

  /** A conversion of the empty string that comes to pass is an exception. */
  lemma EmptyOldValueThrows(percent: int, strict: bool, conversions: seq<Conversion>, roll: int -> int, k: nat,
                            text: string)
    requires k < |conversions| && conversions[k].oldValue == ""
    requires if strict then roll(k) > percent else roll(k) >= percent
    ensures Convert(percent, strict, conversions, roll, k, text) == Thrown
  {
    assert IsPrefix("", text[0..]);
  }
}
