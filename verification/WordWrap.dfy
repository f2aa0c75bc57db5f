/** The word wrapping of act_move.cs. */
module WordWrap {
  import opened Basics
  import opened Wrappers

  /** The characters after which a line may be broken. */
  predicate Separator(c: char) {
    c in {' ', ',', '.', '?', '!', ':', ';', '-', '\n', '\r', '\t'}
  }

  /** The characters that are trimmed off a line. */
  const WHITESPACE := {' ', '\r', '\n', '\t'}

  predicate Blank(c: char) {
    c in WHITESPACE
  }

  /** LastIndexOfAny: the last separator at or before position `k`, or -1. */
  function LastSeparator(text: string, k: int): (i: int)
    requires -1 <= k < |text|
    ensures -1 <= i <= k
    ensures i >= 0 ==> Separator(text[i])
    ensures forall j :: i < j <= k ==> !Separator(text[j])
    decreases k
  {
    if k == -1 then -1 else if Separator(text[k]) then k else LastSeparator(text, k - 1)
  }

  /** Where the chunk that starts at `lastWrap` ends. */
  function NextWrap(text: string, lastWrap: nat, width: nat): int
    requires lastWrap <= |text|
  {
    var currentIndex :=
      if lastWrap + width > |text| then |text| else LastSeparator(text, Min(|text| - 1, lastWrap + width)) + 1;
    if currentIndex <= lastWrap then Min(lastWrap + width, |text|) else currentIndex
  }

  /** The loop comes to an end: the width is positive, or there is no character to get stuck at. */
  predicate Ends(text: string, width: nat) {
    width > 0 || forall j :: 0 <= j < |text| ==> Separator(text[j])
  }

  lemma NextWrapAdvances(text: string, lastWrap: nat, width: nat)
    requires lastWrap <= |text| && Ends(text, width)
    ensures lastWrap < |text| ==> lastWrap < NextWrap(text, lastWrap, width) <= |text|
    ensures lastWrap == |text| ==> NextWrap(text, lastWrap, width) == |text|
  {
  }

  // ----- when the loop ends

  /** The position after `k` rounds; the loop ends when it reaches the end of the text. */
  function WrapAfter(text: string, width: nat, k: nat): (i: nat)
    ensures i <= |text|
  {
    if k == 0 then 0 else NextWrap(text, WrapAfter(text, width, k - 1), width)
  }

  lemma {:induction false} RoundsAdvance(text: string, width: nat, k: nat)
    requires Ends(text, width)
    ensures WrapAfter(text, width, k) >= Min(k, |text|)
  {
    hide NextWrap, Ends;
    if k > 0 {
      RoundsAdvance(text, width, k - 1);
      NextWrapAdvances(text, WrapAfter(text, width, k - 1), width);
    }
  }

  /** With width 0 no number of rounds gets past a character that is no separator. */
  lemma {:induction false} NeverPast(text: string, j: nat, k: nat)
    requires j < |text| && !Separator(text[j])
    ensures WrapAfter(text, 0, k) <= j
  {
    if k > 0 {
      NeverPast(text, j, k - 1);
    }
  }

  /**
   * The loop ends, after at most as many rounds as the text has characters, exactly when the width is positive or
   * every character of the text is a separator.
   */
  lemma LoopEndsIff(text: string, width: nat)
    ensures (exists k: nat :: WrapAfter(text, width, k) == |text|) <==> Ends(text, width)
    ensures Ends(text, width) ==> WrapAfter(text, width, |text|) == |text|
  {
    hide WrapAfter;
    if Ends(text, width) {
      RoundsAdvance(text, width, |text|);
    } else {
      var j :| 0 <= j < |text| && !Separator(text[j]);
      forall k: nat
        ensures WrapAfter(text, width, k) != |text|
      {
        NeverPast(text, j, k);
      }
    }
  }

  /** A text may start with a separator and still hold the loop for ever. */
  lemma SpaceThenLetter(k: nat)
    ensures WrapAfter(" a", 0, k) < 2
  {
    NeverPast(" a", 1, k);
  }

  /** With width 0 one round makes no progress exactly at a character that is no separator. */
  lemma WidthZeroStandsStill(text: string, lastWrap: nat)
    requires lastWrap < |text|
    ensures NextWrap(text, lastWrap, 0) == lastWrap <==> !Separator(text[lastWrap])
  {
  }

  // ----- the lines

  /** The raw chunks of the text from `lastWrap` on. */
  function Chunks(text: string, lastWrap: nat, width: nat): seq<string>
    requires lastWrap <= |text| && Ends(text, width)
    decreases |text| - lastWrap
  {
    NextWrapAdvances(text, lastWrap, width);
    var currentIndex := NextWrap(text, lastWrap, width);
    [text[lastWrap..currentIndex]] + if currentIndex < |text| then Chunks(text, currentIndex, width) else []
  }

  function TrimAll(chunks: seq<string>): seq<string> {
    if chunks == [] then [] else [Trim(chunks[0], WHITESPACE)] + TrimAll(chunks[1..])
  }

  function Join(lines: seq<string>): string {
    if lines == [] then "" else if |lines| == 1 then lines[0] else lines[0] + "\n\r" + Join(lines[1..])
  }

  lemma LinesUnfold(text: string, lastWrap: nat, width: nat)
    requires lastWrap <= |text| && Ends(text, width)
    ensures lastWrap <= NextWrap(text, lastWrap, width) <= |text|
    ensures var c := NextWrap(text, lastWrap, width);
      TrimAll(Chunks(text, lastWrap, width)) ==
      [Trim(text[lastWrap..c], WHITESPACE)] + if c < |text| then TrimAll(Chunks(text, c, width)) else []
  {
    hide Trim, Separator;
    NextWrapAdvances(text, lastWrap, width);
    var c := NextWrap(text, lastWrap, width);
    assert Chunks(text, lastWrap, width)[1..] == if c < |text| then Chunks(text, c, width) else [];
  }

  /** A negative width is an exception: no position and no length may be negative. */
  method Wordwrap(text: string, maxLineLength: int) returns (r: Outcome<string>)
    requires maxLineLength >= 0 ==> Ends(text, maxLineLength)
    ensures r == if maxLineLength < 0 then Thrown else Returned(Join(TrimAll(Chunks(text, 0, maxLineLength))))
    ensures maxLineLength >= 0 && OneLine(text) ==>
      Cut(r.value) == TrimAll(Chunks(text, 0, maxLineLength)) && Short(Cut(r.value), maxLineLength + 1)
  {
    if maxLineLength < 0 {
      return Thrown;
    }
    var list: seq<string> := [];
    var lastWrap, currentIndex := 0, 0;
    ghost var all := Chunks(text, 0, maxLineLength);
    hide NextWrap, Chunks, TrimAll, Trim, Ends, Cut, OneLine, Short, Join;
    while true
      invariant 0 <= lastWrap <= |text| && (lastWrap == |text| ==> list == [] && lastWrap == 0)
      invariant list + TrimAll(Chunks(text, lastWrap, maxLineLength)) == TrimAll(all)
      decreases |text| - lastWrap
    {
      LinesUnfold(text, lastWrap, maxLineLength);
      NextWrapAdvances(text, lastWrap, maxLineLength);
      currentIndex := NextWrap(text, lastWrap, maxLineLength);
      list := list + [Trim(text[lastWrap..currentIndex], WHITESPACE)];
      lastWrap := currentIndex;
      if currentIndex >= |text| {
        break;
      }
    }
    assert list == TrimAll(all);
    if OneLine(text) {
      ResultLines(text, maxLineLength);
    }
    return Returned(Join(list));
  }

  // ----- the chunks partition the text

  lemma {:induction false} ChunksPartition(text: string, lastWrap: nat, width: nat)
    requires lastWrap <= |text| && Ends(text, width)
    ensures Concat(Chunks(text, lastWrap, width)) == text[lastWrap..]
    decreases |text| - lastWrap
  {
    hide NextWrap, Ends;
    NextWrapAdvances(text, lastWrap, width);
    var currentIndex := NextWrap(text, lastWrap, width);
    if currentIndex < |text| {
      ChunksPartition(text, currentIndex, width);
      assert Chunks(text, lastWrap, width)[1..] == Chunks(text, currentIndex, width);
      assert text[lastWrap..] == text[lastWrap..currentIndex] + text[currentIndex..];
    } else {
      assert Chunks(text, lastWrap, width)[1..] == [];
    }
  }

  /** The characters that wrapping must not lose. */
  function Ink(s: string): string {
    if s == [] then "" else Ink(s[..|s| - 1]) + if Blank(s[|s| - 1]) then "" else [s[|s| - 1]]
  }

  lemma {:induction false} InkConcat(a: string, b: string)
    ensures Ink(a + b) == Ink(a) + Ink(b)
    decreases |b|
  {
    if b == [] {
      assert a + b == a;
    } else {
      InkConcat(a, b[..|b| - 1]);
      assert (a + b)[..|a + b| - 1] == a + b[..|b| - 1];
    }
  }

  lemma {:induction false} InkTrim(s: string)
    ensures Ink(Trim(s, WHITESPACE)) == Ink(s)
  {
    InkTrimStart(s);
    InkTrimEnd(TrimStart(s, WHITESPACE));
  }

  lemma {:induction false} InkTrimStart(s: string)
    ensures Ink(TrimStart(s, WHITESPACE)) == Ink(s)
    decreases |s|
  {
    if s != [] && Blank(s[0]) {
      InkTrimStart(s[1..]);
      InkConcat([s[0]], s[1..]);
      assert [s[0]] + s[1..] == s;
      assert [s[0]][..0] == "";
    }
  }

  lemma {:induction false} InkTrimEnd(s: string)
    ensures Ink(TrimEnd(s, WHITESPACE)) == Ink(s)
    decreases |s|
  {
    if s != [] && Blank(s[|s| - 1]) {
      InkTrimEnd(s[..|s| - 1]);
    }
  }

  lemma {:induction false} InkJoin(chunks: seq<string>)
    ensures Ink(Join(TrimAll(chunks))) == Ink(Concat(chunks))
    decreases |chunks|
  {
    if chunks != [] {
      InkJoin(chunks[1..]);
      InkTrim(chunks[0]);
      InkConcat(chunks[0], Concat(chunks[1..]));
      assert TrimAll(chunks)[1..] == TrimAll(chunks[1..]);
      if |chunks| == 1 {
        assert Concat(chunks[1..]) == "" && Ink("") == "";
      } else {
        var rest := Join(TrimAll(chunks[1..]));
        InkConcat(Trim(chunks[0], WHITESPACE) + "\n\r", rest);
        InkConcat(Trim(chunks[0], WHITESPACE), "\n\r");
        LineEndIsBlank();
      }
    }
  }

  lemma LineEndIsBlank()
    ensures Ink("\n\r") == ""
  {
    assert "\n\r"[..1] == "\n" && "\n"[..0] == "";
  }

  /** For every text on which the loop ends all characters that are not white space survive, in order. */
  lemma InkSurvives(text: string, width: nat)
    requires Ends(text, width)
    ensures Ink(Join(TrimAll(Chunks(text, 0, width)))) == Ink(text)
  {
    InkJoin(Chunks(text, 0, width));
    ChunksPartition(text, 0, width);
    assert text[0..] == text;
  }

  // ----- how long the lines are, and where they break

  lemma {:induction false} TrimLength(s: string)
    ensures |TrimEnd(s, WHITESPACE)| <= |s| && |TrimStart(s, WHITESPACE)| <= |s|
    ensures s != [] && Blank(s[|s| - 1]) ==> |TrimEnd(s, WHITESPACE)| < |s|
    ensures TrimStart(s, WHITESPACE) == s || |TrimStart(s, WHITESPACE)| < |s|
    decreases |s|
  {
    if s != [] && Blank(s[|s| - 1]) {
      TrimLength(s[..|s| - 1]);
    }
    if s != [] && Blank(s[0]) {
      TrimLength(s[1..]);
    }
  }

  /** Just past the last position that a line starting at `lastWrap` may still take its break from. */
  function Reach(text: string, lastWrap: nat, width: nat): int {
    Min(|text|, lastWrap + width + 1)
  }

  /**
   * Where a chunk ends. What fits on one line goes on one line. Otherwise the line is filled: the chunk ends after a
   * separator and no later one is in reach, or after `width` characters when there is no separator in reach.
   */
  predicate GoodBreak(text: string, lastWrap: nat, currentIndex: nat, width: nat)
    requires lastWrap <= currentIndex <= |text|
  {
    if lastWrap + width > |text| then currentIndex == |text|
    else if lastWrap < currentIndex <= Reach(text, lastWrap, width) && Separator(text[currentIndex - 1])
    then forall j :: currentIndex <= j < Reach(text, lastWrap, width) ==> !Separator(text[j])
    else
      && currentIndex == lastWrap + width
      && forall j :: lastWrap <= j < Reach(text, lastWrap, width) ==> !Separator(text[j])
  }

  /** The breaks are good, and no others are. */
  lemma BreakIsGood(text: string, lastWrap: nat, width: nat)
    requires lastWrap < |text| && Ends(text, width)
    ensures lastWrap < NextWrap(text, lastWrap, width) <= |text|
    ensures forall c :: lastWrap < c <= |text| ==>
      (GoodBreak(text, lastWrap, c, width) <==> c == NextWrap(text, lastWrap, width))
  {
    NextWrapAdvances(text, lastWrap, width);
  }

  /** A chunk has at most width + 1 characters, and the last of width + 1 is a separator. */
  lemma ChunkLength(text: string, lastWrap: nat, width: nat)
    requires lastWrap <= |text| && Ends(text, width)
    ensures var c := NextWrap(text, lastWrap, width);
      lastWrap <= c <= |text| && c - lastWrap <= width + 1 && (c - lastWrap == width + 1 ==> Separator(text[c - 1]))
  {
    NextWrapAdvances(text, lastWrap, width);
  }

  lemma TrimmedLength(chunk: string, width: nat)
    requires |chunk| <= width + 1 && (|chunk| == width + 1 ==> Separator(chunk[width]))
    ensures |Trim(chunk, WHITESPACE)| <= width + 1
    ensures |Trim(chunk, WHITESPACE)| == width + 1 ==>
      Trim(chunk, WHITESPACE) == chunk && Separator(chunk[width]) && !Blank(chunk[width])
  {
    TrimLength(chunk);
    TrimLength(TrimStart(chunk, WHITESPACE));
    if |TrimStart(chunk, WHITESPACE)| == width + 1 && !Blank(chunk[width]) {
      assert TrimEnd(chunk, WHITESPACE) == chunk;
    }
  }

  /** Every wrapped line has at most width + 1 characters, and one of width + 1 ends in punctuation. */
  lemma {:induction false} LinesFit(text: string, lastWrap: nat, width: nat, k: nat)
    requires lastWrap <= |text| && Ends(text, width) && k < |TrimAll(Chunks(text, lastWrap, width))|
    ensures var line := TrimAll(Chunks(text, lastWrap, width))[k];
      && |line| <= width + 1
      && (|line| == width + 1 ==> Separator(line[width]) && !Blank(line[width]))
    decreases |text| - lastWrap
  {
    NextWrapAdvances(text, lastWrap, width);
    var currentIndex := NextWrap(text, lastWrap, width);
    var chunks := Chunks(text, lastWrap, width);
    if k == 0 {
      ChunkLength(text, lastWrap, width);
      TrimmedLength(chunks[0], width);
    } else {
      assert chunks[1..] == if currentIndex < |text| then Chunks(text, currentIndex, width) else [];
      LinesFit(text, currentIndex, width, k - 1);
    }
  }

  // ----- the lines of the result

  /** The pieces between the line ends of a text. */
  function Cut(s: string): (pieces: seq<string>)
    ensures pieces != []
  {
    if s == "" then [""]
    else if |s| >= 2 && s[0] == '\n' && s[1] == '\r' then [""] + Cut(s[2..])
    else
      var rest := Cut(s[1..]);
      [[s[0]] + rest[0]] + rest[1..]
  }

  /** The text holds no line end of its own, nor a part of one. */
  predicate OneLine(s: string) {
    forall i :: 0 <= i < |s| ==> s[i] != '\n' && s[i] != '\r'
  }

  /** A piece without line ends, and what follows it after a line end. */
  lemma {:induction false} CutFirst(line: string, rest: string)
    requires OneLine(line)
    ensures Cut(line + "\n\r" + rest) == [line] + Cut(rest)
    decreases |line|
  {
    var s := line + "\n\r" + rest;
    if line == "" {
      assert s[2..] == rest;
    } else {
      CutFirst(line[1..], rest);
      assert s[1..] == line[1..] + "\n\r" + rest && s[0] == line[0];
      assert [line[0]] + line[1..] == line;
      assert ([line[1..]] + Cut(rest))[1..] == Cut(rest);
    }
  }

  lemma {:induction false} CutLast(line: string)
    requires OneLine(line)
    ensures Cut(line) == [line]
    decreases |line|
  {
    if line != "" {
      CutLast(line[1..]);
      assert [line[0]] + line[1..] == line;
    }
  }

  lemma {:induction false} CutJoined(lines: seq<string>)
    requires lines != [] && forall k :: 0 <= k < |lines| ==> OneLine(lines[k])
    ensures Cut(Join(lines)) == lines
    decreases |lines|
  {
    hide Cut, OneLine;
    if |lines| == 1 {
      CutLast(lines[0]);
    } else {
      CutJoined(lines[1..]);
      CutFirst(lines[0], Join(lines[1..]));
      assert [lines[0]] + lines[1..] == lines;
    }
  }

  /** Trimmed chunks of a text without line ends have none either. */
  lemma {:induction false} ChunksOneLine(text: string, lastWrap: nat, width: nat, k: nat)
    requires lastWrap <= |text| && Ends(text, width) && OneLine(text)
    requires k < |TrimAll(Chunks(text, lastWrap, width))|
    ensures OneLine(TrimAll(Chunks(text, lastWrap, width))[k])
    decreases |text| - lastWrap
  {
    hide Trim, NextWrap, Chunks, TrimAll, Ends;
    NextWrapAdvances(text, lastWrap, width);
    LinesUnfold(text, lastWrap, width);
    var c := NextWrap(text, lastWrap, width);
    if k == 0 {
      var i, j := TrimIs(text[lastWrap..c], WHITESPACE);
      assert forall l :: i <= l < j ==> text[lastWrap..c][l] == text[lastWrap + l];
    } else {
      ChunksOneLine(text, c, width, k - 1);
    }
  }

  /** No piece has more than `n` characters. */
  predicate Short(pieces: seq<string>, n: int) {
    forall k :: 0 <= k < |pieces| ==> |pieces[k]| <= n
  }

  /** A text without line ends is cut by those of the result into just the trimmed chunks, each short enough. */
  lemma ResultLines(text: string, width: nat)
    requires Ends(text, width) && OneLine(text)
    ensures var result := Join(TrimAll(Chunks(text, 0, width)));
      Cut(result) == TrimAll(Chunks(text, 0, width)) && Short(Cut(result), width + 1)
  {
    hide Cut, Join, TrimAll, Chunks, OneLine, Ends;
    var lines := TrimAll(Chunks(text, 0, width));
    LinesUnfold(text, 0, width);
    forall k | 0 <= k < |lines|
      ensures OneLine(lines[k]) && |lines[k]| <= width + 1
    {
      ChunksOneLine(text, 0, width, k);
      LinesFit(text, 0, width, k);
    }
    CutJoined(lines);
  }

  /** The k-th line of the result is the k-th raw chunk without the white space at its ends: 9, 10, 13 and 32. */
  lemma {:induction false} LineIsChunk(chunks: seq<string>, k: nat) returns (i: nat, j: nat)
    requires k < |chunks|
    ensures |TrimAll(chunks)| == |chunks| && i <= j <= |chunks[k]| && TrimAll(chunks)[k] == chunks[k][i..j]
    ensures forall l :: 0 <= l < i || j <= l < |chunks[k]| ==> chunks[k][l] as int in {9, 10, 13, 32}
    ensures i < j ==> chunks[k][i] as int !in {9, 10, 13, 32} && chunks[k][j - 1] as int !in {9, 10, 13, 32}
    decreases |chunks|
  {
    TrimAllLength(chunks);
    if k == 0 {
      i, j := TrimIs(chunks[0], WHITESPACE);
    } else {
      i, j := LineIsChunk(chunks[1..], k - 1);
    }
  }

  lemma {:induction false} TrimAllLength(chunks: seq<string>)
    ensures |TrimAll(chunks)| == |chunks|
  {
    if chunks != [] {
      TrimAllLength(chunks[1..]);
    }
  }

  /** Just these characters let a line break after them: white space and , . ? ! : ; - */
  lemma SeparatorsBreak(c: char)
    ensures NextWrap(['x', c, 'x', 'x', 'x'], 0, 3) ==
            if c as int in {9, 10, 13, 32, 33, 44, 45, 46, 58, 59, 63} then 2 else 3
  {
    var text := ['x', c, 'x', 'x', 'x'];
    assert !Separator('x');
    assert LastSeparator(text, 3) == LastSeparator(text, 2) == LastSeparator(text, 1);
    assert LastSeparator(text, 0) == LastSeparator(text, -1) == -1;
  }

  /** "hello world" in lines of five. */
  lemma HelloWorld()
    ensures Ends("hello world", 5) && Cut(Join(TrimAll(Chunks("hello world", 0, 5)))) == ["hello", "world"]
  {
    var text := "hello world";
    HelloBreaks();
    assert OneLine(text) && text[0..6] == "hello " && text[6..11] == "world";
    hide Cut, Join, Trim, NextWrap, Separator, Chunks, TrimAll, OneLine, Short;
    ResultLines(text, 5);
    LinesUnfold(text, 0, 5);
    LinesUnfold(text, 6, 5);
    TrimHello();
    assert ["hello"] + (["world"] + []) == ["hello", "world"];
  }

  lemma HelloBreaks()
    ensures NextWrap("hello world", 0, 5) == 6 && NextWrap("hello world", 6, 5) == 11
  {
    var text := "hello world";
    hide LastSeparator;
    var i, j := LastSeparator(text, 5), LastSeparator(text, 10);
    assert Separator(text[5]) && forall k :: 5 < k <= 10 ==> !Separator(text[k]);
  }

  lemma TrimHello()
    ensures Trim("hello ", WHITESPACE) == "hello" && Trim("world", WHITESPACE) == "world"
  {
    assert "hello "[..5] == "hello";
  }
}
