/**
 * Formula rewriting in ExpressionParser.cs: matches found in a string are replaced one after another in a
 * working copy, at positions shifted by a running length offset.
 *
 * Pattern matching itself is an oracle: each expression comes with the matches it finds in any string.
 */
module Splicing {
  import opened Basics
  import opened Wrappers

  datatype Match = Match(index: nat, length: nat)

  /** What reflection finds under a reference's name on the target object, with the text each member yields. */
  datatype Reference = Reference(method_: Option<string>, property: Option<string>)

  datatype CustomExpression = CustomExpression(
    matches: string -> seq<Match>,
    replacementFunction: Option<(string, Match) -> string>,
    replacementReference: Option<Reference>)

  /** The matches are in order, do not overlap, and lie in `s` from position `start` on. */
  predicate Ordered(s: string, start: nat, ms: seq<Match>)
    decreases |ms|
  {
    start <= |s| &&
    (ms != [] ==>
      start <= ms[0].index && ms[0].index + ms[0].length <= |s| && Ordered(s, ms[0].index + ms[0].length, ms[1..]))
  }

  // ----- the code

  /** The replacement texts that one match is given; an unknown member is an exception. */
  function Texts(e: CustomExpression, hasTarget: bool, s: string, m: Match): Outcome<seq<string>> {
    var own := if e.replacementFunction.Some? then [e.replacementFunction.value(s, m)] else [];
    if e.replacementReference == None || !hasTarget then Returned(own)
    else
      var r := e.replacementReference.value;
      if r.method_.Some? then Returned(own + if r.property == None then [r.method_.value] else [])
      else if r.property == None then Thrown
      else Returned(own + [r.property.value])
  }

  /** Each text is put between the two parts, and the results are strung together. */
  function Spliced(first: string, texts: seq<string>, second: string): string {
    if texts == [] then "" else first + texts[0] + second + Spliced(first, texts[1..], second)
  }

  /** ProcessRegexMatch: the new working string and the new offset. */
  function Process(texts: Outcome<seq<string>>, newStr: string, m: Match, originalLength: nat, lengthOffset: int)
      : Outcome<(string, int)> {
    var at := m.index + lengthOffset;
    if at < 0 || at + m.length > |newStr| || texts.Thrown? then Thrown
    else
      var updated := Spliced(newStr[..at], texts.value, newStr[at + m.length..]);
      Returned((updated, |updated| - originalLength))
  }

  /** The loop over the matches of one expression in the string `s`. */
  function SpliceAll(e: CustomExpression, hasTarget: bool, s: string, ms: seq<Match>, newStr: string,
                     lengthOffset: int): Outcome<string> {
    if ms == [] then Returned(newStr)
    else match Process(Texts(e, hasTarget, s, ms[0]), newStr, ms[0], |s|, lengthOffset)
      case Thrown => Thrown
      case Returned(result) => SpliceAll(e, hasTarget, s, ms[1..], result.0, result.1)
  }

  /** ReplaceExpressionMatches: one expression after another, each on the result of the one before. */
  function ReplaceAll(es: seq<CustomExpression>, hasTarget: bool, s: string): Outcome<string> {
    if es == [] then Returned(s)
    else match SpliceAll(es[0], hasTarget, s, es[0].matches(s), s, 0)
      case Thrown => Thrown
      case Returned(s') => ReplaceAll(es[1..], hasTarget, s')
  }

  method ReplaceExpressionMatches(expr: string, combined: seq<CustomExpression>, hasTarget: bool)
      returns (r: Outcome<string>)
    ensures r == ReplaceAll(combined, hasTarget, expr)
    ensures (forall e :: e in combined ==> OneText(e, hasTarget)) &&
            (forall e, s :: e in combined ==> Ordered(s, 0, e.matches(s))) ==>
            r == Returned(Rewrite(combined, hasTarget, expr))
    ensures (forall e :: e in combined ==> ByFunction(e, hasTarget)) &&
            (forall e, s :: e in combined ==> Ordered(s, 0, e.matches(s))) ==>
            r == Returned(RewriteByFunctions(combined, expr))
  {
    RewriteRefines(combined, hasTarget, expr);
    if (forall e :: e in combined ==> ByFunction(e, hasTarget)) &&
       (forall e, s :: e in combined ==> Ordered(s, 0, e.matches(s))) {
      FunctionsRewrite(combined, hasTarget, expr);
    }
    var newStr := expr;
    for k := 0 to |combined|
      invariant ReplaceAll(combined[k..], hasTarget, newStr) == ReplaceAll(combined, hasTarget, expr)
    {
      var customExpr, original := combined[k], newStr;
      var matches, lengthOffset := customExpr.matches(original), 0;
      assert combined[k..][1..] == combined[k + 1..];
      for i := 0 to |matches|
        invariant SpliceAll(customExpr, hasTarget, original, matches[i..], newStr, lengthOffset)
               == SpliceAll(customExpr, hasTarget, original, matches, original, 0)
      {
        assert matches[i..][1..] == matches[i + 1..];
        var texts := Texts(customExpr, hasTarget, original, matches[i]);
        var result := Process(texts, newStr, matches[i], |original|, lengthOffset);
        if result.Thrown? {
          return Thrown;
        }
        newStr, lengthOffset := result.value.0, result.value.1;
      }
    }
    return Returned(newStr);
  }

  // ----- the simple form

  /** Simultaneous substitution: gaps are kept, every match is replaced once. */
  function Substitute(s: string, start: nat, ms: seq<Match>, text: Match -> string): string
    requires Ordered(s, start, ms)
    decreases |ms|
  {
    if ms == [] then s[start..]
    else s[start..ms[0].index] + text(ms[0]) + Substitute(s, ms[0].index + ms[0].length, ms[1..], text)
  }

  /** Exactly one text is put in the place of a match. */
  predicate OneText(e: CustomExpression, hasTarget: bool) {
    if e.replacementReference == None || !hasTarget then e.replacementFunction.Some?
    else
      var r := e.replacementReference.value;
      if r.method_.Some? && r.property.Some? then e.replacementFunction.Some?
      else e.replacementFunction == None && (r.method_.Some? || r.property.Some?)
  }

  /** What a match is replaced by when each of its texts is used once. */
  function TextOf(e: CustomExpression, hasTarget: bool, s: string): Match -> string {
    m => match Texts(e, hasTarget, s, m) case Thrown => "" case Returned(texts) => Concat(texts)
  }

  function Rewrite(es: seq<CustomExpression>, hasTarget: bool, s: string): string
    requires forall e, t :: e in es ==> Ordered(t, 0, e.matches(t))
  {
    if es == [] then s
    else
      Rewrite(es[1..], hasTarget, Substitute(s, 0, es[0].matches(s), TextOf(es[0], hasTarget, s)))
  }

  lemma OneTextIs(e: CustomExpression, hasTarget: bool, s: string, m: Match)
    requires OneText(e, hasTarget)
    ensures Texts(e, hasTarget, s, m) == Returned([TextOf(e, hasTarget, s)(m)])
  {
    var texts := Texts(e, hasTarget, s, m).value;
    assert |texts| == 1 && texts[1..] == [] && texts == [texts[0]];
    assert Concat(texts) == texts[0] + "" == texts[0];
    assert TextOf(e, hasTarget, s)(m) == texts[0];
  }

  /**
   * With one text for each match the running offset is right: what has been replaced stands before the rest of
   * the original, no slice leaves the working string, and the result is the simultaneous substitution.
   */
  lemma {:induction false} SpliceIsSubstitute(e: CustomExpression, hasTarget: bool, s: string, start: nat,
                                              ms: seq<Match>, done: string)
    requires OneText(e, hasTarget) && Ordered(s, start, ms)
    ensures SpliceAll(e, hasTarget, s, ms, done + s[start..], |done| - start)
         == Returned(done + Substitute(s, start, ms, TextOf(e, hasTarget, s)))
    decreases |ms|
  {
    hide Texts, TextOf, OneText, Process;
    if ms != [] {
      var m, text := ms[0], TextOf(e, hasTarget, s)(ms[0]);
      var next := m.index + m.length;
      OneTextIs(e, hasTarget, s, m);
      ProcessOne(s, start, m, done, text);
      var done' := done + s[start..m.index] + text;
      SpliceIsSubstitute(e, hasTarget, s, next, ms[1..], done');
      assert done + (s[start..m.index] + text + Substitute(s, next, ms[1..], TextOf(e, hasTarget, s)))
          == done' + Substitute(s, next, ms[1..], TextOf(e, hasTarget, s));
    }
  }

  lemma ProcessOne(s: string, start: nat, m: Match, done: string, text: string)
    requires start <= m.index && m.index + m.length <= |s|
    ensures var next, done' := m.index + m.length, done + s[start..m.index] + text;
      Process(Returned([text]), done + s[start..], m, |s|, |done| - start)
      == Returned((done' + s[next..], |done'| - next))
  {
    var newStr, at := done + s[start..], m.index + (|done| - start);
    assert newStr[..at] == done + s[start..m.index];
    assert newStr[at + m.length..] == s[m.index + m.length..];
    OneSplice(done + s[start..m.index], text, s[m.index + m.length..]);
  }

  lemma OneSplice(first: string, text: string, second: string)
    ensures Spliced(first, [text], second) == first + text + second
  {
    assert [text][1..] == [];
    assert Spliced(first, [text], second) == first + text + second + "";
  }

  lemma {:induction false} RewriteRefines(es: seq<CustomExpression>, hasTarget: bool, s: string)
    ensures (forall e :: e in es ==> OneText(e, hasTarget)) &&
            (forall e, t :: e in es ==> Ordered(t, 0, e.matches(t))) ==>
            ReplaceAll(es, hasTarget, s) == Returned(Rewrite(es, hasTarget, s))
    decreases |es|
  {
    if es != [] && (forall e :: e in es ==> OneText(e, hasTarget)) &&
       (forall e, t :: e in es ==> Ordered(t, 0, e.matches(t))) {
      assert es[0] in es && forall e :: e in es[1..] ==> e in es;
      SpliceIsSubstitute(es[0], hasTarget, s, 0, es[0].matches(s), "");
      assert "" + s[0..] == s;
      var s' := Substitute(s, 0, es[0].matches(s), TextOf(es[0], hasTarget, s));
      assert "" + s' == s';
      RewriteRefines(es[1..], hasTarget, s');
    }
  }

  // ----- the substitution, position by position

  function Covered(ms: seq<Match>): nat {
    if ms == [] then 0 else ms[0].length + Covered(ms[1..])
  }

  function Grown(ms: seq<Match>, text: Match -> string): nat {
    if ms == [] then 0 else |text(ms[0])| + Grown(ms[1..], text)
  }

  lemma {:induction false} SubstituteLength(s: string, start: nat, ms: seq<Match>, text: Match -> string)
    requires Ordered(s, start, ms)
    ensures |Substitute(s, start, ms, text)| == |s| - start - Covered(ms) + Grown(ms, text)
    decreases |ms|
  {
    if ms != [] {
      SubstituteLength(s, ms[0].index + ms[0].length, ms[1..], text);
    }
  }

  // ----- exactly when the splice is the substitution

  /** Two texts: the working string is doubled around the match. */
  lemma TwoTextsAtOnce(e: CustomExpression, hasTarget: bool, s: string, m: Match, newStr: string)
      returns (updated: string)
    requires m.index + m.length <= |s| && m.index + |newStr| >= |s|
    requires Texts(e, hasTarget, s, m).Returned? && |Texts(e, hasTarget, s, m).value| == 2
    ensures Process(Texts(e, hasTarget, s, m), newStr, m, |s|, |newStr| - |s|) == Returned((updated, |updated| - |s|))
    ensures |updated| == 2 * |newStr| - 2 * m.length + |TextOf(e, hasTarget, s)(m)|
  {
    hide Texts, Spliced, Concat;
    var texts, at := Texts(e, hasTarget, s, m).value, m.index + |newStr| - |s|;
    var first, second := newStr[..at], newStr[at + m.length..];
    updated := Spliced(first, texts, second);
    TwoSplices(first, texts, second);
  }

  /** So it never shrinks back. */
  lemma {:induction false} TwoTextsTooLong(e: CustomExpression, hasTarget: bool, s: string, start: nat, ms: seq<Match>,
                                           newStr: string)
    requires Ordered(s, start, ms) && |newStr| >= |s| - start
    requires forall m :: Texts(e, hasTarget, s, m).Returned? && |Texts(e, hasTarget, s, m).value| == 2
    ensures var r := SpliceAll(e, hasTarget, s, ms, newStr, |newStr| - |s|);
      && r.Returned?
      && |r.value| >= |newStr| - Covered(ms) + Grown(ms, TextOf(e, hasTarget, s))
      && (ms != [] ==> |r.value| >= 2 * |newStr| - ms[0].length - Covered(ms) + Grown(ms, TextOf(e, hasTarget, s)))
    decreases |ms|
  {
    hide Texts, TextOf, Process;
    if ms != [] {
      var updated := TwoTextsAtOnce(e, hasTarget, s, ms[0], newStr);
      TwoTextsTooLong(e, hasTarget, s, ms[0].index + ms[0].length, ms[1..], updated);
    }
  }

  lemma TwoSplices(first: string, texts: seq<string>, second: string)
    requires |texts| == 2
    ensures |Spliced(first, texts, second)| == 2 * |first| + 2 * |second| + |texts[0]| + |texts[1]|
    ensures |Concat(texts)| == |texts[0]| + |texts[1]|
  {
    assert texts[1..][1..] == [];
    assert Spliced(first, texts[1..], second) == first + texts[1] + second + "";
    assert Concat(texts[1..]) == texts[1] + "";
  }

  /** No text: the first match leaves the empty string, and so does every match after it, or it throws. */
  lemma {:induction false} NoTextLeavesNothing(e: CustomExpression, hasTarget: bool, s: string, ms: seq<Match>,
                                               newStr: string, offset: int)
    requires forall m :: Texts(e, hasTarget, s, m).Returned? ==> Texts(e, hasTarget, s, m).value == []
    ensures var r := SpliceAll(e, hasTarget, s, ms, newStr, offset);
      ms != [] || newStr == "" ==> r.Thrown? || r.value == ""
    ensures Grown(ms, TextOf(e, hasTarget, s)) == 0
    decreases |ms|
  {
    hide TextOf, Texts;
    if ms != [] {
      NoTextHere(e, hasTarget, s, ms[0], newStr, offset);
      NoTextLeavesNothing(e, hasTarget, s, ms[1..], "", 0 - |s|);
    }
  }

  lemma NoTextHere(e: CustomExpression, hasTarget: bool, s: string, m: Match, newStr: string, offset: int)
    requires Texts(e, hasTarget, s, m).Returned? ==> Texts(e, hasTarget, s, m).value == []
    ensures var result := Process(Texts(e, hasTarget, s, m), newStr, m, |s|, offset);
      result.Thrown? || result.value == ("", 0 - |s|)
    ensures TextOf(e, hasTarget, s)(m) == ""
  {
    hide Texts;
  }

  /** No text is put in the place of a match, and nothing is thrown. */
  predicate NoText(e: CustomExpression, hasTarget: bool) {
    e.replacementFunction == None &&
    (e.replacementReference == None || !hasTarget ||
     (e.replacementReference.value.method_.Some? && e.replacementReference.value.property.Some?))
  }

  /** A function and a member of the target both supply a text. */
  predicate TwoTexts(e: CustomExpression, hasTarget: bool) {
    e.replacementFunction.Some? && e.replacementReference.Some? && hasTarget &&
    e.replacementReference.value.method_.Some? != e.replacementReference.value.property.Some?
  }

  /** Every match gets none, one or two texts, or the lookup throws; which of these depends on the expression alone. */
  lemma TextCounts(e: CustomExpression, hasTarget: bool, s: string, m: Match)
    ensures var texts := Texts(e, hasTarget, s, m);
      && (OneText(e, hasTarget) ==> texts.Returned? && |texts.value| == 1)
      && (NoText(e, hasTarget) ==> texts.Returned? && texts.value == [])
      && (TwoTexts(e, hasTarget) ==> texts.Returned? && |texts.value| == 2)
      && (!OneText(e, hasTarget) && !NoText(e, hasTarget) && !TwoTexts(e, hasTarget) ==> texts.Thrown?)
  {
  }

  // ----- a match that covers the whole formula

  /**
   * Two texts for each match, the rest of which are empty matches at the end of the formula: they are spliced rightly
   * as long as nothing stands in the working string before the last of them.
   */
  lemma {:induction false} TwoTextsAtTheEnd(e: CustomExpression, hasTarget: bool, s: string, ms: seq<Match>, u: string)
    requires TwoTexts(e, hasTarget) && Ordered(s, |s|, ms)
    ensures SpliceAll(e, hasTarget, s, ms, u, |u| - |s|)
            == Returned(u + Substitute(s, |s|, ms, TextOf(e, hasTarget, s))) <==>
            ms == [] || (u == "" && forall k :: 0 <= k < |ms| - 1 ==> TextOf(e, hasTarget, s)(ms[k]) == "")
    decreases |ms|
  {
    hide TextOf, Texts, TwoTexts, SpliceAll, Process, Substitute;
    var text := TextOf(e, hasTarget, s);
    SpliceUnfolds(e, hasTarget, s, ms, u, |u| - |s|);
    SubstituteUnfolds(s, |s|, ms, text);
    if ms == [] {
      assert u + s[|s|..] == u;
    } else if u == "" {
      TwoTextsAlone(e, hasTarget, s, ms[0], "", text(ms[0]));
      TwoTextsAtTheEnd(e, hasTarget, s, ms[1..], text(ms[0]));
      AllButLast(ms, text);
      assert s[|s|..|s|] == "";
      assert "" + Substitute(s, |s|, ms, text) == text(ms[0]) + Substitute(s, |s|, ms[1..], text);
    } else {
      TwoTextsPileUp(e, hasTarget, s, ms, u);
    }
  }

  lemma SubstituteUnfolds(s: string, start: nat, ms: seq<Match>, text: Match -> string)
    requires Ordered(s, start, ms)
    ensures Substitute(s, start, ms, text) ==
            if ms == [] then s[start..]
            else s[start..ms[0].index] + text(ms[0]) + Substitute(s, ms[0].index + ms[0].length, ms[1..], text)
  {
  }

  /** What stands in the working string before an empty match at its end is doubled. */
  lemma TwoTextsPileUp(e: CustomExpression, hasTarget: bool, s: string, ms: seq<Match>, u: string)
    requires TwoTexts(e, hasTarget) && Ordered(s, |s|, ms) && ms != [] && u != ""
    ensures SpliceAll(e, hasTarget, s, ms, u, |u| - |s|)
            != Returned(u + Substitute(s, |s|, ms, TextOf(e, hasTarget, s)))
  {
    hide TextOf, Texts, TwoTexts, SpliceAll, Substitute;
    forall m
      ensures Texts(e, hasTarget, s, m).Returned? && |Texts(e, hasTarget, s, m).value| == 2
    {
      TextCounts(e, hasTarget, s, m);
    }
    NothingCovered(s, ms);
    TwoTextsTooLong(e, hasTarget, s, |s|, ms, u);
    SubstituteLength(s, |s|, ms, TextOf(e, hasTarget, s));
  }

  lemma SpliceUnfolds(e: CustomExpression, hasTarget: bool, s: string, ms: seq<Match>, newStr: string, offset: int)
    ensures SpliceAll(e, hasTarget, s, ms, newStr, offset) ==
            if ms == [] then Returned(newStr)
            else match Process(Texts(e, hasTarget, s, ms[0]), newStr, ms[0], |s|, offset)
              case Thrown => Thrown
              case Returned(result) => SpliceAll(e, hasTarget, s, ms[1..], result.0, result.1)
  {
  }

  lemma {:induction false} NothingCovered(s: string, ms: seq<Match>)
    requires Ordered(s, |s|, ms)
    ensures Covered(ms) == 0
  {
    if ms != [] {
      NothingCovered(s, ms[1..]);
    }
  }

  /** A match that covers the whole working string is replaced by both texts. */
  lemma TwoTextsAlone(e: CustomExpression, hasTarget: bool, s: string, m: Match, newStr: string, text: string)
    requires TwoTexts(e, hasTarget) && text == TextOf(e, hasTarget, s)(m)
    requires m.length == |newStr| && m.index + |newStr| == |s|
    ensures Process(Texts(e, hasTarget, s, m), newStr, m, |s|, |newStr| - |s|) == Returned((text, |text| - |s|))
  {
    TextCounts(e, hasTarget, s, m);
    var texts := Texts(e, hasTarget, s, m).value;
    assert newStr[..0] == "" && newStr[|newStr|..] == "";
    SplicedAlone(texts);
  }

  lemma {:induction false} SplicedAlone(texts: seq<string>)
    ensures Spliced("", texts, "") == Concat(texts)
  {
    if texts != [] {
      SplicedAlone(texts[1..]);
      assert "" + texts[0] + "" == texts[0];
    }
  }

  lemma AllButLast(ms: seq<Match>, text: Match -> string)
    requires ms != []
    ensures (forall k :: 0 <= k < |ms| - 1 ==> text(ms[k]) == "") <==>
            (ms[1..] == [] ||
             (text(ms[0]) == "" && forall k :: 0 <= k < |ms[1..]| - 1 ==> text(ms[1..][k]) == ""))
  {
    if forall k :: 0 <= k < |ms| - 1 ==> text(ms[k]) == "" {
      assert |ms| > 1 ==> text(ms[0]) == "";
      assert forall k :: 0 <= k < |ms[1..]| - 1 ==> ms[1..][k] == ms[k + 1];
    }
    if text(ms[0]) == "" && forall k :: 0 <= k < |ms[1..]| - 1 ==> text(ms[1..][k]) == "" {
      assert forall k :: 0 < k < |ms| - 1 ==> ms[k] == ms[1..][k - 1];
    }
  }

  lemma NoTextAtOnce(e: CustomExpression, hasTarget: bool, s: string, m: Match, newStr: string, offset: int)
    requires NoText(e, hasTarget)
    ensures Process(Texts(e, hasTarget, s, m), newStr, m, |s|, offset) ==
            if m.index + offset < 0 || m.index + offset + m.length > |newStr| then Thrown else Returned(("", 0 - |s|))
  {
    hide Texts, NoText;
    TextCounts(e, hasTarget, s, m);
  }

  /** No text: what is left is the empty string, or an exception as soon as a match starts before the end. */
  lemma {:induction false} NoTextAfter(e: CustomExpression, hasTarget: bool, s: string, ms: seq<Match>)
    requires NoText(e, hasTarget) && Ordered(s, 0, ms)
    ensures SpliceAll(e, hasTarget, s, ms, "", 0 - |s|) == Returned("") <==> Ordered(s, |s|, ms)
    decreases |ms|
  {
    hide Texts, NoText, SpliceAll, Process;
    SpliceUnfolds(e, hasTarget, s, ms, "", 0 - |s|);
    if ms != [] {
      NoTextAtOnce(e, hasTarget, s, ms[0], "", 0 - |s|);
      if ms[0].index == |s| {
        NoTextAfter(e, hasTarget, s, ms[1..]);
      }
    }
  }

  /** With no text the substitution is met exactly when the first match is the whole formula. */
  lemma NoTextIff(e: CustomExpression, hasTarget: bool, s: string, ms: seq<Match>)
    requires NoText(e, hasTarget) && Ordered(s, 0, ms) && ms != []
    ensures SpliceAll(e, hasTarget, s, ms, s, 0) == Returned(Substitute(s, 0, ms, TextOf(e, hasTarget, s)))
            <==> ms[0].length == |s|
  {
    hide TextOf, Texts, NoText, SpliceAll, Process, Substitute;
    forall m
      ensures Texts(e, hasTarget, s, m).Returned? ==> Texts(e, hasTarget, s, m).value == []
    {
      TextCounts(e, hasTarget, s, m);
    }
    NoTextLeavesNothing(e, hasTarget, s, ms, s, 0);
    SubstituteLength(s, 0, ms, TextOf(e, hasTarget, s));
    SpliceUnfolds(e, hasTarget, s, ms, s, 0);
    NoTextAtOnce(e, hasTarget, s, ms[0], s, 0);
    OrderedEarlier(s, ms[0].index + ms[0].length, ms[1..]);
    NoTextAfter(e, hasTarget, s, ms[1..]);
    if Ordered(s, |s|, ms[1..]) {
      NothingCovered(s, ms[1..]);
    }
  }

  lemma OrderedEarlier(s: string, start: nat, ms: seq<Match>)
    requires Ordered(s, start, ms)
    ensures Ordered(s, 0, ms)
  {
  }

  /** A first match that is the whole formula leaves its two texts, and empty matches at the end. */
  lemma TwoTextsWhole(e: CustomExpression, hasTarget: bool, s: string, ms: seq<Match>)
    requires TwoTexts(e, hasTarget) && Ordered(s, 0, ms) && ms != [] && ms[0].length == |s|
    ensures Ordered(s, |s|, ms[1..])
    ensures var text := TextOf(e, hasTarget, s);
      && SpliceAll(e, hasTarget, s, ms, s, 0)
         == SpliceAll(e, hasTarget, s, ms[1..], text(ms[0]), |text(ms[0])| - |s|)
      && Substitute(s, 0, ms, text) == text(ms[0]) + Substitute(s, |s|, ms[1..], text)
  {
    hide TextOf, Texts, TwoTexts, SpliceAll, Process, Substitute;
    var text := TextOf(e, hasTarget, s);
    SpliceUnfolds(e, hasTarget, s, ms, s, 0);
    SubstituteUnfolds(s, 0, ms, text);
    TwoTextsAlone(e, hasTarget, s, ms[0], s, text(ms[0]));
    assert s[0..0] + text(ms[0]) == text(ms[0]);
  }

  lemma TwoTextsPartly(e: CustomExpression, hasTarget: bool, s: string, ms: seq<Match>)
    requires TwoTexts(e, hasTarget) && Ordered(s, 0, ms) && ms != [] && ms[0].length < |s|
    ensures SpliceAll(e, hasTarget, s, ms, s, 0) != Returned(Substitute(s, 0, ms, TextOf(e, hasTarget, s)))
  {
    hide TextOf, Texts, TwoTexts, SpliceAll, Substitute, Covered, Grown;
    forall m
      ensures Texts(e, hasTarget, s, m).Returned? && |Texts(e, hasTarget, s, m).value| == 2
    {
      TextCounts(e, hasTarget, s, m);
    }
    TwoTextsTooLong(e, hasTarget, s, 0, ms, s);
    SubstituteLength(s, 0, ms, TextOf(e, hasTarget, s));
  }

  /** With two texts it is met exactly when, besides, both texts are empty for all matches but the last. */
  lemma TwoTextsIff(e: CustomExpression, hasTarget: bool, s: string, ms: seq<Match>)
    requires TwoTexts(e, hasTarget) && Ordered(s, 0, ms) && ms != []
    ensures SpliceAll(e, hasTarget, s, ms, s, 0) == Returned(Substitute(s, 0, ms, TextOf(e, hasTarget, s)))
            <==> ms[0].length == |s| && forall k :: 0 <= k < |ms| - 1 ==> TextOf(e, hasTarget, s)(ms[k]) == ""
  {
    hide TextOf, TwoTexts, SpliceAll, Substitute;
    var text := TextOf(e, hasTarget, s);
    if ms[0].length == |s| {
      TwoTextsWhole(e, hasTarget, s, ms);
      TwoTextsAtTheEnd(e, hasTarget, s, ms[1..], text(ms[0]));
      AllButLast(ms, text);
    } else {
      TwoTextsPartly(e, hasTarget, s, ms);
    }
  }

  /**
   * Splicing gives the substitution exactly when there is no match, or each match is given one text, or the first match
   * is the whole formula and what follows it is harmless: with no text always, with two texts when these are empty
   * for all matches but the last. An expression with both a function and a reference, or with neither, spoils every
   * other formula.
   */
  lemma SpliceIff(e: CustomExpression, hasTarget: bool, s: string, ms: seq<Match>)
    requires Ordered(s, 0, ms)
    ensures SpliceAll(e, hasTarget, s, ms, s, 0) == Returned(Substitute(s, 0, ms, TextOf(e, hasTarget, s))) <==>
      || ms == []
      || OneText(e, hasTarget)
      || (ms[0].length == |s| &&
          (|| NoText(e, hasTarget)
           || (TwoTexts(e, hasTarget) && forall k :: 0 <= k < |ms| - 1 ==> TextOf(e, hasTarget, s)(ms[k]) == "")))
  {
    hide TextOf, Texts, Process;
    var text := TextOf(e, hasTarget, s);
    assert "" + s[0..] == s;
    if ms == [] {
    } else if OneText(e, hasTarget) {
      SpliceIsSubstitute(e, hasTarget, s, 0, ms, "");
      assert "" + Substitute(s, 0, ms, text) == Substitute(s, 0, ms, text);
    } else if NoText(e, hasTarget) {
      NoTextIff(e, hasTarget, s, ms);
    } else if TwoTexts(e, hasTarget) {
      TwoTextsIff(e, hasTarget, s, ms);
    } else {
      TextCounts(e, hasTarget, s, ms[0]);
      NothingSupplied(s, ms[0], |s|);
    }
  }

  lemma NothingSupplied(newStr: string, m: Match, originalLength: nat)
    ensures Process(Thrown, newStr, m, originalLength, 0) == Thrown
  {
  }

  /** As long as some character stays outside the matches, one text for each match is what it takes. */
  lemma SpliceIffOneText(e: CustomExpression, hasTarget: bool, s: string, ms: seq<Match>)
    requires Ordered(s, 0, ms) && ms != [] && Covered(ms) < |s|
    ensures SpliceAll(e, hasTarget, s, ms, s, 0) == Returned(Substitute(s, 0, ms, TextOf(e, hasTarget, s)))
            <==> OneText(e, hasTarget)
  {
    SpliceIff(e, hasTarget, s, ms);
  }

  /** A function and a property both supply the text "1" for the x of "x+2": the sum appears twice. */
  lemma BothAreUsed(e: CustomExpression, m: Match)
    requires e.replacementFunction.Some? && e.replacementFunction.value("x+2", m) == "1"
    requires e.replacementReference == Some(Reference(None, Some("1"))) && m == Match(0, 1)
    ensures SpliceAll(e, true, "x+2", [m], "x+2", 0) == Returned("1+21+2")
    ensures Substitute("x+2", 0, [m], TextOf(e, true, "x+2")) == "11+2"
  {
    assert [m][1..] == [] && "x+2"[..0] == "" && "x+2"[1..] == "+2" && ["1", "1"][1..] == ["1"] && ["1"][1..] == [];
    assert Texts(e, true, "x+2", m).value == ["1"] + ["1"] == ["1", "1"];
    assert Spliced("", ["1"], "+2") == "1+2" && Spliced("", ["1", "1"], "+2") == "1+21+2";
    assert Concat(["1"]) == "1" && Concat(["1", "1"]) == "11";
    assert Substitute("x+2", 1, [], TextOf(e, true, "x+2")) == "+2";
  }

  // ----- the text that an expression puts in

  /** The expression has a replacement function and nothing else that applies. */
  predicate ByFunction(e: CustomExpression, hasTarget: bool) {
    e.replacementFunction.Some? && (e.replacementReference == None || !hasTarget)
  }

  /** The expression names a member of the target, a method or a property, which yields the text. */
  predicate ByMember(e: CustomExpression, hasTarget: bool, text: string) {
    e.replacementFunction == None && hasTarget &&
    (|| e.replacementReference == Some(Reference(Some(text), None))
     || e.replacementReference == Some(Reference(None, Some(text))))
  }

  lemma {:induction false} SameTextsSame(s: string, start: nat, ms: seq<Match>, a: Match -> string, b: Match -> string)
    requires Ordered(s, start, ms) && forall m :: a(m) == b(m)
    ensures Substitute(s, start, ms, a) == Substitute(s, start, ms, b)
    decreases |ms|
  {
    if ms != [] {
      SameTextsSame(s, ms[0].index + ms[0].length, ms[1..], a, b);
    }
  }

  lemma FunctionText(e: CustomExpression, hasTarget: bool, s: string, m: Match)
    requires ByFunction(e, hasTarget)
    ensures OneText(e, hasTarget) && TextOf(e, hasTarget, s)(m) == e.replacementFunction.value(s, m)
  {
    OneTextIs(e, hasTarget, s, m);
  }

  lemma MemberText(e: CustomExpression, hasTarget: bool, text: string, s: string, m: Match)
    requires ByMember(e, hasTarget, text)
    ensures OneText(e, hasTarget) && TextOf(e, hasTarget, s)(m) == text
  {
    OneTextIs(e, hasTarget, s, m);
    assert [] + [text] == [text];
  }

  /** With a function alone, each match is replaced by what the function makes of it. */
  lemma FunctionReplaces(e: CustomExpression, hasTarget: bool, s: string, ms: seq<Match>)
    requires ByFunction(e, hasTarget) && Ordered(s, 0, ms)
    ensures SpliceAll(e, hasTarget, s, ms, s, 0)
         == Returned(Substitute(s, 0, ms, m => e.replacementFunction.value(s, m)))
  {
    hide TextOf, SpliceAll;
    FunctionText(e, hasTarget, s, Match(0, 0));
    SpliceIff(e, hasTarget, s, ms);
    forall m
      ensures TextOf(e, hasTarget, s)(m) == e.replacementFunction.value(s, m)
    {
      FunctionText(e, hasTarget, s, m);
    }
    SameTextsSame(s, 0, ms, TextOf(e, hasTarget, s), m => e.replacementFunction.value(s, m));
  }

  /** With a member of the target alone, each match is replaced by what the member yields. */
  lemma MemberReplaces(e: CustomExpression, hasTarget: bool, text: string, s: string, ms: seq<Match>)
    requires ByMember(e, hasTarget, text) && Ordered(s, 0, ms)
    ensures SpliceAll(e, hasTarget, s, ms, s, 0) == Returned(Substitute(s, 0, ms, m => text))
  {
    hide TextOf, SpliceAll;
    MemberText(e, hasTarget, text, s, Match(0, 0));
    SpliceIff(e, hasTarget, s, ms);
    forall m
      ensures TextOf(e, hasTarget, s)(m) == text
    {
      MemberText(e, hasTarget, text, s, m);
    }
    SameTextsSame(s, 0, ms, TextOf(e, hasTarget, s), m => text);
  }

  /** One expression after another, each replacing its matches by what its own function makes of them. */
  function RewriteByFunctions(es: seq<CustomExpression>, s: string): string
    requires forall e :: e in es ==> e.replacementFunction.Some?
    requires forall e, t :: e in es ==> Ordered(t, 0, e.matches(t))
  {
    if es == [] then s
    else
      RewriteByFunctions(es[1..], Substitute(s, 0, es[0].matches(s), m => es[0].replacementFunction.value(s, m)))
  }

  /** A formula whose expressions have functions alone is rewritten by these functions. */
  lemma {:induction false} FunctionsRewrite(es: seq<CustomExpression>, hasTarget: bool, s: string)
    requires forall e :: e in es ==> ByFunction(e, hasTarget)
    requires forall e, t :: e in es ==> Ordered(t, 0, e.matches(t))
    ensures forall e :: e in es ==> e.replacementFunction.Some?
    ensures ReplaceAll(es, hasTarget, s) == Returned(RewriteByFunctions(es, s))
    decreases |es|
  {
    hide SpliceAll, Substitute;
    if es != [] {
      assert es[0] in es && forall e :: e in es[1..] ==> e in es;
      FunctionReplaces(es[0], hasTarget, s, es[0].matches(s));
      FunctionsRewrite(es[1..], hasTarget,
                       Substitute(s, 0, es[0].matches(s), m => es[0].replacementFunction.value(s, m)));
    }
  }

  /** "L*2" becomes "Level()*2". */
  lemma LevelTimesTwo(e: CustomExpression, m: Match)
    requires e.replacementFunction.Some? && e.replacementFunction.value("L*2", m) == "Level()"
    requires e.replacementReference == None && m == Match(0, 1) && e.matches("L*2") == [m]
    ensures ReplaceAll([e], true, "L*2") == Returned("Level()*2")
  {
    hide SpliceAll;
    assert [m][1..] == [] && [e][1..] == [] && "L*2"[0..0] == "" && "L*2"[1..] == "*2";
    FunctionReplaces(e, true, "L*2", [m]);
    var text := (m: Match) => e.replacementFunction.value("L*2", m);
    SubstituteUnfolds("L*2", 0, [m], text);
    SubstituteUnfolds("L*2", 1, [], text);
    assert "" + "Level()" + "*2" == "Level()*2";
  }
}
