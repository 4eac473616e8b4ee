/**
 * The draft formatter's inline actions against the inline parser: exactly when the text that was made bold,
 * italic, struck through, a spoiler or code in the editor is what the parser then makes so.
 */
module InlineFormatting {
  import opened Common
  import opened InlinePatterns
  import opened InlineParser
  import opened InlineReading
  import Draft = DraftFormatting

  predicate IsInline(action: Draft.Action) {
    action != Draft.CodeBlock && action != Draft.Quote
  }

  function KindFor(action: Draft.Action): Kind
    requires IsInline(action)
  {
    match action
    case Bold => Bold
    case Italic => Italic
    case Strikethrough => Strikethrough
    case Code => Code
    case Spoiler => Spoiler
  }

  predicate IsDelimited(kind: Kind) {
    kind == Code || IsEmphasis(kind)
  }

  /** The delimiters that the editor writes are those that the parser knows. */
  lemma SameDelimiter(action: Draft.Action)
    requires IsInline(action)
    ensures Draft.InlineDelimiter(action) == Delimiter(KindFor(action)) && IsDelimited(KindFor(action))
  {
  }

  /** The node that the action is meant to make of the text. */
  function Formatted(action: Draft.Action, s: string): Node
    requires IsInline(action)
  {
    match action
    case Bold => BoldNode(ParseInline(s))
    case Italic => ItalicNode(ParseInline(s))
    case Strikethrough => StrikethroughNode(ParseInline(s))
    case Code => CodeNode(s)
    case Spoiler => SpoilerNode(ParseInline(s))
  }

  /**
   * Whether delimiters around s, before `rest`, hold s together: code must have no backtick and no newline.
   * Emphasised text must begin and end with a character that may stand at its edge, stay on one line and
   * have no closer inside; and after a single character no later closer may end a longer body.
   */
  ghost predicate Wraps(kind: Kind, s: string, rest: string)
    requires IsDelimited(kind)
  {
    && s != ""
    && if kind == Code then forall k :: 0 <= k < |s| ==> s[k] != '`' && s[k] != '\n'
       else
         && IsEdge(kind, s[0]) && IsEdge(kind, s[|s| - 1])
         && if |s| == 1 then forall e: nat :: !LongBody(kind, s + Delimiter(kind) + rest, 0, e)
            else
              && (forall k :: 0 < k < |s| - 1 ==> !IsLineTerminator(s[k]))
              && (forall x :: 2 <= x < |s| ==> !(IsEdge(kind, s[x - 1]) && At(s, x, Delimiter(kind))))
  }

  lemma AtShift(p: string, q: string, i: nat, d: string)
    ensures At(p + q, |p| + i, d) <==> At(q, i, d)
  {
    if i + |d| <= |q| {
      assert (p + q)[|p| + i..|p| + i + |d|] == q[i..i + |d|];
    }
  }

  lemma LongBodyShift(kind: Kind, p: string, q: string, e: nat)
    requires IsEmphasis(kind)
    ensures LongBody(kind, p + q, |p|, |p| + e) <==> LongBody(kind, q, 0, e)
  {
    AtShift(p, q, e, Delimiter(kind));
    hide At;
    if LongBody(kind, p + q, |p|, |p| + e) {
      assert forall k :: 0 < k < e - 1 ==> q[k] == (p + q)[|p| + k];
    }
  }

  // ---- emphasis ----

  lemma AtFront(s: string, x: nat, d: string, more: string)
    requires x + |d| <= |s|
    ensures At(s + more, x, d) <==> At(s, x, d)
  {
    assert (s + more)[x..x + |d|] == s[x..x + |d|];
  }

  /** Bodies shorter than s, ended by a closer inside s. */
  lemma InnerBody(kind: Kind, s: string, rest: string, x: nat)
    requires IsEmphasis(kind) && 2 <= x < |s|
    requires forall k :: 0 < k < |s| - 1 ==> !IsLineTerminator(s[k])
    requires IsEdge(kind, s[|s| - 1])
    ensures LongBody(kind, s + Delimiter(kind) + rest, 0, x) <==> IsEdge(kind, s[x - 1]) && At(s, x, Delimiter(kind))
  {
    var d := Delimiter(kind);
    var q := s + d + rest;
    assert q == s + (d + rest);
    if x + |d| <= |s| {
      AtFront(s, x, d, d + rest);
    } else {
      assert x == |s| - 1 && q[x] == s[|s| - 1];
      AtFirst(q, x, d);
    }
    assert forall k :: 0 <= k < |s| ==> q[k] == s[k];
  }

  /** The whole of s is a body. */
  lemma WholeBody(kind: Kind, s: string, rest: string)
    requires IsEmphasis(kind) && |s| >= 2
    ensures LongBody(kind, s + Delimiter(kind) + rest, 0, |s|) <==>
      IsEdge(kind, s[|s| - 1]) && forall k :: 0 < k < |s| - 1 ==> !IsLineTerminator(s[k])
  {
    var d := Delimiter(kind);
    var q := s + d + rest;
    assert q[|s|..|s| + |d|] == d;
    assert forall k :: 0 <= k < |s| ==> q[k] == s[k];
  }

  /** Where an emphasised stretch of s would have to be picked. */
  ghost predicate Shortest(kind: Kind, q: string, n: nat)
    requires IsEmphasis(kind)
  {
    if n == 1 then forall e: nat :: !LongBody(kind, q, 0, e)
    else LongBody(kind, q, 0, n) && forall x: nat :: x < n ==> !LongBody(kind, q, 0, x)
  }

  lemma WrapsIsShortest(kind: Kind, s: string, rest: string)
    requires IsEmphasis(kind) && s != ""
    ensures Wraps(kind, s, rest) <==> IsEdge(kind, s[0]) && IsEdge(kind, s[|s| - 1])
                                      && Shortest(kind, s + Delimiter(kind) + rest, |s|)
  {
    if |s| >= 2 {
      WholeBody(kind, s, rest);
      var q := s + Delimiter(kind) + rest;
      if IsEdge(kind, s[|s| - 1]) && forall k :: 0 < k < |s| - 1 ==> !IsLineTerminator(s[k]) {
        forall x: nat | 2 <= x < |s|
          ensures LongBody(kind, q, 0, x) <==> IsEdge(kind, s[x - 1]) && At(s, x, Delimiter(kind))
        {
          InnerBody(kind, s, rest, x);
        }
        forall x: nat | x < 2 ensures !LongBody(kind, q, 0, x) {
        }
      }
      hide LongBody;
      hide At;
      hide IsEdge;
    }
  }

  // ---- what the parser picks at the opener ----

  lemma CodePicks(p: string, s: string, rest: string)
    requires s != ""
    ensures var t := p + "`" + (s + "`" + rest);
      Picks(Code, t, |p|, |p| + 1 + |s|) <==> Wraps(Code, s, rest)
  {
    var t := p + "`" + (s + "`" + rest);
    assert t[|p|..|p| + 1] == "`" && t[|p| + 1 + |s|..|p| + 1 + |s| + 1] == "`";
    assert forall k :: 0 <= k < |s| ==> t[|p| + 1 + k] == s[k];
    if CodeSpan(t, |p|, |p| + 1 + |s|) {
      forall k | 0 <= k < |s| ensures s[k] != '`' && s[k] != '\n' {
        assert t[|p| + 1 + k] == s[k];
      }
    }
  }

  /** At i the text has the delimiter, s and the delimiter again. */
  ghost predicate Delimited(d: string, t: string, i: nat, s: string) {
    var b := i + |d|;
    && s != "" && b + |s| <= |t| && At(t, i, d) && At(t, b + |s|, d) && At(t, b, s)
    && t[b] == s[0] && t[b + |s| - 1] == s[|s| - 1]
  }

  lemma AroundBody(p: string, d: string, s: string, rest: string)
    requires s != ""
    ensures Delimited(d, p + d + (s + d + rest), |p|, s)
  {
    var t := p + d + (s + d + rest);
    var b := |p| + |d|;
    assert t[|p|..b] == d;
    assert t[b..b + |s|] == s;
    assert t[b + |s|..b + |s| + |d|] == d;
  }

  /** t from b on has the bodies of q. */
  ghost predicate SameBodies(kind: Kind, t: string, b: nat, q: string)
    requires IsEmphasis(kind)
  {
    forall x: nat :: LongBody(kind, t, b, b + x) <==> LongBody(kind, q, 0, x)
  }

  lemma BodiesShift(kind: Kind, p: string, q: string)
    requires IsEmphasis(kind)
    ensures SameBodies(kind, p + q, |p|, q)
  {
    hide LongBody;
    forall x: nat ensures LongBody(kind, p + q, |p|, |p| + x) <==> LongBody(kind, q, 0, x) {
      LongBodyShift(kind, p, q, x);
    }
  }

  /** The body of n characters from b on is the one that is picked. */
  ghost predicate PickedAt(kind: Kind, t: string, b: nat, n: nat)
    requires IsEmphasis(kind)
  {
    && (n == 1 || LongBody(kind, t, b, b + n))
    && (forall e: nat :: e < b + n ==> !LongBody(kind, t, b, e))
    && (n == 1 ==> forall e: nat :: !LongBody(kind, t, b, e))
  }

  lemma ShortestShift(kind: Kind, t: string, q: string, b: nat, n: nat)
    requires IsEmphasis(kind) && n >= 1 && SameBodies(kind, t, b, q)
    ensures Shortest(kind, q, n) <==> PickedAt(kind, t, b, n)
  {
    forall e: nat | LongBody(kind, t, b, e) ensures e >= b + 2 && LongBody(kind, q, 0, e - b) {
      assert LongBody(kind, t, b, b + (e - b));
    }
    forall x: nat | LongBody(kind, q, 0, x) ensures LongBody(kind, t, b, b + x) {
    }
    hide LongBody;
  }

  lemma PicksEdges(kind: Kind, t: string, i: nat, s: string)
    requires IsEmphasis(kind) && Delimited(Delimiter(kind), t, i, s)
    ensures var b := i + |Delimiter(kind)|;
      Picks(kind, t, i, b + |s|) <==>
        IsEdge(kind, s[0]) && IsEdge(kind, s[|s| - 1]) && PickedAt(kind, t, b, |s|)
  {
    var b := i + |Delimiter(kind)|;
    assert LongBody(kind, t, b, b + |s|) ==> IsEdge(kind, t[b + |s| - 1]);
    hide LongBody;
    hide At;
  }

  lemma EmphasisPicksAt(kind: Kind, t: string, i: nat, s: string, rest: string)
    requires IsEmphasis(kind) && s != "" && Delimited(Delimiter(kind), t, i, s)
    requires SameBodies(kind, t, i + |Delimiter(kind)|, s + Delimiter(kind) + rest)
    ensures Picks(kind, t, i, i + |Delimiter(kind)| + |s|) <==> Wraps(kind, s, rest)
  {
    hide *;
    WrapsIsShortest(kind, s, rest);
    ShortestShift(kind, t, s + Delimiter(kind) + rest, i + |Delimiter(kind)|, |s|);
    PicksEdges(kind, t, i, s);
  }

  lemma EmphasisPicks(kind: Kind, p: string, s: string, rest: string)
    requires IsEmphasis(kind) && s != ""
    ensures var d := Delimiter(kind);
      var t := p + d + (s + d + rest);
      Picks(kind, t, |p|, |p| + |d| + |s|) <==> Wraps(kind, s, rest)
  {
    hide *;
    AroundBody(p, Delimiter(kind), s, rest);
    BodiesShift(kind, p + Delimiter(kind), s + Delimiter(kind) + rest);
    EmphasisPicksAt(kind, p + Delimiter(kind) + (s + Delimiter(kind) + rest), |p|, s, rest);
  }

  /** Between p and rest, the expression of this kind picks s exactly if it wraps it. */
  lemma PicksIfWraps(kind: Kind, p: string, s: string, rest: string)
    requires IsDelimited(kind) && s != ""
    ensures var d := Delimiter(kind);
      var t := p + d + (s + d + rest);
      Picks(kind, t, |p|, |p| + |d| + |s|) <==> Wraps(kind, s, rest)
  {
    if kind == Code {
      CodePicks(p, s, rest);
    } else {
      EmphasisPicks(kind, p, s, rest);
    }
  }

  /** What spans at the leftmost place is found, or something else of the same place. */
  lemma FoundAt(kind: Kind, t: string, i: nat, e: nat)
    requires Spans(kind, t, i, e) && NothingBefore(t, i)
    ensures FindNext(t).Some? && FindNext(t).value.index == i
    ensures exists x: nat :: Spans(FindNext(t).value.kind, t, i, x)
  {
    FindNextCorrect(t);
    assert Fits(t, FindNext(t).value);
    hide FindNext;
    hide Spans;
    hide WellPlaced;
  }

  lemma SameText(t: string, b: nat, s: string, s': string)
    requires At(t, b, s) && At(t, b, s') && |s| == |s'|
    ensures s == s'
  {
  }

  lemma PickedIsFound(kind: Kind, t: string, i: nat, s: string)
    requires IsDelimited(kind) && At(t, i, Delimiter(kind)) && At(t, i + |Delimiter(kind)|, s) && NothingBefore(t, i)
    requires Picks(kind, t, i, i + |Delimiter(kind)| + |s|) && Spans(kind, t, i, i + |Delimiter(kind)| + |s|)
    ensures FindNext(t) == Some(Match(kind, i, |Delimiter(kind)| + |s| + |Delimiter(kind)|, s))
  {
    hide *;
    var e := i + |Delimiter(kind)| + |s|;
    FoundAt(kind, t, i, e);
    FoundPicks(t);
    var m := FindNext(t).value;
    var x: nat :| Spans(m.kind, t, i, x);
    OneKindPerPlace(m.kind, kind, t, i, x, e);
    PicksUnique(kind, t, i, e, i + |Delimiter(kind)| + |m.text|);
    SameText(t, i + |Delimiter(kind)|, s, m.text);
  }

  lemma PicksSpans(kind: Kind, t: string, i: nat, e: nat)
    requires Picks(kind, t, i, e)
    ensures Spans(kind, t, i, e)
  {
  }

  lemma DelimitedParts(d: string, t: string, i: nat, s: string)
    requires Delimited(d, t, i, s)
    ensures At(t, i, d) && At(t, i + |d|, s) && s != ""
  {
  }

  /** The first match of the text is s at i, exactly if it is picked there and nothing matches before. */
  lemma FirstIfPicked(kind: Kind, t: string, i: nat, s: string)
    requires IsDelimited(kind) && Delimited(Delimiter(kind), t, i, s) && NothingBefore(t, i)
    ensures var d := Delimiter(kind);
      Picks(kind, t, i, i + |d| + |s|) <==> FindNext(t) == Some(Match(kind, i, |d| + |s| + |d|, s))
  {
    hide *;
    DelimitedParts(Delimiter(kind), t, i, s);
    if Picks(kind, t, i, i + |Delimiter(kind)| + |s|) {
      PicksSpans(kind, t, i, i + |Delimiter(kind)| + |s|);
      PickedIsFound(kind, t, i, s);
    }
    if FindNext(t) == Some(Match(kind, i, |Delimiter(kind)| + |s| + |Delimiter(kind)|, s)) {
      FoundPicks(t);
    }
  }

  // ---- the formatted draft ----

  /** The draft after an inline action, in its parts. */
  lemma InlineText(t: string, selection: Draft.Selection, action: Draft.Action)
    requires IsInline(action)
    ensures var sel := Draft.NormalizeSelection(selection, |t|);
      var d := Delimiter(KindFor(action));
      Draft.ApplyDraftFormatting(t, selection, action).text
        == t[..sel.start] + d + (t[sel.start..sel.end] + d + t[sel.end..])
  {
    SameDelimiter(action);
    var sel := Draft.NormalizeSelection(selection, |t|);
    var d := Delimiter(KindFor(action));
    var a, s, b := t[..sel.start], t[sel.start..sel.end], t[sel.end..];
    assert a + (d + s + d) + b == a + d + (s + d + b);
    hide Delimiter;
    hide Draft.InlineDelimiter;
  }

  lemma NoEmptyMatch(t: string, m: Match)
    requires FindNext(t) == Some(m)
    ensures m.text != ""
  {
    FindNextCorrect(t);
  }

  lemma FormattedNode(action: Draft.Action, i: nat, length: nat, s: string)
    requires IsInline(action)
    ensures var m := Match(KindFor(action), i, length, s);
      (IsEmphasis(m.kind) ==> |s| < length) ==> NodeFor(m, ChildrenOf(m)) == Formatted(action, s)
  {
    hide ParseInline;
  }

  /** When s is the first match, the parse is the text before it, its node, and the parse of what follows. */
  lemma ParseAround(t: string, action: Draft.Action, i: nat, s: string, rest: string)
    requires IsInline(action) && i <= |t|
    requires var d := Delimiter(KindFor(action));
      && FindNext(t) == Some(Match(KindFor(action), i, |d| + |s| + |d|, s))
      && i + |d| + |s| + |d| + |rest| == |t| && t[i + |d| + |s| + |d|..] == rest
    ensures ParseInline(t)
         == (if i > 0 then [TextNode(t[..i])] else []) + [Formatted(action, s)] + ParseInline(rest)
  {
    hide *;
    var d := Delimiter(KindFor(action));
    var m := FindNext(t).value;
    FoundNotEmpty(t);
    PiecesNext(t);
    FormattedNode(action, i, |d| + |s| + |d|, s);
    TextBeforeIs(t, m);
    ParseIsFlat(t);
    ParseIsFlat(rest);
  }

  lemma TextBeforeIs(t: string, m: Match)
    requires m.index <= |t|
    ensures TextBefore(t, m) == if m.index > 0 then [TextNode(t[..m.index])] else []
  {
  }

  lemma FoundNotEmpty(t: string)
    requires FindNext(t).Some?
    ensures t != "" && (IsEmphasis(FindNext(t).value.kind) ==> |FindNext(t).value.text| < FindNext(t).value.length)
  {
    FoundUsable(t);
  }

  lemma PartsOf(a: string, d: string, s: string, rest: string)
    ensures var t := a + d + (s + d + rest);
      && t[..|a|] == a && |a| + |d| + |s| + |d| + |rest| == |t|
      && t[|a| + |d| + |s| + |d|..] == rest
  {
  }

  lemma WrapsNotEmpty(kind: Kind, s: string, rest: string)
    requires IsDelimited(kind)
    ensures Wraps(kind, s, rest) ==> s != ""
  {
  }

  /** The text with s delimited between a and rest: the iff on its own. */
  lemma DelimitedAgrees(action: Draft.Action, a: string, s: string, rest: string)
    requires IsInline(action) && IsDelimited(KindFor(action))
    requires var d := Delimiter(KindFor(action)); NothingBefore(a + d + (s + d + rest), |a|)
    ensures var d := Delimiter(KindFor(action));
      var text := a + d + (s + d + rest);
      && (Wraps(KindFor(action), s, rest) <==>
            FindNext(text) == Some(Match(KindFor(action), |a|, |d| + |s| + |d|, s)))
      && (Wraps(KindFor(action), s, rest) ==>
            ParseInline(text) == (if |a| > 0 then [TextNode(a)] else []) + [Formatted(action, s)] + ParseInline(rest))
  {
    hide *;
    var kind := KindFor(action);
    var d := Delimiter(kind);
    var text := a + d + (s + d + rest);
    WrapsNotEmpty(kind, s, rest);
    if s == "" {
      if FindNext(text) == Some(Match(kind, |a|, |d| + |s| + |d|, s)) {
        NoEmptyMatch(text, FindNext(text).value);
      }
    } else {
      PicksIfWraps(kind, a, s, rest);
      AroundBody(a, d, s, rest);
      FirstIfPicked(kind, text, |a|, s);
      if Wraps(kind, s, rest) {
        PartsOf(a, d, s, rest);
        ParseAround(text, action, |a|, s, rest);
      }
    }
  }

  /**
   * Where no markup begins before the selection, an inline action makes the selected text the first match of
   * the draft, with the action's own kind, exactly if the delimiters hold it together. The parse is then
   * the text before, one node of that kind over the selected text, and the parse of what follows.
   */
  lemma InlineAgrees(t: string, selection: Draft.Selection, action: Draft.Action)
    requires IsInline(action)
    requires NothingBefore(Draft.ApplyDraftFormatting(t, selection, action).text,
                           Draft.NormalizeSelection(selection, |t|).start)
    ensures var sel := Draft.NormalizeSelection(selection, |t|);
      var text := Draft.ApplyDraftFormatting(t, selection, action).text;
      var s, rest, d := t[sel.start..sel.end], t[sel.end..], Delimiter(KindFor(action));
      && IsDelimited(KindFor(action))
      && (Wraps(KindFor(action), s, rest) <==>
            FindNext(text) == Some(Match(KindFor(action), sel.start, |d| + |s| + |d|, s)))
      && (Wraps(KindFor(action), s, rest) ==>
            ParseInline(text) == (if sel.start > 0 then [TextNode(t[..sel.start])] else [])
                                 + [Formatted(action, s)] + ParseInline(rest))
  {
    hide *;
    var sel := Draft.NormalizeSelection(selection, |t|);
    SameDelimiter(action);
    InlineText(t, selection, action);
    assert |t[..sel.start]| == sel.start;
    DelimitedAgrees(action, t[..sel.start], t[sel.start..sel.end], t[sel.end..]);
  }

  lemma LaterCloser()
    ensures !Wraps(Bold, "a", "b**")
  {
    var q := "a" + Delimiter(Bold) + "b**";
    assert q == "a**b**" && q[4..6] == "**";
    assert LongBody(Bold, q, 0, 4);
  }

  lemma NothingBeforeZero(t: string)
    ensures NothingBefore(t, 0)
  {
  }

  lemma OneLetterText()
    ensures Draft.ApplyDraftFormatting("ab**", Draft.Selection(0, 1), Draft.Bold).text == "**a**b**"
  {
    var t := "ab**";
    var sel := Draft.Selection(0, 1);
    assert Draft.NormalizeSelection(sel, |t|) == sel;
    assert t[..0] == "" && t[0..1] == "a" && t[1..] == "b**";
  }

  lemma OneLetterParts()
    ensures Delimiter(Bold) == "**" && IsInline(Draft.Bold) && KindFor(Draft.Bold) == Bold
    ensures "" + Delimiter(Bold) + ("a" + Delimiter(Bold) + "b**") == "**a**b**"
  {
  }

  lemma OneLetterMatch()
    ensures FindNext("**a**b**") != Some(Match(Bold, 0, 5, "a"))
  {
    hide *;
    OneLetterParts();
    LaterCloser();
    NothingBeforeZero("**a**b**");
    SameDelimiter(Draft.Bold);
    DelimitedAgrees(Draft.Bold, "", "a", "b**");
  }

  /** A single letter made bold before a later pair of asterisks: the bold text runs on to those. */
  lemma OneLetterRunsOn()
    ensures var text := Draft.ApplyDraftFormatting("ab**", Draft.Selection(0, 1), Draft.Bold).text;
      text == "**a**b**" && FindNext(text) != Some(Match(Bold, 0, 5, "a"))
  {
    hide *;
    OneLetterText();
    OneLetterMatch();
  }
}
