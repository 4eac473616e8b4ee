/**
 * What the parse of a message is, said of its lines and blocks without the parser's scan
 * (packages/shared/src/message-format.ts): how the lines fall into blocks and what each block contains.
 */
module BlockReading {
  import opened Common
  import opened Lines
  import opened InlinePatterns
  import opened BlockParser
  import Inline = InlineParser
  import opened InlineReading

  // ---- how the lines fall into blocks ----

  /** Disjoint stretches in order, each of its kind, that leave out no line that is not blank, from line i on. */
  ghost predicate Laid(lines: seq<string>, spans: seq<Span>, i: nat) {
    && Ordered(spans, i)
    && (forall a :: 0 <= a < |spans| ==> SpanOk(lines, spans[a]))
    && (forall k :: i <= k < |lines| && !IsBlank(lines[k]) ==> Covered(spans, k))
  }

  lemma FirstCharacter(line: string)
    ensures IsFence(line) ==> !IsBlank(line) && !IsQuote(line)
    ensures IsQuote(line) ==> !IsBlank(line)
  {
    if IsFence(line) {
      assert line[0] == line[..3][0] == '`';
    }
  }

  /** A stretch of its kind is the one that the scan starts at its first line. */
  lemma SpanUnique(lines: seq<string>, s: Span)
    requires SpanOk(lines, s)
    ensures !IsBlank(lines[s.lo]) && s == SpanAt(lines, s.lo)
  {
    FirstCharacter(lines[s.lo]);
    hide IsBlank;
    hide IsFence;
    hide IsQuote;
  }

  lemma FirstCovers(lines: seq<string>, spans: seq<Span>, i: nat)
    requires i < |lines| && !IsBlank(lines[i]) && Laid(lines, spans, i)
    ensures spans != [] && spans[0].lo == i
  {
    hide IsBlank;
    hide SpanOk;
    assert Covered(spans, i);
    var a :| 0 <= a < |spans| && spans[a].lo <= i < spans[a].hi;
    SpanNotEmpty(lines, spans[0]);
  }

  lemma SpanNotEmpty(lines: seq<string>, s: Span)
    requires SpanOk(lines, s)
    ensures s.lo < s.hi <= |lines|
  {
  }

  lemma LaidAfter(lines: seq<string>, spans: seq<Span>, i: nat)
    requires spans != [] && spans[0].lo == i && Laid(lines, spans, i)
    ensures Laid(lines, spans[1..], spans[0].hi)
  {
    hide IsBlank;
    hide SpanOk;
    var hi := spans[0].hi;
    forall k | hi <= k < |lines| && !IsBlank(lines[k]) ensures Covered(spans[1..], k) {
      SpanNotEmpty(lines, spans[0]);
      assert Covered(spans, k);
      var a :| 0 <= a < |spans| && spans[a].lo <= k < spans[a].hi;
      assert spans[1..][a - 1] == spans[a];
    }
    forall a | 0 <= a < |spans[1..]| ensures hi <= spans[1..][a].lo && SpanOk(lines, spans[1..][a]) {
      assert spans[1..][a] == spans[a + 1];
    }
    assert forall a, b :: 0 <= a < b < |spans[1..]| ==> spans[1..][a] == spans[a + 1] && spans[1..][b] == spans[b + 1];
  }

  lemma LaidPastBlank(lines: seq<string>, spans: seq<Span>, i: nat)
    requires i < |lines| && IsBlank(lines[i]) && Laid(lines, spans, i)
    ensures Laid(lines, spans, i + 1)
  {
    hide IsBlank;
    forall a | 0 <= a < |spans| ensures i + 1 <= spans[a].lo {
      SpanUnique(lines, spans[a]);
    }
    hide SpanOk;
    hide Covered;
  }

  lemma NothingLaid(lines: seq<string>, spans: seq<Span>, i: nat)
    requires i >= |lines| && Laid(lines, spans, i)
    ensures spans == []
  {
    if spans != [] {
      SpanNotEmpty(lines, spans[0]);
    }
    hide SpanOk;
  }

  /** The scan lays the lines, and there is no other way to. */
  lemma {:induction false} LaidUnique(lines: seq<string>, spans: seq<Span>, i: nat)
    requires Laid(lines, spans, i)
    ensures spans == Scan(lines, i)
    decreases |lines| - i
  {
    hide IsBlank;
    hide SpanOk;
    hide SpanAt;
    hide Laid;
    if i >= |lines| {
      NothingLaid(lines, spans, i);
    } else if IsBlank(lines[i]) {
      LaidPastBlank(lines, spans, i);
      LaidUnique(lines, spans, i + 1);
    } else {
      FirstCovers(lines, spans, i);
      LaidHead(lines, spans, i);
      LaidAfter(lines, spans, i);
      LaidUnique(lines, spans[1..], spans[0].hi);
    }
  }

  lemma LaidHead(lines: seq<string>, spans: seq<Span>, i: nat)
    requires spans != [] && spans[0].lo == i && Laid(lines, spans, i)
    ensures i < |lines| && !IsBlank(lines[i]) && spans[0] == SpanAt(lines, i) && i < spans[0].hi
    ensures spans == [spans[0]] + spans[1..]
  {
    SpanUnique(lines, spans[0]);
    SpanNotEmpty(lines, spans[0]);
    hide SpanOk;
    hide SpanAt;
    hide IsBlank;
  }

  lemma ScanLaid(lines: seq<string>)
    ensures Laid(lines, Scan(lines, 0), 0)
  {
    ScanOrdered(lines, 0);
    hide *;
    forall k | 0 <= k < |lines| && !IsBlank(lines[k]) ensures Covered(Scan(lines, 0), k) {
      ScanCovers(lines, 0, k);
    }
    LaidOf(lines, Scan(lines, 0));
  }

  lemma LaidOf(lines: seq<string>, spans: seq<Span>)
    requires Ordered(spans, 0)
    requires forall a :: 0 <= a < |spans| ==> SpanOk(lines, spans[a])
    requires forall k :: 0 <= k < |lines| && !IsBlank(lines[k]) ==> Covered(spans, k)
    ensures Laid(lines, spans, 0)
  {
  }

  // ---- what a block contains ----

  /** The line is the marker, at most one white space, and the rest; no white space is left if one is there. */
  ghost predicate Unmarked(line: string, rest: string) {
    || (exists space :: IsSpace(space) && line == ['>', space] + rest)
    || (line == ['>'] + rest && (rest != "" ==> !IsSpace(rest[0])))
  }

  ghost predicate UnmarkedAll(lines: seq<string>, rests: seq<string>) {
    |rests| == |lines| && forall k :: 0 <= k < |lines| ==> Unmarked(lines[k], rests[k])
  }

  /** White space, r, white space; and r neither begins nor ends with any. */
  ghost predicate Trimmed(s: string, r: string) {
    && (exists before, after :: IsBlank(before) && IsBlank(after) && s == before + r + after)
    && (r != "" ==> !IsSpace(r[0]) && !IsSpace(r[|r| - 1]))
  }

  /** What stands behind the three characters of a fence. */
  function AfterFence(fence: string): string {
    if |fence| >= 3 then fence[3..] else ""
  }

  /** The language that an opening fence names, if any. */
  ghost predicate Names(fence: string, language: Option<string>) {
    exists name :: Trimmed(AfterFence(fence), name) && language == if name == "" then None else Some(name)
  }

  /** The block holds what is written on its lines. */
  ghost predicate Holds(lines: seq<string>, s: Span, b: Block) {
    && s.lo < s.hi <= |lines|
    && match s
       case ParagraphSpan(lo, hi) => b.Paragraph? && Reads(b.children, Join(lines[lo..hi]))
       case QuoteSpan(lo, hi) =>
         b.Quote? && exists rests :: UnmarkedAll(lines[lo..hi], rests) && Reads(b.children, Join(rests))
       case CodeSpan(lo, hi) =>
         b.CodeBlock? && lo + 1 < hi && b.text == Join(lines[lo + 1..hi - 1]) && Names(lines[lo], b.language)
  }

  lemma UnmarkedIs(line: string, rest: string)
    requires IsQuote(line)
    ensures Unmarked(line, rest) <==> rest == StripQuote(line)
  {
    if Unmarked(line, rest) {
      if space :| IsSpace(space) && line == ['>', space] + rest {
        assert line[1] == space && line[2..] == rest;
      } else {
        assert line[1..] == rest;
        assert rest != "" ==> line[1] == rest[0];
      }
    }
    if rest == StripQuote(line) {
      if |line| > 1 && IsSpace(line[1]) {
        assert line == ['>', line[1]] + rest;
      } else {
        assert line == ['>'] + rest;
      }
    }
  }

  lemma UnmarkedAllIs(lines: seq<string>, rests: seq<string>)
    requires forall k :: 0 <= k < |lines| ==> IsQuote(lines[k])
    ensures UnmarkedAll(lines, rests) <==> rests == StripQuotes(lines)
  {
    forall k | 0 <= k < |lines| && |rests| == |lines|
      ensures Unmarked(lines[k], rests[k]) <==> rests[k] == StripQuote(lines[k])
    {
      UnmarkedIs(lines[k], rests[k]);
    }
    hide Unmarked;
    hide StripQuote;
  }

  lemma {:induction false} TrimStartBlank(before: string, x: string)
    requires IsBlank(before) && (x != "" ==> !IsSpace(x[0]))
    ensures TrimStart(before + x) == x
  {
    if before == "" {
      assert before + x == x;
    } else {
      assert (before + x)[1..] == before[1..] + x;
      TrimStartBlank(before[1..], x);
    }
  }

  lemma {:induction false} TrimEndBlank(x: string, after: string)
    requires IsBlank(after) && (x != "" ==> !IsSpace(x[|x| - 1]))
    ensures TrimEnd(x + after) == x
  {
    if after == "" {
      assert x + after == x;
    } else {
      assert (x + after)[..|x + after| - 1] == x + after[..|after| - 1];
      TrimEndBlank(x, after[..|after| - 1]);
    }
  }

  lemma {:induction false} TrimStartSplits(s: string)
    ensures var r := TrimStart(s);
      |r| <= |s| && s == s[..|s| - |r|] + r && IsBlank(s[..|s| - |r|]) && (r != "" ==> !IsSpace(r[0]))
  {
    if s != "" && IsSpace(s[0]) {
      TrimStartSplits(s[1..]);
      var r := TrimStart(s[1..]);
      assert s[..|s| - |r|] == [s[0]] + s[1..][..|s| - 1 - |r|];
    }
  }

  lemma TrimEndStep(s: string)
    ensures TrimEnd(s) == if s != "" && IsSpace(s[|s| - 1]) then TrimEnd(s[..|s| - 1]) else s
  {
  }

  lemma SnocBack(s: string, r: string)
    requires s != "" && |r| < |s| && s[..|s| - 1] == r + s[..|s| - 1][|r|..]
    ensures s[|r|..] == s[..|s| - 1][|r|..] + [s[|s| - 1]]
    ensures s == r + s[|r|..]
  {
    assert s == s[..|s| - 1] + [s[|s| - 1]];
  }

  lemma {:induction false} TrimEndSplits(s: string)
    ensures var r := TrimEnd(s);
      |r| <= |s| && s == r + s[|r|..] && IsBlank(s[|r|..]) && (r != "" ==> !IsSpace(r[|r| - 1]))
  {
    TrimEndStep(s);
    hide TrimEnd;
    if s != "" && IsSpace(s[|s| - 1]) {
      var front := s[..|s| - 1];
      TrimEndSplits(front);
      BlankSnoc(front[|TrimEnd(front)|..], s[|s| - 1]);
      SnocBack(s, TrimEnd(front));
      hide IsBlank;
    }
  }

  lemma BlankSnoc(s: string, last: char)
    requires IsBlank(s) && IsSpace(last)
    ensures IsBlank(s + [last])
  {
  }

  lemma TrimmedOnce(s: string, r: string)
    requires Trimmed(s, r)
    ensures r == TrimEnd(TrimStart(s))
  {
    var before, after :| IsBlank(before) && IsBlank(after) && s == before + r + after;
    hide TrimStart;
    hide TrimEnd;
    if r == "" {
      assert before + r + after == (before + after) + "";
      assert IsBlank(before + after);
      TrimStartBlank(before + after, "");
      TrimEndBlank("", "");
      assert "" + "" == "";
    } else {
      assert before + r + after == before + (r + after);
      TrimStartBlank(before, r + after);
      TrimEndBlank(r, after);
    }
  }

  lemma TrimIsTrimmed(s: string)
    ensures Trimmed(s, TrimEnd(TrimStart(s)))
  {
    hide TrimStart;
    hide TrimEnd;
    var x := TrimStart(s);
    var r := TrimEnd(x);
    TrimStartSplits(s);
    TrimEndSplits(x);
    hide IsBlank;
    var before, after := s[..|s| - |x|], x[|r|..];
    assert s == before + r + after;
    assert r != "" ==> r[0] == x[0];
  }

  lemma NamesIs(fence: string, language: Option<string>)
    requires IsFence(fence)
    ensures Names(fence, language) <==> language == Language(fence)
  {
    var s := AfterFence(fence);
    TrimIsTrimmed(s);
    assert Language(fence) == var name := TrimEnd(TrimStart(s)); if name == "" then None else Some(name);
    hide TrimStart;
    hide TrimEnd;
    hide Trimmed;
    if Names(fence, language) {
      var name :| Trimmed(s, name) && language == if name == "" then None else Some(name);
      TrimmedOnce(s, name);
    }
  }

  /** A stretch determines its block. */
  lemma HoldsExactly(lines: seq<string>, s: Span, b: Block)
    requires SpanOk(lines, s)
    ensures s.lo < s.hi <= |lines|
    ensures Holds(lines, s, b) <==> b == Render(lines, s)
  {
    match s
    case ParagraphSpan(lo, hi) =>
      if b.Paragraph? {
        ParseReadsExactly(b.children, Join(lines[lo..hi]));
      }
      hide Reads;
      hide Inline.ParseInline;
    case QuoteSpan(lo, hi) =>
      if b.Quote? {
        QuoteHolds(lines[lo..hi], b.children);
      }
      hide Reads;
      hide UnmarkedAll;
      hide StripQuotes;
      hide Inline.ParseInline;
    case CodeSpan(lo, hi) =>
      if b.CodeBlock? {
        NamesIs(lines[lo], b.language);
      }
      hide Names;
      hide Language;
      hide IsFence;
  }

  lemma QuoteHolds(lines: seq<string>, children: seq<Inline.Node>)
    requires forall k :: 0 <= k < |lines| ==> IsQuote(lines[k])
    ensures (exists rests :: UnmarkedAll(lines, rests) && Reads(children, Join(rests)))
      <==> children == Inline.ParseInline(Join(StripQuotes(lines)))
  {
    hide Reads;
    hide UnmarkedAll;
    hide Inline.ParseInline;
    UnmarkedAllIs(lines, StripQuotes(lines));
    ParseReadsExactly(children, Join(StripQuotes(lines)));
    if rests :| UnmarkedAll(lines, rests) && Reads(children, Join(rests)) {
      UnmarkedAllIs(lines, rests);
    }
  }

  // ---- the whole message ----

  /** One block for each stretch, holding what is written there. */
  ghost predicate HoldsAll(lines: seq<string>, spans: seq<Span>, blocks: seq<Block>) {
    |blocks| == |spans| && forall a :: 0 <= a < |spans| ==> Holds(lines, spans[a], blocks[a])
  }

  /** The lines can be laid in stretches with these blocks on them. */
  ghost predicate MessageReads(t: string, blocks: seq<Block>) {
    exists spans :: Laid(Split(t), spans, 0) && HoldsAll(Split(t), spans, blocks)
  }

  lemma ParseHoldsAll(t: string, blocks: seq<Block>)
    ensures HoldsAll(Split(t), Scan(Split(t), 0), blocks) <==> blocks == ParseMessage(t)
  {
    var lines, spans := Split(t), Scan(Split(t), 0);
    BlocksAreStretches(t);
    hide Ordered;
    hide Scan;
    hide Split;
    hide ParseMessage;
    hide Holds;
    hide Render;
    if |blocks| == |spans| {
      forall a | 0 <= a < |spans|
        ensures Holds(lines, spans[a], blocks[a]) <==> blocks[a] == ParseMessage(t)[a]
      {
        HoldsExactly(lines, spans[a], blocks[a]);
      }
    }
    hide SpanOk;
  }

  /**
   * The parse of a message is the one list of blocks that reads it: its lines fall into disjoint stretches, each
   * of its kind and as long as it can be, that leave out only blank lines; a paragraph's nodes read its lines, a
   * quote's its lines without their markers, and a code block is the lines between its fences.
   */
  lemma MessageReadsExactly(t: string, blocks: seq<Block>)
    ensures MessageReads(t, blocks) <==> blocks == ParseMessage(t)
  {
    ParseHoldsAll(t, blocks);
    ScanLaid(Split(t));
    hide Laid;
    hide HoldsAll;
    hide Scan;
    hide Split;
    hide ParseMessage;
    forall spans | Laid(Split(t), spans, 0) ensures spans == Scan(Split(t), 0) {
      LaidUnique(Split(t), spans, 0);
    }
  }

  lemma ReadsPrints(nodes: seq<Inline.Node>, t: string)
    requires Reads(nodes, t)
    ensures Inline.Print(nodes) == t
  {
    ParseReadsExactly(nodes, t);
    Inline.ParseIsLossless(t);
  }

  /** The block prints what is written on its lines, up to the markers of a quote. */
  ghost predicate PrintsLines(lines: seq<string>, s: Span, b: Block) {
    && s.lo < s.hi <= |lines|
    && match s
       case ParagraphSpan(lo, hi) => b.Paragraph? && Inline.Print(b.children) == Join(lines[lo..hi])
       case QuoteSpan(lo, hi) =>
         b.Quote? && exists rests :: UnmarkedAll(lines[lo..hi], rests) && Inline.Print(b.children) == Join(rests)
       case CodeSpan(lo, hi) =>
         b.CodeBlock? && lo + 1 < hi && b.text == Join(lines[lo + 1..hi - 1]) && Names(lines[lo], b.language)
  }

  lemma HoldsPrints(lines: seq<string>, s: Span, b: Block)
    requires Holds(lines, s, b)
    ensures PrintsLines(lines, s, b)
  {
    hide Reads;
    hide UnmarkedAll;
    hide Names;
    hide Join;
    match s
    case ParagraphSpan(lo, hi) => ReadsPrints(b.children, Join(lines[lo..hi]));
    case QuoteSpan(lo, hi) =>
      var rests :| UnmarkedAll(lines[lo..hi], rests) && Reads(b.children, Join(rests));
      ReadsPrints(b.children, Join(rests));
    case CodeSpan(_, _) =>
  }

  /** For every text: each block of its parse prints the lines of its stretch. */
  lemma BlocksPrintLines(t: string, a: nat)
    requires a < |Scan(Split(t), 0)|
    ensures a < |ParseMessage(t)|
    ensures PrintsLines(Split(t), Scan(Split(t), 0)[a], ParseMessage(t)[a])
  {
    ParseHoldsAll(t, ParseMessage(t));
    hide Holds;
    hide Scan;
    hide Split;
    hide ParseMessage;
    HoldsPrints(Split(t), Scan(Split(t), 0)[a], ParseMessage(t)[a]);
    hide PrintsLines;
  }
}
