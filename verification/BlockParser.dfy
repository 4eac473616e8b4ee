/** The block parser of packages/shared/src/message-format.ts. */
module BlockParser {
  import opened Common
  import opened Lines
  import opened InlinePatterns
  import opened InlineParser

  datatype Block =
    | Paragraph(children: seq<Node>)
    | Quote(children: seq<Node>)
    | CodeBlock(text: string, language: Option<string>)

  // ---- lines ----

  /** trim() leaves nothing. */
  predicate IsBlank(s: string) {
    forall k :: 0 <= k < |s| ==> IsSpace(s[k])
  }

  predicate IsFence(line: string) {
    At(line, 0, "```")
  }

  predicate IsQuote(line: string) {
    line != "" && line[0] == '>'
  }

  /** Remove the marker and one white space after it. */
  function StripQuote(line: string): string {
    if !IsQuote(line) then line
    else if |line| > 1 && IsSpace(line[1]) then line[2..]
    else line[1..]
  }

  function StripQuotes(lines: seq<string>): (r: seq<string>)
    ensures |r| == |lines|
    ensures forall k :: 0 <= k < |lines| ==> r[k] == StripQuote(lines[k])
  {
    if lines == [] then [] else [StripQuote(lines[0])] + StripQuotes(lines[1..])
  }

  function TrimStart(s: string): string {
    if s != "" && IsSpace(s[0]) then TrimStart(s[1..]) else s
  }

  function TrimEnd(s: string): string {
    if s != "" && IsSpace(s[|s| - 1]) then TrimEnd(s[..|s| - 1]) else s
  }

  function Language(fence: string): Option<string>
    requires IsFence(fence)
  {
    var language := TrimEnd(TrimStart(fence[3..]));
    if language == "" then None else Some(language)
  }

  // ---- which lines a block covers ----

  /** A block's lines, from lo up to but not including hi. */
  datatype Span =
    | ParagraphSpan(lo: nat, hi: nat)
    | QuoteSpan(lo: nat, hi: nat)
    | CodeSpan(lo: nat, hi: nat)

  /** The first fence from i on. */
  function NextFence(lines: seq<string>, i: nat): (r: Option<nat>)
    ensures match r
      case Some(j) => i <= j < |lines| && IsFence(lines[j]) && forall k :: i <= k < j ==> !IsFence(lines[k])
      case None => forall k :: i <= k < |lines| ==> !IsFence(lines[k])
    decreases |lines| - i
  {
    if i >= |lines| then None
    else if IsFence(lines[i]) then Some(i)
    else NextFence(lines, i + 1)
  }

  function QuoteEnd(lines: seq<string>, i: nat): (r: nat)
    requires i <= |lines|
    ensures i <= r <= |lines|
    ensures forall k :: i <= k < r ==> IsQuote(lines[k])
    ensures r < |lines| ==> !IsQuote(lines[r])
    decreases |lines| - i
  {
    if i < |lines| && IsQuote(lines[i]) then QuoteEnd(lines, i + 1) else i
  }

  /** A paragraph goes on until a blank line, a fence or a quote. */
  predicate EndsParagraph(line: string) {
    IsBlank(line) || IsFence(line) || IsQuote(line)
  }

  function ParagraphEnd(lines: seq<string>, i: nat): (r: nat)
    requires i <= |lines|
    ensures i <= r <= |lines|
    ensures forall k :: i <= k < r ==> !EndsParagraph(lines[k])
    ensures r < |lines| ==> EndsParagraph(lines[r])
    decreases |lines| - i
  {
    if i < |lines| && !EndsParagraph(lines[i]) then ParagraphEnd(lines, i + 1) else i
  }

  /** The block that starts at line i, which is not blank. */
  function SpanAt(lines: seq<string>, i: nat): (r: Span)
    requires i < |lines| && !IsBlank(lines[i])
    ensures r.lo == i < r.hi <= |lines|
  {
    if IsFence(lines[i]) && NextFence(lines, i + 1).Some? then CodeSpan(i, NextFence(lines, i + 1).value + 1)
    else if IsQuote(lines[i]) then QuoteSpan(i, QuoteEnd(lines, i + 1))
    else ParagraphSpan(i, ParagraphEnd(lines, i + 1))
  }

  /** The blocks from line i on. */
  function Scan(lines: seq<string>, i: nat): seq<Span>
    decreases |lines| - i
  {
    if i >= |lines| then []
    else if IsBlank(lines[i]) then Scan(lines, i + 1)
    else [SpanAt(lines, i)] + Scan(lines, SpanAt(lines, i).hi)
  }

  // ---- what a block contains ----

  function Render(lines: seq<string>, s: Span): Block
    requires s.lo < s.hi <= |lines| && (s.CodeSpan? ==> s.lo + 1 < s.hi && IsFence(lines[s.lo]))
  {
    match s
    case ParagraphSpan(lo, hi) => Paragraph(ParseInline(Join(lines[lo..hi])))
    case QuoteSpan(lo, hi) => Quote(ParseInline(Join(StripQuotes(lines[lo..hi]))))
    case CodeSpan(lo, hi) => CodeBlock(Join(lines[lo + 1..hi - 1]), Language(lines[lo]))
  }

  function BlocksFrom(lines: seq<string>, i: nat): seq<Block>
    decreases |lines| - i
  {
    if i >= |lines| then []
    else if IsBlank(lines[i]) then BlocksFrom(lines, i + 1)
    else
      var s := SpanAt(lines, i);
      [Render(lines, s)] + BlocksFrom(lines, s.hi)
  }

  /** parseFormattedMessage */
  function ParseMessage(t: string): seq<Block> {
    if IsBlank(t) then [] else BlocksFrom(Split(t), 0)
  }

  // ---- the loops ----

  method FindClosingCodeFence(lines: seq<string>, startIndex: nat) returns (r: int)
    ensures r == (match NextFence(lines, startIndex + 1) case Some(j) => j case None => -1)
  {
    var index := startIndex + 1;
    while index < |lines|
      invariant startIndex + 1 <= index
      invariant NextFence(lines, index) == NextFence(lines, startIndex + 1)
      decreases |lines| - index
    {
      if IsFence(lines[index]) {
        return index;
      }
      index := index + 1;
    }
    return -1;
  }

  lemma StripQuotesAppend(lines: seq<string>, line: string)
    ensures StripQuotes(lines + [line]) == StripQuotes(lines) + [StripQuote(line)]
  {
    hide StripQuote;
  }

  method TakeQuote(lines: seq<string>, start: nat) returns (quoteLines: seq<string>, index: nat)
    requires start < |lines| && IsQuote(lines[start])
    ensures index == QuoteEnd(lines, start + 1)
    ensures quoteLines == StripQuotes(lines[start..index])
  {
    hide StripQuote;
    quoteLines := [];
    index := start;
    while index < |lines| && IsQuote(lines[index])
      invariant start <= index <= |lines|
      invariant QuoteEnd(lines, index) == QuoteEnd(lines, start + 1)
      invariant quoteLines == StripQuotes(lines[start..index])
    {
      StripQuotesAppend(lines[start..index], lines[index]);
      assert lines[start..index + 1] == lines[start..index] + [lines[index]];
      quoteLines := quoteLines + [StripQuote(lines[index])];
      index := index + 1;
    }
  }

  method TakeParagraph(lines: seq<string>, start: nat) returns (paragraphLines: seq<string>, index: nat)
    requires start < |lines| && !IsBlank(lines[start])
    ensures index == ParagraphEnd(lines, start + 1)
    ensures paragraphLines == lines[start..index]
  {
    paragraphLines := [];
    index := start;
    while index < |lines|
      invariant start <= index <= |lines|
      invariant index > start ==> ParagraphEnd(lines, index) == ParagraphEnd(lines, start + 1)
      invariant paragraphLines == lines[start..index]
    {
      if IsBlank(lines[index]) {
        break;
      }
      if |paragraphLines| > 0 && (IsFence(lines[index]) || IsQuote(lines[index])) {
        break;
      }
      paragraphLines := paragraphLines + [lines[index]];
      index := index + 1;
    }
  }

  /** The body of the main loop at a line that is not blank. */
  method TakeBlock(lines: seq<string>, index: nat) returns (block: Block, next: nat)
    requires index < |lines| && !IsBlank(lines[index])
    ensures block == Render(lines, SpanAt(lines, index)) && next == SpanAt(lines, index).hi
  {
    hide ParseInline;
    hide IsBlank;
    hide At;
    if IsFence(lines[index]) {
      var closing := FindClosingCodeFence(lines, index);
      if closing != -1 {
        return CodeBlock(Join(lines[index + 1..closing]), Language(lines[index])), closing + 1;
      }
    }
    if IsQuote(lines[index]) {
      var quoteLines, end := TakeQuote(lines, index);
      var children := ParseInlineText(Join(quoteLines));
      return Quote(children), end;
    }
    var paragraphLines, end := TakeParagraph(lines, index);
    var children := ParseInlineText(Join(paragraphLines));
    return Paragraph(children), end;
  }

  method ParseFormattedMessage(t: string) returns (blocks: seq<Block>)
    ensures blocks == ParseMessage(t)
  {
    hide Render;
    hide IsBlank;
    if IsBlank(t) {
      return [];
    }
    var lines := Split(t);
    blocks := [];
    var index := 0;
    while index < |lines|
      invariant 0 <= index <= |lines|
      invariant blocks + BlocksFrom(lines, index) == BlocksFrom(lines, 0)
      decreases |lines| - index
    {
      if IsBlank(lines[index]) {
        index := index + 1;
        continue;
      }
      var block, next := TakeBlock(lines, index);
      assert BlocksFrom(lines, index) == [block] + BlocksFrom(lines, next);
      assert blocks + ([block] + BlocksFrom(lines, next)) == blocks + [block] + BlocksFrom(lines, next);
      blocks := blocks + [block];
      index := next;
    }
  }

  // ---- the blocks partition the lines ----

  /** What each kind of block is made of. */
  ghost predicate SpanOk(lines: seq<string>, s: Span) {
    && s.lo < s.hi <= |lines|
    && match s
       case CodeSpan(lo, hi) =>
         lo + 1 < hi && IsFence(lines[lo]) && IsFence(lines[hi - 1])
         && forall k :: lo < k < hi - 1 ==> !IsFence(lines[k])
       case QuoteSpan(lo, hi) =>
         (forall k :: lo <= k < hi ==> IsQuote(lines[k])) && (hi < |lines| ==> !IsQuote(lines[hi]))
       case ParagraphSpan(lo, hi) =>
         && !IsBlank(lines[lo]) && !IsQuote(lines[lo])
         && (IsFence(lines[lo]) ==> forall k :: lo < k < |lines| ==> !IsFence(lines[k]))
         && (forall k :: lo < k < hi ==> !EndsParagraph(lines[k]))
         && (hi < |lines| ==> EndsParagraph(lines[hi]))
  }

  /** Increasing and disjoint, from line i on. */
  ghost predicate Ordered(spans: seq<Span>, i: nat) {
    && (forall a :: 0 <= a < |spans| ==> i <= spans[a].lo)
    && (forall a, b :: 0 <= a < b < |spans| ==> spans[a].hi <= spans[b].lo)
  }

  ghost predicate Covered(spans: seq<Span>, k: nat) {
    exists a :: 0 <= a < |spans| && spans[a].lo <= k < spans[a].hi
  }

  lemma SpanAtOk(lines: seq<string>, i: nat)
    requires i < |lines| && !IsBlank(lines[i])
    ensures SpanOk(lines, SpanAt(lines, i))
  {
  }

  lemma {:induction false} ScanOrdered(lines: seq<string>, i: nat)
    ensures Ordered(Scan(lines, i), i)
    ensures forall a :: 0 <= a < |Scan(lines, i)| ==> SpanOk(lines, Scan(lines, i)[a])
    decreases |lines| - i
  {
    if i < |lines| {
      if IsBlank(lines[i]) {
        ScanOrdered(lines, i + 1);
      } else {
        SpanAtOk(lines, i);
        ScanOrdered(lines, SpanAt(lines, i).hi);
        hide SpanOk;
        hide SpanAt;
      }
    }
  }

  lemma {:induction false} ScanCovers(lines: seq<string>, i: nat, k: nat)
    requires i <= k < |lines| && !IsBlank(lines[k])
    ensures Covered(Scan(lines, i), k)
    decreases |lines| - i
  {
    hide IsBlank;
    if IsBlank(lines[i]) {
      ScanCovers(lines, i + 1, k);
    } else {
      var s := SpanAt(lines, i);
      if k < s.hi {
        assert Scan(lines, i)[0] == s;
      } else {
        ScanCovers(lines, s.hi, k);
        var a :| 0 <= a < |Scan(lines, s.hi)| && Scan(lines, s.hi)[a].lo <= k < Scan(lines, s.hi)[a].hi;
        assert Scan(lines, i)[a + 1] == Scan(lines, s.hi)[a];
      }
    }
  }

  lemma {:induction false} BlocksAreRendered(lines: seq<string>, i: nat)
    ensures |BlocksFrom(lines, i)| == |Scan(lines, i)|
    ensures forall a :: 0 <= a < |Scan(lines, i)| ==>
      SpanOk(lines, Scan(lines, i)[a]) && BlocksFrom(lines, i)[a] == Render(lines, Scan(lines, i)[a])
    decreases |lines| - i
  {
    ScanOrdered(lines, i);
    hide Render;
    if i < |lines| {
      if IsBlank(lines[i]) {
        BlocksAreRendered(lines, i + 1);
      } else {
        BlocksAreRendered(lines, SpanAt(lines, i).hi);
        hide SpanAt;
        hide SpanOk;
      }
    }
  }

  ghost predicate AllBlank(lines: seq<string>) {
    forall k :: 0 <= k < |lines| ==> IsBlank(lines[k])
  }

  lemma AllBlankHead(line: string, rest: seq<string>)
    ensures AllBlank([line] + rest) <==> IsBlank(line) && AllBlank(rest)
  {
    hide IsBlank;
    if AllBlank([line] + rest) {
      assert ([line] + rest)[0] == line;
      forall k | 0 <= k < |rest| ensures IsBlank(rest[k]) {
        assert ([line] + rest)[k + 1] == rest[k];
      }
    }
  }

  lemma {:induction false} BlankLines(t: string)
    ensures IsBlank(t) <==> AllBlank(Split(t))
  {
    if t == "" {
      assert Split(t) == [""];
    } else {
      BlankLines(t[1..]);
      BlankHead(t);
      var rest := Split(t[1..]);
      assert rest == [rest[0]] + rest[1..];
      AllBlankHead(rest[0], rest[1..]);
      if t[0] == '\n' {
        AllBlankHead("", rest);
      } else {
        AllBlankHead([t[0]] + rest[0], rest[1..]);
        BlankHead([t[0]] + rest[0]);
        assert ([t[0]] + rest[0])[1..] == rest[0];
      }
      hide IsBlank;
      hide AllBlank;
    }
  }

  lemma BlankHead(t: string)
    requires t != ""
    ensures IsBlank(t) <==> IsSpace(t[0]) && IsBlank(t[1..])
  {
    if IsSpace(t[0]) && IsBlank(t[1..]) {
      forall k | 0 <= k < |t| ensures IsSpace(t[k]) {
        if k > 0 {
          assert t[k] == t[1..][k - 1];
        }
      }
    }
    if IsBlank(t) {
      forall k | 0 <= k < |t| - 1 ensures IsSpace(t[1..][k]) {
        assert t[1..][k] == t[k + 1];
      }
    }
  }

  lemma {:induction false} ScanBlank(lines: seq<string>, i: nat)
    requires forall k :: i <= k < |lines| ==> IsBlank(lines[k])
    ensures Scan(lines, i) == []
    decreases |lines| - i
  {
    if i < |lines| {
      ScanBlank(lines, i + 1);
    }
  }

  /**
   * The blocks are the renderings of disjoint, increasing stretches of lines, each
   * of its kind. This holds of blank texts too: their early return changes nothing.
   */
  lemma BlocksAreStretches(t: string)
    ensures Ordered(Scan(Split(t), 0), 0)
    ensures |ParseMessage(t)| == |Scan(Split(t), 0)|
    ensures forall a :: 0 <= a < |Scan(Split(t), 0)| ==>
      SpanOk(Split(t), Scan(Split(t), 0)[a]) && ParseMessage(t)[a] == Render(Split(t), Scan(Split(t), 0)[a])
  {
    hide Render;
    hide SpanOk;
    hide Ordered;
    hide Split;
    var lines := Split(t);
    ScanOrdered(lines, 0);
    BlocksAreRendered(lines, 0);
    BlankLines(t);
    if IsBlank(t) {
      ScanBlank(lines, 0);
    }
  }

  /** Every line that is not blank lies in one block, so every line left over is blank. */
  lemma BlocksCoverLines(t: string, k: nat)
    requires k < |Split(t)| && !IsBlank(Split(t)[k])
    ensures Covered(Scan(Split(t), 0), k)
  {
    ScanCovers(Split(t), 0, k);
  }
}
