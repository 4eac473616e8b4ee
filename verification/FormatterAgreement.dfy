/**
 * The draft formatter's block formats against the message parser: exactly when a
 * code block or a quote made in the editor comes out of the parser as one block
 * with the selected text.
 */
module FormatterAgreement {
  import opened Common
  import opened Lines
  import opened BlockParser
  import opened InlinePatterns
  import Inline = InlineParser
  import Draft = DraftFormatting

  // ---- the lines of a formatted draft ----

  /** The lines before a block that is given its own lines. */
  function LinesBefore(a: string): seq<string> {
    if a == "" then []
    else if a[|a| - 1] == '\n' then Split(a[..|a| - 1])
    else Split(a)
  }

  function LinesAfter(b: string): seq<string> {
    if b == "" then []
    else if b[0] == '\n' then Split(b[1..])
    else Split(b)
  }

  lemma SplitWithPrefix(a: string, prefix: string, body: string)
    requires prefix == if a != "" && a[|a| - 1] != '\n' then "\n" else ""
    ensures Split(a + prefix + body) == LinesBefore(a) + Split(body)
  {
    if a == "" {
      assert a + prefix + body == body;
    } else if a[|a| - 1] == '\n' {
      var a' := a[..|a| - 1];
      assert a == a' + "\n";
      assert a + prefix + body == a' + "\n" + body;
      SplitAtNewline(a', body);
    } else {
      SplitAtNewline(a, body);
    }
  }

  lemma SplitWithSuffix(body: string, suffix: string, b: string)
    requires suffix == if b != "" && b[0] != '\n' then "\n" else ""
    ensures Split(body + suffix + b) == Split(body) + LinesAfter(b)
  {
    if b == "" {
      assert body + suffix + b == body;
      assert Split(body) + LinesAfter(b) == Split(body);
    } else if b[0] == '\n' {
      assert b == "\n" + b[1..];
      assert body + suffix + b == body + "\n" + b[1..];
      SplitAtNewline(body, b[1..]);
    } else {
      SplitAtNewline(body, b);
    }
  }

  /** A body on its own lines keeps the lines before and after it. */
  lemma SplitOwnLines(t: string, sel: Draft.Selection, body: string)
    requires Draft.InBounds(t, sel)
    ensures Split(Draft.ReplaceSelection(t, sel, Draft.Prefix(t, sel) + body + Draft.Suffix(t, sel)))
         == LinesBefore(t[..sel.start]) + Split(body) + LinesAfter(t[sel.end..])
  {
    var a, b := t[..sel.start], t[sel.end..];
    var prefix, suffix := Draft.Prefix(t, sel), Draft.Suffix(t, sel);
    assert a + (prefix + body + suffix) + b == a + prefix + (body + suffix + b);
    hide Split;
    SplitWithPrefix(a, prefix, body + suffix + b);
    SplitWithSuffix(body, suffix, b);
    assert LinesBefore(a) + (Split(body) + LinesAfter(b)) == LinesBefore(a) + Split(body) + LinesAfter(b);
  }

  const FENCE: string := "```"

  lemma FenceIsFence()
    ensures IsFence(FENCE)
  {
  }

  lemma SplitFenced(x: string)
    ensures Split(FENCE + "\n" + x + "\n" + FENCE) == [FENCE] + Split(x) + [FENCE]
  {
    SplitLine(FENCE);
    assert FENCE + "\n" + x + "\n" + FENCE == FENCE + "\n" + (x + "\n" + FENCE);
    SplitAtNewline(FENCE, x + "\n" + FENCE);
    SplitAtNewline(x, FENCE);
    assert [FENCE] + (Split(x) + [FENCE]) == [FENCE] + Split(x) + [FENCE];
  }

  lemma SplitQuoted(x: string)
    ensures Split(Join(Draft.MarkQuoted(Split(x)))) == Draft.MarkQuoted(Split(x))
  {
    var lines := Draft.MarkQuoted(Split(x));
    forall k | 0 <= k < |lines| ensures '\n' !in lines[k] {
      SplitHasNoNewline(x, k);
    }
    SplitJoin(lines);
  }

  // ---- where the block parser starts a block ----

  function FenceCount(lines: seq<string>, i: nat, q: nat): nat
    requires i <= q <= |lines|
    decreases q - i
  {
    if i == q then 0 else (if IsFence(lines[i]) then 1 else 0) + FenceCount(lines, i + 1, q)
  }

  lemma {:induction false} FenceCountSplit(lines: seq<string>, i: nat, j: nat, q: nat)
    requires i <= j <= q <= |lines|
    ensures FenceCount(lines, i, q) == FenceCount(lines, i, j) + FenceCount(lines, j, q)
    decreases j - i
  {
    if i < j {
      FenceCountSplit(lines, i + 1, j, q);
    }
  }

  lemma {:induction false} FenceCountZero(lines: seq<string>, i: nat, j: nat)
    requires i <= j <= |lines| && forall k :: i <= k < j ==> !IsFence(lines[k])
    ensures FenceCount(lines, i, j) == 0
    decreases j - i
  {
    if i < j {
      FenceCountZero(lines, i + 1, j);
    }
  }

  /** A line that no paragraph runs over. */
  predicate Breaks(line: string) {
    IsFence(line) || IsQuote(line)
  }

  /**
   * Scanning from line i starts a block at line q: the fences between pair up, or
   * the last one finds no partner; and no quote runs into a quote line at q.
   */
  ghost predicate StartsAt(lines: seq<string>, i: nat, q: nat)
    requires i <= q < |lines|
  {
    && (FenceCount(lines, i, q) % 2 == 0 || NextFence(lines, q).None?)
    && (i < q && IsQuote(lines[q]) ==> !IsQuote(lines[q - 1]))
  }

  ghost predicate HasStart(spans: seq<Span>, q: nat) {
    exists a :: 0 <= a < |spans| && spans[a].lo == q
  }

  lemma FenceIsNotQuote(line: string)
    requires IsFence(line)
    ensures !IsQuote(line) && !IsBlank(line)
  {
    assert line[0] == line[0..3][0];
  }

  /** The block at i, before q, ends by q or is a code block that swallows q; StartsAt carries over. */
  lemma SpanBefore(lines: seq<string>, i: nat, q: nat)
    requires i < q < |lines| && Breaks(lines[q]) && !IsBlank(lines[i])
    ensures var s := SpanAt(lines, i);
      if s.hi <= q then StartsAt(lines, i, q) <==> StartsAt(lines, s.hi, q) else !StartsAt(lines, i, q)
  {
    var s := SpanAt(lines, i);
    if IsFence(lines[i]) {
      FenceIsNotQuote(lines[i]);
    }
    match s
    case CodeSpan(_, hi) =>
      CodeBefore(lines, i, q);
    case QuoteSpan(_, hi) =>
      QuoteBefore(lines, i, q);
    case ParagraphSpan(_, hi) =>
      ParagraphBefore(lines, i, q);
  }

  lemma CodeBefore(lines: seq<string>, i: nat, q: nat)
    requires i < q < |lines| && Breaks(lines[q]) && !IsBlank(lines[i])
    requires IsFence(lines[i]) && NextFence(lines, i + 1).Some?
    ensures var s := SpanAt(lines, i);
      if s.hi <= q then StartsAt(lines, i, q) <==> StartsAt(lines, s.hi, q) else !StartsAt(lines, i, q)
  {
    hide IsFence;
    hide IsQuote;
    hide IsBlank;
    var j := NextFence(lines, i + 1).value;
    hide NextFence;
    if j < q {
      FenceCountZero(lines, i + 1, j);
      FenceCountSplit(lines, i + 1, j, q);
      assert FenceCount(lines, i, q) == 2 + FenceCount(lines, j + 1, q);
      if j + 1 == q {
        FenceIsNotQuote(lines[j]);
      }
    } else {
      FenceCountZero(lines, i + 1, q);
      assert FenceCount(lines, i, q) == 1;
    }
  }

  lemma QuoteBefore(lines: seq<string>, i: nat, q: nat)
    requires i < q < |lines| && Breaks(lines[q]) && !IsBlank(lines[i])
    requires !IsFence(lines[i]) && IsQuote(lines[i])
    ensures var s := SpanAt(lines, i);
      if s.hi <= q then StartsAt(lines, i, q) <==> StartsAt(lines, s.hi, q) else !StartsAt(lines, i, q)
  {
    var hi := QuoteEnd(lines, i + 1);
    if hi <= q {
      forall k | i <= k < hi ensures !IsFence(lines[k]) {
        if IsFence(lines[k]) {
          FenceIsNotQuote(lines[k]);
        }
      }
      FenceCountZero(lines, i, hi);
      FenceCountSplit(lines, i, hi, q);
    } else {
      assert IsQuote(lines[q]) && IsQuote(lines[q - 1]);
    }
  }

  lemma ParagraphBefore(lines: seq<string>, i: nat, q: nat)
    requires i < q < |lines| && Breaks(lines[q]) && !IsBlank(lines[i])
    requires !IsQuote(lines[i]) && (IsFence(lines[i]) ==> NextFence(lines, i + 1).None?)
    ensures var s := SpanAt(lines, i);
      s.hi <= q && (StartsAt(lines, i, q) <==> StartsAt(lines, s.hi, q))
  {
    var hi := ParagraphEnd(lines, i + 1);
    assert hi <= q;
    FenceCountZero(lines, i + 1, hi);
    FenceCountSplit(lines, i + 1, hi, q);
    if IsFence(lines[i]) {
      FenceCountZero(lines, hi, q);
    }
  }

  lemma ScanSpansFrom(lines: seq<string>, i: nat, q: nat)
    requires q < i
    ensures !HasStart(Scan(lines, i), q)
  {
    ScanOrdered(lines, i);
  }

  lemma HasStartCons(s: Span, rest: seq<Span>, q: nat)
    ensures HasStart([s] + rest, q) <==> s.lo == q || HasStart(rest, q)
  {
    if HasStart(rest, q) {
      var a :| 0 <= a < |rest| && rest[a].lo == q;
      assert ([s] + rest)[a + 1].lo == q;
    }
    if s.lo == q {
      assert ([s] + rest)[0].lo == q;
    }
    if HasStart([s] + rest, q) {
      var a :| 0 <= a < |[s] + rest| && ([s] + rest)[a].lo == q;
      assert a > 0 ==> rest[a - 1].lo == q;
    }
  }

  /** The parser starts a block at a fence or quote line q exactly when StartsAt says so. */
  lemma {:induction false} ScanStartsAt(lines: seq<string>, i: nat, q: nat)
    requires i <= q < |lines| && Breaks(lines[q]) && !IsBlank(lines[q])
    ensures HasStart(Scan(lines, i), q) <==> StartsAt(lines, i, q)
    decreases q - i
  {
    hide IsBlank;
    hide At;
    if i == q {
      assert Scan(lines, q)[0].lo == q;
    } else if IsBlank(lines[i]) {
      BlankBefore(lines, i, q);
      ScanStartsAt(lines, i + 1, q);
    } else {
      var s := SpanAt(lines, i);
      SpanBefore(lines, i, q);
      HasStartCons(s, Scan(lines, s.hi), q);
      if s.hi <= q {
        ScanStartsAt(lines, s.hi, q);
      } else {
        ScanSpansFrom(lines, s.hi, q);
      }
      hide StartsAt;
      hide HasStart;
    }
  }

  lemma BlankIsPlain(line: string)
    requires IsBlank(line)
    ensures !IsFence(line) && !IsQuote(line)
  {
    if IsFence(line) {
      FenceIsNotQuote(line);
    }
    assert !IsSpace('>');
  }

  lemma BlankBefore(lines: seq<string>, i: nat, q: nat)
    requires i < q < |lines| && IsBlank(lines[i])
    ensures StartsAt(lines, i, q) <==> StartsAt(lines, i + 1, q)
  {
    BlankIsPlain(lines[i]);
  }

  /** A block that the parser starts at q is the one SpanAt gives. */
  lemma {:induction false} StartedSpan(lines: seq<string>, i: nat, s: Span)
    requires s in Scan(lines, i)
    ensures s.lo < |lines| && !IsBlank(lines[s.lo]) && s == SpanAt(lines, s.lo)
    decreases |lines| - i
  {
    hide IsBlank;
    if IsBlank(lines[i]) {
      StartedSpan(lines, i + 1, s);
    } else if s != SpanAt(lines, i) {
      StartedSpan(lines, SpanAt(lines, i).hi, s);
    }
  }

  /** The span s is among the blocks exactly when the parser starts a block there and takes s. */
  lemma SpanIsScanned(lines: seq<string>, q: nat, s: Span)
    requires q < |lines| && Breaks(lines[q]) && !IsBlank(lines[q]) && s.lo == q
    ensures s in Scan(lines, 0) <==> StartsAt(lines, 0, q) && s == SpanAt(lines, q)
  {
    hide IsBlank;
    hide At;
    hide StartsAt;
    ScanStartsAt(lines, 0, q);
    if s in Scan(lines, 0) {
      StartedSpan(lines, 0, s);
      var a :| 0 <= a < |Scan(lines, 0)| && Scan(lines, 0)[a] == s;
      assert HasStart(Scan(lines, 0), q);
    }
    if StartsAt(lines, 0, q) {
      var a :| 0 <= a < |Scan(lines, 0)| && Scan(lines, 0)[a].lo == q;
      StartedSpan(lines, 0, Scan(lines, 0)[a]);
    }
  }

  // ---- code blocks ----

  ghost predicate NoFence(lines: seq<string>) {
    forall k :: 0 <= k < |lines| ==> !IsFence(lines[k])
  }

  /** The fences pair up: every code block opened in these lines is closed in them. */
  predicate FencesPairUp(lines: seq<string>) {
    FenceCount(lines, 0, |lines|) % 2 == 0
  }

  lemma {:induction false} FenceCountPrefix(a: seq<string>, rest: seq<string>, i: nat)
    requires i <= |a|
    ensures FenceCount(a + rest, i, |a|) == FenceCount(a, i, |a|)
    decreases |a| - i
  {
    if i < |a| {
      FenceCountPrefix(a, rest, i + 1);
    }
  }

  lemma FencedSpan(before: seq<string>, x: seq<string>, after: seq<string>)
    ensures var lines := before + ([FENCE] + x + [FENCE]) + after;
      var q := |before|;
      CodeSpan(q, q + |x| + 2) in Scan(lines, 0) <==> FencesPairUp(before) && NoFence(x)
  {
    var lines := before + ([FENCE] + x + [FENCE]) + after;
    var q := |before|;
    assert lines[q] == FENCE && lines[q + 1 + |x|] == FENCE;
    FenceIsNotQuote(FENCE);
    assert forall k :: 0 <= k < |x| ==> lines[q + 1 + k] == x[k];
    assert lines == before + ([FENCE] + x + [FENCE] + after);
    FenceCountPrefix(before, [FENCE] + x + [FENCE] + after, 0);
    SpanIsScanned(lines, q, CodeSpan(q, q + |x| + 2));
    FirstFenceAfter(lines, q, x);
  }

  lemma FirstFenceAfter(lines: seq<string>, q: nat, x: seq<string>)
    requires q + 1 + |x| < |lines| && IsFence(lines[q + 1 + |x|])
    requires forall k :: 0 <= k < |x| ==> lines[q + 1 + k] == x[k]
    ensures NextFence(lines, q + 1) == Some(q + 1 + |x|) <==> NoFence(x)
  {
    hide At;
    if NoFence(x) {
      forall k | q + 1 <= k < q + 1 + |x| ensures !IsFence(lines[k]) {
        assert lines[q + 1 + (k - q - 1)] == x[k - q - 1];
      }
    } else {
      var k :| 0 <= k < |x| && IsFence(x[k]);
      assert IsFence(lines[q + 1 + k]);
    }
  }

  /** The block has the selected text, whatever it contains, and no language. */
  lemma FencedRender(before: seq<string>, x: string, after: seq<string>)
    ensures var lines := before + ([FENCE] + Split(x) + [FENCE]) + after;
      var q := |before|;
      && lines[q] == FENCE
      && Render(lines, CodeSpan(q, q + |Split(x)| + 2)) == CodeBlock(x, None)
  {
    hide *;
    var lines := before + ([FENCE] + Split(x) + [FENCE]) + after;
    Fenced(before, Split(x), after);
    PlainFence();
    JoinSplit(x);
    RenderCode(lines, |before|, |before| + |Split(x)| + 2);
  }

  lemma RenderCode(lines: seq<string>, lo: nat, hi: nat)
    requires lo + 1 < hi <= |lines| && IsFence(lines[lo]) && Language(lines[lo]) == None
    ensures Render(lines, CodeSpan(lo, hi)) == CodeBlock(Join(lines[lo + 1..hi - 1]), None)
  {
    hide Language;
    hide IsFence;
    hide Join;
  }

  lemma Fenced(before: seq<string>, inner: seq<string>, after: seq<string>)
    ensures var lines := before + ([FENCE] + inner + [FENCE]) + after;
      var q := |before|;
      && |lines| >= q + |inner| + 2 && lines[q] == FENCE
      && lines[q + 1..q + |inner| + 1] == inner
  {
  }

  lemma PlainFence()
    ensures IsFence(FENCE) && Language(FENCE) == None
  {
    assert TrimEnd(TrimStart(FENCE[3..])) == "";
  }

  lemma CodeBlockLines(t: string, selection: Draft.Selection)
    ensures var sel := Draft.NormalizeSelection(selection, |t|);
      Split(Draft.ApplyDraftFormatting(t, selection, Draft.CodeBlock).text)
        == LinesBefore(t[..sel.start]) + ([FENCE] + Split(t[sel.start..sel.end]) + [FENCE]) + LinesAfter(t[sel.end..])
  {
    hide Split;
    hide LinesBefore;
    hide LinesAfter;
    hide Draft.Prefix;
    hide Draft.Suffix;
    var sel := Draft.NormalizeSelection(selection, |t|);
    var x := t[sel.start..sel.end];
    var body := FENCE + "\n" + x + "\n" + FENCE;
    assert Draft.Prefix(t, sel) + "```\n" + x + ("\n```" + Draft.Suffix(t, sel))
        == Draft.Prefix(t, sel) + body + Draft.Suffix(t, sel);
    SplitOwnLines(t, sel, body);
    SplitFenced(x);
  }

  /**
   * Applying codeBlock and parsing gives one code block, between the new fences,
   * exactly when the fences before the selection pair up and none starts a line
   * inside it. Its text is then the selection.
   */
  lemma CodeBlockAgrees(t: string, selection: Draft.Selection)
    ensures var sel := Draft.NormalizeSelection(selection, |t|);
      var before := LinesBefore(t[..sel.start]);
      var x := t[sel.start..sel.end];
      var lines := Split(Draft.ApplyDraftFormatting(t, selection, Draft.CodeBlock).text);
      var q := |before|;
      && q + |Split(x)| + 2 <= |lines| && IsFence(lines[q])
      && (CodeSpan(q, q + |Split(x)| + 2) in Scan(lines, 0) <==> FencesPairUp(before) && NoFence(Split(x)))
      && Render(lines, CodeSpan(q, q + |Split(x)| + 2)) == CodeBlock(x, None)
  {
    hide *;
    var sel := Draft.NormalizeSelection(selection, |t|);
    var before := LinesBefore(t[..sel.start]);
    var after := LinesAfter(t[sel.end..]);
    var x := t[sel.start..sel.end];
    CodeBlockLines(t, selection);
    FenceIsFence();
    FencedSpan(before, Split(x), after);
    FencedRender(before, x, after);
  }

  /** Then the parsed message has that block, in the place of that stretch of lines. */
  lemma CodeBlockIsParsed(t: string, selection: Draft.Selection) returns (a: nat)
    requires var sel := Draft.NormalizeSelection(selection, |t|);
      FencesPairUp(LinesBefore(t[..sel.start])) && NoFence(Split(t[sel.start..sel.end]))
    ensures var sel := Draft.NormalizeSelection(selection, |t|);
      var blocks := ParseMessage(Draft.ApplyDraftFormatting(t, selection, Draft.CodeBlock).text);
      a < |blocks| && blocks[a] == CodeBlock(t[sel.start..sel.end], None)
  {
    hide ParseMessage;
    hide Scan;
    hide Split;
    hide Render;
    hide FencesPairUp;
    hide NoFence;
    hide LinesBefore;
    var sel := Draft.NormalizeSelection(selection, |t|);
    var text := Draft.ApplyDraftFormatting(t, selection, Draft.CodeBlock).text;
    var q := |LinesBefore(t[..sel.start])|;
    var s := CodeSpan(q, q + |Split(t[sel.start..sel.end])| + 2);
    CodeBlockAgrees(t, selection);
    BlocksAreStretches(text);
    a :| 0 <= a < |Scan(Split(text), 0)| && Scan(Split(text), 0)[a] == s;
  }

  /** A draft whose last line, after one more, is selected. */
  lemma SecondLineSelected(line: string, x: string)
    requires '\n' !in line
    ensures var t, start := line + "\n" + x, |line| + 1;
      && Draft.NormalizeSelection(Draft.Selection(start, start + |x|), |t|) == Draft.Selection(start, start + |x|)
      && LinesBefore(t[..start]) == [line] && t[start..start + |x|] == x
  {
    var t, start := line + "\n" + x, |line| + 1;
    assert t[..start] == line + "\n";
    assert (line + "\n")[..|line|] == line;
    SplitLine(line);
    hide Split;
  }

  lemma FenceShape()
    ensures |FENCE| == 3 && '\n' !in FENCE
  {
  }

  lemma OneFence()
    ensures !FencesPairUp([FENCE])
  {
    FenceIsFence();
    hide IsFence;
    assert FenceCount([FENCE], 0, 1) == 1 + FenceCount([FENCE], 1, 1);
  }

  /** Below an open fence the new opening fence closes that one, so the selection is not the block. */
  lemma OpenFenceTakesOver(x: string)
    ensures var t := FENCE + "\n" + x;
      var r := Draft.ApplyDraftFormatting(t, Draft.Selection(4, 4 + |x|), Draft.CodeBlock);
      CodeSpan(1, 1 + |Split(x)| + 2) !in Scan(Split(r.text), 0)
  {
    hide *;
    FenceShape();
    SecondLineSelected(FENCE, x);
    OneFence();
    CodeBlockAgrees(FENCE + "\n" + x, Draft.Selection(4, 4 + |x|));
  }

  // ---- quotes ----

  lemma MarkedIsQuote(line: string)
    ensures IsQuote("> " + line) && !IsFence("> " + line) && !IsBlank("> " + line)
    ensures StripQuote("> " + line) == line
  {
    var marked := "> " + line;
    assert marked[0] == '>';
    if IsFence(marked) {
      FenceIsNotQuote(marked);
    }
    assert !IsSpace('>');
  }

  /** Quote lines that meet no others: none right before, none right after. */
  predicate StandsAlone(before: seq<string>, after: seq<string>) {
    && (before == [] || !IsQuote(before[|before| - 1]))
    && (after == [] || !IsQuote(after[0]))
  }

  /** The fences before pair up or no fence follows, and no quote line is adjacent. */
  ghost predicate Separate(before: seq<string>, after: seq<string>) {
    (FencesPairUp(before) || NoFence(after)) && StandsAlone(before, after)
  }

  /** Lines that are all quote lines, between others. */
  ghost predicate AllQuotes(lines: seq<string>) {
    forall k :: 0 <= k < |lines| ==> IsQuote(lines[k]) && !IsFence(lines[k]) && !IsBlank(lines[k])
  }

  lemma StretchSpan(lines: seq<string>, before: seq<string>, n: nat, after: seq<string>)
    requires n >= 1 && |lines| == |before| + n + |after|
    requires lines[..|before|] == before && lines[|before| + n..] == after
    requires AllQuotes(lines[|before|..|before| + n])
    ensures QuoteSpan(|before|, |before| + n) in Scan(lines, 0) <==> Separate(before, after)
  {
    hide *;
    var q := |before|;
    StretchQuotes(lines, q, n);
    assert lines == before + lines[q..];
    assert lines[q..][0] == lines[q];
    SpanAtQuote(lines, q);
    StartsAtQuote(before, lines[q..], lines);
    FencesFrom(lines, q, n, after);
    QuoteRun(lines, q, n, after);
    SpanIsScanned(lines, q, QuoteSpan(q, q + n));
    SeparateIs(before, after);
  }

  lemma StretchQuotes(lines: seq<string>, q: nat, n: nat)
    requires q + n <= |lines| && AllQuotes(lines[q..q + n])
    ensures forall k :: q <= k < q + n ==> IsQuote(lines[k]) && !IsFence(lines[k]) && !IsBlank(lines[k])
  {
    hide IsQuote;
    hide IsFence;
    hide IsBlank;
    forall k | q <= k < q + n ensures IsQuote(lines[k]) && !IsFence(lines[k]) && !IsBlank(lines[k]) {
      assert lines[k] == lines[q..q + n][k - q];
    }
  }

  lemma MarkedAllQuotes(x: seq<string>)
    ensures AllQuotes(Draft.MarkQuoted(x))
  {
    hide IsQuote;
    hide IsFence;
    hide IsBlank;
    hide StripQuote;
    hide Draft.MarkQuoted;
    var marked := Draft.MarkQuoted(x);
    forall k | 0 <= k < |marked| ensures IsQuote(marked[k]) && !IsFence(marked[k]) && !IsBlank(marked[k]) {
      MarkedIsQuote(x[k]);
    }
  }

  lemma QuotedSpan(before: seq<string>, x: seq<string>, after: seq<string>)
    requires x != []
    ensures var lines := before + Draft.MarkQuoted(x) + after;
      QuoteSpan(|before|, |before| + |x|) in Scan(lines, 0) <==> Separate(before, after)
  {
    hide *;
    var marked := Draft.MarkQuoted(x);
    var lines := before + marked + after;
    MarkedAllQuotes(x);
    assert lines[|before|..|before| + |x|] == marked;
    assert lines[..|before|] == before && lines[|before| + |x|..] == after;
    StretchSpan(lines, before, |x|, after);
  }

  lemma SeparateIs(before: seq<string>, after: seq<string>)
    ensures Separate(before, after) <==>
      && (FencesPairUp(before) || NoFence(after))
      && (before == [] || !IsQuote(before[|before| - 1]))
      && (after == [] || !IsQuote(after[0]))
  {
  }

  lemma SpanAtQuote(lines: seq<string>, q: nat)
    requires q < |lines| && IsQuote(lines[q]) && !IsFence(lines[q]) && !IsBlank(lines[q])
    ensures Breaks(lines[q]) && SpanAt(lines, q) == QuoteSpan(q, QuoteEnd(lines, q + 1))
  {
  }

  lemma StartsAtQuote(before: seq<string>, rest: seq<string>, lines: seq<string>)
    requires lines == before + rest && rest != [] && IsQuote(rest[0])
    ensures StartsAt(lines, 0, |before|) <==>
      && (FencesPairUp(before) || NextFence(lines, |before|).None?)
      && (before == [] || !IsQuote(before[|before| - 1]))
  {
    FenceCountPrefix(before, rest, 0);
    assert before != [] ==> lines[|before| - 1] == before[|before| - 1];
  }

  lemma FencesFrom(lines: seq<string>, q: nat, n: nat, after: seq<string>)
    requires q + n + |after| == |lines| && lines[q + n..] == after
    requires forall k :: q <= k < q + n ==> !IsFence(lines[k])
    ensures NextFence(lines, q).None? <==> NoFence(after)
  {
    hide At;
    if NextFence(lines, q).Some? {
      var j := NextFence(lines, q).value;
      assert after[j - q - n] == lines[j];
    } else {
      forall k | 0 <= k < |after| ensures !IsFence(after[k]) {
        assert after[k] == lines[q + n + k];
      }
    }
  }

  lemma QuoteRun(lines: seq<string>, q: nat, n: nat, after: seq<string>)
    requires n >= 1 && q + n + |after| == |lines| && lines[q + n..] == after
    requires forall k :: q <= k < q + n ==> IsQuote(lines[k])
    ensures QuoteEnd(lines, q + 1) == q + n <==> after == [] || !IsQuote(after[0])
  {
    assert after != [] ==> after[0] == lines[q + n];
  }

  lemma {:induction false} StripMarked(lines: seq<string>)
    ensures StripQuotes(Draft.MarkQuoted(lines)) == lines
  {
    if lines != [] {
      MarkedIsQuote(lines[0]);
      StripMarked(lines[1..]);
    }
  }

  lemma QuotedRender(before: seq<string>, x: string, after: seq<string>)
    ensures var lines := before + Draft.MarkQuoted(Split(x)) + after;
      Render(lines, QuoteSpan(|before|, |before| + |Split(x)|)) == Quote(Inline.ParseInline(x))
  {
    var marked := Draft.MarkQuoted(Split(x));
    var lines := before + marked + after;
    StripMarked(Split(x));
    JoinSplit(x);
    hide Split;
    hide Join;
    hide StripQuotes;
    hide Draft.MarkQuoted;
    hide Inline.ParseInline;
    assert lines[|before|..|before| + |marked|] == marked;
  }

  lemma QuoteLines(t: string, selection: Draft.Selection)
    requires var sel := Draft.NormalizeSelection(selection, |t|); sel.start < sel.end
    ensures var sel := Draft.NormalizeSelection(selection, |t|);
      Split(Draft.ApplyDraftFormatting(t, selection, Draft.Quote).text)
        == LinesBefore(t[..sel.start]) + Draft.MarkQuoted(Split(t[sel.start..sel.end])) + LinesAfter(t[sel.end..])
  {
    var sel := Draft.NormalizeSelection(selection, |t|);
    var x := t[sel.start..sel.end];
    SplitOwnLines(t, sel, Join(Draft.MarkQuoted(Split(x))));
    SplitQuoted(x);
    hide Split;
    hide Join;
    hide LinesBefore;
    hide LinesAfter;
  }

  /**
   * Applying quote to a selection that is not empty and parsing gives one quote of
   * exactly the new lines when, and only when, the fences before pair up or none
   * follows, and no quote line stands right before or after. Its inline nodes
   * print back the selection.
   */
  lemma QuoteAgrees(t: string, selection: Draft.Selection)
    requires var sel := Draft.NormalizeSelection(selection, |t|); sel.start < sel.end
    ensures var sel := Draft.NormalizeSelection(selection, |t|);
      var before, after := LinesBefore(t[..sel.start]), LinesAfter(t[sel.end..]);
      var x := t[sel.start..sel.end];
      var lines := Split(Draft.ApplyDraftFormatting(t, selection, Draft.Quote).text);
      var q := |before|;
      && q + |Split(x)| <= |lines|
      && (QuoteSpan(q, q + |Split(x)|) in Scan(lines, 0) <==> Separate(before, after))
      && Render(lines, QuoteSpan(q, q + |Split(x)|)) == Quote(Inline.ParseInline(x))
      && Inline.Print(Inline.ParseInline(x)) == x
  {
    hide *;
    var sel := Draft.NormalizeSelection(selection, |t|);
    var before, after := LinesBefore(t[..sel.start]), LinesAfter(t[sel.end..]);
    var x := t[sel.start..sel.end];
    QuoteLines(t, selection);
    QuotedSpan(before, Split(x), after);
    QuotedRender(before, x, after);
    Inline.ParseIsLossless(x);
  }

  /** Then the parsed message has that quote, in the place of those lines. */
  lemma QuoteIsParsed(t: string, selection: Draft.Selection) returns (a: nat)
    requires var sel := Draft.NormalizeSelection(selection, |t|);
      sel.start < sel.end && Separate(LinesBefore(t[..sel.start]), LinesAfter(t[sel.end..]))
    ensures var sel := Draft.NormalizeSelection(selection, |t|);
      var blocks := ParseMessage(Draft.ApplyDraftFormatting(t, selection, Draft.Quote).text);
      a < |blocks| && blocks[a] == Quote(Inline.ParseInline(t[sel.start..sel.end]))
  {
    hide ParseMessage;
    hide Scan;
    hide Split;
    hide Render;
    hide Separate;
    hide LinesBefore;
    hide LinesAfter;
    var sel := Draft.NormalizeSelection(selection, |t|);
    var text := Draft.ApplyDraftFormatting(t, selection, Draft.Quote).text;
    var q := |LinesBefore(t[..sel.start])|;
    var s := QuoteSpan(q, q + |Split(t[sel.start..sel.end])|);
    QuoteAgrees(t, selection);
    BlocksAreStretches(text);
    a :| 0 <= a < |Scan(Split(text), 0)| && Scan(Split(text), 0)[a] == s;
  }

  lemma BelowQuote(after: seq<string>)
    ensures !Separate(["> a"], after)
  {
    var line := "> a";
    assert line[0] == '>';
    hide FencesPairUp;
    hide NoFence;
  }

  /** Right below a quote line the new lines join that quote. */
  lemma QuoteJoinsQuote(x: string)
    requires x != ""
    ensures var t := "> a\n" + x;
      var r := Draft.ApplyDraftFormatting(t, Draft.Selection(4, 4 + |x|), Draft.Quote);
      QuoteSpan(1, 1 + |Split(x)|) !in Scan(Split(r.text), 0)
  {
    hide *;
    var t := "> a" + "\n" + x;
    assert t == "> a\n" + x;
    SecondLineSelected("> a", x);
    BelowQuote(LinesAfter(t[4 + |x|..]));
    QuoteAgrees(t, Draft.Selection(4, 4 + |x|));
  }
}
