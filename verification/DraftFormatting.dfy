/** The draft formatter of apps/mobile/src/lib/messageDraftFormatting.ts. */
module DraftFormatting {
  import opened Common
  import opened Lines

  datatype Selection = Selection(start: int, end: int)

  datatype Action = Bold | Italic | Strikethrough | Code | CodeBlock | Quote | Spoiler

  datatype Result = Result(text: string, selection: Selection)

  function NormalizeSelection(sel: Selection, length: nat): (r: Selection)
    ensures 0 <= r.start <= r.end <= length
  {
    var start := Max(0, Min(Min(sel.start, sel.end), length));
    Selection(start, Max(start, Min(Max(sel.start, sel.end), length)))
  }

  /** A selection in bounds is kept, from whichever end it was made. */
  lemma NormalizeKeepsInBounds(sel: Selection, length: nat)
    requires 0 <= sel.start <= sel.end <= length
    ensures NormalizeSelection(sel, length) == sel
    ensures NormalizeSelection(Selection(sel.end, sel.start), length) == sel
  {
  }

  /** The positions selected are those of the text that lie between the two ends, in either order. */
  lemma NormalizeSelects(sel: Selection, length: nat, p: nat)
    requires p < length
    ensures var r := NormalizeSelection(sel, length);
      r.start <= p < r.end <==> (sel.start <= p < sel.end || sel.end <= p < sel.start)
  {
  }

  ghost predicate InBounds(t: string, sel: Selection) {
    0 <= sel.start <= sel.end <= |t|
  }

  function ReplaceSelection(t: string, sel: Selection, replacement: string): string
    requires InBounds(t, sel)
  {
    t[..sel.start] + replacement + t[sel.end..]
  }

  function InlineDelimiter(action: Action): string {
    match action
    case Bold => "**"
    case Italic => "_"
    case Strikethrough => "~~"
    case Code => "`"
    case Spoiler => "||"
    case _ => ""
  }

  function ApplyInline(t: string, sel: Selection, delimiter: string): Result
    requires InBounds(t, sel)
  {
    var selected := t[sel.start..sel.end];
    var cursor := sel.start + |delimiter|;
    Result(ReplaceSelection(t, sel, delimiter + selected + delimiter),
           Selection(cursor, cursor + |selected|))
  }

  /** Blocks need their own lines: what to put before and after the replacement. */
  function Prefix(t: string, sel: Selection): string
    requires InBounds(t, sel)
  {
    if sel.start > 0 && t[sel.start - 1] != '\n' then "\n" else ""
  }

  function Suffix(t: string, sel: Selection): string
    requires InBounds(t, sel)
  {
    if sel.end < |t| && t[sel.end] != '\n' then "\n" else ""
  }

  function ApplyCodeBlock(t: string, sel: Selection): Result
    requires InBounds(t, sel)
  {
    var selected := t[sel.start..sel.end];
    var openingFence := Prefix(t, sel) + "```\n";
    var closingFence := "\n```" + Suffix(t, sel);
    var contentStart := sel.start + |openingFence|;
    Result(ReplaceSelection(t, sel, openingFence + selected + closingFence),
           Selection(contentStart, contentStart + |selected|))
  }

  function MarkQuoted(lines: seq<string>): (r: seq<string>)
    ensures |r| == |lines|
    ensures forall k :: 0 <= k < |lines| ==> r[k] == "> " + lines[k]
  {
    if lines == [] then [] else ["> " + lines[0]] + MarkQuoted(lines[1..])
  }

  function ApplyQuote(t: string, sel: Selection): Result
    requires InBounds(t, sel)
  {
    var selected := t[sel.start..sel.end];
    if selected == "" then
      var replacement := Prefix(t, sel) + "> ";
      var cursor := sel.start + |replacement|;
      Result(ReplaceSelection(t, sel, replacement), Selection(cursor, cursor))
    else
      var quoted := Join(MarkQuoted(Split(selected)));
      var replacement := Prefix(t, sel) + quoted + Suffix(t, sel);
      var cursor := sel.start + |replacement| - |Suffix(t, sel)|;
      Result(ReplaceSelection(t, sel, replacement), Selection(cursor, cursor))
  }

  function ApplyDraftFormatting(t: string, selection: Selection, action: Action): Result {
    var sel := NormalizeSelection(selection, |t|);
    match action
    case CodeBlock => ApplyCodeBlock(t, sel)
    case Quote => ApplyQuote(t, sel)
    case _ => ApplyInline(t, sel, InlineDelimiter(action))
  }

  lemma ReplaceKeepsOutside(t: string, sel: Selection, replacement: string)
    requires InBounds(t, sel)
    ensures var r := ReplaceSelection(t, sel, replacement);
      && |r| == sel.start + |replacement| + (|t| - sel.end)
      && r[..sel.start] == t[..sel.start]
      && r[sel.start..sel.start + |replacement|] == replacement
      && r[|r| - (|t| - sel.end)..] == t[sel.end..]
  {
  }

  lemma ActionReplaces(t: string, selection: Selection, action: Action) returns (replacement: string)
    ensures var sel := NormalizeSelection(selection, |t|);
      ApplyDraftFormatting(t, selection, action).text == ReplaceSelection(t, sel, replacement)
  {
    hide ReplaceSelection;
    hide Prefix;
    hide Suffix;
    hide InlineDelimiter;
    hide MarkQuoted;
    hide Split;
    hide Join;
    var sel := NormalizeSelection(selection, |t|);
    var text := ApplyDraftFormatting(t, selection, action).text;
    replacement :| text == ReplaceSelection(t, sel, replacement);
  }

  /** What stands before and after the normalized selection is untouched by any action. */
  lemma OutsideUnchanged(t: string, selection: Selection, action: Action)
    ensures var sel := NormalizeSelection(selection, |t|);
      var r := ApplyDraftFormatting(t, selection, action).text;
      && |r| >= sel.start + (|t| - sel.end)
      && r[..sel.start] == t[..sel.start]
      && r[|r| - (|t| - sel.end)..] == t[sel.end..]
  {
    hide ReplaceSelection;
    hide ApplyDraftFormatting;
    var replacement := ActionReplaces(t, selection, action);
    ReplaceKeepsOutside(t, NormalizeSelection(selection, |t|), replacement);
  }

  lemma Surrounded(a: string, p: string, x: string, s: string, b: string)
    ensures var r := a + (p + x + s) + b;
      |a| + |p| + |x| <= |r| && r[|a| + |p|..|a| + |p| + |x|] == x
  {
    var r := a + (p + x + s) + b;
    assert r == (a + p) + x + (s + b);
  }

  lemma InlineFollowsText(t: string, sel: Selection, delimiter: string)
    requires InBounds(t, sel)
    ensures var r := ApplyInline(t, sel, delimiter);
      && 0 <= r.selection.start <= r.selection.end <= |r.text|
      && r.text[r.selection.start..r.selection.end] == t[sel.start..sel.end]
  {
    Surrounded(t[..sel.start], delimiter, t[sel.start..sel.end], delimiter, t[sel.end..]);
  }

  lemma CodeBlockFollowsText(t: string, sel: Selection)
    requires InBounds(t, sel)
    ensures var r := ApplyCodeBlock(t, sel);
      && 0 <= r.selection.start <= r.selection.end <= |r.text|
      && r.text[r.selection.start..r.selection.end] == t[sel.start..sel.end]
  {
    hide Prefix;
    hide Suffix;
    Surrounded(t[..sel.start], Prefix(t, sel) + "```\n", t[sel.start..sel.end], "\n```" + Suffix(t, sel), t[sel.end..]);
  }

  /** After an inline action or a code block the new selection covers exactly the text that was selected. */
  lemma SelectionFollowsText(t: string, selection: Selection, action: Action)
    requires action != Quote
    ensures var sel := NormalizeSelection(selection, |t|);
      var r := ApplyDraftFormatting(t, selection, action);
      && 0 <= r.selection.start <= r.selection.end <= |r.text|
      && r.text[r.selection.start..r.selection.end] == t[sel.start..sel.end]
  {
    hide ApplyInline;
    hide ApplyCodeBlock;
    hide InlineDelimiter;
    var sel := NormalizeSelection(selection, |t|);
    if action == CodeBlock {
      CodeBlockFollowsText(t, sel);
    } else {
      InlineFollowsText(t, sel, InlineDelimiter(action));
    }
  }

  lemma EndsAt(a: string, b: string, c: string)
    ensures |a + b| <= |a + b + c| && (a + b + c)[..|a + b|] == a + b && (a + b + c)[|a + b|..] == c
  {
  }

  /** After a quote there is just a cursor, behind the quoted lines: what follows it is the text after the selection. */
  lemma QuoteCursorFollows(t: string, selection: Selection)
    ensures var sel := NormalizeSelection(selection, |t|);
      var r := ApplyDraftFormatting(t, selection, Quote);
      var cursor := r.selection.start;
      && r.selection.end == cursor && 0 <= cursor <= |r.text|
      && (sel.start < sel.end ==> r.text[cursor..] == Suffix(t, sel) + t[sel.end..])
      && (sel.start == sel.end ==>
            && r.text[cursor..] == t[sel.end..]
            && cursor >= 2 && r.text[cursor - 2..cursor] == "> " && (cursor == 2 || r.text[cursor - 3] == '\n'))
  {
    var sel := NormalizeSelection(selection, |t|);
    var a, b := t[..sel.start], t[sel.end..];
    var prefix, suffix := Prefix(t, sel), Suffix(t, sel);
    if sel.start < sel.end {
      var quoted := prefix + Join(MarkQuoted(Split(t[sel.start..sel.end])));
      assert a + (quoted + suffix) + b == a + quoted + (suffix + b);
      EndsAt(a, quoted, suffix + b);
      hide Prefix;
      hide Suffix;
      hide Join;
      hide MarkQuoted;
      hide Split;
    } else {
      EndsAt(a, prefix + "> ", b);
      var text := a + (prefix + "> ");
      assert text[|text| - 2..] == "> ";
      assert |text| > 2 ==> text[|text| - 3] == '\n';
    }
  }
}
