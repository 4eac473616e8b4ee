/** The inline parser of packages/shared/src/message-format.ts. */
module InlineParser {
  import opened Common
  import opened InlinePatterns

  datatype Node =
    | TextNode(text: string)
    | BoldNode(children: seq<Node>)
    | ItalicNode(children: seq<Node>)
    | StrikethroughNode(children: seq<Node>)
    | SpoilerNode(children: seq<Node>)
    | CodeNode(text: string)
    | LinkNode(text: string, url: string)
    | MentionNode(text: string, username: string)

  // ---- merging adjacent text ----

  function MergeOnto(merged: seq<Node>, nodes: seq<Node>): seq<Node>
    decreases |nodes|
  {
    if nodes == [] then merged
    else
      var last := |merged| - 1;
      if nodes[0].TextNode? && merged != [] && merged[last].TextNode? then
        MergeOnto(merged[last := TextNode(merged[last].text + nodes[0].text)], nodes[1..])
      else
        MergeOnto(merged + [nodes[0]], nodes[1..])
  }

  function Merge(nodes: seq<Node>): seq<Node> {
    MergeOnto([], nodes)
  }

  method MergeTextNodes(nodes: seq<Node>) returns (merged: seq<Node>)
    ensures merged == Merge(nodes)
  {
    merged := [];
    var i := 0;
    while i < |nodes|
      invariant 0 <= i <= |nodes|
      invariant MergeOnto(merged, nodes[i..]) == Merge(nodes)
    {
      var last := |merged| - 1;
      assert nodes[i..][1..] == nodes[i + 1..];
      if nodes[i].TextNode? && merged != [] && merged[last].TextNode? {
        merged := merged[last := TextNode(merged[last].text + nodes[i].text)];
      } else {
        merged := merged + [nodes[i]];
      }
      i := i + 1;
    }
  }

  // ---- parsing ----

  function TextBefore(t: string, m: Match): seq<Node>
    requires m.index <= |t|
  {
    if m.index > 0 then [TextNode(t[..m.index])] else []
  }

  /** The node for a match, given the parse of its body. */
  function NodeFor(m: Match, children: seq<Node>): Node {
    match m.kind
    case Link => LinkNode(m.text, m.text)
    case Mention => MentionNode(m.text, if m.text == "" then "" else m.text[1..])
    case Code => CodeNode(m.text)
    case Bold => BoldNode(children)
    case Italic => ItalicNode(children)
    case Strikethrough => StrikethroughNode(children)
    case Spoiler => SpoilerNode(children)
  }

  predicate Usable(t: string, m: Match) {
    WellPlaced(t, m) && m.length > 0 && |m.text| <= m.length && (IsEmphasis(m.kind) ==> |m.text| < m.length)
  }

  lemma FoundUsable(t: string)
    requires FindNext(t).Some?
    ensures Usable(t, FindNext(t).value)
  {
    FindNextCorrect(t);
    var m := FindNext(t).value;
    assert |t[m.index..m.index + m.length]| == |Delimiter(m.kind) + m.text + Delimiter(m.kind)|;
  }

  function Pieces(t: string): seq<Node>
    decreases |t|, 0
  {
    if t == "" then []
    else match FindNext(t)
      case None => [TextNode(t)]
      case Some(m) =>
        FoundUsable(t);
        var children := if IsEmphasis(m.kind) then ParseInline(m.text) else [];
        TextBefore(t, m) + [NodeFor(m, children)] + Pieces(t[m.index + m.length..])
  }

  function ParseInline(t: string): seq<Node>
    decreases |t|, 1
  {
    Merge(Pieces(t))
  }

  /** The children of the node for a match. */
  function ChildrenOf(m: Match): seq<Node>
    requires |m.text| < m.length || !IsEmphasis(m.kind)
  {
    if IsEmphasis(m.kind) then ParseInline(m.text) else []
  }

  lemma PiecesNext(t: string)
    requires t != "" && FindNext(t).Some?
    ensures var m := FindNext(t).value;
      && m.index + m.length <= |t| && m.length > 0
      && (IsEmphasis(m.kind) ==> |m.text| < m.length)
      && Pieces(t) == TextBefore(t, m) + [NodeFor(m, ChildrenOf(m))] + Pieces(t[m.index + m.length..])
  {
    FoundUsable(t);
  }

  lemma PiecesJoin(a: seq<Node>, b: seq<Node>, n: Node, rest: seq<Node>)
    ensures a + b + [n] + rest == a + (b + [n] + rest)
  {
  }

  /** One round of the loop: the pieces so far grow by those up to the end of the match. */
  lemma PiecesStep(nodes: seq<Node>, t: string, cursor: nat)
    requires cursor < |t| && FindNext(t[cursor..]).Some?
    ensures var slice := t[cursor..];
      var m := FindNext(slice).value;
      && m.index + m.length <= |slice| && m.length > 0
      && (IsEmphasis(m.kind) ==> |m.text| < m.length)
      && nodes + Pieces(slice)
         == nodes + TextBefore(slice, m) + [NodeFor(m, ChildrenOf(m))] + Pieces(t[cursor + m.index + m.length..])
  {
    var slice := t[cursor..];
    var m := FindNext(slice).value;
    PiecesNext(slice);
    hide *;
    assert slice[m.index + m.length..] == t[cursor + m.index + m.length..];
    PiecesJoin(nodes, TextBefore(slice, m), NodeFor(m, ChildrenOf(m)), Pieces(slice[m.index + m.length..]));
  }

  lemma PiecesLast(nodes: seq<Node>, t: string)
    ensures t == "" ==> nodes + Pieces(t) == nodes
    ensures t != "" && FindNext(t).None? ==> nodes + Pieces(t) == nodes + [TextNode(t)]
  {
  }

  method ParseInlineText(t: string) returns (nodes: seq<Node>)
    ensures nodes == ParseInline(t)
    decreases |t|
  {
    hide FindNext;
    hide Pieces;
    hide NodeFor;
    nodes := [];
    var cursor := 0;
    while cursor < |t|
      invariant 0 <= cursor <= |t|
      invariant nodes + Pieces(t[cursor..]) == Pieces(t)
      decreases |t| - cursor
    {
      var slice := t[cursor..];
      var nextMatch := FindNext(slice);
      PiecesLast(nodes, slice);
      if nextMatch.None? {
        nodes := nodes + [TextNode(slice)];
        cursor := |t|;
        PiecesLast(nodes, "");
        break;
      }
      var m := nextMatch.value;
      PiecesStep(nodes, t, cursor);
      ghost var before := nodes;
      if m.index > 0 {
        nodes := nodes + [TextNode(slice[..m.index])];
      }
      assert nodes == before + TextBefore(slice, m);
      var children := [];
      if IsEmphasis(m.kind) {
        children := ParseInlineText(m.text);
      }
      nodes := nodes + [NodeFor(m, children)];
      cursor := cursor + m.index + m.length;
    }
    assert t[|t|..] == "";
    PiecesLast(nodes, "");
    nodes := MergeTextNodes(nodes);
  }

  // ---- printing back ----

  function PrintNode(n: Node): string
    decreases n, 1
  {
    match n
    case TextNode(text) => text
    case BoldNode(children) => "**" + Print(children) + "**"
    case ItalicNode(children) => "_" + Print(children) + "_"
    case StrikethroughNode(children) => "~~" + Print(children) + "~~"
    case SpoilerNode(children) => "||" + Print(children) + "||"
    case CodeNode(text) => "`" + text + "`"
    case LinkNode(text, _) => text
    case MentionNode(text, _) => text
  }

  function Print(nodes: seq<Node>): string
    decreases nodes, 0
  {
    if nodes == [] then "" else PrintNode(nodes[0]) + Print(nodes[1..])
  }

  lemma {:induction false} PrintConcat(a: seq<Node>, b: seq<Node>)
    ensures Print(a + b) == Print(a) + Print(b)
    decreases |a|
  {
    if a == [] {
      assert a + b == b;
    } else {
      PrintConcat(a[1..], b);
      assert (a + b)[1..] == a[1..] + b;
    }
  }

  lemma PrintOne(n: Node)
    ensures Print([n]) == PrintNode(n)
  {
    assert Print([n][1..]) == "";
  }

  /** Extending the last text node prints the same as adding a text node. */
  lemma PrintJoined(merged: seq<Node>, text: string)
    requires merged != [] && merged[|merged| - 1].TextNode?
    ensures var last := |merged| - 1;
      Print(merged[last := TextNode(merged[last].text + text)]) == Print(merged) + text
  {
    var last := |merged| - 1;
    var joined := TextNode(merged[last].text + text);
    assert merged == merged[..last] + [merged[last]];
    assert merged[last := joined] == merged[..last] + [joined];
    PrintConcat(merged[..last], [merged[last]]);
    PrintConcat(merged[..last], [joined]);
    PrintOne(joined);
    PrintOne(merged[last]);
  }

  lemma {:induction false} PrintMergeOnto(merged: seq<Node>, nodes: seq<Node>)
    ensures Print(MergeOnto(merged, nodes)) == Print(merged) + Print(nodes)
    decreases |nodes|
  {
    if nodes != [] {
      var last := |merged| - 1;
      if nodes[0].TextNode? && merged != [] && merged[last].TextNode? {
        PrintJoined(merged, nodes[0].text);
        PrintMergeOnto(merged[last := TextNode(merged[last].text + nodes[0].text)], nodes[1..]);
      } else {
        PrintConcat(merged, [nodes[0]]);
        PrintOne(nodes[0]);
        PrintMergeOnto(merged + [nodes[0]], nodes[1..]);
      }
    }
  }

  lemma PrintMatch(t: string, m: Match, children: seq<Node>)
    requires Usable(t, m) && (IsEmphasis(m.kind) ==> Print(children) == m.text)
    ensures PrintNode(NodeFor(m, children)) == t[m.index..m.index + m.length]
  {
  }

  lemma {:induction false} PrintPieces(t: string)
    ensures Print(Pieces(t)) == t
    decreases |t|, 0
  {
    hide FindNext;
    if t != "" {
      match FindNext(t)
      case None =>
        PrintOne(TextNode(t));
      case Some(m) =>
        FoundUsable(t);
        var children := if IsEmphasis(m.kind) then ParseInline(m.text) else [];
        if IsEmphasis(m.kind) {
          ParseIsLossless(m.text);
        }
        PrintMatch(t, m, children);
        PrintPieces(t[m.index + m.length..]);
        PrintAround(t, m, NodeFor(m, children), Pieces(t[m.index + m.length..]));
    }
  }

  lemma PrintTextBefore(t: string, m: Match)
    requires m.index <= |t|
    ensures Print(TextBefore(t, m)) == t[..m.index]
  {
    PrintOne(TextNode(t[..m.index]));
  }

  lemma PrintAround(t: string, m: Match, n: Node, rest: seq<Node>)
    requires Usable(t, m)
    requires PrintNode(n) == t[m.index..m.index + m.length]
    requires Print(rest) == t[m.index + m.length..]
    ensures Print(TextBefore(t, m) + [n] + rest) == t
  {
    var before := TextBefore(t, m);
    PrintTextBefore(t, m);
    hide Print;
    hide PrintNode;
    hide TextBefore;
    PrintConcat(before + [n], rest);
    PrintConcat(before, [n]);
    PrintOne(n);
    assert t == t[..m.index] + t[m.index..m.index + m.length] + t[m.index + m.length..];
  }

  /** Printing the parse of a text gives the text back, for every text. */
  lemma ParseIsLossless(t: string)
    ensures Print(ParseInline(t)) == t
    decreases |t|, 1
  {
    PrintPieces(t);
    PrintMergeOnto([], Pieces(t));
  }

  // ---- the shape of the result ----

  /** No empty text node and no two adjacent ones. */
  ghost predicate Flat(nodes: seq<Node>) {
    && (forall i :: 0 <= i < |nodes| && nodes[i].TextNode? ==> nodes[i].text != "")
    && (forall i :: 0 < i < |nodes| ==> !(nodes[i - 1].TextNode? && nodes[i].TextNode?))
  }

  ghost predicate FlatNode(n: Node)
    decreases n, 1
  {
    match n
    case BoldNode(children) => FlatAll(children)
    case ItalicNode(children) => FlatAll(children)
    case StrikethroughNode(children) => FlatAll(children)
    case SpoilerNode(children) => FlatAll(children)
    case _ => true
  }

  /** Flat at every level. */
  ghost predicate FlatAll(nodes: seq<Node>)
    decreases nodes, 0
  {
    Flat(nodes) && forall n :: n in nodes ==> FlatNode(n)
  }

  /** Merging a flat list changes nothing. */
  lemma {:induction false} MergeFlat(merged: seq<Node>, nodes: seq<Node>)
    requires Flat(merged + nodes)
    ensures MergeOnto(merged, nodes) == merged + nodes
    decreases |nodes|
  {
    if nodes == [] {
      assert merged + nodes == merged;
    } else {
      if merged != [] {
        assert (merged + nodes)[|merged| - 1] == merged[|merged| - 1];
        assert (merged + nodes)[|merged|] == nodes[0];
      }
      assert merged + [nodes[0]] + nodes[1..] == merged + nodes;
      MergeFlat(merged + [nodes[0]], nodes[1..]);
    }
  }

  lemma NodeForFlat(m: Match, children: seq<Node>)
    requires FlatAll(children)
    ensures !NodeFor(m, children).TextNode? && FlatNode(NodeFor(m, children))
  {
  }

  lemma {:induction false} PiecesFlat(t: string)
    ensures FlatAll(Pieces(t))
    decreases |t|, 0
  {
    hide FindNext;
    if t != "" {
      match FindNext(t)
      case None =>
      case Some(m) =>
        PiecesNext(t);
        if IsEmphasis(m.kind) {
          ParseIsFlat(m.text);
        }
        PiecesFlat(t[m.index + m.length..]);
        NodeForFlat(m, ChildrenOf(m));
        FlatAround(TextBefore(t, m), NodeFor(m, ChildrenOf(m)), Pieces(t[m.index + m.length..]));
    }
  }

  lemma FlatAround(before: seq<Node>, n: Node, rest: seq<Node>)
    requires FlatAll(rest) && !n.TextNode? && FlatNode(n)
    requires before == [] || (|before| == 1 && before[0].TextNode? && before[0].text != "")
    ensures FlatAll(before + [n] + rest)
  {
    var all := before + [n] + rest;
    forall x | x in all ensures FlatNode(x) {
      assert x in before || x == n || x in rest;
    }
    forall i | 0 < i < |all| ensures !(all[i - 1].TextNode? && all[i].TextNode?) {
      if i > |before| + 1 {
        assert all[i] == rest[i - |before| - 1] && all[i - 1] == rest[i - |before| - 2];
      }
    }
  }

  /**
   * The result has no empty and no adjacent text nodes at any level; the pieces
   * never had any, so the final merge has nothing to do.
   */
  lemma ParseIsFlat(t: string)
    ensures FlatAll(ParseInline(t))
    ensures ParseInline(t) == Pieces(t)
    decreases |t|, 1
  {
    PiecesFlat(t);
    assert [] + Pieces(t) == Pieces(t);
    MergeFlat([], Pieces(t));
  }
}
