/**
 * What the inline parse of a text is, said of the nodes and the text without the parser's search
 * (packages/shared/src/message-format.ts): the parser's result is the one list of nodes that reads the text.
 */
module InlineReading {
  import opened Common
  import opened InlinePatterns
  import opened InlineParser

  /** No pattern matches to the left of position i. */
  ghost predicate NothingBefore(t: string, i: nat) {
    forall kind, j: nat, e: nat :: Spans(kind, t, j, e) ==> i <= j
  }

  /** Of the ends at which the expression may stop, the one it picks: the longest link, the shortest emphasis. */
  ghost predicate Picks(kind: Kind, t: string, i: nat, e: nat) {
    && Spans(kind, t, i, e)
    && (kind == Link ==> forall x: nat :: LinkSpan(t, i, x) ==> x <= e)
    && (IsEmphasis(kind) ==>
          var b := i + |Delimiter(kind)|;
          && (forall x: nat :: x < e ==> !LongBody(kind, t, b, x))
          && (e == b + 1 ==> forall x: nat :: !LongBody(kind, t, b, x)))
  }

  /** No pattern of higher priority matches at i. */
  ghost predicate Foremost(kind: Kind, t: string, i: nat) {
    forall k, e: nat :: Spans(k, t, i, e) ==> Priority(kind) <= Priority(k)
  }

  function KindOf(n: Node): Kind
    requires !n.TextNode?
  {
    match n
    case BoldNode(_) => Bold
    case ItalicNode(_) => Italic
    case StrikethroughNode(_) => Strikethrough
    case SpoilerNode(_) => Spoiler
    case CodeNode(_) => Code
    case LinkNode(_, _) => Link
    case MentionNode(_, _) => Mention
  }

  /** The characters between the delimiters. */
  function BodyOf(n: Node): string
    requires !n.TextNode?
  {
    match n
    case BoldNode(children) => Print(children)
    case ItalicNode(children) => Print(children)
    case StrikethroughNode(children) => Print(children)
    case SpoilerNode(children) => Print(children)
    case CodeNode(text) => text
    case LinkNode(text, _) => text
    case MentionNode(text, _) => text
  }

  /** The node stands for the best match that begins at i, and its own content reads the body. */
  ghost predicate NodeAt(n: Node, t: string, i: nat)
    decreases n, 1
  {
    && !n.TextNode?
    && var kind, body := KindOf(n), BodyOf(n);
    && var b := i + |Delimiter(kind)|;
    && Picks(kind, t, i, b + |body|) && Foremost(kind, t, i)
    && At(t, b, body)
    && match n
       case BoldNode(children) => Reads(children, body)
       case ItalicNode(children) => Reads(children, body)
       case StrikethroughNode(children) => Reads(children, body)
       case SpoilerNode(children) => Reads(children, body)
       case CodeNode(_) => true
       case LinkNode(text, url) => url == text
       case MentionNode(text, username) => text == "@" + username
  }

  /** The first node stands at i, and the others read what follows it. */
  ghost predicate GoesOn(nodes: seq<Node>, t: string, i: nat)
    requires nodes != []
    decreases nodes, 1
  {
    && NodeAt(nodes[0], t, i)
    && i + |PrintNode(nodes[0])| <= |t|
    && Reads(nodes[1..], t[i + |PrintNode(nodes[0])|..])
  }

  /**
   * The nodes read the text: text up to the first match, the node of the best match there, and so on with
   * what follows it; text to the end only where nothing matches.
   */
  ghost predicate Reads(nodes: seq<Node>, t: string)
    decreases nodes, 2
  {
    if nodes == [] then t == ""
    else if nodes[0].TextNode? then
      var lead := nodes[0].text;
      && lead != "" && At(t, 0, lead) && NothingBefore(t, |lead|)
      && if nodes[1..] == [] then lead == t else GoesOn(nodes[1..], t, |lead|)
    else GoesOn(nodes, t, 0)
  }

  // ---- the parser's result reads the text ----

  lemma EndAtPicks(kind: Kind, t: string, i: nat)
    requires EndAt(kind, t, i).Some?
    ensures Picks(kind, t, i, EndAt(kind, t, i).value)
  {
    EndAtCorrect(kind, t, i);
    if kind == Link {
      LinkEndCorrect(t, i);
    } else if IsEmphasis(kind) {
      EmphasisEndCorrect(kind, t, i);
    }
    hide LinkSpan;
    hide LongBody;
    hide Emphasised;
  }

  lemma {:induction false} ExecEnds(kind: Kind, t: string, i: nat)
    requires Exec(kind, t, i).Some?
    ensures var m := Exec(kind, t, i).value;
      && m.kind == kind && m.index + |Delimiter(kind)| <= m.index + m.length - |Delimiter(kind)| <= |t|
      && EndAt(kind, t, m.index) == Some(m.index + m.length - |Delimiter(kind)|)
      && m.text == t[m.index + |Delimiter(kind)|..m.index + m.length - |Delimiter(kind)|]
    decreases |t| - i
  {
    hide EndAt;
    if EndAt(kind, t, i).None? {
      ExecEnds(kind, t, i + 1);
    }
  }

  lemma FoundFirst(t: string)
    requires FindNext(t).Some?
    ensures var m := FindNext(t).value; Foremost(m.kind, t, m.index) && NothingBefore(t, m.index)
  {
    FindNextCorrect(t);
    hide FindNext;
    hide Spans;
  }

  lemma FoundPlaced(t: string)
    requires FindNext(t).Some?
    ensures FindNext(t).value.index + FindNext(t).value.length <= |t|
  {
    hide FindNext;
    FoundFits(t);
  }

  lemma AtSlice(t: string, b: nat, e: nat)
    requires b <= e <= |t|
    ensures At(t, b, t[b..e])
  {
  }

  lemma FoundEnd(t: string)
    requires FindNext(t).Some?
    ensures var m := FindNext(t).value;
      && m.index + m.length <= |t|
      && m.length == |Delimiter(m.kind)| + |m.text| + |Delimiter(m.kind)|
      && EndAt(m.kind, t, m.index) == Some(m.index + |Delimiter(m.kind)| + |m.text|)
      && At(t, m.index + |Delimiter(m.kind)|, m.text)
  {
    hide *;
    FoundPlaced(t);
    FoundExec(t);
    var m := FindNext(t).value;
    ExecEnds(m.kind, t, 0);
    AtSlice(t, m.index + |Delimiter(m.kind)|, m.index + m.length - |Delimiter(m.kind)|);
  }

  lemma FoundExec(t: string)
    requires FindNext(t).Some?
    ensures Exec(FindNext(t).value.kind, t, 0) == FindNext(t)
  {
    var kind := CandidateFrom(t, KINDS, FindNext(t).value);
    ExecEnds(kind, t, 0);
    hide Exec;
    hide EndAt;
    hide Delimiter;
  }

  /** Where the search finds a match, that is the first and foremost, with the end its expression picks. */
  lemma FoundPicks(t: string)
    requires FindNext(t).Some?
    ensures var m := FindNext(t).value;
      && Picks(m.kind, t, m.index, m.index + |Delimiter(m.kind)| + |m.text|)
      && Foremost(m.kind, t, m.index) && NothingBefore(t, m.index)
      && At(t, m.index + |Delimiter(m.kind)|, m.text)
      && m.length == |Delimiter(m.kind)| + |m.text| + |Delimiter(m.kind)| && m.index + m.length <= |t|
  {
    FoundFirst(t);
    FoundEnd(t);
    EndAtPicks(FindNext(t).value.kind, t, FindNext(t).value.index);
    hide *;
  }

  lemma KindPrints(n: Node)
    requires !n.TextNode?
    ensures PrintNode(n) == Delimiter(KindOf(n)) + BodyOf(n) + Delimiter(KindOf(n))
  {
  }

  lemma MentionText(t: string, i: nat, text: string)
    requires Picks(Mention, t, i, i + |Delimiter(Mention)| + |text|) && At(t, i + |Delimiter(Mention)|, text)
    ensures text != "" && text == "@" + text[1..]
  {
    assert t[i..i + 1] == "@";
    assert text[0] == t[i];
  }

  lemma NodeForIs(m: Match, children: seq<Node>)
    requires IsEmphasis(m.kind) ==> Print(children) == m.text
    ensures var n := NodeFor(m, children);
      && !n.TextNode? && KindOf(n) == m.kind && BodyOf(n) == m.text
      && match n
         case BoldNode(inner) => inner == children && IsEmphasis(m.kind)
         case ItalicNode(inner) => inner == children && IsEmphasis(m.kind)
         case StrikethroughNode(inner) => inner == children && IsEmphasis(m.kind)
         case SpoilerNode(inner) => inner == children && IsEmphasis(m.kind)
         case CodeNode(_) => m.kind == Code
         case LinkNode(text, url) => m.kind == Link && url == text
         case MentionNode(text, username) => m.kind == Mention && text == m.text
                                             && username == if m.text == "" then "" else m.text[1..]
         case TextNode(_) => false
  {
    hide Print;
  }

  /** A node that stands for the best match at i, with content that reads the body. */
  lemma NodeReads(n: Node, t: string, i: nat)
    requires !n.TextNode? && Foremost(KindOf(n), t, i)
    requires Picks(KindOf(n), t, i, i + |Delimiter(KindOf(n))| + |BodyOf(n)|)
    requires At(t, i + |Delimiter(KindOf(n))|, BodyOf(n))
    requires match n
      case BoldNode(children) => Reads(children, BodyOf(n))
      case ItalicNode(children) => Reads(children, BodyOf(n))
      case StrikethroughNode(children) => Reads(children, BodyOf(n))
      case SpoilerNode(children) => Reads(children, BodyOf(n))
      case CodeNode(_) => true
      case LinkNode(text, url) => url == text
      case MentionNode(text, username) => text == "@" + username
      case TextNode(_) => false
    ensures NodeAt(n, t, i)
  {
    hide Foremost;
    hide Picks;
    hide At;
    hide KindOf;
    hide BodyOf;
    hide Reads;
  }

  /** A match and the parse of its body make a node that reads it. */
  lemma MatchReads(t: string, m: Match, children: seq<Node>)
    requires Picks(m.kind, t, m.index, m.index + |Delimiter(m.kind)| + |m.text|) && Foremost(m.kind, t, m.index)
    requires At(t, m.index + |Delimiter(m.kind)|, m.text)
    requires IsEmphasis(m.kind) ==> Reads(children, m.text) && Print(children) == m.text
    ensures !NodeFor(m, children).TextNode?
    ensures KindOf(NodeFor(m, children)) == m.kind && BodyOf(NodeFor(m, children)) == m.text
    ensures NodeAt(NodeFor(m, children), t, m.index)
  {
    hide *;
    NodeForIs(m, children);
    if m.kind == Mention {
      MentionText(t, m.index, m.text);
    }
    NodeReads(NodeFor(m, children), t, m.index);
  }

  /** A text node up to the match, the node of the match, and what reads the rest. */
  lemma ReadsAround(t: string, m: Match, nodes: seq<Node>)
    requires m.index <= |t| && NothingBefore(t, m.index)
    requires nodes != [] && !nodes[0].TextNode? && GoesOn(nodes, t, m.index)
    ensures Reads(TextBefore(t, m) + nodes, t)
  {
    hide GoesOn;
    hide NothingBefore;
    var all := TextBefore(t, m) + nodes;
    if m.index > 0 {
      assert all[0] == TextNode(t[..m.index]) && all[1..] == nodes;
    } else {
      assert all == nodes;
    }
  }

  lemma GoesOnWith(t: string, m: Match, n: Node, rest: seq<Node>)
    requires !n.TextNode? && NodeAt(n, t, m.index) && m.index + |PrintNode(n)| <= |t|
    requires Reads(rest, t[m.index + |PrintNode(n)|..])
    ensures GoesOn([n] + rest, t, m.index)
  {
    hide NodeAt;
    hide Reads;
    hide PrintNode;
    assert ([n] + rest)[1..] == rest;
  }

  lemma NothingRead(t: string)
    requires t != "" && FindNext(t).None?
    ensures Reads(Pieces(t), t)
  {
    FindNextCorrect(t);
    hide FindNext;
    hide Spans;
    assert Pieces(t) == [TextNode(t)];
    assert [TextNode(t)][1..] == [];
  }

  lemma MatchGoesOn(t: string, m: Match, children: seq<Node>, rest: seq<Node>)
    requires FindNext(t) == Some(m) && m.index + m.length <= |t|
    requires IsEmphasis(m.kind) ==> Reads(children, m.text) && Print(children) == m.text
    requires Reads(rest, t[m.index + m.length..])
    ensures Reads(TextBefore(t, m) + [NodeFor(m, children)] + rest, t)
  {
    hide *;
    FoundPicks(t);
    MatchReads(t, m, children);
    KindPrints(NodeFor(m, children));
    GoesOnWith(t, m, NodeFor(m, children), rest);
    ReadsAround(t, m, [NodeFor(m, children)] + rest);
    assert TextBefore(t, m) + ([NodeFor(m, children)] + rest) == TextBefore(t, m) + [NodeFor(m, children)] + rest;
  }

  lemma {:induction false} PiecesRead(t: string)
    ensures Reads(Pieces(t), t)
    decreases |t|
  {
    hide FindNext;
    hide Reads;
    if t == "" {
      EmptyRead();
    } else if FindNext(t).None? {
      NothingRead(t);
    } else {
      var m := FindNext(t).value;
      PiecesNext(t);
      var rest := Pieces(t[m.index + m.length..]);
      if IsEmphasis(m.kind) {
        PiecesRead(m.text);
        ParseIsFlat(m.text);
        ParseIsLossless(m.text);
      }
      PiecesRead(t[m.index + m.length..]);
      MatchGoesOn(t, m, ChildrenOf(m), rest);
    }
  }

  lemma EmptyRead()
    ensures Reads(Pieces(""), "")
  {
  }

  // ---- and nothing else does ----

  lemma PicksUnique(kind: Kind, t: string, i: nat, e: nat, e': nat)
    requires Picks(kind, t, i, e) && Picks(kind, t, i, e')
    ensures e == e'
  {
    match kind
    case Link =>
    case Code => CodeEndCorrect(t, i); CodeEndUnique(t, i, e); CodeEndUnique(t, i, e');
    case Mention => MentionEndUnique(t, i, e); MentionEndUnique(t, i, e');
    case _ =>
      hide LongBody;
  }

  lemma CodeEndUnique(t: string, i: nat, e: nat)
    requires CodeSpan(t, i, e)
    ensures e == CodeRunEnd(t, i + 1)
  {
    assert t[e] == t[e..e + 1][0];
  }

  lemma MentionEndUnique(t: string, i: nat, e: nat)
    requires MentionSpan(t, i, e)
    ensures e == NameRunEnd(t, i + 1)
  {
  }

  lemma NodePicks(n: Node, t: string, i: nat)
    requires NodeAt(n, t, i)
    ensures !n.TextNode? && Foremost(KindOf(n), t, i)
    ensures var b := i + |Delimiter(KindOf(n))|;
      && Picks(KindOf(n), t, i, b + |BodyOf(n)|) && Spans(KindOf(n), t, i, b + |BodyOf(n)|)
      && b + |BodyOf(n)| <= |t| && BodyOf(n) == t[b..b + |BodyOf(n)|]
  {
    hide Foremost;
    hide Spans;
    hide Reads;
    hide KindOf;
    hide BodyOf;
  }

  /** The character with which matches of a kind begin. */
  function FirstOf(kind: Kind): char {
    match kind
    case Link => 'h'
    case Mention => '@'
    case Code => '`'
    case Spoiler => '|'
    case Bold => '*'
    case Strikethrough => '~'
    case Italic => '_'
  }

  lemma AtFirst(q: string, x: nat, d: string)
    requires d != ""
    ensures At(q, x, d) ==> x < |q| && q[x] == d[0]
  {
    if At(q, x, d) {
      assert q[x] == q[x..x + |d|][0];
    }
  }

  lemma SpanFirst(kind: Kind, t: string, i: nat, e: nat)
    requires Spans(kind, t, i, e)
    ensures i < |t| && t[i] == FirstOf(kind)
  {
    SpanBounds(kind, t, i, e);
    match kind
    case Link =>
      AtFirst(t, i, "https://");
      AtFirst(t, i, "http://");
    case Mention => AtFirst(t, i, "@");
    case Code => AtFirst(t, i, "`");
    case _ => AtFirst(t, i, Delimiter(kind));
  }

  /** At one place at most one pattern matches, so the priorities never decide. */
  lemma OneKindPerPlace(k: Kind, l: Kind, t: string, i: nat, x: nat, y: nat)
    requires Spans(k, t, i, x) && Spans(l, t, i, y)
    ensures k == l
  {
    SpanFirst(k, t, i, x);
    SpanFirst(l, t, i, y);
    hide Spans;
  }

  /** Nodes that read the same place are of one kind and have one body. */
  lemma SameKindAndBody(m: Node, n: Node, t: string, i: nat)
    requires NodeAt(m, t, i) && NodeAt(n, t, i)
    ensures !m.TextNode? && !n.TextNode? && KindOf(m) == KindOf(n) && BodyOf(m) == BodyOf(n)
  {
    hide *;
    NodePicks(m, t, i);
    NodePicks(n, t, i);
    var b, b' := i + |Delimiter(KindOf(m))|, i + |Delimiter(KindOf(n))|;
    OneKindPerPlace(KindOf(m), KindOf(n), t, i, b + |BodyOf(m)|, b' + |BodyOf(n)|);
    PicksUnique(KindOf(m), t, i, b + |BodyOf(m)|, b + |BodyOf(n)|);
  }

  lemma NodeInside(n: Node, t: string, i: nat)
    requires NodeAt(n, t, i)
    ensures !n.TextNode? && i < |t| && |PrintNode(n)| > 0
    ensures forall k: nat :: NothingBefore(t, k) ==> k <= i
  {
    NodePicks(n, t, i);
    KindPrints(n);
    var e := i + |Delimiter(KindOf(n))| + |BodyOf(n)|;
    SpanBounds(KindOf(n), t, i, e);
    hide NodeAt;
    hide Picks;
    hide Spans;
    hide BodyOf;
    hide KindOf;
    hide Delimiter;
    hide PrintNode;
  }

  lemma NodeContent(n: Node, t: string, i: nat)
    requires NodeAt(n, t, i)
    ensures match n
      case BoldNode(children) => Reads(children, BodyOf(n))
      case ItalicNode(children) => Reads(children, BodyOf(n))
      case StrikethroughNode(children) => Reads(children, BodyOf(n))
      case SpoilerNode(children) => Reads(children, BodyOf(n))
      case CodeNode(text) => text == BodyOf(n)
      case LinkNode(text, url) => text == BodyOf(n) && url == BodyOf(n)
      case MentionNode(text, username) => text == BodyOf(n) && BodyOf(n) == "@" + username
      case TextNode(_) => false
  {
    hide Picks;
    hide Foremost;
    hide At;
    hide Reads;
  }

  lemma SameConstructor(m: Node, n: Node)
    requires !m.TextNode? && !n.TextNode? && KindOf(m) == KindOf(n)
    ensures m.BoldNode? <==> n.BoldNode?
    ensures m.ItalicNode? <==> n.ItalicNode?
    ensures m.StrikethroughNode? <==> n.StrikethroughNode?
    ensures m.SpoilerNode? <==> n.SpoilerNode?
    ensures m.CodeNode? <==> n.CodeNode?
    ensures m.LinkNode? <==> n.LinkNode?
  {
  }

  lemma AfterAt(a: string, b: string)
    requires "@" + a == "@" + b
    ensures a == b
  {
    assert ("@" + a)[1..] == a && ("@" + b)[1..] == b;
  }

  /** Two readings of the same place are the same node. */
  lemma {:induction false} NodeUnique(m: Node, n: Node, t: string, i: nat)
    requires NodeAt(m, t, i) && NodeAt(n, t, i)
    ensures m == n
    decreases m, 1
  {
    hide *;
    SameKindAndBody(m, n, t, i);
    SameConstructor(m, n);
    NodeContent(m, t, i);
    NodeContent(n, t, i);
    match m
    case BoldNode(children) => ReadsUnique(children, n.children, BodyOf(m));
    case ItalicNode(children) => ReadsUnique(children, n.children, BodyOf(m));
    case StrikethroughNode(children) => ReadsUnique(children, n.children, BodyOf(m));
    case SpoilerNode(children) => ReadsUnique(children, n.children, BodyOf(m));
    case CodeNode(_) =>
    case LinkNode(_, _) =>
    case MentionNode(_, username) => AfterAt(username, n.username);
  }

  lemma GoesOnParts(nodes: seq<Node>, t: string, i: nat)
    requires nodes != [] && GoesOn(nodes, t, i)
    ensures NodeAt(nodes[0], t, i) && i + |PrintNode(nodes[0])| <= |t|
    ensures Reads(nodes[1..], t[i + |PrintNode(nodes[0])|..])
    ensures nodes == [nodes[0]] + nodes[1..]
  {
    hide NodeAt;
    hide Reads;
    hide PrintNode;
  }

  lemma {:induction false} GoesOnUnique(a: seq<Node>, b: seq<Node>, t: string, i: nat)
    requires a != [] && b != [] && GoesOn(a, t, i) && GoesOn(b, t, i)
    ensures a == b
    decreases a, 2
  {
    hide *;
    GoesOnParts(a, t, i);
    GoesOnParts(b, t, i);
    NodeUnique(a[0], b[0], t, i);
    ReadsUnique(a[1..], b[1..], t[i + |PrintNode(a[0])|..]);
  }

  /** Where the first node that is not text stands, if there is one. */
  function NodeStart(nodes: seq<Node>): nat {
    if nodes != [] && nodes[0].TextNode? then |nodes[0].text| else 0
  }

  function FromNode(nodes: seq<Node>): seq<Node> {
    if nodes != [] && nodes[0].TextNode? then nodes[1..] else nodes
  }

  lemma ReadsShape(nodes: seq<Node>, t: string)
    requires Reads(nodes, t)
    ensures NodeStart(nodes) <= |t| && NothingBefore(t, NodeStart(nodes))
    ensures nodes == (if NodeStart(nodes) == 0 then [] else [TextNode(t[..NodeStart(nodes)])]) + FromNode(nodes)
    ensures |FromNode(nodes)| <= |nodes| && (NodeStart(nodes) > 0 ==> |FromNode(nodes)| < |nodes|)
    ensures FromNode(nodes) == [] ==> NodeStart(nodes) == |t|
    ensures FromNode(nodes) != [] ==>
      GoesOn(FromNode(nodes), t, NodeStart(nodes)) && NodeAt(FromNode(nodes)[0], t, NodeStart(nodes))
  {
    hide NodeAt;
  }

  /** Two readings of a text come to their first node at the same place, or both to none. */
  lemma SameStart(a: seq<Node>, b: seq<Node>, t: string)
    requires Reads(a, t) && Reads(b, t)
    ensures NodeStart(a) == NodeStart(b)
    ensures FromNode(a) == [] <==> FromNode(b) == []
  {
    ReadsShape(a, t);
    ReadsShape(b, t);
    hide *;
    if FromNode(a) != [] {
      NodeInside(FromNode(a)[0], t, NodeStart(a));
    }
    if FromNode(b) != [] {
      NodeInside(FromNode(b)[0], t, NodeStart(b));
    }
  }

  lemma FromNodeSmaller(nodes: seq<Node>)
    ensures FromNode(nodes) == nodes || (nodes != [] && FromNode(nodes) == nodes[1..])
  {
  }

  /** At most one list of nodes reads a text. */
  lemma {:induction false} ReadsUnique(a: seq<Node>, b: seq<Node>, t: string)
    requires Reads(a, t) && Reads(b, t)
    ensures a == b
    decreases a, 3
  {
    hide *;
    SameStart(a, b, t);
    ReadsShape(a, t);
    ReadsShape(b, t);
    FromNodeSmaller(a);
    if FromNode(a) != [] {
      GoesOnUnique(FromNode(a), FromNode(b), t, NodeStart(a));
    }
  }

  /** The parse of a text is the one list of nodes that reads it. */
  lemma ParseReadsExactly(nodes: seq<Node>, t: string)
    ensures Reads(nodes, t) <==> nodes == ParseInline(t)
  {
    PiecesRead(t);
    ParseIsFlat(t);
    if Reads(nodes, t) {
      ReadsUnique(nodes, ParseInline(t), t);
    }
    hide *;
  }
}
