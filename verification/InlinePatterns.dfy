/**
 * The seven inline patterns of packages/shared/src/message-format.ts: for each the language of its regular
 * expression, as a predicate on a stretch of the text, and a matcher that picks what its search picks.
 */
module InlinePatterns {
  import opened Common

  /** In the order in which the parser prefers them. */
  datatype Kind = Link | Code | Spoiler | Mention | Bold | Strikethrough | Italic

  datatype Match = Match(kind: Kind, index: nat, length: nat, text: string)

  // ---- character classes ----

  /** The white space of \s and of trim. */
  predicate IsSpace(ch: char) {
    var n := ch as int;
    || 0x9 <= n <= 0xD || n == 0x20 || n == 0xA0 || n == 0x1680 || 0x2000 <= n <= 0x200A
    || n == 0x2028 || n == 0x2029 || n == 0x202F || n == 0x205F || n == 0x3000 || n == 0xFEFF
  }

  predicate IsAlphanumeric(ch: char) {
    'A' <= ch <= 'Z' || 'a' <= ch <= 'z' || '0' <= ch <= '9'
  }

  /** The \w class. */
  predicate IsWord(ch: char) {
    IsAlphanumeric(ch) || ch == '_'
  }

  /** The characters of a user name. */
  predicate IsName(ch: char) {
    IsWord(ch) || ch == '-'
  }

  /** What "." does not match. */
  predicate IsLineTerminator(ch: char) {
    ch == '\n' || ch == '\r' || ch as int == 0x2028 || ch as int == 0x2029
  }

  predicate IsUrl(ch: char) {
    !IsSpace(ch) && ch != '<' && ch != '>' && ch != '"' && ch != '\''
  }

  predicate IsUrlEnd(ch: char) {
    IsUrl(ch) && ch !in ".,!?;:)"
  }

  predicate At(t: string, i: nat, s: string) {
    i + |s| <= |t| && t[i..i + |s|] == s
  }

  // ---- opener, closer and the character the body may not begin or end with ----

  function Delimiter(kind: Kind): string {
    match kind
    case Code => "`"
    case Spoiler => "||"
    case Bold => "**"
    case Strikethrough => "~~"
    case Italic => "_"
    case Link => ""
    case Mention => ""
  }

  predicate IsEmphasis(kind: Kind) {
    kind in {Spoiler, Bold, Strikethrough, Italic}
  }

  /** Allowed as the first and the last character of an emphasised body. */
  predicate IsEdge(kind: Kind, ch: char)
    requires IsEmphasis(kind)
  {
    ch != Delimiter(kind)[0] && ch != '\n'
  }

  // ---- emphasis: opener, edge character, (lazily: any characters, edge character)?, closer ----

  /** A body of two characters or more that begins at b and ends at e, before a closer. */
  ghost predicate LongBody(kind: Kind, t: string, b: nat, e: nat)
    requires IsEmphasis(kind)
  {
    && b + 2 <= e <= |t|
    && IsEdge(kind, t[e - 1])
    && (forall k :: b < k < e - 1 ==> !IsLineTerminator(t[k]))
    && At(t, e, Delimiter(kind))
  }

  /** The expression matches at i with its body ending at e. */
  ghost predicate Emphasised(kind: Kind, t: string, i: nat, e: nat)
    requires IsEmphasis(kind)
  {
    var b := i + |Delimiter(kind)|;
    && At(t, i, Delimiter(kind))
    && b < |t| && IsEdge(kind, t[b])
    && (LongBody(kind, t, b, e) || (e == b + 1 && At(t, e, Delimiter(kind))))
  }

  /** Search the end of a body of two characters or more, from e upward. */
  function LongEnd(kind: Kind, t: string, b: nat, e: nat): (r: Option<nat>)
    requires IsEmphasis(kind) && b + 2 <= e
    decreases |t| - e
  {
    if e + |Delimiter(kind)| > |t| then None
    else if IsEdge(kind, t[e - 1]) && At(t, e, Delimiter(kind)) then Some(e)
    else if IsLineTerminator(t[e - 1]) then None
    else LongEnd(kind, t, b, e + 1)
  }

  /** The optional part is tried first, so a one-character body is the last resort. */
  function EmphasisEnd(kind: Kind, t: string, i: nat): Option<nat>
    requires IsEmphasis(kind)
  {
    var d := Delimiter(kind);
    var b := i + |d|;
    if !At(t, i, d) || b >= |t| || !IsEdge(kind, t[b]) then None
    else match LongEnd(kind, t, b, b + 2)
      case Some(e) => Some(e)
      case None => if At(t, b + 1, d) then Some(b + 1) else None
  }

  lemma {:induction false} LongEndFound(kind: Kind, t: string, b: nat, e: nat)
    requires IsEmphasis(kind) && b + 2 <= e && LongEnd(kind, t, b, e).Some?
    requires forall k :: b < k < e - 1 ==> k < |t| && !IsLineTerminator(t[k])
    ensures e <= LongEnd(kind, t, b, e).value && LongBody(kind, t, b, LongEnd(kind, t, b, e).value)
    decreases |t| - e
  {
    if !(IsEdge(kind, t[e - 1]) && At(t, e, Delimiter(kind))) {
      LongEndFound(kind, t, b, e + 1);
    }
  }

  /** No long body ends before the one that is found; if none is found there is none. */
  lemma {:induction false} LongEndFirst(kind: Kind, t: string, b: nat, e: nat, x: nat)
    requires IsEmphasis(kind) && b + 2 <= e <= x
    requires LongEnd(kind, t, b, e).Some? ==> x < LongEnd(kind, t, b, e).value
    ensures !LongBody(kind, t, b, x)
    decreases |t| - e
  {
    if LongBody(kind, t, b, x) && x > e {
      LongEndFirst(kind, t, b, e + 1, x);
    }
  }

  lemma LongEndCorrect(kind: Kind, t: string, b: nat)
    requires IsEmphasis(kind)
    ensures (match LongEnd(kind, t, b, b + 2)
      case Some(e) =>
        b + 2 <= e && LongBody(kind, t, b, e) && forall x: nat :: x < e ==> !LongBody(kind, t, b, x)
      case None => forall x: nat :: !LongBody(kind, t, b, x))
  {
    if LongEnd(kind, t, b, b + 2).Some? {
      LongEndFound(kind, t, b, b + 2);
    }
    hide LongEnd;
    forall x: nat | LongEnd(kind, t, b, b + 2).Some? ==> x < LongEnd(kind, t, b, b + 2).value
      ensures !LongBody(kind, t, b, x)
    {
      if b + 2 <= x {
        LongEndFirst(kind, t, b, b + 2, x);
      }
    }
    hide LongBody;
  }

  /**
   * The matcher finds a body wherever the expression has one, and only there: the
   * shortest of at least two characters, and failing that one of one character.
   */
  lemma EmphasisEndCorrect(kind: Kind, t: string, i: nat)
    requires IsEmphasis(kind)
    ensures var b := i + |Delimiter(kind)|;
      (match EmphasisEnd(kind, t, i)
      case Some(e) =>
        && Emphasised(kind, t, i, e)
        && (forall x: nat :: x < e ==> !LongBody(kind, t, b, x))
        && (e == b + 1 ==> forall x: nat :: !LongBody(kind, t, b, x))
      case None => forall e: nat :: !Emphasised(kind, t, i, e))
  {
    hide LongEnd;
    hide LongBody;
    LongEndCorrect(kind, t, i + |Delimiter(kind)|);
  }

  // ---- inline code: a backtick, characters other than backtick and newline, a backtick ----

  ghost predicate CodeSpan(t: string, i: nat, e: nat) {
    && At(t, i, "`")
    && i + 1 < e
    && At(t, e, "`")
    && (forall k :: i < k < e ==> t[k] != '`' && t[k] != '\n')
  }

  function CodeRunEnd(t: string, e: nat): (r: nat)
    requires e <= |t|
    ensures e <= r <= |t|
    ensures forall k :: e <= k < r ==> t[k] != '`' && t[k] != '\n'
    ensures r < |t| ==> t[r] == '`' || t[r] == '\n'
    decreases |t| - e
  {
    if e < |t| && t[e] != '`' && t[e] != '\n' then CodeRunEnd(t, e + 1) else e
  }

  function CodeEnd(t: string, i: nat): Option<nat> {
    if !At(t, i, "`") then None
    else
      var e := CodeRunEnd(t, i + 1);
      if e > i + 1 && At(t, e, "`") then Some(e) else None
  }

  lemma CodeEndCorrect(t: string, i: nat)
    ensures (match CodeEnd(t, i)
      case Some(e) => CodeSpan(t, i, e)
      case None => forall e: nat :: !CodeSpan(t, i, e))
  {
    forall e: nat | CodeSpan(t, i, e) ensures CodeRunEnd(t, i + 1) == e {
      assert t[e] == t[e..e + 1][0];
    }
  }

  // ---- links: at a word boundary, http or https, ://, URL characters, a URL end character ----

  /** Where the address after "://" begins. */
  function SchemeEnd(t: string, i: nat): Option<nat> {
    if i > 0 && i <= |t| && IsWord(t[i - 1]) then None
    else if At(t, i, "https://") then Some(i + 8)
    else if At(t, i, "http://") then Some(i + 7)
    else None
  }

  ghost predicate LinkSpan(t: string, i: nat, e: nat) {
    && SchemeEnd(t, i).Some?
    && SchemeEnd(t, i).value + 2 <= e <= |t|
    && (forall k :: SchemeEnd(t, i).value <= k < e ==> IsUrl(t[k]))
    && IsUrlEnd(t[e - 1])
  }

  function UrlRunEnd(t: string, e: nat): (r: nat)
    requires e <= |t|
    ensures e <= r <= |t|
    ensures forall k :: e <= k < r ==> IsUrl(t[k])
    ensures r < |t| ==> !IsUrl(t[r])
    decreases |t| - e
  {
    if e < |t| && IsUrl(t[e]) then UrlRunEnd(t, e + 1) else e
  }

  /** Give back characters from the end until the last one may end a URL. */
  function GiveBack(t: string, b: nat, e: nat): (r: Option<nat>)
    requires e <= |t|
    ensures r.Some? ==> b + 2 <= r.value <= e && IsUrlEnd(t[r.value - 1])
    ensures forall k :: b < k < e && IsUrlEnd(t[k]) ==> r.Some? && k < r.value
  {
    if e < b + 2 then None
    else if IsUrlEnd(t[e - 1]) then Some(e)
    else GiveBack(t, b, e - 1)
  }

  function LinkEnd(t: string, i: nat): Option<nat> {
    match SchemeEnd(t, i)
    case None => None
    case Some(b) => if b > |t| then None else GiveBack(t, b, UrlRunEnd(t, b))
  }

  /** The matcher finds the longest link that starts at i. */
  lemma LinkEndCorrect(t: string, i: nat)
    ensures (match LinkEnd(t, i)
      case Some(e) => LinkSpan(t, i, e) && forall x: nat :: LinkSpan(t, i, x) ==> x <= e
      case None => forall x: nat :: !LinkSpan(t, i, x))
  {
    forall x: nat | LinkSpan(t, i, x) ensures x <= UrlRunEnd(t, SchemeEnd(t, i).value) {
    }
  }

  // ---- mentions: @ and 3 to 64 name characters, not preceded or followed by one ----

  function NameRunEnd(t: string, e: nat): (r: nat)
    requires e <= |t|
    ensures e <= r <= |t|
    ensures forall k :: e <= k < r ==> IsName(t[k])
    ensures r < |t| ==> !IsName(t[r])
    decreases |t| - e
  {
    if e < |t| && IsName(t[e]) then NameRunEnd(t, e + 1) else e
  }

  ghost predicate MentionSpan(t: string, q: nat, e: nat) {
    && At(t, q, "@")
    && q + 4 <= e <= q + 65 && e <= |t|
    && (forall k :: q < k < e ==> IsName(t[k]))
    && (e < |t| ==> !IsName(t[e]))
    && (q > 0 ==> !IsName(t[q - 1]) && t[q - 1] != '@')
  }

  /** A mention whose @ is at q. */
  function MentionEnd(t: string, q: nat): Option<nat> {
    if !At(t, q, "@") || (q > 0 && (IsName(t[q - 1]) || t[q - 1] == '@')) then None
    else
      var e := NameRunEnd(t, q + 1);
      if q + 4 <= e <= q + 65 then Some(e) else None
  }

  lemma MentionEndCorrect(t: string, q: nat)
    ensures (match MentionEnd(t, q)
      case Some(e) => MentionSpan(t, q, e)
      case None => forall e: nat :: !MentionSpan(t, q, e))
  {
    forall e: nat | MentionSpan(t, q, e) ensures NameRunEnd(t, q + 1) == e {
    }
  }

  // ---- one pattern over the whole text ----

  /** What a match of this kind that begins at i spans. */
  ghost predicate Spans(kind: Kind, t: string, i: nat, e: nat) {
    match kind
    case Link => LinkSpan(t, i, e)
    case Code => CodeSpan(t, i, e)
    case Mention => MentionSpan(t, i, e)
    case _ => Emphasised(kind, t, i, e)
  }

  function EndAt(kind: Kind, t: string, i: nat): Option<nat> {
    match kind
    case Link => LinkEnd(t, i)
    case Code => CodeEnd(t, i)
    case Mention => MentionEnd(t, i)
    case _ => EmphasisEnd(kind, t, i)
  }

  lemma EndAtCorrect(kind: Kind, t: string, i: nat)
    ensures (match EndAt(kind, t, i)
      case Some(e) => Spans(kind, t, i, e)
      case None => forall e: nat :: !Spans(kind, t, i, e))
  {
    match kind
    case Link => LinkEndCorrect(t, i);
    case Code => CodeEndCorrect(t, i);
    case Mention => MentionEndCorrect(t, i);
    case _ => EmphasisEndCorrect(kind, t, i);
  }

  /** The match that begins at i and whose body ends at e. */
  function MatchOf(kind: Kind, t: string, i: nat, e: nat): Match
    requires i + |Delimiter(kind)| <= e <= |t|
  {
    Match(kind, i, e + |Delimiter(kind)| - i, t[i + |Delimiter(kind)|..e])
  }

  /** Search from i to the right. */
  function Exec(kind: Kind, t: string, i: nat): Option<Match>
    decreases |t| - i
  {
    if i > |t| then None
    else match EndAt(kind, t, i)
      case Some(e) => if i + |Delimiter(kind)| <= e <= |t| then Some(MatchOf(kind, t, i, e)) else None
      case None => Exec(kind, t, i + 1)
  }

  /** The match is a stretch of the text: opener, a body that is not empty, closer. */
  predicate WellPlaced(t: string, m: Match) {
    && m.index + m.length <= |t|
    && m.text != ""
    && t[m.index..m.index + m.length] == Delimiter(m.kind) + m.text + Delimiter(m.kind)
  }

  lemma SpanBounds(kind: Kind, t: string, i: nat, e: nat)
    requires Spans(kind, t, i, e)
    ensures i + |Delimiter(kind)| < e && e + |Delimiter(kind)| <= |t|
    ensures At(t, i, Delimiter(kind)) && At(t, e, Delimiter(kind))
  {
  }

  lemma ThreeParts(t: string, a: nat, b: nat, e: nat, f: nat)
    requires a <= b <= e <= f <= |t|
    ensures t[a..f] == t[a..b] + t[b..e] + t[e..f]
  {
  }

  lemma SpanWellPlaced(kind: Kind, t: string, i: nat, e: nat)
    requires Spans(kind, t, i, e)
    ensures i + |Delimiter(kind)| < e && e + |Delimiter(kind)| <= |t|
    ensures WellPlaced(t, MatchOf(kind, t, i, e))
  {
    SpanBounds(kind, t, i, e);
    ThreeParts(t, i, i + |Delimiter(kind)|, e, e + |Delimiter(kind)|);
  }

  /** The pattern does not match at i. */
  ghost predicate NoSpan(kind: Kind, t: string, i: nat) {
    forall e: nat :: !Spans(kind, t, i, e)
  }

  /** The match spans what its pattern matches. */
  ghost predicate Fits(t: string, m: Match) {
    m.length >= |Delimiter(m.kind)| && Spans(m.kind, t, m.index, m.index + m.length - |Delimiter(m.kind)|)
  }

  lemma HitFits(kind: Kind, t: string, i: nat, e: nat)
    requires EndAt(kind, t, i) == Some(e)
    ensures Exec(kind, t, i).Some?
    ensures var m := Exec(kind, t, i).value;
      m.kind == kind && m.index == i && WellPlaced(t, m) && Fits(t, m)
  {
    EndAtCorrect(kind, t, i);
    SpanWellPlaced(kind, t, i, e);
    hide Spans;
    hide EndAt;
    hide WellPlaced;
    hide At;
  }

  lemma MissGoesOn(kind: Kind, t: string, i: nat)
    requires i <= |t| && EndAt(kind, t, i).None?
    ensures Exec(kind, t, i) == Exec(kind, t, i + 1)
    ensures NoSpan(kind, t, i)
  {
    EndAtCorrect(kind, t, i);
  }

  /** What the search finds is a stretch that the pattern matches. */
  lemma {:induction false} ExecFits(kind: Kind, t: string, i: nat)
    ensures Exec(kind, t, i).Some? ==>
      var m := Exec(kind, t, i).value;
      m.kind == kind && i <= m.index && WellPlaced(t, m) && Fits(t, m)
    decreases |t| - i
  {
    hide EndAt;
    hide WellPlaced;
    hide Fits;
    if i <= |t| {
      if EndAt(kind, t, i).Some? {
        HitFits(kind, t, i, EndAt(kind, t, i).value);
      } else {
        MissGoesOn(kind, t, i);
        ExecFits(kind, t, i + 1);
      }
    }
  }

  /** And it is the leftmost one; when the search finds nothing there is none. */
  lemma {:induction false} ExecLeftmost(kind: Kind, t: string, i: nat, j: nat)
    requires i <= j <= |t|
    requires Exec(kind, t, i).Some? ==> j < Exec(kind, t, i).value.index
    ensures NoSpan(kind, t, j)
    decreases |t| - i
  {
    if EndAt(kind, t, i).Some? {
      HitFits(kind, t, i, EndAt(kind, t, i).value);
    } else {
      MissGoesOn(kind, t, i);
      if i < j {
        ExecLeftmost(kind, t, i + 1, j);
      }
    }
  }

  // ---- the next match of any kind ----

  function Priority(kind: Kind): nat {
    match kind
    case Link => 0
    case Code => 1
    case Spoiler => 2
    case Mention => 3
    case Bold => 4
    case Strikethrough => 5
    case Italic => 6
  }

  predicate Before(a: Match, b: Match) {
    a.index < b.index || (a.index == b.index && Priority(a.kind) <= Priority(b.kind))
  }

  /** The patterns in the order in which they are tried. */
  const KINDS: seq<Kind> := [Link, Code, Spoiler, Mention, Bold, Strikethrough, Italic]

  function Candidates(t: string, kinds: seq<Kind>): seq<Match> {
    if kinds == [] then []
    else
      match Exec(kinds[0], t, 0)
      case Some(m) => [m] + Candidates(t, kinds[1..])
      case None => Candidates(t, kinds[1..])
  }

  lemma {:induction false} CandidateOf(t: string, kinds: seq<Kind>, kind: Kind)
    requires kind in kinds && Exec(kind, t, 0).Some?
    ensures Exec(kind, t, 0).value in Candidates(t, kinds)
  {
    if kinds[0] != kind {
      CandidateOf(t, kinds[1..], kind);
    }
  }

  lemma {:induction false} CandidateFrom(t: string, kinds: seq<Kind>, m: Match) returns (kind: Kind)
    requires m in Candidates(t, kinds)
    ensures Exec(kind, t, 0) == Some(m)
  {
    if Exec(kinds[0], t, 0) == Some(m) {
      kind := kinds[0];
    } else {
      kind := CandidateFrom(t, kinds[1..], m);
    }
  }

  /** The first of the candidates when they are sorted by index and then by priority. */
  function First(ms: seq<Match>): (r: Match)
    requires ms != []
    ensures r in ms && forall m :: m in ms ==> Before(r, m)
  {
    if |ms| == 1 then ms[0]
    else
      var rest := First(ms[1..]);
      assert ms == [ms[0]] + ms[1..];
      if Before(ms[0], rest) then ms[0] else rest
  }

  function FindNext(t: string): Option<Match> {
    var ms := Candidates(t, KINDS);
    if ms == [] then None else Some(First(ms))
  }

  lemma AllKinds(kind: Kind)
    ensures kind in KINDS
  {
    match kind
    case Link => assert KINDS[0] == kind;
    case Code => assert KINDS[1] == kind;
    case Spoiler => assert KINDS[2] == kind;
    case Mention => assert KINDS[3] == kind;
    case Bold => assert KINDS[4] == kind;
    case Strikethrough => assert KINDS[5] == kind;
    case Italic => assert KINDS[6] == kind;
  }

  /**
   * The chosen match is a stretch that its pattern matches, and no pattern matches
   * to the left of it, nor one of higher priority at the same place; if nothing is
   * chosen no pattern matches anywhere.
   */
  lemma FindNextCorrect(t: string)
    ensures (match FindNext(t)
      case Some(m) =>
        && WellPlaced(t, m) && Fits(t, m)
        && (forall kind, j: nat, e: nat :: Spans(kind, t, j, e) ==>
              m.index < j || (m.index == j && Priority(m.kind) <= Priority(kind)))
      case None => forall kind, j: nat, e: nat :: !Spans(kind, t, j, e))
  {
    forall kind, j: nat, e: nat | Spans(kind, t, j, e)
      ensures FindNext(t).Some?
      ensures var m := FindNext(t).value; m.index < j || (m.index == j && Priority(m.kind) <= Priority(kind))
    {
      SpanIsCandidate(kind, t, j, e);
    }
    if FindNext(t).Some? {
      FoundFits(t);
    }
  }

  lemma SpanIsCandidate(kind: Kind, t: string, j: nat, e: nat)
    requires Spans(kind, t, j, e)
    ensures Exec(kind, t, 0).Some? && Exec(kind, t, 0).value.index <= j && Exec(kind, t, 0).value.kind == kind
    ensures Exec(kind, t, 0).value in Candidates(t, KINDS)
    ensures FindNext(t).Some? && Before(FindNext(t).value, Exec(kind, t, 0).value)
  {
    SpanBounds(kind, t, j, e);
    assert !NoSpan(kind, t, j);
    if Exec(kind, t, 0).None? || j < Exec(kind, t, 0).value.index {
      ExecLeftmost(kind, t, 0, j);
    }
    ExecFits(kind, t, 0);
    AllKinds(kind);
    CandidateOf(t, KINDS, kind);
  }

  lemma FoundFits(t: string)
    requires FindNext(t).Some?
    ensures WellPlaced(t, FindNext(t).value) && Fits(t, FindNext(t).value)
  {
    var m := FindNext(t).value;
    var kind := CandidateFrom(t, KINDS, m);
    ExecFits(kind, t, 0);
  }
}
