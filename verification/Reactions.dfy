/**
 * Toggling reactions on group messages (apps/mobile/src/lib/messageTransforms.ts), with the
 * matching of message ids (apps/mobile/src/lib/messageIdentity.ts).
 */
module Reactions {
  import opened Common
  import opened Sorting

  /** A message as far as reactions and its identity go; a missing reactions record is None. */
  datatype Message = Message(
    id: string, clientMessageId: Option<string>, deviceEncrypted: bool,
    reactions: Option<map<string, seq<string>>>, content: string)

  // ---- identity ----

  /** The last position of a character, or -1. */
  function LastIndexOf(s: string, c: char): (r: int)
    ensures -1 <= r < |s|
    ensures r >= 0 ==> s[r] == c
    ensures forall i :: r < i < |s| ==> s[i] != c
  {
    if s == [] then -1
    else if s[|s| - 1] == c then |s| - 1
    else LastIndexOf(s[..|s| - 1], c)
  }

  function StableId(m: Message): string {
    if m.clientMessageId.Some? && m.clientMessageId.value != "" then m.clientMessageId.value
    else
      var separator := LastIndexOf(m.id, ':');
      if m.deviceEncrypted && separator >= 0 && separator < |m.id| - 1 then m.id[separator + 1..] else m.id
  }

  predicate MatchesId(m: Message, messageId: string) {
    m.id == messageId || StableId(m) == messageId
  }

  /**
   * Which id stands for a message: its own client message id; else, of an encrypted one, what follows the last
   * colon of its id, if anything does; else its id.
   */
  lemma StableIdMeaning(m: Message, front: string, back: string)
    ensures m.clientMessageId.Some? && m.clientMessageId.value != "" ==> StableId(m) == m.clientMessageId.value
    ensures (m.clientMessageId.None? || m.clientMessageId.value == "") ==>
      && (m.deviceEncrypted && m.id == front + ":" + back && back != "" && ':' !in back ==> StableId(m) == back)
      && (!m.deviceEncrypted || ':' !in m.id || m.id == front + ":" ==> StableId(m) == m.id)
  {
    if m.id == front + ":" + back && ':' !in back {
      assert m.id[|front|] == ':' && m.id[|front| + 1..] == back;
      assert forall i :: |front| < i < |m.id| ==> m.id[i] == back[i - |front| - 1];
    }
    if m.id == front + ":" {
      assert m.id[|front|] == ':';
    }
  }

  // ---- sorted lists of accounts ----

  /** The order of JavaScript's default sort: by the first character that differs, a prefix first. */
  predicate Before(a: string, b: string)
    decreases |a|
  {
    b != [] && (a == [] || a[0] < b[0] || (a[0] == b[0] && Before(a[1..], b[1..])))
  }

  lemma {:induction false} BeforeTotal(a: string, b: string)
    ensures a == b || Before(a, b) || Before(b, a)
  {
    if a != [] && b != [] && a[0] == b[0] {
      BeforeTotal(a[1..], b[1..]);
      assert a == [a[0]] + a[1..] && b == [b[0]] + b[1..];
    }
  }

  lemma {:induction false} BeforeAsymmetric(a: string, b: string)
    requires Before(a, b)
    ensures !Before(b, a) && a != b
  {
    if a != [] && a[0] == b[0] {
      BeforeAsymmetric(a[1..], b[1..]);
    }
  }

  lemma {:induction false} BeforeTransitive(a: string, b: string, c: string)
    requires Before(a, b) && Before(b, c)
    ensures Before(a, c)
  {
    if a != [] && a[0] == b[0] && b[0] == c[0] {
      BeforeTransitive(a[1..], b[1..], c[1..]);
    }
  }

  lemma BeforeIsStrict()
    ensures StrictOrder(Before)
  {
    forall a, b | Before(a, b) ensures !Before(b, a) {
      BeforeAsymmetric(a, b);
    }
    forall a, b, c | Before(a, b) && Before(b, c) ensures Before(a, c) {
      BeforeTransitive(a, b, c);
    }
  }

  /** The sorted list of a set is strictly increasing. */
  lemma SortedSet(s: seq<string>)
    requires NoRepeats(s)
    ensures Increasing(Sort(s, Before), Before)
  {
    BeforeIsStrict();
    forall i, j | 0 <= i < j < |s| ensures Before(s[i], s[j]) || Before(s[j], s[i]) {
      BeforeTotal(s[i], s[j]);
    }
    SortIncreasing(s, Before);
  }

  /** A set of accounts has one sorted list. */
  lemma OneSortedList(s: seq<string>, t: seq<string>)
    requires Increasing(s, Before) && Increasing(t, Before)
    requires forall y :: y in s <==> y in t
    ensures s == t
  {
    BeforeIsStrict();
    IncreasingUnique(s, t, Before);
  }

  // ---- toggling ----

  /** A JavaScript Set made from a list: the first occurrences, in order. */
  function SetOf(s: seq<string>): (r: seq<string>)
    ensures forall y :: y in r <==> y in s
    ensures NoRepeats(r)
  {
    if s == [] then []
    else
      assert s == s[..|s| - 1] + [s[|s| - 1]];
      var r := SetOf(s[..|s| - 1]);
      if s[|s| - 1] in r then r else r + [s[|s| - 1]]
  }

  function ReactionsOf(m: Message): map<string, seq<string>> {
    if m.reactions.Some? then m.reactions.value else map[]
  }

  function AccountsOf(m: Message, emoji: string): seq<string> {
    if emoji in ReactionsOf(m) then ReactionsOf(m)[emoji] else []
  }

  function ToggledOn(m: Message, emoji: string, account: string): Message {
    var current := SetOf(AccountsOf(m, emoji));
    var next := if account in current then Without(current, account) else current + [account];
    var reactions := ReactionsOf(m);
    m.(reactions := Some(if next != [] then reactions[emoji := Sort(next, Before)] else reactions - {emoji}))
  }

  datatype Toggle = Toggle(messageId: string, emoji: string, account: string)

  function Apply(m: Message, t: Toggle): Message {
    if MatchesId(m, t.messageId) then ToggledOn(m, t.emoji, t.account) else m
  }

  function ApplyToAll(messages: seq<Message>, t: Toggle): seq<Message> {
    seq(|messages|, i requires 0 <= i < |messages| => Apply(messages[i], t))
  }

  method ToggleGroupThreadMessageReaction(messages: seq<Message>, messageId: string, emoji: string, account: string)
    returns (r: seq<Message>)
    ensures r == ApplyToAll(messages, Toggle(messageId, emoji, account))
  {
    hide MatchesId;
    hide Sort;
    hide SetOf;
    hide Without;
    r := [];
    for i := 0 to |messages|
      invariant r == ApplyToAll(messages[..i], Toggle(messageId, emoji, account))
    {
      var message := messages[i];
      if MatchesId(message, messageId) {
        var reactions := ReactionsOf(message);
        var current := SetOf(if emoji in reactions then reactions[emoji] else []);
        if account in current {
          current := Without(current, account);
        } else {
          current := current + [account];
        }
        if current != [] {
          reactions := reactions[emoji := Sort(current, Before)];
        } else {
          reactions := reactions - {emoji};
        }
        message := message.(reactions := Some(reactions));
      }
      r := r + [message];
    }
    assert messages[..|messages|] == messages;
  }

  // ---- what a toggle means ----

  /** The account reacts to the message with the emoji. */
  predicate Reacts(m: Message, emoji: string, account: string) {
    account in AccountsOf(m, emoji)
  }

  /** The emoji is absent, or has a sorted list of at least one account. */
  ghost predicate CanonicalAt(m: Message, emoji: string) {
    emoji in ReactionsOf(m) ==> ReactionsOf(m)[emoji] != [] && Increasing(ReactionsOf(m)[emoji], Before)
  }

  /** Messages that differ at most in reactions. */
  predicate SameBut(m: Message, m': Message) {
    m'.(reactions := m.reactions) == m
  }

  /** The accounts of the toggled emoji: one flipped, in a sorted list that is not empty, or no list. */
  lemma ToggleThere(m: Message, emoji: string, account: string)
    ensures var m' := ToggledOn(m, emoji, account);
      && CanonicalAt(m', emoji)
      && (forall a :: Reacts(m', emoji, a) <==> if a == account then !Reacts(m, emoji, a) else Reacts(m, emoji, a))
  {
    hide Sort;
    hide SetOf;
    hide Without;
    hide Before;
    var current := SetOf(AccountsOf(m, emoji));
    var next := if account in current then Without(current, account) else current + [account];
    WithoutNoRepeats(current, account);
    SortedSet(next);
    if next != [] {
      assert next[0] in Sort(next, Before);
    }
  }

  lemma ToggleElsewhere(m: Message, emoji: string, account: string, e: string)
    requires e != emoji
    ensures var m' := ToggledOn(m, emoji, account);
      && (e in ReactionsOf(m') <==> e in ReactionsOf(m))
      && (e in ReactionsOf(m) ==> ReactionsOf(m')[e] == ReactionsOf(m)[e])
  {
    hide Sort;
    hide SetOf;
    hide Without;
  }

  lemma ToggleKeepsRest(m: Message, emoji: string, account: string)
    ensures SameBut(m, ToggledOn(m, emoji, account)) && ToggledOn(m, emoji, account).reactions.Some?
  {
  }

  /** A toggle flips one account under one emoji, leaves that emoji canonical, and changes nothing else. */
  lemma ToggleFlips(m: Message, emoji: string, account: string)
    ensures var m' := ToggledOn(m, emoji, account);
      && SameBut(m, m') && m'.reactions.Some?
      && CanonicalAt(m', emoji)
      && (forall a :: Reacts(m', emoji, a) <==> if a == account then !Reacts(m, emoji, a) else Reacts(m, emoji, a))
      && (forall e :: e != emoji ==> (e in ReactionsOf(m') <==> e in ReactionsOf(m)))
      && (forall e :: e != emoji && e in ReactionsOf(m) ==> ReactionsOf(m')[e] == ReactionsOf(m)[e])
  {
    hide *;
    ToggleKeepsRest(m, emoji, account);
    ToggleThere(m, emoji, account);
    forall e | e != emoji
      ensures e in ReactionsOf(ToggledOn(m, emoji, account)) <==> e in ReactionsOf(m)
      ensures e in ReactionsOf(m) ==> ReactionsOf(ToggledOn(m, emoji, account))[e] == ReactionsOf(m)[e]
    {
      ToggleElsewhere(m, emoji, account, e);
    }
  }

  /** Messages canonical at an emoji agree there if the same accounts react. */
  lemma CanonicalDetermined(m: Message, m': Message, emoji: string)
    requires CanonicalAt(m, emoji) && CanonicalAt(m', emoji)
    requires forall a :: Reacts(m, emoji, a) <==> Reacts(m', emoji, a)
    ensures emoji in ReactionsOf(m) <==> emoji in ReactionsOf(m')
    ensures emoji in ReactionsOf(m) ==> ReactionsOf(m)[emoji] == ReactionsOf(m')[emoji]
  {
    if emoji in ReactionsOf(m) {
      assert Reacts(m, emoji, ReactionsOf(m)[emoji][0]);
    }
    if emoji in ReactionsOf(m') {
      assert Reacts(m', emoji, ReactionsOf(m')[emoji][0]);
    }
    if emoji in ReactionsOf(m) && emoji in ReactionsOf(m') {
      forall a ensures a in ReactionsOf(m)[emoji] <==> a in ReactionsOf(m')[emoji] {
        assert Reacts(m, emoji, a) <==> Reacts(m', emoji, a);
      }
      OneSortedList(ReactionsOf(m)[emoji], ReactionsOf(m')[emoji]);
    }
  }

  lemma SameMessage(m: Message, m': Message)
    requires SameBut(m, m') && m.reactions.Some? && m'.reactions.Some?
    requires forall e :: e in ReactionsOf(m) <==> e in ReactionsOf(m')
    requires forall e :: e in ReactionsOf(m) ==> ReactionsOf(m)[e] == ReactionsOf(m')[e]
    ensures m == m'
  {
    assert ReactionsOf(m) == ReactionsOf(m');
  }

  /** Two toggles of a message may change places, whatever the message. */
  lemma TogglesOnCommute(m: Message, e1: string, a1: string, e2: string, a2: string)
    ensures ToggledOn(ToggledOn(m, e1, a1), e2, a2) == ToggledOn(ToggledOn(m, e2, a2), e1, a1)
  {
    var m1, m2 := ToggledOn(m, e1, a1), ToggledOn(m, e2, a2);
    var m12, m21 := ToggledOn(m1, e2, a2), ToggledOn(m2, e1, a1);
    ToggleFlips(m, e1, a1);
    ToggleFlips(m, e2, a2);
    ToggleFlips(m1, e2, a2);
    ToggleFlips(m2, e1, a1);
    hide ToggledOn;
    if e1 == e2 {
      CanonicalDetermined(m12, m21, e1);
    } else {
      CanonicalDetermined(m1, m21, e1);
      CanonicalDetermined(m12, m2, e2);
    }
    SameMessage(m12, m21);
  }

  /**
   * Toggling twice gives the message back exactly if it has a reactions record and that emoji's
   * list is sorted and not empty, or absent.
   */
  lemma DoubleToggle(m: Message, emoji: string, account: string)
    ensures ToggledOn(ToggledOn(m, emoji, account), emoji, account) == m <==>
      (m.reactions.Some? && CanonicalAt(m, emoji))
  {
    var m1 := ToggledOn(m, emoji, account);
    var m2 := ToggledOn(m1, emoji, account);
    ToggleFlips(m, emoji, account);
    ToggleFlips(m1, emoji, account);
    hide ToggledOn;
    if m.reactions.Some? && CanonicalAt(m, emoji) {
      CanonicalDetermined(m, m2, emoji);
      SameMessage(m, m2);
    }
  }

  /** A list that arrived unsorted is not restored. */
  lemma UnsortedNotRestored(account: string)
    ensures var m := Message("m", None, false, Some(map["+1" := ["b", "a"]]), "");
      ToggledOn(ToggledOn(m, "+1", account), "+1", account) != m
  {
    hide ToggledOn;
    var m := Message("m", None, false, Some(map["+1" := ["b", "a"]]), "");
    var list := ["b", "a"];
    assert ReactionsOf(m)["+1"] == list;
    assert !Before(list[0], list[1]);
    assert !CanonicalAt(m, "+1");
    hide *;
    DoubleToggle(m, "+1", account);
  }

  /** A missing record comes back as an empty one. */
  lemma MissingNotRestored(m: Message, emoji: string, account: string)
    requires m.reactions.None?
    ensures ToggledOn(ToggledOn(m, emoji, account), emoji, account) == m.(reactions := Some(map[]))
  {
    var empty := m.(reactions := Some(map[]));
    assert ToggledOn(m, emoji, account) == ToggledOn(empty, emoji, account);
    hide ToggledOn;
    DoubleToggle(empty, emoji, account);
  }

  // ---- sequences of toggles ----

  lemma ApplyKeepsRest(m: Message, t: Toggle)
    ensures SameBut(m, Apply(m, t))
  {
    hide MatchesId;
    hide ToggledOn;
    ToggleKeepsRest(m, t.emoji, t.account);
  }

  lemma ApplyKeepsIdentity(m: Message, t: Toggle, id: string)
    ensures MatchesId(Apply(m, t), id) == MatchesId(m, id)
  {
    ApplyKeepsRest(m, t);
    SameIdentity(m, Apply(m, t), id);
    hide *;
  }

  lemma ApplyCommutes(m: Message, t: Toggle, u: Toggle)
    ensures Apply(Apply(m, t), u) == Apply(Apply(m, u), t)
  {
    ApplyKeepsIdentity(m, t, u.messageId);
    ApplyKeepsIdentity(m, u, t.messageId);
    TogglesOnCommute(m, t.emoji, t.account, u.emoji, u.account);
    hide ToggledOn;
    hide MatchesId;
  }

  function ApplySeq(m: Message, ts: seq<Toggle>): Message {
    if ts == [] then m else Apply(ApplySeq(m, ts[..|ts| - 1]), ts[|ts| - 1])
  }

  function ApplySeqToAll(messages: seq<Message>, ts: seq<Toggle>): seq<Message> {
    if ts == [] then messages else ApplyToAll(ApplySeqToAll(messages, ts[..|ts| - 1]), ts[|ts| - 1])
  }

  lemma {:induction false} AllIsEach(messages: seq<Message>, ts: seq<Toggle>)
    ensures |ApplySeqToAll(messages, ts)| == |messages|
    ensures forall i :: 0 <= i < |messages| ==> ApplySeqToAll(messages, ts)[i] == ApplySeq(messages[i], ts)
  {
    if ts != [] {
      AllIsEach(messages, ts[..|ts| - 1]);
    }
  }

  /** A toggle may move from position k to the end. */
  lemma {:induction false} MoveToEnd(m: Message, ts: seq<Toggle>, k: nat)
    requires k < |ts|
    ensures ApplySeq(m, ts) == Apply(ApplySeq(m, ts[..k] + ts[k + 1..]), ts[k])
  {
    var front, last := ts[..|ts| - 1], ts[|ts| - 1];
    if k == |ts| - 1 {
      assert ts[..k] + ts[k + 1..] == front;
    } else {
      MoveToEnd(m, front, k);
      var others := front[..k] + front[k + 1..];
      ApplyCommutes(ApplySeq(m, others), ts[k], last);
      assert ts[..k] + ts[k + 1..] == others + [last];
      assert (others + [last])[..|others|] == others;
    }
  }

  lemma RemoveFromMultiset(ts: seq<Toggle>, k: nat)
    requires k < |ts|
    ensures multiset(ts[..k] + ts[k + 1..]) == multiset(ts) - multiset{ts[k]}
  {
    assert ts == ts[..k] + [ts[k]] + ts[k + 1..];
  }

  lemma {:induction false} OrderDoesNotMatter(m: Message, ts: seq<Toggle>, us: seq<Toggle>)
    requires multiset(ts) == multiset(us)
    ensures ApplySeq(m, ts) == ApplySeq(m, us)
    decreases |ts|
  {
    if ts == [] {
      assert |multiset(us)| == 0;
    } else {
      var last := ts[|ts| - 1];
      assert last in multiset(ts);
      var k :| 0 <= k < |us| && us[k] == last;
      assert ApplySeq(m, ts) == Apply(ApplySeq(m, ts[..|ts| - 1]), last);
      hide *;
      RemoveFromMultiset(ts, |ts| - 1);
      RemoveFromMultiset(us, k);
      assert ts[..|ts| - 1] + ts[|ts|..] == ts[..|ts| - 1];
      OrderDoesNotMatter(m, ts[..|ts| - 1], us[..k] + us[k + 1..]);
      MoveToEnd(m, us, k);
    }
  }

  /** Clients that apply the same toggles in any order end with the same messages. */
  lemma Converges(messages: seq<Message>, ts: seq<Toggle>, us: seq<Toggle>)
    requires multiset(ts) == multiset(us)
    ensures ApplySeqToAll(messages, ts) == ApplySeqToAll(messages, us)
  {
    AllIsEach(messages, ts);
    AllIsEach(messages, us);
    forall i | 0 <= i < |messages| ensures ApplySeq(messages[i], ts) == ApplySeq(messages[i], us) {
      OrderDoesNotMatter(messages[i], ts, us);
    }
  }

  /** How often the toggles name the message, the emoji and the account. */
  function Count(m: Message, ts: seq<Toggle>, emoji: string, account: string): nat {
    if ts == [] then 0
    else
      var t := ts[|ts| - 1];
      Count(m, ts[..|ts| - 1], emoji, account)
      + if MatchesId(m, t.messageId) && t.emoji == emoji && t.account == account then 1 else 0
  }

  lemma ApplyFlips(m: Message, t: Toggle, emoji: string, account: string)
    ensures SameBut(m, Apply(m, t))
    ensures Reacts(Apply(m, t), emoji, account) <==>
      if MatchesId(m, t.messageId) && t.emoji == emoji && t.account == account then !Reacts(m, emoji, account)
      else Reacts(m, emoji, account)
    ensures CanonicalAt(m, emoji) ==> CanonicalAt(Apply(m, t), emoji)
  {
    if MatchesId(m, t.messageId) {
      ToggleFlips(m, t.emoji, t.account);
      hide ToggledOn;
      hide MatchesId;
    }
  }

  lemma SameIdentity(m: Message, m': Message, id: string)
    requires SameBut(m, m')
    ensures MatchesId(m, id) == MatchesId(m', id)
  {
  }

  /** After any toggles an account reacts exactly if it did before and was toggled evenly often, or the reverse. */
  lemma {:induction false} ReactsByParity(m: Message, ts: seq<Toggle>, emoji: string, account: string)
    ensures SameBut(m, ApplySeq(m, ts))
    ensures Reacts(ApplySeq(m, ts), emoji, account) <==>
      (Reacts(m, emoji, account) <==> Count(m, ts, emoji, account) % 2 == 0)
    ensures CanonicalAt(m, emoji) ==> CanonicalAt(ApplySeq(m, ts), emoji)
  {
    hide Apply;
    hide MatchesId;
    hide Reacts;
    hide CanonicalAt;
    hide SameBut;
    if ts == [] {
      SameButReflexive(m);
    } else {
      var t := ts[|ts| - 1];
      var m1 := ApplySeq(m, ts[..|ts| - 1]);
      ReactsByParity(m, ts[..|ts| - 1], emoji, account);
      ApplyFlips(m1, t, emoji, account);
      SameIdentity(m, m1, t.messageId);
      SameButTransitive(m, m1, Apply(m1, t));
    }
  }

  lemma SameButReflexive(m: Message)
    ensures SameBut(m, m)
  {
  }

  lemma SameButTransitive(m: Message, m1: Message, m2: Message)
    requires SameBut(m, m1) && SameBut(m1, m2)
    ensures SameBut(m, m2)
  {
  }
}
