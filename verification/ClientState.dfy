/**
 * The client's conversations and outbox (crates/core/src/lib.rs): the stale flag of an
 * outbox entry is maintained eagerly, when an entry is queued and when an epoch is rotated.
 */
module ClientState {
  import opened Common

  /** The source's u32. */
  type Epoch = e: nat | e < 0x1_0000_0000

  type Id = string

  datatype Conversation = Conversation(conversationId: Id, epoch: Epoch, acknowledged: set<Id>) {

    function AdvanceEpoch(next: Epoch): Conversation {
      if next > epoch then this.(epoch := next) else this
    }
  }

  datatype Envelope = Envelope(
    envelopeId: Id, conversationId: Id, epoch: Epoch,
    senderAccountId: Id, senderDeviceId: Id, recipientDeviceId: Id,
    ciphertext: string, attachmentIds: seq<Id>, clientMessageId: Id,
    createdAt: int, expiresAt: int)

  datatype Entry = Entry(
    envelopeId: Id, conversationId: Id, epoch: Epoch,
    senderAccountId: Id, senderDeviceId: Id, recipientDeviceId: Id,
    ciphertext: string, attachmentIds: seq<Id>, clientMessageId: Id,
    createdAt: int, expiresAt: int,
    queuedAt: int, delivered: bool, stale: bool)
  {
    function ToCipherEnvelope(): Envelope {
      Envelope(envelopeId, conversationId, epoch, senderAccountId, senderDeviceId, recipientDeviceId,
               ciphertext, attachmentIds, clientMessageId, createdAt, expiresAt)
    }
  }

  function FromCipherEnvelope(e: Envelope, now: int): Entry {
    Entry(e.envelopeId, e.conversationId, e.epoch, e.senderAccountId, e.senderDeviceId, e.recipientDeviceId,
          e.ciphertext, e.attachmentIds, e.clientMessageId, e.createdAt, e.expiresAt,
          now, false, false)
  }

  datatype State = State(conversations: map<Id, Conversation>, outbox: map<Id, Entry>)

  function Upsert(s: State, c: Id): State {
    if c in s.conversations then s
    else s.(conversations := s.conversations[c := Conversation(c, 1, {})])
  }

  function Enqueue(s: State, e: Envelope, now: int): State {
    var s1 := Upsert(s, e.conversationId);
    var entry := FromCipherEnvelope(e, now);
    var entry' := if entry.epoch < s1.conversations[e.conversationId].epoch then entry.(stale := true) else entry;
    s1.(outbox := s1.outbox[e.envelopeId := entry'])
  }

  function MarkDelivered(s: State, id: Id): State {
    if id in s.outbox then s.(outbox := s.outbox[id := s.outbox[id].(delivered := true)]) else s
  }

  /** An entry after its conversation c moved on to the epoch. */
  function Quarantined(entry: Entry, c: Id, epoch: Epoch): Entry {
    if entry.conversationId == c && entry.epoch < epoch && !entry.delivered then entry.(stale := true) else entry
  }

  function Rotate(s: State, c: Id, next: Epoch): State {
    var s1 := Upsert(s, c);
    var before := s1.conversations[c];
    var after := before.AdvanceEpoch(next);
    State(s1.conversations[c := after],
          if after.epoch > before.epoch
          then map id | id in s1.outbox :: Quarantined(s1.outbox[id], c, after.epoch)
          else s1.outbox)
  }

  class Client {
    var conversations: map<Id, Conversation>
    var outbox: map<Id, Entry>

    ghost function Value(): State
      reads this
    {
      State(conversations, outbox)
    }

    constructor ()
      ensures Value() == State(map[], map[])
    {
      conversations, outbox := map[], map[];
    }

    method UpsertConversation(c: Id)
      modifies this
      ensures Value() == Upsert(old(Value()), c)
    {
      if c !in conversations {
        conversations := conversations[c := Conversation(c, 1, {})];
      }
    }

    method EnqueueEnvelope(e: Envelope, now: int)
      modifies this
      ensures Value() == Enqueue(old(Value()), e, now)
    {
      UpsertConversation(e.conversationId);
      var currentEpoch := conversations[e.conversationId].epoch;
      var entry := FromCipherEnvelope(e, now);
      if entry.epoch < currentEpoch {
        entry := entry.(stale := true);
      }
      outbox := outbox[entry.envelopeId := entry];
    }

    method MarkEnvelopeDelivered(id: Id)
      modifies this
      ensures Value() == MarkDelivered(old(Value()), id)
    {
      if id in outbox {
        outbox := outbox[id := outbox[id].(delivered := true)];
      }
    }

    method RotateEpoch(c: Id, next: Epoch)
      modifies this
      ensures Value() == Rotate(old(Value()), c, next)
    {
      UpsertConversation(c);
      var prevEpoch := conversations[c].epoch;
      conversations := conversations[c := conversations[c].AdvanceEpoch(next)];
      if conversations[c].epoch > prevEpoch {
        QuarantineOutbox(c, conversations[c].epoch);
      }
    }

    /** Visit every entry, in any order. */
    method QuarantineOutbox(c: Id, epoch: Epoch)
      modifies this`outbox
      ensures outbox == map id | id in old(outbox) :: Quarantined(old(outbox)[id], c, epoch)
    {
      var rest := outbox.Keys;
      while rest != {}
        invariant rest <= outbox.Keys == old(outbox).Keys
        invariant forall id :: id in rest ==> outbox[id] == old(outbox)[id]
        invariant forall id :: id in outbox && id !in rest ==> outbox[id] == Quarantined(old(outbox)[id], c, epoch)
        decreases rest
      {
        var id :| id in rest;
        if outbox[id].conversationId == c && outbox[id].epoch < epoch && !outbox[id].delivered {
          outbox := outbox[id := outbox[id].(stale := true)];
        }
        rest := rest - {id};
      }
    }
  }

  // ---- runs ----

  datatype Call =
    | UpsertCall(c: Id)
    | EnqueueCall(envelope: Envelope, now: int)
    | DeliveredCall(id: Id)
    | RotateCall(c: Id, next: Epoch)

  function Next(s: State, call: Call): State {
    match call
    case UpsertCall(c) => Upsert(s, c)
    case EnqueueCall(e, now) => Enqueue(s, e, now)
    case DeliveredCall(id) => MarkDelivered(s, id)
    case RotateCall(c, next) => Rotate(s, c, next)
  }

  function Run(s: State, calls: seq<Call>): State {
    if calls == [] then s else Next(Run(s, calls[..|calls| - 1]), calls[|calls| - 1])
  }

  const EMPTY: State := State(map[], map[])

  // ---- the stale flag ----

  /** Keys are the embedded ids, and every entry's conversation is known. */
  ghost predicate KeysMatch(s: State) {
    && (forall c :: c in s.conversations ==> s.conversations[c].conversationId == c)
    && (forall id :: id in s.outbox ==>
          s.outbox[id].envelopeId == id && s.outbox[id].conversationId in s.conversations)
  }

  /** The entry was encrypted under an epoch its conversation has left. */
  predicate Superseded(s: State, entry: Entry) {
    entry.conversationId in s.conversations && entry.epoch < s.conversations[entry.conversationId].epoch
  }

  /** Stale exactly when superseded, as long as it is undelivered; never stale without cause. */
  ghost predicate StaleExact(s: State) {
    forall id :: id in s.outbox ==>
      && (s.outbox[id].stale ==> Superseded(s, s.outbox[id]))
      && (Superseded(s, s.outbox[id]) && !s.outbox[id].delivered ==> s.outbox[id].stale)
  }

  ghost predicate Inv(s: State) {
    KeysMatch(s) && StaleExact(s)
  }

  lemma NextKeepsInv(s: State, call: Call)
    requires Inv(s)
    ensures Inv(Next(s, call))
  {
    match call
    case UpsertCall(c) =>
    case EnqueueCall(e, now) =>
    case DeliveredCall(id) =>
    case RotateCall(c, next) => RotateKeepsInv(s, c, next);
  }

  lemma RotateKeepsInv(s: State, c: Id, next: Epoch)
    requires Inv(s)
    ensures Inv(Rotate(s, c, next))
  {
    var s1 := Upsert(s, c);
    var s2 := Rotate(s, c, next);
    assert s1.outbox == s.outbox;
    forall id | id in s2.outbox
      ensures s2.outbox[id].stale ==> Superseded(s2, s2.outbox[id])
      ensures Superseded(s2, s2.outbox[id]) && !s2.outbox[id].delivered ==> s2.outbox[id].stale
    {
      assert s.outbox[id].conversationId in s.conversations;
    }
  }

  /** In every reachable state an undelivered entry is stale if and only if its epoch is left. */
  lemma {:induction false} RunStaleExact(calls: seq<Call>)
    ensures Inv(Run(EMPTY, calls))
    ensures forall id :: id in Run(EMPTY, calls).outbox && !Run(EMPTY, calls).outbox[id].delivered ==>
              (Run(EMPTY, calls).outbox[id].stale <==> Superseded(Run(EMPTY, calls), Run(EMPTY, calls).outbox[id]))
  {
    if calls != [] {
      RunStaleExact(calls[..|calls| - 1]);
      NextKeepsInv(Run(EMPTY, calls[..|calls| - 1]), calls[|calls| - 1]);
    }
  }

  // ---- what the outbox holds ----

  /** What became of an id: the envelope last queued under it, when, and whether it was delivered since. */
  datatype Fate = Fate(envelope: Envelope, queuedAt: int, delivered: bool)

  function FateOf(calls: seq<Call>, id: Id): Option<Fate> {
    if calls == [] then None
    else
      var before := FateOf(calls[..|calls| - 1], id);
      match calls[|calls| - 1]
      case EnqueueCall(e, now) => if e.envelopeId == id then Some(Fate(e, now, false)) else before
      case DeliveredCall(x) => if x == id && before.Some? then Some(before.value.(delivered := true)) else before
      case _ => before
  }

  /** The entry keeps that envelope as it was queued, with its time and its delivery. */
  predicate Records(s: State, id: Id, fate: Option<Fate>) {
    && (fate.Some? <==> id in s.outbox)
    && (fate.Some? ==>
          && s.outbox[id].ToCipherEnvelope() == fate.value.envelope
          && s.outbox[id].queuedAt == fate.value.queuedAt
          && s.outbox[id].delivered == fate.value.delivered)
  }

  /**
   * After any calls the outbox holds, for each id ever queued, the envelope last queued under it, unchanged by
   * rotations, and it is marked delivered exactly if that was reported since.
   */
  lemma {:induction false} RunOutboxExact(calls: seq<Call>, id: Id)
    ensures Records(Run(EMPTY, calls), id, FateOf(calls, id))
    ensures FateOf(calls, id).Some? ==> FateOf(calls, id).value.envelope.envelopeId == id
  {
    if calls != [] {
      var front, last := calls[..|calls| - 1], calls[|calls| - 1];
      RunOutboxExact(front, id);
      var s := Run(EMPTY, front);
      match last
      case UpsertCall(_) =>
      case EnqueueCall(e, now) => EnqueueEffect(s, e, now);
      case DeliveredCall(_) =>
      case RotateCall(c, next) =>
        RotateConversations(s, c, next);
        if id in s.outbox {
          RotateEntry(s, c, next, id);
        }
        hide Rotate;
    }
  }

  // ---- epochs ----

  /** The highest epoch the calls rotate the conversation to, at least `least`. */
  function Highest(calls: seq<Call>, c: Id, least: Epoch): Epoch {
    if calls == [] then least
    else
      var rest := Highest(calls[..|calls| - 1], c, least);
      var last := calls[|calls| - 1];
      if last.RotateCall? && last.c == c && last.next > rest then last.next else rest
  }

  /** A conversation's epoch is the highest it was ever rotated to; in particular it never falls. */
  lemma {:induction false} EpochIsHighest(s: State, calls: seq<Call>, c: Id)
    ensures var r := Run(s, calls);
      var least := if c in s.conversations then s.conversations[c].epoch else 1;
      && (c in s.conversations ==> c in r.conversations)
      && Highest(calls, c, least) == (if c in r.conversations then r.conversations[c].epoch else least)
      && least <= Highest(calls, c, least)
  {
    if calls != [] {
      EpochIsHighest(s, calls[..|calls| - 1], c);
    }
  }

  // ---- orders that do not matter ----

  /** Two rotations of a conversation are one rotation to the larger epoch. */
  lemma RotationsMerge(s: State, c: Id, a: Epoch, b: Epoch)
    ensures Rotate(Rotate(s, c, a), c, b) == Rotate(s, c, if a < b then b else a)
  {
    var s1, s2 := Rotate(Rotate(s, c, a), c, b), Rotate(s, c, if a < b then b else a);
    assert s1.conversations == s2.conversations;
    assert s1.outbox == s2.outbox;
  }

  /** The conversation, or the one a first mention makes. */
  function ConversationOf(s: State, c: Id): Conversation {
    if c in s.conversations then s.conversations[c] else Conversation(c, 1, {})
  }

  lemma RotateConversations(s: State, c: Id, next: Epoch)
    ensures Rotate(s, c, next).conversations == s.conversations[c := ConversationOf(s, c).AdvanceEpoch(next)]
    ensures Rotate(s, c, next).outbox.Keys == s.outbox.Keys
  {
  }

  /** One entry after a rotation. */
  lemma RotateEntry(s: State, c: Id, next: Epoch, id: Id)
    requires id in s.outbox
    ensures id in Rotate(s, c, next).outbox
    ensures Rotate(s, c, next).outbox[id] ==
      if next > ConversationOf(s, c).epoch then Quarantined(s.outbox[id], c, next) else s.outbox[id]
  {
  }

  lemma SameState(s: State, t: State)
    requires s.conversations == t.conversations && s.outbox.Keys == t.outbox.Keys
    requires forall id :: id in s.outbox ==> s.outbox[id] == t.outbox[id]
    ensures s == t
  {
    assert s.outbox == t.outbox;
  }

  lemma EntriesCommute(s: State, c: Id, a: Epoch, d: Id, b: Epoch, id: Id)
    requires id in s.outbox && c != d
    ensures var r1, r2 := Rotate(Rotate(s, c, a), d, b), Rotate(Rotate(s, d, b), c, a);
      id in r1.outbox && id in r2.outbox && r1.outbox[id] == r2.outbox[id]
  {
    hide Rotate;
    var sc, sd := Rotate(s, c, a), Rotate(s, d, b);
    RotateConversations(s, c, a);
    RotateConversations(s, d, b);
    RotateEntry(s, c, a, id);
    RotateEntry(s, d, b, id);
    RotateEntry(sc, d, b, id);
    RotateEntry(sd, c, a, id);
  }

  lemma RotationsCommute(s: State, c: Id, a: Epoch, d: Id, b: Epoch)
    ensures Rotate(Rotate(s, c, a), d, b) == Rotate(Rotate(s, d, b), c, a)
  {
    hide Rotate;
    if c == d {
      RotationsMerge(s, c, a, b);
      RotationsMerge(s, c, b, a);
    } else {
      var sc, sd := Rotate(s, c, a), Rotate(s, d, b);
      RotateConversations(s, c, a);
      RotateConversations(s, d, b);
      RotateConversations(sc, d, b);
      RotateConversations(sd, c, a);
      forall id | id in s.outbox ensures Rotate(sc, d, b).outbox[id] == Rotate(sd, c, a).outbox[id] {
        EntriesCommute(s, c, a, d, b, id);
      }
      SameState(Rotate(sc, d, b), Rotate(sd, c, a));
    }
  }

  lemma EnqueueEffect(s: State, e: Envelope, now: int)
    ensures var r, conv, entry := Enqueue(s, e, now), ConversationOf(s, e.conversationId), FromCipherEnvelope(e, now);
      && r.conversations == s.conversations[e.conversationId := conv]
      && r.outbox == s.outbox[e.envelopeId := entry.(stale := e.epoch < conv.epoch)]
  {
  }

  /** Queueing before or after a rotation leaves the same outbox, flags included. */
  lemma RotationCommutesWithEnqueue(s: State, c: Id, next: Epoch, e: Envelope, now: int)
    ensures Rotate(Enqueue(s, e, now), c, next) == Enqueue(Rotate(s, c, next), e, now)
  {
    hide Rotate;
    hide Enqueue;
    var queued, rotated := Enqueue(s, e, now), Rotate(s, c, next);
    EnqueueEffect(s, e, now);
    EnqueueEffect(rotated, e, now);
    RotateConversations(s, c, next);
    RotateConversations(queued, c, next);
    forall id | id in queued.outbox
      ensures Rotate(queued, c, next).outbox[id] == Enqueue(rotated, e, now).outbox[id]
    {
      RotateEntry(queued, c, next, id);
      if id != e.envelopeId {
        RotateEntry(s, c, next, id);
      }
    }
    SameState(Rotate(queued, c, next), Enqueue(rotated, e, now));
  }

  /**
   * A delivery may change places with a rotation exactly if the rotation would not quarantine
   * the entry: it is unknown, already delivered or stale, of another conversation, or not behind.
   */
  lemma RotationCommutesWithDelivery(s: State, c: Id, next: Epoch, id: Id)
    requires Inv(s)
    ensures Rotate(MarkDelivered(s, id), c, next) == MarkDelivered(Rotate(s, c, next), id) <==>
      (id !in s.outbox || s.outbox[id].delivered || s.outbox[id].stale
       || s.outbox[id].conversationId != c || next <= s.outbox[id].epoch)
  {
    hide Rotate;
    RotateConversations(s, c, next);
    if id in s.outbox {
      var delivered, rotated := MarkDelivered(s, id), Rotate(s, c, next);
      var s1, s2 := Rotate(delivered, c, next), MarkDelivered(rotated, id);
      RotateConversations(delivered, c, next);
      DeliveredAround(s, c, next, id);
      forall k | k in s.outbox && k != id ensures s1.outbox[k] == s2.outbox[k] {
        RotateEntry(s, c, next, k);
        RotateEntry(delivered, c, next, k);
      }
      hide Inv;
      if s1.outbox[id] == s2.outbox[id] {
        SameState(s1, s2);
      }
    }
  }

  lemma DeliveredAround(s: State, c: Id, next: Epoch, id: Id)
    requires Inv(s) && id in s.outbox
    ensures var s1, s2 := Rotate(MarkDelivered(s, id), c, next), MarkDelivered(Rotate(s, c, next), id);
      id in s1.outbox && id in s2.outbox && (s1.outbox[id] == s2.outbox[id] <==>
      (s.outbox[id].delivered || s.outbox[id].stale || s.outbox[id].conversationId != c || next <= s.outbox[id].epoch))
  {
    RotateEntry(s, c, next, id);
    RotateEntry(MarkDelivered(s, id), c, next, id);
    hide Rotate;
  }

  /** Delivered before the rotation an entry stays fresh, after it the entry is stale. */
  lemma DeliveryOvertakesRotation(e: Envelope, now: int)
    requires e.epoch == 1
    ensures var s := Run(EMPTY, [EnqueueCall(e, now)]);
      && !Rotate(MarkDelivered(s, e.envelopeId), e.conversationId, 2).outbox[e.envelopeId].stale
      && MarkDelivered(Rotate(s, e.conversationId, 2), e.envelopeId).outbox[e.envelopeId].stale
  {
    assert Run(EMPTY, [EnqueueCall(e, now)][..0]) == EMPTY;
    assert Run(EMPTY, [EnqueueCall(e, now)]) == Enqueue(EMPTY, e, now);
  }

  /** The wire envelope survives being persisted. */
  lemma EnvelopeRoundTrip(e: Envelope, now: int)
    ensures FromCipherEnvelope(e, now).ToCipherEnvelope() == e
    ensures FromCipherEnvelope(e, now).queuedAt == now
  {
  }
}
