/**
 * The device mailbox (apps/relay/src/do/device-mailbox.ts): a bounded queue of
 * envelopes with expiry, acknowledgement, counters and an alarm. Each handler call
 * is one step; the time of the call is a parameter.
 */
module DeviceMailbox {
  import opened Common

  const MAX_BACKLOG: nat := 500

  type Id = string

  datatype Envelope = Envelope(id: Id, expiresAt: int, ciphertext: string)

  datatype Stats = Stats(enqueued: nat, acknowledged: nat, expired: nat, rejected: nat)

  /** The queue and its counters, the stored envelopes and the pending alarm. */
  datatype State = State(queue: seq<Id>, stats: Stats, envelopes: map<Id, Envelope>, alarm: Option<int>)

  const EMPTY: State := State([], Stats(0, 0, 0, 0), map[], None)

  // ---- expiry and the alarm ----

  datatype Pruned = Pruned(queue: seq<Id>, expired: nat, envelopes: map<Id, Envelope>)

  /** Walk the queue: drop what has no envelope, expire what is due, keep the rest. */
  function PruneFrom(queue: seq<Id>, envelopes: map<Id, Envelope>, now: int): Pruned {
    if queue == [] then Pruned([], 0, envelopes)
    else if queue[0] !in envelopes then PruneFrom(queue[1..], envelopes, now)
    else if envelopes[queue[0]].expiresAt <= now then
      var rest := PruneFrom(queue[1..], envelopes - {queue[0]}, now);
      rest.(expired := rest.expired + 1)
    else
      var rest := PruneFrom(queue[1..], envelopes, now);
      rest.(queue := [queue[0]] + rest.queue)
  }

  function Sooner(a: Option<int>, b: Option<int>): Option<int> {
    if a.None? then b else if b.None? then a else Some(Min(a.value, b.value))
  }

  function ExpiryOf(id: Id, envelopes: map<Id, Envelope>): Option<int> {
    if id in envelopes then Some(envelopes[id].expiresAt) else None
  }

  /** The earliest expiry among the queued envelopes. */
  function Earliest(queue: seq<Id>, envelopes: map<Id, Envelope>): Option<int> {
    if queue == [] then None else Sooner(ExpiryOf(queue[0], envelopes), Earliest(queue[1..], envelopes))
  }

  /** Some queued envelope expires at t and none before. */
  ghost predicate IsEarliest(queue: seq<Id>, envelopes: map<Id, Envelope>, t: int) {
    && (exists id :: id in queue && ExpiryOf(id, envelopes) == Some(t))
    && (forall id :: id in queue && id in envelopes ==> t <= envelopes[id].expiresAt)
  }

  lemma {:induction false} EarliestMeaning(queue: seq<Id>, envelopes: map<Id, Envelope>)
    ensures Earliest(queue, envelopes).Some? ==> IsEarliest(queue, envelopes, Earliest(queue, envelopes).value)
    ensures Earliest(queue, envelopes).None? ==> forall id :: id in queue ==> id !in envelopes
  {
    if queue != [] {
      EarliestMeaning(queue[1..], envelopes);
      assert queue == [queue[0]] + queue[1..];
      assert queue[0] in queue;
    }
  }

  /** An earliest expiry of 0 is not told apart from none. */
  function AlarmFor(queue: seq<Id>, envelopes: map<Id, Envelope>): Option<int> {
    match Earliest(queue, envelopes)
    case Some(t) => if t != 0 then Some(t) else None
    case None => None
  }

  function Rescheduled(s: State): State {
    s.(alarm := AlarmFor(s.queue, s.envelopes))
  }

  function PruneStep(s: State, now: int): State {
    var p := PruneFrom(s.queue, s.envelopes, now);
    Rescheduled(s.(queue := p.queue, envelopes := p.envelopes,
                   stats := s.stats.(expired := s.stats.expired + p.expired)))
  }

  // ---- the handlers ----

  datatype EnqueueResult = Queued | Duplicate | BacklogExceeded

  function EnqueueStep(s: State, e: Envelope, now: int): (EnqueueResult, State) {
    var s1 := PruneStep(s, now);
    if e.id in s1.queue then (Duplicate, s1)
    else if |s1.queue| >= MAX_BACKLOG then
      (BacklogExceeded, s1.(stats := s1.stats.(rejected := s1.stats.rejected + 1)))
    else
      (Queued, Rescheduled(s1.(queue := s1.queue + [e.id], envelopes := s1.envelopes[e.id := e],
                               stats := s1.stats.(enqueued := s1.stats.enqueued + 1))))
  }

  function IndexOf(queue: seq<Id>, id: Id): (r: int)
    ensures -1 <= r < |queue|
    ensures r >= 0 ==> queue[r] == id && id !in queue[..r]
    ensures r < 0 <==> id !in queue
  {
    if queue == [] then -1
    else if queue[0] == id then 0
    else
      var r := IndexOf(queue[1..], id);
      assert queue == [queue[0]] + queue[1..];
      if r < 0 then -1 else
        assert queue[..r + 1] == [queue[0]] + queue[1..][..r];
        r + 1
  }

  function Limit(limit: Option<int>): (r: nat)
    ensures 1 <= r <= 100
  {
    Max(1, Min(100, if limit.Some? then limit.value else 50))
  }

  /** A missing or empty cursor starts at the front, and so does one that is not queued. */
  function StartIndex(queue: seq<Id>, after: Option<Id>): (r: nat)
    ensures r <= |queue|
  {
    if after.Some? && after.value != "" then IndexOf(queue, after.value) + 1 else 0
  }

  function PageOf(queue: seq<Id>, after: Option<Id>, limit: Option<int>): seq<Id> {
    var start := StartIndex(queue, after);
    queue[start..Min(start + Limit(limit), |queue|)]
  }

  function CursorOf(page: seq<Id>): Option<Id> {
    if page == [] then None else Some(page[|page| - 1])
  }

  function EnvelopesOf(page: seq<Id>, envelopes: map<Id, Envelope>): seq<Envelope> {
    if page == [] then []
    else if page[0] in envelopes then [envelopes[page[0]]] + EnvelopesOf(page[1..], envelopes)
    else EnvelopesOf(page[1..], envelopes)
  }

  /** A page of stored ids yields their envelopes, in order. */
  lemma {:induction false} EnvelopesInOrder(page: seq<Id>, envelopes: map<Id, Envelope>)
    requires forall id :: id in page ==> id in envelopes
    ensures |EnvelopesOf(page, envelopes)| == |page|
    ensures forall k :: 0 <= k < |page| ==> EnvelopesOf(page, envelopes)[k] == envelopes[page[k]]
  {
    if page != [] {
      assert page == [page[0]] + page[1..];
      EnvelopesInOrder(page[1..], envelopes);
    }
  }

  /** Those of the ids that are queued, repeats included. */
  function Acknowledged(ids: seq<Id>, queue: seq<Id>): (r: seq<Id>)
    ensures forall x :: x in r <==> x in ids && x in queue
  {
    if ids == [] then []
    else if ids[0] in queue then [ids[0]] + Acknowledged(ids[1..], queue)
    else Acknowledged(ids[1..], queue)
  }

  function Remaining(queue: seq<Id>, ids: seq<Id>): (r: seq<Id>)
    ensures forall x :: x in r <==> x in queue && x !in ids
  {
    if queue == [] then []
    else if queue[0] !in ids then [queue[0]] + Remaining(queue[1..], ids)
    else Remaining(queue[1..], ids)
  }

  function AckStep(s: State, ids: seq<Id>, now: int): (nat, State) {
    var s1 := PruneStep(s, now);
    var acknowledged := Acknowledged(ids, s1.queue);
    (|acknowledged|,
     Rescheduled(s1.(queue := Remaining(s1.queue, ids),
                     envelopes := s1.envelopes - (set x | x in acknowledged),
                     stats := s1.stats.(acknowledged := s1.stats.acknowledged + |acknowledged|))))
  }

  class DeviceMailboxDO {
    var state: State

    constructor ()
      ensures state == EMPTY
    {
      state := EMPTY;
    }

    method ScheduleNextAlarm()
      modifies this
      ensures state == Rescheduled(old(state))
      ensures state.alarm.Some? ==>
        state.alarm.value != 0 && IsEarliest(state.queue, state.envelopes, state.alarm.value)
      ensures state.alarm.None? ==>
        (forall id :: id in state.queue ==> id !in state.envelopes) || IsEarliest(state.queue, state.envelopes, 0)
    {
      var next: Option<int> := None;
      var i := 0;
      while i < |state.queue|
        invariant 0 <= i <= |state.queue|
        invariant Sooner(next, Earliest(state.queue[i..], state.envelopes)) == Earliest(state.queue, state.envelopes)
      {
        assert state.queue[i..][1..] == state.queue[i + 1..];
        next := Sooner(next, ExpiryOf(state.queue[i], state.envelopes));
        i := i + 1;
      }
      EarliestMeaning(state.queue, state.envelopes);
      hide Earliest;
      hide IsEarliest;
      state := state.(alarm := if next.Some? && next.value != 0 then next else None);
    }

    method PruneExpired(now: int)
      modifies this
      ensures state == PruneStep(old(state), now)
    {
      var nextQueue: seq<Id> := [];
      var i := 0;
      var queue := state.queue;
      ghost var all := PruneFrom(queue, state.envelopes, now);
      while i < |queue|
        invariant 0 <= i <= |queue| && queue == old(state.queue)
        invariant state == old(state).(envelopes := state.envelopes,
          stats := old(state).stats.(expired := state.stats.expired))
        invariant var rest := PruneFrom(queue[i..], state.envelopes, now);
          && all.queue == nextQueue + rest.queue
          && all.envelopes == rest.envelopes
          && old(state).stats.expired + all.expired == state.stats.expired + rest.expired
      {
        assert queue[i..][1..] == queue[i + 1..];
        var id := queue[i];
        i := i + 1;
        if id !in state.envelopes {
          continue;
        }
        if state.envelopes[id].expiresAt <= now {
          state := state.(stats := state.stats.(expired := state.stats.expired + 1));
          state := state.(envelopes := state.envelopes - {id});
          continue;
        }
        nextQueue := nextQueue + [id];
      }
      assert queue[i..] == [] && nextQueue + [] == nextQueue;
      state := state.(queue := nextQueue);
      ScheduleNextAlarm();
    }

    method Enqueue(e: Envelope, now: int) returns (r: EnqueueResult)
      modifies this
      ensures (r, state) == EnqueueStep(old(state), e, now)
    {
      PruneExpired(now);
      if e.id in state.queue {
        return Duplicate;
      }
      if |state.queue| >= MAX_BACKLOG {
        state := state.(stats := state.stats.(rejected := state.stats.rejected + 1));
        return BacklogExceeded;
      }
      state := state.(queue := state.queue + [e.id]);
      state := state.(stats := state.stats.(enqueued := state.stats.enqueued + 1));
      state := state.(envelopes := state.envelopes[e.id := e]);
      ScheduleNextAlarm();
      return Queued;
    }

    method Sync(after: Option<Id>, limit: Option<int>, now: int)
      returns (cursor: Option<Id>, envelopes: seq<Envelope>)
      modifies this
      ensures state == PruneStep(old(state), now)
      ensures cursor == CursorOf(PageOf(state.queue, after, limit))
      ensures envelopes == EnvelopesOf(PageOf(state.queue, after, limit), state.envelopes)
    {
      PruneExpired(now);
      var selected := PageOf(state.queue, after, limit);
      return CursorOf(selected), EnvelopesOf(selected, state.envelopes);
    }

    method Ack(ids: seq<Id>, now: int) returns (count: nat)
      modifies this
      ensures (count, state) == AckStep(old(state), ids, now)
    {
      PruneExpired(now);
      var acknowledged := Acknowledged(ids, state.queue);
      state := state.(queue := Remaining(state.queue, ids));
      state := state.(stats := state.stats.(acknowledged := state.stats.acknowledged + |acknowledged|));
      state := state.(envelopes := state.envelopes - (set x | x in acknowledged));
      ScheduleNextAlarm();
      return |acknowledged|;
    }

    method Alarm(now: int)
      modifies this
      ensures state == PruneStep(old(state), now)
    {
      PruneExpired(now);
    }
  }

  // ---- subsequences ----

  ghost predicate IsSubsequence<T>(a: seq<T>, b: seq<T>)
    decreases |b|
  {
    a == [] || (b != [] && if a[0] == b[0] then IsSubsequence(a[1..], b[1..]) else IsSubsequence(a, b[1..]))
  }

  lemma {:induction false} SubsequenceTail<T>(a: seq<T>, b: seq<T>)
    requires IsSubsequence(a, b) && a != []
    ensures IsSubsequence(a[1..], b)
    decreases |b|, 0
  {
    if a[0] != b[0] {
      SubsequenceTail(a, b[1..]);
      SubsequenceSkip(a[1..], b[1..], b[0]);
      assert [b[0]] + b[1..] == b;
    } else {
      SubsequenceSkip(a[1..], b[1..], b[0]);
      assert [b[0]] + b[1..] == b;
    }
  }

  lemma SubsequenceSkip<T>(a: seq<T>, b: seq<T>, x: T)
    requires IsSubsequence(a, b)
    ensures IsSubsequence(a, [x] + b)
    decreases |b|, 1
  {
    assert ([x] + b)[1..] == b;
    if a != [] && a[0] == x {
      SubsequenceTail(a, b);
    }
  }

  lemma {:induction false} SubsequenceTransitive<T>(a: seq<T>, b: seq<T>, c: seq<T>)
    requires IsSubsequence(a, b) && IsSubsequence(b, c)
    ensures IsSubsequence(a, c)
    decreases |c|
  {
    if a != [] {
      if b[0] == c[0] {
        if a[0] == b[0] {
          SubsequenceTransitive(a[1..], b[1..], c[1..]);
        } else {
          SubsequenceTransitive(a, b[1..], c[1..]);
        }
      } else {
        SubsequenceTransitive(a, b, c[1..]);
        if a[0] == c[0] {
          SubsequenceTail(a, c[1..]);
        }
      }
    }
  }

  lemma {:induction false} SubsequenceAppend<T>(a: seq<T>, b: seq<T>, x: T)
    requires IsSubsequence(a, b)
    ensures IsSubsequence(a + [x], b + [x])
    decreases |b|
  {
    if b == [] {
      assert a + [x] == [x] && b + [x] == [x];
    } else if a != [] && a[0] == b[0] {
      SubsequenceAppend(a[1..], b[1..], x);
      assert (a + [x])[1..] == a[1..] + [x] && (b + [x])[1..] == b[1..] + [x];
    } else if a != [] {
      SubsequenceAppend(a, b[1..], x);
      assert (b + [x])[1..] == b[1..] + [x];
    } else {
      SubsequenceAppend([], b[1..], x);
      assert (b + [x])[1..] == b[1..] + [x] && ([] + [x])[1..] == [];
    }
  }

  // ---- the invariant ----

  ghost predicate EnvelopesMatch(queue: seq<Id>, envelopes: map<Id, Envelope>) {
    && (forall id :: id in queue ==> id in envelopes)
    && (forall id :: id in envelopes ==> id in queue)
  }

  predicate Conserved(s: State) {
    s.stats.enqueued == s.stats.acknowledged + s.stats.expired + |s.queue|
  }

  ghost predicate Inv(s: State) {
    && NoRepeats(s.queue)
    && |s.queue| <= MAX_BACKLOG
    && EnvelopesMatch(s.queue, s.envelopes)
    && s.alarm == AlarmFor(s.queue, s.envelopes)
  }

  /** Pruning keeps the queue's order and keeps exactly what is not due; what it drops it counts. */
  lemma {:induction false} PruneFromEffect(queue: seq<Id>, envelopes: map<Id, Envelope>, now: int)
    requires NoRepeats(queue) && forall id :: id in queue ==> id in envelopes
    ensures var p := PruneFrom(queue, envelopes, now);
      && (forall id :: id in p.queue <==> id in queue && envelopes[id].expiresAt > now)
      && IsSubsequence(p.queue, queue) && NoRepeats(p.queue)
      && |queue| == |p.queue| + p.expired
      && p.envelopes == map id | id in envelopes && (id in queue ==> envelopes[id].expiresAt > now) :: envelopes[id]
  {
    if queue != [] {
      var id := queue[0];
      assert queue == [id] + queue[1..] && id !in queue[1..];
      if envelopes[id].expiresAt <= now {
        PruneFromEffect(queue[1..], envelopes - {id}, now);
      } else {
        PruneFromEffect(queue[1..], envelopes, now);
      }
    }
  }

  lemma EarliestEffect(queue: seq<Id>, envelopes: map<Id, Envelope>)
    requires forall id :: id in queue ==> id in envelopes
    ensures queue == [] <==> Earliest(queue, envelopes).None?
    ensures Earliest(queue, envelopes).Some? ==>
      && (forall id :: id in queue ==> Earliest(queue, envelopes).value <= envelopes[id].expiresAt)
      && (exists id :: id in queue && envelopes[id].expiresAt == Earliest(queue, envelopes).value)
  {
    EarliestMeaning(queue, envelopes);
    assert queue != [] ==> queue[0] in queue;
    hide Earliest;
  }

  lemma PruneKeepsInv(s: State, now: int)
    requires Inv(s)
    ensures var s' := PruneStep(s, now);
      && Inv(s') && IsSubsequence(s'.queue, s.queue)
      && (forall id :: id in s'.queue <==> id in s.queue && s.envelopes[id].expiresAt > now)
      && (forall id :: id in s'.queue ==> s'.envelopes[id] == s.envelopes[id])
      && |s.queue| - |s'.queue| == s'.stats.expired - s.stats.expired
      && s'.stats == s.stats.(expired := s'.stats.expired)
  {
    PruneFromEffect(s.queue, s.envelopes, now);
    hide PruneFrom;
    hide AlarmFor;
    hide IsSubsequence;
  }

  /** After alarm(), as after any prune, nothing queued is due and the alarm is the earliest expiry. */
  lemma AlarmIsAhead(s: State, now: nat)
    requires Inv(s)
    ensures var s' := PruneStep(s, now);
      && s'.alarm == Earliest(s'.queue, s'.envelopes)
      && (s'.queue == [] <==> s'.alarm == None)
      && (s'.alarm.Some? ==> s'.alarm.value > now)
  {
    PruneKeepsInv(s, now);
    var s' := PruneStep(s, now);
    hide PruneStep;
    EarliestEffect(s'.queue, s'.envelopes);
  }

  /** The alarm is the earliest queued expiry exactly when that is not 0, the epoch itself. */
  lemma AlarmIsEarliest(s: State)
    requires Inv(s)
    ensures s.alarm == Earliest(s.queue, s.envelopes) <==> Earliest(s.queue, s.envelopes) != Some(0)
    ensures s.queue == [] ==> s.alarm == None
  {
    EarliestEffect(s.queue, s.envelopes);
  }

  /** An envelope that expires at 0 is queued without an alarm. */
  lemma EpochExpiryHasNoAlarm(now: nat)
    ensures var (r, s) := EnqueueStep(EMPTY, Envelope("a", 0, ""), now);
      r == Queued && s.queue == ["a"] && s.alarm == None && Earliest(s.queue, s.envelopes) == Some(0)
  {
    var s := EnqueueStep(EMPTY, Envelope("a", 0, ""), now).1;
    assert PruneStep(EMPTY, now) == EMPTY;
    assert s.queue == ["a"] && s.envelopes["a"].expiresAt == 0;
    assert Earliest(["a"][1..], s.envelopes) == None;
    assert Earliest(["a"], s.envelopes) == Some(0);
  }

  lemma EnqueueKeepsInv(s: State, e: Envelope, now: int)
    requires Inv(s)
    ensures var (r, s') := EnqueueStep(s, e, now);
      && Inv(s')
      && s'.queue == PruneStep(s, now).queue + (if r == Queued then [e.id] else [])
      && (Conserved(s) ==> Conserved(s'))
  {
    PruneKeepsInv(s, now);
    hide PruneStep;
    hide AlarmFor;
  }

  /** The queued ids whose envelopes are not due. */
  function Live(s: State, now: int): set<Id> {
    set id | id in s.queue && id in s.envelopes && s.envelopes[id].expiresAt > now
  }

  lemma PrunedIsLive(s: State, now: int)
    requires Inv(s)
    ensures var q := PruneStep(s, now).queue;
      (forall id :: id in q <==> id in Live(s, now)) && |q| == |Live(s, now)|
  {
    PruneKeepsInv(s, now);
    hide PruneStep;
    NoRepeatsCardinality(PruneStep(s, now).queue, Live(s, now));
  }

  /**
   * An envelope is a duplicate if one with its id is still queued, full or not; otherwise it is rejected if
   * 500 others are, and else it is stored as it came. Each answer is counted, and nothing else is.
   */
  lemma EnqueueAnswer(s: State, e: Envelope, now: int)
    requires Inv(s)
    ensures var (r, s') := EnqueueStep(s, e, now);
      && (r == Duplicate <==> e.id in Live(s, now))
      && (r == BacklogExceeded <==> e.id !in Live(s, now) && |Live(s, now)| >= MAX_BACKLOG)
      && (r == Queued ==> e.id in s'.queue && e.id in s'.envelopes && s'.envelopes[e.id] == e)
      && s'.stats.enqueued == s.stats.enqueued + (if r == Queued then 1 else 0)
      && s'.stats.rejected == s.stats.rejected + (if r == BacklogExceeded then 1 else 0)
      && s'.stats.acknowledged == s.stats.acknowledged
  {
    PruneKeepsInv(s, now);
    PrunedIsLive(s, now);
    hide PruneStep;
    hide Live;
    hide AlarmFor;
    hide Inv;
  }

  /** A delivery that is tried again before the envelope expires is a duplicate, even if the queue has filled up. */
  lemma RetryIsDuplicate(s: State, e: Envelope, now: int, again: Envelope, later: int)
    requires Inv(s) && again.id == e.id && later < e.expiresAt
    requires EnqueueStep(s, e, now).0 == Queued
    ensures var s' := EnqueueStep(s, e, now).1;
      && EnqueueStep(s', again, later).0 == Duplicate
      && EnqueueStep(s', again, later).1.stats.enqueued == s'.stats.enqueued
  {
    EnqueueAnswer(s, e, now);
    EnqueueKeepsInv(s, e, now);
    EnqueueAnswer(EnqueueStep(s, e, now).1, again, later);
    hide EnqueueStep;
    hide Inv;
  }

  /** Pages hold 50 ids unless asked otherwise, and then the number nearest to the one asked for, from 1 to 100. */
  lemma LimitIsNearest(limit: Option<int>, x: int)
    requires 1 <= x <= 100
    ensures limit == None ==> Limit(limit) == 50
    ensures limit.Some? ==>
      Max(Limit(limit) - limit.value, limit.value - Limit(limit)) <= Max(x - limit.value, limit.value - x)
  {
  }

  // ---- acknowledgement ----

  lemma {:induction false} RemainingEffect(queue: seq<Id>, ids: seq<Id>)
    requires NoRepeats(queue)
    ensures IsSubsequence(Remaining(queue, ids), queue) && NoRepeats(Remaining(queue, ids))
  {
    if queue != [] {
      assert queue[0] !in queue[1..];
      RemainingEffect(queue[1..], ids);
    }
  }

  /** The number of queue entries an acknowledgement removes is the number of distinct queued ids in it. */
  lemma {:induction false} RemainingCount(queue: seq<Id>, ids: seq<Id>)
    requires NoRepeats(queue)
    ensures |queue| - |Remaining(queue, ids)| == |set x | x in queue && x in ids|
  {
    if queue == [] {
      assert (set x | x in queue && x in ids) == {};
    } else {
      RemainingCount(queue[1..], ids);
      assert queue[0] !in queue[1..] && queue == [queue[0]] + queue[1..];
      var rest := set x | x in queue[1..] && x in ids;
      if queue[0] in ids {
        assert (set x | x in queue && x in ids) == rest + {queue[0]};
      } else {
        assert (set x | x in queue && x in ids) == rest;
      }
    }
  }

  lemma SetOfCons(x: Id, rest: seq<Id>)
    ensures (set y | y in [x] + rest) == (set y | y in rest) + {x}
  {
  }

  lemma NoRepeatsCons(x: Id, rest: seq<Id>)
    ensures NoRepeats([x] + rest) <==> x !in rest && NoRepeats(rest)
  {
    var s := [x] + rest;
    assert forall i :: 0 <= i < |rest| ==> s[i + 1] == rest[i];
    if NoRepeats(s) {
      forall i | 0 <= i < |rest| ensures rest[i] != x {
        assert s[0] != s[i + 1];
      }
    }
  }

  /** A list has as many elements as distinct ones exactly when it has no repeats. */
  lemma {:induction false} DistinctCount(ids: seq<Id>)
    ensures |set x | x in ids| <= |ids|
    ensures |set x | x in ids| == |ids| <==> NoRepeats(ids)
  {
    if ids == [] {
      assert (set x | x in ids) == {};
    } else {
      var x, rest := ids[0], ids[1..];
      assert ids == [x] + rest;
      DistinctCount(rest);
      SetOfCons(x, rest);
      NoRepeatsCons(x, rest);
      hide NoRepeats;
      var others := set y | y in rest;
      assert x in others <==> x in rest;
      assert x in rest ==> others + {x} == others;
    }
  }

  lemma AckKeepsInv(s: State, ids: seq<Id>, now: int)
    requires Inv(s)
    ensures var (_, s') := AckStep(s, ids, now);
      && Inv(s')
      && s'.queue == Remaining(PruneStep(s, now).queue, ids)
  {
    PruneKeepsInv(s, now);
    var s1 := PruneStep(s, now);
    hide PruneStep;
    RemainingEffect(s1.queue, ids);
    RemainingShorter(s1.queue, ids);
    hide AlarmFor;
    hide IsSubsequence;
    hide Remaining;
    hide Acknowledged;
  }

  lemma {:induction false} RemainingShorter(queue: seq<Id>, ids: seq<Id>)
    ensures |Remaining(queue, ids)| <= |queue|
  {
    if queue != [] {
      RemainingShorter(queue[1..], ids);
    }
  }

  /**
   * An acknowledgement conserves the counts, enqueued = acknowledged + expired +
   * queued, exactly when no queued id is named in it twice.
   */
  lemma AckConserves(s: State, ids: seq<Id>, now: int)
    requires Inv(s) && Conserved(s)
    ensures Conserved(AckStep(s, ids, now).1) <==> NoRepeats(Acknowledged(ids, PruneStep(s, now).queue))
  {
    PruneKeepsInv(s, now);
    var s1 := PruneStep(s, now);
    hide PruneStep;
    var acknowledged := Acknowledged(ids, s1.queue);
    RemainingCount(s1.queue, ids);
    DistinctCount(acknowledged);
    assert (set x | x in acknowledged) == set x | x in s1.queue && x in ids;
    hide Remaining;
    hide Acknowledged;
    hide AlarmFor;
  }

  /**
   * The number answered to an acknowledgement is what the counter gains; it is the number of queue entries
   * that leave exactly if no queued id is named twice.
   */
  lemma AckAnswer(s: State, ids: seq<Id>, now: int)
    requires Inv(s)
    ensures var (count, s') := AckStep(s, ids, now);
      && s'.stats.acknowledged == s.stats.acknowledged + count
      && (count == |Live(s, now)| - |s'.queue| <==> NoRepeats(Acknowledged(ids, PruneStep(s, now).queue)))
      && (forall id :: id in s'.queue <==> id in Live(s, now) && id !in ids)
  {
    PruneKeepsInv(s, now);
    PrunedIsLive(s, now);
    var s1 := PruneStep(s, now);
    hide PruneStep;
    var acknowledged := Acknowledged(ids, s1.queue);
    RemainingCount(s1.queue, ids);
    DistinctCount(acknowledged);
    assert (set x | x in acknowledged) == set x | x in s1.queue && x in ids;
    hide Remaining;
    hide Acknowledged;
    hide AlarmFor;
    hide Live;
  }

  lemma {:induction false} NoRepeatsAcknowledged(ids: seq<Id>, queue: seq<Id>)
    requires NoRepeats(ids)
    ensures NoRepeats(Acknowledged(ids, queue))
  {
    if ids != [] {
      assert ids[0] !in ids[1..];
      NoRepeatsAcknowledged(ids[1..], queue);
    }
  }

  // ---- whole runs ----

  /** Handler calls with their time; prune stands for alarm(), a sync or a new connection. */
  datatype Call =
    | EnqueueCall(envelope: Envelope, now: int)
    | AckCall(ids: seq<Id>, now: int)
    | PruneCall(now: int)

  function IdsOf(es: seq<Envelope>): (r: seq<Id>)
    ensures |r| == |es|
    ensures forall k :: 0 <= k < |es| ==> r[k] == es[k].id
  {
    seq(|es|, k requires 0 <= k < |es| => es[k].id)
  }

  /** The envelope that was last accepted under an id. */
  function LastAccepted(log: seq<Envelope>, id: Id): Option<Envelope> {
    if log == [] then None
    else if log[|log| - 1].id == id then Some(log[|log| - 1])
    else LastAccepted(log[..|log| - 1], id)
  }

  /** The mailbox and the envelopes it accepted so far, as they came. */
  datatype World = World(state: State, log: seq<Envelope>) {

    function Accepted(): seq<Id> {
      IdsOf(log)
    }
  }

  function Next(w: World, call: Call): World {
    match call
    case EnqueueCall(e, now) =>
      var (r, s) := EnqueueStep(w.state, e, now);
      World(s, if r == Queued then w.log + [e] else w.log)
    case AckCall(ids, now) => w.(state := AckStep(w.state, ids, now).1)
    case PruneCall(now) => w.(state := PruneStep(w.state, now))
  }

  function Run(w: World, calls: seq<Call>): World
    decreases |calls|
  {
    if calls == [] then w else Run(Next(w, calls[0]), calls[1..])
  }

  /** No acknowledgement names an id twice. */
  ghost predicate BatchesDistinct(calls: seq<Call>) {
    forall i :: 0 <= i < |calls| && calls[i].AckCall? ==> NoRepeats(calls[i].ids)
  }

  /** No envelope expires at the epoch itself. */
  ghost predicate ExpiriesNonzero(calls: seq<Call>) {
    forall i :: 0 <= i < |calls| && calls[i].EnqueueCall? ==> calls[i].envelope.expiresAt != 0
  }

  /** What is stored under a queued id is, unchanged, the envelope last accepted under it. */
  ghost predicate Kept(s: State, log: seq<Envelope>) {
    forall id :: id in s.queue ==> id in s.envelopes && LastAccepted(log, id) == Some(s.envelopes[id])
  }

  ghost predicate WorldInv(w: World) {
    && Inv(w.state) && IsSubsequence(w.state.queue, w.Accepted())
    && Kept(w.state, w.log) && w.state.stats.enqueued == |w.log|
  }

  lemma IdsOfSnoc(log: seq<Envelope>, e: Envelope)
    ensures IdsOf(log + [e]) == IdsOf(log) + [e.id]
    ensures forall id :: LastAccepted(log + [e], id) == if id == e.id then Some(e) else LastAccepted(log, id)
  {
    assert (log + [e])[..|log|] == log;
  }

  lemma {:induction false} LastAcceptedIs(log: seq<Envelope>, id: Id)
    ensures LastAccepted(log, id).Some? <==> id in IdsOf(log)
    ensures LastAccepted(log, id).Some? ==> LastAccepted(log, id).value in log && LastAccepted(log, id).value.id == id
  {
    if log != [] {
      var front, e := log[..|log| - 1], log[|log| - 1];
      assert log == front + [e];
      LastAcceptedIs(front, id);
      IdsOfSnoc(front, e);
    }
  }

  /** Pruning, acknowledging and queueing leave the envelopes that stay as they were accepted. */
  lemma NextKeepsEnvelopes(w: World, call: Call)
    requires Inv(w.state) && Kept(w.state, w.log) && w.state.stats.enqueued == |w.log|
    ensures Kept(Next(w, call).state, Next(w, call).log)
    ensures Next(w, call).state.stats.enqueued == |Next(w, call).log|
  {
    PruneKeepsInv(w.state, call.now);
    var s1 := PruneStep(w.state, call.now);
    hide PruneStep;
    hide AlarmFor;
    match call
    case EnqueueCall(e, _) => IdsOfSnoc(w.log, e);
    case AckCall(ids, _) =>
    case PruneCall(_) =>
  }

  lemma NextKeepsInv(w: World, call: Call)
    requires WorldInv(w)
    ensures WorldInv(Next(w, call))
  {
    var s := w.state;
    PruneKeepsInv(s, call.now);
    var s1 := PruneStep(s, call.now);
    SubsequenceTransitive(s1.queue, s.queue, w.Accepted());
    NextKeepsEnvelopes(w, call);
    match call
    case EnqueueCall(e, now) =>
      EnqueueKeepsInv(s, e, now);
      SubsequenceAppend(s1.queue, w.Accepted(), e.id);
      IdsOfSnoc(w.log, e);
      assert s1.queue + [] == s1.queue;
    case AckCall(ids, now) =>
      AckKeepsInv(s, ids, now);
      RemainingEffect(s1.queue, ids);
      SubsequenceTransitive(Remaining(s1.queue, ids), s1.queue, w.Accepted());
    case PruneCall(_) =>
  }

  lemma NextConserves(w: World, call: Call)
    requires Inv(w.state) && Conserved(w.state) && (call.AckCall? ==> NoRepeats(call.ids))
    ensures Conserved(Next(w, call).state)
  {
    match call
    case EnqueueCall(e, now) => EnqueueKeepsInv(w.state, e, now);
    case AckCall(ids, now) =>
      NoRepeatsAcknowledged(ids, PruneStep(w.state, now).queue);
      AckConserves(w.state, ids, now);
    case PruneCall(now) => PruneKeepsInv(w.state, now);
  }

  /**
   * After any calls at any times: queued ids are distinct, at most 500, in the
   * order in which they were accepted; the stored envelopes are exactly theirs,
   * each as it was last accepted; and the alarm is the one for their earliest expiry.
   */
  lemma {:induction false} RunKeepsInv(w: World, calls: seq<Call>)
    requires WorldInv(w)
    ensures WorldInv(Run(w, calls))
    decreases |calls|
  {
    if calls != [] {
      NextKeepsInv(w, calls[0]);
      RunKeepsInv(Next(w, calls[0]), calls[1..]);
    }
  }

  /** Acknowledging the one queued envelope twice in a batch counts it twice. */
  lemma RepeatedAckMiscounts(expiresAt: int, now: int)
    requires expiresAt > now
    ensures var w := Run(World(EMPTY, []), [EnqueueCall(Envelope("a", expiresAt, ""), now), AckCall(["a", "a"], now)]);
      w.state.queue == [] && w.state.stats == Stats(1, 2, 0, 0) && !Conserved(w.state)
  {
    var e := Envelope("a", expiresAt, "");
    var calls := [EnqueueCall(e, now), AckCall(["a", "a"], now)];
    var w0 := World(EMPTY, []);
    EmptyInv();
    var w1 := Next(w0, calls[0]);
    assert PruneStep(EMPTY, now) == EMPTY;
    assert w1.state.queue == ["a"] && w1.state.envelopes == map["a" := e];
    assert w1.state.stats == Stats(1, 0, 0, 0);
    NextKeepsInv(w0, calls[0]);
    var w2 := Next(w1, calls[1]);
    assert calls[1..][1..] == [] && calls[1..][0] == calls[1];
    assert Run(w0, calls) == Run(w1, calls[1..]) == Run(w2, []) == w2;
    TwiceAcknowledged(w1.state, now);
  }

  lemma TwiceAcknowledged(s: State, now: int)
    requires Inv(s) && s.queue == ["a"] && s.envelopes["a"].expiresAt > now
    ensures var s' := AckStep(s, ["a", "a"], now).1;
      s'.queue == [] && s'.stats == s.stats.(acknowledged := s.stats.acknowledged + 2)
  {
    var s1 := PruneStep(s, now);
    assert s.queue[0] in s.envelopes && s.queue[1..] == [];
    assert PruneFrom(s.queue, s.envelopes, now) == Pruned(["a"], 0, s.envelopes);
    hide PruneStep;
    hide Inv;
    var ids := ["a", "a"];
    assert ids[1..] == ["a"] && ids[1..][1..] == [];
    assert Acknowledged(ids[1..], s1.queue) == ["a"];
    assert Acknowledged(ids, s1.queue) == ["a", "a"];
    assert s1.queue[1..] == [];
    assert Remaining(s1.queue, ids) == [];
  }

  /** While no acknowledgement names an id twice, every accepted envelope is accounted for. */
  lemma {:induction false} RunConserves(w: World, calls: seq<Call>)
    requires WorldInv(w) && Conserved(w.state) && BatchesDistinct(calls)
    ensures Conserved(Run(w, calls).state)
    decreases |calls|
  {
    if calls != [] {
      NextKeepsInv(w, calls[0]);
      NextConserves(w, calls[0]);
      RunConserves(Next(w, calls[0]), calls[1..]);
    }
  }

  ghost predicate NonzeroEnvelopes(s: State) {
    forall id :: id in s.envelopes ==> s.envelopes[id].expiresAt != 0
  }

  lemma NextNonzero(w: World, call: Call)
    requires Inv(w.state) && NonzeroEnvelopes(w.state)
    requires call.EnqueueCall? ==> call.envelope.expiresAt != 0
    ensures NonzeroEnvelopes(Next(w, call).state)
  {
    PruneKeepsInv(w.state, call.now);
    hide PruneStep;
    hide AlarmFor;
  }

  lemma {:induction false} RunNonzero(w: World, calls: seq<Call>)
    requires WorldInv(w) && NonzeroEnvelopes(w.state) && ExpiriesNonzero(calls)
    ensures NonzeroEnvelopes(Run(w, calls).state)
    decreases |calls|
  {
    if calls != [] {
      NextKeepsInv(w, calls[0]);
      NextNonzero(w, calls[0]);
      RunNonzero(Next(w, calls[0]), calls[1..]);
    }
  }

  /** When no envelope expires at 0, the alarm is the earliest queued expiry at all times. */
  lemma RunAlarmIsEarliest(calls: seq<Call>)
    requires ExpiriesNonzero(calls)
    ensures var s := Run(World(EMPTY, []), calls).state;
      s.alarm == Earliest(s.queue, s.envelopes) && (s.queue == [] <==> s.alarm == None)
  {
    EmptyInv();
    RunKeepsInv(World(EMPTY, []), calls);
    RunNonzero(World(EMPTY, []), calls);
    var s := Run(World(EMPTY, []), calls).state;
    EarliestEffect(s.queue, s.envelopes);
    AlarmIsEarliest(s);
  }

  lemma EmptyInv()
    ensures WorldInv(World(EMPTY, [])) && Conserved(EMPTY)
  {
  }
}
