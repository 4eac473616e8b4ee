/**
 * A device reading its mailbox page by page with the returned cursor
 * (apps/relay/src/do/device-mailbox.ts), while envelopes come and go.
 */
module MailboxPaging {
  import opened Common
  import opened DeviceMailbox

  // ---- a queue that does not change ----

  /** No page of this size, from position s on, ends at the empty id. */
  predicate NamedEnds(queue: seq<Id>, s: nat, size: nat)
    requires size > 0
    decreases |queue| - s
  {
    s >= |queue| ||
    var e := Min(s + size, |queue|);
    queue[e - 1] != "" && NamedEnds(queue, e, size)
  }

  /** All pages from a cursor on until an empty one, concatenated. */
  function PagesFrom(queue: seq<Id>, after: Option<Id>, limit: Option<int>): seq<Id>
    requires NoRepeats(queue) && NamedEnds(queue, StartIndex(queue, after), Limit(limit))
    decreases |queue| - StartIndex(queue, after)
  {
    var page := PageOf(queue, after, limit);
    if page == [] then []
    else
      PageAdvances(queue, after, limit);
      page + PagesFrom(queue, CursorOf(page), limit)
  }

  lemma IndexOfElement(queue: seq<Id>, k: nat)
    requires NoRepeats(queue) && k < |queue|
    ensures IndexOf(queue, queue[k]) == k
  {
    var r := IndexOf(queue, queue[k]);
    assert queue[k] in queue;
    assert queue[r] == queue[k];
  }

  /** The cursor of a page that is not empty makes the next page start right after it, or over again. */
  lemma PageAdvances(queue: seq<Id>, after: Option<Id>, limit: Option<int>)
    requires NoRepeats(queue) && PageOf(queue, after, limit) != []
    ensures var page := PageOf(queue, after, limit);
      && CursorOf(page) == Some(page[|page| - 1]) && page[|page| - 1] in queue
      && StartIndex(queue, after) + |page| == Min(StartIndex(queue, after) + Limit(limit), |queue|)
      && page[|page| - 1] == queue[StartIndex(queue, after) + |page| - 1]
      && StartIndex(queue, CursorOf(page))
         == if page[|page| - 1] == "" then 0 else StartIndex(queue, after) + |page|
  {
    var start := StartIndex(queue, after);
    var page := PageOf(queue, after, limit);
    assert page[|page| - 1] == queue[start + |page| - 1];
    IndexOfElement(queue, start + |page| - 1);
  }

  lemma Rejoin(queue: seq<Id>, lo: nat, hi: nat)
    requires lo <= hi <= |queue|
    ensures queue[lo..] == queue[lo..hi] + queue[hi..]
  {
  }

  lemma {:induction false} PagesAreSuffix(queue: seq<Id>, after: Option<Id>, limit: Option<int>)
    requires NoRepeats(queue) && NamedEnds(queue, StartIndex(queue, after), Limit(limit))
    ensures PagesFrom(queue, after, limit) == queue[StartIndex(queue, after)..]
    decreases |queue| - StartIndex(queue, after)
  {
    hide IndexOf;
    hide NoRepeats;
    var start := StartIndex(queue, after);
    var page := PageOf(queue, after, limit);
    if page == [] {
      assert queue[start..] == [];
    } else {
      PageAdvances(queue, after, limit);
      assert page == queue[start..start + |page|];
      Rejoin(queue, start, start + |page|);
      hide PageOf;
      hide StartIndex;
      PagesAreSuffix(queue, CursorOf(page), limit);
    }
  }

  /** Started without a cursor, the pages of an unchanging queue concatenate to the queue. */
  lemma PagesAreQueue(queue: seq<Id>, limit: Option<int>)
    requires NoRepeats(queue) && NamedEnds(queue, 0, Limit(limit))
    ensures PagesFrom(queue, None, limit) == queue
  {
    PagesAreSuffix(queue, None, limit);
  }

  /** The cursor after n pages, and the page it gives. */
  function CursorAfter(queue: seq<Id>, limit: Option<int>, n: nat): Option<Id>
    decreases n, 0
  {
    if n == 0 then None else CursorOf(PageAfter(queue, limit, n - 1))
  }

  function PageAfter(queue: seq<Id>, limit: Option<int>, n: nat): seq<Id>
    decreases n, 1
  {
    PageOf(queue, CursorAfter(queue, limit, n), limit)
  }

  lemma NoCursorStartsAtFront(queue: seq<Id>)
    ensures StartIndex(queue, None) == 0
  {
  }

  lemma SomePage(queue: seq<Id>, after: Option<Id>, limit: Option<int>)
    requires !NamedEnds(queue, StartIndex(queue, after), Limit(limit))
    ensures PageOf(queue, after, limit) != []
  {
  }

  lemma NextUnnamed(queue: seq<Id>, after: Option<Id>, limit: Option<int>)
    requires NoRepeats(queue) && !NamedEnds(queue, 0, Limit(limit))
    requires !NamedEnds(queue, StartIndex(queue, after), Limit(limit))
    ensures !NamedEnds(queue, StartIndex(queue, CursorOf(PageOf(queue, after, limit))), Limit(limit))
  {
    SomePage(queue, after, limit);
    hide PageOf;
    hide NoRepeats;
    hide StartIndex;
    PageAdvances(queue, after, limit);
  }

  /** A page that ends at the empty id starts the pages over, so no page is ever empty. */
  lemma {:induction false} StartsOver(queue: seq<Id>, limit: Option<int>, n: nat)
    requires NoRepeats(queue) && !NamedEnds(queue, 0, Limit(limit))
    ensures !NamedEnds(queue, StartIndex(queue, CursorAfter(queue, limit, n)), Limit(limit))
    ensures PageAfter(queue, limit, n) != []
  {
    hide NamedEnds;
    hide StartIndex;
    hide PageOf;
    if n > 0 {
      StartsOver(queue, limit, n - 1);
      NextUnnamed(queue, CursorAfter(queue, limit, n - 1), limit);
    } else {
      NoCursorStartsAtFront(queue);
    }
    SomePage(queue, CursorAfter(queue, limit, n), limit);
  }

  lemma {:induction false} NamedPagesEnd(queue: seq<Id>, limit: Option<int>, n: nat) returns (m: nat)
    requires NoRepeats(queue) && NamedEnds(queue, StartIndex(queue, CursorAfter(queue, limit, n)), Limit(limit))
    ensures PageAfter(queue, limit, m) == []
    decreases |queue| - StartIndex(queue, CursorAfter(queue, limit, n))
  {
    hide PageOf;
    hide StartIndex;
    hide NoRepeats;
    if PageAfter(queue, limit, n) == [] {
      m := n;
    } else {
      PageAdvances(queue, CursorAfter(queue, limit, n), limit);
      m := NamedPagesEnd(queue, limit, n + 1);
    }
  }

  /** Paging comes to an empty page exactly if no page ends at the empty id. */
  lemma PagingEnds(queue: seq<Id>, limit: Option<int>)
    requires NoRepeats(queue)
    ensures NamedEnds(queue, 0, Limit(limit)) <==> exists n: nat :: PageAfter(queue, limit, n) == []
  {
    if NamedEnds(queue, 0, Limit(limit)) {
      var m := NamedPagesEnd(queue, limit, 0);
    } else {
      forall n: nat ensures PageAfter(queue, limit, n) != [] {
        StartsOver(queue, limit, n);
      }
    }
  }

  /** With the empty id queued first and pages of one, the same page comes for ever. */
  lemma {:induction false} EmptyIdRepeats(n: nat)
    ensures PageAfter(["", "b"], Some(1), n) == [""]
  {
    if n > 0 {
      EmptyIdRepeats(n - 1);
    }
  }

  // ---- a queue that changes between pages ----

  /**
   * One round: calls by others, then the device's own sync with the cursor it holds. After an
   * empty page a device may keep that cursor, or take over the missing one it was returned.
   */
  datatype Round = Round(calls: seq<Call>, limit: Option<int>, now: int, keepsCursor: bool)

  /** The mailbox with its history, the device's cursor and the envelopes it was handed. */
  datatype Client = Client(world: World, cursor: Option<Id>, received: set<Envelope>)

  /** The ids of what it was handed. */
  function Held(cl: Client): set<Id> {
    set x | x in cl.received :: x.id
  }

  /** The mailbox at the moment of the round's sync. */
  function AtSync(w: World, r: Round): World {
    Next(Run(w, r.calls), PruneCall(r.now))
  }

  function NewCursor(cursor: Option<Id>, page: seq<Id>, keepsCursor: bool): Option<Id> {
    if page == [] && keepsCursor then cursor else CursorOf(page)
  }

  function Step(cl: Client, r: Round): Client {
    var w := AtSync(cl.world, r);
    var page := PageOf(w.state.queue, cl.cursor, r.limit);
    var envelopes := EnvelopesOf(page, w.state.envelopes);
    Client(w, NewCursor(cl.cursor, page, r.keepsCursor), cl.received + set x | x in envelopes)
  }

  function Rounds(cl: Client, rs: seq<Round>): Client
    decreases |rs|
  {
    if rs == [] then cl else Rounds(Step(cl, rs[0]), rs[1..])
  }

  /** The call does not accept an id that was accepted before. */
  ghost predicate Fresh(w: World, call: Call) {
    call.EnqueueCall? ==>
      && call.envelope.id != ""
      && (call.envelope.id in w.Accepted() ==> call.envelope.id in PruneStep(w.state, call.now).queue)
  }

  /** No id is accepted twice. */
  ghost predicate NoReuse(w: World, calls: seq<Call>)
    decreases |calls|
  {
    calls != [] ==> Fresh(w, calls[0]) && NoReuse(Next(w, calls[0]), calls[1..])
  }

  /** No id is accepted twice in these rounds. */
  ghost predicate RoundsNoReuse(cl: Client, rs: seq<Round>)
    decreases |rs|
  {
    rs != [] ==> NoReuse(cl.world, rs[0].calls) && RoundsNoReuse(Step(cl, rs[0]), rs[1..])
  }

  /** e is queued at every sync of these rounds. */
  ghost predicate Stays(cl: Client, rs: seq<Round>, e: Id)
    decreases |rs|
  {
    rs != [] ==> e in AtSync(cl.world, rs[0]).state.queue && Stays(Step(cl, rs[0]), rs[1..], e)
  }

  // ---- positions in the order of acceptance ----

  /** The queued ids stand among all accepted ids in the same order, behind position lo. */
  ghost predicate Sorted(queue: seq<Id>, accepted: seq<Id>, lo: int) {
    queue != [] ==>
      && queue[0] in accepted
      && lo < IndexOf(accepted, queue[0])
      && Sorted(queue[1..], accepted, IndexOf(accepted, queue[0]))
  }

  ghost predicate Tracked(w: World) {
    && Inv(w.state) && Kept(w.state, w.log) && w.state.stats.enqueued == |w.log|
    && NoRepeats(w.Accepted()) && "" !in w.Accepted()
    && Sorted(w.state.queue, w.Accepted(), -1)
  }

  /** Between two moments ids may leave, and the ones that join stand behind all earlier ones. */
  ghost predicate Evolves(w: World, w': World) {
    && w.log <= w'.log && w.Accepted() <= w'.Accepted()
    && (forall x :: x in w'.state.queue && x in w.Accepted() ==> x in w.state.queue)
  }

  lemma IndexOfPrefix(a: seq<Id>, b: seq<Id>, x: Id)
    requires a <= b && x in a && NoRepeats(b)
    ensures IndexOf(b, x) == IndexOf(a, x)
  {
    var k := IndexOf(a, x);
    assert b[k] == x;
    IndexOfElement(b, k);
  }

  lemma {:induction false} SortedLower(queue: seq<Id>, accepted: seq<Id>, lo: int, hi: int)
    requires Sorted(queue, accepted, hi) && lo <= hi
    ensures Sorted(queue, accepted, lo)
  {
  }

  lemma {:induction false} SortedSubsequence(sub: seq<Id>, queue: seq<Id>, accepted: seq<Id>, lo: int)
    requires IsSubsequence(sub, queue) && Sorted(queue, accepted, lo)
    ensures Sorted(sub, accepted, lo)
    decreases |queue|
  {
    if sub != [] {
      if sub[0] == queue[0] {
        SortedSubsequence(sub[1..], queue[1..], accepted, IndexOf(accepted, queue[0]));
      } else {
        SortedSubsequence(sub, queue[1..], accepted, IndexOf(accepted, queue[0]));
        SortedLower(sub, accepted, lo, IndexOf(accepted, queue[0]));
      }
    }
  }

  lemma {:induction false} SortedAppend(queue: seq<Id>, accepted: seq<Id>, x: Id, lo: int)
    requires Sorted(queue, accepted, lo) && NoRepeats(accepted + [x]) && lo < |accepted|
    ensures Sorted(queue + [x], accepted + [x], lo)
  {
    var accepted' := accepted + [x];
    if queue == [] {
      assert accepted'[|accepted|] == x;
      IndexOfElement(accepted', |accepted|);
      assert ([x])[1..] == [] && queue + [x] == [x];
    } else {
      IndexOfPrefix(accepted, accepted', queue[0]);
      SortedAppend(queue[1..], accepted, x, IndexOf(accepted, queue[0]));
      assert (queue + [x])[1..] == queue[1..] + [x];
    }
  }

  lemma {:induction false} SortedOrder(queue: seq<Id>, accepted: seq<Id>, lo: int, j: nat, k: nat)
    requires Sorted(queue, accepted, lo) && j <= k < |queue|
    ensures queue[k] in accepted && queue[j] in accepted
    ensures lo < IndexOf(accepted, queue[j]) <= IndexOf(accepted, queue[k])
    ensures j < k ==> IndexOf(accepted, queue[j]) < IndexOf(accepted, queue[k])
  {
    var rest, first := queue[1..], IndexOf(accepted, queue[0]);
    SortedHead(queue, accepted, lo);
    hide *;
    if j > 0 {
      SortedOrder(rest, accepted, first, j - 1, k - 1);
      assert rest[j - 1] == queue[j] && rest[k - 1] == queue[k];
    } else if k > 0 {
      SortedOrder(rest, accepted, first, k - 1, k - 1);
      assert rest[k - 1] == queue[k];
    }
  }

  lemma SortedHead(queue: seq<Id>, accepted: seq<Id>, lo: int)
    requires queue != [] && Sorted(queue, accepted, lo)
    ensures queue[0] in accepted && lo < IndexOf(accepted, queue[0])
    ensures Sorted(queue[1..], accepted, IndexOf(accepted, queue[0]))
  {
  }

  lemma {:induction false} SubsequenceElements(sub: seq<Id>, queue: seq<Id>)
    requires IsSubsequence(sub, queue)
    ensures forall x :: x in sub ==> x in queue
    decreases |queue|
  {
    if sub != [] {
      assert sub == [sub[0]] + sub[1..] && queue == [queue[0]] + queue[1..];
      SubsequenceElements(if sub[0] == queue[0] then sub[1..] else sub, queue[1..]);
    }
  }

  lemma PruneTracked(w: World, now: int)
    requires Tracked(w)
    ensures Tracked(w.(state := PruneStep(w.state, now)))
    ensures forall x :: x in PruneStep(w.state, now).queue ==> x in w.state.queue
  {
    PruneKeepsInv(w.state, now);
    NextKeepsEnvelopes(w, PruneCall(now));
    hide PruneStep;
    hide Kept;
    SortedSubsequence(PruneStep(w.state, now).queue, w.state.queue, w.Accepted(), -1);
  }

  lemma EnqueueTracked(w: World, e: Envelope, now: int)
    requires Tracked(w) && Fresh(w, EnqueueCall(e, now))
    ensures Tracked(Next(w, EnqueueCall(e, now))) && Evolves(w, Next(w, EnqueueCall(e, now)))
  {
    PruneTracked(w, now);
    EnqueueKeepsInv(w.state, e, now);
    NextKeepsEnvelopes(w, EnqueueCall(e, now));
    IdsOfSnoc(w.log, e);
    var s1 := PruneStep(w.state, now);
    hide PruneStep;
    hide Kept;
    hide IdsOf;
    if EnqueueStep(w.state, e, now).0 == Queued {
      assert e.id !in w.Accepted();
      SortedAppend(s1.queue, w.Accepted(), e.id, -1);
    } else {
      assert s1.queue + [] == s1.queue;
    }
    hide EnqueueStep;
    hide Inv;
    hide Sorted;
  }

  lemma AckTracked(w: World, ids: seq<Id>, now: int)
    requires Tracked(w)
    ensures Tracked(Next(w, AckCall(ids, now))) && Evolves(w, Next(w, AckCall(ids, now)))
  {
    PruneTracked(w, now);
    AckKeepsInv(w.state, ids, now);
    NextKeepsEnvelopes(w, AckCall(ids, now));
    var s1 := PruneStep(w.state, now);
    hide PruneStep;
    hide Kept;
    RemainingEffect(s1.queue, ids);
    SortedSubsequence(Remaining(s1.queue, ids), s1.queue, w.Accepted(), -1);
    hide AckStep;
    hide Inv;
    hide Sorted;
    hide Remaining;
  }

  lemma NextTracked(w: World, call: Call)
    requires Tracked(w) && Fresh(w, call)
    ensures Tracked(Next(w, call)) && Evolves(w, Next(w, call))
  {
    match call
    case EnqueueCall(e, now) => EnqueueTracked(w, e, now);
    case AckCall(ids, now) => AckTracked(w, ids, now);
    case PruneCall(now) => PruneTracked(w, now);
  }

  lemma EvolvesTransitive(w: World, w1: World, w2: World)
    requires Evolves(w, w1) && Evolves(w1, w2)
    ensures Evolves(w, w2)
  {
    assert forall x :: x in w.Accepted() ==> x in w1.Accepted();
  }

  lemma {:induction false} RunTracked(w: World, calls: seq<Call>)
    requires Tracked(w) && NoReuse(w, calls)
    ensures Tracked(Run(w, calls)) && Evolves(w, Run(w, calls))
    decreases |calls|
  {
    if calls != [] {
      var w1 := Next(w, calls[0]);
      NextTracked(w, calls[0]);
      RunTracked(w1, calls[1..]);
      EvolvesTransitive(w, w1, Run(w, calls));
    }
  }

  lemma AtSyncTracked(w: World, r: Round)
    requires Tracked(w) && NoReuse(w, r.calls)
    ensures Tracked(AtSync(w, r)) && Evolves(w, AtSync(w, r))
  {
    RunTracked(w, r.calls);
    var w1 := Run(w, r.calls);
    NextTracked(w1, PruneCall(r.now));
    EvolvesTransitive(w, w1, AtSync(w, r));
  }

  // ---- the envelope e, as long as it stays ----

  /** Where e stands in the queue, and where the next page starts. */
  ghost predicate Due(w: World, cursor: Option<Id>, e: Id) {
    e in w.state.queue && StartIndex(w.state.queue, cursor) <= IndexOf(w.state.queue, e)
  }

  /** Between two syncs e never moves back, and if nothing before it left, neither did the cursor. */
  lemma AheadShrinks(w: World, w': World, e: Id)
    requires Tracked(w) && Tracked(w') && Evolves(w, w')
    requires e in w.state.queue && e in w'.state.queue
    ensures IndexOf(w'.state.queue, e) <= IndexOf(w.state.queue, e)
    ensures IndexOf(w'.state.queue, e) == IndexOf(w.state.queue, e) ==>
      w'.state.queue[..IndexOf(w.state.queue, e)] == w.state.queue[..IndexOf(w.state.queue, e)]
  {
    var q, q' := w.state.queue, w'.state.queue;
    var n, n' := IndexOf(q, e), IndexOf(q', e);
    forall k | 0 <= k < n' ensures q'[k] in q && IndexOf(q, q'[k]) < n {
      AheadWasAhead(w, w', e, k);
    }
    Injects(q, q', n, n', w, w');
  }

  /** What stands before e now stood before it then. */
  lemma AheadWasAhead(w: World, w': World, e: Id, k: nat)
    requires Tracked(w) && Tracked(w') && Evolves(w, w')
    requires e in w.state.queue && e in w'.state.queue && k < IndexOf(w'.state.queue, e)
    ensures w'.state.queue[k] in w.state.queue
    ensures IndexOf(w.state.queue, w'.state.queue[k]) < IndexOf(w.state.queue, e)
  {
    var q, q' := w.state.queue, w'.state.queue;
    var x := q'[k];
    SortedOrder(q', w'.Accepted(), -1, k, IndexOf(q', e));
    SortedOrder(q, w.Accepted(), -1, IndexOf(q, e), IndexOf(q, e));
    IndexOfPrefix(w.Accepted(), w'.Accepted(), e);
    assert w'.Accepted()[IndexOf(w'.Accepted(), x)] == w.Accepted()[IndexOf(w'.Accepted(), x)];
    IndexOfPrefix(w.Accepted(), w'.Accepted(), x);
    if IndexOf(q, x) >= IndexOf(q, e) {
      SortedOrder(q, w.Accepted(), -1, IndexOf(q, e), IndexOf(q, x));
    }
  }

  lemma StaysAhead(w: World, w': World, e: Id, x: Id)
    requires Tracked(w) && Tracked(w') && Evolves(w, w')
    requires e in w.state.queue && e in w'.state.queue && x in w.state.queue && x in w'.state.queue
    requires IndexOf(w.state.queue, x) < IndexOf(w.state.queue, e)
    ensures IndexOf(w'.state.queue, x) < IndexOf(w'.state.queue, e)
  {
    var q, q' := w.state.queue, w'.state.queue;
    SortedOrder(q, w.Accepted(), -1, IndexOf(q, x), IndexOf(q, e));
    IndexOfPrefix(w.Accepted(), w'.Accepted(), e);
    IndexOfPrefix(w.Accepted(), w'.Accepted(), x);
    if IndexOf(q', x) >= IndexOf(q', e) {
      SortedOrder(q', w'.Accepted(), -1, IndexOf(q', e), IndexOf(q', x));
    }
  }

  /** Order-preserving and into the first n: so at most n, and all of them if exactly n. */
  lemma Injects(q: seq<Id>, q': seq<Id>, n: nat, n': nat, w: World, w': World)
    requires Tracked(w) && Tracked(w') && Evolves(w, w') && q == w.state.queue && q' == w'.state.queue
    requires n <= |q| && n' <= |q'|
    requires forall k :: 0 <= k < n' ==> q'[k] in q && IndexOf(q, q'[k]) < n
    ensures n' <= n
    ensures n' == n ==> q'[..n] == q[..n]
  {
    hide *;
    forall k: nat | k < n' ensures k <= IndexOf(q, q'[k]) && IndexOf(q, q'[k]) + (n' - k) <= n {
      Climbs(q, q', w, w', n, n', k);
      Descends(q, q', w, w', n, n', k);
    }
    if n' > 0 {
      assert IndexOf(q, q'[0]) + n' <= n;
    }
    if n' == n {
      forall k: nat | k < n ensures q'[k] == q[k] {
        assert k <= IndexOf(q, q'[k]) && IndexOf(q, q'[k]) + (n' - k) <= n;
        assert q[IndexOf(q, q'[k])] == q'[k];
      }
    }
  }

  lemma IndexIncreases(q: seq<Id>, q': seq<Id>, w: World, w': World, j: nat, k: nat)
    requires Tracked(w) && Tracked(w') && Evolves(w, w') && q == w.state.queue && q' == w'.state.queue
    requires j < k < |q'| && q'[j] in q && q'[k] in q
    ensures IndexOf(q, q'[j]) < IndexOf(q, q'[k])
  {
    SortedOrder(q', w'.Accepted(), -1, j, k);
    SortedOrder(q, w.Accepted(), -1, IndexOf(q, q'[j]), IndexOf(q, q'[j]));
    SortedOrder(q, w.Accepted(), -1, IndexOf(q, q'[k]), IndexOf(q, q'[k]));
    IndexOfPrefix(w.Accepted(), w'.Accepted(), q'[j]);
    IndexOfPrefix(w.Accepted(), w'.Accepted(), q'[k]);
    if IndexOf(q, q'[j]) >= IndexOf(q, q'[k]) {
      SortedOrder(q, w.Accepted(), -1, IndexOf(q, q'[k]), IndexOf(q, q'[j]));
    }
  }

  lemma {:induction false} Climbs(q: seq<Id>, q': seq<Id>, w: World, w': World, n: nat, n': nat, k: nat)
    requires Tracked(w) && Tracked(w') && Evolves(w, w') && q == w.state.queue && q' == w'.state.queue
    requires n' <= |q'| && k < n'
    requires forall i :: 0 <= i < n' ==> q'[i] in q && IndexOf(q, q'[i]) < n
    ensures k <= IndexOf(q, q'[k])
  {
    hide *;
    if k > 0 {
      Climbs(q, q', w, w', n, n', k - 1);
      IndexIncreases(q, q', w, w', k - 1, k);
    }
  }

  lemma {:induction false} Descends(q: seq<Id>, q': seq<Id>, w: World, w': World, n: nat, n': nat, k: nat)
    requires Tracked(w) && Tracked(w') && Evolves(w, w') && q == w.state.queue && q' == w'.state.queue
    requires n' <= |q'| && k < n'
    requires forall i :: 0 <= i < n' ==> q'[i] in q && IndexOf(q, q'[i]) < n
    ensures IndexOf(q, q'[k]) + (n' - k) <= n
    decreases n' - k
  {
    hide *;
    if k + 1 < n' {
      Descends(q, q', w, w', n, n', k + 1);
      IndexIncreases(q, q', w, w', k, k + 1);
    }
  }

  /** The cursor was handed out at some time, or there is none. */
  predicate KnownCursor(w: World, cursor: Option<Id>) {
    cursor.Some? ==> cursor.value in w.Accepted()
  }

  /** Where the next page starts is not past e after the calls of others, however many left. */
  lemma StartKeepsUp(w: World, w': World, cursor: Option<Id>, e: Id)
    requires Tracked(w) && Tracked(w') && Evolves(w, w') && KnownCursor(w, cursor)
    requires Due(w, cursor, e) && e in w'.state.queue
    ensures Due(w', cursor, e)
    ensures IndexOf(w'.state.queue, e) == IndexOf(w.state.queue, e) ==>
      StartIndex(w'.state.queue, cursor) == StartIndex(w.state.queue, cursor)
  {
    AheadShrinks(w, w', e);
    if cursor.Some? && cursor.value != "" && cursor.value in w.state.queue {
      var q, q', x := w.state.queue, w'.state.queue, cursor.value;
      if x in q' {
        StaysAhead(w, w', e, x);
      }
      if IndexOf(q', e) == IndexOf(q, e) {
        SameIndex(q, q', x, IndexOf(q, e));
      }
    }
  }

  lemma SameIndex(q: seq<Id>, q': seq<Id>, x: Id, n: nat)
    requires n <= |q| && n <= |q'| && q[..n] == q'[..n] && NoRepeats(q') && x in q && IndexOf(q, x) < n
    ensures IndexOf(q', x) == IndexOf(q, x)
  {
    var k := IndexOf(q, x);
    assert q'[k] == q'[..n][k] == q[..n][k];
    IndexOfElement(q', k);
  }

  lemma IndexInPrefix(a: seq<Id>, b: seq<Id>, x: Id)
    requires a <= b && x in b
    ensures IndexOf(b, x) < |a| ==> x in a
  {
    var k := IndexOf(b, x);
    if k < |a| {
      assert a[k] == b[k];
    }
  }

  /** What is accepted after the cursor's id stands behind it. */
  lemma NewcomerIsDue(w: World, w': World, cursor: Option<Id>, e: Id)
    requires Tracked(w') && Evolves(w, w') && KnownCursor(w, cursor)
    requires e !in w.Accepted() && e in w'.state.queue
    ensures Due(w', cursor, e)
  {
    var q' := w'.state.queue;
    if cursor.Some? && cursor.value in q' {
      var x := cursor.value;
      IndexOfPrefix(w.Accepted(), w'.Accepted(), x);
      SortedOrder(q', w'.Accepted(), -1, IndexOf(q', e), IndexOf(q', e));
      IndexInPrefix(w.Accepted(), w'.Accepted(), e);
      if IndexOf(q', x) >= IndexOf(q', e) {
        SortedOrder(q', w'.Accepted(), -1, IndexOf(q', e), IndexOf(q', x));
      }
    }
  }

  /** The syncs that may still miss e: it shrinks when an id before e leaves, or a page is read. */
  function Rank(w: World, cursor: Option<Id>, e: Id): nat
    requires Due(w, cursor, e)
  {
    var n := IndexOf(w.state.queue, e);
    Triangle(n) + n - StartIndex(w.state.queue, cursor)
  }

  function Triangle(n: nat): nat {
    n * (n + 1) / 2
  }

  lemma TriangleGrows(m: nat, n: nat)
    requires m < n
    ensures Triangle(m) + m < Triangle(n)
  {
    assert n * (n + 1) >= (m + 1) * (m + 2);
    assert (m + 1) * (m + 2) == m * (m + 1) + 2 * (m + 1);
  }

  lemma RankFalls(w: World, w': World, cursor: Option<Id>, e: Id)
    requires Tracked(w) && Tracked(w') && Evolves(w, w') && KnownCursor(w, cursor)
    requires Due(w, cursor, e) && e in w'.state.queue
    ensures Due(w', cursor, e) && Rank(w', cursor, e) <= Rank(w, cursor, e)
  {
    StartKeepsUp(w, w', cursor, e);
    AheadShrinks(w, w', e);
    var n, n' := IndexOf(w.state.queue, e), IndexOf(w'.state.queue, e);
    RankOrder(n, n', StartIndex(w.state.queue, cursor), StartIndex(w'.state.queue, cursor));
    hide Tracked;
    hide Evolves;
    hide IndexOf;
    hide StartIndex;
    hide Triangle;
  }

  lemma RankOrder(n: nat, n': nat, s: nat, s': nat)
    requires n' <= n && s <= n && s' <= n' && (n' == n ==> s' == s)
    ensures Triangle(n') + n' - s' <= Triangle(n) + n - s
  {
    if n' < n {
      TriangleGrows(n', n);
    }
    hide Triangle;
  }

  /** A page holds e, or the next page starts nearer to it. */
  lemma PageNears(w: World, cursor: Option<Id>, limit: Option<int>, e: Id)
    requires Tracked(w) && Due(w, cursor, e)
    ensures var page := PageOf(w.state.queue, cursor, limit);
      && page != []
      && (e in page || (Due(w, CursorOf(page), e) && Rank(w, CursorOf(page), e) < Rank(w, cursor, e)))
  {
    var q := w.state.queue;
    var page, start, n := PageOf(q, cursor, limit), StartIndex(q, cursor), IndexOf(q, e);
    hide IndexOf;
    hide Sorted;
    assert page != [];
    PageAdvances(q, cursor, limit);
    if n < start + |page| {
      assert page[n - start] == e;
    } else {
      SortedNotEmpty(w);
    }
  }

  lemma SortedNotEmpty(w: World)
    requires Tracked(w)
    ensures "" !in w.state.queue
    ensures forall x :: x in w.state.queue ==> x in w.Accepted()
  {
    forall x | x in w.state.queue ensures x in w.Accepted() {
      var k := IndexOf(w.state.queue, x);
      SortedOrder(w.state.queue, w.Accepted(), -1, k, k);
    }
  }

  // ---- a device in the course of its syncs ----

  /**
   * What the device was handed are accepted envelopes, and nothing queued that it has not been handed
   * stands before its next page.
   */
  ghost predicate ClientOk(cl: Client) {
    && Tracked(cl.world) && KnownCursor(cl.world, cl.cursor)
    && (forall x :: x in cl.received ==> x in cl.world.log)
    && forall e :: e in cl.world.state.queue ==> e in Held(cl) || Due(cl.world, cl.cursor, e)
  }

  /** The envelopes of a page are those accepted under its ids. */
  lemma PageEnvelopes(w: World, page: seq<Id>)
    requires Kept(w.state, w.log) && forall id :: id in page ==> id in w.state.queue
    ensures var es := set x | x in EnvelopesOf(page, w.state.envelopes);
      && (forall x :: x in es ==> x in w.log && x.id in page)
      && (forall id :: id in page ==> exists x :: x in es && x.id == id)
  {
    EnvelopesInOrder(page, w.state.envelopes);
    forall id | id in page
      ensures id in w.state.envelopes && w.state.envelopes[id] in w.log && w.state.envelopes[id].id == id
    {
      LastAcceptedIs(w.log, id);
    }
    forall id | id in page ensures exists x :: x in EnvelopesOf(page, w.state.envelopes) && x.id == id {
      var k :| 0 <= k < |page| && page[k] == id;
      assert EnvelopesOf(page, w.state.envelopes)[k] == w.state.envelopes[id];
    }
    hide EnvelopesOf;
    hide Kept;
  }

  /** A sync hands over the envelopes of its page, as they were accepted. */
  lemma StepReceives(cl: Client, r: Round)
    requires Tracked(AtSync(cl.world, r))
    ensures var w, cl' := AtSync(cl.world, r), Step(cl, r);
      && Held(cl') == Held(cl) + (set x | x in PageOf(w.state.queue, cl.cursor, r.limit))
      && forall x :: x in cl'.received ==> x in cl.received || x in w.log
  {
    var w := AtSync(cl.world, r);
    hide AtSync;
    PageEnvelopes(w, PageOf(w.state.queue, cl.cursor, r.limit));
    hide Tracked;
    hide PageOf;
    hide EnvelopesOf;
  }

  /** At the next sync too, whether e was queued before or came in between. */
  lemma DueAtSync(cl: Client, r: Round, e: Id)
    requires ClientOk(cl) && NoReuse(cl.world, r.calls)
    requires e in AtSync(cl.world, r).state.queue && e !in Held(cl)
    ensures Due(AtSync(cl.world, r), cl.cursor, e)
  {
    AtSyncTracked(cl.world, r);
    var w := AtSync(cl.world, r);
    hide AtSync;
    if e in cl.world.Accepted() {
      StartKeepsUp(cl.world, w, cl.cursor, e);
    } else {
      NewcomerIsDue(cl.world, w, cl.cursor, e);
    }
  }

  /** One sync hands over e or brings the next page nearer to it. */
  lemma StepNears(cl: Client, r: Round, e: Id)
    requires ClientOk(cl) && NoReuse(cl.world, r.calls)
    requires e in AtSync(cl.world, r).state.queue && e !in Held(cl)
    ensures Due(AtSync(cl.world, r), cl.cursor, e)
    ensures var cl' := Step(cl, r);
      e in Held(cl') || (Due(cl'.world, cl'.cursor, e)
        && Rank(cl'.world, cl'.cursor, e) < Rank(AtSync(cl.world, r), cl.cursor, e))
  {
    DueAtSync(cl, r, e);
    AtSyncTracked(cl.world, r);
    var w := AtSync(cl.world, r);
    hide AtSync;
    hide ClientOk;
    PageNears(w, cl.cursor, r.limit, e);
    StepReceives(cl, r);
    hide PageOf;
    hide Due;
    hide Rank;
    hide Held;
    hide EnvelopesOf;
    hide Tracked;
    hide Evolves;
  }

  lemma StepKnowsCursor(cl: Client, r: Round)
    requires Tracked(cl.world) && KnownCursor(cl.world, cl.cursor) && NoReuse(cl.world, r.calls)
    ensures var cl' := Step(cl, r); Tracked(cl'.world) && KnownCursor(cl'.world, cl'.cursor)
  {
    AtSyncTracked(cl.world, r);
    var w := AtSync(cl.world, r);
    hide AtSync;
    SortedNotEmpty(w);
    hide Tracked;
  }

  /** Every round keeps it so. */
  lemma StepKeepsOk(cl: Client, r: Round)
    requires ClientOk(cl) && NoReuse(cl.world, r.calls)
    ensures ClientOk(Step(cl, r))
  {
    var cl' := Step(cl, r);
    assert cl'.world == AtSync(cl.world, r);
    StepKnowsCursor(cl, r);
    StepReceives(cl, r);
    AtSyncTracked(cl.world, r);
    hide Step;
    hide AtSync;
    hide Held;
    forall e | e in cl'.world.state.queue && e !in Held(cl') ensures Due(cl'.world, cl'.cursor, e) {
      StepNears(cl, r, e);
    }
    hide Tracked;
    hide Due;
    assert forall x :: x in cl.world.log ==> x in cl'.world.log;
  }

  lemma {:induction false} RoundsKeepOk(cl: Client, rs: seq<Round>)
    requires ClientOk(cl) && RoundsNoReuse(cl, rs)
    ensures ClientOk(Rounds(cl, rs))
    decreases |rs|
  {
    if rs != [] {
      StepKeepsOk(cl, rs[0]);
      RoundsKeepOk(Step(cl, rs[0]), rs[1..]);
    }
  }

  lemma {:induction false} ReceivedKept(cl: Client, rs: seq<Round>, e: Id)
    requires e in Held(cl)
    ensures e in Held(Rounds(cl, rs))
    decreases |rs|
  {
    if rs != [] {
      ReceivedKept(Step(cl, rs[0]), rs[1..], e);
    }
  }

  lemma {:induction false} DueIsReceived(cl: Client, rs: seq<Round>, e: Id)
    requires ClientOk(cl) && Due(cl.world, cl.cursor, e)
    requires RoundsNoReuse(cl, rs) && Stays(cl, rs, e) && |rs| > Rank(cl.world, cl.cursor, e)
    ensures e in Held(Rounds(cl, rs))
    decreases |rs|
  {
    if e in Held(cl) {
      ReceivedKept(cl, rs, e);
    } else {
      var w, cl' := AtSync(cl.world, rs[0]), Step(cl, rs[0]);
      AtSyncTracked(cl.world, rs[0]);
      RankFalls(cl.world, w, cl.cursor, e);
      StepNears(cl, rs[0], e);
      StepKeepsOk(cl, rs[0]);
      if e in Held(cl') {
        ReceivedKept(cl', rs[1..], e);
      } else {
        DueIsReceived(cl', rs[1..], e);
      }
    }
  }

  /** From any state of a device: what is queued at each of the following syncs is received. */
  lemma QueuedIsReceived(cl: Client, rs: seq<Round>, e: Id)
    requires ClientOk(cl)
    requires RoundsNoReuse(cl, rs) && Stays(cl, rs, e) && |rs| > Triangle(MAX_BACKLOG)
    ensures e in Held(Rounds(cl, rs))
  {
    if e in Held(cl) {
      ReceivedKept(cl, rs, e);
    } else {
      var w, cl' := AtSync(cl.world, rs[0]), Step(cl, rs[0]);
      AtSyncTracked(cl.world, rs[0]);
      TriangleGrows(IndexOf(w.state.queue, e), MAX_BACKLOG);
      StepNears(cl, rs[0], e);
      StepKeepsOk(cl, rs[0]);
      if e in Held(cl') {
        ReceivedKept(cl', rs[1..], e);
      } else {
        DueIsReceived(cl', rs[1..], e);
      }
    }
  }

  /** Ids being distinct, an accepted envelope whose id the device holds is one it was handed. */
  lemma HeldIsReceived(cl: Client, e: Envelope)
    requires ClientOk(cl) && e in cl.world.log && e.id in Held(cl)
    ensures e in cl.received
  {
    var x :| x in cl.received && x.id == e.id;
    var log := cl.world.log;
    var j :| 0 <= j < |log| && log[j] == x;
    var k :| 0 <= k < |log| && log[k] == e;
    assert cl.world.Accepted()[j] == cl.world.Accepted()[k];
    hide Inv;
    hide Sorted;
    hide Kept;
    hide Due;
  }

  /**
   * A device that starts without a cursor and keeps asking with the cursor it was given is handed every
   * accepted envelope that stays queued, as it was accepted and from whenever it is queued, whatever is
   * enqueued, acknowledged or expired in between, and whatever the device makes of an empty page. And it is
   * handed nothing that was not accepted.
   */
  lemma NothingIsSkipped(calls: seq<Call>, before: seq<Round>, rs: seq<Round>, e: Envelope)
    requires NoReuse(World(EMPTY, []), calls)
    requires var start := Client(Run(World(EMPTY, []), calls), None, {});
      && RoundsNoReuse(start, before)
      && RoundsNoReuse(Rounds(start, before), rs)
      && Stays(Rounds(start, before), rs, e.id)
      && e in Rounds(Rounds(start, before), rs).world.log
    requires |rs| > Triangle(MAX_BACKLOG)
    ensures var end := Rounds(Rounds(Client(Run(World(EMPTY, []), calls), None, {}), before), rs);
      e in end.received && forall x :: x in end.received ==> x in end.world.log
  {
    EmptyInv();
    RunTracked(World(EMPTY, []), calls);
    var start := Client(Run(World(EMPTY, []), calls), None, {});
    assert ClientOk(start);
    var end := Rounds(Rounds(start, before), rs);
    OkReceivesAccepted(end);
    hide *;
    RoundsKeepOk(start, before);
    RoundsKeepOk(Rounds(start, before), rs);
    QueuedIsReceived(Rounds(start, before), rs, e.id);
    HeldIsReceived(end, e);
  }

  lemma OkReceivesAccepted(cl: Client)
    ensures ClientOk(cl) ==> forall x :: x in cl.received ==> x in cl.world.log
  {
  }
}
