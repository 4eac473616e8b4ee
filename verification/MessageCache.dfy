/**
 * The on-device cache of recent group messages (apps/mobile/src/lib/db.ts).
 * The table is the list of its rows in insertion order; a timestamp is a number.
 */
module MessageCache {
  import opened Common
  import opened Sorting

  const MAX_CACHED_GROUP_MESSAGES: nat := 500

  type Id = string

  datatype Message = Message(id: Id, createdAt: int, body: string)

  datatype Row = Row(conversationId: Id, message: Message)

  // ---- the statements of the table ----

  predicate Earlier(a: Message, b: Message) {
    a.createdAt < b.createdAt
  }

  /** Ordered by time; entries of the same time keep their order. */
  function SortByTime(s: seq<Message>): seq<Message> {
    Sort(s, Earlier)
  }

  function Ids(s: seq<Message>): set<Id> {
    set m | m in s :: m.id
  }

  /** The rows of one conversation, in table order. */
  function Select(rows: seq<Row>, c: Id): seq<Message> {
    if rows == [] then []
    else if rows[0].conversationId == c then [rows[0].message] + Select(rows[1..], c)
    else Select(rows[1..], c)
  }

  /** Insert, or overwrite the row with the same conversation and message id. */
  function Upsert(rows: seq<Row>, c: Id, m: Message): seq<Row> {
    if rows == [] then [Row(c, m)]
    else if rows[0].conversationId == c && rows[0].message.id == m.id then [Row(c, m)] + rows[1..]
    else [rows[0]] + Upsert(rows[1..], c, m)
  }

  function UpsertAll(rows: seq<Row>, c: Id, ms: seq<Message>): seq<Row> {
    if ms == [] then rows
    else Upsert(UpsertAll(rows, c, ms[..|ms| - 1]), c, ms[|ms| - 1])
  }

  /** Delete the rows of the conversation whose id is not among those given. */
  function DeleteOthers(rows: seq<Row>, c: Id, kept: set<Id>): seq<Row> {
    if rows == [] then []
    else if rows[0].conversationId == c && rows[0].message.id !in kept then DeleteOthers(rows[1..], c, kept)
    else [rows[0]] + DeleteOthers(rows[1..], c, kept)
  }

  /** The cached messages of a conversation, oldest first. */
  function Load(rows: seq<Row>, c: Id): seq<Message> {
    SortByTime(Select(rows, c))
  }

  function Trim(rows: seq<Row>, c: Id): seq<Row> {
    DeleteOthers(rows, c, Ids(Last(MAX_CACHED_GROUP_MESSAGES, Load(rows, c))))
  }

  /** What saving writes of a batch: its latest 500 entries. */
  function Recent(ms: seq<Message>): seq<Message> {
    Last(MAX_CACHED_GROUP_MESSAGES, SortByTime(ms))
  }

  function Saved(rows: seq<Row>, c: Id, ms: seq<Message>): seq<Row> {
    Trim(UpsertAll(rows, c, Recent(ms)), c)
  }

  /** The table, changed in place by saves. */
  class GroupMessageTable {
    var rows: seq<Row>

    constructor ()
      ensures rows == []
    {
      rows := [];
    }

    method SaveCachedGroupMessages(c: Id, messages: seq<Message>)
      modifies this
      ensures rows == Saved(old(rows), c, messages)
    {
      var recent := Last(MAX_CACHED_GROUP_MESSAGES, SortByTime(messages));
      for i := 0 to |recent|
        invariant rows == UpsertAll(old(rows), c, recent[..i])
      {
        assert recent[..i + 1][..i] == recent[..i];
        rows := Upsert(rows, c, recent[i]);
      }
      assert recent[..|recent|] == recent;
      rows := DeleteOthers(rows, c, Ids(Last(MAX_CACHED_GROUP_MESSAGES, SortByTime(Select(rows, c)))));
    }

    method LoadCachedGroupMessages(c: Id) returns (r: seq<Message>)
      ensures r == Load(rows, c)
      ensures Ascending(r, Earlier)
      ensures forall m :: m in r <==> Row(c, m) in rows
      ensures multiset(r) == multiset(Select(rows, c))
    {
      r := SortByTime(Select(rows, c));
      EarlierIsStrict();
      SortAscending(Select(rows, c), Earlier);
      SortPermutes(Select(rows, c), Earlier);
      forall m ensures m in r <==> Row(c, m) in rows {
        SelectMeaning(rows, c, m);
      }
    }

    /** One pass over the rows; of the latest rows of the conversation, the last. */
    method LoadLatestCachedGroupMessage(c: Id) returns (r: Option<Message>)
      ensures var all := Load(rows, c);
        r == if all == [] then None else Some(all[|all| - 1])
    {
      r := None;
      var selected := Select(rows, c);
      hide Insert;
      hide Select;
      for i := 0 to |selected|
        invariant var all := SortByTime(selected[..i]);
          r == if all == [] then None else Some(all[|all| - 1])
      {
        assert selected[..i + 1][..i] == selected[..i];
        LastOfInsert(SortByTime(selected[..i]), selected[i]);
        if r.None? || r.value.createdAt <= selected[i].createdAt {
          r := Some(selected[i]);
        }
      }
      assert selected[..|selected|] == selected;
    }
  }

  lemma {:induction false} SelectMeaning(rows: seq<Row>, c: Id, m: Message)
    ensures m in Select(rows, c) <==> Row(c, m) in rows
  {
    if rows != [] {
      SelectMeaning(rows[1..], c, m);
      assert rows == [rows[0]] + rows[1..];
    }
  }

  lemma LastOfInsert(s: seq<Message>, m: Message)
    ensures var r := Insert(s, m, Earlier);
      r[|r| - 1] == if s == [] || s[|s| - 1].createdAt <= m.createdAt then m else s[|s| - 1]
  {
  }

  // ---- what the cache is for: the newest 500 of everything ever saved ----

  /** In strictly increasing time. */
  ghost predicate Chronological(s: seq<Message>) {
    Increasing(s, Earlier)
  }

  lemma EarlierIsStrict()
    ensures StrictOrder(Earlier)
    ensures forall a, b, c :: !Earlier(a, b) && !Earlier(b, c) ==> !Earlier(a, c)
  {
  }

  /** Record a message in a chronicle, over an earlier record of the same time. */
  function Put(s: seq<Message>, m: Message): seq<Message> {
    if s == [] then [m]
    else
      var last := s[|s| - 1];
      if last.createdAt < m.createdAt then s + [m]
      else if last.createdAt == m.createdAt then s[..|s| - 1] + [m]
      else Put(s[..|s| - 1], m) + [last]
  }

  function PutAll(s: seq<Message>, ms: seq<Message>): seq<Message> {
    if ms == [] then s
    else Put(PutAll(s, ms[..|ms| - 1]), ms[|ms| - 1])
  }

  /** Everything in the list, each message as last listed, oldest first. */
  function Chronicle(ms: seq<Message>): seq<Message> {
    PutAll([], ms)
  }

  /** Each id has one time, and no other id has it. */
  ghost predicate OneTimeEach(time: Id -> int) {
    forall x, y :: time(x) == time(y) ==> x == y
  }

  ghost predicate Dated(ms: seq<Message>, time: Id -> int) {
    forall m :: m in ms ==> m.createdAt == time(m.id)
  }

  // ---- chronicles ----

  lemma {:induction false} PutElements(s: seq<Message>, m: Message)
    requires Chronological(s)
    ensures Chronological(Put(s, m))
    ensures forall x :: x in Put(s, m) <==> x == m || (x in s && x.createdAt != m.createdAt)
  {
    if s != [] {
      var front, last := s[..|s| - 1], s[|s| - 1];
      assert s == front + [last];
      if last.createdAt > m.createdAt {
        PutElements(front, m);
        forall x | x in Put(front, m) ensures x.createdAt < last.createdAt {
        }
      }
    }
  }

  /** The chronicle of a list holds each message as last listed, and nothing else. */
  lemma {:induction false} ChronicleMeaning(ms: seq<Message>)
    ensures Chronological(Chronicle(ms))
    ensures forall x :: x in Chronicle(ms) <==> LastListed(ms, x)
  {
    if ms != [] {
      var front, m := ms[..|ms| - 1], ms[|ms| - 1];
      ChronicleMeaning(front);
      PutElements(Chronicle(front), m);
      hide Put;
      hide LastListed;
      assert ms == front + [m];
      forall x ensures LastListed(ms, x) <==> x == m || (LastListed(front, x) && x.createdAt != m.createdAt) {
        LastListedOfSnoc(front, m, x);
      }
    }
  }

  /** x is listed, and nothing of its time is listed after it. */
  ghost predicate LastListed(ms: seq<Message>, x: Message) {
    exists i :: 0 <= i < |ms| && ms[i] == x && forall j :: i < j < |ms| ==> ms[j].createdAt != x.createdAt
  }

  lemma LastListedOfSnoc(front: seq<Message>, m: Message, x: Message)
    ensures LastListed(front + [m], x) <==> x == m || (LastListed(front, x) && x.createdAt != m.createdAt)
  {
    var ms := front + [m];
    assert ms[|front|] == m;
    if LastListed(ms, x) && x != m {
      var i :| 0 <= i < |ms| && ms[i] == x && forall j :: i < j < |ms| ==> ms[j].createdAt != x.createdAt;
      assert front[i] == x;
      assert forall j :: i < j < |front| ==> ms[j] == front[j];
    }
    if LastListed(front, x) && x.createdAt != m.createdAt {
      var i :| 0 <= i < |front| && front[i] == x && forall j :: i < j < |front| ==> front[j].createdAt != x.createdAt;
      assert ms[i] == x;
      assert forall j :: i < j < |front| ==> ms[j] == front[j];
    }
  }

  lemma {:induction false} PutCommutes(s: seq<Message>, a: Message, b: Message)
    requires a.createdAt != b.createdAt
    ensures Put(Put(s, a), b) == Put(Put(s, b), a)
  {
    if s != [] {
      hide Put;
      var front, last := s[..|s| - 1], s[|s| - 1];
      PutCommutes(front, a, b);
      PutOnSnoc(front, last, a);
      PutOnSnoc(front, last, b);
      PutTwice(front, last, a, b);
      PutTwice(front, last, b, a);
      assert s == front + [last];
    }
  }

  lemma PutOnSnoc(front: seq<Message>, last: Message, m: Message)
    ensures Put(front + [last], m) ==
      if last.createdAt < m.createdAt then front + [last] + [m]
      else if last.createdAt == m.createdAt then front + [m]
      else Put(front, m) + [last]
  {
    assert (front + [last])[..|front|] == front;
  }

  /** Two entries of different times on a chronicle, read off its last entry. */
  lemma PutTwice(front: seq<Message>, last: Message, a: Message, b: Message)
    requires a.createdAt != b.createdAt
    ensures Put(Put(front + [last], a), b) ==
      if last.createdAt < a.createdAt then
        (if a.createdAt < b.createdAt then front + [last] + [a] + [b] else Put(front + [last], b) + [a])
      else if last.createdAt == a.createdAt then
        (if a.createdAt < b.createdAt then front + [a] + [b] else Put(front, b) + [a])
      else if last.createdAt < b.createdAt then Put(front, a) + [last] + [b]
      else if last.createdAt == b.createdAt then Put(front, a) + [b]
      else Put(Put(front, a), b) + [last]
  {
    PutOnSnoc(front, last, a);
    hide Put;
    if last.createdAt < a.createdAt {
      PutOnSnoc(front + [last], a, b);
    } else if last.createdAt == a.createdAt {
      PutOnSnoc(front, a, b);
    } else {
      PutOnSnoc(Put(front, a), last, b);
    }
  }

  lemma {:induction false} PutOverwrites(s: seq<Message>, a: Message, b: Message)
    requires a.createdAt == b.createdAt
    ensures Put(Put(s, a), b) == Put(s, b)
  {
    if s == [] {
      assert Put([], a) == [] + [a];
      PutOnSnoc([], a, b);
    } else {
      var front, last := s[..|s| - 1], s[|s| - 1];
      assert s == front + [last];
      PutOverwrites(front, a, b);
      PutOnSnoc(front, last, a);
      PutOnSnoc(front, last, b);
      hide Put;
      if last.createdAt < a.createdAt {
        PutOnSnoc(front + [last], a, b);
      } else if last.createdAt == a.createdAt {
        PutOnSnoc(front, a, b);
      } else {
        PutOnSnoc(Put(front, a), last, b);
      }
    }
  }

  lemma {:induction false} PutAllAppend(s: seq<Message>, a: seq<Message>, b: seq<Message>)
    ensures PutAll(s, a + b) == PutAll(PutAll(s, a), b)
  {
    if b == [] {
      assert a + b == a;
    } else {
      PutAllAppend(s, a, b[..|b| - 1]);
      assert (a + b)[..|a + b| - 1] == a + b[..|b| - 1];
    }
  }

  lemma {:induction false} PutAllIncreasing(s: seq<Message>, ms: seq<Message>)
    requires Chronological(s)
    ensures Chronological(PutAll(s, ms))
  {
    if ms != [] {
      PutAllIncreasing(s, ms[..|ms| - 1]);
      PutElements(PutAll(s, ms[..|ms| - 1]), ms[|ms| - 1]);
    }
  }

  /** Sorting a batch first records the same. */
  lemma {:induction false} PutAllSorted(s: seq<Message>, ms: seq<Message>)
    ensures PutAll(s, SortByTime(ms)) == PutAll(s, ms)
  {
    if ms != [] {
      PutAllSorted(s, ms[..|ms| - 1]);
      PutAllInsert(s, SortByTime(ms[..|ms| - 1]), ms[|ms| - 1]);
    }
  }

  lemma {:induction false} PutAllInsert(s: seq<Message>, t: seq<Message>, m: Message)
    ensures PutAll(s, Insert(t, m, Earlier)) == Put(PutAll(s, t), m)
  {
    if t == [] || t[|t| - 1].createdAt <= m.createdAt {
      assert (t + [m])[..|t|] == t;
    } else {
      var front, last := t[..|t| - 1], t[|t| - 1];
      PutAllInsert(s, front, m);
      var r := Insert(front, m, Earlier);
      assert (r + [last])[..|r|] == r;
      PutCommutes(PutAll(s, front), m, last);
    }
  }

  // ---- trimming loses nothing ----

  lemma LastOfSnoc<T>(n: nat, s: seq<T>, x: T)
    requires n > 0
    ensures Last(n, s + [x]) == Last(n - 1, s) + [x]
  {
  }

  /** Cutting, putting and cutting again is putting and cutting once. */
  lemma {:induction false} PutThenLast(n: nat, s: seq<Message>, m: Message)
    ensures Last(n, Put(Last(n, s), m)) == Last(n, Put(s, m))
  {
    hide Put;
    hide Last;
    LastOfNothing(n, s, m);
    if n > 0 && s != [] {
      var front, last := s[..|s| - 1], s[|s| - 1];
      var t := Last(n - 1, front);
      assert s == front + [last];
      LastOfSnoc(n, front, last);
      PutOnSnoc(front, last, m);
      PutOnSnoc(t, last, m);
      if last.createdAt < m.createdAt {
        LastOfTwo(n, front, last, m);
      } else if last.createdAt == m.createdAt {
        LastOfSnoc(n, front, m);
        LastOfSnoc(n, t, m);
        LastTwice(n - 1, front);
      } else {
        PutThenLast(n - 1, front, m);
        LastOfSnoc(n, Put(front, m), last);
        LastOfSnoc(n, Put(t, m), last);
      }
    }
  }

  lemma LastOfNothing(n: nat, s: seq<Message>, m: Message)
    ensures n == 0 || s == [] ==> Last(n, Put(Last(n, s), m)) == Last(n, Put(s, m))
  {
  }

  lemma LastTwice<T>(n: nat, s: seq<T>)
    ensures Last(n, Last(n, s)) == Last(n, s)
  {
  }

  lemma LastOfTwo<T>(n: nat, s: seq<T>, x: T, y: T)
    requires n > 0
    ensures Last(n, Last(n - 1, s) + [x] + [y]) == Last(n, s + [x] + [y])
  {
    LastOfSnoc(n, s + [x], y);
    LastOfSnoc(n, Last(n - 1, s) + [x], y);
  }

  lemma {:induction false} PutAllThenLast(n: nat, s: seq<Message>, ms: seq<Message>)
    ensures Last(n, PutAll(Last(n, s), ms)) == Last(n, PutAll(s, ms))
  {
    if ms != [] {
      var front, m := ms[..|ms| - 1], ms[|ms| - 1];
      PutAllThenLast(n, s, front);
      PutThenLast(n, PutAll(Last(n, s), front), m);
      PutThenLast(n, PutAll(s, front), m);
    }
  }

  // ---- the table against the chronicle ----

  ghost predicate NoRepeatIds(ms: seq<Message>) {
    forall i, j :: 0 <= i < j < |ms| ==> ms[i].id != ms[j].id
  }

  /** The conversation has one row for an id, of that id's time. */
  ghost predicate Keyed(rows: seq<Row>, c: Id, time: Id -> int) {
    NoRepeatIds(Select(rows, c)) && Dated(Select(rows, c), time)
  }

  /** Upsert on the rows of one conversation. */
  function Replace(ms: seq<Message>, m: Message): seq<Message> {
    if ms == [] then [m]
    else if ms[0].id == m.id then [m] + ms[1..]
    else [ms[0]] + Replace(ms[1..], m)
  }

  lemma {:induction false} SelectUpsert(rows: seq<Row>, c: Id, m: Message, d: Id)
    ensures Select(Upsert(rows, c, m), d) == if d == c then Replace(Select(rows, c), m) else Select(rows, d)
  {
    if rows != [] {
      SelectUpsert(rows[1..], c, m, d);
      if rows[0].conversationId == c && rows[0].message.id == m.id {
        assert ([Row(c, m)] + rows[1..])[1..] == rows[1..];
      } else {
        assert ([rows[0]] + Upsert(rows[1..], c, m))[1..] == Upsert(rows[1..], c, m);
      }
    }
  }

  lemma {:induction false} ReplaceElements(ms: seq<Message>, m: Message)
    requires NoRepeatIds(ms)
    ensures NoRepeatIds(Replace(ms, m))
    ensures forall x :: x in Replace(ms, m) <==> x == m || (x in ms && x.id != m.id)
  {
    if ms != [] {
      ReplaceElements(ms[1..], m);
      assert forall x :: x in ms <==> x == ms[0] || x in ms[1..];
      assert forall x :: x in ms[1..] ==> x.id != ms[0].id;
    }
  }

  lemma SortChronological(ms: seq<Message>, time: Id -> int)
    requires NoRepeatIds(ms) && Dated(ms, time) && OneTimeEach(time)
    ensures Chronological(SortByTime(ms))
  {
    forall i, j | 0 <= i < j < |ms| ensures Earlier(ms[i], ms[j]) || Earlier(ms[j], ms[i]) {
      assert ms[i] in ms && ms[j] in ms;
    }
    EarlierIsStrict();
    SortIncreasing(ms, Earlier);
  }

  /** A chronicle is known by its elements. */
  lemma SameElementsSame(s: seq<Message>, t: seq<Message>)
    requires Chronological(s) && Chronological(t)
    requires forall x :: x in s <==> x in t
    ensures s == t
  {
    EarlierIsStrict();
    IncreasingUnique(s, t, Earlier);
  }

  /** Writing a row records the message. */
  lemma LoadUpsert(rows: seq<Row>, c: Id, m: Message, time: Id -> int)
    requires Keyed(rows, c, time) && OneTimeEach(time) && m.createdAt == time(m.id)
    ensures Keyed(Upsert(rows, c, m), c, time)
    ensures Load(Upsert(rows, c, m), c) == Put(Load(rows, c), m)
  {
    var before := Select(rows, c);
    SelectUpsert(rows, c, m, c);
    ReplaceElements(before, m);
    SortChronological(before, time);
    SortChronological(Replace(before, m), time);
    PutElements(SortByTime(before), m);
    SameElementsSame(SortByTime(Replace(before, m)), Put(SortByTime(before), m));
  }

  lemma {:induction false} LoadUpsertAll(rows: seq<Row>, c: Id, ms: seq<Message>, time: Id -> int)
    requires Keyed(rows, c, time) && OneTimeEach(time) && Dated(ms, time)
    ensures Keyed(UpsertAll(rows, c, ms), c, time)
    ensures Load(UpsertAll(rows, c, ms), c) == PutAll(Load(rows, c), ms)
  {
    if ms != [] {
      LoadUpsertAll(rows, c, ms[..|ms| - 1], time);
      assert ms[|ms| - 1] in ms;
      LoadUpsert(UpsertAll(rows, c, ms[..|ms| - 1]), c, ms[|ms| - 1], time);
    }
  }

  lemma {:induction false} SelectDelete(rows: seq<Row>, c: Id, kept: set<Id>)
    requires NoRepeatIds(Select(rows, c))
    ensures NoRepeatIds(Select(DeleteOthers(rows, c, kept), c))
    ensures forall x :: x in Select(DeleteOthers(rows, c, kept), c) <==> x in Select(rows, c) && x.id in kept
  {
    if rows != [] {
      var rest := DeleteOthers(rows[1..], c, kept);
      if rows[0].conversationId == c {
        assert Select(rows, c)[1..] == Select(rows[1..], c);
        assert forall x :: x in Select(rows, c) <==> x == rows[0].message || x in Select(rows[1..], c);
      }
      SelectDelete(rows[1..], c, kept);
      assert ([rows[0]] + rest)[1..] == rest;
    }
  }

  lemma {:induction false} SelectDeleteElsewhere(rows: seq<Row>, c: Id, kept: set<Id>, d: Id)
    requires d != c
    ensures Select(DeleteOthers(rows, c, kept), d) == Select(rows, d)
  {
    if rows != [] {
      SelectDeleteElsewhere(rows[1..], c, kept, d);
      var rest := DeleteOthers(rows[1..], c, kept);
      assert ([rows[0]] + rest)[1..] == rest;
    }
  }

  /** Deleting the overflow leaves the newest 500 rows of the conversation. */
  lemma LoadTrim(rows: seq<Row>, c: Id, time: Id -> int)
    requires Keyed(rows, c, time) && OneTimeEach(time)
    ensures Keyed(Trim(rows, c), c, time)
    ensures Load(Trim(rows, c), c) == Last(MAX_CACHED_GROUP_MESSAGES, Load(rows, c))
  {
    var all := Load(rows, c);
    var newest := Last(MAX_CACHED_GROUP_MESSAGES, all);
    SelectDelete(rows, c, Ids(newest));
    SortChronological(Select(rows, c), time);
    SortChronological(Select(Trim(rows, c), c), time);
    forall x ensures x in Load(Trim(rows, c), c) <==> x in newest {
      KeptById(Select(rows, c), newest, x, time);
    }
    SameElementsSame(Load(Trim(rows, c), c), newest);
  }

  lemma KeptById(ms: seq<Message>, newest: seq<Message>, x: Message, time: Id -> int)
    requires NoRepeatIds(ms) && forall y :: y in newest ==> y in ms
    ensures x in newest <==> x in ms && x.id in Ids(newest)
  {
    if x in ms && x.id in Ids(newest) {
      var y :| y in newest && y.id == x.id;
      var i :| 0 <= i < |ms| && ms[i] == x;
      var j :| 0 <= j < |ms| && ms[j] == y;
    }
  }

  lemma LoadSaved(rows: seq<Row>, c: Id, ms: seq<Message>, time: Id -> int)
    requires Keyed(rows, c, time) && OneTimeEach(time) && Dated(ms, time)
    ensures Keyed(Saved(rows, c, ms), c, time)
    ensures Load(Saved(rows, c, ms), c) == Last(MAX_CACHED_GROUP_MESSAGES, PutAll(Load(rows, c), Recent(ms)))
  {
    hide UpsertAll;
    hide Trim;
    LoadUpsertAll(rows, c, Recent(ms), time);
    LoadTrim(UpsertAll(rows, c, Recent(ms)), c, time);
  }

  lemma {:induction false} SelectUpsertAllElsewhere(rows: seq<Row>, c: Id, ms: seq<Message>, d: Id)
    requires d != c
    ensures Select(UpsertAll(rows, c, ms), d) == Select(rows, d)
  {
    if ms != [] {
      SelectUpsertAllElsewhere(rows, c, ms[..|ms| - 1], d);
      SelectUpsert(UpsertAll(rows, c, ms[..|ms| - 1]), c, ms[|ms| - 1], d);
    }
  }

  /** Saving to one conversation leaves the others as they are. */
  lemma SavedElsewhere(rows: seq<Row>, c: Id, ms: seq<Message>, d: Id)
    requires d != c
    ensures Select(Saved(rows, c, ms), d) == Select(rows, d)
  {
    SelectUpsertAllElsewhere(rows, c, Recent(ms), d);
    var rows1 := UpsertAll(rows, c, Recent(ms));
    SelectDeleteElsewhere(rows1, c, Ids(Last(MAX_CACHED_GROUP_MESSAGES, Load(rows1, c))), d);
  }

  // ---- which batches may be cut to their latest 500 entries ----

  /** The latest 500 entries hold 500 messages, or every message of the batch. */
  ghost predicate RecentEnough(ms: seq<Message>) {
    |Ids(Recent(ms))| >= MAX_CACHED_GROUP_MESSAGES || Ids(ms) <= Ids(Recent(ms))
  }

  /** The part of a chronicle from time t on. */
  function From(s: seq<Message>, t: int): seq<Message> {
    if s == [] || s[|s| - 1].createdAt < t then [] else From(s[..|s| - 1], t) + [s[|s| - 1]]
  }

  lemma {:induction false} FromIsSuffix(s: seq<Message>, t: int)
    ensures var r := From(s, t); |r| <= |s| && r == s[|s| - |r|..]
  {
    if s != [] && s[|s| - 1].createdAt >= t {
      FromIsSuffix(s[..|s| - 1], t);
    }
  }

  lemma {:induction false} FromPut(s: seq<Message>, m: Message, t: int)
    ensures From(Put(s, m), t) == if m.createdAt < t then From(s, t) else Put(From(s, t), m)
  {
    if s == [] {
      FromSnoc([], m, t);
      assert [] + [m] == [m];
    } else {
      var front, last := s[..|s| - 1], s[|s| - 1];
      FromPut(front, m, t);
      assert s == front + [last];
      FromPutSnoc(front, last, m, t);
    }
  }

  lemma FromSnoc(s: seq<Message>, m: Message, t: int)
    ensures From(s + [m], t) == if m.createdAt < t then [] else From(s, t) + [m]
  {
    assert (s + [m])[..|s|] == s;
  }

  lemma FromPutSnoc(front: seq<Message>, last: Message, m: Message, t: int)
    requires From(Put(front, m), t) == if m.createdAt < t then From(front, t) else Put(From(front, t), m)
    ensures From(Put(front + [last], m), t) ==
      if m.createdAt < t then From(front + [last], t) else Put(From(front + [last], t), m)
  {
    PutOnSnoc(front, last, m);
    PutOnSnoc(From(front, t), last, m);
    assert Put([], m) == [] + [m];
    hide Put;
    FromSnoc(front, last, t);
    if last.createdAt < m.createdAt {
      FromSnoc(front + [last], m, t);
    } else if last.createdAt == m.createdAt {
      FromSnoc(front, m, t);
    } else {
      FromSnoc(Put(front, m), last, t);
    }
    hide From;
  }

  /** Records from before t, and records at t that another record at t follows, leave no trace after t. */
  lemma {:induction false} OlderLeaveNoTrace(s: seq<Message>, older: seq<Message>, m: Message)
    requires forall x :: x in older ==> x.createdAt <= m.createdAt
    ensures Put(From(PutAll(s, older), m.createdAt), m) == Put(From(s, m.createdAt), m)
  {
    if older != [] {
      var front, x := older[..|older| - 1], older[|older| - 1];
      OlderLeaveNoTrace(s, front, m);
      FromPut(PutAll(s, front), x, m.createdAt);
      if x.createdAt == m.createdAt {
        PutOverwrites(From(PutAll(s, front), m.createdAt), x, m);
      }
    }
  }

  /** Records at the time of a record that follows leave no trace at all. */
  lemma {:induction false} SameTimeLeavesNoTrace(s: seq<Message>, older: seq<Message>, m: Message)
    requires forall x :: x in older ==> x.createdAt == m.createdAt
    ensures Put(PutAll(s, older), m) == Put(s, m)
  {
    if older != [] {
      var front, x := older[..|older| - 1], older[|older| - 1];
      SameTimeLeavesNoTrace(s, front, m);
      PutOverwrites(PutAll(s, front), x, m);
    }
  }

  lemma {:induction false} FromPutAll(s: seq<Message>, ms: seq<Message>, t: int)
    requires forall x :: x in ms ==> x.createdAt >= t
    ensures From(PutAll(s, ms), t) == PutAll(From(s, t), ms)
  {
    if ms != [] {
      FromPutAll(s, ms[..|ms| - 1], t);
      FromPut(PutAll(s, ms[..|ms| - 1]), ms[|ms| - 1], t);
    }
  }

  /** A long enough part from t on has the last n records. */
  lemma LastFrom(n: nat, s: seq<Message>, t: int)
    requires |From(s, t)| >= n
    ensures Last(n, s) == Last(n, From(s, t))
  {
    FromIsSuffix(s, t);
  }

  lemma {:induction false} IdsAtMostLength(ms: seq<Message>)
    ensures |Ids(ms)| <= |ms|
  {
    if ms == [] {
      assert Ids(ms) == {};
    } else {
      IdsAtMostLength(ms[..|ms| - 1]);
      assert Ids(ms) == Ids(ms[..|ms| - 1]) + {ms[|ms| - 1].id} by {
        assert ms == ms[..|ms| - 1] + [ms[|ms| - 1]];
      }
    }
  }

  /** Every id put is in the chronicle. */
  lemma {:induction false} IdsOfPutAll(s: seq<Message>, ms: seq<Message>, time: Id -> int)
    requires Chronological(s) && Dated(s, time) && Dated(ms, time) && OneTimeEach(time)
    ensures Chronological(PutAll(s, ms)) && Dated(PutAll(s, ms), time)
    ensures Ids(PutAll(s, ms)) == Ids(s) + Ids(ms)
  {
    if ms == [] {
    } else {
      var front, m := ms[..|ms| - 1], ms[|ms| - 1];
      IdsOfPutAll(s, front, time);
      assert ms == front + [m];
      IdsOfPut(PutAll(s, front), m, time);
      assert Ids(ms) == Ids(front) + {m.id};
    }
  }

  lemma IdsOfPut(s: seq<Message>, m: Message, time: Id -> int)
    requires Chronological(s) && Dated(s, time) && m.createdAt == time(m.id) && OneTimeEach(time)
    ensures Chronological(Put(s, m)) && Dated(Put(s, m), time)
    ensures Ids(Put(s, m)) == Ids(s) + {m.id}
  {
    PutElements(s, m);
    assert m in Put(s, m);
    forall id | id in Ids(s) && id != m.id ensures id in Ids(Put(s, m)) {
      var x :| x in s && x.id == id;
      assert x in Put(s, m);
    }
  }

  /** Cutting a batch that is recent enough does not change which 500 are the newest. */
  lemma RecentSuffices(s: seq<Message>, ms: seq<Message>, time: Id -> int)
    requires Chronological(s) && Dated(s, time) && Dated(ms, time) && OneTimeEach(time) && RecentEnough(ms)
    ensures var n := MAX_CACHED_GROUP_MESSAGES; Last(n, PutAll(s, Recent(ms))) == Last(n, PutAll(s, ms))
  {
    var n, sorted, recent := MAX_CACHED_GROUP_MESSAGES, SortByTime(ms), Recent(ms);
    PutAllSorted(s, ms);
    hide PutAll;
    hide Insert;
    if |sorted| > n {
      var older := sorted[..|sorted| - n];
      assert sorted == older + recent && recent == [recent[0]] + recent[1..];
      EarlierIsStrict();
      SortAscending(ms, Earlier);
      PutAllAppend(s, older, recent);
      if |Ids(recent)| >= n {
        EnoughRecent(s, older, recent, time);
      } else {
        assert forall x :: x in older ==> x in sorted;
        SameOldest(older, recent, time);
        NoTrace(s, older, recent);
      }
    }
  }

  lemma NoTrace(s: seq<Message>, older: seq<Message>, recent: seq<Message>)
    requires recent != [] && forall x :: x in older ==> x.createdAt == recent[0].createdAt
    ensures PutAll(PutAll(s, older), recent) == PutAll(s, recent)
  {
    var m, rest := recent[0], recent[1..];
    assert recent == [m] + rest;
    PutAllAppend(PutAll(s, older), [m], rest);
    PutAllAppend(s, [m], rest);
    PutAllOne(PutAll(s, older), m);
    PutAllOne(s, m);
    SameTimeLeavesNoTrace(s, older, m);
  }

  lemma PutAllOne(s: seq<Message>, m: Message)
    ensures PutAll(s, [m]) == Put(s, m)
  {
    assert [m][..0] == [];
  }

  /** If every older entry's id is among the recent ones, they all have the time of the oldest of these. */
  lemma SameOldest(older: seq<Message>, recent: seq<Message>, time: Id -> int)
    requires recent != [] && Ascending(older + recent, Earlier) && Dated(older + recent, time)
    requires Ids(older) <= Ids(recent)
    ensures forall x :: x in older ==> x.createdAt == recent[0].createdAt
  {
    var all := older + recent;
    forall x | x in older ensures x.createdAt == recent[0].createdAt {
      assert x.id in Ids(older);
      var y :| y in recent && y.id == x.id;
      var i :| 0 <= i < |older| && older[i] == x;
      var j :| 0 <= j < |recent| && recent[j] == y;
      assert all[i] == x && all[|older|] == recent[0] && all[|older| + j] == y;
      assert x in all && y in all;
    }
  }

  /** Entries older than 500 recent messages do not matter. */
  lemma EnoughRecent(s: seq<Message>, older: seq<Message>, recent: seq<Message>, time: Id -> int)
    requires Chronological(s) && Dated(s, time) && Dated(recent, time) && OneTimeEach(time)
    requires recent != [] && Ascending(older + recent, Earlier)
    requires |Ids(recent)| >= MAX_CACHED_GROUP_MESSAGES
    ensures Last(MAX_CACHED_GROUP_MESSAGES, PutAll(PutAll(s, older), recent))
         == Last(MAX_CACHED_GROUP_MESSAGES, PutAll(s, recent))
  {
    var m, rest, t := recent[0], recent[1..], recent[0].createdAt;
    var all := older + recent;
    forall x | x in older ensures x.createdAt <= t {
      var i :| 0 <= i < |older| && older[i] == x;
      assert all[i] == x && all[|older|] == m;
    }
    forall x | x in recent ensures x.createdAt >= t {
      var i :| 0 <= i < |recent| && recent[i] == x;
      assert all[|older| + i] == x && all[|older|] == m;
    }
    OlderLeaveNoTrace(s, older, m);
    SameFrom(s, PutAll(s, older), recent);
    var a, b := PutAll(s, recent), PutAll(PutAll(s, older), recent);
    FromHasIds(s, recent, time);
    LastFrom(MAX_CACHED_GROUP_MESSAGES, a, t);
    LastFrom(MAX_CACHED_GROUP_MESSAGES, b, t);
  }

  lemma SameFrom(s: seq<Message>, s': seq<Message>, recent: seq<Message>)
    requires recent != [] && forall x :: x in recent ==> x.createdAt >= recent[0].createdAt
    requires Put(From(s', recent[0].createdAt), recent[0]) == Put(From(s, recent[0].createdAt), recent[0])
    ensures From(PutAll(s', recent), recent[0].createdAt) == From(PutAll(s, recent), recent[0].createdAt)
  {
    hide Put;
    hide From;
    var m, rest, t := recent[0], recent[1..], recent[0].createdAt;
    assert recent == [m] + rest;
    FromPutAll(s, recent, t);
    FromPutAll(s', recent, t);
    PutAllAppend(From(s, t), [m], rest);
    PutAllAppend(From(s', t), [m], rest);
    PutAllOne(From(s, t), m);
    PutAllOne(From(s', t), m);
    hide PutAll;
  }

  lemma FromHasIds(s: seq<Message>, recent: seq<Message>, time: Id -> int)
    requires Chronological(s) && Dated(s, time) && Dated(recent, time) && OneTimeEach(time)
    requires recent != [] && forall x :: x in recent ==> x.createdAt >= recent[0].createdAt
    ensures |From(PutAll(s, recent), recent[0].createdAt)| >= |Ids(recent)|
  {
    var t := recent[0].createdAt;
    FromPutAll(s, recent, t);
    var u := From(s, t);
    FromIsSuffix(s, t);
    hide From;
    assert forall x :: x in u ==> x in s;
    assert Chronological(u);
    IdsOfPutAll(u, recent, time);
    IdsAtMostLength(PutAll(u, recent));
    SubsetSize(Ids(recent), Ids(PutAll(u, recent)));
  }

  lemma {:induction false} IdsCount(s: seq<Message>, time: Id -> int)
    requires Chronological(s) && Dated(s, time)
    ensures |Ids(s)| == |s|
  {
    if s == [] {
      assert Ids(s) == {};
    } else {
      var front, last := s[..|s| - 1], s[|s| - 1];
      IdsCount(front, time);
      assert s == front + [last];
      assert Ids(s) == Ids(front) + {last.id};
      assert last.id !in Ids(front);
    }
  }

  lemma ChronicleCount(ms: seq<Message>, time: Id -> int)
    requires Dated(ms, time) && OneTimeEach(time)
    ensures |Chronicle(ms)| == |Ids(ms)|
  {
    IdsOfPutAll([], ms, time);
    IdsCount(Chronicle(ms), time);
  }

  /** A batch of at most 500 entries, or without repeated ids, is recent enough. */
  lemma SmallOrDistinct(ms: seq<Message>)
    requires |ms| <= MAX_CACHED_GROUP_MESSAGES || NoRepeatIds(ms)
    ensures RecentEnough(ms)
  {
    if |ms| > MAX_CACHED_GROUP_MESSAGES {
      SortKeepsDistinct(ms);
      DistinctIdsCount(Recent(ms));
    }
  }

  lemma {:induction false} SortKeepsDistinct(ms: seq<Message>)
    requires NoRepeatIds(ms)
    ensures NoRepeatIds(SortByTime(ms))
  {
    if ms != [] {
      var front, m := ms[..|ms| - 1], ms[|ms| - 1];
      SortKeepsDistinct(front);
      assert forall x :: x in front ==> x.id != m.id;
      InsertKeepsDistinct(SortByTime(front), m);
    }
  }

  lemma {:induction false} InsertKeepsDistinct(s: seq<Message>, m: Message)
    requires NoRepeatIds(s) && forall x :: x in s ==> x.id != m.id
    ensures NoRepeatIds(Insert(s, m, Earlier))
  {
    if s != [] && s[|s| - 1].createdAt > m.createdAt {
      var front, last := s[..|s| - 1], s[|s| - 1];
      InsertKeepsDistinct(front, m);
      forall x | x in Insert(front, m, Earlier) ensures x.id != last.id {
        assert x == m || x in front;
      }
    }
  }

  lemma {:induction false} DistinctIdsCount(s: seq<Message>)
    requires NoRepeatIds(s)
    ensures |Ids(s)| == |s|
  {
    if s == [] {
      assert Ids(s) == {};
    } else {
      var front, last := s[..|s| - 1], s[|s| - 1];
      DistinctIdsCount(front);
      assert s == front + [last];
      assert Ids(s) == Ids(front) + {last.id};
    }
  }

  // ---- runs of saves ----

  datatype Save = Save(conversationId: Id, messages: seq<Message>)

  /** The table after these saves, starting empty. */
  function AfterSaves(saves: seq<Save>): seq<Row> {
    if saves == [] then []
    else
      var save := saves[|saves| - 1];
      Saved(AfterSaves(saves[..|saves| - 1]), save.conversationId, save.messages)
  }

  /** Everything ever saved to a conversation, in order. */
  function Ever(saves: seq<Save>, c: Id): seq<Message> {
    if saves == [] then []
    else
      var save := saves[|saves| - 1];
      Ever(saves[..|saves| - 1], c) + if save.conversationId == c then save.messages else []
  }

  ghost predicate GoodSaves(saves: seq<Save>, c: Id, time: Id -> int) {
    forall save :: save in saves && save.conversationId == c ==>
      Dated(save.messages, time) && RecentEnough(save.messages)
  }

  /** After any saves the cache holds the newest 500 messages ever saved, each as last saved. */
  lemma {:induction false} CacheHoldsNewest(saves: seq<Save>, c: Id, time: Id -> int)
    requires OneTimeEach(time) && GoodSaves(saves, c, time)
    ensures Keyed(AfterSaves(saves), c, time)
    ensures Load(AfterSaves(saves), c) == Last(MAX_CACHED_GROUP_MESSAGES, Chronicle(Ever(saves, c)))
    ensures Dated(Ever(saves, c), time)
  {
    if saves != [] {
      var front, save := saves[..|saves| - 1], saves[|saves| - 1];
      CacheHoldsNewest(front, c, time);
      assert save in saves;
      hide Recent;
      hide Saved;
      hide RecentEnough;
      if save.conversationId == c {
        SaveKeepsNewest(AfterSaves(front), c, Ever(front, c), save.messages, time);
      } else {
        SavedElsewhere(AfterSaves(front), save.conversationId, save.messages, c);
        assert Ever(front, c) + [] == Ever(front, c);
      }
    }
  }

  lemma SaveKeepsNewest(rows: seq<Row>, c: Id, ever: seq<Message>, ms: seq<Message>, time: Id -> int)
    requires Keyed(rows, c, time) && OneTimeEach(time) && Dated(ever, time) && Dated(ms, time) && RecentEnough(ms)
    requires Load(rows, c) == Last(MAX_CACHED_GROUP_MESSAGES, Chronicle(ever))
    ensures Keyed(Saved(rows, c, ms), c, time)
    ensures Load(Saved(rows, c, ms), c) == Last(MAX_CACHED_GROUP_MESSAGES, Chronicle(ever + ms))
  {
    var n := MAX_CACHED_GROUP_MESSAGES;
    LoadSaved(rows, c, ms, time);
    hide Saved;
    hide RecentEnough;
    SortChronological(Select(rows, c), time);
    RecentSuffices(Load(rows, c), ms, time);
    PutAllThenLast(n, Chronicle(ever), ms);
    PutAllAppend([], ever, ms);
  }

  /** Cutting the batch is right exactly for batches that are recent enough. */
  lemma SaveIsExact(c: Id, ms: seq<Message>, time: Id -> int)
    requires OneTimeEach(time) && Dated(ms, time)
    ensures RecentEnough(ms) <==> Load(Saved([], c, ms), c) == Last(MAX_CACHED_GROUP_MESSAGES, Chronicle(ms))
  {
    assert Load([], c) == [];
    hide Saved;
    hide SortByTime;
    LoadSaved([], c, ms, time);
    if RecentEnough(ms) {
      RecentSuffices([], ms, time);
    } else {
      ChronicleCount(Recent(ms), time);
      ChronicleCount(ms, time);
      assert Ids(Recent(ms)) <= Ids(ms);
      SubsetSize(Ids(Recent(ms)), Ids(ms));
      hide PutAll;
      hide Ids;
      hide Recent;
    }
  }

  /** An old message and 500 copies of a later one: only the later one is written. */
  lemma RepeatsCrowdOut(c: Id, time: Id -> int)
    requires OneTimeEach(time) && time("a") < time("b")
    ensures var ms := [Message("a", time("a"), "")] + seq(MAX_CACHED_GROUP_MESSAGES, _ => Message("b", time("b"), ""));
      Load(Saved([], c, ms), c) != Last(MAX_CACHED_GROUP_MESSAGES, Chronicle(ms))
  {
    var late := seq(MAX_CACHED_GROUP_MESSAGES, _ => Message("b", time("b"), ""));
    CrowdedOut(Message("a", time("a"), ""), Message("b", time("b"), ""), late);
    hide Saved;
    hide Chronicle;
    SaveIsExact(c, [Message("a", time("a"), "")] + late, time);
  }

  lemma CrowdedOut(a: Message, b: Message, late: seq<Message>)
    requires a.createdAt < b.createdAt && a.id != b.id
    requires |late| == MAX_CACHED_GROUP_MESSAGES && forall m :: m in late ==> m == b
    ensures !RecentEnough([a] + late)
  {
    var ms := [a] + late;
    LatestAreLate(a, b, late);
    hide Recent;
    SubsetSize(Ids(late), {b.id});
    assert ms[0] in ms && a.id in Ids(ms);
  }

  lemma LatestAreLate(a: Message, b: Message, late: seq<Message>)
    requires a.createdAt < b.createdAt
    requires |late| == MAX_CACHED_GROUP_MESSAGES && forall m :: m in late ==> m == b
    ensures Recent([a] + late) == late
  {
    var ms := [a] + late;
    forall i | 0 < i < |ms| ensures ms[i] == b {
      assert late[i - 1] in late;
    }
    SortOfAscending(ms, Earlier);
    hide Sort;
  }
}
