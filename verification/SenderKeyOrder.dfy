/**
 * Group messages of one sender, delivered to a receiver in any order: within the
 * gap and table limits all of them open, and the order leaves no trace.
 */
module SenderKeyOrder {
  import opened Common
  import opened Primitives
  import opened SenderKey

  /** The key of iteration i on the chain that d distributes. */
  function KeyAt(c: Suite, d: Distribution, i: nat): Bytes
    requires d.iteration <= i
  {
    MessageKey(c, ChainKey(c, d.chainKey, i - d.iteration))
  }

  /** A message made by the holder of the signing key, at its place on the chain of d. */
  ghost predicate Genuine(c: Suite, d: Distribution, m: Message, plaintext: Bytes, nonce: Bytes) {
    && d.iteration <= m.iteration
    && |nonce| == NONCE_LENGTH
    && m.ciphertext == Seal(c, plaintext, nonce, KeyAt(c, d, m.iteration))
    && Verify(c, m.ciphertext, m.signature, d.signPub)
  }

  // ---- the sender ----

  /** The messages that encrypting these plaintexts one after the other yields. */
  function EncryptAll(c: Suite, s: State, plaintexts: seq<Bytes>, nonces: seq<Bytes>): (ms: seq<Message>)
    requires |nonces| == |plaintexts| && s.signPriv.Some?
    ensures |ms| == |plaintexts|
    decreases |plaintexts|
  {
    if plaintexts == [] then []
    else
      var (sent, s') := EncryptStep(c, s, plaintexts[0], nonces[0]);
      [sent.message] + EncryptAll(c, s', plaintexts[1..], nonces[1..])
  }

  /** A sender's session whose public signing key belongs to its secret one. */
  ghost predicate Sender(c: Suite, s: State) {
    s.signPriv.Some? && s.signPub == SignPublic(c, s.signPriv.value)
  }

  lemma {:induction false} EncryptAllGenuine(c: Suite, s: State, plaintexts: seq<Bytes>, nonces: seq<Bytes>, k: nat)
    requires Sender(c, s) && |nonces| == |plaintexts| && k < |plaintexts|
    requires forall i :: 0 <= i < |nonces| ==> |nonces[i]| == NONCE_LENGTH
    ensures var m := EncryptAll(c, s, plaintexts, nonces)[k];
      m.iteration == s.iteration + k && Genuine(c, MakeDistribution(s), m, plaintexts[k], nonces[k])
    decreases |plaintexts|
  {
    var (sent, s') := EncryptStep(c, s, plaintexts[0], nonces[0]);
    SignedVerifies(c, sent.message.ciphertext, s.signPriv.value);
    if k > 0 {
      EncryptAllGenuine(c, s', plaintexts[1..], nonces[1..], k - 1);
      ChainKeyStep(c, s.chainKey, k - 1);
    }
  }

  // ---- the receiver ----

  /** The state is at its iteration on the chain of d and stores the keys of what is missing from `got`. */
  ghost predicate Consistent(c: Suite, d: Distribution, got: set<nat>, s: State) {
    && s == FromDistribution(d).(iteration := s.iteration, chainKey := s.chainKey, skipped := s.skipped)
    && d.iteration <= s.iteration
    && s.chainKey == ChainKey(c, d.chainKey, s.iteration - d.iteration)
    && (forall i :: i in got ==> d.iteration <= i < s.iteration)
    && (forall i :: i in s.skipped <==> d.iteration <= i < s.iteration && i !in got)
    && (forall i :: i in s.skipped ==> s.skipped[i] == KeyAt(c, d, i))
  }

  /**
   * The state of a receiver to whom exactly the iterations in `got` were
   * delivered: one past the largest of them, with the keys of the missing ones.
   */
  ghost predicate ReceivedExactly(c: Suite, d: Distribution, got: set<nat>, s: State) {
    && Consistent(c, d, got, s)
    && (if got == {} then s.iteration == d.iteration else s.iteration >= 1 && s.iteration - 1 in got)
  }

  /** The iterations delivered determine the state. */
  lemma ReceivedExactlyUnique(c: Suite, d: Distribution, got: set<nat>, s: State, s': State)
    requires ReceivedExactly(c, d, got, s) && ReceivedExactly(c, d, got, s')
    ensures s == s'
  {
    assert s.iteration == s'.iteration;
    assert s.skipped == s'.skipped;
  }

  /** Delivering m neither jumps too far ahead nor overflows the table. */
  predicate WithinLimits(s: State, m: Message) {
    m.iteration > s.iteration ==>
      && m.iteration <= s.iteration + MAX_SKIP
      && |s.skipped| + (m.iteration - s.iteration) <= MAX_SKIPPED_KEYS
  }

  /** Skipping with room adds exactly the keys passed over. */
  lemma {:induction false} SkipToExact(c: Suite, d: Distribution, s: State, untilIteration: nat)
    requires d.iteration <= s.iteration <= untilIteration
    requires s.chainKey == ChainKey(c, d.chainKey, s.iteration - d.iteration)
    requires |s.skipped| + (untilIteration - s.iteration) <= MAX_SKIPPED_KEYS
    ensures var r := SkipTo(c, s, untilIteration).skipped;
      && (forall i :: i in r <==> i in s.skipped || s.iteration <= i < untilIteration)
      && (forall i :: i in r ==>
            r[i] == if s.iteration <= i < untilIteration then KeyAt(c, d, i) else s.skipped[i])
    decreases untilIteration - s.iteration
  {
    hide MessageKey;
    hide NextChainKey;
    if s.iteration < untilIteration {
      RememberEffect(s.skipped, s.iteration, MessageKey(c, s.chainKey));
      SkipToExact(c, d, SkipOne(c, s), untilIteration);
    }
  }

  lemma OpensGenuine(c: Suite, d: Distribution, m: Message, plaintext: Bytes, nonce: Bytes)
    requires Genuine(c, d, m, plaintext, nonce)
    ensures OpenWith(c, m.ciphertext, KeyAt(c, d, m.iteration)) == Plain(plaintext)
  {
    OpenSealed(c, plaintext, nonce, KeyAt(c, d, m.iteration));
  }

  lemma SkipToStores(c: Suite, d: Distribution, got: set<nat>, s: State, untilIteration: nat)
    requires Consistent(c, d, got, s) && s.iteration <= untilIteration
    requires |s.skipped| + (untilIteration - s.iteration) <= MAX_SKIPPED_KEYS
    ensures var r := SkipTo(c, s, untilIteration).skipped;
      && (forall i :: i in r <==> d.iteration <= i < untilIteration && i !in got)
      && (forall i :: i in r ==> r[i] == KeyAt(c, d, i))
  {
    SkipToExact(c, d, s, untilIteration);
    hide SkipTo;
    hide KeyAt;
  }

  lemma SkipToConsistent(c: Suite, d: Distribution, got: set<nat>, s: State, untilIteration: nat)
    requires Consistent(c, d, got, s) && s.iteration <= untilIteration
    requires |s.skipped| + (untilIteration - s.iteration) <= MAX_SKIPPED_KEYS
    ensures Consistent(c, d, got, SkipTo(c, s, untilIteration))
    ensures SkipTo(c, s, untilIteration).iteration == untilIteration
  {
    hide SkipTo;
    hide KeyAt;
    SkipToStores(c, d, got, s, untilIteration);
    SkipToMoves(c, s, untilIteration);
    ChainKeySum(c, d.chainKey, s.iteration - d.iteration, untilIteration - s.iteration);
  }

  lemma TakeConsistent(c: Suite, d: Distribution, got: set<nat>, s: State)
    requires Consistent(c, d, got, s)
    ensures Consistent(c, d, got + {s.iteration},
                       s.(chainKey := NextChainKey(c, s.chainKey), iteration := s.iteration + 1))
  {
  }

  lemma SkipWithinLimits(c: Suite, d: Distribution, got: set<nat>, s: State, m: Message)
    requires Consistent(c, d, got, s) && m.iteration >= s.iteration && WithinLimits(s, m)
    ensures Consistent(c, d, got, SkipTo(c, s, m.iteration))
    ensures SkipTo(c, s, m.iteration).iteration == m.iteration
  {
    if m.iteration > s.iteration {
      SkipToConsistent(c, d, got, s, m.iteration);
    }
  }

  lemma AheadIsExact(c: Suite, d: Distribution, got: set<nat>, s: State, m: Message, plaintext: Bytes, nonce: Bytes)
    requires Consistent(c, d, got, s) && Genuine(c, d, m, plaintext, nonce)
    requires m.iteration >= s.iteration && WithinLimits(s, m)
    ensures DecryptStep(c, s, m).0 == Plain(plaintext)
    ensures ReceivedExactly(c, d, got + {m.iteration}, DecryptStep(c, s, m).1)
  {
    var s1 := SkipTo(c, s, m.iteration);
    SkipWithinLimits(c, d, got, s, m);
    TakeConsistent(c, d, got, s1);
    assert m.iteration !in s.skipped;
    OpensGenuine(c, d, m, plaintext, nonce);
    assert DecryptStep(c, s, m).1
        == s1.(chainKey := NextChainKey(c, s1.chainKey), iteration := s1.iteration + 1);
  }

  lemma StoredIsExact(c: Suite, d: Distribution, got: set<nat>, s: State, m: Message, plaintext: Bytes, nonce: Bytes)
    requires ReceivedExactly(c, d, got, s) && Genuine(c, d, m, plaintext, nonce)
    requires m.iteration < s.iteration && m.iteration !in got
    ensures DecryptStep(c, s, m).0 == Plain(plaintext)
    ensures ReceivedExactly(c, d, got + {m.iteration}, DecryptStep(c, s, m).1)
  {
    OpensGenuine(c, d, m, plaintext, nonce);
  }

  /** One delivery of a message not delivered before, within the limits. */
  lemma DeliveryIsExact(c: Suite, d: Distribution, got: set<nat>, s: State, m: Message, plaintext: Bytes, nonce: Bytes)
    requires ReceivedExactly(c, d, got, s) && Genuine(c, d, m, plaintext, nonce)
    requires m.iteration !in got && WithinLimits(s, m)
    ensures DecryptStep(c, s, m).0 == Plain(plaintext)
    ensures ReceivedExactly(c, d, got + {m.iteration}, DecryptStep(c, s, m).1)
  {
    if m.iteration < s.iteration {
      StoredIsExact(c, d, got, s, m, plaintext, nonce);
    } else {
      AheadIsExact(c, d, got, s, m, plaintext, nonce);
    }
  }

  predicate AllWithinLimits(c: Suite, s: State, ms: seq<Message>)
    decreases |ms|
  {
    ms != [] ==> WithinLimits(s, ms[0]) && AllWithinLimits(c, DecryptStep(c, s, ms[0]).1, ms[1..])
  }

  ghost predicate AllGenuine(c: Suite, d: Distribution, ms: seq<Message>, plaintexts: seq<Bytes>, nonces: seq<Bytes>) {
    && |ms| == |plaintexts| == |nonces|
    && forall k :: 0 <= k < |ms| ==> Genuine(c, d, ms[k], plaintexts[k], nonces[k])
  }

  ghost predicate NewIterations(got: set<nat>, ms: seq<Message>) {
    && (forall k :: 0 <= k < |ms| ==> ms[k].iteration !in got)
    && (forall k, l :: 0 <= k < l < |ms| ==> ms[k].iteration != ms[l].iteration)
  }

  ghost function Iterations(ms: seq<Message>): set<nat> {
    set k | 0 <= k < |ms| :: ms[k].iteration
  }

  lemma IterationsCons(ms: seq<Message>)
    requires ms != []
    ensures Iterations(ms) == {ms[0].iteration} + Iterations(ms[1..])
  {
    forall i | i in Iterations(ms) ensures i in {ms[0].iteration} + Iterations(ms[1..]) {
      var k :| 0 <= k < |ms| && ms[k].iteration == i;
      if k > 0 {
        assert ms[1..][k - 1].iteration == i;
      }
    }
    forall i | i in Iterations(ms[1..]) ensures i in Iterations(ms) {
      var k :| 0 <= k < |ms| - 1 && ms[1..][k].iteration == i;
      assert ms[k + 1].iteration == i;
    }
  }

  /** Every delivery of distinct messages ends in the state they determine. */
  lemma {:induction false} DeliveriesAreExact(c: Suite, d: Distribution, got: set<nat>, s: State, ms: seq<Message>,
                                              plaintexts: seq<Bytes>, nonces: seq<Bytes>)
    requires ReceivedExactly(c, d, got, s) && AllGenuine(c, d, ms, plaintexts, nonces)
    requires NewIterations(got, ms) && AllWithinLimits(c, s, ms)
    ensures ReceivedExactly(c, d, got + Iterations(ms), After(c, s, ms))
    decreases |ms|
  {
    if ms == [] {
      assert got + Iterations(ms) == got;
    } else {
      DeliveryIsExact(c, d, got, s, ms[0], plaintexts[0], nonces[0]);
      NewIterationsTail(got, ms);
      DeliveriesAreExact(c, d, got + {ms[0].iteration}, DecryptStep(c, s, ms[0]).1, ms[1..],
                         plaintexts[1..], nonces[1..]);
      IterationsCons(ms);
      assert got + {ms[0].iteration} + Iterations(ms[1..]) == got + Iterations(ms);
    }
  }

  lemma NewIterationsTail(got: set<nat>, ms: seq<Message>)
    requires ms != [] && NewIterations(got, ms)
    ensures ms[0].iteration !in got
    ensures NewIterations(got + {ms[0].iteration}, ms[1..])
  {
  }

  /** Every delivery of distinct messages opens each of them. */
  lemma {:induction false} DeliveriesOpen(c: Suite, d: Distribution, got: set<nat>, s: State, ms: seq<Message>,
                                          plaintexts: seq<Bytes>, nonces: seq<Bytes>, k: nat)
    requires ReceivedExactly(c, d, got, s) && AllGenuine(c, d, ms, plaintexts, nonces)
    requires NewIterations(got, ms) && AllWithinLimits(c, s, ms) && k < |ms|
    ensures Outcomes(c, s, ms)[k] == Plain(plaintexts[k])
    decreases |ms|
  {
    DeliveryIsExact(c, d, got, s, ms[0], plaintexts[0], nonces[0]);
    if k > 0 {
      NewIterationsTail(got, ms);
      DeliveriesOpen(c, d, got + {ms[0].iteration}, DecryptStep(c, s, ms[0]).1, ms[1..],
                     plaintexts[1..], nonces[1..], k - 1);
    }
  }

  // ---- the guarantee ----

  function Pick<T>(s: seq<T>, order: seq<nat>): (r: seq<T>)
    requires forall k :: 0 <= k < |order| ==> order[k] < |s|
    ensures |r| == |order|
    ensures forall k :: 0 <= k < |order| ==> r[k] == s[order[k]]
  {
    seq(|order|, k requires 0 <= k < |order| => s[order[k]])
  }

  /** A choice of some of n messages, each at most once, in some order. */
  ghost predicate IsOrder(order: seq<nat>, n: nat) {
    NoRepeats(order) && forall k :: 0 <= k < |order| ==> order[k] < n
  }

  /** The iterations of the chosen messages. */
  ghost function Chosen(start: nat, order: seq<nat>): (r: set<nat>)
    ensures forall i :: i in r <==> i >= start && (i - start) in order
  {
    set k | 0 <= k < |order| :: start + order[k]
  }

  /** A sender's messages and an order in which some of them reach a receiver within the limits. */
  ghost predicate Deliverable(c: Suite, s: State, plaintexts: seq<Bytes>, nonces: seq<Bytes>, order: seq<nat>) {
    && Sender(c, s) && |nonces| == |plaintexts| && IsOrder(order, |plaintexts|)
    && (forall i :: 0 <= i < |nonces| ==> |nonces[i]| == NONCE_LENGTH)
    && AllWithinLimits(c, FromDistribution(MakeDistribution(s)),
                       Pick(EncryptAll(c, s, plaintexts, nonces), order))
  }

  lemma PickedAreGenuine(c: Suite, s: State, plaintexts: seq<Bytes>, nonces: seq<Bytes>, order: seq<nat>)
    requires Sender(c, s) && |nonces| == |plaintexts| && IsOrder(order, |plaintexts|)
    requires forall i :: 0 <= i < |nonces| ==> |nonces[i]| == NONCE_LENGTH
    ensures AllGenuine(c, MakeDistribution(s), Pick(EncryptAll(c, s, plaintexts, nonces), order),
                       Pick(plaintexts, order), Pick(nonces, order))
  {
    forall k | 0 <= k < |order|
      ensures Genuine(c, MakeDistribution(s), EncryptAll(c, s, plaintexts, nonces)[order[k]],
                      plaintexts[order[k]], nonces[order[k]])
    {
      EncryptAllGenuine(c, s, plaintexts, nonces, order[k]);
    }
  }

  lemma PickedIterations(c: Suite, s: State, plaintexts: seq<Bytes>, nonces: seq<Bytes>, order: seq<nat>)
    requires Sender(c, s) && |nonces| == |plaintexts| && IsOrder(order, |plaintexts|)
    requires forall i :: 0 <= i < |nonces| ==> |nonces[i]| == NONCE_LENGTH
    ensures var ms := Pick(EncryptAll(c, s, plaintexts, nonces), order);
      NewIterations({}, ms) && Iterations(ms) == Chosen(s.iteration, order)
  {
    var ms := Pick(EncryptAll(c, s, plaintexts, nonces), order);
    forall k | 0 <= k < |order| ensures ms[k].iteration == s.iteration + order[k] {
      EncryptAllGenuine(c, s, plaintexts, nonces, order[k]);
    }
    assert Iterations(ms) == Chosen(s.iteration, order);
  }

  /** Where the receiver ends up. */
  ghost function EndState(c: Suite, s: State, plaintexts: seq<Bytes>, nonces: seq<Bytes>, order: seq<nat>): State
    requires Deliverable(c, s, plaintexts, nonces, order)
  {
    After(c, FromDistribution(MakeDistribution(s)), Pick(EncryptAll(c, s, plaintexts, nonces), order))
  }

  /**
   * Deliver any of the sender's messages to a receiver set up from the
   * distribution message, in any order within the limits: the receiver ends up at
   * exactly the iterations delivered, one past the largest, missing ones stored.
   */
  lemma AnyOrderEndsExactly(c: Suite, s: State, plaintexts: seq<Bytes>, nonces: seq<Bytes>, order: seq<nat>)
    requires Deliverable(c, s, plaintexts, nonces, order)
    ensures ReceivedExactly(c, MakeDistribution(s), Chosen(s.iteration, order),
                            EndState(c, s, plaintexts, nonces, order))
  {
    hide AllGenuine;
    hide NewIterations;
    hide EncryptAll;
    hide After;
    var ms := Pick(EncryptAll(c, s, plaintexts, nonces), order);
    PickedAreGenuine(c, s, plaintexts, nonces, order);
    PickedIterations(c, s, plaintexts, nonces, order);
    assert {} + Iterations(ms) == Chosen(s.iteration, order);
    DeliveriesAreExact(c, MakeDistribution(s), {}, FromDistribution(MakeDistribution(s)), ms,
                       Pick(plaintexts, order), Pick(nonces, order));
  }

  /** And each message opens to its plaintext. */
  lemma AnyOrderOpensAll(c: Suite, s: State, plaintexts: seq<Bytes>, nonces: seq<Bytes>, order: seq<nat>, k: nat)
    requires Deliverable(c, s, plaintexts, nonces, order) && k < |order|
    ensures Outcomes(c, FromDistribution(MakeDistribution(s)),
                     Pick(EncryptAll(c, s, plaintexts, nonces), order))[k] == Plain(plaintexts[order[k]])
  {
    PickedAreGenuine(c, s, plaintexts, nonces, order);
    PickedIterations(c, s, plaintexts, nonces, order);
    DeliveriesOpen(c, MakeDistribution(s), {}, FromDistribution(MakeDistribution(s)),
                   Pick(EncryptAll(c, s, plaintexts, nonces), order),
                   Pick(plaintexts, order), Pick(nonces, order), k);
  }

  /** Two orders of the same messages leave the receiver in the same state. */
  lemma OrderLeavesNoTrace(c: Suite, s: State, plaintexts: seq<Bytes>, nonces: seq<Bytes>,
                           order1: seq<nat>, order2: seq<nat>)
    requires Deliverable(c, s, plaintexts, nonces, order1)
    requires Deliverable(c, s, plaintexts, nonces, order2)
    requires forall i :: i in order1 <==> i in order2
    ensures EndState(c, s, plaintexts, nonces, order1) == EndState(c, s, plaintexts, nonces, order2)
  {
    AnyOrderEndsExactly(c, s, plaintexts, nonces, order1);
    AnyOrderEndsExactly(c, s, plaintexts, nonces, order2);
    assert Chosen(s.iteration, order1) == Chosen(s.iteration, order2);
    ReceivedExactlyUnique(c, MakeDistribution(s), Chosen(s.iteration, order1),
                          EndState(c, s, plaintexts, nonces, order1), EndState(c, s, plaintexts, nonces, order2));
  }

  /** What is older than the distribution never opens, whatever was fed in before. */
  lemma NothingBeforeDistribution(c: Suite, d: Distribution, ms: seq<Message>, m: Message)
    requires m.iteration < d.iteration
    ensures !DecryptStep(c, After(c, FromDistribution(d), ms), m).0.Plain?
  {
    StaysBehind(c, FromDistribution(d), ms, m.iteration);
  }
}
