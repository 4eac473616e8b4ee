/**
 * Sender Key sessions (packages/protocol/src/double-ratchet.ts): one sending
 * device ratchets a chain key that every group member was given.
 */
module SenderKey {
  import opened Common
  import opened Primitives

  const MAX_SKIP: nat := 100
  const MAX_SKIPPED_KEYS: nat := 1000

  /** Skipped message keys by iteration: a record whose integer keys are listed in ascending order. */
  type SkippedKeys = map<nat, Bytes>

  datatype State = State(
    groupId: string,
    senderDeviceId: string,
    iteration: nat,
    chainKey: Bytes,
    signPub: Bytes,
    signPriv: Option<Bytes>,
    skipped: SkippedKeys,
    sharedWith: seq<string>)

  datatype Distribution = Distribution(
    groupId: string, senderDeviceId: string, iteration: nat, chainKey: Bytes, signPub: Bytes)

  datatype Message = Message(ciphertext: Bytes, iteration: nat, signature: Bytes)

  datatype Error =
    | SigningKeyMissing
    | SignatureInvalid
    | TooOld
    | TooManySkipped
    | PackageInvalid
    | DecryptionFailed

  datatype Outcome = Plain(plaintext: Bytes) | Thrown(error: Error)

  datatype Sent = Sent(message: Message) | NotSent(error: Error)

  function MessageKey(c: Suite, ck: Bytes): Bytes {
    Hmac(c, ck, [3])
  }

  function NextChainKey(c: Suite, ck: Bytes): Bytes {
    Hmac(c, ck, [4])
  }

  /** The chain key i steps after ck. */
  function ChainKey(c: Suite, ck: Bytes, i: nat): Bytes {
    if i == 0 then ck else NextChainKey(c, ChainKey(c, ck, i - 1))
  }

  lemma {:induction false} ChainKeyStep(c: Suite, ck: Bytes, i: nat)
    ensures ChainKey(c, NextChainKey(c, ck), i) == ChainKey(c, ck, i + 1)
  {
    if i > 0 {
      ChainKeyStep(c, ck, i - 1);
    }
  }

  lemma {:induction false} ChainKeySum(c: Suite, ck: Bytes, i: nat, j: nat)
    ensures ChainKey(c, ChainKey(c, ck, i), j) == ChainKey(c, ck, i + j)
  {
    if j > 0 {
      ChainKeySum(c, ck, i, j - 1);
    }
  }

  /** A new session; the chain key and the signing secret are drawn at random. */
  function Create(c: Suite, groupId: string, deviceId: string, chainKey: Bytes, signSecret: Bytes): State {
    State(groupId, deviceId, 0, chainKey, SignPublic(c, signSecret), Some(signSecret), map[], [])
  }

  function MakeDistribution(s: State): Distribution {
    Distribution(s.groupId, s.senderDeviceId, s.iteration, s.chainKey, s.signPub)
  }

  /** The session a receiver builds from a distribution message. */
  function FromDistribution(d: Distribution): State {
    State(d.groupId, d.senderDeviceId, d.iteration, d.chainKey, d.signPub, None, map[], [])
  }

  /** What a receiver builds is the sender's session as it stands, without its secret, its table and its list. */
  lemma DistributionCarriesSession(s: State)
    ensures FromDistribution(MakeDistribution(s)) == s.(signPriv := None, skipped := map[], sharedWith := [])
  {
  }

  function EncryptStep(c: Suite, s: State, plaintext: Bytes, nonce: Bytes): (Sent, State) {
    if s.signPriv.None? then (NotSent(SigningKeyMissing), s)
    else
      var transport := Seal(c, plaintext, nonce, MessageKey(c, s.chainKey));
      (Sent(Message(transport, s.iteration, Sign(c, transport, s.signPriv.value))),
       s.(chainKey := NextChainKey(c, s.chainKey), iteration := s.iteration + 1))
  }

  lemma {:induction false} LeastExists(ks: set<nat>, bound: nat)
    requires bound in ks
    ensures exists x :: x in ks && forall y :: y in ks ==> x <= y
  {
    if y :| y in ks && y < bound {
      LeastExists(ks, y);
    }
  }

  function Least(ks: set<nat>): (x: nat)
    requires ks != {}
    ensures x in ks && forall y :: y in ks ==> x <= y
  {
    assert exists x :: x in ks && forall y :: y in ks ==> x <= y by {
      var z :| z in ks;
      LeastExists(ks, z);
    }
    var x :| x in ks && forall y :: y in ks ==> x <= y;
    x
  }

  /** Store a skipped key; above the limit the first listed key, the lowest iteration, is dropped. */
  function Remember(t: SkippedKeys, i: nat, mk: Bytes): SkippedKeys {
    var t' := t[i := mk];
    if |t'| > MAX_SKIPPED_KEYS then t' - {Least(t'.Keys)} else t'
  }

  function SkipOne(c: Suite, s: State): State {
    s.(skipped := Remember(s.skipped, s.iteration, MessageKey(c, s.chainKey)),
       chainKey := NextChainKey(c, s.chainKey),
       iteration := s.iteration + 1)
  }

  function SkipTo(c: Suite, s: State, untilIteration: nat): State
    decreases untilIteration - s.iteration
  {
    if s.iteration < untilIteration then SkipTo(c, SkipOne(c, s), untilIteration) else s
  }

  function OpenWith(c: Suite, ciphertext: Bytes, mk: Bytes): Outcome {
    match Open(c, ciphertext, mk)
    case Opened(plaintext) => Plain(plaintext)
    case PackageTooShort => Thrown(PackageInvalid)
    case OpenFailed => Thrown(DecryptionFailed)
  }

  function DecryptStep(c: Suite, s: State, m: Message): (Outcome, State) {
    if !Verify(c, m.ciphertext, m.signature, s.signPub) then (Thrown(SignatureInvalid), s)
    else if m.iteration in s.skipped then
      (OpenWith(c, m.ciphertext, s.skipped[m.iteration]), s.(skipped := s.skipped - {m.iteration}))
    else if m.iteration < s.iteration then (Thrown(TooOld), s)
    else if s.iteration + MAX_SKIP < m.iteration then (Thrown(TooManySkipped), s)
    else
      var s' := SkipTo(c, s, m.iteration);
      (OpenWith(c, m.ciphertext, MessageKey(c, s'.chainKey)),
       s'.(chainKey := NextChainKey(c, s'.chainKey), iteration := s'.iteration + 1))
  }

  class SenderKeySession {
    var state: State

    constructor (s: State)
      ensures state == s
    {
      state := s;
    }

    method Encrypt(c: Suite, plaintext: Bytes, nonce: Bytes) returns (r: Sent)
      modifies this
      ensures (r, state) == EncryptStep(c, old(state), plaintext, nonce)
    {
      if state.signPriv.None? {
        return NotSent(SigningKeyMissing);
      }
      var ck := state.chainKey;
      var mk := MessageKey(c, ck);
      state := state.(chainKey := NextChainKey(c, ck));
      var currentIteration := state.iteration;
      state := state.(iteration := state.iteration + 1);
      var transport := Seal(c, plaintext, nonce, mk);
      var signature := Sign(c, transport, state.signPriv.value);
      return Sent(Message(transport, currentIteration, signature));
    }

    method Decrypt(c: Suite, m: Message) returns (r: Outcome)
      modifies this
      ensures (r, state) == DecryptStep(c, old(state), m)
    {
      hide Verify;
      hide OpenWith;
      hide SkipTo;
      if !Verify(c, m.ciphertext, m.signature, state.signPub) {
        return Thrown(SignatureInvalid);
      }
      if m.iteration in state.skipped {
        var mk := state.skipped[m.iteration];
        state := state.(skipped := state.skipped - {m.iteration});
        return OpenWith(c, m.ciphertext, mk);
      }
      if m.iteration < state.iteration {
        return Thrown(TooOld);
      }
      var ok := SkipMessageKeys(c, m.iteration);
      if !ok {
        return Thrown(TooManySkipped);
      }
      var ck := state.chainKey;
      var mk := MessageKey(c, ck);
      state := state.(chainKey := NextChainKey(c, ck));
      state := state.(iteration := state.iteration + 1);
      return OpenWith(c, m.ciphertext, mk);
    }

    method SkipMessageKeys(c: Suite, untilIteration: nat) returns (ok: bool)
      modifies this
      ensures ok == (untilIteration <= old(state).iteration + MAX_SKIP)
      ensures state == if ok then SkipTo(c, old(state), untilIteration) else old(state)
    {
      if state.iteration + MAX_SKIP < untilIteration {
        return false;
      }
      hide MessageKey;
      hide NextChainKey;
      var ck := state.chainKey;
      while state.iteration < untilIteration
        invariant SkipTo(c, state.(chainKey := ck), untilIteration) == SkipTo(c, old(state), untilIteration)
        decreases untilIteration - state.iteration
      {
        ghost var before := state.(chainKey := ck);
        var mk := MessageKey(c, ck);
        state := state.(skipped := state.skipped[state.iteration := mk]);
        if |state.skipped| > MAX_SKIPPED_KEYS {
          state := state.(skipped := state.skipped - {Least(state.skipped.Keys)});
        }
        ck := NextChainKey(c, ck);
        state := state.(iteration := state.iteration + 1);
        assert state.(chainKey := ck) == SkipOne(c, before);
      }
      state := state.(chainKey := ck);
      return true;
    }
  }

  // ---- what skipping does ----

  lemma RememberEffect(t: SkippedKeys, i: nat, mk: Bytes)
    ensures forall k :: k in Remember(t, i, mk) ==>
      if k == i then Remember(t, i, mk)[k] == mk else k in t && Remember(t, i, mk)[k] == t[k]
    ensures |t| < MAX_SKIPPED_KEYS ==> Remember(t, i, mk) == t[i := mk]
    ensures |Remember(t, i, mk)| <= |t| + 1
  {
    var t' := t[i := mk];
    assert t'.Keys == t.Keys + {i};
    if |t'| > MAX_SKIPPED_KEYS {
      var r := t' - {Least(t'.Keys)};
      assert r.Keys == t'.Keys - {Least(t'.Keys)};
    }
  }

  lemma {:induction false} SkipToMoves(c: Suite, s: State, untilIteration: nat)
    ensures var r := SkipTo(c, s, untilIteration);
      var end := Max(s.iteration, untilIteration);
      r == s.(chainKey := ChainKey(c, s.chainKey, end - s.iteration), iteration := end, skipped := r.skipped)
    decreases untilIteration - s.iteration
  {
    if s.iteration < untilIteration {
      SkipToMoves(c, SkipOne(c, s), untilIteration);
      ChainKeyStep(c, s.chainKey, untilIteration - (s.iteration + 1));
    }
  }

  /** Skipping only ever adds keys of the iterations passed over. */
  lemma {:induction false} SkipToAdds(c: Suite, s: State, untilIteration: nat)
    ensures var r := SkipTo(c, s, untilIteration).skipped;
      forall k :: k in r ==> k in s.skipped || s.iteration <= k < untilIteration
    decreases untilIteration - s.iteration
  {
    if s.iteration < untilIteration {
      RememberEffect(s.skipped, s.iteration, MessageKey(c, s.chainKey));
      SkipToAdds(c, SkipOne(c, s), untilIteration);
    }
  }

  // ---- any inputs at all: at most one plaintext per iteration ----

  /** Skipped iterations lie behind the chain. */
  ghost predicate Behind(s: State) {
    forall k :: k in s.skipped ==> k < s.iteration
  }

  /** The iteration was passed and its key is gone. */
  ghost predicate Spent(s: State, i: nat) {
    i < s.iteration && i !in s.skipped
  }

  /** Of the keys stored and passed over, only the lowest iterations give way, and only when the table is full. */
  ghost predicate KeepsNewest(before: set<nat>, after: set<nat>) {
    forall k :: k in before && k !in after ==> |after| == MAX_SKIPPED_KEYS && forall x :: x in after ==> k < x
  }

  lemma RememberKeys(t: SkippedKeys, i: nat, mk: Bytes)
    ensures var all := t.Keys + {i};
      Remember(t, i, mk).Keys == if |all| > MAX_SKIPPED_KEYS then all - {Least(all)} else all
    ensures |t.Keys| == |t| && |Remember(t, i, mk).Keys| == |Remember(t, i, mk)|
  {
    var t' := t[i := mk];
    assert t'.Keys == t.Keys + {i} && |t'.Keys| == |t'|;
    if |t'| > MAX_SKIPPED_KEYS {
      assert (t' - {Least(t'.Keys)}).Keys == t'.Keys - {Least(t'.Keys)};
    }
  }

  lemma RememberBounded(t: SkippedKeys, i: nat, mk: Bytes)
    requires |t| <= MAX_SKIPPED_KEYS
    ensures |t| <= |Remember(t, i, mk)| <= MAX_SKIPPED_KEYS
    ensures Remember(t, i, mk).Keys <= t.Keys + {i}
    ensures KeepsNewest(t.Keys + {i}, Remember(t, i, mk).Keys)
  {
    RememberKeys(t, i, mk);
    hide Remember;
    assert i in t.Keys ==> t.Keys + {i} == t.Keys;
  }

  function Range(lo: nat, hi: nat): (r: set<nat>)
    ensures forall k :: k in r <==> lo <= k < hi
    ensures |r| == Max(0, hi - lo)
    decreases hi - lo
  {
    if hi <= lo then {} else Range(lo, hi - 1) + {hi - 1}
  }

  lemma NewestStep(t: set<nat>, t1: set<nat>, r: set<nat>, i: nat, hi: nat)
    requires i < hi && (forall k :: k in t ==> k < i)
    requires t1 <= t + {i} && KeepsNewest(t + {i}, t1)
    requires r <= t1 + Range(i + 1, hi) && KeepsNewest(t1 + Range(i + 1, hi), r)
    requires |t1| == MAX_SKIPPED_KEYS ==> |r| == MAX_SKIPPED_KEYS
    ensures r <= t + Range(i, hi) && KeepsNewest(t + Range(i, hi), r)
  {
  }

  lemma SkipOneKeepsNewest(c: Suite, s: State)
    requires Behind(s) && |s.skipped| <= MAX_SKIPPED_KEYS
    ensures var s1 := SkipOne(c, s);
      && s1.iteration == s.iteration + 1 && Behind(s1)
      && |s.skipped| <= |s1.skipped| <= MAX_SKIPPED_KEYS
      && s1.skipped.Keys <= s.skipped.Keys + {s.iteration}
      && KeepsNewest(s.skipped.Keys + {s.iteration}, s1.skipped.Keys)
  {
    RememberBounded(s.skipped, s.iteration, MessageKey(c, s.chainKey));
    hide Remember;
    hide KeepsNewest;
    forall k | k in SkipOne(c, s).skipped ensures k < s.iteration + 1 {
      assert k in s.skipped.Keys + {s.iteration};
    }
  }

  /**
   * Skipping keeps the table within its limit; it holds the newest of the keys it had and of those
   * passed over, and all of them while there is room.
   */
  lemma {:induction false} SkipToKeepsNewest(c: Suite, s: State, untilIteration: nat)
    requires Behind(s) && |s.skipped| <= MAX_SKIPPED_KEYS
    ensures var r := SkipTo(c, s, untilIteration).skipped;
      && |s.skipped| <= |r| <= MAX_SKIPPED_KEYS
      && r.Keys <= s.skipped.Keys + Range(s.iteration, untilIteration)
      && KeepsNewest(s.skipped.Keys + Range(s.iteration, untilIteration), r.Keys)
    decreases untilIteration - s.iteration
  {
    if s.iteration < untilIteration {
      var s1 := SkipOne(c, s);
      SkipOneKeepsNewest(c, s);
      assert SkipTo(c, s, untilIteration) == SkipTo(c, s1, untilIteration);
      assert forall k :: k in s.skipped.Keys ==> k < s.iteration;
      hide *;
      SkipToKeepsNewest(c, s1, untilIteration);
      NewestStep(s.skipped.Keys, s1.skipped.Keys, SkipTo(c, s, untilIteration).skipped.Keys,
                 s.iteration, untilIteration);
    }
  }

  /**
   * One decrypt of any input: skipped iterations stay behind the chain, the
   * iteration never decreases, what is spent stays spent, a rejected call changes
   * nothing, and a plaintext spends an iteration that was not spent before.
   */
  lemma DecryptEffect(c: Suite, s: State, m: Message, i: nat)
    requires Behind(s)
    ensures var (outcome, s') := DecryptStep(c, s, m);
      && Behind(s') && s.iteration <= s'.iteration
      && (Spent(s, i) ==> Spent(s', i))
      && (outcome in {Thrown(SignatureInvalid), Thrown(TooOld), Thrown(TooManySkipped)} ==> s' == s)
      && (outcome.Plain? ==> !Spent(s, m.iteration) && Spent(s', m.iteration))
  {
    SkipToMoves(c, s, m.iteration);
    SkipToAdds(c, s, m.iteration);
  }

  /** A signed message is refused exactly if its iteration is spent, or more than 100 ahead. */
  lemma SignedAnswer(c: Suite, s: State, m: Message)
    requires Behind(s) && Verify(c, m.ciphertext, m.signature, s.signPub)
    ensures DecryptStep(c, s, m).0 == Thrown(TooOld) <==> Spent(s, m.iteration)
    ensures DecryptStep(c, s, m).0 == Thrown(TooManySkipped) <==> m.iteration > s.iteration + MAX_SKIP
  {
  }

  /** The table after a decrypt: as it was, without the one key used, or as skipping leaves it. */
  lemma DecryptTable(c: Suite, s: State, m: Message)
    ensures var t := DecryptStep(c, s, m).1.skipped;
      t == s.skipped || t == s.skipped - {m.iteration}
      || (m.iteration <= s.iteration + MAX_SKIP && t == SkipTo(c, s, m.iteration).skipped)
  {
    hide SkipTo;
  }

  lemma FewerKeys(t: SkippedKeys, i: nat)
    ensures |t - {i}| <= |t| && (t - {i}).Keys <= t.Keys
  {
    SubsetSize((t - {i}).Keys, t.Keys);
    assert |(t - {i}).Keys| == |t - {i}| && |t.Keys| == |t|;
  }

  /** For any input decrypt keeps a table of at most 1000 keys so, and adds at most 100. */
  lemma DecryptBounded(c: Suite, s: State, m: Message)
    requires Behind(s) && |s.skipped| <= MAX_SKIPPED_KEYS
    ensures var s' := DecryptStep(c, s, m).1;
      |s'.skipped| <= MAX_SKIPPED_KEYS && |s'.skipped.Keys - s.skipped.Keys| <= MAX_SKIP
  {
    DecryptTable(c, s, m);
    FewerKeys(s.skipped, m.iteration);
    SkipToKeepsNewest(c, s, m.iteration);
    var t := DecryptStep(c, s, m).1.skipped;
    hide *;
    if m.iteration <= s.iteration + MAX_SKIP && t == SkipTo(c, s, m.iteration).skipped {
      SubsetSize(t.Keys - s.skipped.Keys, Range(s.iteration, m.iteration));
    } else {
      assert t.Keys - s.skipped.Keys == {};
    }
  }

  /** The outcomes of decrypting a sequence of inputs, and the state it leaves. */
  function Outcomes(c: Suite, s: State, ms: seq<Message>): (r: seq<Outcome>)
    ensures |r| == |ms|
    decreases |ms|
  {
    if ms == [] then []
    else [DecryptStep(c, s, ms[0]).0] + Outcomes(c, DecryptStep(c, s, ms[0]).1, ms[1..])
  }

  function After(c: Suite, s: State, ms: seq<Message>): State
    decreases |ms|
  {
    if ms == [] then s else After(c, DecryptStep(c, s, ms[0]).1, ms[1..])
  }

  lemma {:induction false} SpentNeverOpens(c: Suite, s: State, ms: seq<Message>, j: nat)
    requires Behind(s) && j < |ms| && Spent(s, ms[j].iteration)
    ensures !Outcomes(c, s, ms)[j].Plain?
    decreases |ms|
  {
    DecryptEffect(c, s, ms[0], ms[j].iteration);
    if j > 0 {
      SpentNeverOpens(c, DecryptStep(c, s, ms[0]).1, ms[1..], j - 1);
    }
  }

  /** Whatever is fed to decrypt, no iteration returns a plaintext twice. */
  lemma {:induction false} AtMostOnce(c: Suite, s: State, ms: seq<Message>, i: nat, j: nat)
    requires Behind(s) && i < j < |ms| && ms[i].iteration == ms[j].iteration
    ensures !(Outcomes(c, s, ms)[i].Plain? && Outcomes(c, s, ms)[j].Plain?)
    decreases |ms|
  {
    var s' := DecryptStep(c, s, ms[0]).1;
    DecryptEffect(c, s, ms[0], ms[0].iteration);
    if i > 0 {
      AtMostOnce(c, s', ms[1..], i - 1, j - 1);
    } else if Outcomes(c, s, ms)[0].Plain? {
      SpentNeverOpens(c, s', ms[1..], j - 1);
    }
  }

  lemma {:induction false} StaysBehind(c: Suite, s: State, ms: seq<Message>, i: nat)
    requires Behind(s)
    ensures Behind(After(c, s, ms)) && s.iteration <= After(c, s, ms).iteration
    ensures Spent(s, i) ==> Spent(After(c, s, ms), i)
    decreases |ms|
  {
    if ms != [] {
      DecryptEffect(c, s, ms[0], i);
      StaysBehind(c, DecryptStep(c, s, ms[0]).1, ms[1..], i);
    }
  }

  /** Among signed messages the iteration alone decides what a decrypt leaves behind, whether it opens or not. */
  lemma StateIgnoresCiphertext(c: Suite, s: State, m: Message, m': Message)
    requires Verify(c, m.ciphertext, m.signature, s.signPub) && Verify(c, m'.ciphertext, m'.signature, s.signPub)
    requires m.iteration == m'.iteration
    ensures DecryptStep(c, s, m).1 == DecryptStep(c, s, m').1
  {
    hide SkipTo;
    hide OpenWith;
  }

  // ---- any inputs at all: only signed messages count ----

  lemma DecryptKeepsKey(c: Suite, s: State, m: Message)
    ensures DecryptStep(c, s, m).1.signPub == s.signPub
  {
    SkipToMoves(c, s, m.iteration);
  }

  /** Which of the inputs carry a signature of the key. */
  function Signed(c: Suite, signPub: Bytes, ms: seq<Message>): seq<Message> {
    if ms == [] then []
    else if Verify(c, ms[0].ciphertext, ms[0].signature, signPub) then [ms[0]] + Signed(c, signPub, ms[1..])
    else Signed(c, signPub, ms[1..])
  }

  /** Whatever is fed to decrypt, only a message that verifies under the session's signing key opens. */
  lemma {:induction false} OnlySignedOpens(c: Suite, s: State, ms: seq<Message>, j: nat)
    requires j < |ms|
    ensures Outcomes(c, s, ms)[j] == Thrown(SignatureInvalid) <==>
      !Verify(c, ms[j].ciphertext, ms[j].signature, s.signPub)
    ensures Outcomes(c, s, ms)[j].Plain? ==> Verify(c, ms[j].ciphertext, ms[j].signature, s.signPub)
    decreases |ms|
  {
    DecryptKeepsKey(c, s, ms[0]);
    if j > 0 {
      OnlySignedOpens(c, DecryptStep(c, s, ms[0]).1, ms[1..], j - 1);
    }
  }

  /** Messages that do not verify leave no trace: the session ends as if they had not come. */
  lemma {:induction false} ForgeriesLeaveNoTrace(c: Suite, s: State, ms: seq<Message>)
    ensures After(c, s, ms) == After(c, s, Signed(c, s.signPub, ms))
    decreases |ms|
  {
    if ms != [] {
      var s' := DecryptStep(c, s, ms[0]).1;
      DecryptKeepsKey(c, s, ms[0]);
      ForgeriesLeaveNoTrace(c, s', ms[1..]);
      if Verify(c, ms[0].ciphertext, ms[0].signature, s.signPub) {
        assert ([ms[0]] + Signed(c, s.signPub, ms[1..]))[1..] == Signed(c, s.signPub, ms[1..]);
      } else {
        assert s' == s;
      }
    }
  }
}
