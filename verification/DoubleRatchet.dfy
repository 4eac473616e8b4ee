/**
 * One endpoint of a Double Ratchet session (packages/protocol/src/double-ratchet.ts).
 * State and the functions over it say what each call computes; the class below
 * carries the same fields and updates them step by step.
 */
module DoubleRatchet {
  import opened Common
  import opened OrderedMaps
  import opened Primitives
  import Hkdf

  const MAX_SKIP: nat := 100
  const MAX_SKIPPED_KEYS: nat := 1000

  /** "EmberChamberRatchetRK" in UTF-8. */
  const DR_INFO: Bytes :=
    [69, 109, 98, 101, 114, 67, 104, 97, 109, 98, 101, 114, 82, 97, 116, 99, 104, 101, 116, 82, 75]

  datatype SkippedKey = SkippedKey(dhPub: Bytes, n: nat)

  type SkippedTable = OrderedMap<SkippedKey, Bytes>

  datatype State = State(
    rk: Bytes,
    ckSend: Option<Bytes>,
    ckRecv: Option<Bytes>,
    ourPub: Bytes,
    ourPriv: Bytes,
    peerPub: Option<Bytes>,
    nSend: nat,
    nRecv: nat,
    pn: nat,
    skipped: SkippedTable)

  /** A message as it travels: the header and the sealed package. */
  datatype Wire = Wire(ciphertext: Bytes, dhPub: Bytes, n: nat, pn: nat)

  datatype Error =
    | SendingChainMissing
    | ReceivingChainMissing
    | TooManySkipped
    | PackageInvalid
    | DecryptionFailed

  datatype Outcome = Plain(plaintext: Bytes) | Thrown(error: Error)

  datatype Sent = Sent(wire: Wire) | NotSent(error: Error)

  // ---- key derivation ----

  function MessageKey(c: Suite, ck: Bytes): Bytes {
    Hmac(c, ck, [1])
  }

  function NextChainKey(c: Suite, ck: Bytes): Bytes {
    Hmac(c, ck, [2])
  }

  /** The chain key i steps after ck. */
  function ChainKey(c: Suite, ck: Bytes, i: nat): Bytes {
    if i == 0 then ck else NextChainKey(c, ChainKey(c, ck, i - 1))
  }

  /** The chain may be stepped at either end. */
  lemma {:induction false} ChainKeyStep(c: Suite, ck: Bytes, i: nat)
    ensures ChainKey(c, NextChainKey(c, ck), i) == ChainKey(c, ck, i + 1)
  {
    if i > 0 {
      ChainKeyStep(c, ck, i - 1);
    }
  }

  function RootStep(c: Suite, rk: Bytes, dhOut: Bytes): (Bytes, Bytes) {
    var okm := Hkdf.Sha256(c, dhOut, 64, rk, DR_INFO);
    (okm[..32], okm[32..])
  }

  // ---- sessions ----

  function AliceStart(c: Suite, master: Bytes, peerPub: Bytes, secret: Bytes): State {
    var (rk, ckSend) := RootStep(c, master, Dh(c, secret, peerPub));
    State(rk, Some(ckSend), None, PublicKey(c, secret), secret, Some(peerPub), 0, 0, 0, Empty())
  }

  function BobStart(c: Suite, master: Bytes, prekey: Bytes): State {
    State(master, None, None, PublicKey(c, prekey), prekey, None, 0, 0, 0, Empty())
  }

  function EncryptStep(c: Suite, s: State, plaintext: Bytes, nonce: Bytes): (Sent, State) {
    match s.ckSend
    case None => (NotSent(SendingChainMissing), s)
    case Some(ck) =>
      (Sent(Wire(Seal(c, plaintext, nonce, MessageKey(c, ck)), s.ourPub, s.nSend, s.pn)),
       s.(ckSend := Some(NextChainKey(c, ck)), nSend := s.nSend + 1))
  }

  /** Store a skipped key; above the limit the oldest key is dropped. */
  function Remember(t: SkippedTable, key: SkippedKey, mk: Bytes): SkippedTable {
    var t' := t.Set(key, mk);
    if |t'.order| > MAX_SKIPPED_KEYS then t'.Delete(t'.order[0]) else t'
  }

  /** Pass over the next message of the receiving chain, whose chain key is ck. */
  function SkipOne(c: Suite, s: State, ck: Bytes): State
    requires s.peerPub.Some?
  {
    var key := SkippedKey(s.peerPub.value, s.nRecv);
    s.(skipped := Remember(s.skipped, key, MessageKey(c, ck)), nRecv := s.nRecv + 1)
  }

  function SkipLoop(c: Suite, s: State, ck: Bytes, untilIndex: nat): State
    decreases untilIndex - s.nRecv
  {
    if s.nRecv < untilIndex && s.peerPub.Some? then
      SkipLoop(c, SkipOne(c, s, ck), NextChainKey(c, ck), untilIndex)
    else
      s.(ckRecv := Some(ck))
  }

  /** None stands for "Too many skipped messages". */
  function Skip(c: Suite, s: State, untilIndex: nat): Option<State> {
    if s.nRecv + MAX_SKIP < untilIndex then None
    else if s.ckRecv.None? then Some(s)
    else Some(SkipLoop(c, s, s.ckRecv.value, untilIndex))
  }

  /** The ratchet step; `newSecret` is the secret of the new key pair. */
  function Ratchet(c: Suite, s: State, peerPub: Bytes, newSecret: Bytes): State {
    var (rk1, ckRecv) := RootStep(c, s.rk, Dh(c, s.ourPriv, peerPub));
    var (rk2, ckSend) := RootStep(c, rk1, Dh(c, newSecret, peerPub));
    State(rk2, Some(ckSend), Some(ckRecv), PublicKey(c, newSecret), newSecret, Some(peerPub),
          0, 0, s.nSend, s.skipped)
  }

  function OpenWith(c: Suite, ciphertext: Bytes, mk: Bytes): Outcome {
    match Open(c, ciphertext, mk)
    case Opened(plaintext) => Plain(plaintext)
    case PackageTooShort => Thrown(PackageInvalid)
    case OpenFailed => Thrown(DecryptionFailed)
  }

  /** The end of decrypt: skip up to the message, then step the receiving chain. */
  function ReceiveInOrder(c: Suite, s: State, m: Wire): (Outcome, State) {
    match Skip(c, s, m.n)
    case None => (Thrown(TooManySkipped), s)
    case Some(s') =>
      match s'.ckRecv
      case None => (Thrown(ReceivingChainMissing), s')
      case Some(ck) =>
        (OpenWith(c, m.ciphertext, MessageKey(c, ck)),
         s'.(ckRecv := Some(NextChainKey(c, ck)), nRecv := s'.nRecv + 1))
  }

  /** decrypt; a thrown error leaves whatever was changed before it. */
  function DecryptStep(c: Suite, s: State, m: Wire, newSecret: Bytes): (Outcome, State) {
    var key := SkippedKey(m.dhPub, m.n);
    if key in s.skipped.entries then
      (OpenWith(c, m.ciphertext, s.skipped.entries[key]), s.(skipped := s.skipped.Delete(key)))
    else if Some(m.dhPub) != s.peerPub then
      match Skip(c, s, m.pn)
      case None => (Thrown(TooManySkipped), s)
      case Some(s') => ReceiveInOrder(c, Ratchet(c, s', m.dhPub, newSecret), m)
    else
      ReceiveInOrder(c, s, m)
  }

  class DoubleRatchetSession {
    var state: State

    constructor (s: State)
      ensures state == s
    {
      state := s;
    }

    constructor InitAlice(c: Suite, master: Bytes, peerPub: Bytes, secret: Bytes)
      ensures state == AliceStart(c, master, peerPub, secret)
    {
      var dhOut := Dh(c, secret, peerPub);
      var okm := Hkdf.Sha256(c, dhOut, 64, master, DR_INFO);
      state := State(okm[..32], Some(okm[32..]), None, PublicKey(c, secret), secret, Some(peerPub),
                     0, 0, 0, Empty());
    }

    constructor InitBob(c: Suite, master: Bytes, prekey: Bytes)
      ensures state == BobStart(c, master, prekey)
    {
      state := State(master, None, None, PublicKey(c, prekey), prekey, None, 0, 0, 0, Empty());
    }

    method Encrypt(c: Suite, plaintext: Bytes, nonce: Bytes) returns (r: Sent)
      modifies this
      ensures (r, state) == EncryptStep(c, old(state), plaintext, nonce)
    {
      if state.ckSend.None? {
        return NotSent(SendingChainMissing);
      }
      var ck := state.ckSend.value;
      var mk := MessageKey(c, ck);
      state := state.(ckSend := Some(NextChainKey(c, ck)));
      var messageIndex := state.nSend;
      state := state.(nSend := state.nSend + 1);
      return Sent(Wire(Seal(c, plaintext, nonce, mk), state.ourPub, messageIndex, state.pn));
    }

    method Decrypt(c: Suite, m: Wire, newSecret: Bytes) returns (r: Outcome)
      modifies this
      ensures (r, state) == DecryptStep(c, old(state), m, newSecret)
    {
      hide Ratchet;
      hide Skip;
      hide OpenWith;
      hide MessageKey;
      hide NextChainKey;
      var key := SkippedKey(m.dhPub, m.n);
      if key in state.skipped.entries {
        var mk := state.skipped.entries[key];
        state := state.(skipped := state.skipped.Delete(key));
        return OpenWith(c, m.ciphertext, mk);
      }
      if Some(m.dhPub) != state.peerPub {
        var ok := SkipMessageKeys(c, m.pn);
        if !ok {
          return Thrown(TooManySkipped);
        }
        DhRatchetStep(c, m.dhPub, newSecret);
        assert DecryptStep(c, old(state), m, newSecret) == ReceiveInOrder(c, state, m);
      }
      var ok := SkipMessageKeys(c, m.n);
      if !ok {
        return Thrown(TooManySkipped);
      }
      if state.ckRecv.None? {
        return Thrown(ReceivingChainMissing);
      }
      var ck := state.ckRecv.value;
      state := state.(ckRecv := Some(NextChainKey(c, ck)));
      state := state.(nRecv := state.nRecv + 1);
      return OpenWith(c, m.ciphertext, MessageKey(c, ck));
    }

    method DhRatchetStep(c: Suite, peer: Bytes, newSecret: Bytes)
      modifies this
      ensures state == Ratchet(c, old(state), peer, newSecret)
    {
      state := state.(pn := state.nSend);
      state := state.(nSend := 0);
      state := state.(nRecv := 0);
      state := state.(peerPub := Some(peer));
      var (nextRk1, ckRecv) := RootStep(c, state.rk, Dh(c, state.ourPriv, peer));
      state := state.(rk := nextRk1);
      state := state.(ckRecv := Some(ckRecv));
      state := state.(ourPub := PublicKey(c, newSecret));
      state := state.(ourPriv := newSecret);
      var (nextRk2, ckSend) := RootStep(c, nextRk1, Dh(c, newSecret, peer));
      state := state.(rk := nextRk2);
      state := state.(ckSend := Some(ckSend));
    }

    method SkipMessageKeys(c: Suite, untilIndex: nat) returns (ok: bool)
      modifies this
      ensures ok == Skip(c, old(state), untilIndex).Some?
      ensures state == if ok then Skip(c, old(state), untilIndex).value else old(state)
    {
      if state.nRecv + MAX_SKIP < untilIndex {
        return false;
      }
      if state.ckRecv.None? {
        return true;
      }
      var ck := state.ckRecv.value;
      while state.nRecv < untilIndex && state.peerPub.Some?
        invariant SkipLoop(c, state, ck, untilIndex) == Skip(c, old(state), untilIndex).value
        decreases untilIndex - state.nRecv
      {
        ghost var before := state;
        var mk := MessageKey(c, ck);
        var key := SkippedKey(state.peerPub.value, state.nRecv);
        state := state.(skipped := state.skipped.Set(key, mk));
        if |state.skipped.order| > MAX_SKIPPED_KEYS {
          state := state.(skipped := state.skipped.Delete(state.skipped.order[0]));
        }
        state := state.(nRecv := state.nRecv + 1);
        assert state == SkipOne(c, before, ck);
        ck := NextChainKey(c, ck);
      }
      state := state.(ckRecv := Some(ck));
      return true;
    }
  }

  // ---- what skipping does ----

  predicate InRange(k: SkippedKey, peer: Bytes, lo: nat, hi: nat) {
    k.dhPub == peer && lo <= k.n < hi
  }

  lemma RememberEffect(t: SkippedTable, key: SkippedKey, mk: Bytes)
    requires t.Valid()
    ensures Remember(t, key, mk).Valid()
    ensures |Remember(t, key, mk).order| <= Max(MAX_SKIPPED_KEYS, |t.order|)
    ensures |Remember(t, key, mk).order| <= |t.order| + 1
    ensures forall k :: k in Remember(t, key, mk).entries ==>
      if k == key then Remember(t, key, mk).entries[k] == mk
      else k in t.entries && Remember(t, key, mk).entries[k] == t.entries[k]
    ensures |t.order| < MAX_SKIPPED_KEYS ==> Remember(t, key, mk).entries == t.entries[key := mk]
  {
    SetValid(t, key, mk);
    var t' := t.Set(key, mk);
    if |t'.order| > MAX_SKIPPED_KEYS {
      DeleteValid(t', t'.order[0]);
      WithoutNoRepeats(t'.order, t'.order[0]);
    }
  }

  /** Skipping moves the receiving chain to untilIndex and changes nothing else but the table. */
  lemma {:induction false} SkipLoopMoves(c: Suite, s: State, ck: Bytes, untilIndex: nat)
    requires s.peerPub.Some?
    ensures var r := SkipLoop(c, s, ck, untilIndex);
      var end := Max(s.nRecv, untilIndex);
      r == s.(ckRecv := Some(ChainKey(c, ck, end - s.nRecv)), nRecv := end, skipped := r.skipped)
    decreases untilIndex - s.nRecv
  {
    if s.nRecv < untilIndex {
      SkipLoopMoves(c, SkipOne(c, s, ck), NextChainKey(c, ck), untilIndex);
      ChainKeyStep(c, ck, untilIndex - (s.nRecv + 1));
    }
  }

  /** The table after skipping from s up to end, starting with chain key ck. */
  ghost predicate SkippedSoundly(c: Suite, before: SkippedTable, after: SkippedTable,
                                 peer: Bytes, ck: Bytes, lo: nat, hi: nat)
  {
    forall k :: k in after.entries ==>
      if InRange(k, peer, lo, hi)
      then after.entries[k] == MessageKey(c, ChainKey(c, ck, k.n - lo))
      else k in before.entries && after.entries[k] == before.entries[k]
  }

  ghost predicate NothingLost(before: SkippedTable, after: SkippedTable, peer: Bytes, lo: nat, hi: nat) {
    forall k :: k in before.entries || InRange(k, peer, lo, hi) ==> k in after.entries
  }

  lemma {:induction false} SkipLoopTableValid(c: Suite, s: State, ck: Bytes, untilIndex: nat)
    requires s.skipped.Valid()
    ensures var r := SkipLoop(c, s, ck, untilIndex).skipped;
      r.Valid() && |r.order| <= Max(MAX_SKIPPED_KEYS, |s.skipped.order|)
    decreases untilIndex - s.nRecv
  {
    if s.nRecv < untilIndex && s.peerPub.Some? {
      var key := SkippedKey(s.peerPub.value, s.nRecv);
      RememberEffect(s.skipped, key, MessageKey(c, ck));
      SkipLoopTableValid(c, SkipOne(c, s, ck), NextChainKey(c, ck), untilIndex);
    }
  }

  lemma SkipOneSound(c: Suite, s: State, ck: Bytes)
    requires s.skipped.Valid() && s.peerPub.Some?
    ensures SkipOne(c, s, ck).skipped.Valid()
    ensures SkippedSoundly(c, s.skipped, SkipOne(c, s, ck).skipped, s.peerPub.value, ck, s.nRecv, s.nRecv + 1)
  {
    RememberEffect(s.skipped, SkippedKey(s.peerPub.value, s.nRecv), MessageKey(c, ck));
  }

  lemma NothingSkipped(c: Suite, t: SkippedTable, peer: Bytes, ck: Bytes, lo: nat)
    ensures SkippedSoundly(c, t, t, peer, ck, lo, lo)
  {
  }

  /** The table gains only the keys passed over, each with the key derived there. */
  lemma {:induction false} SkipLoopSound(c: Suite, s: State, ck: Bytes, untilIndex: nat)
    requires s.skipped.Valid() && s.peerPub.Some?
    ensures SkippedSoundly(c, s.skipped, SkipLoop(c, s, ck, untilIndex).skipped,
                           s.peerPub.value, ck, s.nRecv, Max(s.nRecv, untilIndex))
    decreases untilIndex - s.nRecv
  {
    hide SkippedSoundly;
    if s.nRecv < untilIndex {
      var s' := SkipOne(c, s, ck);
      assert s'.nRecv == s.nRecv + 1 && s'.peerPub == s.peerPub;
      assert SkipLoop(c, s, ck, untilIndex) == SkipLoop(c, s', NextChainKey(c, ck), untilIndex);
      hide SkipOne;
      hide SkipLoop;
      hide NextChainKey;
      SkipOneSound(c, s, ck);
      SkipLoopSound(c, s', NextChainKey(c, ck), untilIndex);
      SoundStep(c, s.skipped, s'.skipped, SkipLoop(c, s', NextChainKey(c, ck), untilIndex).skipped,
                s.peerPub.value, ck, s.nRecv, untilIndex);
    } else {
      NothingSkipped(c, s.skipped, s.peerPub.value, ck, s.nRecv);
    }
  }

  lemma SkipOneKeeps(c: Suite, s: State, ck: Bytes)
    requires s.skipped.Valid() && s.peerPub.Some? && |s.skipped.order| < MAX_SKIPPED_KEYS
    ensures NothingLost(s.skipped, SkipOne(c, s, ck).skipped, s.peerPub.value, s.nRecv, s.nRecv + 1)
    ensures SkipOne(c, s, ck).skipped.Valid()
    ensures |SkipOne(c, s, ck).skipped.order| <= |s.skipped.order| + 1
  {
    RememberEffect(s.skipped, SkippedKey(s.peerPub.value, s.nRecv), MessageKey(c, ck));
  }

  lemma NothingLostStep(t: SkippedTable, t1: SkippedTable, r: SkippedTable, peer: Bytes, lo: nat, hi: nat)
    requires lo < hi && NothingLost(t, t1, peer, lo, lo + 1) && NothingLost(t1, r, peer, lo + 1, hi)
    ensures NothingLost(t, r, peer, lo, hi)
  {
  }

  /** While there is room the table loses nothing and gains every key passed over. */
  lemma {:induction false} SkipLoopKeeps(c: Suite, s: State, ck: Bytes, untilIndex: nat)
    requires s.skipped.Valid() && s.peerPub.Some?
    requires |s.skipped.order| + (Max(s.nRecv, untilIndex) - s.nRecv) <= MAX_SKIPPED_KEYS
    ensures NothingLost(s.skipped, SkipLoop(c, s, ck, untilIndex).skipped,
                        s.peerPub.value, s.nRecv, Max(s.nRecv, untilIndex))
    ensures |SkipLoop(c, s, ck, untilIndex).skipped.order|
         <= |s.skipped.order| + (Max(s.nRecv, untilIndex) - s.nRecv)
    decreases untilIndex - s.nRecv
  {
    if s.nRecv < untilIndex {
      var s' := SkipOne(c, s, ck);
      SkipOneKeeps(c, s, ck);
      hide NothingLost;
      SkipLoopKeeps(c, s', NextChainKey(c, ck), untilIndex);
      NothingLostStep(s.skipped, s'.skipped, SkipLoop(c, s', NextChainKey(c, ck), untilIndex).skipped,
                      s.peerPub.value, s.nRecv, untilIndex);
    }
  }

  lemma SoundStep(c: Suite, t: SkippedTable, t1: SkippedTable, r: SkippedTable,
                  peer: Bytes, ck: Bytes, lo: nat, hi: nat)
    requires lo < hi
    requires SkippedSoundly(c, t, t1, peer, ck, lo, lo + 1)
    requires SkippedSoundly(c, t1, r, peer, NextChainKey(c, ck), lo + 1, hi)
    ensures SkippedSoundly(c, t, r, peer, ck, lo, hi)
  {
    forall k | k in r.entries && InRange(k, peer, lo + 1, hi)
      ensures r.entries[k] == MessageKey(c, ChainKey(c, ck, k.n - lo))
    {
      ChainKeyStep(c, ck, k.n - (lo + 1));
    }
  }

  /** The keys of the positions passed over, in the order in which they are stored. */
  function KeyList(peer: Bytes, lo: nat, hi: nat): (r: seq<SkippedKey>)
    ensures |r| == Max(0, hi - lo)
    ensures forall k :: k in r <==> InRange(k, peer, lo, hi)
    decreases hi - lo
  {
    if hi <= lo then []
    else
      assert forall k :: InRange(k, peer, lo, hi) <==> k == SkippedKey(peer, lo) || InRange(k, peer, lo + 1, hi);
      [SkippedKey(peer, lo)] + KeyList(peer, lo + 1, hi)
  }

  lemma RememberOrder(t: SkippedTable, key: SkippedKey, mk: Bytes)
    requires t.Valid() && key !in t.entries && |t.order| <= MAX_SKIPPED_KEYS
    ensures Remember(t, key, mk).order == Last(MAX_SKIPPED_KEYS, t.order + [key])
  {
    SetValid(t, key, mk);
    DropFirst(t.order + [key]);
    hide Without;
    hide NoRepeats;
  }

  lemma SkipOneOrder(c: Suite, s: State, ck: Bytes)
    requires s.skipped.Valid() && s.peerPub.Some? && |s.skipped.order| <= MAX_SKIPPED_KEYS
    requires SkippedKey(s.peerPub.value, s.nRecv) !in s.skipped.entries
    ensures var s', key := SkipOne(c, s, ck), SkippedKey(s.peerPub.value, s.nRecv);
      && s'.peerPub == s.peerPub && s'.nRecv == s.nRecv + 1
      && s'.skipped.Valid() && s'.skipped.order == Last(MAX_SKIPPED_KEYS, s.skipped.order + [key])
      && forall k :: k in s'.skipped.entries ==> k == key || k in s.skipped.entries
  {
    RememberEffect(s.skipped, SkippedKey(s.peerPub.value, s.nRecv), MessageKey(c, ck));
    RememberOrder(s.skipped, SkippedKey(s.peerPub.value, s.nRecv), MessageKey(c, ck));
    hide Remember;
  }

  lemma LastOfLast<T>(n: nat, a: seq<T>, b: seq<T>)
    ensures Last(n, Last(n, a) + b) == Last(n, a + b)
    ensures |Last(n, a)| <= n
  {
  }

  lemma KeyListStep(peer: Bytes, lo: nat, hi: nat, order: seq<SkippedKey>)
    requires lo < hi
    ensures KeyList(peer, lo, hi) == [SkippedKey(peer, lo)] + KeyList(peer, lo + 1, hi)
    ensures order + [SkippedKey(peer, lo)] + KeyList(peer, lo + 1, hi) == order + KeyList(peer, lo, hi)
  {
  }

  /** None of the positions lo..hi has a key in the table yet. */
  ghost predicate NoneStored(t: SkippedTable, peer: Bytes, lo: nat, hi: nat) {
    forall k :: k in t.entries ==> !InRange(k, peer, lo, hi)
  }

  lemma NoneStoredStep(t: SkippedTable, t': SkippedTable, peer: Bytes, lo: nat, hi: nat)
    requires lo < hi && NoneStored(t, peer, lo, hi)
    requires forall k :: k in t'.entries ==> k == SkippedKey(peer, lo) || k in t.entries
    ensures NoneStored(t', peer, lo + 1, hi)
  {
  }

  lemma SkipLoopStarts(c: Suite, s: State, ck: Bytes, untilIndex: nat)
    requires s.skipped.Valid() && s.peerPub.Some? && |s.skipped.order| <= MAX_SKIPPED_KEYS
    requires NoneStored(s.skipped, s.peerPub.value, s.nRecv, untilIndex) && s.nRecv < untilIndex
    ensures var s', key := SkipOne(c, s, ck), SkippedKey(s.peerPub.value, s.nRecv);
      && SkipLoop(c, s, ck, untilIndex) == SkipLoop(c, s', NextChainKey(c, ck), untilIndex)
      && s'.peerPub == s.peerPub && s'.nRecv == s.nRecv + 1
      && s'.skipped.Valid() && |s'.skipped.order| <= MAX_SKIPPED_KEYS
      && s'.skipped.order == Last(MAX_SKIPPED_KEYS, s.skipped.order + [key])
      && NoneStored(s'.skipped, s.peerPub.value, s.nRecv + 1, untilIndex)
  {
    assert SkippedKey(s.peerPub.value, s.nRecv) !in s.skipped.entries;
    SkipOneOrder(c, s, ck);
    NoneStoredStep(s.skipped, SkipOne(c, s, ck).skipped, s.peerPub.value, s.nRecv, untilIndex);
    hide SkipOne;
    hide NoneStored;
  }

  lemma SkipLoopEnds(c: Suite, s: State, ck: Bytes, untilIndex: nat)
    requires s.nRecv >= untilIndex && s.peerPub.Some? && |s.skipped.order| <= MAX_SKIPPED_KEYS
    ensures SkipLoop(c, s, ck, untilIndex).skipped.order
         == Last(MAX_SKIPPED_KEYS, s.skipped.order + KeyList(s.peerPub.value, s.nRecv, untilIndex))
  {
    assert s.skipped.order + [] == s.skipped.order;
  }

  lemma EvictsStep(order: seq<SkippedKey>, order': seq<SkippedKey>, peer: Bytes, lo: nat, hi: nat)
    requires lo < hi && order' == Last(MAX_SKIPPED_KEYS, order + [SkippedKey(peer, lo)])
    ensures Last(MAX_SKIPPED_KEYS, order' + KeyList(peer, lo + 1, hi))
         == Last(MAX_SKIPPED_KEYS, order + KeyList(peer, lo, hi))
  {
    hide *;
    LastOfLast(MAX_SKIPPED_KEYS, order + [SkippedKey(peer, lo)], KeyList(peer, lo + 1, hi));
    KeyListStep(peer, lo, hi, order);
  }

  /**
   * When the table runs full the oldest keys give way: skipping leaves the last 1000 of the keys
   * stored before, in their order, followed by those passed over.
   */
  lemma {:induction false} SkipLoopEvictsOldest(c: Suite, s: State, ck: Bytes, untilIndex: nat)
    requires s.skipped.Valid() && s.peerPub.Some? && |s.skipped.order| <= MAX_SKIPPED_KEYS
    requires NoneStored(s.skipped, s.peerPub.value, s.nRecv, untilIndex)
    ensures SkipLoop(c, s, ck, untilIndex).skipped.order
         == Last(MAX_SKIPPED_KEYS, s.skipped.order + KeyList(s.peerPub.value, s.nRecv, untilIndex))
    decreases untilIndex - s.nRecv
  {
    hide *;
    if s.nRecv < untilIndex {
      SkipLoopStarts(c, s, ck, untilIndex);
      var s' := SkipOne(c, s, ck);
      SkipLoopEvictsOldest(c, s', NextChainKey(c, ck), untilIndex);
      EvictsStep(s.skipped.order, s'.skipped.order, s.peerPub.value, s.nRecv, untilIndex);
    } else {
      SkipLoopEnds(c, s, ck, untilIndex);
    }
  }

  function RangeKeys(peer: Bytes, lo: nat, hi: nat): (r: set<SkippedKey>)
    ensures forall k :: k in r <==> InRange(k, peer, lo, hi)
    ensures lo <= hi ==> |r| == hi - lo
    decreases hi - lo
  {
    if hi <= lo then {} else RangeKeys(peer, lo, hi - 1) + {SkippedKey(peer, hi - 1)}
  }

  lemma KeptAndPassed(before: SkippedTable, after: SkippedTable, peer: Bytes, lo: nat, hi: nat)
    requires before.Valid() && after.Valid() && lo <= hi && NothingLost(before, after, peer, lo, hi)
    requires NoneStored(before, peer, lo, hi)
    ensures |before.order| + (hi - lo) <= |after.order|
  {
    SizeIsOrderLength(before);
    SizeIsOrderLength(after);
    var kept, passed := before.entries.Keys, RangeKeys(peer, lo, hi);
    SubsetSize(kept + passed, after.entries.Keys);
    assert kept !! passed;
    assert |kept + passed| == |kept| + |passed|;
  }

  /** Skipping over keys that are not stored yet loses none exactly if there is room for all of them. */
  lemma SkipLoopNeedsRoom(c: Suite, s: State, ck: Bytes, untilIndex: nat)
    requires s.skipped.Valid() && s.peerPub.Some? && |s.skipped.order| <= MAX_SKIPPED_KEYS
    requires NoneStored(s.skipped, s.peerPub.value, s.nRecv, untilIndex)
    ensures NothingLost(s.skipped, SkipLoop(c, s, ck, untilIndex).skipped,
                        s.peerPub.value, s.nRecv, Max(s.nRecv, untilIndex))
      <==> |s.skipped.order| + (Max(s.nRecv, untilIndex) - s.nRecv) <= MAX_SKIPPED_KEYS
  {
    var end := Max(s.nRecv, untilIndex);
    var after := SkipLoop(c, s, ck, untilIndex).skipped;
    SkipLoopTableValid(c, s, ck, untilIndex);
    if |s.skipped.order| + (end - s.nRecv) <= MAX_SKIPPED_KEYS {
      SkipLoopKeeps(c, s, ck, untilIndex);
    }
    hide SkipLoop;
    if NothingLost(s.skipped, after, s.peerPub.value, s.nRecv, end) {
      KeptAndPassed(s.skipped, after, s.peerPub.value, s.nRecv, end);
    }
  }

  /** The keys of `after` that `before` did not have. */
  function Added(before: State, after: State): set<SkippedKey> {
    after.skipped.entries.Keys - before.skipped.entries.Keys
  }

  ghost predicate TableBounded(s: State) {
    s.skipped.Valid() && |s.skipped.order| <= MAX_SKIPPED_KEYS
  }

  /** One pass of skipping on any state: the table stays bounded, at most 100 keys are new. */
  lemma SkipBounded(c: Suite, s: State, untilIndex: nat)
    requires TableBounded(s)
    ensures Skip(c, s, untilIndex).Some? ==>
      && TableBounded(Skip(c, s, untilIndex).value)
      && |Added(s, Skip(c, s, untilIndex).value)| <= MAX_SKIP
  {
    if s.nRecv + MAX_SKIP >= untilIndex && s.ckRecv.Some? {
      SkipLoopTableValid(c, s, s.ckRecv.value, untilIndex);
      if s.peerPub.Some? {
        SkipLoopSound(c, s, s.ckRecv.value, untilIndex);
        SubsetSize(Added(s, Skip(c, s, untilIndex).value),
                          RangeKeys(s.peerPub.value, s.nRecv, Max(s.nRecv, untilIndex)));
      }
    }
  }

  lemma ReceiveInOrderBounded(c: Suite, s: State, m: Wire)
    requires TableBounded(s)
    ensures TableBounded(ReceiveInOrder(c, s, m).1)
    ensures |Added(s, ReceiveInOrder(c, s, m).1)| <= MAX_SKIP
  {
    SkipBounded(c, s, m.n);
  }

  /**
   * For any input whatever, decrypt keeps a table of at most 1000 keys within that
   * bound and adds at most 200 keys, whether it returns or throws.
   */
  lemma DecryptBounded(c: Suite, s: State, m: Wire, newSecret: Bytes)
    requires TableBounded(s)
    ensures TableBounded(DecryptStep(c, s, m, newSecret).1)
    ensures |Added(s, DecryptStep(c, s, m, newSecret).1)| <= 2 * MAX_SKIP
  {
    var key := SkippedKey(m.dhPub, m.n);
    if key in s.skipped.entries {
      DeleteValid(s.skipped, key);
      assert Added(s, DecryptStep(c, s, m, newSecret).1) == {};
    } else if Some(m.dhPub) == s.peerPub {
      ReceiveInOrderBounded(c, s, m);
    } else {
      SkipBounded(c, s, m.pn);
      if Skip(c, s, m.pn).Some? {
        var s1 := Skip(c, s, m.pn).value;
        var s2 := Ratchet(c, s1, m.dhPub, newSecret);
        ReceiveInOrderBounded(c, s2, m);
        SubsetSize(Added(s, ReceiveInOrder(c, s2, m).1),
                          Added(s, s1) + Added(s2, ReceiveInOrder(c, s2, m).1));
      }
    }
  }

  /**
   * What decrypt leaves behind is decided by the header alone: whether the message opens or throws, is
   * honest or forged, the session moves as the header says.
   */
  lemma StateIgnoresCiphertext(c: Suite, s: State, m: Wire, ciphertext: Bytes, newSecret: Bytes)
    ensures DecryptStep(c, s, m.(ciphertext := ciphertext), newSecret).1 == DecryptStep(c, s, m, newSecret).1
    ensures var m' := m.(ciphertext := ciphertext);
      DecryptStep(c, s, m, newSecret).0 == Thrown(TooManySkipped) <==>
      DecryptStep(c, s, m', newSecret).0 == Thrown(TooManySkipped)
  {
    hide Skip;
    hide Ratchet;
    hide MessageKey;
    hide NextChainKey;
  }
}
