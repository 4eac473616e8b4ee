/**
 * One endpoint against the key log of an honest two-party run: key pair number k
 * opens chain k, whose root and chain keys follow from the key pairs up to k. The
 * endpoint is in step with the log, its table is sound, and, as long as nothing had
 * to be evicted, complete; encrypting, skipping, ratcheting and opening keep it so.
 */
module RatchetEndpoint {
  import opened Common
  import opened Primitives
  import opened OrderedMaps
  import opened DoubleRatchet

  /**
   * The master key, the secrets of all ratchet key pairs in the order in which
   * they were generated, and how many messages went out under each.
   */
  datatype KeyLog = KeyLog(master: Bytes, secrets: seq<Bytes>, issued: seq<nat>)

  ghost predicate LogOk(log: KeyLog) {
    |log.secrets| == |log.issued| >= 2 && log.issued[0] == 0
  }

  function Public(c: Suite, log: KeyLog, k: nat): Bytes
    requires k < |log.secrets|
  {
    PublicKey(c, log.secrets[k])
  }

  ghost predicate KeysDistinct(c: Suite, log: KeyLog) {
    forall i, j :: 0 <= i < j < |log.secrets| ==>
      PublicKey(c, log.secrets[i]) != PublicKey(c, log.secrets[j])
  }

  /** Key generation never repeats a public key. */
  ghost predicate Unused(c: Suite, log: KeyLog, secret: Bytes) {
    forall k :: 0 <= k < |log.secrets| ==> PublicKey(c, log.secrets[k]) != PublicKey(c, secret)
  }

  /** The root key after k ratchet steps. */
  function Root(c: Suite, log: KeyLog, k: nat): Bytes
    requires k < |log.secrets|
    decreases k, 1
  {
    if k == 0 then log.master else RootAndChain(c, log, k).0
  }

  function RootAndChain(c: Suite, log: KeyLog, k: nat): (Bytes, Bytes)
    requires 1 <= k < |log.secrets|
    decreases k, 0
  {
    RootStep(c, Root(c, log, k - 1), Dh(c, log.secrets[k], Public(c, log, k - 1)))
  }

  /** The chain key before message i of chain k. */
  function ChainAt(c: Suite, log: KeyLog, k: nat, i: nat): Bytes
    requires 1 <= k < |log.secrets|
  {
    ChainKey(c, RootAndChain(c, log, k).1, i)
  }

  /** The key of message i of chain k. */
  function KeyAt(c: Suite, log: KeyLog, k: nat, i: nat): Bytes
    requires 1 <= k < |log.secrets|
  {
    MessageKey(c, ChainAt(c, log, k, i))
  }

  /** How many messages went out on the sender's chain before chain k. */
  function IssuedBefore(log: KeyLog, k: nat): nat
    requires k < |log.issued|
  {
    if k >= 2 then log.issued[k - 2] else 0
  }

  /** The number of the key pair with this public key, or -1. */
  function FindKey(c: Suite, secrets: seq<Bytes>, pub: Bytes): int {
    var n := |secrets| - 1;
    if secrets == [] then -1
    else if PublicKey(c, secrets[n]) == pub then n
    else FindKey(c, secrets[..n], pub)
  }

  /** A position is a message's chain and its index there. */
  type Position = (nat, nat)

  /** Chains other than s and its own earlier ones are those received. */
  predicate Received(s: nat, k: nat) {
    (s + k) % 2 == 1
  }

  /**
   * How many messages of chain k an endpoint has passed (taken in order or
   * skipped) when its own latest chain is s.
   */
  function Passed(log: KeyLog, s: nat, nRecv: nat, k: nat): nat
    requires k < |log.issued|
  {
    if k + 1 < s then log.issued[k] else if k + 1 == s then nRecv else 0
  }

  /**
   * An endpoint whose latest key pair is number s sends on chain s and receives
   * on chain s - 1, with the root and chain keys that belong there.
   */
  ghost predicate Aligned(c: Suite, log: KeyLog, s: nat, e: State)
    requires LogOk(log)
  {
    && s < |log.secrets|
    && e.ourPriv == log.secrets[s]
    && e.ourPub == Public(c, log, s)
    && e.rk == Root(c, log, s)
    && e.nSend == log.issued[s]
    && e.pn == IssuedBefore(log, s)
    && e.ckSend == (if s == 0 then None else Some(ChainAt(c, log, s, e.nSend)))
    && e.peerPub == (if s == 0 then None else Some(Public(c, log, s - 1)))
    && e.ckRecv == (if s <= 1 then None else Some(ChainAt(c, log, s - 1, e.nRecv)))
    && e.nRecv <= (if s <= 1 then 0 else log.issued[s - 1])
  }

  /** Position (k, i) was passed over and is not among the messages delivered. */
  ghost predicate Missing(log: KeyLog, s: nat, nRecv: nat, gone: set<Position>, k: nat, i: nat) {
    1 <= k < |log.issued| && Received(s, k) && i < Passed(log, s, nRecv, k) && (k, i) !in gone
  }

  /** Every table entry is a missing position with the key derived there. */
  ghost predicate TableSound(c: Suite, log: KeyLog, s: nat, nRecv: nat, gone: set<Position>, t: SkippedTable)
    requires LogOk(log)
  {
    && t.Valid()
    && forall key :: key in t.entries ==> EntrySound(c, log, s, nRecv, gone, key, t.entries[key])
  }

  ghost predicate EntrySound(c: Suite, log: KeyLog, s: nat, nRecv: nat, gone: set<Position>,
                             key: SkippedKey, mk: Bytes)
    requires LogOk(log)
  {
    var k := FindKey(c, log.secrets, key.dhPub);
    && 1 <= k < |log.secrets|
    && Missing(log, s, nRecv, gone, k, key.n)
    && mk == KeyAt(c, log, k, key.n)
  }

  /** Every missing position has a table entry. */
  ghost predicate TableComplete(c: Suite, log: KeyLog, s: nat, nRecv: nat, gone: set<Position>, t: SkippedTable)
    requires LogOk(log)
  {
    forall k, i :: Missing(log, s, nRecv, gone, k, i) ==> SkippedKey(Public(c, log, k), i) in t.entries
  }

  /** What the endpoint was delivered lies among what it has passed. */
  ghost predicate GonePassed(log: KeyLog, s: nat, nRecv: nat, gone: set<Position>) {
    forall k, i :: (k, i) in gone && Received(s, k) ==> k < |log.issued| && i < Passed(log, s, nRecv, k)
  }

  ghost predicate EndpointOk(c: Suite, log: KeyLog, s: nat, e: State, gone: set<Position>) {
    && LogOk(log)
    && Aligned(c, log, s, e)
    && GonePassed(log, s, e.nRecv, gone)
    && TableSound(c, log, s, e.nRecv, gone, e.skipped)
  }

  // ---- facts about the key log ----

  function Append(log: KeyLog, x: Bytes): KeyLog {
    log.(secrets := log.secrets + [x], issued := log.issued + [0])
  }

  lemma {:induction false} RootAppend(c: Suite, log: KeyLog, x: Bytes, k: nat)
    requires LogOk(log) && k < |log.secrets|
    ensures Root(c, Append(log, x), k) == Root(c, log, k)
    ensures k >= 1 ==> RootAndChain(c, Append(log, x), k) == RootAndChain(c, log, k)
  {
    if k >= 1 {
      RootAppend(c, log, x, k - 1);
    }
  }

  lemma {:induction false} RootIgnoresIssued(c: Suite, log: KeyLog, issued: seq<nat>, k: nat)
    requires LogOk(log) && k < |log.secrets|
    ensures Root(c, log.(issued := issued), k) == Root(c, log, k)
    ensures k >= 1 ==> RootAndChain(c, log.(issued := issued), k) == RootAndChain(c, log, k)
  {
    if k >= 1 {
      RootIgnoresIssued(c, log, issued, k - 1);
    }
  }

  lemma FindKeyAppend(c: Suite, secrets: seq<Bytes>, x: Bytes, pub: Bytes)
    ensures FindKey(c, secrets + [x], pub)
         == if PublicKey(c, x) == pub then |secrets| else FindKey(c, secrets, pub)
  {
    assert (secrets + [x])[..|secrets|] == secrets;
  }

  lemma {:induction false} FindKeyFinds(c: Suite, secrets: seq<Bytes>, pub: Bytes)
    ensures -1 <= FindKey(c, secrets, pub) < |secrets|
    ensures FindKey(c, secrets, pub) >= 0 ==> PublicKey(c, secrets[FindKey(c, secrets, pub)]) == pub
    ensures FindKey(c, secrets, pub) < 0 ==> forall k :: 0 <= k < |secrets| ==> PublicKey(c, secrets[k]) != pub
  {
    if secrets != [] {
      FindKeyFinds(c, secrets[..|secrets| - 1], pub);
    }
  }

  lemma FindKeyDistinct(c: Suite, log: KeyLog, k: nat)
    requires KeysDistinct(c, log) && k < |log.secrets|
    ensures FindKey(c, log.secrets, Public(c, log, k)) == k
  {
    FindKeyFinds(c, log.secrets, Public(c, log, k));
  }

  /** Chain keys add up along a chain. */
  lemma {:induction false} ChainKeySum(c: Suite, ck: Bytes, i: nat, j: nat)
    ensures ChainKey(c, ChainKey(c, ck, i), j) == ChainKey(c, ck, i + j)
  {
    if j > 0 {
      ChainKeySum(c, ck, i, j - 1);
    }
  }

  // ---- encrypting ----

  function Issue(log: KeyLog, k: nat): KeyLog
    requires k < |log.issued|
  {
    log.(issued := log.issued[k := log.issued[k] + 1])
  }

  lemma EntryAfterIssue(c: Suite, log: KeyLog, k: nat, s: nat, nRecv: nat, gone: set<Position>,
                        key: SkippedKey, mk: Bytes)
    requires LogOk(log) && 1 <= k < |log.issued| && s <= k + 1
    requires EntrySound(c, log, s, nRecv, gone, key, mk)
    ensures EntrySound(c, Issue(log, k), s, nRecv, gone, key, mk)
  {
    RootIgnoresIssued(c, log, Issue(log, k).issued, FindKey(c, log.secrets, key.dhPub));
  }

  lemma TableAfterIssue(c: Suite, log: KeyLog, k: nat, s: nat, nRecv: nat, gone: set<Position>, t: SkippedTable)
    requires LogOk(log) && 1 <= k < |log.issued| && s <= k + 1
    requires TableSound(c, log, s, nRecv, gone, t) && GonePassed(log, s, nRecv, gone)
    ensures TableSound(c, Issue(log, k), s, nRecv, gone, t)
    ensures GonePassed(Issue(log, k), s, nRecv, gone)
  {
    forall key | key in t.entries
      ensures EntrySound(c, Issue(log, k), s, nRecv, gone, key, t.entries[key])
    {
      EntryAfterIssue(c, log, k, s, nRecv, gone, key, t.entries[key]);
    }
  }

  lemma EncryptKeepsAligned(c: Suite, log: KeyLog, s: nat, e: State, plaintext: Bytes, nonce: Bytes)
    requires LogOk(log) && Aligned(c, log, s, e) && s > 0
    ensures Aligned(c, Issue(log, s), s, EncryptStep(c, e, plaintext, nonce).1)
  {
    RootIgnoresIssued(c, log, Issue(log, s).issued, s);
    if s >= 2 {
      RootIgnoresIssued(c, log, Issue(log, s).issued, s - 1);
    }
  }

  /** The sender stays in step with the log. */
  lemma EncryptKeepsSender(c: Suite, log: KeyLog, s: nat, e: State, gone: set<Position>,
                           plaintext: Bytes, nonce: Bytes)
    requires EndpointOk(c, log, s, e, gone) && s > 0
    ensures EndpointOk(c, Issue(log, s), s, EncryptStep(c, e, plaintext, nonce).1, gone)
  {
    EncryptKeepsAligned(c, log, s, e, plaintext, nonce);
    TableAfterIssue(c, log, s, s, e.nRecv, gone, e.skipped);
    hide TableSound;
    hide GonePassed;
    hide Aligned;
  }

  /** The peer is not disturbed by a message issued on chain k, current or next. */
  lemma EncryptKeepsPeer(c: Suite, log: KeyLog, k: nat, s: nat, e: State, gone: set<Position>)
    requires EndpointOk(c, log, s, e, gone) && 1 <= k < |log.issued|
    requires k == s - 1 || k == s + 1
    ensures EndpointOk(c, Issue(log, k), s, e, gone)
  {
    var log' := Issue(log, k);
    RootIgnoresIssued(c, log, log'.issued, s);
    if s >= 2 {
      RootIgnoresIssued(c, log, log'.issued, s - 1);
    }
    TableAfterIssue(c, log, k, s, e.nRecv, gone, e.skipped);
  }

  // ---- passing over messages of the current receiving chain ----

  lemma EntryAfterSkip(c: Suite, log: KeyLog, s: nat, lo: nat, hi: nat, gone: set<Position>,
                       key: SkippedKey, mk: Bytes)
    requires LogOk(log) && lo <= hi
    requires EntrySound(c, log, s, lo, gone, key, mk)
    ensures EntrySound(c, log, s, hi, gone, key, mk)
  {
  }

  lemma EntryPassedOver(c: Suite, log: KeyLog, s: nat, lo: nat, hi: nat, gone: set<Position>, key: SkippedKey)
    requires LogOk(log) && KeysDistinct(c, log) && GonePassed(log, s, lo, gone)
    requires 2 <= s < |log.secrets| && InRange(key, Public(c, log, s - 1), lo, hi)
    ensures EntrySound(c, log, s, hi, gone, key,
                       MessageKey(c, ChainKey(c, ChainAt(c, log, s - 1, lo), key.n - lo)))
  {
    hide FindKey;
    hide RootAndChain;
    hide MessageKey;
    hide ChainKey;
    FindKeyDistinct(c, log, s - 1);
    ChainKeySum(c, RootAndChain(c, log, s - 1).1, lo, key.n - lo);
  }

  lemma TableAfterSkip(c: Suite, log: KeyLog, s: nat, lo: nat, hi: nat, gone: set<Position>,
                       before: SkippedTable, after: SkippedTable)
    requires LogOk(log) && KeysDistinct(c, log) && GonePassed(log, s, lo, gone)
    requires 2 <= s < |log.secrets| && lo <= hi
    requires TableSound(c, log, s, lo, gone, before) && after.Valid()
    requires SkippedSoundly(c, before, after, Public(c, log, s - 1), ChainAt(c, log, s - 1, lo), lo, hi)
    ensures TableSound(c, log, s, hi, gone, after)
  {
    forall key | key in after.entries
      ensures EntrySound(c, log, s, hi, gone, key, after.entries[key])
    {
      if InRange(key, Public(c, log, s - 1), lo, hi) {
        EntryPassedOver(c, log, s, lo, hi, gone, key);
      } else {
        EntryAfterSkip(c, log, s, lo, hi, gone, key, before.entries[key]);
      }
    }
  }

  lemma SkipAlongMoves(c: Suite, log: KeyLog, s: nat, e: State, untilIndex: nat)
    requires LogOk(log) && Aligned(c, log, s, e) && s >= 2
    requires e.nRecv <= untilIndex <= e.nRecv + MAX_SKIP
    ensures Skip(c, e, untilIndex) == Some(SkipLoop(c, e, ChainAt(c, log, s - 1, e.nRecv), untilIndex))
    ensures var e' := Skip(c, e, untilIndex).value;
      e' == e.(ckRecv := Some(ChainAt(c, log, s - 1, untilIndex)), nRecv := untilIndex, skipped := e'.skipped)
  {
    hide SkipLoop;
    var ck := ChainAt(c, log, s - 1, e.nRecv);
    assert Skip(c, e, untilIndex) == Some(SkipLoop(c, e, ck, untilIndex));
    SkipLoopMoves(c, e, ck, untilIndex);
    assert ChainKey(c, ck, untilIndex - e.nRecv) == ChainAt(c, log, s - 1, untilIndex) by {
      ChainKeySum(c, RootAndChain(c, log, s - 1).1, e.nRecv, untilIndex - e.nRecv);
    }
  }

  /** Skip within the current receiving chain, up to a message that was issued there. */
  lemma SkipAlong(c: Suite, log: KeyLog, s: nat, e: State, gone: set<Position>, untilIndex: nat)
    requires EndpointOk(c, log, s, e, gone) && KeysDistinct(c, log) && s >= 2
    requires e.nRecv <= untilIndex <= log.issued[s - 1]
    requires untilIndex <= e.nRecv + MAX_SKIP
    ensures Skip(c, e, untilIndex).Some?
    ensures var e' := Skip(c, e, untilIndex).value;
      && e' == e.(ckRecv := Some(ChainAt(c, log, s - 1, untilIndex)), nRecv := untilIndex, skipped := e'.skipped)
      && EndpointOk(c, log, s, e', gone)
  {
    var ck := ChainAt(c, log, s - 1, e.nRecv);
    SkipAlongMoves(c, log, s, e, untilIndex);
    SkipLoopTableValid(c, e, ck, untilIndex);
    SkipLoopSound(c, e, ck, untilIndex);
    TableAfterSkip(c, log, s, e.nRecv, untilIndex, gone, e.skipped, Skip(c, e, untilIndex).value.skipped);
  }

  // ---- taking a message in order ----

  lemma EntryAfterTake(c: Suite, log: KeyLog, s: nat, n: nat, gone: set<Position>, key: SkippedKey, mk: Bytes)
    requires LogOk(log) && s >= 1 && EntrySound(c, log, s, n, gone, key, mk)
    ensures EntrySound(c, log, s, n + 1, gone + {(s - 1, n)}, key, mk)
  {
  }

  lemma TableAfterTake(c: Suite, log: KeyLog, s: nat, n: nat, gone: set<Position>, t: SkippedTable)
    requires LogOk(log) && s >= 1 && TableSound(c, log, s, n, gone, t)
    ensures TableSound(c, log, s, n + 1, gone + {(s - 1, n)}, t)
  {
    forall key | key in t.entries
      ensures EntrySound(c, log, s, n + 1, gone + {(s - 1, n)}, key, t.entries[key])
    {
      EntryAfterTake(c, log, s, n, gone, key, t.entries[key]);
    }
  }

  /** The package of message n of chain k. */
  ghost predicate SealedAt(c: Suite, log: KeyLog, k: nat, plaintext: Bytes, nonce: Bytes, m: Wire) {
    && 1 <= k < |log.secrets| == |log.issued|
    && m.dhPub == Public(c, log, k)
    && m.n < log.issued[k]
    && m.pn == IssuedBefore(log, k)
    && |nonce| == NONCE_LENGTH
    && m.ciphertext == Seal(c, plaintext, nonce, KeyAt(c, log, k, m.n))
  }

  lemma OpenAt(c: Suite, log: KeyLog, k: nat, plaintext: Bytes, nonce: Bytes, m: Wire)
    requires SealedAt(c, log, k, plaintext, nonce, m)
    ensures OpenWith(c, m.ciphertext, KeyAt(c, log, k, m.n)) == Plain(plaintext)
  {
    OpenSealed(c, plaintext, nonce, KeyAt(c, log, k, m.n));
  }

  /** A message of the current receiving chain that has not been passed opens, unless it is too far ahead. */
  lemma ReceiveKeeps(c: Suite, log: KeyLog, s: nat, e: State, gone: set<Position>,
                     plaintext: Bytes, nonce: Bytes, m: Wire)
    requires EndpointOk(c, log, s, e, gone) && KeysDistinct(c, log) && s >= 2
    requires SealedAt(c, log, s - 1, plaintext, nonce, m) && e.nRecv <= m.n
    ensures var (outcome, e') := ReceiveInOrder(c, e, m);
      if e.nRecv + MAX_SKIP < m.n then outcome == Thrown(TooManySkipped) && e' == e
      else outcome == Plain(plaintext) && EndpointOk(c, log, s, e', gone + {(s - 1, m.n)})
    ensures ReceiveInOrder(c, e, m).1.ourPub == e.ourPub
  {
    hide TableSound;
    hide Root;
    hide RootAndChain;
    hide SkipLoop;
    if m.n <= e.nRecv + MAX_SKIP {
      SkipAlong(c, log, s, e, gone, m.n);
      OpenAt(c, log, s - 1, plaintext, nonce, m);
      TableAfterTake(c, log, s, m.n, gone, Skip(c, e, m.n).value.skipped);
    }
  }

  // ---- a message whose key was stored ----

  lemma EntryAfterUse(c: Suite, log: KeyLog, s: nat, nRecv: nat, gone: set<Position>,
                      used: SkippedKey, key: SkippedKey, mk: Bytes)
    requires LogOk(log) && EntrySound(c, log, s, nRecv, gone, key, mk) && key != used
    requires 0 <= FindKey(c, log.secrets, used.dhPub)
    ensures EntrySound(c, log, s, nRecv, gone + {(FindKey(c, log.secrets, used.dhPub) as nat, used.n)}, key, mk)
  {
    FindKeyFinds(c, log.secrets, used.dhPub);
    FindKeyFinds(c, log.secrets, key.dhPub);
  }

  lemma TableAfterUse(c: Suite, log: KeyLog, s: nat, nRecv: nat, gone: set<Position>, t: SkippedTable,
                      used: SkippedKey, k: nat)
    requires LogOk(log) && TableSound(c, log, s, nRecv, gone, t)
    requires FindKey(c, log.secrets, used.dhPub) == k
    ensures TableSound(c, log, s, nRecv, gone + {(k, used.n)}, t.Delete(used))
  {
    DeleteValid(t, used);
    forall key | key in t.Delete(used).entries
      ensures EntrySound(c, log, s, nRecv, gone + {(k, used.n)}, key, t.entries[key])
    {
      EntryAfterUse(c, log, s, nRecv, gone, used, key, t.entries[key]);
    }
  }

  lemma StoredPosition(c: Suite, log: KeyLog, s: nat, e: State, gone: set<Position>, k: nat, used: SkippedKey)
    requires LogOk(log) && TableSound(c, log, s, e.nRecv, gone, e.skipped) && KeysDistinct(c, log)
    requires 1 <= k < |log.secrets| && used.dhPub == Public(c, log, k) && used in e.skipped.entries
    ensures FindKey(c, log.secrets, used.dhPub) == k
    ensures Missing(log, s, e.nRecv, gone, k, used.n)
    ensures e.skipped.entries[used] == KeyAt(c, log, k, used.n)
  {
    FindKeyDistinct(c, log, k);
    assert EntrySound(c, log, s, e.nRecv, gone, used, e.skipped.entries[used]);
  }

  lemma StoredOpens(c: Suite, log: KeyLog, s: nat, e: State, gone: set<Position>, k: nat,
                    plaintext: Bytes, nonce: Bytes, m: Wire)
    requires LogOk(log) && TableSound(c, log, s, e.nRecv, gone, e.skipped) && KeysDistinct(c, log)
    requires SealedAt(c, log, k, plaintext, nonce, m)
    requires SkippedKey(m.dhPub, m.n) in e.skipped.entries
    ensures OpenWith(c, m.ciphertext, e.skipped.entries[SkippedKey(m.dhPub, m.n)]) == Plain(plaintext)
  {
    StoredPosition(c, log, s, e, gone, k, SkippedKey(m.dhPub, m.n));
    OpenAt(c, log, k, plaintext, nonce, m);
  }

  lemma StoredKeeps(c: Suite, log: KeyLog, s: nat, e: State, gone: set<Position>, k: nat, used: SkippedKey)
    requires EndpointOk(c, log, s, e, gone) && KeysDistinct(c, log)
    requires 1 <= k < |log.secrets| && used.dhPub == Public(c, log, k) && used in e.skipped.entries
    ensures EndpointOk(c, log, s, e.(skipped := e.skipped.Delete(used)), gone + {(k, used.n)})
  {
    hide TableSound;
    hide ChainAt;
    hide IssuedBefore;
    hide Root;
    hide FindKey;
    StoredPosition(c, log, s, e, gone, k, used);
    TableAfterUse(c, log, s, e.nRecv, gone, e.skipped, used, k);
  }

  // ---- the ratchet step ----

  lemma EntryAfterAppend(c: Suite, log: KeyLog, s: nat, nRecv: nat, gone: set<Position>, x: Bytes,
                         key: SkippedKey, mk: Bytes)
    requires LogOk(log) && Unused(c, log, x) && EntrySound(c, log, s, nRecv, gone, key, mk)
    ensures EntrySound(c, Append(log, x), s, nRecv, gone, key, mk)
  {
    var k := FindKey(c, log.secrets, key.dhPub);
    FindKeyAppend(c, log.secrets, x, key.dhPub);
    FindKeyFinds(c, log.secrets, key.dhPub);
    RootAppend(c, log, x, k);
  }

  lemma TableAfterAppend(c: Suite, log: KeyLog, s: nat, nRecv: nat, gone: set<Position>, t: SkippedTable, x: Bytes)
    requires LogOk(log) && Unused(c, log, x) && s < |log.secrets| && TableSound(c, log, s, nRecv, gone, t)
    ensures TableSound(c, Append(log, x), s, nRecv, gone, t)
  {
    forall key | key in t.entries
      ensures EntrySound(c, Append(log, x), s, nRecv, gone, key, t.entries[key])
    {
      EntryAfterAppend(c, log, s, nRecv, gone, x, key, t.entries[key]);
    }
  }

  /** The endpoint that did not ratchet is not disturbed by the peer's new key pair. */
  lemma RatchetKeepsPeer(c: Suite, log: KeyLog, s: nat, e: State, gone: set<Position>, x: Bytes)
    requires EndpointOk(c, log, s, e, gone) && Unused(c, log, x)
    ensures EndpointOk(c, Append(log, x), s, e, gone)
  {
    RootAppend(c, log, x, s);
    if s >= 2 {
      RootAppend(c, log, x, s - 1);
    }
    TableAfterAppend(c, log, s, e.nRecv, gone, e.skipped, x);
  }

  /** The receiving chain s - 1 is complete: everything issued on it has been passed. */
  ghost predicate ChainDone(log: KeyLog, s: nat, nRecv: nat)
    requires LogOk(log) && s < |log.secrets|
  {
    s >= 2 ==> nRecv == log.issued[s - 1]
  }

  /** Moving on to chain s + 1 keeps the table, with chain s - 1 complete. */
  lemma TableOnNextChain(c: Suite, log: KeyLog, s: nat, nRecv: nat, gone: set<Position>, t: SkippedTable)
    requires LogOk(log) && s + 2 < |log.secrets|
    requires ChainDone(log, s, nRecv) && (s <= 1 ==> nRecv == 0)
    requires TableSound(c, log, s, nRecv, gone, t) && GonePassed(log, s, nRecv, gone)
    ensures TableSound(c, log, s + 2, 0, gone, t) && GonePassed(log, s + 2, 0, gone)
  {
    hide FindKey;
    hide KeyAt;
    forall key | key in t.entries ensures EntrySound(c, log, s + 2, 0, gone, key, t.entries[key]) {
      assert EntrySound(c, log, s, nRecv, gone, key, t.entries[key]);
    }
  }

  lemma RatchetAligns(c: Suite, log: KeyLog, s: nat, e: State, x: Bytes)
    requires LogOk(log) && Aligned(c, log, s, e) && |log.secrets| == s + 2
    ensures Aligned(c, Append(log, x), s + 2, Ratchet(c, e, Public(c, log, s + 1), x))
  {
    hide RootStep;
    var log' := Append(log, x);
    DhCommutes(c, log.secrets[s], log.secrets[s + 1]);
    DhCommutes(c, x, log.secrets[s + 1]);
    RootAppend(c, log, x, s);
    assert RootAndChain(c, log', s + 1)
        == RootStep(c, Root(c, log, s), Dh(c, e.ourPriv, Public(c, log, s + 1)));
    assert RootAndChain(c, log', s + 2)
        == RootStep(c, Root(c, log', s + 1), Dh(c, x, Public(c, log, s + 1)));
  }

  lemma FinishChain(c: Suite, log: KeyLog, s: nat, e: State, gone: set<Position>)
    requires EndpointOk(c, log, s, e, gone) && KeysDistinct(c, log)
    requires |log.secrets| == s + 2
    requires IssuedBefore(log, s + 1) <= e.nRecv + MAX_SKIP
    ensures Skip(c, e, IssuedBefore(log, s + 1)).Some?
    ensures var e1 := Skip(c, e, IssuedBefore(log, s + 1)).value;
      EndpointOk(c, log, s, e1, gone) && ChainDone(log, s, e1.nRecv)
  {
    if s >= 2 {
      SkipAlong(c, log, s, e, gone, log.issued[s - 1]);
    }
  }

  lemma StepRoot(c: Suite, log: KeyLog, s: nat, e: State, gone: set<Position>, x: Bytes)
    requires EndpointOk(c, log, s, e, gone) && Unused(c, log, x)
    requires |log.secrets| == s + 2 && ChainDone(log, s, e.nRecv)
    ensures EndpointOk(c, Append(log, x), s + 2, Ratchet(c, e, Public(c, log, s + 1), x), gone)
  {
    RatchetAligns(c, log, s, e, x);
    TableAfterAppend(c, log, s, e.nRecv, gone, e.skipped, x);
    TableOnNextChain(c, Append(log, x), s, e.nRecv, gone, e.skipped);
  }

  /** The first half of a delivery that ratchets: finish the old chain, then step the root. */
  lemma RatchetKeeps(c: Suite, log: KeyLog, s: nat, e: State, gone: set<Position>, x: Bytes)
    requires EndpointOk(c, log, s, e, gone) && KeysDistinct(c, log) && Unused(c, log, x)
    requires |log.secrets| == s + 2
    requires IssuedBefore(log, s + 1) <= e.nRecv + MAX_SKIP
    ensures Skip(c, e, IssuedBefore(log, s + 1)).Some?
    ensures var e1 := Skip(c, e, IssuedBefore(log, s + 1)).value;
      EndpointOk(c, Append(log, x), s + 2, Ratchet(c, e1, Public(c, log, s + 1), x), gone)
  {
    FinishChain(c, log, s, e, gone);
    StepRoot(c, log, s, Skip(c, e, IssuedBefore(log, s + 1)).value, gone, x);
  }

  // ---- completeness of the table while it has room ----

  ghost predicate EndpointFull(c: Suite, log: KeyLog, s: nat, e: State, gone: set<Position>)
    requires LogOk(log)
  {
    TableComplete(c, log, s, e.nRecv, gone, e.skipped)
  }

  lemma FullAfterIssue(c: Suite, log: KeyLog, k: nat, s: nat, e: State, e': State, gone: set<Position>)
    requires LogOk(log) && 1 <= k < |log.issued| && s <= k + 1
    requires e'.skipped == e.skipped && e'.nRecv == e.nRecv
    requires EndpointFull(c, log, s, e, gone)
    ensures EndpointFull(c, Issue(log, k), s, e', gone)
  {
    forall k': nat, i: nat | Missing(Issue(log, k), s, e.nRecv, gone, k', i)
      ensures SkippedKey(Public(c, Issue(log, k), k'), i) in e.skipped.entries
    {
      assert Missing(log, s, e.nRecv, gone, k', i);
    }
  }

  lemma FullAfterAppend(c: Suite, log: KeyLog, s: nat, e: State, gone: set<Position>, x: Bytes)
    requires LogOk(log) && s < |log.secrets| && EndpointFull(c, log, s, e, gone)
    ensures EndpointFull(c, Append(log, x), s, e, gone)
  {
    forall k: nat, i: nat | Missing(Append(log, x), s, e.nRecv, gone, k, i)
      ensures SkippedKey(Public(c, Append(log, x), k), i) in e.skipped.entries
    {
      assert Missing(log, s, e.nRecv, gone, k, i);
    }
  }

  lemma FullAfterSkip(c: Suite, log: KeyLog, s: nat, lo: nat, hi: nat, gone: set<Position>,
                      before: SkippedTable, after: SkippedTable)
    requires LogOk(log) && 2 <= s < |log.secrets| && lo <= hi
    requires TableComplete(c, log, s, lo, gone, before)
    requires NothingLost(before, after, Public(c, log, s - 1), lo, hi)
    ensures TableComplete(c, log, s, hi, gone, after)
  {
    forall k: nat, i: nat | Missing(log, s, hi, gone, k, i)
      ensures SkippedKey(Public(c, log, k), i) in after.entries
    {
      if k != s - 1 || i < lo {
        assert Missing(log, s, lo, gone, k, i);
      } else {
        assert InRange(SkippedKey(Public(c, log, k), i), Public(c, log, s - 1), lo, hi);
      }
    }
  }

  lemma FullAfterTake(c: Suite, log: KeyLog, s: nat, n: nat, gone: set<Position>, t: SkippedTable)
    requires LogOk(log) && s >= 1 && TableComplete(c, log, s, n, gone, t)
    ensures TableComplete(c, log, s, n + 1, gone + {(s - 1, n)}, t)
  {
    forall k: nat, i: nat | Missing(log, s, n + 1, gone + {(s - 1, n)}, k, i)
      ensures SkippedKey(Public(c, log, k), i) in t.entries
    {
      assert Missing(log, s, n, gone, k, i);
    }
  }

  /** Skipping with room leaves a complete table. */
  lemma SkipAlongFull(c: Suite, log: KeyLog, s: nat, e: State, gone: set<Position>, untilIndex: nat)
    requires LogOk(log) && Aligned(c, log, s, e) && e.skipped.Valid()
    requires s >= 2 && EndpointFull(c, log, s, e, gone)
    requires e.nRecv <= untilIndex <= e.nRecv + MAX_SKIP
    requires |e.skipped.order| + (untilIndex - e.nRecv) <= MAX_SKIPPED_KEYS
    ensures Skip(c, e, untilIndex).Some? && Skip(c, e, untilIndex).value.nRecv == untilIndex
    ensures EndpointFull(c, log, s, Skip(c, e, untilIndex).value, gone)
    ensures |Skip(c, e, untilIndex).value.skipped.order| <= |e.skipped.order| + (untilIndex - e.nRecv)
  {
    SkipAlongMoves(c, log, s, e, untilIndex);
    SkipLoopKeeps(c, e, ChainAt(c, log, s - 1, e.nRecv), untilIndex);
    FullAfterSkip(c, log, s, e.nRecv, untilIndex, gone, e.skipped, Skip(c, e, untilIndex).value.skipped);
  }

  lemma ReceiveFull(c: Suite, log: KeyLog, s: nat, e: State, gone: set<Position>, m: Wire)
    requires LogOk(log) && Aligned(c, log, s, e) && e.skipped.Valid()
    requires s >= 2 && EndpointFull(c, log, s, e, gone)
    requires e.nRecv <= m.n <= e.nRecv + MAX_SKIP
    requires |e.skipped.order| + (m.n - e.nRecv) <= MAX_SKIPPED_KEYS
    ensures EndpointFull(c, log, s, ReceiveInOrder(c, e, m).1, gone + {(s - 1, m.n)})
  {
    SkipAlongMoves(c, log, s, e, m.n);
    SkipAlongFull(c, log, s, e, gone, m.n);
    FullAfterTake(c, log, s, m.n, gone, Skip(c, e, m.n).value.skipped);
  }

  lemma StoredFull(c: Suite, log: KeyLog, s: nat, e: State, gone: set<Position>, k: nat, n: nat)
    requires LogOk(log) && KeysDistinct(c, log) && k < |log.secrets| && EndpointFull(c, log, s, e, gone)
    ensures EndpointFull(c, log, s, e.(skipped := e.skipped.Delete(SkippedKey(Public(c, log, k), n))),
                         gone + {(k, n)})
  {
    var used := SkippedKey(Public(c, log, k), n);
    forall k': nat, i: nat | Missing(log, s, e.nRecv, gone + {(k, n)}, k', i)
      ensures SkippedKey(Public(c, log, k'), i) in e.skipped.Delete(used).entries
    {
      assert Missing(log, s, e.nRecv, gone, k', i);
      FindKeyDistinct(c, log, k);
      FindKeyDistinct(c, log, k');
    }
  }

  lemma FullOnNextChain(c: Suite, log: KeyLog, s: nat, nRecv: nat, gone: set<Position>, t: SkippedTable, x: Bytes)
    requires LogOk(log) && |log.secrets| == s + 2 && ChainDone(log, s, nRecv)
    requires TableComplete(c, log, s, nRecv, gone, t)
    ensures TableComplete(c, Append(log, x), s + 2, 0, gone, t)
  {
    forall k: nat, i: nat | Missing(Append(log, x), s + 2, 0, gone, k, i)
      ensures SkippedKey(Public(c, Append(log, x), k), i) in t.entries
    {
      assert Missing(log, s, nRecv, gone, k, i);
    }
  }

  lemma RatchetFull(c: Suite, log: KeyLog, s: nat, e: State, gone: set<Position>, x: Bytes)
    requires LogOk(log) && Aligned(c, log, s, e) && e.skipped.Valid() && EndpointFull(c, log, s, e, gone)
    requires |log.secrets| == s + 2
    requires IssuedBefore(log, s + 1) <= e.nRecv + MAX_SKIP
    requires s >= 2 ==> |e.skipped.order| + (log.issued[s - 1] - e.nRecv) <= MAX_SKIPPED_KEYS
    ensures Skip(c, e, IssuedBefore(log, s + 1)).Some?
    ensures var e1 := Skip(c, e, IssuedBefore(log, s + 1)).value;
      && Aligned(c, log, s, e1) && e1.skipped.Valid() && ChainDone(log, s, e1.nRecv)
      && EndpointFull(c, log, s, e1, gone)
      && (s >= 2 ==> |e1.skipped.order| <= |e.skipped.order| + (log.issued[s - 1] - e.nRecv))
      && (s <= 1 ==> e1 == e)
  {
    if s >= 2 {
      SkipAlongFull(c, log, s, e, gone, log.issued[s - 1]);
      SkipAlongMoves(c, log, s, e, log.issued[s - 1]);
      SkipLoopTableValid(c, e, ChainAt(c, log, s - 1, e.nRecv), log.issued[s - 1]);
    }
  }

  // ---- one honest delivery ----

  predicate Stored(e: State, m: Wire) {
    SkippedKey(m.dhPub, m.n) in e.skipped.entries
  }

  /** Decrypting m would pass over more than 100 messages of one chain. */
  predicate TooFar(e: State, m: Wire) {
    && !Stored(e, m)
    && if Some(m.dhPub) != e.peerPub then m.pn > e.nRecv + MAX_SKIP || m.n > MAX_SKIP
       else m.n > e.nRecv + MAX_SKIP
  }

  /** The log and the endpoint's latest key after a delivery that left state e'. */
  function LogAfter(log: KeyLog, e: State, e': State, x: Bytes): KeyLog {
    if e'.ourPub == e.ourPub then log else Append(log, x)
  }

  function LatestAfter(s: nat, e: State, e': State): nat {
    if e'.ourPub == e.ourPub then s else s + 2
  }

  /** The message opens to its plaintext, or it is too far ahead and nothing is consumed. */
  ghost predicate OutcomeOk(c: Suite, log: KeyLog, s: nat, e: State, plaintext: Bytes, m: Wire, x: Bytes) {
    var (outcome, e') := DecryptStep(c, e, m, x);
    && outcome == (if TooFar(e, m) then Thrown(TooManySkipped) else Plain(plaintext))
    && (e'.ourPub == e.ourPub || (|log.secrets| == s + 2 && e'.ourPub == PublicKey(c, x)))
  }

  /** Either way the endpoint stays in step with the log. */
  ghost predicate DeliveryOk(c: Suite, log: KeyLog, s: nat, e: State, gone: set<Position>, k: nat,
                             plaintext: Bytes, m: Wire, x: Bytes)
  {
    var e' := DecryptStep(c, e, m, x).1;
    && OutcomeOk(c, log, s, e, plaintext, m, x)
    && EndpointOk(c, LogAfter(log, e, e', x), LatestAfter(s, e, e'), e',
                  if TooFar(e, m) then gone else gone + {(k, m.n)})
  }

  lemma DeliverStored(c: Suite, log: KeyLog, s: nat, e: State, gone: set<Position>, k: nat,
                      plaintext: Bytes, nonce: Bytes, m: Wire, x: Bytes)
    requires EndpointOk(c, log, s, e, gone) && KeysDistinct(c, log)
    requires SealedAt(c, log, k, plaintext, nonce, m) && Stored(e, m)
    ensures DeliveryOk(c, log, s, e, gone, k, plaintext, m, x)
  {
    StoredOpens(c, log, s, e, gone, k, plaintext, nonce, m);
    StoredKeeps(c, log, s, e, gone, k, SkippedKey(m.dhPub, m.n));
  }

  lemma DeliverCurrent(c: Suite, log: KeyLog, s: nat, e: State, gone: set<Position>,
                       plaintext: Bytes, nonce: Bytes, m: Wire, x: Bytes)
    requires EndpointOk(c, log, s, e, gone) && KeysDistinct(c, log) && s >= 2
    requires SealedAt(c, log, s - 1, plaintext, nonce, m) && !Stored(e, m) && e.nRecv <= m.n
    ensures DeliveryOk(c, log, s, e, gone, s - 1, plaintext, m, x)
  {
    assert DecryptStep(c, e, m, x) == ReceiveInOrder(c, e, m);
    ReceiveKeeps(c, log, s, e, gone, plaintext, nonce, m);
  }

  lemma SealedAfterAppend(c: Suite, log: KeyLog, k: nat, plaintext: Bytes, nonce: Bytes, m: Wire, x: Bytes)
    requires LogOk(log) && SealedAt(c, log, k, plaintext, nonce, m)
    ensures SealedAt(c, Append(log, x), k, plaintext, nonce, m)
  {
    RootAppend(c, log, x, k);
  }

  lemma NewKeyDistinct(c: Suite, log: KeyLog, x: Bytes)
    requires KeysDistinct(c, log) && Unused(c, log, x)
    ensures KeysDistinct(c, Append(log, x))
  {
  }

  /** What receiving m as the first message of the new chain s + 1 yields. */
  ghost predicate ReceivedOnNext(c: Suite, log: KeyLog, s: nat, e2: State, gone: set<Position>,
                                 plaintext: Bytes, m: Wire, x: Bytes)
  {
    var (outcome, e') := ReceiveInOrder(c, e2, m);
    && outcome == (if m.n > MAX_SKIP then Thrown(TooManySkipped) else Plain(plaintext))
    && e'.ourPub == e2.ourPub
    && EndpointOk(c, Append(log, x), s + 2, e', if m.n > MAX_SKIP then gone else gone + {(s + 1, m.n)})
  }

  lemma ReceiveOnNext(c: Suite, log: KeyLog, s: nat, e2: State, gone: set<Position>,
                      plaintext: Bytes, nonce: Bytes, m: Wire, x: Bytes)
    requires LogOk(log) && KeysDistinct(c, log) && Unused(c, log, x) && |log.secrets| == s + 2
    requires EndpointOk(c, Append(log, x), s + 2, e2, gone) && e2.nRecv == 0
    requires SealedAt(c, log, s + 1, plaintext, nonce, m)
    ensures ReceivedOnNext(c, log, s, e2, gone, plaintext, m, x)
  {
    NewKeyDistinct(c, log, x);
    SealedAfterAppend(c, log, s + 1, plaintext, nonce, m, x);
    ReceiveKeeps(c, Append(log, x), s + 2, e2, gone, plaintext, nonce, m);
  }

  /** Put together a delivery that ratcheted to e2 and then received on the new chain. */
  lemma RatchetedDelivery(c: Suite, log: KeyLog, s: nat, e: State, e2: State, gone: set<Position>,
                          plaintext: Bytes, m: Wire, x: Bytes)
    requires LogOk(log) && |log.secrets| == s + 2 && e.ourPub == Public(c, log, s) && Unused(c, log, x)
    requires !Stored(e, m) && Some(m.dhPub) != e.peerPub && Skip(c, e, m.pn).Some?
    requires e2 == Ratchet(c, Skip(c, e, m.pn).value, m.dhPub, x)
    requires ReceivedOnNext(c, log, s, e2, gone, plaintext, m, x)
    ensures DeliveryOk(c, log, s, e, gone, s + 1, plaintext, m, x)
  {
    assert DecryptStep(c, e, m, x) == ReceiveInOrder(c, e2, m);
  }

  lemma DeliverNextChain(c: Suite, log: KeyLog, s: nat, e: State, gone: set<Position>,
                         plaintext: Bytes, nonce: Bytes, m: Wire, x: Bytes)
    requires EndpointOk(c, log, s, e, gone) && KeysDistinct(c, log) && Unused(c, log, x)
    requires |log.secrets| == s + 2
    requires SealedAt(c, log, s + 1, plaintext, nonce, m) && !Stored(e, m)
    ensures DeliveryOk(c, log, s, e, gone, s + 1, plaintext, m, x)
  {
    assert Some(m.dhPub) != e.peerPub;
    hide TableSound;
    hide GonePassed;
    hide ChainAt;
    hide Root;
    hide Ratchet;
    hide SkipLoop;
    if m.pn <= e.nRecv + MAX_SKIP {
      RatchetKeeps(c, log, s, e, gone, x);
      var e2 := Ratchet(c, Skip(c, e, m.pn).value, m.dhPub, x);
      ReceiveOnNext(c, log, s, e2, gone, plaintext, nonce, m, x);
      RatchetedDelivery(c, log, s, e, e2, gone, plaintext, m, x);
    }
  }

  /** Any message still due at the endpoint: stored, or not yet passed on the current or the next chain. */
  lemma HonestDelivery(c: Suite, log: KeyLog, s: nat, e: State, gone: set<Position>, k: nat,
                       plaintext: Bytes, nonce: Bytes, m: Wire, x: Bytes)
    requires EndpointOk(c, log, s, e, gone) && KeysDistinct(c, log) && Unused(c, log, x)
    requires SealedAt(c, log, k, plaintext, nonce, m)
    requires Received(s, k) && (k + 1 <= s || (k == s + 1 && |log.secrets| == s + 2))
    requires Stored(e, m) || m.n >= Passed(log, s, e.nRecv, k)
    ensures DeliveryOk(c, log, s, e, gone, k, plaintext, m, x)
  {
    if Stored(e, m) {
      DeliverStored(c, log, s, e, gone, k, plaintext, nonce, m, x);
    } else if k == s + 1 {
      DeliverNextChain(c, log, s, e, gone, plaintext, nonce, m, x);
    } else {
      DeliverCurrent(c, log, s, e, gone, plaintext, nonce, m, x);
    }
  }

  /** A delivery to the peer does not concern this endpoint's chains. */
  lemma GoneElsewhere(c: Suite, log: KeyLog, s: nat, e: State, gone: set<Position>, k: nat, n: nat)
    requires EndpointOk(c, log, s, e, gone) && !Received(s, k)
    ensures EndpointOk(c, log, s, e, gone + {(k, n)})
  {
    forall key | key in e.skipped.entries
      ensures EntrySound(c, log, s, e.nRecv, gone + {(k, n)}, key, e.skipped.entries[key])
    {
      assert EntrySound(c, log, s, e.nRecv, gone, key, e.skipped.entries[key]);
    }
  }

  /** The peer's delivery, which may have added a key pair x and consumed (k, n). */
  lemma PeerDelivery(c: Suite, log: KeyLog, s: nat, e: State, gone: set<Position>, x: Bytes, k: nat, n: nat,
                     log': KeyLog, gone': set<Position>)
    requires EndpointOk(c, log, s, e, gone) && Unused(c, log, x) && !Received(s, k)
    requires log' == log || log' == Append(log, x)
    requires gone' == gone || gone' == gone + {(k, n)}
    ensures EndpointOk(c, log', s, e, gone')
  {
    if log' != log {
      RatchetKeepsPeer(c, log, s, e, gone, x);
    }
    if gone' != gone {
      GoneElsewhere(c, log', s, e, gone, k, n);
    }
  }

  // ---- deliveries that leave no key behind ----

  /** How many keys skipping up to untilIndex stores: none if it throws, or if there is no chain yet. */
  function KeysPassed(e: State, untilIndex: nat): nat {
    if e.ckRecv.Some? && e.nRecv < untilIndex <= e.nRecv + MAX_SKIP then untilIndex - e.nRecv else 0
  }

  /** How many keys decrypting m stores; the ratchet step is not reached if the first skipping throws. */
  function KeysToStore(e: State, m: Wire): nat {
    if Stored(e, m) then 0
    else if Some(m.dhPub) == e.peerPub then KeysPassed(e, m.n)
    else if m.pn > e.nRecv + MAX_SKIP then 0
    else KeysPassed(e, m.pn) + if m.n <= MAX_SKIP then m.n else 0
  }

  /** Decrypting m cannot push a key out of the table. */
  predicate HasRoom(e: State, m: Wire) {
    |e.skipped.order| + KeysToStore(e, m) <= MAX_SKIPPED_KEYS
  }

  ghost predicate StaysFull(c: Suite, log: KeyLog, s: nat, e: State, gone: set<Position>, k: nat, m: Wire, x: Bytes)
    requires LogOk(log)
  {
    var e' := DecryptStep(c, e, m, x).1;
    EndpointFull(c, LogAfter(log, e, e', x), LatestAfter(s, e, e'), e',
                 if TooFar(e, m) then gone else gone + {(k, m.n)})
  }

  lemma FullCurrent(c: Suite, log: KeyLog, s: nat, e: State, gone: set<Position>,
                    plaintext: Bytes, nonce: Bytes, m: Wire, x: Bytes)
    requires EndpointOk(c, log, s, e, gone) && KeysDistinct(c, log) && s >= 2
    requires SealedAt(c, log, s - 1, plaintext, nonce, m) && !Stored(e, m) && e.nRecv <= m.n
    requires EndpointFull(c, log, s, e, gone) && HasRoom(e, m)
    ensures StaysFull(c, log, s, e, gone, s - 1, m, x)
  {
    assert DecryptStep(c, e, m, x) == ReceiveInOrder(c, e, m);
    ReceiveKeeps(c, log, s, e, gone, plaintext, nonce, m);
    if m.n <= e.nRecv + MAX_SKIP {
      ReceiveFull(c, log, s, e, gone, m);
    }
  }

  lemma ReceiveOnNextFull(c: Suite, log: KeyLog, s: nat, e2: State, gone: set<Position>, m: Wire, x: Bytes)
    requires LogOk(log) && |log.secrets| == s + 2 && e2.nRecv == 0
    requires Aligned(c, Append(log, x), s + 2, e2) && e2.skipped.Valid()
    requires EndpointFull(c, Append(log, x), s + 2, e2, gone)
    requires m.n <= MAX_SKIP ==> |e2.skipped.order| + m.n <= MAX_SKIPPED_KEYS
    ensures EndpointFull(c, Append(log, x), s + 2, ReceiveInOrder(c, e2, m).1,
                         if m.n > MAX_SKIP then gone else gone + {(s + 1, m.n)})
    ensures ReceiveInOrder(c, e2, m).1.ourPub == e2.ourPub
  {
    if m.n <= MAX_SKIP {
      SkipAlongMoves(c, Append(log, x), s + 2, e2, m.n);
      ReceiveFull(c, Append(log, x), s + 2, e2, gone, m);
    }
  }

  lemma FullNextChain(c: Suite, log: KeyLog, s: nat, e: State, gone: set<Position>, m: Wire, x: Bytes)
    requires LogOk(log) && Aligned(c, log, s, e) && e.skipped.Valid() && Unused(c, log, x)
    requires |log.secrets| == s + 2
    requires m.dhPub == Public(c, log, s + 1) && m.pn == IssuedBefore(log, s + 1)
    requires !Stored(e, m) && Some(m.dhPub) != e.peerPub
    requires EndpointFull(c, log, s, e, gone) && HasRoom(e, m)
    ensures StaysFull(c, log, s, e, gone, s + 1, m, x)
  {
    hide TableComplete;
    hide ChainAt;
    hide Root;
    hide SkipLoop;
    hide RootStep;
    if m.pn <= e.nRecv + MAX_SKIP {
      RatchetFull(c, log, s, e, gone, x);
      var e1 := Skip(c, e, m.pn).value;
      var e2 := Ratchet(c, e1, m.dhPub, x);
      RatchetAligns(c, log, s, e1, x);
      FullOnNextChain(c, log, s, e1.nRecv, gone, e1.skipped, x);
      ReceiveOnNextFull(c, log, s, e2, gone, m, x);
      assert DecryptStep(c, e, m, x) == ReceiveInOrder(c, e2, m);
    }
  }

  lemma StoredStaysFull(c: Suite, log: KeyLog, s: nat, e: State, gone: set<Position>, k: nat,
                        plaintext: Bytes, nonce: Bytes, m: Wire, x: Bytes)
    requires LogOk(log) && KeysDistinct(c, log) && SealedAt(c, log, k, plaintext, nonce, m) && Stored(e, m)
    requires EndpointFull(c, log, s, e, gone)
    ensures StaysFull(c, log, s, e, gone, k, m, x)
  {
    assert DecryptStep(c, e, m, x).1 == e.(skipped := e.skipped.Delete(SkippedKey(m.dhPub, m.n)));
    hide DecryptStep;
    hide EndpointFull;
    StoredFull(c, log, s, e, gone, k, m.n);
  }

  lemma NextStaysFull(c: Suite, log: KeyLog, s: nat, e: State, gone: set<Position>,
                      plaintext: Bytes, nonce: Bytes, m: Wire, x: Bytes)
    requires EndpointOk(c, log, s, e, gone) && KeysDistinct(c, log) && Unused(c, log, x)
    requires |log.secrets| == s + 2 && SealedAt(c, log, s + 1, plaintext, nonce, m) && !Stored(e, m)
    requires EndpointFull(c, log, s, e, gone) && HasRoom(e, m)
    ensures StaysFull(c, log, s, e, gone, s + 1, m, x)
  {
    assert Some(m.dhPub) != e.peerPub;
    hide StaysFull;
    hide EndpointFull;
    hide HasRoom;
    FullNextChain(c, log, s, e, gone, m, x);
  }

  /** A delivery with room keeps the table complete. */
  lemma HonestDeliveryFull(c: Suite, log: KeyLog, s: nat, e: State, gone: set<Position>, k: nat,
                           plaintext: Bytes, nonce: Bytes, m: Wire, x: Bytes)
    requires EndpointOk(c, log, s, e, gone) && KeysDistinct(c, log) && Unused(c, log, x)
    requires SealedAt(c, log, k, plaintext, nonce, m)
    requires Received(s, k) && (k + 1 <= s || (k == s + 1 && |log.secrets| == s + 2))
    requires Stored(e, m) || m.n >= Passed(log, s, e.nRecv, k)
    requires EndpointFull(c, log, s, e, gone) && HasRoom(e, m)
    ensures StaysFull(c, log, s, e, gone, k, m, x)
  {
    hide StaysFull;
    hide EndpointFull;
    hide HasRoom;
    hide TableSound;
    hide GonePassed;
    hide ChainAt;
    hide Root;
    hide KeyAt;
    if Stored(e, m) {
      StoredStaysFull(c, log, s, e, gone, k, plaintext, nonce, m, x);
    } else if k == s + 1 {
      NextStaysFull(c, log, s, e, gone, plaintext, nonce, m, x);
    } else {
      FullCurrent(c, log, s, e, gone, plaintext, nonce, m, x);
    }
  }
}
