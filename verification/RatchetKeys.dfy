/**
 * The keys of the ratchets (packages/protocol/src/double-ratchet.ts) against RFC 5869, and what
 * they depend on: a session agrees with its peer because, and only because, it knows the master key.
 */
module RatchetKeys {
  import opened Common
  import opened Primitives
  import opened DoubleRatchet
  import Hkdf
  import SK = SenderKey
  import X3dh

  // ---- the root key chain ----

  lemma InfoTexts()
    ensures DR_INFO == Ascii("EmberChamberRatchetRK") && X3dh.X3DH_INFO == Ascii("EmberChamberX3DH")
  {
  }

  /** HKDF of section 2 of RFC 5869, with the root key as salt and the Diffie-Hellman output as key material. */
  function RfcRoot(c: Suite, rk: Bytes, dhOut: Bytes): Bytes {
    Hkdf.RfcBlocks(c, Hmac(c, rk, dhOut), DR_INFO, 2)
  }

  /** A step of the root chain yields two keys of 32 bytes, the two halves of that output. */
  lemma RootStepMeetsRfc(c: Suite, rk: Bytes, dhOut: Bytes)
    ensures var (next, ck) := RootStep(c, rk, dhOut);
      |next| == KEY_LENGTH && |ck| == KEY_LENGTH && next + ck == RfcRoot(c, rk, dhOut)
  {
    Hkdf.Sha256MeetsRfc(c, dhOut, 2, rk, DR_INFO);
  }

  /** The initiator's keys come from the master key and the exchange of its new key with the peer's. */
  lemma InitAliceMeetsRfc(c: Suite, master: Bytes, peerPub: Bytes, secret: Bytes)
    ensures var s := AliceStart(c, master, peerPub, secret);
      && s.ckSend.Some? && |s.rk| == KEY_LENGTH
      && s.rk + s.ckSend.value == RfcRoot(c, master, Dh(c, secret, peerPub))
      && s.ourPub == PublicKey(c, s.ourPriv)
  {
    RootStepMeetsRfc(c, master, Dh(c, secret, peerPub));
  }

  /** A ratchet step takes the chain on twice: by the old key pair to receive, by the new one to send. */
  lemma RatchetMeetsRfc(c: Suite, s: State, peerPub: Bytes, newSecret: Bytes) returns (rk: Bytes)
    ensures var s' := Ratchet(c, s, peerPub, newSecret);
      && |rk| == KEY_LENGTH && |s'.rk| == KEY_LENGTH && s'.ckRecv.Some? && s'.ckSend.Some?
      && rk + s'.ckRecv.value == RfcRoot(c, s.rk, Dh(c, s.ourPriv, peerPub))
      && s'.rk + s'.ckSend.value == RfcRoot(c, rk, Dh(c, newSecret, peerPub))
      && s'.ourPub == PublicKey(c, s'.ourPriv)
  {
    rk := RootStep(c, s.rk, Dh(c, s.ourPriv, peerPub)).0;
    RootStepMeetsRfc(c, s.rk, Dh(c, s.ourPriv, peerPub));
    RootStepMeetsRfc(c, rk, Dh(c, newSecret, peerPub));
  }

  // ---- message keys and chain keys ----

  /** Unless HMAC confuses its labels, no message key is a later key of its chain or of any other. */
  lemma MessageKeysApart(c: Suite, ck: Bytes, i: nat, ck': Bytes, j: nat)
    requires Labelled(c)
    ensures MessageKey(c, ChainKey(c, ck, i)) != ChainKey(c, ck', j + 1)
    ensures SK.MessageKey(c, SK.ChainKey(c, ck, i)) != SK.ChainKey(c, ck', j + 1)
  {
    var x, y := ChainKey(c, ck, i), ChainKey(c, ck', j);
    assert Hmac(c, x, [1]) != Hmac(c, y, [2]);
    var x', y' := SK.ChainKey(c, ck, i), SK.ChainKey(c, ck', j);
    assert Hmac(c, x', [3]) != Hmac(c, y', [4]);
  }

  /** Nor do the keys of pairwise and group sessions meet. */
  lemma RatchetsApart(c: Suite, ck: Bytes, ck': Bytes)
    requires Labelled(c)
    ensures MessageKey(c, ck) != SK.MessageKey(c, ck')
    ensures NextChainKey(c, ck) != SK.NextChainKey(c, ck')
  {
    assert Hmac(c, ck, [1]) != Hmac(c, ck', [3]);
    assert Hmac(c, ck, [2]) != Hmac(c, ck', [4]);
  }

  // ---- the first message ----

  /** What a responder whose session has master key `ours` makes of the first message of one with `theirs`. */
  function FirstDecryption(c: Suite, theirs: Bytes, ours: Bytes, secret: Bytes, prekey: Bytes,
                           payload: Bytes, nonce: Bytes, newSecret: Bytes): Outcome
  {
    var (sent, _) := EncryptStep(c, AliceStart(c, theirs, PublicKey(c, prekey), secret), payload, nonce);
    DecryptStep(c, BobStart(c, ours, prekey), sent.wire, newSecret).0
  }

  /** The responder opens with the first message key of the chain that its own master key gives. */
  lemma FirstDecryptionKey(c: Suite, theirs: Bytes, ours: Bytes, secret: Bytes, prekey: Bytes,
                           payload: Bytes, nonce: Bytes, newSecret: Bytes)
    ensures var dh := Dh(c, secret, PublicKey(c, prekey));
      FirstDecryption(c, theirs, ours, secret, prekey, payload, nonce, newSecret)
        == OpenWith(c, Seal(c, payload, nonce, MessageKey(c, RootStep(c, theirs, dh).1)),
                    MessageKey(c, RootStep(c, ours, dh).1))
  {
    DhCommutes(c, secret, prekey);
    hide RootStep;
    var bob := BobStart(c, ours, prekey);
    var m := EncryptStep(c, AliceStart(c, theirs, PublicKey(c, prekey), secret), payload, nonce).0.wire;
    var bob1 := Ratchet(c, bob, m.dhPub, newSecret);
    assert DecryptStep(c, bob, m, newSecret) == ReceiveInOrder(c, bob1, m);
    assert Skip(c, bob1, 0) == Some(bob1);
  }

  /** With the initiator's master key it opens to what was encrypted. */
  lemma FirstMessageOpens(c: Suite, master: Bytes, secret: Bytes, prekey: Bytes, payload: Bytes, nonce: Bytes,
                          newSecret: Bytes)
    requires |nonce| == NONCE_LENGTH
    ensures FirstDecryption(c, master, master, secret, prekey, payload, nonce, newSecret) == Plain(payload)
  {
    FirstDecryptionKey(c, master, master, secret, prekey, payload, nonce, newSecret);
    OpenSealed(c, payload, nonce, MessageKey(c, RootStep(c, master, Dh(c, secret, PublicKey(c, prekey))).1));
  }

  /** Where HMAC passes on what it makes of the root key, that is the message key too. */
  lemma PassedOnKey(c: Suite, rk: Bytes, dhOut: Bytes)
    requires PassesOn(c, Hmac(c, rk, dhOut))
    ensures MessageKey(c, RootStep(c, rk, dhOut).1) == Hmac(c, rk, dhOut)
  {
    var v := Hmac(c, rk, dhOut);
    RootStepMeetsRfc(c, rk, dhOut);
    Hkdf.BlocksPassOn(c, v, DR_INFO);
    assert (v + v)[KEY_LENGTH..] == v;
    assert RootStep(c, rk, dhOut).1 == (v + v)[KEY_LENGTH..];
  }

  lemma FirstMessageFails(c: Suite, theirs: Bytes, ours: Bytes, secret: Bytes, prekey: Bytes,
                          payload: Bytes, nonce: Bytes, newSecret: Bytes)
    requires |nonce| == NONCE_LENGTH
    requires var dh := Dh(c, secret, PublicKey(c, prekey));
      && PassesOn(c, Hmac(c, theirs, dh)) && PassesOn(c, Hmac(c, ours, dh))
      && c.openOf(c.sealOf(payload, nonce, Hmac(c, theirs, dh)), nonce, Hmac(c, ours, dh)) == None
    ensures FirstDecryption(c, theirs, ours, secret, prekey, payload, nonce, newSecret) == Thrown(DecryptionFailed)
  {
    var dh := Dh(c, secret, PublicKey(c, prekey));
    FirstDecryptionKey(c, theirs, ours, secret, prekey, payload, nonce, newSecret);
    PassedOnKey(c, theirs, dh);
    PassedOnKey(c, ours, dh);
    var t := Seal(c, payload, nonce, Hmac(c, theirs, dh));
    assert t[..NONCE_LENGTH] == nonce && t[NONCE_LENGTH..] == c.sealOf(payload, nonce, Hmac(c, theirs, dh));
  }

  lemma TellingApart(theirs: Bytes, ours: Bytes, mark: Bytes, other: Bytes) returns (c: Suite)
    requires |mark| == HASH_LENGTH && |other| == HASH_LENGTH
    requires theirs != ours && mark != other && ours != mark && theirs != other
    ensures forall d :: PassesOn(c, Hmac(c, theirs, d)) && PassesOn(c, Hmac(c, ours, d))
    ensures forall m, n, d :: c.openOf(c.sealOf(m, n, Hmac(c, theirs, d)), n, Hmac(c, ours, d)) == None
  {
    c := Telling((k, d) => k == theirs || k == mark, mark, other);
    assert forall d :: Hmac(c, theirs, d) == mark && Hmac(c, ours, d) == other;
    assert forall d :: Hmac(c, mark, d) == mark && Hmac(c, other, d) == other;
    hide Telling;
    hide Hmac;
  }

  /** For any two different master keys, a suite in which HMAC never forgets which it started from. */
  lemma TellingMasters(theirs: Bytes, ours: Bytes) returns (c: Suite)
    requires theirs != ours
    ensures forall d :: PassesOn(c, Hmac(c, theirs, d)) && PassesOn(c, Hmac(c, ours, d))
    ensures forall m, n, d :: c.openOf(c.sealOf(m, n, Hmac(c, theirs, d)), n, Hmac(c, ours, d)) == None
  {
    assert Fill(1)[0] == 1 && Fill(2)[0] == 2 && Fill(3)[0] == 3 && Fill(4)[0] == 4;
    hide Fill;
    c := TellingApart(theirs, ours, if ours == Fill(1) then Fill(2) else Fill(1),
                      if theirs == Fill(3) then Fill(4) else Fill(3));
  }

  /**
   * The first message opens exactly if the two sides have the same master key: with one master key in
   * every suite, and for any two different ones there is a suite in which it does not.
   */
  lemma FirstMessageNeedsMaster(theirs: Bytes, ours: Bytes, secret: Bytes, prekey: Bytes,
                                payload: Bytes, nonce: Bytes, newSecret: Bytes)
    requires |nonce| == NONCE_LENGTH
    ensures theirs == ours <==> forall c: Suite ::
      FirstDecryption(c, theirs, ours, secret, prekey, payload, nonce, newSecret) == Plain(payload)
  {
    if theirs == ours {
      forall c: Suite
        ensures FirstDecryption(c, theirs, ours, secret, prekey, payload, nonce, newSecret) == Plain(payload)
      {
        FirstMessageOpens(c, theirs, secret, prekey, payload, nonce, newSecret);
      }
    } else {
      var c := TellingMasters(theirs, ours);
      FirstMessageFails(c, theirs, ours, secret, prekey, payload, nonce, newSecret);
    }
  }
}
