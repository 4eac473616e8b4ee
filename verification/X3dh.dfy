/** The key agreement that gives both sides of a session their first root key. */
module X3dh {
  import opened Common
  import opened Primitives
  import Hkdf

  /** "EmberChamberX3DH" in UTF-8. */
  const X3DH_INFO: Bytes :=
    [69, 109, 98, 101, 114, 67, 104, 97, 109, 98, 101, 114, 88, 51, 68, 72]

  const X3DH_SALT: Bytes := ZEROS

  /** A one-time key counts as absent when it is missing or the empty string. */
  predicate Present(key: Option<Bytes>) {
    key.Some? && key.value != []
  }

  function AliceSecret(c: Suite, identity: Bytes, ephemeral: Bytes, peerIdentityPub: Bytes,
                       peerPrekeyPub: Bytes, peerOneTimePub: Option<Bytes>): Bytes {
    var dh1 := Dh(c, identity, peerPrekeyPub);
    var dh2 := Dh(c, ephemeral, peerIdentityPub);
    var dh3 := Dh(c, ephemeral, peerPrekeyPub);
    var ikm := if Present(peerOneTimePub)
               then dh1 + dh2 + dh3 + Dh(c, ephemeral, peerOneTimePub.value)
               else dh1 + dh2 + dh3;
    Hkdf.Sha256(c, ikm, 32, X3DH_SALT, X3DH_INFO)
  }

  function BobSecret(c: Suite, identity: Bytes, prekey: Bytes, peerIdentityPub: Bytes,
                     peerEphemeralPub: Bytes, oneTime: Option<Bytes>): Bytes {
    var dh1 := Dh(c, prekey, peerIdentityPub);
    var dh2 := Dh(c, identity, peerEphemeralPub);
    var dh3 := Dh(c, prekey, peerEphemeralPub);
    var ikm := if Present(oneTime)
               then dh1 + dh2 + dh3 + Dh(c, oneTime.value, peerEphemeralPub)
               else dh1 + dh2 + dh3;
    Hkdf.Sha256(c, ikm, 32, X3DH_SALT, X3DH_INFO)
  }

  /** What Alice is given of Bob's one-time key: its public half. */
  function PublicHalf(c: Suite, oneTime: Option<Bytes>): Option<Bytes> {
    match oneTime
    case None => None
    case Some(secret) => Some(PublicKey(c, secret))
  }

  /** Both sides derive the same master key, with or without a one-time key. */
  lemma Agreement(c: Suite, aliceIdentity: Bytes, aliceEphemeral: Bytes,
                  bobIdentity: Bytes, bobPrekey: Bytes, bobOneTime: Option<Bytes>)
    requires bobOneTime.Some? ==> bobOneTime.value != []
    ensures AliceSecret(c, aliceIdentity, aliceEphemeral, PublicKey(c, bobIdentity),
                        PublicKey(c, bobPrekey), PublicHalf(c, bobOneTime))
         == BobSecret(c, bobIdentity, bobPrekey, PublicKey(c, aliceIdentity),
                      PublicKey(c, aliceEphemeral), bobOneTime)
  {
    DhCommutes(c, aliceIdentity, bobPrekey);
    DhCommutes(c, aliceEphemeral, bobIdentity);
    DhCommutes(c, aliceEphemeral, bobPrekey);
    if bobOneTime.Some? {
      DhCommutes(c, aliceEphemeral, bobOneTime.value);
    }
  }

  // ---- against section 3.3 of the X3DH specification ----

  /** Each exchange as a pair of secret keys, Alice's and Bob's. */
  type Exchanges = seq<(Bytes, Bytes)>

  function ExchangesOf(aliceIdentity: Bytes, aliceEphemeral: Bytes, bobIdentity: Bytes, bobPrekey: Bytes,
                       bobOneTime: Option<Bytes>): Exchanges {
    [(aliceIdentity, bobPrekey), (aliceEphemeral, bobIdentity), (aliceEphemeral, bobPrekey)]
    + (match bobOneTime case Some(key) => [(aliceEphemeral, key)] case None => [])
  }

  /** DH1 to DH4, one after the other. */
  function Transcript(c: Suite, exchanges: Exchanges): Bytes {
    if exchanges == [] then []
    else Dh(c, exchanges[0].0, PublicKey(c, exchanges[0].1)) + Transcript(c, exchanges[1..])
  }

  lemma TranscriptOf(c: Suite, aliceIdentity: Bytes, aliceEphemeral: Bytes,
                     bobIdentity: Bytes, bobPrekey: Bytes, bobOneTime: Option<Bytes>)
    ensures var dh := (x, y) => Dh(c, x, PublicKey(c, y));
      Transcript(c, ExchangesOf(aliceIdentity, aliceEphemeral, bobIdentity, bobPrekey, bobOneTime))
        == var ikm := dh(aliceIdentity, bobPrekey) + dh(aliceEphemeral, bobIdentity) + dh(aliceEphemeral, bobPrekey);
           if bobOneTime.Some? then ikm + dh(aliceEphemeral, bobOneTime.value) else ikm
  {
    var all := ExchangesOf(aliceIdentity, aliceEphemeral, bobIdentity, bobPrekey, bobOneTime);
    var last := all[3..];
    var dh1, dh2, dh3 := Dh(c, all[0].0, PublicKey(c, all[0].1)), Dh(c, all[1].0, PublicKey(c, all[1].1)),
                         Dh(c, all[2].0, PublicKey(c, all[2].1));
    assert all[1..][1..] == all[2..] && all[2..][1..] == last;
    assert Transcript(c, all[2..]) == dh3 + Transcript(c, last);
    assert Transcript(c, all[1..]) == dh2 + Transcript(c, all[2..]);
    assert Transcript(c, all) == dh1 + (dh2 + (dh3 + Transcript(c, last)));
    assert dh1 + (dh2 + (dh3 + Transcript(c, last))) == dh1 + dh2 + dh3 + Transcript(c, last);
    if bobOneTime.Some? {
      assert last == [(aliceEphemeral, bobOneTime.value)] && last[1..] == [];
      assert Transcript(c, last) == Dh(c, aliceEphemeral, PublicKey(c, bobOneTime.value)) + [];
    } else {
      assert last == [];
    }
  }

  /** What both sides derive is HKDF, as in RFC 5869, of the exchanges of the specification. */
  lemma AgreementMeetsX3dh(c: Suite, aliceIdentity: Bytes, aliceEphemeral: Bytes,
                           bobIdentity: Bytes, bobPrekey: Bytes, bobOneTime: Option<Bytes>)
    requires bobOneTime.Some? ==> bobOneTime.value != []
    ensures var exchanges := ExchangesOf(aliceIdentity, aliceEphemeral, bobIdentity, bobPrekey, bobOneTime);
      var key := Hkdf.RfcBlocks(c, Hmac(c, ZEROS, Transcript(c, exchanges)), X3DH_INFO, 1);
      && AliceSecret(c, aliceIdentity, aliceEphemeral, PublicKey(c, bobIdentity),
                     PublicKey(c, bobPrekey), PublicHalf(c, bobOneTime)) == key
      && BobSecret(c, bobIdentity, bobPrekey, PublicKey(c, aliceIdentity),
                   PublicKey(c, aliceEphemeral), bobOneTime) == key
  {
    Agreement(c, aliceIdentity, aliceEphemeral, bobIdentity, bobPrekey, bobOneTime);
    TranscriptOf(c, aliceIdentity, aliceEphemeral, bobIdentity, bobPrekey, bobOneTime);
    var exchanges := ExchangesOf(aliceIdentity, aliceEphemeral, bobIdentity, bobPrekey, bobOneTime);
    Hkdf.Sha256MeetsRfc(c, Transcript(c, exchanges), 1, X3DH_SALT, X3DH_INFO);
  }

  /** With exchanges of 32 bytes each, the transcript tells how many there were and what each gave. */
  lemma {:induction false} TranscriptDetermines(c: Suite, a: Exchanges, b: Exchanges)
    requires Transcript(c, a) == Transcript(c, b)
    requires forall x, y :: |Dh(c, x, y)| == KEY_LENGTH
    ensures |a| == |b|
    ensures forall k :: 0 <= k < |a| ==> Dh(c, a[k].0, PublicKey(c, a[k].1)) == Dh(c, b[k].0, PublicKey(c, b[k].1))
  {
    if a != [] && b != [] {
      var t := Transcript(c, a);
      assert t[..KEY_LENGTH] == Dh(c, a[0].0, PublicKey(c, a[0].1)) == Dh(c, b[0].0, PublicKey(c, b[0].1));
      assert t[KEY_LENGTH..] == Transcript(c, a[1..]) == Transcript(c, b[1..]);
      TranscriptDetermines(c, a[1..], b[1..]);
    }
  }
}
