/**
 * What every honest run of two Double Ratchet endpoints guarantees, from key agreement on:
 * any interleaving of encryptions, deliveries, losses, and deliveries that threw and are tried again.
 */
module RatchetGuarantees {
  import opened Common
  import opened Primitives
  import opened DoubleRatchet
  import opened RatchetEndpoint
  import opened RatchetNetwork
  import X3dh

  /** Alice's and Bob's sessions, set up from X3DH, start a run from one master key. */
  lemma AgreementStartsRun(c: Suite, aliceIdentity: Bytes, ephemeral: Bytes, bobIdentity: Bytes,
                           bobPrekey: Bytes, bobOneTime: Option<Bytes>, aliceSecret: Bytes)
    requires bobOneTime.Some? ==> bobOneTime.value != []
    ensures var forAlice := X3dh.AliceSecret(c, aliceIdentity, ephemeral, PublicKey(c, bobIdentity),
                                             PublicKey(c, bobPrekey), X3dh.PublicHalf(c, bobOneTime));
      var forBob := X3dh.BobSecret(c, bobIdentity, bobPrekey, PublicKey(c, aliceIdentity),
                                   PublicKey(c, ephemeral), bobOneTime);
      var w := Start(c, forBob, aliceSecret, bobPrekey);
      && w.alice == AliceStart(c, forAlice, PublicKey(c, bobPrekey), aliceSecret)
      && w.bob == BobStart(c, forBob, bobPrekey)
  {
    X3dh.Agreement(c, aliceIdentity, ephemeral, bobIdentity, bobPrekey, bobOneTime);
  }

  /**
   * Delivering a packet that is in flight, and whose key the receiver has not had
   * to evict, returns exactly the plaintext that was encrypted into it; or it is
   * more than 100 messages ahead and decrypt throws "Too many skipped messages".
   */
  lemma DeliveryRecoversPlaintext(c: Suite, master: Bytes, aliceSecret: Bytes, bobPrekey: Bytes,
                                  steps: seq<Step>, j: nat, newSecret: Bytes)
    requires PublicKey(c, aliceSecret) != PublicKey(c, bobPrekey)
    requires ValidRun(c, Start(c, master, aliceSecret, bobPrekey), steps)
    requires Enabled(c, Run(c, Start(c, master, aliceSecret, bobPrekey), steps), Deliver(j, newSecret))
    ensures var w := Run(c, Start(c, master, aliceSecret, bobPrekey), steps);
      Decryption(c, w, j, newSecret).0
        == if TooFar(Endpoint(w, Receiver(w, j)), w.sent[j].wire) then Thrown(TooManySkipped)
           else Plain(w.sent[j].plaintext)
  {
    StartInv(c, master, aliceSecret, bobPrekey);
    RunKeepsInv(c, Start(c, master, aliceSecret, bobPrekey), steps);
    Delivers(c, Run(c, Start(c, master, aliceSecret, bobPrekey), steps), j, newSecret);
  }

  lemma StartFull(c: Suite, master: Bytes, aliceSecret: Bytes, bobPrekey: Bytes)
    ensures Full(c, Start(c, master, aliceSecret, bobPrekey))
  {
  }

  lemma RoomyRunReaches(c: Suite, master: Bytes, aliceSecret: Bytes, bobPrekey: Bytes, steps: seq<Step>)
    requires PublicKey(c, aliceSecret) != PublicKey(c, bobPrekey)
    requires RoomyRun(c, Start(c, master, aliceSecret, bobPrekey), steps)
    ensures ValidRun(c, Start(c, master, aliceSecret, bobPrekey), steps)
    ensures Inv(c, Run(c, Start(c, master, aliceSecret, bobPrekey), steps))
    ensures Full(c, Run(c, Start(c, master, aliceSecret, bobPrekey), steps))
  {
    StartInv(c, master, aliceSecret, bobPrekey);
    StartFull(c, master, aliceSecret, bobPrekey);
    RoomyRunKeepsFull(c, Start(c, master, aliceSecret, bobPrekey), steps);
  }

  /** When no table overflows, every packet still in flight can be delivered. */
  lemma RoomyDeliveryRecoversPlaintext(c: Suite, master: Bytes, aliceSecret: Bytes, bobPrekey: Bytes,
                                       steps: seq<Step>, j: nat, newSecret: Bytes)
    requires PublicKey(c, aliceSecret) != PublicKey(c, bobPrekey)
    requires RoomyRun(c, Start(c, master, aliceSecret, bobPrekey), steps)
    requires var w := Run(c, Start(c, master, aliceSecret, bobPrekey), steps);
      InFlight(w, j) && Unused(c, w.log, newSecret)
    ensures var w := Run(c, Start(c, master, aliceSecret, bobPrekey), steps);
      Decryption(c, w, j, newSecret).0
        == if TooFar(Endpoint(w, Receiver(w, j)), w.sent[j].wire) then Thrown(TooManySkipped)
           else Plain(w.sent[j].plaintext)
  {
    RoomyRunReaches(c, master, aliceSecret, bobPrekey, steps);
    FullNotEvicted(c, Run(c, Start(c, master, aliceSecret, bobPrekey), steps), j);
    DeliveryRecoversPlaintext(c, master, aliceSecret, bobPrekey, steps, j, newSecret);
  }

  /** Party p receives on chain k, at a position up to which its owner has sent, with the key derived there. */
  ghost predicate ReceivesOn(c: Suite, w: World, p: Party, k: nat) {
    && k < |w.log.secrets| && k < |w.log.issued|
    && Endpoint(w, p).peerPub == Some(Public(c, w.log, k))
    && if k == 0 then Endpoint(w, p).ckRecv == None && Endpoint(w, p).nRecv == 0
       else Endpoint(w, p).ckRecv == Some(ChainAt(c, w.log, k, Endpoint(w, p).nRecv))
            && Endpoint(w, p).nRecv <= w.log.issued[k]
  }

  /**
   * Party p receives on the chain the peer q now sends on, with the keys q had there; or on the
   * one q used before it; or on none before q's first. A prekey, number 0, opens no chain.
   */
  ghost predicate InStep(c: Suite, w: World, p: Party) {
    var q := Peer(p);
    var k := Latest(w.log, q);
    || (ReceivesOn(c, w, p, k)
        && Endpoint(w, p).peerPub == Some(Endpoint(w, q).ourPub)
        && (k >= 1 ==>
              && Endpoint(w, q).ckSend == Some(ChainAt(c, w.log, k, Endpoint(w, q).nSend))
              && Endpoint(w, p).nRecv <= Endpoint(w, q).nSend))
    || (k >= 2 && ReceivesOn(c, w, p, k - 2))
    || (k == 1 && Endpoint(w, p).peerPub == None && Endpoint(w, p).ckRecv == None && Endpoint(w, p).nRecv == 0)
  }

  /** One root key is the other advanced by the ratchet step that the trailing party has yet to take. */
  ghost predicate RootsLineUp(c: Suite, w: World) {
    var n := |w.log.secrets| - 1;
    && n >= 1
    && var ahead := Owner(n);
    && Endpoint(w, ahead).rk == Root(c, w.log, n)
    && Endpoint(w, Peer(ahead)).rk == Root(c, w.log, n - 1)
    && Endpoint(w, ahead).rk
       == RootStep(c, Endpoint(w, Peer(ahead)).rk,
                   Dh(c, Endpoint(w, Peer(ahead)).ourPriv, Endpoint(w, ahead).ourPub)).0
  }

  lemma InvInStep(c: Suite, w: World, p: Party)
    requires LogOk(w.log)
    requires Aligned(c, w.log, Latest(w.log, p), Endpoint(w, p))
    requires Aligned(c, w.log, Latest(w.log, Peer(p)), Endpoint(w, Peer(p)))
    ensures InStep(c, w, p)
  {
    hide ChainAt;
    hide IssuedBefore;
    hide Root;
  }

  lemma InvRootsLineUp(c: Suite, w: World)
    requires LogOk(w.log)
    requires Aligned(c, w.log, Latest(w.log, Alice), w.alice)
    requires Aligned(c, w.log, Latest(w.log, Bob), w.bob)
    ensures RootsLineUp(c, w)
  {
    hide ChainAt;
    hide IssuedBefore;
    hide RootStep;
    var n := |w.log.secrets| - 1;
    DhCommutes(c, w.log.secrets[n], w.log.secrets[n - 1]);
    assert RootAndChain(c, w.log, n) ==
      RootStep(c, Root(c, w.log, n - 1), Dh(c, w.log.secrets[n], Public(c, w.log, n - 1)));
  }

  /** In every state of every honest run, also after deliveries that threw, the endpoints line up. */
  lemma RunsStayAligned(c: Suite, master: Bytes, aliceSecret: Bytes, bobPrekey: Bytes, steps: seq<Step>)
    requires PublicKey(c, aliceSecret) != PublicKey(c, bobPrekey)
    requires ValidRun(c, Start(c, master, aliceSecret, bobPrekey), steps)
    ensures var w := Run(c, Start(c, master, aliceSecret, bobPrekey), steps);
      InStep(c, w, Alice) && InStep(c, w, Bob) && RootsLineUp(c, w)
  {
    StartInv(c, master, aliceSecret, bobPrekey);
    RunKeepsInv(c, Start(c, master, aliceSecret, bobPrekey), steps);
    var w := Run(c, Start(c, master, aliceSecret, bobPrekey), steps);
    assert PartyOk(c, w, Alice) && PartyOk(c, w, Bob);
    InvInStep(c, w, Alice);
    InvInStep(c, w, Bob);
    InvRootsLineUp(c, w);
  }

  /** No header is ever issued twice. */
  lemma HeadersNeverRepeat(c: Suite, master: Bytes, aliceSecret: Bytes, bobPrekey: Bytes, steps: seq<Step>,
                           i: nat, j: nat)
    requires PublicKey(c, aliceSecret) != PublicKey(c, bobPrekey)
    requires ValidRun(c, Start(c, master, aliceSecret, bobPrekey), steps)
    requires i < j < |Run(c, Start(c, master, aliceSecret, bobPrekey), steps).sent|
    ensures var w := Run(c, Start(c, master, aliceSecret, bobPrekey), steps);
      w.sent[i].wire.dhPub != w.sent[j].wire.dhPub || w.sent[i].wire.n != w.sent[j].wire.n
  {
    StartInv(c, master, aliceSecret, bobPrekey);
    RunKeepsInv(c, Start(c, master, aliceSecret, bobPrekey), steps);
    var w := Run(c, Start(c, master, aliceSecret, bobPrekey), steps);
    assert PacketOk(c, w.log, w.sent[i]) && PacketOk(c, w.log, w.sent[j]);
    FindKeyDistinct(c, w.log, w.sent[i].chain);
    FindKeyDistinct(c, w.log, w.sent[j].chain);
  }

  /**
   * After a run in which no table overflowed, the table of p holds exactly the
   * positions passed over and not delivered, on every chain p has entered, each
   * with the key that was used there.
   */
  lemma TablesAreExact(c: Suite, master: Bytes, aliceSecret: Bytes, bobPrekey: Bytes, steps: seq<Step>, p: Party)
    requires PublicKey(c, aliceSecret) != PublicKey(c, bobPrekey)
    requires RoomyRun(c, Start(c, master, aliceSecret, bobPrekey), steps)
    ensures var w := Run(c, Start(c, master, aliceSecret, bobPrekey), steps);
      var e := Endpoint(w, p);
      var s := Latest(w.log, p);
      && LogOk(w.log)
      && (forall key :: key in e.skipped.entries ==>
            var k := FindKey(c, w.log.secrets, key.dhPub);
            && 1 <= k < |w.log.secrets| && key.dhPub == Public(c, w.log, k)
            && Missing(w.log, s, e.nRecv, Gone(w), k, key.n)
            && e.skipped.entries[key] == KeyAt(c, w.log, k, key.n))
      && (forall k, i :: Missing(w.log, s, e.nRecv, Gone(w), k, i) ==>
            SkippedKey(Public(c, w.log, k), i) in e.skipped.entries)
  {
    RoomyRunReaches(c, master, aliceSecret, bobPrekey, steps);
    var w := Run(c, Start(c, master, aliceSecret, bobPrekey), steps);
    assert PartyOk(c, w, p) && PartyFull(c, w, p);
    forall key | key in Endpoint(w, p).skipped.entries
      ensures var k := FindKey(c, w.log.secrets, key.dhPub);
        1 <= k < |w.log.secrets| && key.dhPub == Public(c, w.log, k)
    {
      assert EntrySound(c, w.log, Latest(w.log, p), Endpoint(w, p).nRecv, Gone(w), key,
                        Endpoint(w, p).skipped.entries[key]);
      FindKeyFinds(c, w.log.secrets, key.dhPub);
    }
  }
}
