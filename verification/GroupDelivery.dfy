/**
 * A group key on its way: what a receiving device makes of the distribution envelopes of a send,
 * and so of the group messages (apps/mobile/src/features/conversations/conversationSync.ts).
 */
module GroupDelivery {
  import opened Common
  import opened Primitives
  import opened GroupFanout
  import X3dh
  import DR = DoubleRatchet
  import Endpoints = RatchetEndpoint
  import Hkdf
  import Holders = GroupHolders
  import Net = RatchetNetwork
  import Order = SenderKeyOrder
  import RatchetKeys
  import SK = SenderKey

  // ---- the receiving device ----

  datatype Receipt = EphemeralMissing | Tried(outcome: DR.Outcome)

  /**
   * The saved pairwise session with the sender, or one set up from the ephemeral key. The device has one
   * key pair, its identity and its signed prekey, and takes no one-time key into account.
   */
  function SessionFor(c: Suite, secret: Bytes, sessions: map<Device, DR.State>, sender: Device,
                      senderIdentityPub: Bytes, e: Envelope): Option<DR.State>
  {
    if sender in sessions then Some(sessions[sender])
    else if !X3dh.Present(e.ephemeralPub) then None
    else Some(DR.BobStart(c, X3dh.BobSecret(c, secret, secret, senderIdentityPub, e.ephemeralPub.value, None), secret))
  }

  /** The session is saved only if the envelope opened. */
  function Receive(c: Suite, secret: Bytes, sessions: map<Device, DR.State>, sender: Device,
                   senderIdentityPub: Bytes, e: Envelope, newSecret: Bytes): (Receipt, map<Device, DR.State>)
  {
    match SessionFor(c, secret, sessions, sender, senderIdentityPub, e)
    case None => (EphemeralMissing, sessions)
    case Some(s) =>
      var (outcome, s') := DR.DecryptStep(c, s, e.wire, newSecret);
      (Tried(outcome), if outcome.Plain? then sessions[sender := s'] else sessions)
  }

  // ---- two devices and their pairwise sessions ----

  /** They never met, or their sessions are the two ends of an honest run. */
  datatype Pairing =
    | Unmet
    | Met(master: Bytes, aliceSecret: Bytes, bobPrekey: Bytes, steps: seq<Net.Step>, sender: Net.Party)

  function WorldOf(c: Suite, p: Pairing): Net.World
    requires p.Met?
  {
    Net.Run(c, Net.Start(c, p.master, p.aliceSecret, p.bobPrekey), p.steps)
  }

  ghost predicate Honest(c: Suite, p: Pairing)
    requires p.Met?
  {
    && PublicKey(c, p.aliceSecret) != PublicKey(c, p.bobPrekey)
    && Net.ValidRun(c, Net.Start(c, p.master, p.aliceSecret, p.bobPrekey), p.steps)
  }

  /** The bundle that a device with this key pair registers. */
  predicate Registered(c: Suite, b: Bundle, secret: Bytes) {
    b.identityPub == PublicKey(c, secret) && b.prekeyPub == PublicKey(c, secret)
  }

  /** How the sessions of the sender and of the device with bundle b fit together. */
  ghost predicate Paired(c: Suite, self: Device, secret: Bytes, b: Bundle, sessions: map<Device, DR.State>,
                         receivers: map<Device, DR.State>, p: Pairing)
  {
    match p
    case Unmet =>
      && b.deviceId !in sessions && self !in receivers
      && Registered(c, b, secret) && FirstOneTime(b).None?
    case Met(_, _, _, _, sender) =>
      && Honest(c, p)
      && b.deviceId in sessions && sessions[b.deviceId] == Net.Endpoint(WorldOf(c, p), sender)
      && self in receivers && receivers[self] == Net.Endpoint(WorldOf(c, p), Net.Peer(sender))
  }

  /** The envelope that b's turn in the loop produces, and the session it saves. */
  function Encrypted(c: Suite, identity: Bytes, sessions: map<Device, DR.State>, b: Bundle, payload: Bytes, dice: Dice)
    : (DR.Sent, DR.State)
  {
    DR.EncryptStep(c, SessionWith(c, identity, sessions, b, dice), payload, dice.nonce)
  }

  function EnvelopeTo(c: Suite, identity: Bytes, sessions: map<Device, DR.State>, b: Bundle, payload: Bytes, dice: Dice)
    : Envelope
    requires Encrypted(c, identity, sessions, b, payload, dice).0.Sent?
  {
    Envelope(b.deviceId, EphemeralFor(c, sessions, b, dice), Encrypted(c, identity, sessions, b, payload, dice).0.wire)
  }

  /** The run of the two devices after one more envelope was sent and read. */
  function GoneOn(c: Suite, p: Pairing, payload: Bytes, nonce: Bytes, newSecret: Bytes): Pairing
    requires p.Met?
  {
    p.(steps := p.steps + [Net.Encrypt(p.sender, payload, nonce), Net.Deliver(|WorldOf(c, p).sent|, newSecret)])
  }

  lemma {:induction false} RunAppend(c: Suite, w: Net.World, steps: seq<Net.Step>, st: Net.Step)
    ensures Net.Run(c, w, steps + [st]) == Net.Next(c, Net.Run(c, w, steps), st)
    ensures Net.ValidRun(c, w, steps + [st]) <==>
      Net.ValidRun(c, w, steps) && Net.Enabled(c, Net.Run(c, w, steps), st)
    decreases |steps|
  {
    hide Net.Enabled;
    hide Net.Next;
    if steps == [] {
      assert [st][1..] == [] && [] + [st] == [st];
    } else {
      assert (steps + [st])[1..] == steps[1..] + [st];
      RunAppend(c, Net.Next(c, w, steps[0]), steps[1..], st);
    }
  }

  lemma HonestInv(c: Suite, p: Pairing)
    requires p.Met? && Honest(c, p)
    ensures Net.Inv(c, WorldOf(c, p)) && Net.DroppedKnown(WorldOf(c, p))
  {
    Net.StartInv(c, p.master, p.aliceSecret, p.bobPrekey);
    Net.RunKeepsInv(c, Net.Start(c, p.master, p.aliceSecret, p.bobPrekey), p.steps);
    Net.RunKeepsDropped(c, Net.Start(c, p.master, p.aliceSecret, p.bobPrekey), p.steps);
  }

  /** One envelope in a run of the two devices: encrypted, then delivered. */
  lemma EncryptThenDeliver(c: Suite, w: Net.World, p: Net.Party, payload: Bytes, nonce: Bytes, newSecret: Bytes)
    requires Net.Inv(c, w) && Net.DroppedKnown(w) && |nonce| == NONCE_LENGTH
    requires Endpoints.Unused(c, w.log, newSecret)
    requires DR.EncryptStep(c, Net.Endpoint(w, p), payload, nonce).0.Sent?
    ensures var (sent, s) := DR.EncryptStep(c, Net.Endpoint(w, p), payload, nonce);
      var receiver := Net.Endpoint(w, Net.Peer(p));
      var (outcome, r) := DR.DecryptStep(c, receiver, sent.wire, newSecret);
      var w1 := Net.Next(c, w, Net.Encrypt(p, payload, nonce));
      var w2 := Net.Next(c, w1, Net.Deliver(|w.sent|, newSecret));
      && outcome == (if Endpoints.TooFar(receiver, sent.wire) then DR.Thrown(DR.TooManySkipped) else DR.Plain(payload))
      && Net.Enabled(c, w, Net.Encrypt(p, payload, nonce))
      && Net.Enabled(c, w1, Net.Deliver(|w.sent|, newSecret))
      && Net.Endpoint(w2, p) == s && Net.Endpoint(w2, Net.Peer(p)) == r
  {
    var w1 := Net.EncryptNext(c, w, p, payload, nonce);
    var j := |w.sent|;
    Net.NewPacketDeliverable(c, w, p, payload, nonce, newSecret);
    Net.EncryptKeepsInv(c, w, p, payload, nonce);
    Net.Delivers(c, w1, j, newSecret);
    assert Net.Receiver(w1, j) == Net.Peer(p) && Net.Peer(Net.Peer(p)) == p;
    OutcomeOfDelivery(c, w1, j, newSecret);
    Net.DeliverNextShape(c, w1, j, newSecret);
    hide *;
  }

  lemma OutcomeOfDelivery(c: Suite, w: Net.World, j: nat, newSecret: Bytes)
    requires Net.Inv(c, w) && j < |w.sent| && Net.PacketDelivered(c, w, j, newSecret)
    ensures Endpoints.LogOk(w.log) && Net.PacketOutcome(c, w, j, newSecret)
    ensures Net.Decryption(c, w, j, newSecret).0
         == if Endpoints.TooFar(Net.Endpoint(w, Net.Receiver(w, j)), w.sent[j].wire) then DR.Thrown(DR.TooManySkipped)
            else DR.Plain(w.sent[j].plaintext)
  {
    hide DR.DecryptStep;
    hide Endpoints.TooFar;
    hide Endpoints.EndpointOk;
  }

  lemma GoneOnWorld(c: Suite, p: Pairing, payload: Bytes, nonce: Bytes, newSecret: Bytes)
    requires p.Met? && Honest(c, p)
    requires var w := WorldOf(c, p);
      && Net.Enabled(c, w, Net.Encrypt(p.sender, payload, nonce))
      && Net.Enabled(c, Net.Next(c, w, Net.Encrypt(p.sender, payload, nonce)), Net.Deliver(|w.sent|, newSecret))
    ensures Honest(c, GoneOn(c, p, payload, nonce, newSecret))
    ensures var w := WorldOf(c, p);
      WorldOf(c, GoneOn(c, p, payload, nonce, newSecret))
        == Net.Next(c, Net.Next(c, w, Net.Encrypt(p.sender, payload, nonce)), Net.Deliver(|w.sent|, newSecret))
  {
    hide Net.Enabled;
    hide Net.Next;
    hide Net.Start;
    var st, st2 := Net.Encrypt(p.sender, payload, nonce), Net.Deliver(|WorldOf(c, p).sent|, newSecret);
    var start := Net.Start(c, p.master, p.aliceSecret, p.bobPrekey);
    RunAppend(c, start, p.steps, st);
    RunAppend(c, start, p.steps + [st], st2);
    assert p.steps + [st] + [st2] == p.steps + [st, st2];
  }

  lemma MetDelivers(c: Suite, p: Pairing, payload: Bytes, nonce: Bytes, newSecret: Bytes)
    requires p.Met? && Honest(c, p) && |nonce| == NONCE_LENGTH
    requires Endpoints.Unused(c, WorldOf(c, p).log, newSecret)
    requires DR.EncryptStep(c, Net.Endpoint(WorldOf(c, p), p.sender), payload, nonce).0.Sent?
    ensures var w, w2 := WorldOf(c, p), WorldOf(c, GoneOn(c, p, payload, nonce, newSecret));
      var (sent, s) := DR.EncryptStep(c, Net.Endpoint(w, p.sender), payload, nonce);
      var receiver := Net.Endpoint(w, Net.Peer(p.sender));
      var (outcome, r) := DR.DecryptStep(c, receiver, sent.wire, newSecret);
      && outcome == (if Endpoints.TooFar(receiver, sent.wire) then DR.Thrown(DR.TooManySkipped) else DR.Plain(payload))
      && Honest(c, GoneOn(c, p, payload, nonce, newSecret))
      && Net.Endpoint(w2, p.sender) == s && Net.Endpoint(w2, Net.Peer(p.sender)) == r
  {
    HonestInv(c, p);
    EncryptThenDeliver(c, WorldOf(c, p), p.sender, payload, nonce, newSecret);
    GoneOnWorld(c, p, payload, nonce, newSecret);
    hide *;
  }

  /** Two devices that never met are, once the sender set up its session, at the start of a run. */
  function Introduced(c: Suite, identity: Bytes, b: Bundle, dice: Dice, secret: Bytes): Pairing {
    Met(X3dh.BobSecret(c, secret, secret, PublicKey(c, identity), PublicKey(c, dice.ephemeral), None),
        dice.ratchet, secret, [], Net.Alice)
  }

  lemma IntroducedSessions(c: Suite, self: Device, identity: Bytes, secret: Bytes, b: Bundle, payload: Bytes,
                           dice: Dice, sessions: map<Device, DR.State>, receivers: map<Device, DR.State>,
                           wire: DR.Wire)
    requires Paired(c, self, secret, b, sessions, receivers, Unmet)
    ensures var w := WorldOf(c, Introduced(c, identity, b, dice, secret));
      && SessionWith(c, identity, sessions, b, dice) == w.alice
      && SessionFor(c, secret, receivers, self, PublicKey(c, identity),
                    Envelope(b.deviceId, EphemeralFor(c, sessions, b, dice), wire)) == Some(w.bob)
  {
    X3dh.Agreement(c, identity, dice.ephemeral, secret, secret, None);
  }

  /**
   * An envelope that the loop produced opens, on the device it is for, to what was put in; or it is more
   * than 100 messages ahead. The devices may meet for the first time or have exchanged anything before.
   */
  lemma EnvelopeOpens(c: Suite, self: Device, identity: Bytes, secret: Bytes, b: Bundle, payload: Bytes, dice: Dice,
                      sessions: map<Device, DR.State>, receivers: map<Device, DR.State>, p: Pairing, newSecret: Bytes)
    requires Paired(c, self, secret, b, sessions, receivers, p) && |dice.nonce| == NONCE_LENGTH
    requires p.Met? ==> Endpoints.Unused(c, WorldOf(c, p).log, newSecret)
    requires Encrypted(c, identity, sessions, b, payload, dice).0.Sent?
    ensures var e := EnvelopeTo(c, identity, sessions, b, payload, dice);
      Receive(c, secret, receivers, self, PublicKey(c, identity), e, newSecret).0
        == Tried(if p.Met? && Endpoints.TooFar(receivers[self], e.wire) then DR.Thrown(DR.TooManySkipped)
                 else DR.Plain(payload))
  {
    if p.Met? {
      MetDelivers(c, p, payload, dice.nonce, newSecret);
      hide DR.EncryptStep;
      hide DR.DecryptStep;
      hide WorldOf;
    } else {
      var first := Introduced(c, identity, b, dice, secret);
      IntroducedSessions(c, self, identity, secret, b, payload, dice, sessions, receivers,
                         Encrypted(c, identity, sessions, b, payload, dice).0.wire);
      RatchetKeys.FirstMessageOpens(c, first.master, dice.ratchet, secret, payload, dice.nonce, newSecret);
      hide DR.EncryptStep;
      hide DR.DecryptStep;
    }
  }

  /** Sending an envelope and reading it leaves the two devices paired, one run further. */
  lemma PairingGoesOn(c: Suite, self: Device, identity: Bytes, secret: Bytes, b: Bundle, payload: Bytes, dice: Dice,
                      sessions: map<Device, DR.State>, receivers: map<Device, DR.State>, p: Pairing, newSecret: Bytes)
    requires Paired(c, self, secret, b, sessions, receivers, p) && |dice.nonce| == NONCE_LENGTH
    requires p.Unmet? ==> PublicKey(c, dice.ratchet) != PublicKey(c, secret)
    requires Encrypted(c, identity, sessions, b, payload, dice).0.Sent?
    requires var run := if p.Met? then p else Introduced(c, identity, b, dice, secret);
      Endpoints.Unused(c, WorldOf(c, run).log, newSecret)
    requires var e := EnvelopeTo(c, identity, sessions, b, payload, dice);
      p.Met? ==> !Endpoints.TooFar(receivers[self], e.wire)
    ensures var e := EnvelopeTo(c, identity, sessions, b, payload, dice);
      var run := if p.Met? then p else Introduced(c, identity, b, dice, secret);
      Paired(c, self, secret, b,
             sessions[b.deviceId := Encrypted(c, identity, sessions, b, payload, dice).1],
             Receive(c, secret, receivers, self, PublicKey(c, identity), e, newSecret).1,
             GoneOn(c, run, payload, dice.nonce, newSecret))
  {
    EnvelopeOpens(c, self, identity, secret, b, payload, dice, sessions, receivers, p, newSecret);
    var run := if p.Met? then p else Introduced(c, identity, b, dice, secret);
    if p.Unmet? {
      IntroducedSessions(c, self, identity, secret, b, payload, dice, sessions, receivers,
                         Encrypted(c, identity, sessions, b, payload, dice).0.wire);
    }
    MetDelivers(c, run, payload, dice.nonce, newSecret);
    hide DR.EncryptStep;
    hide DR.DecryptStep;
    hide WorldOf;
  }

  // ---- one-time keys ----

  /** What a device that registered its key pair and these one-time keys makes of the first envelope sent to it. */
  function FirstReceipt(c: Suite, self: Device, identity: Bytes, secret: Bytes, id: Device, oneTimePubs: seq<Bytes>,
                        payload: Bytes, dice: Dice, newSecret: Bytes): Receipt
  {
    var b := Bundle(id, PublicKey(c, secret), PublicKey(c, secret), oneTimePubs);
    var e := EnvelopeTo(c, identity, map[], b, payload, dice);
    Receive(c, secret, map[], self, PublicKey(c, identity), e, newSecret).0
  }

  /** The sender's master key for that device. */
  function FirstMaster(c: Suite, identity: Bytes, secret: Bytes, oneTimePubs: seq<Bytes>, dice: Dice): Bytes {
    X3dh.AliceSecret(c, identity, dice.ephemeral, PublicKey(c, secret), PublicKey(c, secret),
                     FirstOneTime(Bundle("", [], [], oneTimePubs)))
  }

  lemma FirstReceiptIs(c: Suite, self: Device, identity: Bytes, secret: Bytes, id: Device, oneTimePubs: seq<Bytes>,
                       payload: Bytes, dice: Dice, newSecret: Bytes)
    ensures FirstReceipt(c, self, identity, secret, id, oneTimePubs, payload, dice, newSecret)
         == Tried(RatchetKeys.FirstDecryption(c, FirstMaster(c, identity, secret, oneTimePubs, dice),
                    X3dh.BobSecret(c, secret, secret, PublicKey(c, identity), PublicKey(c, dice.ephemeral), None),
                    dice.ratchet, secret, payload, dice.nonce, newSecret))
  {
    hide X3dh.AliceSecret;
    hide X3dh.BobSecret;
    hide DR.DecryptStep;
  }

  /** HMAC keeps in mind whether an X3DH transcript had four exchanges. */
  ghost predicate Counts(c: Suite) {
    && (forall x, p :: |Dh(c, x, p)| == KEY_LENGTH)
    && (forall d :: Hmac(c, ZEROS, d) == if |d| == 4 * KEY_LENGTH then Fill(1) else Fill(2))
    && PassesOn(c, Fill(1)) && PassesOn(c, Fill(2))
    && (forall m, n :: c.openOf(c.sealOf(m, n, Fill(1)), n, Fill(2)) == None)
  }

  lemma SomeSuiteCounts() returns (c: Suite)
    ensures Counts(c)
  {
    assert Fill(1)[0] == 1 && Fill(2)[0] == 2 && ZEROS[0] == 0;
    hide Fill;
    c := Telling((k, d) => k == Fill(1) || (k == ZEROS && |d| == 4 * KEY_LENGTH), Fill(1), Fill(2));
  }

  lemma PassedOnSecret(c: Suite, ikm: Bytes)
    requires PassesOn(c, Hmac(c, ZEROS, ikm))
    ensures Hkdf.Sha256(c, ikm, 32, X3dh.X3DH_SALT, X3dh.X3DH_INFO) == Hmac(c, ZEROS, ikm)
  {
    Hkdf.Sha256MeetsRfc(c, ikm, 1, ZEROS, X3dh.X3DH_INFO);
    Hkdf.BlocksPassOn(c, Hmac(c, ZEROS, ikm), X3dh.X3DH_INFO);
  }

  lemma CountedSecret(c: Suite, ikm: Bytes)
    requires Counts(c)
    ensures Hkdf.Sha256(c, ikm, 32, X3dh.X3DH_SALT, X3dh.X3DH_INFO)
         == if |ikm| == 4 * KEY_LENGTH then Fill(1) else Fill(2)
  {
    hide Fill;
    PassedOnSecret(c, ikm);
  }

  lemma CountedMasters(c: Suite, identity: Bytes, secret: Bytes, oneTimePubs: seq<Bytes>, dice: Dice)
    requires Counts(c) && oneTimePubs != [] && oneTimePubs[0] != []
    ensures FirstMaster(c, identity, secret, oneTimePubs, dice) == Fill(1)
    ensures X3dh.BobSecret(c, secret, secret, PublicKey(c, identity), PublicKey(c, dice.ephemeral), None) == Fill(2)
  {
    var a, b, e := PublicKey(c, secret), PublicKey(c, identity), PublicKey(c, dice.ephemeral);
    var ikm := Dh(c, identity, a) + Dh(c, dice.ephemeral, a) + Dh(c, dice.ephemeral, a);
    var four := ikm + Dh(c, dice.ephemeral, oneTimePubs[0]);
    var three := Dh(c, secret, b) + Dh(c, secret, e) + Dh(c, secret, e);
    assert |four| == 4 * KEY_LENGTH && |three| == 3 * KEY_LENGTH;
    CountedSecret(c, four);
    CountedSecret(c, three);
    hide Counts;
    hide Hkdf.Sha256;
    hide Fill;
    hide Dh;
  }

  /**
   * The sender uses the first one-time key of a bundle, the receiving device uses none: the first envelope
   * opens, in every suite, exactly if the bundle does not begin with a one-time key.
   */
  lemma FirstEnvelopeNeedsNoOneTime(self: Device, identity: Bytes, secret: Bytes, id: Device, oneTimePubs: seq<Bytes>,
                                    payload: Bytes, dice: Dice, newSecret: Bytes)
    requires |dice.nonce| == NONCE_LENGTH
    ensures oneTimePubs == [] || oneTimePubs[0] == [] <==> forall c: Suite ::
      FirstReceipt(c, self, identity, secret, id, oneTimePubs, payload, dice, newSecret) == Tried(DR.Plain(payload))
  {
    if oneTimePubs == [] || oneTimePubs[0] == [] {
      forall c: Suite
        ensures FirstReceipt(c, self, identity, secret, id, oneTimePubs, payload, dice, newSecret)
             == Tried(DR.Plain(payload))
      {
        var b := Bundle(id, PublicKey(c, secret), PublicKey(c, secret), oneTimePubs);
        EnvelopeOpens(c, self, identity, secret, b, payload, dice, map[], map[], Unmet, newSecret);
      }
    } else {
      var c := SomeSuiteCounts();
      FirstReceiptIs(c, self, identity, secret, id, oneTimePubs, payload, dice, newSecret);
      CountedMasters(c, identity, secret, oneTimePubs, dice);
      var dh := Dh(c, dice.ratchet, PublicKey(c, secret));
      assert Hmac(c, Fill(1), dh) == Fill(1) && Hmac(c, Fill(2), dh) == Fill(2);
      RatchetKeys.FirstMessageFails(c, Fill(1), Fill(2), dice.ratchet, secret, payload, dice.nonce, newSecret);
    }
    hide *;
  }

  // ---- the envelopes of a group send ----

  /** The sender key session that a step of the run hands out, and to whom. */
  function HandedOut(c: Suite, self: Device, groupId: string, w: Holders.World, st: Holders.Step)
    : (r: (SK.State, seq<Bundle>))
    ensures |r.1| <= |st.bundles|
  {
    var (session, _, targets) := Decide(w.saved, Recipients(st.bundles, self),
                                        SK.Create(c, groupId, self, st.newChainKey, st.newSignSecret));
    (session, targets)
  }

  /** The send that the step stands for. */
  function SendOf(c: Suite, self: Device, groupId: string, identity: Bytes, w: Holders.World, st: Holders.Step,
                  sessions: map<Device, DR.State>, dice: seq<Dice>, encode: SK.Distribution -> Bytes): Sending
    requires |dice| >= |st.bundles|
  {
    SendStep(c, identity, w.saved, sessions, Recipients(st.bundles, self),
             SK.Create(c, groupId, self, st.newChainKey, st.newSignSecret),
             st.payload, st.nonce, dice, encode, st.relay)
  }

  function EnvelopesOf(c: Suite, self: Device, groupId: string, identity: Bytes, w: Holders.World, st: Holders.Step,
                       sessions: map<Device, DR.State>, dice: seq<Dice>, encode: SK.Distribution -> Bytes)
    : FanOutResult
    requires |dice| >= |st.bundles|
  {
    var (session, targets) := HandedOut(c, self, groupId, w, st);
    FanOut(c, identity, sessions, targets, encode(SK.MakeDistribution(session)), dice)
  }

  /** The pairwise sessions at the turn of target i. */
  function Turn(c: Suite, self: Device, groupId: string, identity: Bytes, w: Holders.World, st: Holders.Step,
                sessions: map<Device, DR.State>, dice: seq<Dice>, encode: SK.Distribution -> Bytes, i: nat)
    : map<Device, DR.State>
    requires |dice| >= |st.bundles| && i <= |HandedOut(c, self, groupId, w, st).1|
  {
    var (session, targets) := HandedOut(c, self, groupId, w, st);
    SessionsAt(c, identity, sessions, targets, encode(SK.MakeDistribution(session)), dice, i)
  }

  /** The relay accepted the batch, and the send went on to encrypt the message. */
  predicate HandsOut(sending: Sending) {
    sending.result.Posted? || sending.result.PostFailed?
  }

  /** The batch of a send that hands out is what its loop produced. */
  lemma BatchIsFanOut(c: Suite, self: Device, groupId: string, identity: Bytes, w: Holders.World, st: Holders.Step,
                      sessions: map<Device, DR.State>, dice: seq<Dice>, encode: SK.Distribution -> Bytes)
    requires |dice| >= |st.bundles|
    requires HandsOut(SendOf(c, self, groupId, identity, w, st, sessions, dice, encode))
    ensures SendOf(c, self, groupId, identity, w, st, sessions, dice, encode).batch
         == EnvelopesOf(c, self, groupId, identity, w, st, sessions, dice, encode).envelopes
  {
    hide FanOut;
    hide Decide;
    hide EncryptWith;
    hide Recipients;
    hide SK.Create;
    hide SK.MakeDistribution;
  }

  /** Each target's envelope is the distribution of the session handed out, encrypted at its turn. */
  lemma EnvelopeOfTarget(c: Suite, self: Device, groupId: string, identity: Bytes, w: Holders.World, st: Holders.Step,
                         sessions: map<Device, DR.State>, dice: seq<Dice>, encode: SK.Distribution -> Bytes, i: nat)
    requires |dice| >= |st.bundles|
    requires i < |EnvelopesOf(c, self, groupId, identity, w, st, sessions, dice, encode).envelopes|
    ensures i < |HandedOut(c, self, groupId, w, st).1|
    ensures var (session, targets) := HandedOut(c, self, groupId, w, st);
      var at := Turn(c, self, groupId, identity, w, st, sessions, dice, encode, i);
      && Encrypted(c, identity, at, targets[i], encode(SK.MakeDistribution(session)), dice[i]).0.Sent?
      && EnvelopesOf(c, self, groupId, identity, w, st, sessions, dice, encode).envelopes[i]
         == EnvelopeTo(c, identity, at, targets[i], encode(SK.MakeDistribution(session)), dice[i])
  {
    var (session, targets) := HandedOut(c, self, groupId, w, st);
    FanOutAt(c, identity, sessions, targets, encode(SK.MakeDistribution(session)), dice, i);
    hide HandedOut;
    hide FanOut;
    hide DR.EncryptStep;
    hide SessionWith;
    hide EphemeralFor;
    hide SK.MakeDistribution;
  }

  /** What the books record of the i-th target is that distribution. */
  lemma BookedIsHandedOut(c: Suite, self: Device, groupId: string, identity: Bytes, w: Holders.World, st: Holders.Step,
                          sessions: map<Device, DR.State>, dice: seq<Dice>, encode: SK.Distribution -> Bytes, i: nat)
    requires |dice| >= |st.bundles|
    requires HandsOut(SendOf(c, self, groupId, identity, w, st, sessions, dice, encode))
    requires st.paired == EnvelopesOf(c, self, groupId, identity, w, st, sessions, dice, encode).ok
    requires i < |SendOf(c, self, groupId, identity, w, st, sessions, dice, encode).batch|
    ensures var w' := Holders.Next(c, self, groupId, w, st);
      && |w.handed| + i < |w'.handed|
      && w'.handed[|w.handed| + i].device
         == SendOf(c, self, groupId, identity, w, st, sessions, dice, encode).batch[i].recipient
      && w'.handed[|w.handed| + i].dist == SK.MakeDistribution(HandedOut(c, self, groupId, w, st).0)
  {
    Holders.BatchIsBooked(c, self, groupId, identity, w, st, sessions, dice, encode);
    hide FanOut;
    hide Decide;
    hide EncryptWith;
    hide Recipients;
    hide SK.Create;
    hide SK.MakeDistribution;
    hide Holders.Handouts;
  }

  /**
   * Every envelope of a send that hands out opens, on the device it is for, to exactly the distribution
   * message that the books record as handed to that device.
   */
  lemma HandoutsOpen(c: Suite, self: Device, groupId: string, identity: Bytes, w: Holders.World, st: Holders.Step,
                     sessions: map<Device, DR.State>, dice: seq<Dice>, encode: SK.Distribution -> Bytes, i: nat,
                     secret: Bytes, receivers: map<Device, DR.State>, p: Pairing, newSecret: Bytes)
    requires |dice| >= |st.bundles| && forall k :: 0 <= k < |dice| ==> |dice[k].nonce| == NONCE_LENGTH
    requires st.paired == EnvelopesOf(c, self, groupId, identity, w, st, sessions, dice, encode).ok
    requires var sending := SendOf(c, self, groupId, identity, w, st, sessions, dice, encode);
      HandsOut(sending) && i < |sending.batch|
    requires i < |HandedOut(c, self, groupId, w, st).1|
    requires Paired(c, self, secret, HandedOut(c, self, groupId, w, st).1[i],
                    Turn(c, self, groupId, identity, w, st, sessions, dice, encode, i), receivers, p)
    requires p.Met? ==> Endpoints.Unused(c, WorldOf(c, p).log, newSecret)
    ensures var e := SendOf(c, self, groupId, identity, w, st, sessions, dice, encode).batch[i];
      var w' := Holders.Next(c, self, groupId, w, st);
      && |w.handed| + i < |w'.handed| && w'.handed[|w.handed| + i].device == e.recipient
      && Receive(c, secret, receivers, self, PublicKey(c, identity), e, newSecret).0
         == Tried(if p.Met? && Endpoints.TooFar(receivers[self], e.wire) then DR.Thrown(DR.TooManySkipped)
                  else DR.Plain(encode(w'.handed[|w.handed| + i].dist)))
  {
    BatchIsFanOut(c, self, groupId, identity, w, st, sessions, dice, encode);
    EnvelopeOfTarget(c, self, groupId, identity, w, st, sessions, dice, encode, i);
    BookedIsHandedOut(c, self, groupId, identity, w, st, sessions, dice, encode, i);
    var (session, targets) := HandedOut(c, self, groupId, w, st);
    EnvelopeOpens(c, self, identity, secret, targets[i], encode(SK.MakeDistribution(session)), dice[i],
                  Turn(c, self, groupId, identity, w, st, sessions, dice, encode, i), receivers, p, newSecret);
    hide *;
  }

  // ---- from the envelope to the message ----

  /** A session built from a genuine distribution message opens the message of its own iteration. */
  lemma FreshSessionOpens(c: Suite, d: SK.Distribution, m: SK.Message, plaintext: Bytes, nonce: Bytes)
    requires Order.Genuine(c, d, m, plaintext, nonce) && d.iteration == m.iteration
    ensures SK.DecryptStep(c, SK.FromDistribution(d), m).0 == SK.Plain(plaintext)
  {
    Order.DeliveryIsExact(c, d, {}, SK.FromDistribution(d), m, plaintext, nonce);
    hide SK.DecryptStep;
  }

  lemma PostOpens(c: Suite, w: Holders.World, h: Holders.Handout, post: Holders.Post)
    requires Holders.Inv(c, w) && h in w.handed && post in w.posted
    requires h.chain == post.chain && h.dist.iteration == post.message.iteration
    ensures SK.DecryptStep(c, SK.FromDistribution(h.dist), post.message).0 == SK.Plain(post.plaintext)
  {
    assert Holders.PostOk(c, w.handed, post);
    FreshSessionOpens(c, h.dist, post.message, post.plaintext, post.nonce);
    hide SK.DecryptStep;
    hide Order.Genuine;
  }

  /** The message posted in a step opens for whoever starts from what that step recorded as handed out. */
  lemma HandedOpensPost(c: Suite, self: Device, groupId: string, steps: seq<Holders.Step>, st: Holders.Step, j: nat)
    requires Holders.ValidSteps(steps) && |st.nonce| == NONCE_LENGTH
    requires var w := Holders.Run(c, self, groupId, Holders.EMPTY, steps);
      var w' := Holders.Next(c, self, groupId, w, st);
      w'.posted != w.posted && |w.handed| <= j < |w'.handed|
    ensures var w := Holders.Run(c, self, groupId, Holders.EMPTY, steps);
      var w' := Holders.Next(c, self, groupId, w, st);
      && |w.posted| < |w'.posted|
      && SK.DecryptStep(c, SK.FromDistribution(w'.handed[j].dist), w'.posted[|w.posted|].message).0
         == SK.Plain(st.payload)
  {
    var w := Holders.Run(c, self, groupId, Holders.EMPTY, steps);
    Holders.RunKeepsInv(c, self, groupId, Holders.EMPTY, steps);
    Holders.NextKeepsInv(c, self, groupId, w, st);
    Holders.NewPost(c, self, groupId, w, st, j);
    var w' := Holders.Next(c, self, groupId, w, st);
    hide Holders.Run;
    hide Holders.Next;
    PostOpens(c, w', w'.handed[j], w'.posted[|w.posted|]);
    hide *;
  }

  /**
   * A device that is handed the key in a send can read that send's message: it opens its envelope, takes
   * the distribution message in it for its session, and decrypts the message to what was sent.
   */
  lemma NewcomerReads(c: Suite, self: Device, groupId: string, identity: Bytes, steps: seq<Holders.Step>,
                      st: Holders.Step, sessions: map<Device, DR.State>, dice: seq<Dice>,
                      encode: SK.Distribution -> Bytes, decode: Bytes -> SK.Distribution, i: nat,
                      secret: Bytes, receivers: map<Device, DR.State>, p: Pairing, newSecret: Bytes)
    requires Holders.ValidSteps(steps) && |st.nonce| == NONCE_LENGTH
    requires forall d :: decode(encode(d)) == d
    requires |dice| >= |st.bundles| && forall k :: 0 <= k < |dice| ==> |dice[k].nonce| == NONCE_LENGTH
    requires var w := Holders.Run(c, self, groupId, Holders.EMPTY, steps);
      var sending := SendOf(c, self, groupId, identity, w, st, sessions, dice, encode);
      && st.paired == EnvelopesOf(c, self, groupId, identity, w, st, sessions, dice, encode).ok
      && sending.result.Posted? && i < |sending.batch|
      && i < |HandedOut(c, self, groupId, w, st).1|
      && Paired(c, self, secret, HandedOut(c, self, groupId, w, st).1[i],
                Turn(c, self, groupId, identity, w, st, sessions, dice, encode, i), receivers, p)
      && (p.Met? ==> Endpoints.Unused(c, WorldOf(c, p).log, newSecret)
                     && !Endpoints.TooFar(receivers[self], sending.batch[i].wire))
    ensures var w := Holders.Run(c, self, groupId, Holders.EMPTY, steps);
      var sending := SendOf(c, self, groupId, identity, w, st, sessions, dice, encode);
      var receipt := Receive(c, secret, receivers, self, PublicKey(c, identity), sending.batch[i], newSecret).0;
      && receipt.Tried? && receipt.outcome.Plain?
      && SK.DecryptStep(c, SK.FromDistribution(decode(receipt.outcome.plaintext)), sending.result.message).0
         == SK.Plain(st.payload)
  {
    var w := Holders.Run(c, self, groupId, Holders.EMPTY, steps);
    HandoutsOpen(c, self, groupId, identity, w, st, sessions, dice, encode, i, secret, receivers, p, newSecret);
    Holders.NextIsSend(c, self, groupId, identity, w, st, sessions, dice, encode);
    HandedOpensPost(c, self, groupId, steps, st, |w.handed| + i);
    hide *;
  }
}
