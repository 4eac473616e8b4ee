/**
 * Two Double Ratchet endpoints joined by a network that delays, reorders and
 * loses packets but delivers each at most once. A step encrypts, delivers or drops.
 */
module RatchetNetwork {
  import opened Common
  import opened Primitives
  import opened DoubleRatchet
  import opened RatchetEndpoint

  datatype Party = Alice | Bob

  /** A packet, with the number of the sender's key it went out under and what went into it. */
  datatype Packet = Packet(from: Party, chain: nat, plaintext: Bytes, nonce: Bytes, wire: Wire)

  /** The endpoints, the key log of the run, all packets sent and what became of them. */
  datatype World = World(
    log: KeyLog,
    alice: State,
    bob: State,
    sent: seq<Packet>,
    delivered: set<nat>,
    dropped: set<nat>)

  datatype Step =
    | Encrypt(sender: Party, plaintext: Bytes, nonce: Bytes)
    | Deliver(packet: nat, newSecret: Bytes)
    | Drop(packet: nat)

  function Peer(p: Party): Party {
    if p.Alice? then Bob else Alice
  }

  function Endpoint(w: World, p: Party): State {
    if p.Alice? then w.alice else w.bob
  }

  function WithEndpoint(w: World, p: Party, s: State): World {
    if p.Alice? then w.(alice := s) else w.(bob := s)
  }

  /** Bob's prekey is key pair 0, Alice's first ratchet key is key pair 1. */
  function Start(c: Suite, master: Bytes, aliceSecret: Bytes, bobPrekey: Bytes): World {
    World(KeyLog(master, [bobPrekey, aliceSecret], [0, 0]),
          AliceStart(c, master, PublicKey(c, bobPrekey), aliceSecret),
          BobStart(c, master, bobPrekey),
          [], {}, {})
  }

  /** Bob's keys have even numbers and Alice's odd ones. */
  function Owner(k: nat): Party {
    if k % 2 == 1 then Alice else Bob
  }

  /** The number of the last key pair that p generated. */
  function Latest(log: KeyLog, p: Party): nat {
    var n := |log.secrets|;
    if n >= 1 && Owner(n - 1) == p then n - 1 else if n >= 2 then n - 2 else 0
  }

  predicate InFlight(w: World, j: nat) {
    j < |w.sent| && j !in w.delivered && j !in w.dropped
  }

  function Receiver(w: World, j: nat): Party
    requires j < |w.sent|
  {
    Peer(w.sent[j].from)
  }

  /** The receiver has passed the packet, and its table has since lost the packet's key. */
  predicate Evicted(w: World, j: nat)
    requires j < |w.sent|
  {
    var pk := w.sent[j];
    var e := Endpoint(w, Receiver(w, j));
    && pk.chain < |w.log.issued|
    && pk.wire.n < Passed(w.log, Latest(w.log, Receiver(w, j)), e.nRecv, pk.chain)
    && SkippedKey(pk.wire.dhPub, pk.wire.n) !in e.skipped.entries
  }

  ghost predicate Enabled(c: Suite, w: World, st: Step) {
    match st
    case Encrypt(_, _, nonce) => |nonce| == NONCE_LENGTH
    case Deliver(j, newSecret) => InFlight(w, j) && Unused(c, w.log, newSecret) && !Evicted(w, j)
    case Drop(j) => InFlight(w, j)
  }

  function Decryption(c: Suite, w: World, j: nat, newSecret: Bytes): (Outcome, State)
    requires j < |w.sent|
  {
    DecryptStep(c, Endpoint(w, Receiver(w, j)), w.sent[j].wire, newSecret)
  }

  function EncryptNext(c: Suite, w: World, p: Party, plaintext: Bytes, nonce: Bytes): World {
    var (r, e) := EncryptStep(c, Endpoint(w, p), plaintext, nonce);
    var k := Latest(w.log, p);
    if r.NotSent? || k >= |w.log.issued| then WithEndpoint(w, p, e)
    else WithEndpoint(w, p, e).(log := Issue(w.log, k),
                                sent := w.sent + [Packet(p, k, plaintext, nonce, r.wire)])
  }

  /** A packet whose decryption threw "Too many skipped messages" stays in flight. */
  function DeliverNext(c: Suite, w: World, j: nat, newSecret: Bytes): World {
    if j >= |w.sent| then w else
    var p := Receiver(w, j);
    var (outcome, e) := Decryption(c, w, j, newSecret);
    var log := if e.ourPub == Endpoint(w, p).ourPub then w.log else Append(w.log, newSecret);
    var delivered := if outcome == Thrown(TooManySkipped) then w.delivered else w.delivered + {j};
    WithEndpoint(w, p, e).(log := log, delivered := delivered)
  }

  function Next(c: Suite, w: World, st: Step): World {
    match st
    case Encrypt(p, plaintext, nonce) => EncryptNext(c, w, p, plaintext, nonce)
    case Deliver(j, newSecret) => DeliverNext(c, w, j, newSecret)
    case Drop(j) => w.(dropped := w.dropped + {j})
  }

  ghost predicate ValidRun(c: Suite, w: World, steps: seq<Step>)
    decreases |steps|
  {
    steps != [] ==> Enabled(c, w, steps[0]) && ValidRun(c, Next(c, w, steps[0]), steps[1..])
  }

  function Run(c: Suite, w: World, steps: seq<Step>): World
    decreases |steps|
  {
    if steps == [] then w else Run(c, Next(c, w, steps[0]), steps[1..])
  }

  // ---- the invariant ----

  /** The positions of the delivered packets. */
  ghost function Gone(w: World): set<Position> {
    set j | j in w.delivered && j < |w.sent| :: (w.sent[j].chain, w.sent[j].wire.n)
  }

  ghost predicate PacketOk(c: Suite, log: KeyLog, pk: Packet) {
    && SealedAt(c, log, pk.chain, pk.plaintext, pk.nonce, pk.wire)
    && pk.from == Owner(pk.chain)
  }

  ghost predicate PacketsOk(c: Suite, log: KeyLog, sent: seq<Packet>) {
    forall j :: 0 <= j < |sent| ==> PacketOk(c, log, sent[j])
  }

  ghost predicate DeliveredKnown(w: World) {
    forall j :: j in w.delivered ==> j < |w.sent|
  }

  /** No two packets share a position. */
  ghost predicate PositionsDistinct(sent: seq<Packet>) {
    forall i, j :: 0 <= i < j < |sent| ==>
      sent[i].chain != sent[j].chain || sent[i].wire.n != sent[j].wire.n
  }

  ghost predicate PartyOk(c: Suite, w: World, p: Party) {
    EndpointOk(c, w.log, Latest(w.log, p), Endpoint(w, p), Gone(w))
  }

  ghost predicate Inv(c: Suite, w: World) {
    && LogOk(w.log)
    && KeysDistinct(c, w.log)
    && PacketsOk(c, w.log, w.sent)
    && PositionsDistinct(w.sent)
    && DeliveredKnown(w)
    && PartyOk(c, w, Alice)
    && PartyOk(c, w, Bob)
  }

  lemma StartInv(c: Suite, master: Bytes, aliceSecret: Bytes, bobPrekey: Bytes)
    requires PublicKey(c, aliceSecret) != PublicKey(c, bobPrekey)
    ensures Inv(c, Start(c, master, aliceSecret, bobPrekey))
  {
    var w := Start(c, master, aliceSecret, bobPrekey);
    assert Root(c, w.log, 0) == master;
    assert RootAndChain(c, w.log, 1) == RootStep(c, master, Dh(c, aliceSecret, PublicKey(c, bobPrekey)));
  }

  // ---- encrypting ----

  lemma PacketAfterIssue(c: Suite, log: KeyLog, k: nat, pk: Packet)
    requires LogOk(log) && 1 <= k < |log.issued| && pk.chain < k + 2
    requires PacketOk(c, log, pk)
    ensures PacketOk(c, Issue(log, k), pk)
  {
    RootIgnoresIssued(c, log, Issue(log, k).issued, pk.chain);
  }

  /** The next message of an endpoint in step with the log, and its key. */
  lemma NextWire(c: Suite, log: KeyLog, s: nat, e: State, plaintext: Bytes, nonce: Bytes)
    requires LogOk(log) && Aligned(c, log, s, e) && s > 0
    ensures EncryptStep(c, e, plaintext, nonce).0
         == Sent(Wire(Seal(c, plaintext, nonce, KeyAt(c, log, s, log.issued[s])),
                      Public(c, log, s), log.issued[s], IssuedBefore(log, s)))
  {
    hide Seal;
    hide RootAndChain;
    hide Root;
  }

  lemma NewPacketOk(c: Suite, log: KeyLog, p: Party, e: State, plaintext: Bytes, nonce: Bytes)
    requires LogOk(log) && |nonce| == NONCE_LENGTH
    requires Aligned(c, log, Latest(log, p), e) && Latest(log, p) > 0
    ensures var r := EncryptStep(c, e, plaintext, nonce).0;
      && r.Sent?
      && r.wire.n == log.issued[Latest(log, p)]
      && PacketOk(c, Issue(log, Latest(log, p)), Packet(p, Latest(log, p), plaintext, nonce, r.wire))
  {
    var k := Latest(log, p);
    hide *;
    NextWire(c, log, k, e, plaintext, nonce);
    LatestOwned(log, p);
    IssuedPacketOk(c, log, k, p, plaintext, nonce);
  }

  lemma LatestOwned(log: KeyLog, p: Party)
    requires LogOk(log)
    ensures Latest(log, p) < |log.secrets| && |log.secrets| == |log.issued| && Owner(Latest(log, p)) == p
  {
  }

  lemma IssuedPacketOk(c: Suite, log: KeyLog, k: nat, p: Party, plaintext: Bytes, nonce: Bytes)
    requires LogOk(log) && 1 <= k < |log.secrets| && Owner(k) == p && |nonce| == NONCE_LENGTH
    ensures PacketOk(c, Issue(log, k), Packet(p, k, plaintext, nonce,
      Wire(Seal(c, plaintext, nonce, KeyAt(c, log, k, log.issued[k])),
           Public(c, log, k), log.issued[k], IssuedBefore(log, k))))
  {
    hide Seal;
    RootIgnoresIssued(c, log, Issue(log, k).issued, k);
    hide RootAndChain;
  }

  lemma PacketsAfterIssue(c: Suite, log: KeyLog, k: nat, sent: seq<Packet>)
    requires LogOk(log) && 1 <= k < |log.issued| && k + 2 >= |log.issued|
    requires PacketsOk(c, log, sent)
    ensures PacketsOk(c, Issue(log, k), sent)
    ensures forall j :: 0 <= j < |sent| && sent[j].chain == k ==> sent[j].wire.n < log.issued[k]
  {
    forall j | 0 <= j < |sent| ensures PacketOk(c, Issue(log, k), sent[j]) {
      PacketAfterIssue(c, log, k, sent[j]);
    }
  }

  lemma EncryptKeepsPackets(c: Suite, w: World, p: Party, plaintext: Bytes, nonce: Bytes)
    requires LogOk(w.log) && PacketsOk(c, w.log, w.sent) && PositionsDistinct(w.sent)
    requires |nonce| == NONCE_LENGTH
    requires Aligned(c, w.log, Latest(w.log, p), Endpoint(w, p)) && Latest(w.log, p) > 0
    ensures var w' := EncryptNext(c, w, p, plaintext, nonce);
      PacketsOk(c, w'.log, w'.sent) && PositionsDistinct(w'.sent)
  {
    NewPacketOk(c, w.log, p, Endpoint(w, p), plaintext, nonce);
    PacketsAfterIssue(c, w.log, Latest(w.log, p), w.sent);
    hide PacketOk;
    hide Aligned;
  }

  lemma GoneUnchanged(w: World, w': World)
    requires w'.delivered == w.delivered && w.sent <= w'.sent
    requires DeliveredKnown(w)
    ensures Gone(w') == Gone(w)
  {
  }

  lemma EncryptNextShape(c: Suite, w: World, p: Party, plaintext: Bytes, nonce: Bytes)
    requires LogOk(w.log) && Latest(w.log, p) > 0
    requires Endpoint(w, p).ckSend.Some?
    requires DeliveredKnown(w)
    ensures var w' := EncryptNext(c, w, p, plaintext, nonce);
      && w'.log == Issue(w.log, Latest(w.log, p))
      && Endpoint(w', p) == EncryptStep(c, Endpoint(w, p), plaintext, nonce).1
      && Endpoint(w', Peer(p)) == Endpoint(w, Peer(p))
      && Gone(w') == Gone(w)
      && LogOk(w'.log)
      && (KeysDistinct(c, w.log) ==> KeysDistinct(c, w'.log))
      && (forall q :: Latest(w'.log, q) == Latest(w.log, q))
  {
    GoneUnchanged(w, EncryptNext(c, w, p, plaintext, nonce));
  }

  lemma EncryptKeepsParty(c: Suite, w: World, p: Party, plaintext: Bytes, nonce: Bytes, q: Party)
    requires LogOk(w.log) && DeliveredKnown(w) && Latest(w.log, p) > 0
    requires Endpoint(w, p).ckSend.Some?
    requires PartyOk(c, w, q)
    ensures PartyOk(c, EncryptNext(c, w, p, plaintext, nonce), q)
  {
    var k := Latest(w.log, p);
    EncryptNextShape(c, w, p, plaintext, nonce);
    if q == p {
      EncryptKeepsSender(c, w.log, k, Endpoint(w, p), Gone(w), plaintext, nonce);
    } else {
      EncryptKeepsPeer(c, w.log, k, Latest(w.log, q), Endpoint(w, q), Gone(w));
    }
  }

  lemma EncryptKeepsInv(c: Suite, w: World, p: Party, plaintext: Bytes, nonce: Bytes)
    requires Inv(c, w) && |nonce| == NONCE_LENGTH
    ensures Inv(c, EncryptNext(c, w, p, plaintext, nonce))
  {
    if Latest(w.log, p) == 0 {
      assert EncryptNext(c, w, p, plaintext, nonce) == w;
    } else {
      EncryptNextShape(c, w, p, plaintext, nonce);
      hide EncryptNext;
      hide TableSound;
      hide GonePassed;
      hide ChainAt;
      hide Root;
      hide Gone;
      hide PacketsOk;
      hide PositionsDistinct;
      EncryptKeepsPackets(c, w, p, plaintext, nonce);
      EncryptKeepsParty(c, w, p, plaintext, nonce, Alice);
      EncryptKeepsParty(c, w, p, plaintext, nonce, Bob);
    }
  }

  // ---- delivering ----

  /** An honest packet is on a chain the receiver has entered, or on the very next one. */
  lemma ReceivedChain(c: Suite, w: World, j: nat)
    requires LogOk(w.log) && j < |w.sent| && PacketOk(c, w.log, w.sent[j])
    ensures var s := Latest(w.log, Receiver(w, j));
      var k := w.sent[j].chain;
      && 1 <= k < |w.log.secrets|
      && Received(s, k)
      && !Received(Latest(w.log, Peer(Receiver(w, j))), k)
      && (k + 1 <= s || (k == s + 1 && |w.log.secrets| == s + 2))
  {
  }

  lemma NotGone(w: World, j: nat)
    requires PositionsDistinct(w.sent) && j < |w.sent| && j !in w.delivered && DeliveredKnown(w)
    ensures (w.sent[j].chain, w.sent[j].wire.n) !in Gone(w)
  {
  }

  /** What delivering packet j does, whatever the other packets. */
  ghost predicate PacketDelivered(c: Suite, w: World, j: nat, x: Bytes)
    requires j < |w.sent|
  {
    var p := Receiver(w, j);
    DeliveryOk(c, w.log, Latest(w.log, p), Endpoint(w, p), Gone(w),
               w.sent[j].chain, w.sent[j].plaintext, w.sent[j].wire, x)
  }

  /** Any packet still in flight and not evicted is delivered as DeliveryOk says. */
  lemma Delivers(c: Suite, w: World, j: nat, x: Bytes)
    requires Inv(c, w) && Enabled(c, w, Deliver(j, x))
    ensures PacketDelivered(c, w, j, x)
  {
    var p := Receiver(w, j);
    var pk := w.sent[j];
    ReceivedChain(c, w, j);
    assert PartyOk(c, w, p);
    assert PacketOk(c, w.log, pk);
    HonestDelivery(c, w.log, Latest(w.log, p), Endpoint(w, p), Gone(w),
                   pk.chain, pk.plaintext, pk.nonce, pk.wire, x);
  }

  lemma GoneAfter(w: World, w': World, j: nat)
    requires j < |w.sent| && w'.sent == w.sent && w'.delivered == w.delivered + {j}
    ensures Gone(w') == Gone(w) + {(w.sent[j].chain, w.sent[j].wire.n)}
  {
  }

  ghost predicate PacketOutcome(c: Suite, w: World, j: nat, x: Bytes)
    requires j < |w.sent|
  {
    var p := Receiver(w, j);
    OutcomeOk(c, w.log, Latest(w.log, p), Endpoint(w, p), w.sent[j].plaintext, w.sent[j].wire, x)
  }

  lemma DeliverNextShape(c: Suite, w: World, j: nat, x: Bytes)
    requires LogOk(w.log) && j < |w.sent| && PacketOutcome(c, w, j, x)
    ensures var p := Receiver(w, j);
      var e := Endpoint(w, p);
      var w' := DeliverNext(c, w, j, x);
      && Endpoint(w', p) == Decryption(c, w, j, x).1
      && Endpoint(w', Peer(p)) == Endpoint(w, Peer(p))
      && w'.sent == w.sent && w'.dropped == w.dropped
      && w'.log == LogAfter(w.log, e, Endpoint(w', p), x)
      && Latest(w'.log, p) == LatestAfter(Latest(w.log, p), e, Endpoint(w', p))
      && Latest(w'.log, Peer(p)) == Latest(w.log, Peer(p))
      && w'.delivered == (if TooFar(e, w.sent[j].wire) then w.delivered else w.delivered + {j})
  {
    hide TooFar;
    hide DecryptStep;
  }

  lemma DeliverNextGone(c: Suite, w: World, j: nat, x: Bytes)
    requires LogOk(w.log) && j < |w.sent| && PacketOutcome(c, w, j, x)
    ensures Gone(DeliverNext(c, w, j, x))
         == if TooFar(Endpoint(w, Receiver(w, j)), w.sent[j].wire) then Gone(w)
            else Gone(w) + {(w.sent[j].chain, w.sent[j].wire.n)}
  {
    DeliverNextShape(c, w, j, x);
    if !TooFar(Endpoint(w, Receiver(w, j)), w.sent[j].wire) {
      GoneAfter(w, DeliverNext(c, w, j, x), j);
    } else {
      assert Gone(DeliverNext(c, w, j, x)) == Gone(w);
    }
  }

  lemma DeliverKeepsReceiver(c: Suite, w: World, j: nat, x: Bytes)
    requires LogOk(w.log) && j < |w.sent| && PacketDelivered(c, w, j, x)
    ensures PartyOk(c, DeliverNext(c, w, j, x), Receiver(w, j))
  {
    DeliverNextShape(c, w, j, x);
    DeliverNextGone(c, w, j, x);
  }

  lemma DeliverKeepsOther(c: Suite, w: World, j: nat, x: Bytes)
    requires LogOk(w.log) && j < |w.sent| && PacketOutcome(c, w, j, x)
    requires PacketOk(c, w.log, w.sent[j]) && Unused(c, w.log, x)
    requires PartyOk(c, w, Peer(Receiver(w, j)))
    ensures PartyOk(c, DeliverNext(c, w, j, x), Peer(Receiver(w, j)))
  {
    var q := Peer(Receiver(w, j));
    var w' := DeliverNext(c, w, j, x);
    DeliverNextShape(c, w, j, x);
    DeliverNextGone(c, w, j, x);
    ReceivedChain(c, w, j);
    PeerDelivery(c, w.log, Latest(w.log, q), Endpoint(w, q), Gone(w), x,
                 w.sent[j].chain, w.sent[j].wire.n, w'.log, Gone(w'));
  }

  lemma PacketsAfterAppend(c: Suite, log: KeyLog, sent: seq<Packet>, x: Bytes)
    requires LogOk(log) && PacketsOk(c, log, sent)
    ensures PacketsOk(c, Append(log, x), sent)
  {
    forall i | 0 <= i < |sent| ensures PacketOk(c, Append(log, x), sent[i]) {
      SealedAfterAppend(c, log, sent[i].chain, sent[i].plaintext, sent[i].nonce, sent[i].wire, x);
    }
  }

  lemma DeliverKeepsPackets(c: Suite, w: World, j: nat, x: Bytes)
    requires LogOk(w.log) && KeysDistinct(c, w.log) && Unused(c, w.log, x)
    requires j < |w.sent| && PacketOutcome(c, w, j, x)
    requires PacketsOk(c, w.log, w.sent) && DeliveredKnown(w)
    ensures var w' := DeliverNext(c, w, j, x);
      && LogOk(w'.log) && KeysDistinct(c, w'.log)
      && w'.sent == w.sent && PacketsOk(c, w'.log, w'.sent) && DeliveredKnown(w')
  {
    DeliverNextShape(c, w, j, x);
    NewKeyDistinct(c, w.log, x);
    PacketsAfterAppend(c, w.log, w.sent, x);
  }

  lemma DeliverKeepsInv(c: Suite, w: World, j: nat, x: Bytes)
    requires Inv(c, w) && Enabled(c, w, Deliver(j, x))
    ensures Inv(c, DeliverNext(c, w, j, x))
  {
    Delivers(c, w, j, x);
    DeliverKeepsPackets(c, w, j, x);
    DeliverKeepsReceiver(c, w, j, x);
    assert PartyOk(c, w, Peer(Receiver(w, j)));
    DeliverKeepsOther(c, w, j, x);
  }

  // ---- a packet just sent ----

  ghost predicate DroppedKnown(w: World) {
    forall j :: j in w.dropped ==> j < |w.sent|
  }

  lemma {:induction false} RunKeepsDropped(c: Suite, w: World, steps: seq<Step>)
    requires DroppedKnown(w) && ValidRun(c, w, steps)
    ensures DroppedKnown(Run(c, w, steps))
    decreases |steps|
  {
    if steps != [] {
      hide DecryptStep;
      hide EncryptStep;
      RunKeepsDropped(c, Next(c, w, steps[0]), steps[1..]);
    }
  }

  lemma SendersHaveChains(c: Suite, log: KeyLog, p: Party, e: State, plaintext: Bytes, nonce: Bytes)
    requires LogOk(log) && Aligned(c, log, Latest(log, p), e)
    requires EncryptStep(c, e, plaintext, nonce).0.Sent?
    ensures Latest(log, p) > 0 && e.nSend == log.issued[Latest(log, p)]
    ensures EncryptStep(c, e, plaintext, nonce).0.wire.n == e.nSend
  {
    hide ChainAt;
    hide Root;
    hide Seal;
  }

  /** The peer has not passed what p has not sent. */
  lemma NotPassedYet(c: Suite, log: KeyLog, p: Party, e: State)
    requires LogOk(log) && Aligned(c, log, Latest(log, Peer(p)), e)
    requires Latest(log, p) > 0
    ensures var k, log' := Latest(log, p), Issue(log, Latest(log, p));
      k < |log'.issued| && Passed(log', Latest(log', Peer(p)), e.nRecv, k) <= log.issued[k]
  {
    hide ChainAt;
    hide Root;
  }

  lemma EncryptNextSent(c: Suite, w: World, p: Party, plaintext: Bytes, nonce: Bytes)
    requires LogOk(w.log) && Latest(w.log, p) < |w.log.issued|
    requires EncryptStep(c, Endpoint(w, p), plaintext, nonce).0.Sent?
    ensures var w' := EncryptNext(c, w, p, plaintext, nonce);
      w' == WithEndpoint(w, p, EncryptStep(c, Endpoint(w, p), plaintext, nonce).1).(
              log := Issue(w.log, Latest(w.log, p)),
              sent := w.sent + [Packet(p, Latest(w.log, p), plaintext, nonce,
                                       EncryptStep(c, Endpoint(w, p), plaintext, nonce).0.wire)])
  {
    hide EncryptStep;
  }

  lemma NewPacketEnabled(c: Suite, w: World, w': World, p: Party, newSecret: Bytes)
    requires LogOk(w.log) && DroppedKnown(w) && DeliveredKnown(w) && Unused(c, w.log, newSecret)
    requires Latest(w.log, p) < |w.log.issued| && w'.log == Issue(w.log, Latest(w.log, p))
    requires |w'.sent| == |w.sent| + 1 && w'.sent[|w.sent|].from == p
    requires w'.sent[|w.sent|].chain == Latest(w.log, p)
    requires w'.sent[|w.sent|].wire.n == w.log.issued[Latest(w.log, p)]
    requires Passed(w'.log, Latest(w'.log, Peer(p)), Endpoint(w', Peer(p)).nRecv, Latest(w.log, p))
          <= w.log.issued[Latest(w.log, p)]
    requires w'.delivered == w.delivered && w'.dropped == w.dropped
    ensures Enabled(c, w', Deliver(|w.sent|, newSecret))
  {
    hide Passed;
    hide Latest;
  }

  /** An endpoint that can send can have what it sends delivered at once. */
  lemma NewPacketDeliverable(c: Suite, w: World, p: Party, plaintext: Bytes, nonce: Bytes, newSecret: Bytes)
    requires Inv(c, w) && DroppedKnown(w) && Unused(c, w.log, newSecret)
    requires EncryptStep(c, Endpoint(w, p), plaintext, nonce).0.Sent?
    ensures var w' := EncryptNext(c, w, p, plaintext, nonce);
      && |w'.sent| == |w.sent| + 1
      && w'.sent[|w.sent|].from == p && w'.sent[|w.sent|].plaintext == plaintext
      && w'.sent[|w.sent|].wire == EncryptStep(c, Endpoint(w, p), plaintext, nonce).0.wire
      && Endpoint(w', p) == EncryptStep(c, Endpoint(w, p), plaintext, nonce).1
      && Endpoint(w', Peer(p)) == Endpoint(w, Peer(p))
      && Enabled(c, w', Deliver(|w.sent|, newSecret))
  {
    assert PartyOk(c, w, p) && PartyOk(c, w, Peer(p));
    SendersHaveChains(c, w.log, p, Endpoint(w, p), plaintext, nonce);
    NotPassedYet(c, w.log, p, Endpoint(w, Peer(p)));
    EncryptNextSent(c, w, p, plaintext, nonce);
    NewPacketEnabled(c, w, EncryptNext(c, w, p, plaintext, nonce), p, newSecret);
    hide *;
  }

  lemma StepKeepsInv(c: Suite, w: World, st: Step)
    requires Inv(c, w) && Enabled(c, w, st)
    ensures Inv(c, Next(c, w, st))
  {
    match st
    case Encrypt(p, plaintext, nonce) =>
      EncryptKeepsInv(c, w, p, plaintext, nonce);
    case Deliver(j, x) =>
      DeliverKeepsInv(c, w, j, x);
    case Drop(_) =>
      assert Gone(Next(c, w, st)) == Gone(w);
  }

  lemma {:induction false} RunKeepsInv(c: Suite, w: World, steps: seq<Step>)
    requires Inv(c, w) && ValidRun(c, w, steps)
    ensures Inv(c, Run(c, w, steps))
    decreases |steps|
  {
    if steps != [] {
      StepKeepsInv(c, w, steps[0]);
      RunKeepsInv(c, Next(c, w, steps[0]), steps[1..]);
    }
  }

  // ---- runs in which no key is pushed out of a table ----

  /** As Enabled, but instead of "not evicted": the receiver's table has room for the delivery. */
  ghost predicate RoomyStep(c: Suite, w: World, st: Step) {
    match st
    case Encrypt(_, _, nonce) => |nonce| == NONCE_LENGTH
    case Deliver(j, newSecret) =>
      InFlight(w, j) && Unused(c, w.log, newSecret) && HasRoom(Endpoint(w, Receiver(w, j)), w.sent[j].wire)
    case Drop(j) => InFlight(w, j)
  }

  ghost predicate RoomyRun(c: Suite, w: World, steps: seq<Step>)
    decreases |steps|
  {
    steps != [] ==> RoomyStep(c, w, steps[0]) && RoomyRun(c, Next(c, w, steps[0]), steps[1..])
  }

  ghost predicate PartyFull(c: Suite, w: World, p: Party)
    requires LogOk(w.log)
  {
    EndpointFull(c, w.log, Latest(w.log, p), Endpoint(w, p), Gone(w))
  }

  ghost predicate Full(c: Suite, w: World)
    requires LogOk(w.log)
  {
    PartyFull(c, w, Alice) && PartyFull(c, w, Bob)
  }

  /** With complete tables nothing in flight has been evicted. */
  lemma FullNotEvicted(c: Suite, w: World, j: nat)
    requires Inv(c, w) && Full(c, w) && InFlight(w, j)
    ensures !Evicted(w, j)
  {
    var p := Receiver(w, j);
    var pk := w.sent[j];
    assert PacketOk(c, w.log, pk);
    ReceivedChain(c, w, j);
    NotGone(w, j);
    assert PartyFull(c, w, p);
    if pk.wire.n < Passed(w.log, Latest(w.log, p), Endpoint(w, p).nRecv, pk.chain) {
      assert Missing(w.log, Latest(w.log, p), Endpoint(w, p).nRecv, Gone(w), pk.chain, pk.wire.n);
    }
  }

  lemma EncryptKeepsFull(c: Suite, w: World, p: Party, plaintext: Bytes, nonce: Bytes, q: Party)
    requires LogOk(w.log) && DeliveredKnown(w) && Latest(w.log, p) > 0
    requires Endpoint(w, p).ckSend.Some?
    requires PartyFull(c, w, q)
    ensures LogOk(EncryptNext(c, w, p, plaintext, nonce).log)
    ensures PartyFull(c, EncryptNext(c, w, p, plaintext, nonce), q)
  {
    var w' := EncryptNext(c, w, p, plaintext, nonce);
    EncryptNextShape(c, w, p, plaintext, nonce);
    FullAfterIssue(c, w.log, Latest(w.log, p), Latest(w.log, q), Endpoint(w, q), Endpoint(w', q), Gone(w));
  }

  lemma GoneElsewhereFull(c: Suite, log: KeyLog, s: nat, e: State, gone: set<Position>, k: nat, n: nat)
    requires LogOk(log) && EndpointFull(c, log, s, e, gone)
    requires !Received(s, k)
    ensures EndpointFull(c, log, s, e, gone + {(k, n)})
  {
    forall k': nat, i: nat | Missing(log, s, e.nRecv, gone + {(k, n)}, k', i)
      ensures SkippedKey(Public(c, log, k'), i) in e.skipped.entries
    {
      assert Missing(log, s, e.nRecv, gone, k', i);
    }
  }

  lemma DeliverKeepsReceiverFull(c: Suite, w: World, j: nat, x: Bytes)
    requires Inv(c, w) && InFlight(w, j) && Unused(c, w.log, x) && !Evicted(w, j)
    requires HasRoom(Endpoint(w, Receiver(w, j)), w.sent[j].wire)
    requires PartyFull(c, w, Receiver(w, j))
    ensures var p := Receiver(w, j);
      StaysFull(c, w.log, Latest(w.log, p), Endpoint(w, p), Gone(w), w.sent[j].chain, w.sent[j].wire, x)
  {
    var p := Receiver(w, j);
    var pk := w.sent[j];
    ReceivedChain(c, w, j);
    assert PartyOk(c, w, p);
    assert PacketOk(c, w.log, pk);
    HonestDeliveryFull(c, w.log, Latest(w.log, p), Endpoint(w, p), Gone(w),
                       pk.chain, pk.plaintext, pk.nonce, pk.wire, x);
  }

  lemma DeliverKeepsOtherFull(c: Suite, w: World, j: nat, x: Bytes)
    requires LogOk(w.log) && j < |w.sent| && PacketOutcome(c, w, j, x) && PacketOk(c, w.log, w.sent[j])
    requires PartyFull(c, w, Peer(Receiver(w, j)))
    ensures LogOk(DeliverNext(c, w, j, x).log)
    ensures PartyFull(c, DeliverNext(c, w, j, x), Peer(Receiver(w, j)))
  {
    var q := Peer(Receiver(w, j));
    var w' := DeliverNext(c, w, j, x);
    DeliverNextShape(c, w, j, x);
    DeliverNextGone(c, w, j, x);
    ReceivedChain(c, w, j);
    FullAfterAppend(c, w.log, Latest(w.log, q), Endpoint(w, q), Gone(w), x);
    GoneElsewhereFull(c, w'.log, Latest(w.log, q), Endpoint(w, q), Gone(w), w.sent[j].chain, w.sent[j].wire.n);
  }

  lemma ReceiverStaysFull(c: Suite, w: World, j: nat, x: Bytes)
    requires LogOk(w.log) && j < |w.sent| && PacketOutcome(c, w, j, x)
    requires var p := Receiver(w, j);
      StaysFull(c, w.log, Latest(w.log, p), Endpoint(w, p), Gone(w), w.sent[j].chain, w.sent[j].wire, x)
    requires LogOk(DeliverNext(c, w, j, x).log)
    ensures PartyFull(c, DeliverNext(c, w, j, x), Receiver(w, j))
  {
    DeliverNextShape(c, w, j, x);
    DeliverNextGone(c, w, j, x);
    hide DeliverNext;
    hide EndpointFull;
    hide PacketOutcome;
    hide TooFar;
    hide Gone;
    hide DecryptStep;
  }

  lemma DeliverKeepsFull(c: Suite, w: World, j: nat, x: Bytes)
    requires Inv(c, w) && Full(c, w) && RoomyStep(c, w, Deliver(j, x))
    ensures Inv(c, DeliverNext(c, w, j, x)) && Full(c, DeliverNext(c, w, j, x))
  {
    FullNotEvicted(c, w, j);
    assert PacketOk(c, w.log, w.sent[j]);
    hide PartyOk;
    hide PartyFull;
    hide PacketOk;
    hide DeliverNext;
    hide KeysDistinct;
    hide PositionsDistinct;
    hide StaysFull;
    DeliverKeepsInv(c, w, j, x);
    Delivers(c, w, j, x);
    DeliverKeepsReceiverFull(c, w, j, x);
    ReceiverStaysFull(c, w, j, x);
    DeliverKeepsOtherFull(c, w, j, x);
  }

  lemma RoomyStepKeepsFull(c: Suite, w: World, st: Step)
    requires Inv(c, w) && Full(c, w) && RoomyStep(c, w, st)
    ensures Enabled(c, w, st)
    ensures Inv(c, Next(c, w, st)) && Full(c, Next(c, w, st))
  {
    match st
    case Encrypt(p, plaintext, nonce) =>
      StepKeepsInv(c, w, st);
      assert PartyOk(c, w, p);
      if Latest(w.log, p) > 0 {
        EncryptKeepsFull(c, w, p, plaintext, nonce, Alice);
        EncryptKeepsFull(c, w, p, plaintext, nonce, Bob);
      }
    case Deliver(j, x) =>
      FullNotEvicted(c, w, j);
      DeliverKeepsFull(c, w, j, x);
    case Drop(_) =>
      StepKeepsInv(c, w, st);
      assert Gone(Next(c, w, st)) == Gone(w);
  }

  lemma {:induction false} RoomyRunKeepsFull(c: Suite, w: World, steps: seq<Step>)
    requires Inv(c, w) && Full(c, w) && RoomyRun(c, w, steps)
    ensures ValidRun(c, w, steps)
    ensures Inv(c, Run(c, w, steps)) && Full(c, Run(c, w, steps))
    decreases |steps|
  {
    if steps != [] {
      RoomyStepKeepsFull(c, w, steps[0]);
      RoomyRunKeepsFull(c, Next(c, w, steps[0]), steps[1..]);
    }
  }
}
