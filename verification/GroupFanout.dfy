/**
 * Sending to an encrypted group (apps/mobile/src/hooks/useSendMessage.ts): rotate
 * the sender key when a device left, hand it to devices that joined, then encrypt.
 * Text messages and control messages share this path.
 */
module GroupFanout {
  import opened Common
  import opened Primitives
  import X3dh
  import DR = DoubleRatchet
  import RatchetKeys
  import SK = SenderKey

  type Device = string

  /** A member device and the public keys it registered. */
  datatype Bundle = Bundle(deviceId: Device, identityPub: Bytes, prekeyPub: Bytes, oneTimePubs: seq<Bytes>)

  /** The random values drawn for one distribution envelope. */
  datatype Dice = Dice(ephemeral: Bytes, ratchet: Bytes, nonce: Bytes)

  /** A distribution envelope; the ephemeral key is present when the session is new. */
  datatype Envelope = Envelope(recipient: Device, ephemeralPub: Option<Bytes>, wire: DR.Wire)

  datatype Relay = BatchRejected | PostRejected | Accepted

  datatype SendResult =
    | NoRecipients
    | SessionCannotSend
    | BatchFailed
    | PostFailed
    | Posted(message: SK.Message)
    | SigningKeyMissing

  // ---- deciding who must be handed the key ----

  function Ids(bundles: seq<Bundle>): (r: seq<Device>)
    ensures |r| == |bundles|
    ensures forall x :: x in r <==> exists b :: b in bundles && b.deviceId == x
  {
    if bundles == [] then [] else
      assert bundles == [bundles[0]] + bundles[1..];
      [bundles[0].deviceId] + Ids(bundles[1..])
  }

  /** Every device of every member except the sending one. */
  function Recipients(bundles: seq<Bundle>, self: Device): (r: seq<Bundle>)
    ensures forall b :: b in r <==> b in bundles && b.deviceId != self
    ensures |r| <= |bundles|
  {
    if bundles == [] then []
    else if bundles[0].deviceId != self then [bundles[0]] + Recipients(bundles[1..], self)
    else Recipients(bundles[1..], self)
  }

  predicate AnyRemoved(shared: seq<Device>, current: seq<Device>) {
    exists id :: id in shared && id !in current
  }

  function NotYetShared(recipients: seq<Bundle>, shared: seq<Device>): (r: seq<Bundle>)
    ensures forall b :: b in r <==> b in recipients && b.deviceId !in shared
    ensures |r| <= |recipients|
  {
    if recipients == [] then []
    else if recipients[0].deviceId !in shared then [recipients[0]] + NotYetShared(recipients[1..], shared)
    else NotYetShared(recipients[1..], shared)
  }

  /** The session to use, whether it is the fresh one, and whom to hand it to first. */
  function Decide(saved: Option<SK.State>, recipients: seq<Bundle>, newSession: SK.State)
    : (r: (SK.State, bool, seq<Bundle>))
    ensures |r.2| <= |recipients|
  {
    if saved.None? || AnyRemoved(saved.value.sharedWith, Ids(recipients)) then (newSession, true, recipients)
    else (saved.value, false, NotYetShared(recipients, saved.value.sharedWith))
  }

  /** A set built from a list keeps first occurrences in order. */
  function AddAll(shared: seq<Device>, more: seq<Device>): (r: seq<Device>)
    ensures forall x :: x in r <==> x in shared || x in more
    decreases |more|
  {
    if more == [] then shared
    else AddAll(if more[0] in shared then shared else shared + [more[0]], more[1..])
  }

  function Shared(session: SK.State, targets: seq<Bundle>): SK.State {
    if targets == [] then session
    else session.(sharedWith := AddAll(AddAll([], session.sharedWith), Ids(targets)))
  }

  // ---- the distribution envelopes ----

  function FirstOneTime(b: Bundle): Option<Bytes> {
    if b.oneTimePubs == [] || b.oneTimePubs[0] == [] then None else Some(b.oneTimePubs[0])
  }

  /** The saved pairwise session with a device, or a new one set up with X3DH. */
  function SessionWith(c: Suite, identity: Bytes, sessions: map<Device, DR.State>, b: Bundle, dice: Dice): DR.State {
    if b.deviceId in sessions then sessions[b.deviceId]
    else DR.AliceStart(c, X3dh.AliceSecret(c, identity, dice.ephemeral, b.identityPub, b.prekeyPub, FirstOneTime(b)),
                       b.prekeyPub, dice.ratchet)
  }

  function EphemeralFor(c: Suite, sessions: map<Device, DR.State>, b: Bundle, dice: Dice): Option<Bytes> {
    if b.deviceId in sessions then None else Some(PublicKey(c, dice.ephemeral))
  }

  datatype FanOutResult = FanOutResult(sessions: map<Device, DR.State>, envelopes: seq<Envelope>, ok: bool)

  /** Encrypt the payload to each target in turn, saving each pairwise session; stop at one that cannot send. */
  function FanOut(c: Suite, identity: Bytes, sessions: map<Device, DR.State>, targets: seq<Bundle>,
                  payload: Bytes, dice: seq<Dice>): FanOutResult
    requires |dice| >= |targets|
    decreases |targets|
  {
    if targets == [] then FanOutResult(sessions, [], true)
    else
      var b := targets[0];
      var (sent, s) := DR.EncryptStep(c, SessionWith(c, identity, sessions, b, dice[0]), payload, dice[0].nonce);
      if sent.NotSent? then FanOutResult(sessions, [], false)
      else
        var rest := FanOut(c, identity, sessions[b.deviceId := s], targets[1..], payload, dice[1..]);
        rest.(envelopes := [Envelope(b.deviceId, EphemeralFor(c, sessions, b, dice[0]), sent.wire)] + rest.envelopes)
  }

  /** One turn of the envelope loop, seen from the target at position i. */
  lemma FanOutNext(c: Suite, identity: Bytes, sessions: map<Device, DR.State>, targets: seq<Bundle>,
                   payload: Bytes, dice: seq<Dice>, i: nat)
    requires |dice| >= |targets| && i < |targets|
    ensures var b := targets[i];
      var (sent, s) := DR.EncryptStep(c, SessionWith(c, identity, sessions, b, dice[i]), payload, dice[i].nonce);
      var r := FanOut(c, identity, sessions, targets[i..], payload, dice[i..]);
      if sent.NotSent? then r == FanOutResult(sessions, [], false)
      else
        var rest := FanOut(c, identity, sessions[b.deviceId := s], targets[i + 1..], payload, dice[i + 1..]);
        r == rest.(envelopes := [Envelope(b.deviceId, EphemeralFor(c, sessions, b, dice[i]), sent.wire)]
                                + rest.envelopes)
  {
    assert targets[i..][1..] == targets[i + 1..] && dice[i..][1..] == dice[i + 1..];
  }

  /** Each target gets its envelope, in order; no other device's session is touched. */
  lemma {:induction false} FanOutCoversTargets(c: Suite, identity: Bytes, sessions: map<Device, DR.State>,
                                               targets: seq<Bundle>, payload: Bytes, dice: seq<Dice>)
    requires |dice| >= |targets|
    ensures var r := FanOut(c, identity, sessions, targets, payload, dice);
      && |r.envelopes| <= |targets| && (r.ok ==> |r.envelopes| == |targets|)
      && (forall i :: 0 <= i < |r.envelopes| ==> r.envelopes[i].recipient == targets[i].deviceId)
      && (forall x :: x !in Ids(targets) ==>
            (x in r.sessions <==> x in sessions) && (x in sessions ==> r.sessions[x] == sessions[x]))
    decreases |targets|
  {
    hide SessionWith;
    hide EphemeralFor;
    hide DR.EncryptStep;
    if targets != [] {
      var b := targets[0];
      var (sent, s) := DR.EncryptStep(c, SessionWith(c, identity, sessions, b, dice[0]), payload, dice[0].nonce);
      if sent.Sent? {
        FanOutCoversTargets(c, identity, sessions[b.deviceId := s], targets[1..], payload, dice[1..]);
      }
    }
  }

  /** The pairwise sessions when the turn of target i comes. */
  function SessionsAt(c: Suite, identity: Bytes, sessions: map<Device, DR.State>, targets: seq<Bundle>,
                      payload: Bytes, dice: seq<Dice>, i: nat): map<Device, DR.State>
    requires |dice| >= |targets| && i <= |targets|
  {
    FanOut(c, identity, sessions, targets[..i], payload, dice[..i]).sessions
  }

  /** Envelope i is the payload encrypted with the session that target i has at its turn. */
  lemma {:induction false} FanOutAt(c: Suite, identity: Bytes, sessions: map<Device, DR.State>, targets: seq<Bundle>,
                                    payload: Bytes, dice: seq<Dice>, i: nat)
    requires |dice| >= |targets|
    requires i < |FanOut(c, identity, sessions, targets, payload, dice).envelopes|
    ensures i < |targets|
    ensures var r := FanOut(c, identity, sessions, targets, payload, dice);
      var at := SessionsAt(c, identity, sessions, targets, payload, dice, i);
      var (sent, s) := DR.EncryptStep(c, SessionWith(c, identity, at, targets[i], dice[i]), payload, dice[i].nonce);
      && sent.Sent?
      && r.envelopes[i] == Envelope(targets[i].deviceId, EphemeralFor(c, at, targets[i], dice[i]), sent.wire)
      && SessionsAt(c, identity, sessions, targets, payload, dice, i + 1) == at[targets[i].deviceId := s]
    decreases |targets|
  {
    hide SessionWith;
    hide EphemeralFor;
    hide DR.EncryptStep;
    var b := targets[0];
    var (sent, s) := DR.EncryptStep(c, SessionWith(c, identity, sessions, b, dice[0]), payload, dice[0].nonce);
    if i == 0 {
      assert targets[..1] == [b] && dice[..1] == [dice[0]];
      assert FanOut(c, identity, sessions[b.deviceId := s], [b][1..], payload, [dice[0]][1..]).sessions
          == sessions[b.deviceId := s];
    } else {
      FanOutAt(c, identity, sessions[b.deviceId := s], targets[1..], payload, dice[1..], i - 1);
      assert targets[..i][1..] == targets[1..][..i - 1] && dice[..i][1..] == dice[1..][..i - 1];
      assert targets[..i + 1][1..] == targets[1..][..i] && dice[..i + 1][1..] == dice[1..][..i];
    }
  }

  /** A device met for the first time can read its envelope with the keys it registered. */
  lemma FirstEnvelopeOpens(c: Suite, identity: Bytes, b: Bundle, dice: Dice, payload: Bytes,
                           bobIdentity: Bytes, bobPrekey: Bytes, bobOneTime: Option<Bytes>, newSecret: Bytes)
    requires |dice.nonce| == NONCE_LENGTH
    requires b.identityPub == PublicKey(c, bobIdentity) && b.prekeyPub == PublicKey(c, bobPrekey)
    requires FirstOneTime(b) == X3dh.PublicHalf(c, bobOneTime)
    requires bobOneTime.Some? ==> bobOneTime.value != []
    ensures var (sent, _) := DR.EncryptStep(c, SessionWith(c, identity, map[], b, dice), payload, dice.nonce);
      && sent.Sent?
      && var bob := DR.BobStart(c, X3dh.BobSecret(c, bobIdentity, bobPrekey, PublicKey(c, identity),
                                                  PublicKey(c, dice.ephemeral), bobOneTime), bobPrekey);
      DR.DecryptStep(c, bob, sent.wire, newSecret).0 == DR.Plain(payload)
  {
    X3dh.Agreement(c, identity, dice.ephemeral, bobIdentity, bobPrekey, bobOneTime);
    var master := X3dh.BobSecret(c, bobIdentity, bobPrekey, PublicKey(c, identity),
                                 PublicKey(c, dice.ephemeral), bobOneTime);
    RatchetKeys.FirstMessageOpens(c, master, dice.ratchet, bobPrekey, payload, dice.nonce, newSecret);
  }

  // ---- one send ----

  /** The sender key session after handing it out and encrypting the payload with it. */
  function EncryptWith(c: Suite, saved: Option<SK.State>, recipients: seq<Bundle>, newSession: SK.State,
                       payload: Bytes, nonce: Bytes): (SK.Sent, SK.State)
  {
    var (session, _, targets) := Decide(saved, recipients, newSession);
    SK.EncryptStep(c, Shared(session, targets), payload, nonce)
  }

  /** What a send returns, the sender key and pairwise sessions it saves, and the envelopes it hands to the relay. */
  datatype Sending = Sending(result: SendResult, savedKey: Option<SK.State>, sessions: map<Device, DR.State>,
                             batch: seq<Envelope>)

  /** One send to the recipients. */
  function SendStep(c: Suite, identity: Bytes, saved: Option<SK.State>, sessions: map<Device, DR.State>,
                    recipients: seq<Bundle>, newSession: SK.State, payload: Bytes, nonce: Bytes,
                    dice: seq<Dice>, encode: SK.Distribution -> Bytes, relay: Relay): Sending
    requires |dice| >= |recipients|
  {
    var (session, _, targets) := Decide(saved, recipients, newSession);
    if recipients == [] then Sending(NoRecipients, saved, sessions, [])
    else
      var fan := FanOut(c, identity, sessions, targets, encode(SK.MakeDistribution(session)), dice);
      var (sent, session') := EncryptWith(c, saved, recipients, newSession, payload, nonce);
      if !fan.ok then Sending(SessionCannotSend, saved, fan.sessions, [])
      else if targets != [] && relay == BatchRejected then Sending(BatchFailed, saved, fan.sessions, fan.envelopes)
      else if sent.NotSent? then Sending(SigningKeyMissing, saved, fan.sessions, fan.envelopes)
      else Sending(if relay == PostRejected then PostFailed else Posted(sent.message), Some(session'), fan.sessions,
                   fan.envelopes)
  }

  class GroupSender {
    var savedKey: Option<SK.State>
    var sessions: map<Device, DR.State>
    const self: Device
    const groupId: string
    const identity: Bytes

    constructor (self: Device, groupId: string, identity: Bytes)
      ensures savedKey == None && sessions == map[]
      ensures this.self == self && this.groupId == groupId && this.identity == identity
    {
      this.self, this.groupId, this.identity := self, groupId, identity;
      savedKey, sessions := None, map[];
    }

    /** The envelope loop; false when a pairwise session could not send. */
    method Distribute(c: Suite, targets: seq<Bundle>, payload: Bytes, dice: seq<Dice>)
      returns (envelopes: seq<Envelope>, ok: bool)
      requires |dice| >= |targets|
      modifies this`sessions
      ensures FanOutResult(sessions, envelopes, ok) == FanOut(c, identity, old(sessions), targets, payload, dice)
    {
      envelopes := [];
      var i := 0;
      hide SessionWith;
      hide EphemeralFor;
      hide DR.EncryptStep;
      assert targets[0..] == targets && dice[0..] == dice;
      while i < |targets|
        invariant 0 <= i <= |targets|
        invariant FanOut(c, identity, old(sessions), targets, payload, dice)
          == var rest := FanOut(c, identity, sessions, targets[i..], payload, dice[i..]);
             rest.(envelopes := envelopes + rest.envelopes)
      {
        var b := targets[i];
        FanOutNext(c, identity, sessions, targets, payload, dice, i);
        hide FanOut;
        var session := new DR.DoubleRatchetSession(SessionWith(c, identity, sessions, b, dice[i]));
        var sent := session.Encrypt(c, payload, dice[i].nonce);
        if sent.NotSent? {
          return envelopes, false;
        }
        var envelope := Envelope(b.deviceId, EphemeralFor(c, sessions, b, dice[i]), sent.wire);
        sessions := sessions[b.deviceId := session.state];
        envelopes := envelopes + [envelope];
        i := i + 1;
      }
      return envelopes, true;
    }

    /**
     * Send a payload to all member devices. The relay's answers, the fresh key
     * material and the JSON encoding of a distribution message are parameters; the batch
     * of distribution envelopes that the relay is asked to accept is returned.
     */
    method Send(c: Suite, bundles: seq<Bundle>, payload: Bytes, newChainKey: Bytes, newSignSecret: Bytes,
                nonce: Bytes, dice: seq<Dice>, encode: SK.Distribution -> Bytes, relay: Relay)
      returns (r: SendResult, batch: seq<Envelope>)
      requires |dice| >= |bundles|
      modifies this
      ensures Sending(r, savedKey, sessions, batch)
        == SendStep(c, identity, old(savedKey), old(sessions), Recipients(bundles, self),
                    SK.Create(c, groupId, self, newChainKey, newSignSecret), payload, nonce, dice, encode, relay)
    {
      var recipients := Recipients(bundles, self);
      batch := [];
      if recipients == [] {
        return NoRecipients, batch;
      }
      var newSession := SK.Create(c, groupId, self, newChainKey, newSignSecret);
      var (session, _, targets) := Decide(savedKey, recipients, newSession);
      var senderKey := new SK.SenderKeySession(session);
      if targets != [] {
        var envelopes, ok := Distribute(c, targets, encode(SK.MakeDistribution(session)), dice);
        if !ok {
          return SessionCannotSend, batch;
        }
        batch := envelopes;
        if relay == BatchRejected {
          return BatchFailed, batch;
        }
        senderKey.state := senderKey.state.(
          sharedWith := AddAll(AddAll([], senderKey.state.sharedWith), Ids(targets)));
      }
      var sent := senderKey.Encrypt(c, payload, nonce);
      if sent.NotSent? {
        return SigningKeyMissing, batch;
      }
      savedKey := Some(senderKey.state);
      return if relay == PostRejected then PostFailed else Posted(sent.message), batch;
    }
  }
}
