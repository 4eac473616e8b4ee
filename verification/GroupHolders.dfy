/**
 * Which devices hold which sender key over a whole run of joins, removals and
 * sends, with the distribution envelopes of accepted batches delivered.
 */
module GroupHolders {
  import opened Common
  import opened Primitives
  import opened GroupFanout
  import DR = DoubleRatchet
  import SK = SenderKey
  import Order = SenderKeyOrder

  /** A distribution message that reached a device, with the number of the chain it belongs to. */
  datatype Handout = Handout(chain: nat, device: Device, dist: SK.Distribution)

  /** A posted group message, its chain and signing key, the devices it was meant for and what went into it. */
  datatype Post = Post(chain: nat, signPub: Bytes, recipients: set<Device>,
                       plaintext: Bytes, nonce: Bytes, message: SK.Message)

  /** The saved sender key, the number of chains created so far, and the history of the run. */
  datatype World = World(saved: Option<SK.State>, chain: nat, handed: seq<Handout>, posted: seq<Post>)

  /** One send; `paired` says whether every pairwise session it needed could send. */
  datatype Step = Step(bundles: seq<Bundle>, payload: Bytes, nonce: Bytes,
                       newChainKey: Bytes, newSignSecret: Bytes, paired: bool, relay: Relay)

  function DeviceSet(bundles: seq<Bundle>): (r: set<Device>)
    ensures forall x :: x in r <==> x in Ids(bundles)
  {
    set x | x in Ids(bundles)
  }

  function Handouts(chain: nat, targets: seq<Bundle>, d: SK.Distribution): (r: seq<Handout>)
    ensures forall h :: h in r <==> h.chain == chain && h.dist == d && h.device in Ids(targets)
    ensures |r| == |targets|
    ensures forall i :: 0 <= i < |targets| ==> r[i] == Handout(chain, targets[i].deviceId, d)
  {
    if targets == [] then []
    else
      assert Ids(targets) == [targets[0].deviceId] + Ids(targets[1..]);
      [Handout(chain, targets[0].deviceId, d)] + Handouts(chain, targets[1..], d)
  }

  function Next(c: Suite, self: Device, groupId: string, w: World, st: Step): World {
    var recipients := Recipients(st.bundles, self);
    var newSession := SK.Create(c, groupId, self, st.newChainKey, st.newSignSecret);
    var (session, isNew, targets) := Decide(w.saved, recipients, newSession);
    var (sent, session') := EncryptWith(c, w.saved, recipients, newSession, st.payload, st.nonce);
    if recipients == [] || (targets != [] && (!st.paired || st.relay == BatchRejected)) || sent.NotSent? then w
    else
      var chain := if isNew then w.chain + 1 else w.chain;
      World(Some(session'), chain,
            w.handed + Handouts(chain, targets, SK.MakeDistribution(session)),
            if st.relay == PostRejected then w.posted
            else w.posted + [Post(chain, session.signPub, DeviceSet(recipients),
                                  st.payload, st.nonce, sent.message)])
  }

  /**
   * A step of the run is a send: the same sender key is saved, and a message is posted exactly if
   * the send returns it. `paired` is whether the envelope loop got through.
   */
  lemma NextIsSend(c: Suite, self: Device, groupId: string, identity: Bytes, w: World, st: Step,
                   sessions: map<Device, DR.State>, dice: seq<Dice>, encode: SK.Distribution -> Bytes)
    requires |dice| >= |st.bundles|
    requires var recipients := Recipients(st.bundles, self);
      var newSession := SK.Create(c, groupId, self, st.newChainKey, st.newSignSecret);
      var (session, _, targets) := Decide(w.saved, recipients, newSession);
      st.paired == FanOut(c, identity, sessions, targets, encode(SK.MakeDistribution(session)), dice).ok
    ensures var recipients := Recipients(st.bundles, self);
      var sending := SendStep(c, identity, w.saved, sessions, recipients,
                              SK.Create(c, groupId, self, st.newChainKey, st.newSignSecret),
                              st.payload, st.nonce, dice, encode, st.relay);
      var w' := Next(c, self, groupId, w, st);
      && w'.saved == sending.savedKey
      && (sending.result.Posted? <==> w'.posted != w.posted)
      && (sending.result.Posted? ==>
            |w'.posted| == |w.posted| + 1 && w'.posted[|w.posted|].message == sending.result.message)
  {
    hide EncryptWith;
    hide FanOut;
    hide Decide;
    hide SK.Create;
    hide SK.MakeDistribution;
    hide Recipients;
    hide Handouts;
    var newSession := SK.Create(c, groupId, self, st.newChainKey, st.newSignSecret);
    var (session, _, targets) := Decide(w.saved, Recipients(st.bundles, self), newSession);
    if targets == [] {
      FanOutNothing(c, identity, sessions, encode(SK.MakeDistribution(session)), dice);
    }
  }

  /**
   * What the books gain in a step are the envelopes of its batch, one by one; when the send stops
   * earlier they gain nothing.
   */
  lemma BatchIsBooked(c: Suite, self: Device, groupId: string, identity: Bytes, w: World, st: Step,
                      sessions: map<Device, DR.State>, dice: seq<Dice>, encode: SK.Distribution -> Bytes)
    requires |dice| >= |st.bundles|
    requires var recipients := Recipients(st.bundles, self);
      var newSession := SK.Create(c, groupId, self, st.newChainKey, st.newSignSecret);
      var (session, _, targets) := Decide(w.saved, recipients, newSession);
      st.paired == FanOut(c, identity, sessions, targets, encode(SK.MakeDistribution(session)), dice).ok
    ensures var recipients := Recipients(st.bundles, self);
      var sending := SendStep(c, identity, w.saved, sessions, recipients,
                              SK.Create(c, groupId, self, st.newChainKey, st.newSignSecret),
                              st.payload, st.nonce, dice, encode, st.relay);
      var w' := Next(c, self, groupId, w, st);
      if sending.result.Posted? || sending.result.PostFailed? then
        && |w'.handed| == |w.handed| + |sending.batch| && w.handed <= w'.handed
        && forall i :: 0 <= i < |sending.batch| ==> w'.handed[|w.handed| + i].device == sending.batch[i].recipient
      else w' == w
  {
    hide EncryptWith;
    hide FanOut;
    hide Decide;
    hide SK.Create;
    hide Recipients;
    hide Handouts;
    var newSession := SK.Create(c, groupId, self, st.newChainKey, st.newSignSecret);
    var (session, _, targets) := Decide(w.saved, Recipients(st.bundles, self), newSession);
    FanOutCoversTargets(c, identity, sessions, targets, encode(SK.MakeDistribution(session)), dice);
    if targets == [] {
      FanOutNothing(c, identity, sessions, encode(SK.MakeDistribution(session)), dice);
    }
    hide SK.MakeDistribution;
  }

  lemma FanOutNothing(c: Suite, identity: Bytes, sessions: map<Device, DR.State>, payload: Bytes, dice: seq<Dice>)
    ensures FanOut(c, identity, sessions, [], payload, dice) == FanOutResult(sessions, [], true)
  {
  }

  function Run(c: Suite, self: Device, groupId: string, w: World, steps: seq<Step>): World
    decreases |steps|
  {
    if steps == [] then w else Run(c, self, groupId, Next(c, self, groupId, w, steps[0]), steps[1..])
  }

  const EMPTY: World := World(None, 0, [], [])

  ghost predicate ValidSteps(steps: seq<Step>) {
    forall i :: 0 <= i < |steps| ==> |steps[i].nonce| == NONCE_LENGTH
  }

  /** The devices handed chain number `chain` at or before an iteration. */
  ghost function Holders(handed: seq<Handout>, chain: nat, iteration: nat): set<Device> {
    set h | h in handed && h.chain == chain && h.dist.iteration <= iteration :: h.device
  }

  // ---- the invariant ----

  /** The distribution message leads to the sender's present place on its chain. */
  ghost predicate LeadsTo(c: Suite, d: SK.Distribution, s: SK.State) {
    && d.iteration <= s.iteration
    && d.signPub == s.signPub
    && s.chainKey == SK.ChainKey(c, d.chainKey, s.iteration - d.iteration)
  }

  ghost predicate HandedOk(c: Suite, s: SK.State, chain: nat, h: Handout) {
    h.chain <= chain && (h.chain == chain ==> LeadsTo(c, h.dist, s) && h.device in s.sharedWith)
  }

  /** Those who hold the key of a post, at its iteration or before, are its recipients, and it opens for them. */
  ghost predicate PostOk(c: Suite, handed: seq<Handout>, p: Post) {
    && Holders(handed, p.chain, p.message.iteration) == p.recipients
    && forall h :: h in handed && h.chain == p.chain && h.dist.iteration <= p.message.iteration ==>
         Order.Genuine(c, h.dist, p.message, p.plaintext, p.nonce)
  }

  ghost predicate SavedOk(c: Suite, s: SK.State, chain: nat, handed: seq<Handout>, posted: seq<Post>) {
    && Order.Sender(c, s)
    && (forall h :: h in handed ==> HandedOk(c, s, chain, h))
    && (forall x :: x in s.sharedWith ==> x in Holders(handed, chain, s.iteration))
    && (forall p :: p in posted ==> p.chain <= chain && (p.chain == chain ==> p.message.iteration < s.iteration))
  }

  ghost predicate Inv(c: Suite, w: World) {
    && (w.saved.None? ==> w.chain == 0 && w.handed == [] && w.posted == [])
    && (w.saved.Some? ==> SavedOk(c, w.saved.value, w.chain, w.handed, w.posted))
    && (forall p :: p in w.posted ==> PostOk(c, w.handed, p))
  }

  /** Later handouts, on a new chain or at a later iteration, do not concern a post. */
  lemma PostUnaffected(c: Suite, handed: seq<Handout>, more: seq<Handout>, p: Post)
    requires PostOk(c, handed, p)
    requires forall h :: h in more ==> h.chain != p.chain || h.dist.iteration > p.message.iteration
    ensures PostOk(c, handed + more, p)
  {
    assert Holders(handed + more, p.chain, p.message.iteration) == Holders(handed, p.chain, p.message.iteration);
  }

  /** What a holder was given opens the message encrypted at the sender's present place. */
  lemma HolderCanOpen(c: Suite, d: SK.Distribution, s: SK.State, payload: Bytes, nonce: Bytes)
    requires Order.Sender(c, s) && LeadsTo(c, d, s) && |nonce| == NONCE_LENGTH
    ensures var m := SK.EncryptStep(c, s, payload, nonce).0.message;
      Order.Genuine(c, d, m, payload, nonce)
  {
    var m := SK.EncryptStep(c, s, payload, nonce).0.message;
    SignedVerifies(c, m.ciphertext, s.signPriv.value);
  }

  lemma LeadsToNext(c: Suite, d: SK.Distribution, s: SK.State, payload: Bytes, nonce: Bytes)
    requires Order.Sender(c, s) && LeadsTo(c, d, s)
    ensures LeadsTo(c, d, SK.EncryptStep(c, s, payload, nonce).1)
  {
  }

  /** Handing the session to the targets: the devices sharing it are then exactly the recipients. */
  lemma SharedIsRecipients(c: Suite, saved: Option<SK.State>, recipients: seq<Bundle>, newSession: SK.State)
    requires newSession.sharedWith == [] && recipients != []
    ensures var (session, _, targets) := Decide(saved, recipients, newSession);
      var s := Shared(session, targets);
      && s == session.(sharedWith := s.sharedWith)
      && (forall x :: x in s.sharedWith <==> x in Ids(recipients))
      && (forall x :: x in s.sharedWith <==> x in session.sharedWith || x in Ids(targets))
  {
    var (session, _, targets) := Decide(saved, recipients, newSession);
    if targets == [] {
      forall b | b in recipients ensures b.deviceId in session.sharedWith {
        assert b !in targets;
      }
    }
    forall x | x in Ids(recipients) && x !in session.sharedWith ensures x in Ids(targets) {
      var b :| b in recipients && b.deviceId == x;
      assert b in targets;
    }
  }

  /** The handouts of this send agree with the session handed out. */
  lemma HandoutsLead(c: Suite, chain: nat, targets: seq<Bundle>, session: SK.State, h: Handout)
    requires h in Handouts(chain, targets, SK.MakeDistribution(session))
    ensures h.chain == chain && h.dist.iteration == session.iteration
    ensures LeadsTo(c, h.dist, session) && h.device in Ids(targets)
  {
  }

  /** Before the payload is encrypted: the session in use, with its handouts made. */
  ghost predicate Prepared(c: Suite, s: SK.State, chain: nat, handed: seq<Handout>, posted: seq<Post>,
                           recipients: seq<Bundle>)
  {
    && SavedOk(c, s, chain, handed, posted)
    && (forall p :: p in posted ==> PostOk(c, handed, p))
    && (forall x :: x in s.sharedWith <==> x in Ids(recipients))
  }

  lemma PrepareReused(c: Suite, w: World, recipients: seq<Bundle>, newSession: SK.State)
    requires Inv(c, w) && recipients != [] && newSession.sharedWith == []
    requires !Decide(w.saved, recipients, newSession).1
    ensures var (session, _, targets) := Decide(w.saved, recipients, newSession);
      Prepared(c, Shared(session, targets), w.chain,
               w.handed + Handouts(w.chain, targets, SK.MakeDistribution(session)), w.posted, recipients)
  {
    var (session, _, targets) := Decide(w.saved, recipients, newSession);
    var s := Shared(session, targets);
    var more := Handouts(w.chain, targets, SK.MakeDistribution(session));
    SharedIsRecipients(c, w.saved, recipients, newSession);
    forall p | p in w.posted ensures PostOk(c, w.handed + more, p) {
      PostUnaffected(c, w.handed, more, p);
    }
    SharedAreHolders(c, w, session, s, targets);
  }

  lemma SharedAreHolders(c: Suite, w: World, session: SK.State, s: SK.State, targets: seq<Bundle>)
    requires SavedOk(c, session, w.chain, w.handed, w.posted)
    requires s == session.(sharedWith := s.sharedWith)
    requires forall x :: x in s.sharedWith <==> x in session.sharedWith || x in Ids(targets)
    ensures SavedOk(c, s, w.chain, w.handed + Handouts(w.chain, targets, SK.MakeDistribution(session)), w.posted)
  {
    var more := Handouts(w.chain, targets, SK.MakeDistribution(session));
    hide Handouts;
    hide Holders;
    forall x | x in s.sharedWith ensures x in Holders(w.handed + more, w.chain, s.iteration) {
      SharedIsHolder(w.handed, w.chain, session, targets, x);
    }
    forall h | h in w.handed + more ensures HandedOk(c, s, w.chain, h) {
      HandedOver(c, w, session, s, targets, h);
    }
    hide HandedOk;
  }

  lemma HandedOver(c: Suite, w: World, session: SK.State, s: SK.State, targets: seq<Bundle>, h: Handout)
    requires SavedOk(c, session, w.chain, w.handed, w.posted)
    requires s == session.(sharedWith := s.sharedWith)
    requires forall x :: x in s.sharedWith <==> x in session.sharedWith || x in Ids(targets)
    requires h in w.handed || h in Handouts(w.chain, targets, SK.MakeDistribution(session))
    ensures HandedOk(c, s, w.chain, h)
  {
    if h in w.handed {
      assert HandedOk(c, session, w.chain, h);
    } else {
      HandoutsLead(c, w.chain, targets, session, h);
    }
  }

  lemma SharedIsHolder(handed: seq<Handout>, chain: nat, session: SK.State, targets: seq<Bundle>, x: Device)
    requires x in Holders(handed, chain, session.iteration) || x in Ids(targets)
    ensures x in Holders(handed + Handouts(chain, targets, SK.MakeDistribution(session)), chain, session.iteration)
  {
    if x in Ids(targets) {
      assert Handout(chain, x, SK.MakeDistribution(session))
          in Handouts(chain, targets, SK.MakeDistribution(session));
    } else {
      var h :| h in handed && h.chain == chain && h.dist.iteration <= session.iteration && h.device == x;
    }
  }

  lemma PrepareNew(c: Suite, w: World, recipients: seq<Bundle>, newSession: SK.State)
    requires Inv(c, w) && recipients != [] && newSession.sharedWith == [] && Order.Sender(c, newSession)
    requires Decide(w.saved, recipients, newSession).1
    ensures Prepared(c, Shared(newSession, recipients), w.chain + 1,
                     w.handed + Handouts(w.chain + 1, recipients, SK.MakeDistribution(newSession)),
                     w.posted, recipients)
  {
    var chain := w.chain + 1;
    var s := Shared(newSession, recipients);
    var more := Handouts(chain, recipients, SK.MakeDistribution(newSession));
    SharedIsRecipients(c, w.saved, recipients, newSession);
    hide *;
    NothingOnNewChain(c, w, newSession);
    SharedAreHolders(c, w.(chain := chain), newSession, s, recipients);
    forall p | p in w.posted ensures PostOk(c, w.handed + more, p) {
      NothingPostedYet(c, w, p);
      PostUnaffected(c, w.handed, more, p);
    }
    PreparedOf(c, s, chain, w.handed + more, w.posted, recipients);
  }

  lemma PreparedOf(c: Suite, s: SK.State, chain: nat, handed: seq<Handout>, posted: seq<Post>,
                   recipients: seq<Bundle>)
    requires SavedOk(c, s, chain, handed, posted)
    requires forall p :: p in posted ==> PostOk(c, handed, p)
    requires forall x :: x in s.sharedWith <==> x in Ids(recipients)
    ensures Prepared(c, s, chain, handed, posted, recipients)
  {
  }

  lemma NothingOnNewChain(c: Suite, w: World, newSession: SK.State)
    requires Inv(c, w) && newSession.sharedWith == [] && Order.Sender(c, newSession)
    ensures SavedOk(c, newSession, w.chain + 1, w.handed, w.posted)
  {
    forall h | h in w.handed ensures HandedOk(c, newSession, w.chain + 1, h) {
      assert HandedOk(c, w.saved.value, w.chain, h);
    }
  }

  lemma NothingPostedYet(c: Suite, w: World, p: Post)
    requires Inv(c, w) && p in w.posted
    ensures PostOk(c, w.handed, p) && p.chain <= w.chain
  {
  }

  /** Encrypting the payload keeps the session's books and yields a post that only the recipients can open. */
  lemma PostPrepared(c: Suite, s: SK.State, chain: nat, handed: seq<Handout>, posted: seq<Post>,
                     recipients: seq<Bundle>, payload: Bytes, nonce: Bytes)
    requires Prepared(c, s, chain, handed, posted, recipients) && |nonce| == NONCE_LENGTH
    ensures var (sent, s') := SK.EncryptStep(c, s, payload, nonce);
      && sent.Sent?
      && var p := Post(chain, s.signPub, DeviceSet(recipients), payload, nonce, sent.message);
      && PostOk(c, handed, p)
      && SavedOk(c, s', chain, handed, posted + [p])
      && SavedOk(c, s', chain, handed, posted)
  {
    var (sent, s') := SK.EncryptStep(c, s, payload, nonce);
    var p := Post(chain, s.signPub, DeviceSet(recipients), payload, nonce, sent.message);
    forall h | h in handed ensures HandedOk(c, s', chain, h) {
      assert HandedOk(c, s, chain, h);
      if h.chain == chain {
        LeadsToNext(c, h.dist, s, payload, nonce);
      }
    }
    forall h | h in handed && h.chain == chain ensures Order.Genuine(c, h.dist, sent.message, payload, nonce) {
      assert HandedOk(c, s, chain, h);
      HolderCanOpen(c, h.dist, s, payload, nonce);
    }
    HoldersAreRecipients(c, s, chain, handed, posted, recipients);
    forall x | x in s'.sharedWith ensures x in Holders(handed, chain, s'.iteration) {
      assert x in Holders(handed, chain, s.iteration);
    }
  }

  lemma HoldersAreRecipients(c: Suite, s: SK.State, chain: nat, handed: seq<Handout>, posted: seq<Post>,
                             recipients: seq<Bundle>)
    requires Prepared(c, s, chain, handed, posted, recipients)
    ensures Holders(handed, chain, s.iteration) == DeviceSet(recipients)
  {
    forall x | x in Holders(handed, chain, s.iteration) ensures x in Ids(recipients) {
      var h :| h in handed && h.chain == chain && h.dist.iteration <= s.iteration && h.device == x;
      assert HandedOk(c, s, chain, h);
    }
  }

  lemma NextKeepsInv(c: Suite, self: Device, groupId: string, w: World, st: Step)
    requires Inv(c, w) && |st.nonce| == NONCE_LENGTH
    ensures Inv(c, Next(c, self, groupId, w, st))
  {
    var recipients := Recipients(st.bundles, self);
    var newSession := SK.Create(c, groupId, self, st.newChainKey, st.newSignSecret);
    var (session, isNew, targets) := Decide(w.saved, recipients, newSession);
    if Next(c, self, groupId, w, st) != w {
      hide Decide;
      hide Shared;
      hide Handouts;
      hide PostOk;
      hide SavedOk;
      hide SK.EncryptStep;
      hide SK.MakeDistribution;
      hide SK.Create;
      hide Recipients;
      var chain := if isNew then w.chain + 1 else w.chain;
      if isNew {
        PrepareNew(c, w, recipients, newSession);
      } else {
        PrepareReused(c, w, recipients, newSession);
      }
      PostPrepared(c, Shared(session, targets), chain,
                   w.handed + Handouts(chain, targets, SK.MakeDistribution(session)), w.posted,
                   recipients, st.payload, st.nonce);
    }
  }

  /** A step changes nothing, or adds to the books only under the session it used and that one's chain. */
  lemma NextShape(c: Suite, self: Device, groupId: string, w: World, st: Step)
    ensures var newSession := SK.Create(c, groupId, self, st.newChainKey, st.newSignSecret);
      var (session, isNew, targets) := Decide(w.saved, Recipients(st.bundles, self), newSession);
      var chain := if isNew then w.chain + 1 else w.chain;
      var w' := Next(c, self, groupId, w, st);
      w' == w || (
        && w'.saved.Some? && w'.saved.value.signPub == session.signPub && w'.chain == chain
        && w'.handed == w.handed + Handouts(chain, targets, SK.MakeDistribution(session))
        && w.posted <= w'.posted
        && forall p :: p in w'.posted ==> p in w.posted || (p.chain == chain && p.signPub == session.signPub))
  {
    hide Handouts;
    hide Recipients;
    hide Decide;
  }

  lemma EncryptsInPlace(c: Suite, saved: Option<SK.State>, recipients: seq<Bundle>, newSession: SK.State,
                        payload: Bytes, nonce: Bytes)
    ensures var (session, _, _) := Decide(saved, recipients, newSession);
      var sent := EncryptWith(c, saved, recipients, newSession, payload, nonce).0;
      sent.Sent? ==> sent.message.iteration == session.iteration
  {
    hide Decide;
  }

  /** A step that posts adds one post, at the place of the session it used. */
  lemma NewPostIs(c: Suite, self: Device, groupId: string, w: World, st: Step)
    requires Next(c, self, groupId, w, st).posted != w.posted
    ensures var (session, isNew, targets) := Decide(w.saved, Recipients(st.bundles, self),
                                                    SK.Create(c, groupId, self, st.newChainKey, st.newSignSecret));
      var w' := Next(c, self, groupId, w, st);
      && |w'.posted| == |w.posted| + 1
      && var p := w'.posted[|w.posted|];
      && p.chain == (if isNew then w.chain + 1 else w.chain) && p.message.iteration == session.iteration
      && p.plaintext == st.payload && p.nonce == st.nonce
  {
    EncryptsInPlace(c, w.saved, Recipients(st.bundles, self),
                    SK.Create(c, groupId, self, st.newChainKey, st.newSignSecret), st.payload, st.nonce);
    hide Decide;
    hide EncryptWith;
    hide Recipients;
    hide Handouts;
    hide SK.Create;
  }

  /** What a step hands out and what it posts belong together. */
  lemma NewPost(c: Suite, self: Device, groupId: string, w: World, st: Step, j: nat)
    requires var w' := Next(c, self, groupId, w, st);
      w'.posted != w.posted && |w.handed| <= j < |w'.handed|
    ensures var w' := Next(c, self, groupId, w, st);
      && |w'.posted| == |w.posted| + 1
      && var h, p := w'.handed[j], w'.posted[|w.posted|];
      && h.chain == p.chain && h.dist.iteration == p.message.iteration
      && p.plaintext == st.payload && p.nonce == st.nonce
  {
    NewPostIs(c, self, groupId, w, st);
    NextShape(c, self, groupId, w, st);
    hide *;
    var (session, isNew, targets) := Decide(w.saved, Recipients(st.bundles, self),
                                            SK.Create(c, groupId, self, st.newChainKey, st.newSignSecret));
    NewHandout(w.handed, if isNew then w.chain + 1 else w.chain, targets, session, j);
  }

  lemma NewHandout(handed: seq<Handout>, chain: nat, targets: seq<Bundle>, session: SK.State, j: nat)
    requires |handed| <= j < |handed + Handouts(chain, targets, SK.MakeDistribution(session))|
    ensures var h := (handed + Handouts(chain, targets, SK.MakeDistribution(session)))[j];
      h.chain == chain && h.dist.iteration == session.iteration
  {
  }

  lemma {:induction false} RunKeepsInv(c: Suite, self: Device, groupId: string, w: World, steps: seq<Step>)
    requires Inv(c, w) && ValidSteps(steps)
    ensures Inv(c, Run(c, self, groupId, w, steps))
    decreases |steps|
  {
    if steps != [] {
      NextKeepsInv(c, self, groupId, w, steps[0]);
      RunKeepsInv(c, self, groupId, Next(c, self, groupId, w, steps[0]), steps[1..]);
    }
  }

  // ---- the guarantees ----

  /** All devices that were ever handed the chain. */
  ghost function HandedChain(handed: seq<Handout>, chain: nat): set<Device> {
    set h | h in handed && h.chain == chain :: h.device
  }

  lemma PreparedChain(c: Suite, s: SK.State, chain: nat, handed: seq<Handout>, posted: seq<Post>,
                      recipients: seq<Bundle>)
    requires Prepared(c, s, chain, handed, posted, recipients)
    ensures HandedChain(handed, chain) == DeviceSet(recipients)
  {
    HoldersAreRecipients(c, s, chain, handed, posted, recipients);
    forall x | x in HandedChain(handed, chain) ensures x in Holders(handed, chain, s.iteration) {
      var h :| h in handed && h.chain == chain && h.device == x;
      assert HandedOk(c, s, chain, h);
    }
    forall x | x in Holders(handed, chain, s.iteration) ensures x in HandedChain(handed, chain) {
      var h :| h in handed && h.chain == chain && h.dist.iteration <= s.iteration && h.device == x;
    }
  }

  /**
   * Every posted message goes out on a chain that, at that moment, has been handed
   * to exactly the devices it is sent to; a device that was removed is not among them.
   */
  lemma PostsOnRecipientsChain(c: Suite, self: Device, groupId: string, steps: seq<Step>, st: Step)
    requires ValidSteps(steps) && |st.nonce| == NONCE_LENGTH
    ensures var w := Run(c, self, groupId, EMPTY, steps);
      var w' := Next(c, self, groupId, w, st);
      w'.posted != w.posted ==>
        && w'.posted == w.posted + [w'.posted[|w.posted|]]
        && w'.posted[|w.posted|].recipients == DeviceSet(Recipients(st.bundles, self))
        && HandedChain(w'.handed, w'.posted[|w.posted|].chain) == DeviceSet(Recipients(st.bundles, self))
  {
    var w := Run(c, self, groupId, EMPTY, steps);
    RunKeepsInv(c, self, groupId, EMPTY, steps);
    var recipients := Recipients(st.bundles, self);
    var newSession := SK.Create(c, groupId, self, st.newChainKey, st.newSignSecret);
    var (session, isNew, targets) := Decide(w.saved, recipients, newSession);
    var chain := if isNew then w.chain + 1 else w.chain;
    if Next(c, self, groupId, w, st) != w {
      if isNew {
        PrepareNew(c, w, recipients, newSession);
      } else {
        PrepareReused(c, w, recipients, newSession);
      }
      PreparedChain(c, Shared(session, targets), chain,
                    w.handed + Handouts(chain, targets, SK.MakeDistribution(session)), w.posted, recipients);
    }
  }

  /** The devices named by the handouts from position n on. */
  ghost function HandedFrom(handed: seq<Handout>, n: nat): set<Device>
    requires n <= |handed|
  {
    set h | h in handed[n..] :: h.device
  }

  lemma HandedChainIsShared(c: Suite, w: World)
    requires Inv(c, w) && w.saved.Some?
    ensures forall x :: x in HandedChain(w.handed, w.chain) <==> x in w.saved.value.sharedWith
  {
    var s := w.saved.value;
    forall x | x in HandedChain(w.handed, w.chain) ensures x in s.sharedWith {
      var h :| h in w.handed && h.chain == w.chain && h.device == x;
      assert HandedOk(c, s, w.chain, h);
    }
    forall x | x in s.sharedWith ensures x in HandedChain(w.handed, w.chain) {
      var h :| h in w.handed && h.chain == w.chain && h.dist.iteration <= s.iteration && h.device == x;
    }
  }

  /** Whom a decision hands the key: with the fresh session all, with the saved one those it was not shared with. */
  lemma DecideTargetsAre(saved: Option<SK.State>, recipients: seq<Bundle>, newSession: SK.State)
    ensures var (session, isNew, targets) := Decide(saved, recipients, newSession);
      && (isNew <==> saved.None? || exists x :: x in saved.value.sharedWith && x !in Ids(recipients))
      && (forall x :: x in Ids(targets) <==>
            x in Ids(recipients) && (isNew || x !in saved.value.sharedWith))
  {
    var (session, isNew, targets) := Decide(saved, recipients, newSession);
    if !isNew {
      forall x | x in Ids(recipients) && x !in saved.value.sharedWith ensures x in Ids(targets) {
        var b :| b in recipients && b.deviceId == x;
        assert b in targets;
      }
    }
  }

  lemma HandedFromEnd(handed: seq<Handout>, chain: nat, targets: seq<Bundle>, d: SK.Distribution)
    ensures forall x :: x in HandedFrom(handed + Handouts(chain, targets, d), |handed|) <==> x in Ids(targets)
  {
    var more := Handouts(chain, targets, d);
    assert (handed + more)[|handed|..] == more;
    forall x | x in Ids(targets) ensures x in HandedFrom(handed + more, |handed|) {
      assert Handout(chain, x, d) in more;
    }
  }

  /**
   * A send that goes through starts a new chain exactly if there is none yet or some device that was handed
   * the current one is not a recipient; and it hands out the key to exactly the recipients that lack it.
   */
  lemma RotatesExactly(c: Suite, self: Device, groupId: string, steps: seq<Step>, st: Step)
    requires ValidSteps(steps)
    ensures var w := Run(c, self, groupId, EMPTY, steps);
      var w' := Next(c, self, groupId, w, st);
      var recipients, holding := DeviceSet(Recipients(st.bundles, self)), HandedChain(w.handed, w.chain);
      var rotates := w.saved.None? || !(holding <= recipients);
      w' != w ==>
        && w'.chain == (if rotates then w.chain + 1 else w.chain)
        && w.handed <= w'.handed
        && HandedFrom(w'.handed, |w.handed|) == (if rotates then recipients else recipients - holding)
  {
    RunKeepsInv(c, self, groupId, EMPTY, steps);
    var w := Run(c, self, groupId, EMPTY, steps);
    if w.saved.Some? {
      HandedChainIsShared(c, w);
    }
    hide Run;
    NextHandsOut(c, self, groupId, w, st);
  }

  lemma NextHandsOut(c: Suite, self: Device, groupId: string, w: World, st: Step)
    requires w.saved.Some? ==> forall x :: x in HandedChain(w.handed, w.chain) <==> x in w.saved.value.sharedWith
    ensures var w' := Next(c, self, groupId, w, st);
      var recipients, holding := DeviceSet(Recipients(st.bundles, self)), HandedChain(w.handed, w.chain);
      var rotates := w.saved.None? || !(holding <= recipients);
      w' != w ==>
        && w'.chain == (if rotates then w.chain + 1 else w.chain)
        && w.handed <= w'.handed
        && HandedFrom(w'.handed, |w.handed|) == (if rotates then recipients else recipients - holding)
  {
    var recipients := Recipients(st.bundles, self);
    var newSession := SK.Create(c, groupId, self, st.newChainKey, st.newSignSecret);
    var (session, isNew, targets) := Decide(w.saved, recipients, newSession);
    DecideTargetsAre(w.saved, recipients, newSession);
    HandedFromEnd(w.handed, if isNew then w.chain + 1 else w.chain, targets, SK.MakeDistribution(session));
    NextShape(c, self, groupId, w, st);
    hide HandedFrom;
    hide HandedChain;
    hide Next;
    hide Decide;
    hide Recipients;
    hide Handouts;
    hide SK.MakeDistribution;
    hide SK.Create;
  }

  /** Each post stands at a later place, by chain and then by iteration, than those before. */
  ghost predicate PlacesIncrease(posted: seq<Post>) {
    forall j, k :: 0 <= j < k < |posted| ==>
      || posted[j].chain < posted[k].chain
      || (posted[j].chain == posted[k].chain && posted[j].message.iteration < posted[k].message.iteration)
  }

  /**
   * A send that got to encrypt moves its key on, whatever the relay then says of the message: the saved
   * session stands one past the place that was used, and that place is past all posts so far.
   */
  lemma KeyMovesOn(c: Suite, self: Device, groupId: string, w: World, st: Step)
    requires Inv(c, w) && |st.nonce| == NONCE_LENGTH && Next(c, self, groupId, w, st) != w
    ensures var w' := Next(c, self, groupId, w, st);
      && w'.saved.Some? && w'.saved.value.iteration >= 1
      && (w'.chain == w.chain + 1
          || (w'.chain == w.chain && w.saved.Some? && w'.saved.value.iteration == w.saved.value.iteration + 1))
      && (w'.posted == w.posted
          || (w'.posted == w.posted + [w'.posted[|w.posted|]]
              && w'.posted[|w.posted|].chain == w'.chain
              && w'.posted[|w.posted|].message.iteration == w'.saved.value.iteration - 1))
  {
    var recipients := Recipients(st.bundles, self);
    var newSession := SK.Create(c, groupId, self, st.newChainKey, st.newSignSecret);
    var (session, isNew, targets) := Decide(w.saved, recipients, newSession);
    hide Handouts;
    hide Recipients;
    hide AnyRemoved;
    hide Inv;
    hide AddAll;
  }

  /** No two messages of a run are encrypted at the same place of the same chain. */
  lemma {:induction false} RunNeverReusesPlaces(c: Suite, self: Device, groupId: string, w: World, steps: seq<Step>)
    requires Inv(c, w) && ValidSteps(steps) && PlacesIncrease(w.posted)
    ensures PlacesIncrease(Run(c, self, groupId, w, steps).posted)
    decreases |steps|
  {
    if steps != [] {
      var w' := Next(c, self, groupId, w, steps[0]);
      NextKeepsInv(c, self, groupId, w, steps[0]);
      NextKeepsPlaces(c, self, groupId, w, steps[0]);
      hide Next;
      hide Inv;
      hide PlacesIncrease;
      RunNeverReusesPlaces(c, self, groupId, w', steps[1..]);
    }
  }

  lemma NextKeepsPlaces(c: Suite, self: Device, groupId: string, w: World, st: Step)
    requires Inv(c, w) && |st.nonce| == NONCE_LENGTH && PlacesIncrease(w.posted)
    ensures PlacesIncrease(Next(c, self, groupId, w, st).posted)
  {
    var w' := Next(c, self, groupId, w, st);
    if w'.posted != w.posted {
      KeyMovesOn(c, self, groupId, w, st);
      hide Next;
      forall p | p in w.posted
        ensures p.chain <= w.chain && (p.chain == w.chain ==> p.message.iteration < w.saved.value.iteration)
      {
      }
      hide Inv;
    }
  }

  /**
   * Over the whole run, whatever joined or left later: the devices that hold the
   * chain of a post from its iteration or an earlier one are exactly its recipients.
   */
  lemma ReadersAreRecipients(c: Suite, self: Device, groupId: string, steps: seq<Step>, k: nat)
    requires ValidSteps(steps)
    requires k < |Run(c, self, groupId, EMPTY, steps).posted|
    ensures var w := Run(c, self, groupId, EMPTY, steps);
      var p := w.posted[k];
      Holders(w.handed, p.chain, p.message.iteration) == p.recipients
  {
    RunKeepsInv(c, self, groupId, EMPTY, steps);
    assert PostOk(c, Run(c, self, groupId, EMPTY, steps).handed, Run(c, self, groupId, EMPTY, steps).posted[k]);
  }

  /**
   * A device that was handed the chain of a post at its iteration or before opens it, in whatever
   * order it takes the chain's messages within the limits.
   */
  lemma HandoutReads(c: Suite, self: Device, groupId: string, steps: seq<Step>, k: nat, h: Handout,
                     got: set<nat>, s: SK.State)
    requires ValidSteps(steps)
    requires var w := Run(c, self, groupId, EMPTY, steps);
      && h in w.handed && k < |w.posted|
      && var p := w.posted[k];
      && h.chain == p.chain && h.dist.iteration <= p.message.iteration
      && Order.ReceivedExactly(c, h.dist, got, s) && p.message.iteration !in got && Order.WithinLimits(s, p.message)
    ensures var p := Run(c, self, groupId, EMPTY, steps).posted[k];
      SK.DecryptStep(c, s, p.message).0 == SK.Plain(p.plaintext)
  {
    RunKeepsInv(c, self, groupId, EMPTY, steps);
    var w := Run(c, self, groupId, EMPTY, steps);
    var p := w.posted[k];
    assert PostOk(c, w.handed, p);
    Order.DeliveryIsExact(c, h.dist, got, s, p.message, p.plaintext, p.nonce);
  }

  /** One that was handed the chain later never does, whatever it is fed before. */
  lemma HandoutReadsNothingEarlier(c: Suite, self: Device, groupId: string, steps: seq<Step>, k: nat, h: Handout,
                                   fed: seq<SK.Message>)
    requires var w := Run(c, self, groupId, EMPTY, steps);
      h in w.handed && k < |w.posted| && w.posted[k].message.iteration < h.dist.iteration
    ensures var m := Run(c, self, groupId, EMPTY, steps).posted[k].message;
      !SK.DecryptStep(c, SK.After(c, SK.FromDistribution(h.dist), fed), m).0.Plain?
  {
    Order.NothingBeforeDistribution(c, h.dist, fed, Run(c, self, groupId, EMPTY, steps).posted[k].message);
  }

  lemma DecideTags(saved: Option<SK.State>, recipients: seq<Bundle>, newSession: SK.State)
    ensures var (session, isNew, _) := Decide(saved, recipients, newSession);
      if isNew then session == newSession else saved == Some(session)
  {
  }

  /** The saved key and everything handed out name the group and the sending device. */
  ghost predicate Named(self: Device, groupId: string, w: World) {
    && (w.saved.Some? ==> w.saved.value.groupId == groupId && w.saved.value.senderDeviceId == self)
    && (forall h :: h in w.handed ==> h.dist.groupId == groupId && h.dist.senderDeviceId == self)
  }

  lemma NextKeepsNamed(c: Suite, self: Device, groupId: string, w: World, st: Step)
    requires Named(self, groupId, w)
    ensures Named(self, groupId, Next(c, self, groupId, w, st))
  {
    var newSession := SK.Create(c, groupId, self, st.newChainKey, st.newSignSecret);
    var (session, isNew, targets) := Decide(w.saved, Recipients(st.bundles, self), newSession);
    DecideTags(w.saved, Recipients(st.bundles, self), newSession);
    SameNames(c, w.saved, Recipients(st.bundles, self), newSession, st.payload, st.nonce);
    hide Decide;
    hide Recipients;
    hide Handouts;
    hide EncryptWith;
  }

  lemma SameNames(c: Suite, saved: Option<SK.State>, recipients: seq<Bundle>, newSession: SK.State,
                  payload: Bytes, nonce: Bytes)
    ensures var (session, _, _) := Decide(saved, recipients, newSession);
      var s := EncryptWith(c, saved, recipients, newSession, payload, nonce).1;
      s.groupId == session.groupId && s.senderDeviceId == session.senderDeviceId
  {
    hide Decide;
  }

  /** Over any run every distribution message handed out names the group and the device it is sent from. */
  lemma {:induction false} RunKeepsNames(c: Suite, self: Device, groupId: string, w: World, steps: seq<Step>)
    requires Named(self, groupId, w)
    ensures Named(self, groupId, Run(c, self, groupId, w, steps))
    decreases |steps|
  {
    if steps != [] {
      NextKeepsNamed(c, self, groupId, w, steps[0]);
      hide Next;
      hide Named;
      RunKeepsNames(c, self, groupId, Next(c, self, groupId, w, steps[0]), steps[1..]);
    }
  }

  // ---- the same by key material ----

  /** Which chain goes with which public signing key, as far as the run shows. */
  ghost function Tags(w: World): set<(nat, Bytes)> {
    (set h | h in w.handed :: (h.chain, h.dist.signPub))
    + (set p | p in w.posted :: (p.chain, p.signPub))
    + (if w.saved.Some? then {(w.chain, w.saved.value.signPub)} else {})
  }

  /** Chains and signing keys determine each other. */
  ghost predicate KeysApart(tags: set<(nat, Bytes)>) {
    forall a, b :: a in tags && b in tags ==> (a.0 == b.0 <==> a.1 == b.1)
  }

  /** Every signing key pair drawn is a new one. */
  ghost predicate FreshKeys(c: Suite, self: Device, groupId: string, w: World, steps: seq<Step>)
    decreases |steps|
  {
    steps != [] ==>
      && (forall a :: a in Tags(w) ==> a.1 != SignPublic(c, steps[0].newSignSecret))
      && FreshKeys(c, self, groupId, Next(c, self, groupId, w, steps[0]), steps[1..])
  }

  /** A step shows at most one new pair: the saved one again, or a new chain with the new key. */
  lemma NextTags(c: Suite, self: Device, groupId: string, w: World, st: Step)
    ensures var w' := Next(c, self, groupId, w, st);
      || Tags(w') <= Tags(w)
      || Tags(w') <= Tags(w) + {(w.chain + 1, SignPublic(c, st.newSignSecret))}
  {
    hide Next;
    hide Decide;
    hide Handouts;
    hide Recipients;
    var newSession := SK.Create(c, groupId, self, st.newChainKey, st.newSignSecret);
    NextShape(c, self, groupId, w, st);
    DecideTags(w.saved, Recipients(st.bundles, self), newSession);
  }

  lemma TagsUpToChain(c: Suite, w: World)
    requires Inv(c, w)
    ensures forall a :: a in Tags(w) ==> a.0 <= w.chain
  {
    forall h | h in w.handed ensures h.chain <= w.chain {
      assert HandedOk(c, w.saved.value, w.chain, h);
    }
  }

  lemma {:induction false} RunKeepsKeysApart(c: Suite, self: Device, groupId: string, w: World, steps: seq<Step>)
    requires Inv(c, w) && ValidSteps(steps) && KeysApart(Tags(w)) && FreshKeys(c, self, groupId, w, steps)
    ensures KeysApart(Tags(Run(c, self, groupId, w, steps)))
    decreases |steps|
  {
    if steps != [] {
      hide Tags;
      TagsUpToChain(c, w);
      NextTags(c, self, groupId, w, steps[0]);
      NextKeepsInv(c, self, groupId, w, steps[0]);
      hide Next;
      hide Inv;
      RunKeepsKeysApart(c, self, groupId, Next(c, self, groupId, w, steps[0]), steps[1..]);
    }
  }

  /** The devices handed a distribution message with a signing key, at or before an iteration. */
  ghost function KeyHolders(handed: seq<Handout>, signPub: Bytes, iteration: nat): set<Device> {
    set h | h in handed && h.dist.signPub == signPub && h.dist.iteration <= iteration :: h.device
  }

  /**
   * With fresh signing keys: the devices ever handed a distribution message that carries the
   * signing key of a post, at or before its iteration, are exactly its recipients.
   */
  lemma KeyHoldersAreRecipients(c: Suite, self: Device, groupId: string, steps: seq<Step>, k: nat)
    requires ValidSteps(steps) && FreshKeys(c, self, groupId, EMPTY, steps)
    requires k < |Run(c, self, groupId, EMPTY, steps).posted|
    ensures var w := Run(c, self, groupId, EMPTY, steps);
      var p := w.posted[k];
      KeyHolders(w.handed, p.signPub, p.message.iteration) == p.recipients
  {
    var w := Run(c, self, groupId, EMPTY, steps);
    EmptyStarts(c);
    hide *;
    ReadersAreRecipients(c, self, groupId, steps, k);
    RunKeepsKeysApart(c, self, groupId, EMPTY, steps);
    SameHolders(w, w.posted[k]);
  }

  lemma EmptyStarts(c: Suite)
    ensures Inv(c, EMPTY) && KeysApart(Tags(EMPTY))
  {
  }

  lemma SameHolders(w: World, p: Post)
    requires KeysApart(Tags(w)) && p in w.posted
    ensures KeyHolders(w.handed, p.signPub, p.message.iteration) == Holders(w.handed, p.chain, p.message.iteration)
  {
    var tags := Tags(w);
    assert (p.chain, p.signPub) in tags;
    forall h | h in w.handed ensures h.chain == p.chain <==> h.dist.signPub == p.signPub {
      assert (h.chain, h.dist.signPub) in tags;
    }
    hide Tags;
  }
}
