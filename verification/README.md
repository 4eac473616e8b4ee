# Verified model of the EmberChamber client and relay cores

This project models the parts of EmberChamber that carry its guarantees and proves what they are for.
Run `dafny verify dfyconfig.toml` to check it.

- **Pairwise and group encryption.** `Primitives` gives the cryptographic functions as parameters that meet a few
  laws (HMAC yields 32 bytes; Diffie-Hellman commutes, section 6.1 of RFC 7748; opening undoes sealing; verifying
  accepts a signature made by signing); every theorem holds for every choice of functions that meets them. `Hkdf`,
  `X3dh`, `DoubleRatchet` and `SenderKey` follow `packages/protocol/src/double-ratchet.ts` step by step, as classes
  proved equal to functions over their state; `RatchetKeys` holds their keys against RFC 5869 and says what they depend
  on. `RatchetEndpoint`, `RatchetNetwork` and `RatchetGuarantees` join two Double Ratchet endpoints by a network that
  delays, reorders and loses packets; `SenderKeyOrder` delivers one sender's messages in any order. `GroupFanout` and
  `GroupHolders` are the rotate, top-up or reuse decision of a group send and what it means, over a run of membership
  changes, for who can read what; `GroupDelivery` follows a group key through its envelope to the device that reads it.
- **Markup.** `InlinePatterns`, `InlineParser` and `BlockParser` are the message parser: each regular expression has
  a hand-written matcher, proved to find exactly what a separate description of the expression allows. `InlineReading`
  and `BlockReading` say what a parse is without the parser, and that its result is the only one. `DraftFormatting` is the
  editor's formatter; `FormatterAgreement` and `InlineFormatting` say exactly when the parser sees the block, or the inline
  markup, that it made.
- **Relay.** `DeviceMailbox` and `MailboxPaging` are a device's mailbox, each handler call one step, and a client paging
  through it while it changes. `RateLimit` is the fixed-window limiter.
- **Client state.** `MessageCache` (the table of recent messages), `ParseCache` (the cache of parsed messages),
  `ClientState` (the outbox of the Rust core) and `Reactions` (toggles on group messages), each against a simple
  description of what a whole run should leave behind. `Sorting`, `OrderedMaps`, `Lines` and `Common` are shared.

Times, random values, key pairs, nonces and the relay's answers are parameters. A thrown error is a result value, and
the state a throw leaves behind is part of what is stated. Classes carry one field of a value type for the state the
source keeps in one object; a method's contract equates the new state with a function of the old one, and the theorems
are about that function.

Where the code differs from what its own comments or the standards suggest, the model follows the code:

- The alarm of a mailbox is chosen by truthiness, so an earliest expiry at time 0 sets none
  (`EpochExpiryHasNoAlarm`, and `AlarmIsEarliest` for exactly when the alarm is the earliest expiry).
- An acknowledgement counts a repeated id each time (`RepeatedAckMiscounts`); `AckConserves` says exactly when the
  counters still balance.
- A page that ends at the empty id starts the paging over (`EmptyIdRepeats`); `PagingEnds` says exactly when paging ends.
- Saving a batch cuts it to its latest 500 entries before writing; entries that repeat an id can crowd out another
  message (`RepeatsCrowdOut`, and `SaveIsExact` for exactly which batches are safe).
- The parse cache does not evict the empty string: once it was looked up first the cache only grows
  (`EmptyTextStopsEviction`, `GrowsPastLimit`); `LookupIsBounded` says exactly when a lookup may exceed the bound.
- A code block or quote made by the formatter is not always what the parser then sees: an open fence above takes over
  (`OpenFenceTakesOver`), a quote line above joins (`QuoteJoinsQuote`). `CodeBlockAgrees` and `QuoteAgrees` give the
  exact condition on the surrounding lines.
- A single letter made bold before a later pair of asterisks is not what becomes bold (`OneLetterRunsOn`); `InlineAgrees`
  says exactly which text its delimiters hold together.
- A sender uses the first one-time key of a bundle but the receiving device uses none, so a first envelope opens for
  every choice of primitives exactly if the bundle lists none (`FirstEnvelopeNeedsNoOneTime`).
- The limiter's sliding-window bound is `2 * limit - 1`, one less than two full windows suggest, and it is reached
  (`SlidingBound`, `BoundIsReached`).
- Toggling a reaction twice restores a message exactly if it has a reactions record and that emoji's list was sorted and
  not empty, or absent (`DoubleToggle`); it does not if the list arrived unsorted or the record is missing
  (`UnsortedNotRestored`, `MissingNotRestored`).
- A delivery and an epoch rotation may not always change places (`DeliveryOvertakesRotation`, and
  `RotationCommutesWithDelivery` for exactly when they may).

## Model

| member | source | states |
|---|---|---|
| Primitives.OpenSealed | packages/protocol/src/double-ratchet.ts:272-287 | splitting off the nonce and opening with the sealing key gives the plaintext back |
| Primitives.OpenExact | packages/protocol/src/double-ratchet.ts:272-287 | a package opens to a plaintext if and only if it is a nonce of 24 bytes and a box that opens to it; it is too short if and only if it has fewer bytes than a nonce |
| Hkdf.HkdfExpand | packages/protocol/src/double-ratchet.ts:17-37 | the loop over the output buffer terminates for every length and writes the first `length` bytes of the concatenated blocks |
| Hkdf.ExpandMeetsRfc | packages/protocol/src/double-ratchet.ts:17-37 | up to 255 blocks the output is that of section 2.3 of RFC 5869, defined separately with a one-octet counter |
| Hkdf.Sha256MeetsRfc | packages/protocol/src/double-ratchet.ts:39-47 | extract with the salt as key and then expand: for whole blocks the output is that of section 2 of RFC 5869 |
| Hkdf.ExpandPrefix | packages/protocol/src/double-ratchet.ts:17-37 | for one key and info a shorter output is a prefix of a longer one |
| X3dh.Agreement | packages/protocol/src/double-ratchet.ts:63-119 | both sides compute the same master key, with or without a one-time prekey |
| X3dh.AgreementMeetsX3dh | packages/protocol/src/double-ratchet.ts:63-119 | what both derive is that HKDF of the three or four exchanges of section 3.3 of the X3DH specification, listed separately as pairs of keys |
| X3dh.TranscriptDetermines | packages/protocol/src/double-ratchet.ts:75-89 | with exchanges of 32 bytes, equal key material means equally many exchanges with equal outputs, so none is left out |
| DoubleRatchet.DoubleRatchetSession.InitAlice | packages/protocol/src/double-ratchet.ts:150-176 | the initial state of the initiating side |
| DoubleRatchet.DoubleRatchetSession.InitBob | packages/protocol/src/double-ratchet.ts:178-196 | the initial state of the responding side |
| DoubleRatchet.DoubleRatchetSession.Encrypt | packages/protocol/src/double-ratchet.ts:202-236 | the message and the whole new state, or the error and the old one |
| DoubleRatchet.DoubleRatchetSession.Decrypt | packages/protocol/src/double-ratchet.ts:238-270 | the outcome and the state left behind, also when it throws after the ratchet step |
| DoubleRatchet.DoubleRatchetSession.DhRatchetStep | packages/protocol/src/double-ratchet.ts:289-320 | the field-by-field update equals the ratchet function |
| DoubleRatchet.DoubleRatchetSession.SkipMessageKeys | packages/protocol/src/double-ratchet.ts:322-356 | the skipping loop with its gap limit and eviction equals the recursive description |
| DoubleRatchet.SkipLoopMoves | packages/protocol/src/double-ratchet.ts:331-355 | skipping steps the chain key once per message passed and changes nothing else but the table |
| DoubleRatchet.SkipLoopSound | packages/protocol/src/double-ratchet.ts:331-355 | the table gains only the positions passed over, each with the key derived there; other entries are unchanged |
| DoubleRatchet.SkipLoopKeeps | packages/protocol/src/double-ratchet.ts:342-349 | while there is room nothing is evicted and every position passed over is stored |
| DoubleRatchet.SkipLoopNeedsRoom | packages/protocol/src/double-ratchet.ts:342-349 | skipping over keys not stored yet loses none if and only if the table has room for all of them |
| DoubleRatchet.SkipLoopEvictsOldest | packages/protocol/src/double-ratchet.ts:342-349 | a full table gives up its oldest keys: skipping leaves the last 1000 of the keys stored before and those passed over, in order |
| DoubleRatchet.DecryptBounded | packages/protocol/src/double-ratchet.ts:238-356 | for any input a table of at most 1000 keys stays so, and one decrypt adds at most 200 |
| DoubleRatchet.StateIgnoresCiphertext | packages/protocol/src/double-ratchet.ts:238-270 | for any input the header alone decides what decrypt leaves behind, whether the message then opens or not |
| RatchetKeys.RootStepMeetsRfc | packages/protocol/src/double-ratchet.ts:158-161 | a step of the root chain yields the two halves of HKDF as in RFC 5869, with the current root key as salt and the exchange as key material |
| RatchetKeys.InitAliceMeetsRfc | packages/protocol/src/double-ratchet.ts:150-176 | the initiator's first root and sending keys are that output for the agreed master key |
| RatchetKeys.RatchetMeetsRfc | packages/protocol/src/double-ratchet.ts:289-320 | a ratchet step takes the root chain on twice, by the old key pair for the receiving chain and by the new one for the sending chain |
| RatchetKeys.MessageKeysApart | packages/protocol/src/double-ratchet.ts:202-227 | unless HMAC confuses its one-byte labels, no message key is a later chain key, in pairwise and in group sessions |
| RatchetKeys.RatchetsApart | packages/protocol/src/double-ratchet.ts:202-467 | nor are keys of pairwise sessions ever keys of group sessions |
| RatchetKeys.FirstMessageNeedsMaster | packages/protocol/src/double-ratchet.ts:150-320 | the first message opens for every choice of primitives if and only if both sides have the same master key |
| RatchetEndpoint.HonestDelivery | packages/protocol/src/double-ratchet.ts:238-356 | an endpoint in step with the sender opens any message still due, or finds it too far ahead, and stays in step |
| RatchetEndpoint.HonestDeliveryFull | packages/protocol/src/double-ratchet.ts:322-356 | a delivery, or one that throws at either gap check, keeps every missing position stored if the table has room for the keys it stores |
| RatchetNetwork.StartInv | packages/protocol/src/double-ratchet.ts:150-196 | the run's invariant holds of the two initial sessions |
| RatchetNetwork.StepKeepsInv | packages/protocol/src/double-ratchet.ts:202-356 | every encryption, delivery in any order, failed delivery and loss keeps the invariant of both endpoints and all packets |
| RatchetNetwork.RoomyRunKeepsFull | packages/protocol/src/double-ratchet.ts:322-356 | over runs without eviction both tables stay complete |
| RatchetGuarantees.AgreementStartsRun | packages/protocol/src/double-ratchet.ts:63-196 | sessions set up from X3DH on both sides are the start of a run from one master key |
| RatchetGuarantees.DeliveryRecoversPlaintext | packages/protocol/src/double-ratchet.ts:202-356 | in every run, delivering a packet whose key was not evicted returns exactly what was encrypted, or "Too many skipped messages" exactly when it is more than 100 ahead |
| RatchetGuarantees.RoomyDeliveryRecoversPlaintext | packages/protocol/src/double-ratchet.ts:202-356 | in runs where no table overflows the same holds of every packet in flight |
| RatchetGuarantees.RunsStayAligned | packages/protocol/src/double-ratchet.ts:202-356 | the receiving chain is the peer's current sending chain or its predecessor, at a position up to which the peer has sent and with the chain key derived there, and the root keys line up, also after throws |
| RatchetGuarantees.HeadersNeverRepeat | packages/protocol/src/double-ratchet.ts:202-236 | no two packets of a run carry the same key and number |
| RatchetGuarantees.TablesAreExact | packages/protocol/src/double-ratchet.ts:322-356 | without eviction a table holds exactly the positions passed over and not delivered, on every entered chain, each with the sender's key |
| SenderKey.SenderKeySession.Encrypt | packages/protocol/src/double-ratchet.ts:432-467 | the signed message and the whole new state |
| SenderKey.SenderKeySession.Decrypt | packages/protocol/src/double-ratchet.ts:469-505 | the outcome and the state left behind |
| SenderKey.SenderKeySession.SkipMessageKeys | packages/protocol/src/double-ratchet.ts:524-548 | the skipping loop equals the recursive description, or nothing changes past the gap limit |
| SenderKey.DistributionCarriesSession | packages/protocol/src/double-ratchet.ts:420-430 | the session built from a distribution message is the sender's as it stands, without its signing secret, table and sharing list |
| SenderKey.DecryptEffect | packages/protocol/src/double-ratchet.ts:469-548 | for any input: skipped iterations stay behind the chain, the iteration never falls, rejected calls change nothing, a plaintext spends its iteration |
| SenderKey.AtMostOnce | packages/protocol/src/double-ratchet.ts:469-548 | over any sequence of inputs no iteration returns a plaintext twice |
| SenderKey.StaysBehind | packages/protocol/src/double-ratchet.ts:469-548 | over any sequence of inputs the skipped iterations stay below the current one, which never decreases |
| SenderKey.SignedAnswer | packages/protocol/src/double-ratchet.ts:469-531 | a signed message is refused as too old if and only if its iteration is spent, and as too far ahead if and only if it is more than 100 ahead |
| SenderKey.StateIgnoresCiphertext | packages/protocol/src/double-ratchet.ts:469-505 | among signed messages the iteration alone decides what decrypt leaves behind |
| SenderKey.OnlySignedOpens | packages/protocol/src/double-ratchet.ts:474-479 | over any inputs the answer is "signature verification failed" if and only if the message does not verify under the session's key; a message that opens does |
| SenderKey.ForgeriesLeaveNoTrace | packages/protocol/src/double-ratchet.ts:474-479 | over any inputs the session ends as if the messages that do not verify had not come |
| SenderKey.SkipToKeepsNewest | packages/protocol/src/double-ratchet.ts:524-548 | skipping keeps at most 1000 keys, the newest of those stored and passed over, and all of them while there is room |
| SenderKey.DecryptBounded | packages/protocol/src/double-ratchet.ts:469-548 | for any input a table of at most 1000 keys stays so, and one decrypt adds at most 100 |
| SenderKeyOrder.EncryptAllGenuine | packages/protocol/src/double-ratchet.ts:432-467 | what a sender encrypts after a distribution message verifies and opens with the key derived from it |
| SenderKeyOrder.DeliveryIsExact | packages/protocol/src/double-ratchet.ts:469-548 | one delivery within the limits opens and leaves exactly the missing iterations stored |
| SenderKeyOrder.AnyOrderEndsExactly | packages/protocol/src/double-ratchet.ts:469-548 | after any order of delivery within the limits: one past the largest iteration, with exactly the missing ones stored |
| SenderKeyOrder.AnyOrderOpensAll | packages/protocol/src/double-ratchet.ts:469-548 | and each message opened to its plaintext |
| SenderKeyOrder.OrderLeavesNoTrace | packages/protocol/src/double-ratchet.ts:469-548 | two orders of the same messages leave the same state |
| SenderKeyOrder.NothingBeforeDistribution | packages/protocol/src/double-ratchet.ts:489-491 | what is older than the distribution message never opens, whatever was fed in before |
| GroupFanout.FanOutCoversTargets | apps/mobile/src/hooks/useSendMessage.ts:377-429 | each target gets its envelope in order and no other pairwise session is touched |
| GroupFanout.FirstEnvelopeOpens | apps/mobile/src/hooks/useSendMessage.ts:391-423 | a device met for the first time opens its envelope with the keys it registered, one-time key included if it is used |
| GroupFanout.FanOutAt | apps/mobile/src/hooks/useSendMessage.ts:382-429 | each envelope is the payload encrypted with the session its device has when its turn comes, which is then saved |
| GroupFanout.GroupSender.Distribute | apps/mobile/src/hooks/useSendMessage.ts:377-429 | the envelope loop, with pairwise sessions saved one by one, equals the recursive description |
| GroupFanout.GroupSender.Send | apps/mobile/src/hooks/useSendMessage.ts:342-497 | the result, the envelopes handed to the relay, the saved sender key and the saved sessions, for every answer of the relay |
| GroupHolders.NextIsSend | apps/mobile/src/hooks/useSendMessage.ts:342-497 | a step of the run saves the key that a send saves and posts exactly what it posts |
| GroupHolders.BatchIsBooked | apps/mobile/src/hooks/useSendMessage.ts:426-457 | what a step records as handed out are the envelopes of the batch, one by one; a send that stops earlier records nothing |
| GroupHolders.RunKeepsInv | apps/mobile/src/hooks/useSendMessage.ts:342-469 | over any run of joins, removals and sends the devices recorded as sharing the key are those handed it |
| GroupHolders.PostsOnRecipientsChain | apps/mobile/src/hooks/useSendMessage.ts:348-375 | every message goes out on a chain handed to exactly that send's recipients; a removed device is not among them |
| GroupHolders.RotatesExactly | apps/mobile/src/hooks/useSendMessage.ts:348-375 | a send starts a new chain if and only if there is none or some device handed the current one is not a recipient, and hands the key to exactly the recipients that lack it |
| GroupHolders.KeyMovesOn | apps/mobile/src/hooks/useSendMessage.ts:459-469 | a send that got to encrypt saves its key one place further, also when the relay then refuses the message |
| GroupHolders.RunNeverReusesPlaces | apps/mobile/src/hooks/useSendMessage.ts:459-490 | over any run no two messages are encrypted at the same place of a chain |
| GroupHolders.RunKeepsNames | apps/mobile/src/hooks/useSendMessage.ts:342-411 | over any run every distribution message handed out names the group and the device it is sent from |
| GroupHolders.ReadersAreRecipients | apps/mobile/src/hooks/useSendMessage.ts:342-469 | over the whole run the devices holding a message's chain from its iteration or earlier are exactly its recipients |
| GroupHolders.HandoutReads | apps/mobile/src/hooks/useSendMessage.ts:410-457 | a device opens what is posted on its chain from its distribution iteration on, in any order within the limits |
| GroupHolders.HandoutReadsNothingEarlier | apps/mobile/src/hooks/useSendMessage.ts:410-457 | and nothing posted before that iteration, whatever it is fed |
| GroupHolders.KeyHoldersAreRecipients | apps/mobile/src/hooks/useSendMessage.ts:342-469 | with fresh signing keys, the devices ever handed a distribution message with a post's signing key, at or before its iteration, are exactly its recipients |
| GroupDelivery.EnvelopeOpens | apps/mobile/src/features/conversations/conversationSync.ts:204-248 | a distribution envelope opens on its device to what was put in, whether the two devices never met or have exchanged anything in any order before; or it is more than 100 messages ahead |
| GroupDelivery.PairingGoesOn | apps/mobile/src/features/conversations/conversationSync.ts:204-248 | sending and reading an envelope leaves the two sessions the ends of one honest run |
| GroupDelivery.FirstEnvelopeNeedsNoOneTime | apps/mobile/src/features/conversations/conversationSync.ts:213-223 | the first envelope opens for every choice of primitives if and only if the bundle begins with no one-time key |
| GroupDelivery.HandoutsOpen | apps/mobile/src/hooks/useSendMessage.ts:410-457 | each envelope of a send opens on its device to exactly the distribution message that the run records as handed to it |
| GroupDelivery.NewcomerReads | apps/mobile/src/features/conversations/conversationSync.ts:248-293 | a device handed the key in a send takes its session from its envelope and decrypts that send's message to what was sent |
| InlinePatterns.EmphasisEndCorrect | packages/shared/src/message-format.ts:27-32 | the matcher of the four emphasis expressions finds the body the expression matches, shortest first, and finds one wherever there is one |
| InlinePatterns.CodeEndCorrect | packages/shared/src/message-format.ts:26 | the matcher of inline code is exact |
| InlinePatterns.LinkEndCorrect | packages/shared/src/message-format.ts:25 | the matcher of links finds the longest link at a position |
| InlinePatterns.MentionEndCorrect | packages/shared/src/message-format.ts:28-29 | the matcher of mentions is exact |
| InlinePatterns.ExecLeftmost | packages/shared/src/message-format.ts:85-157 | no match starts to the left of the one a search returns |
| InlinePatterns.FindNextCorrect | packages/shared/src/message-format.ts:82-191 | the chosen match is a real one, least by index and then priority; none is chosen only if no pattern matches anywhere |
| InlineReading.OneKindPerPlace | packages/shared/src/message-format.ts:25-32 | at one place at most one of the seven patterns matches, so the priorities never decide |
| InlineParser.MergeTextNodes | packages/shared/src/message-format.ts:193-207 | the merging loop equals the recursive description |
| InlineParser.ParseInlineText | packages/shared/src/message-format.ts:34-80 | the recursive loop terminates on every text and builds the described nodes |
| InlineParser.ParseIsLossless | packages/shared/src/message-format.ts:34-207 | printing the nodes with their delimiters gives the text back exactly |
| InlineParser.ParseIsFlat | packages/shared/src/message-format.ts:34-207 | at every depth there is no empty text node and no two adjacent ones |
| InlineReading.ParseReadsExactly | packages/shared/src/message-format.ts:34-207 | the parse is the one list of nodes that reads the text: text up to the first match of any pattern, the node of the foremost match there with the end its expression picks, its content read alike, its address or user name from its text, and so on |
| Lines.JoinSplit | packages/shared/src/message-format.ts:224-240 | joining the lines of a text gives the text |
| Lines.SplitJoin | packages/shared/src/message-format.ts:224-240 | splitting joined lines gives the lines |
| BlockParser.FindClosingCodeFence | packages/shared/src/message-format.ts:209-217 | the next fence, or -1 if there is none |
| BlockParser.TakeQuote | packages/shared/src/message-format.ts:251-264 | the quote loop takes the maximal run of quote lines |
| BlockParser.TakeParagraph | packages/shared/src/message-format.ts:266-288 | the paragraph loop stops at the first blank line, later fence or later quote line |
| BlockParser.ParseFormattedMessage | packages/shared/src/message-format.ts:219-292 | the block loop terminates and yields the described blocks |
| BlockParser.BlocksAreStretches | packages/shared/src/message-format.ts:219-292 | the blocks lie on disjoint, increasing line ranges, each of its kind |
| BlockParser.BlocksCoverLines | packages/shared/src/message-format.ts:228-289 | every line that is not blank lies in a block |
| BlockReading.LaidUnique | packages/shared/src/message-format.ts:219-292 | there is only one way to lay the lines in such ranges that leave out none but blank lines |
| BlockReading.BlocksPrintLines | packages/shared/src/message-format.ts:241-288 | for every text a paragraph's nodes print its lines, a quote's its lines without their markers, and a code block is the lines between its fences, with the trimmed rest of the opening one as its language |
| BlockReading.MessageReadsExactly | packages/shared/src/message-format.ts:219-292 | the parse of a message is the one list of blocks that reads it, by lines and by what each block contains |
| DraftFormatting.NormalizeKeepsInBounds | apps/mobile/src/lib/messageDraftFormatting.ts:31-42 | a selection in bounds is kept, swapped into order if need be |
| DraftFormatting.NormalizeSelects | apps/mobile/src/lib/messageDraftFormatting.ts:31-42 | the positions selected are those of the text between the two ends, in either order and however far outside |
| DraftFormatting.OutsideUnchanged | apps/mobile/src/lib/messageDraftFormatting.ts:44-157 | no action changes the text before or after the selection |
| DraftFormatting.SelectionFollowsText | apps/mobile/src/lib/messageDraftFormatting.ts:69-108 | after an inline action or a code block the new selection covers exactly the selected text |
| DraftFormatting.QuoteCursorFollows | apps/mobile/src/lib/messageDraftFormatting.ts:110-138 | after a quote there is a cursor behind the quoted lines, or behind a marker that begins a line |
| FormatterAgreement.CodeBlockAgrees | apps/mobile/src/lib/messageDraftFormatting.ts:88-108 | the parser sees the new code block, with the selection as its text, if and only if the fences before it pair up and none starts a line of the selection |
| FormatterAgreement.CodeBlockIsParsed | apps/mobile/src/lib/messageDraftFormatting.ts:88-108 | then the parsed message contains that code block node |
| FormatterAgreement.OpenFenceTakesOver | apps/mobile/src/lib/messageDraftFormatting.ts:88-108 | below a single open fence the new code block is not a block of the parsed message |
| FormatterAgreement.QuoteAgrees | apps/mobile/src/lib/messageDraftFormatting.ts:110-138 | the parser sees one quote of exactly the new lines if and only if the fences before pair up or none follows and no quote line is adjacent; its nodes print the selection |
| FormatterAgreement.QuoteIsParsed | apps/mobile/src/lib/messageDraftFormatting.ts:110-138 | then the parsed message contains that quote node |
| FormatterAgreement.QuoteJoinsQuote | apps/mobile/src/lib/messageDraftFormatting.ts:110-138 | right below a quote line the new lines are not a quote of their own |
| InlineFormatting.InlineAgrees | apps/mobile/src/lib/messageDraftFormatting.ts:69-86 | where no markup begins before the selection, an inline action makes the selected text the first match, of the action's kind, if and only if the delimiters hold it together; the parse is then the text before, that node, and the parse of what follows |
| InlineFormatting.OneLetterRunsOn | apps/mobile/src/lib/messageDraftFormatting.ts:69-86 | a single letter made bold before a later pair of asterisks does not become the bold text |
| DeviceMailbox.DeviceMailboxDO.ScheduleNextAlarm | apps/relay/src/do/device-mailbox.ts:84-103 | an alarm set is the earliest expiry of a queued envelope and not 0; none is set only if no queued envelope is stored or the earliest expires at 0 |
| DeviceMailbox.DeviceMailboxDO.PruneExpired | apps/relay/src/do/device-mailbox.ts:105-127 | the prune loop over queue, envelopes and counters equals the recursive description |
| DeviceMailbox.DeviceMailboxDO.Enqueue | apps/relay/src/do/device-mailbox.ts:156-198 | the answer and the whole new state: duplicate, backlog exceeded or queued |
| DeviceMailbox.DeviceMailboxDO.Sync | apps/relay/src/do/device-mailbox.ts:200-224 | the page after the cursor, its envelopes and the new cursor |
| DeviceMailbox.DeviceMailboxDO.Ack | apps/relay/src/do/device-mailbox.ts:226-248 | the count returned and the whole new state |
| DeviceMailbox.DeviceMailboxDO.Alarm | apps/relay/src/do/device-mailbox.ts:253-256 | the alarm prunes |
| DeviceMailbox.RunKeepsInv | apps/relay/src/do/device-mailbox.ts:84-257 | after any calls queued ids are distinct, at most 500, a subsequence of the accepted order; the stored envelopes are exactly theirs, each unchanged as it was last accepted, all accepted ones are counted, and the alarm is theirs |
| DeviceMailbox.EnqueueAnswer | apps/relay/src/do/device-mailbox.ts:156-198 | duplicate if and only if an envelope with that id is still queued, rejected if and only if not and 500 others are, else stored as it came; each answer is counted |
| DeviceMailbox.RetryIsDuplicate | apps/relay/src/do/device-mailbox.ts:163-169 | an enqueue tried again before the envelope expires is a duplicate |
| DeviceMailbox.LimitIsNearest | apps/relay/src/do/device-mailbox.ts:202-205 | a page holds 50 ids unless asked otherwise, else the number from 1 to 100 nearest to the one asked for |
| DeviceMailbox.RunConserves | apps/relay/src/do/device-mailbox.ts:105-248 | while no acknowledgement repeats an id, enqueued = acknowledged + expired + queued |
| DeviceMailbox.AckConserves | apps/relay/src/do/device-mailbox.ts:226-248 | one acknowledgement keeps the balance if and only if it names no queued id twice |
| DeviceMailbox.AckAnswer | apps/relay/src/do/device-mailbox.ts:226-248 | the number answered is what the counter gains; it is the number of entries that leave if and only if no queued id is named twice |
| DeviceMailbox.RepeatedAckMiscounts | apps/relay/src/do/device-mailbox.ts:233-239 | acknowledging the one queued envelope twice in a batch counts it twice |
| DeviceMailbox.AlarmIsAhead | apps/relay/src/do/device-mailbox.ts:253-256 | after the alarm handler nothing queued is due and the next alarm is strictly later than now |
| DeviceMailbox.AlarmIsEarliest | apps/relay/src/do/device-mailbox.ts:84-103 | the alarm is the earliest queued expiry if and only if that is not 0 |
| DeviceMailbox.EpochExpiryHasNoAlarm | apps/relay/src/do/device-mailbox.ts:97-102 | an envelope that expires at 0 is queued without an alarm |
| DeviceMailbox.RunAlarmIsEarliest | apps/relay/src/do/device-mailbox.ts:84-257 | when no envelope expires at 0 the alarm is the earliest expiry at all times and absent exactly when the queue is empty |
| MailboxPaging.PagesAreQueue | apps/relay/src/do/device-mailbox.ts:200-224 | with no change in between and no cursor at first, the pages concatenate to the queue, unless a page ends at the empty id |
| MailboxPaging.PagingEnds | apps/relay/src/do/device-mailbox.ts:208-222 | and paging comes to an empty page if and only if no page ends at the empty id |
| MailboxPaging.EmptyIdRepeats | apps/relay/src/do/device-mailbox.ts:208-222 | with the empty id first and pages of one the same page comes for ever |
| MailboxPaging.RunTracked | apps/relay/src/do/device-mailbox.ts:156-248 | over any calls that reuse no id, queued ids keep the order of acceptance and removed ones do not return |
| MailboxPaging.StepReceives | apps/relay/src/do/device-mailbox.ts:208-222 | what a sync hands over are the envelopes accepted under the ids of its page |
| MailboxPaging.StepNears | apps/relay/src/do/device-mailbox.ts:200-224 | one sync hands over a queued envelope that the device lacks, or brings the next page nearer to it |
| MailboxPaging.RoundsKeepOk | apps/mobile/src/features/conversations/conversationSync.ts:407-413 | over any syncs, with calls of others in between, nothing queued that the device lacks stands before its next page, whether an empty page leaves its cursor or clears it |
| MailboxPaging.QueuedIsReceived | apps/relay/src/do/device-mailbox.ts:200-224 | from any such state of a device, what stays queued over a fixed number of syncs is received |
| MailboxPaging.NothingIsSkipped | apps/relay/src/do/device-mailbox.ts:200-224 | a device repeating the returned cursor is handed every envelope that stays queued, as it was accepted and from whenever it was queued, whatever others enqueue, acknowledge or let expire between pages, within a fixed number of syncs; and nothing that was not accepted |
| MessageCache.GroupMessageTable.SaveCachedGroupMessages | apps/mobile/src/lib/db.ts:472-513 | sort, cut, upsert loop and deletion of the overflow: the whole new table |
| MessageCache.GroupMessageTable.LoadCachedGroupMessages | apps/mobile/src/lib/db.ts:427-446 | exactly the conversation's rows, each as often as stored, in ascending time |
| MessageCache.GroupMessageTable.LoadLatestCachedGroupMessage | apps/mobile/src/lib/db.ts:448-470 | the last element of the full load, or nothing |
| MessageCache.ChronicleMeaning | apps/mobile/src/lib/db.ts:477-498 | what "each message as last saved, oldest first" means |
| MessageCache.LoadUpsert | apps/mobile/src/lib/db.ts:482-498 | writing a row records the message over an earlier one with its id |
| MessageCache.LoadTrim | apps/mobile/src/lib/db.ts:500-512 | deleting the overflow leaves the newest 500 rows of the conversation |
| MessageCache.PutAllThenLast | apps/mobile/src/lib/db.ts:500-512 | trimming before merging more messages loses nothing |
| MessageCache.SavedElsewhere | apps/mobile/src/lib/db.ts:472-513 | saving to one conversation leaves the others as they are |
| MessageCache.CacheHoldsNewest | apps/mobile/src/lib/db.ts:472-513 | after any saves the rows of a conversation are the 500 newest of everything ever saved to it, each as last saved |
| MessageCache.SaveIsExact | apps/mobile/src/lib/db.ts:477-480 | cutting a batch is right if and only if its latest 500 entries hold 500 messages or all of the batch's |
| MessageCache.SmallOrDistinct | apps/mobile/src/lib/db.ts:477-480 | batches of at most 500 entries or without repeated ids are such |
| MessageCache.RepeatsCrowdOut | apps/mobile/src/lib/db.ts:477-480 | 500 copies of one message crowd out an older one |
| ClientState.Client.UpsertConversation | crates/core/src/lib.rs:151-155 | the new state |
| ClientState.Client.EnqueueEnvelope | crates/core/src/lib.rs:162-171 | the new state, the entry stale if its epoch is already left |
| ClientState.Client.MarkEnvelopeDelivered | crates/core/src/lib.rs:173-177 | the new state |
| ClientState.Client.RotateEpoch | crates/core/src/lib.rs:192-208 | the new state, with the loop over the outbox |
| ClientState.RunStaleExact | crates/core/src/lib.rs:151-208 | in every reachable state an undelivered entry is stale if and only if its epoch is below its conversation's |
| ClientState.RunOutboxExact | crates/core/src/lib.rs:151-208 | after any calls the outbox holds for each id the envelope last queued under it, unchanged, and marks it delivered if and only if that was reported since |
| ClientState.EpochIsHighest | crates/core/src/lib.rs:36-40 | a conversation's epoch is the highest it was rotated to, so it never falls |
| ClientState.RotationsMerge | crates/core/src/lib.rs:192-208 | two rotations of a conversation are one rotation to the larger epoch |
| ClientState.RotationsCommute | crates/core/src/lib.rs:192-208 | rotations of any conversations may change places |
| ClientState.RotationCommutesWithEnqueue | crates/core/src/lib.rs:162-208 | queueing before or after a rotation leaves the same state, flags included |
| ClientState.RotationCommutesWithDelivery | crates/core/src/lib.rs:173-208 | delivery and rotation may change places if and only if the rotation would not quarantine the entry |
| ClientState.DeliveryOvertakesRotation | crates/core/src/lib.rs:173-208 | an entry delivered before a rotation past its epoch stays fresh, delivered after it is stale |
| ClientState.EnvelopeRoundTrip | crates/core/src/lib.rs:80-117 | the wire envelope survives being persisted |
| ParseCache.FormattedMessageCache.RememberCachedValue | apps/mobile/src/components/MessageBubble.tsx:269-285 | the stored value and the eviction |
| ParseCache.FormattedMessageCache.GetFormattedMessageBlocks | apps/mobile/src/components/MessageBubble.tsx:287-301 | a lookup returns what parsing would return, hit or miss |
| ParseCache.ByLastUseMeaning | apps/mobile/src/components/MessageBubble.tsx:287-301 | what "the distinct texts by last use" means |
| ParseCache.CacheIsMostRecent | apps/mobile/src/components/MessageBubble.tsx:263-301 | after any lookups of texts that are not empty the keys in order are the up to 300 most recent distinct texts |
| ParseCache.LookupIsBounded | apps/mobile/src/components/MessageBubble.tsx:277-282 | a lookup keeps to 300 keys if and only if the text is cached, there is room, or the oldest key is not empty |
| ParseCache.EmptyTextStopsEviction | apps/mobile/src/components/MessageBubble.tsx:277-282 | after the empty text was looked up first no key is ever evicted |
| ParseCache.GrowsPastLimit | apps/mobile/src/components/MessageBubble.tsx:277-282 | the empty text and then 300 others leave 301 keys |
| Reactions.OneSortedList | apps/mobile/src/lib/messageTransforms.ts:55-56 | a set of accounts has one sorted list |
| Reactions.ToggleGroupThreadMessageReaction | apps/mobile/src/lib/messageTransforms.ts:36-63 | the loop over the messages toggles exactly the matching ones |
| Reactions.ToggleFlips | apps/mobile/src/lib/messageTransforms.ts:47-61 | a toggle flips one account under one emoji, leaves that emoji's list sorted or absent, and changes nothing else |
| Reactions.TogglesOnCommute | apps/mobile/src/lib/messageTransforms.ts:47-61 | two toggles may change places, whatever the message |
| Reactions.DoubleToggle | apps/mobile/src/lib/messageTransforms.ts:47-61 | toggling twice restores the message if and only if it has a reactions record and that emoji's list is sorted and not empty, or absent |
| Reactions.UnsortedNotRestored | apps/mobile/src/lib/messageTransforms.ts:55-56 | a list that arrived unsorted is not restored |
| Reactions.MissingNotRestored | apps/mobile/src/lib/messageTransforms.ts:47-61 | a missing record comes back as an empty one |
| Reactions.ApplyKeepsIdentity | apps/mobile/src/lib/messageIdentity.ts:3-25 | a toggle does not change which ids a message answers to |
| Reactions.StableIdMeaning | apps/mobile/src/lib/messageIdentity.ts:3-17 | which id stands for a message: its client message id, else of an encrypted one what follows the last colon, else its id |
| Reactions.Converges | apps/mobile/src/lib/messageTransforms.ts:36-63 | the same toggles in any order leave the same messages |
| Reactions.ReactsByParity | apps/mobile/src/lib/messageTransforms.ts:36-63 | who reacts in the end depends only on the start and on how often each account was toggled, even or odd |
| RateLimit.RateLimitDO.Check | apps/relay/src/do/rate-limit.ts:20-45 | the answer and the stored counter; other keys are untouched |
| RateLimit.CounterOfWindow | apps/relay/src/do/rate-limit.ts:26-39 | the counter counts the calls since its window opened and resets one window length after |
| RateLimit.WindowAllowsLimit | apps/relay/src/do/rate-limit.ts:26-45 | a window allows exactly min(limit, calls) |
| RateLimit.RemainingIsExact | apps/relay/src/do/rate-limit.ts:41-45 | as many further calls of the window are allowed as the answer says remain |
| RateLimit.ResetIsExact | apps/relay/src/do/rate-limit.ts:41-45 | the next call opens a new window if and only if it comes at or after the reset time answered |
| RateLimit.SlidingBound | apps/relay/src/do/rate-limit.ts:26-45 | under a clock that does not go back any half-open interval of one window length holds at most 2 * limit - 1 allowed calls |
| RateLimit.BoundIsReached | apps/relay/src/do/rate-limit.ts:26-45 | for every positive limit and window of at least 2 some calls reach that bound |

## Left out

- RatchetGuarantees.DeliveryRecoversPlaintext: says nothing of replayed or forged Double Ratchet messages; decrypt has no age check and changes its state before opening, so the runs deliver honest packets at most once.
- DoubleRatchet.DecryptBounded: takes headers as byte strings; a header whose key is the empty string, or is no valid public key, is not told apart.
- Hkdf.ExpandMeetsRfc: past 255 blocks the counter byte wraps where RFC 5869 refuses the length; `HkdfExpand` still says what the loop then writes.
- GroupFanout.GroupSender.Send: a batch that the relay fails is taken as not delivered; crashes between two saves are not modelled.
- GroupDelivery.EnvelopeOpens: the two devices never met or hold the two ends of one honest run; two devices that each begin a session before reading the other's, and a second envelope that overtakes the first, are not covered.
- GroupDelivery.NewcomerReads: the encoding of a distribution message is any one that can be decoded; the sender's identity key is the one it registered.
- InlineFormatting.InlineAgrees: says nothing where markup begins before the selection and may run into it.
- MailboxPaging.NothingIsSkipped: ids that are accepted again after they left, and mailboxes that accept an envelope whose id is the empty string, are excluded.
- DeviceMailbox.AlarmIsAhead: expiry dates that do not parse, and a page limit that is not a number, are not modelled.
- MessageCache.CacheHoldsNewest: the time of a message is a number, fixed for its id and distinct within a conversation; rows of equal time, which SQL may order either way, are kept in table order.
- Reactions.DoubleToggle: the order in which a record lists its emoji is not part of the state.
- ParseCache.ByLastUseMeaning: the cache of time labels in the same file works alike and is not repeated.
- The insides and the strength of HMAC-SHA256, X25519, secretbox and Ed25519; secrecy against an attacker.
- Base64 text: keys and messages are byte strings, and encoding and decoding are taken as inverse.
- The aliasing of session state handed out by `getState`; the peer device id, which no operation reads.
- UTF-16 code units: a Dafny character stands for one unit, and `\b`, `\s` and `\w` are spelled out in `InlinePatterns`.
- JSON, HTTP, WebSockets and broadcasts, SQLite and Durable Object storage as services: tables and storage are maps and lists, an alarm is an optional time.
- Deleting messages, media records, contact labels and acknowledged envelope sets: they would only add maps that are set and read.
- `restoreGroupMessagesCache`, which inserts without trimming; attachments, backup, push, the screens and the schemas.
