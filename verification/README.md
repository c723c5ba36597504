# End-to-end encrypted conference calls, modelled and proved in Dafny

This project models the replicated core of the encrypted conference stack in `ntgcalls/src/e2e`, together with the byte
codec below it, the threaded media reader and the signalling send queue, and proves what they keep over whole runs.
`dafny verify dfyconfig.toml` checks everything.

The layers, from the bottom:

- `Common`, `TlCodec` — bytes, little-endian integers, the TL writer and reader as classes, and what a sequence of
  fields reads back as.
- `Crypto` — the primitives as total functions and three laws: signatures verify what was signed (section 5.1 of
  RFC 8032), CBC decryption inverts encryption (section 6.2 of NIST SP 800-38A), Diffie-Hellman agrees (section 6.1 of
  RFC 7748). HMAC (section 2 of RFC 2104) is just a function. A law is a hypothesis of the lemmas that use it. SHA-256
  is never assumed injective: where it matters the conclusion is "equal, or here are two inputs with one digest".
- `MessageEncryption` — padding, message id and recipient header.
- `ChainSpec`, `ChainState` — group states, permissions and blocks; the mutable `State` and `Blockchain` objects.
- `ChainAgreement`, `GroupSafety`, `BlockRules`, `GroupKey`, `Join` — building, applying and joining agree; rights never
  grow and the shared key fits the group; exactly which blocks are accepted and which can be joined from; every member
  recovers the group key; runs of joins always succeed.
- `SessionSpec`, `Session`, `SessionRuns`, `SessionServed` — delivery: pushes and poll replies in any order, overlapping
  or repeated, with generation-numbered timers, become in-order application of each block at most once.
- `ReplayWindow`, `Epochs`, `Packets`, `SessionEncryption` — the packet layer: sequence numbers and the bounded replay
  window, the table of epochs with its index and queue, framing, sealing and opening.
- `VerificationSpec`, `Verification` — the commit-reveal fingerprint protocol.
- `Conference` — the layers together: in a call made of joins every member's session follows the chain of the call
  whatever the order of deliveries, and what any member sends opens for every other.
- `ThreadedReader` — any number of threads, any interleaving of their atomic steps.
- `Signaling` — the send queue in front of a transport that may refuse.

Objects the source updates in place are classes here. Each of their methods is proved against a function of values, and
the theorems are about those functions or about every run of the methods. Ghost fields record the history a theorem
speaks of: what was applied, what was delivered, which timers are posted, what was sent. Randomness, clocks and answers
of the outside world (the server, the transport, a read) are parameters. Bit masks are sets of bit numbers.

## What turned out not to hold as one might expect

The model follows the code; each of these has a lemma giving the exact condition or a concrete input.

- A poll reply that is empty but names an offset beyond the height, before the first main block, moves the height with
  nothing applied, and so does a poll reply that skips main blocks. `EmptyReplyLosesStep` is such a session and
  `EmptyReplyStrandsTheSession` what becomes of it; `DeliveryDecidesContiguity` gives the condition, in both directions,
  under which a delivery leaves the main log contiguous, and `SessionServed` shows that answers to the session's own
  requests meet it.
- A block that could be applied can be left waiting after an event, with no poll under way: broadcasts that came before
  the first main block. The event that brings the chain looks at main blocks only. `OverdueExactly` says over every
  reachable state that this happens exactly if a broadcast was at or below the height when the chain arrived and nothing
  has looked at the broadcasts since; `EarlyBroadcastIsOverdue` is such a session, and its timer ends it
  (`TimerAppliesOverdue`).
- A session asks for main blocks once before it has a chain. If the answer brings none, its waiting timer only posts
  itself again (`AsksOnceWithoutChain`), so the first main block has to be pushed; `CatchUp` is about sessions with a
  chain, which go on asking.
- `mark_as_seen` adds 1024 in 32 bits. A number above 2^32-1025 for which the sum wraps is remembered only if an older
  number in the window anchors it. If none does, the window is emptied: that packet can be replayed, and so can every
  older one (`OlderNumberComesBack`; 5, 2^32-1024, 5 is such a run). `ReplayableExactly` says over every run that
  something accepted can be replayed exactly if some accepted number was neither safe nor anchored.
- A message about a future block is put aside and, when that block comes, passed over: the test after parsing is
  negated at `ntgcalls/src/e2e/session_verification.cpp:218`, unlike line 153. `EarlyEqualsOnTimeExactly` says for which
  messages that makes a difference: commitments signed by a participant. A round in which one came only early never
  leaves the commit phase (`CommitOnlyEarlyStalls`).
- A byte string survives the TL codec exactly if it is shorter than 2^24 bytes (`BytesRoundTripExactly`).
- A block without signer key for a group with rights but without members makes `State::apply` read the first element of
  an empty list (`UndefinedExactly`). That outcome is a third verdict here, and a session treats it as a failure.
- The end of file can be signalled more than once by a threaded reader: exactly if some thread was still to register at
  a signal (`OnlyLatecomersSignalAgain`, `EofComesOnce`).

## Model

| member | source | states |
|---|---|---|
| TlCodec.CodecRoundTrip | ntgcalls/src/tl/tl.cpp:9-190 | any fields, with byte strings below 2^24, read back as the values stored, and the reader has finished |
| TlCodec.CodecPrefixFree | ntgcalls/src/tl/tl.cpp:9-58 | field lists of the same kinds with one encoding are equal |
| TlCodec.SequenceRoundTrip | ntgcalls/src/tl/tl.cpp:9-169 | the same at any place of a longer buffer: the reader ends right after the fields |
| TlCodec.BytesRoundTripExactly | ntgcalls/src/tl/tl.cpp:40-58 | a byte string survives storing and fetching if and only if it is shorter than 2^24 |
| TlCodec.BytesAreLaidOut | ntgcalls/src/tl/tl.cpp:40-58 | byte by byte: the short form below 254, else the marker and three bytes of length, then the bytes, then zeros up to the next multiple of four |
| TlCodec.BytesAreReadExactly | ntgcalls/src/tl/tl.cpp:136-167 | of any input: which ones start with a byte string, its value, and where it ends; a first byte of 255 is refused |
| TlCodec.FieldIsWordAligned | ntgcalls/src/tl/tl.cpp:40-58 | every field occupies a multiple of four bytes |
| TlCodec.FieldsAreWordAligned | ntgcalls/src/tl/tl.cpp:9-58 | so does every list of fields |
| TlCodec.ReaderIsSafe | ntgcalls/src/tl/tl.cpp:75-190 | on arbitrary input the position never passes the end nor goes back, and an error stays |
| TlCodec.TlWriter.StoreUInt32 | ntgcalls/src/tl/tl.cpp:9-14 | appends the four bytes, least significant first |
| TlCodec.TlWriter.StoreInt32 | ntgcalls/src/tl/tl.cpp:16-18 | the same for the two's-complement word |
| TlCodec.TlWriter.StoreInt64 | ntgcalls/src/tl/tl.cpp:20-25 | appends eight bytes of the two's-complement value |
| TlCodec.TlWriter.StoreLength | ntgcalls/src/tl/tl.cpp:41-52 | appends one length byte, or the marker and three, and says how long length and bytes are together |
| TlCodec.TlWriter.StoreBytes | ntgcalls/src/tl/tl.cpp:40-58 | appends length, bytes and zero padding up to a word boundary |
| TlCodec.TlReader.FetchUInt32 | ntgcalls/src/tl/tl.cpp:75-86 | the little-endian value of four bytes, or an error and zero |
| TlCodec.TlReader.FetchInt64 | ntgcalls/src/tl/tl.cpp:92-103 | the two's-complement value of eight bytes, or an error and zero |
| TlCodec.TlReader.FetchArray | ntgcalls/src/tl/tl.cpp:105-125 | the next n bytes, or an error and zeros |
| TlCodec.TlReader.FetchSpan | ntgcalls/src/tl/tl.cpp:127-135 | the next n bytes, or an error and nothing |
| TlCodec.TlReader.FetchByteString | ntgcalls/src/tl/tl.cpp:137-169 | the byte string at the position, past its padding; error on a bad length byte or a short buffer |
| TlCodec.WriteThenRead | ntgcalls/src/tl/tl.cpp:9-190 | writing fields with one object and reading them with another gives them back, finished |
| MessageEncryption.EncryptedSize | ntgcalls/src/e2e/chain/message_encryption.cpp:69-82 | sixteen to thirty-one padding bytes make the message a whole number of blocks |
| MessageEncryption.DataRoundTrip | ntgcalls/src/e2e/chain/message_encryption.cpp:38-120 | decrypting an encrypted message gives the data and the large message id |
| MessageEncryption.HeaderRoundTrip | ntgcalls/src/e2e/chain/message_encryption.cpp:122-148 | a 32-byte header encrypts to 32 bytes and decrypts to itself under the same message and secret |
| MessageEncryption.OpensOnlyUnderItsId | ntgcalls/src/e2e/chain/message_encryption.cpp:84-120 | what opens carries half the digest of the very plaintext it opens to, the associated data and their length, under the secret |
| MessageEncryption.IdBindsBoth | ntgcalls/src/e2e/chain/message_encryption.cpp:46-60 | one id means one plaintext and one associated data, or there are two messages with one digest |
| MessageEncryption.MessageOnTheWire | ntgcalls/src/e2e/chain/message_encryption.cpp:40-82 | the whole form of an encrypted message in terms of the primitives |
| MessageEncryption.HeaderOnTheWire | ntgcalls/src/e2e/chain/message_encryption.cpp:122-134 | the whole form of an encrypted header |
| ChainState.ValidateGroupState | ntgcalls/src/e2e/state.cpp:136-150 | comparing set sizes decides that no id and no key is repeated and all flags are known |
| ChainState.ValidateSharedKey | ntgcalls/src/e2e/state.cpp:189-206 | accepts exactly an absent key, or one whose distinct ids have the right number and include every participant |
| ChainState.NeededRights | ntgcalls/src/e2e/state.cpp:110-128 | the mask of needed rights is exactly the union of what members gain |
| ChainState.NobodyLostWithout | ntgcalls/src/e2e/state.cpp:111-115 | true exactly if the signer may remove users or nobody is missing |
| ChainState.State.InstallSharedKey | ntgcalls/src/e2e/state.cpp:58-70 | a key goes in only where there was none, for a participant with a right, and if it fits the group |
| ChainState.State.ClearSharedKey | ntgcalls/src/e2e/state.cpp:152-158 | the key goes only for a participant with a right |
| ChainState.State.ReplaceGroupState | ntgcalls/src/e2e/state.cpp:95-134 | the group is replaced exactly if every single member change is allowed by the signer's rights |
| ChainState.State.ApplyChange | ntgcalls/src/e2e/state.cpp:72-93 | one change succeeds exactly as specified, with the specified state |
| ChainState.State.ValidateState | ntgcalls/src/e2e/state.cpp:160-187 | the proof repeats exactly what the changes did not say, and the state is valid |
| ChainState.State.Apply | ntgcalls/src/e2e/state.cpp:217-248 | applying a block: accepted, rejected or undefined as specified, with the specified state |
| ChainState.Blockchain.TryApplyBlock | ntgcalls/src/e2e/chain/blockchain.cpp:136-151 | the chain moves to the specified one if the block is accepted and is untouched otherwise |
| ChainState.Blockchain.MarkAndProve | ntgcalls/src/e2e/chain/blockchain.cpp:39-60 | the loop over the changes leaves exactly the parts of the proof that no change determines |
| ChainState.Blockchain.BuildBlock | ntgcalls/src/e2e/chain/blockchain.cpp:20-73 | the specified block, or none, without touching the chain |
| ChainState.Blockchain.CreateFromBlock | ntgcalls/src/e2e/chain/blockchain.cpp:75-114 | the specified chain, or none |
| ChainState.FounderAndNewcomer | ntgcalls/src/e2e/chain/blockchain.cpp:75-151 | an object that applied a whole accepted history and one made from its last block hold equal chains |
| ChainSpec.FirstMatchIsFound | ntgcalls/src/e2e/state.cpp:14-33 | both searches, by id and by key, give the first match of the list |
| GroupKey.GroupStateVersion | ntgcalls/src/e2e/state.cpp:35-44 | the smallest version of the participants, attained and clamped to 0..255; 0 for nobody |
| ChainAgreement.SnapshotEqualsApply | ntgcalls/src/e2e/chain/blockchain.cpp:75-151 | the chain made from a block equals the chain of whoever applied it |
| ChainAgreement.SnapshotEqualsReplay | ntgcalls/src/e2e/chain/blockchain.cpp:75-151 | joining from the last block of an accepted history equals replaying it |
| ChainAgreement.LateJoinerNeverDiverges | ntgcalls/src/e2e/chain/blockchain.cpp:75-151 | from there on the late joiner accepts, rejects and holds what a founder does |
| ChainAgreement.UndefinedExactly | ntgcalls/src/e2e/state.cpp:223-232 | the exact blocks for which the signer lookup reads past an empty list |
| ChainAgreement.BuiltBlockIsAccepted | ntgcalls/src/e2e/chain/blockchain.cpp:20-73 | a built block is accepted by the chain it was built on and gives the state the builder computed |
| ChainAgreement.BuilderIsComplete | ntgcalls/src/e2e/chain/blockchain.cpp:20-73 | the builder gives up only if no block of its signer with these changes would be accepted |
| ChainAgreement.ChangesIgnoreMarks | ntgcalls/src/e2e/state.cpp:72-93 | applying changes does not depend on the marks, and the marks say which kinds occurred |
| ChainAgreement.HashFixesHistory | ntgcalls/src/e2e/chain/blockchain.cpp:136-163 | two accepted histories of one height and last hash are identical, or contain two blocks with one hash |
| GroupSafety.RightsNeverGrow | ntgcalls/src/e2e/state.cpp:46-134 | over every run from height 0 the union of all rights and the outsiders' rights only shrink |
| GroupSafety.MembershipChangesAreAuthorised | ntgcalls/src/e2e/state.cpp:95-134 | at that very change, removing takes the right to remove, adding the right to add, changing the rights of one who stays takes both, and the signer stays in with a right |
| GroupSafety.RightsOfSigner | ntgcalls/src/e2e/permissions.cpp:8-26 | what a signer may do is what it holds in the group, or what outsiders hold if it is not in it; changing the key takes membership |
| GroupSafety.TableHoldsFlags | ntgcalls/src/e2e/state.cpp:101-106 | in a valid group the table of flags gives each participant its own |
| GroupSafety.SizeAndInclusionAddressExactly | ntgcalls/src/e2e/state.cpp:189-206 | equal sizes and inclusion mean addressed to exactly the participants, each once |
| GroupSafety.ReachableStatesAreCovered | ntgcalls/src/e2e/state.cpp:136-248 | in every reachable state ids and keys are unique and the key is absent or addressed to exactly the members |
| GroupSafety.KeyIsFresh | ntgcalls/src/e2e/state.cpp:58-93 | a key in use was installed by a change after which nothing touched the group |
| GroupSafety.KeyReplacedOnlyWithGroup | ntgcalls/src/e2e/state.cpp:58-93 | one key follows another only in a block that also changes the group |
| BlockRules.AcceptedIsSigned | ntgcalls/src/e2e/state.cpp:226-235 | an accepted block is signed, over all of it but the signature, with the key it names or that of the first participant of the group it meets |
| BlockRules.ForeignSignatureIsRejected | ntgcalls/src/e2e/state.cpp:233-235 | a built block whose signature is replaced by one that does not verify is rejected |
| BlockRules.SignatureCoversTheBlock | ntgcalls/src/e2e/state.cpp:208-214 | blocks signed alike differ in the signature only, or two blocks have one encoding |
| BlockRules.GovernsExactly | ntgcalls/src/e2e/state.cpp:46-56 | a key may change the shared key if and only if it is that of a participant with a right |
| BlockRules.ReplacedExactly | ntgcalls/src/e2e/state.cpp:95-150 | a group is let in if and only if it is valid and its signer may remove who is gone, add who is new, change who is changed, and holds all it grants; outsiders gain nothing |
| BlockRules.FitsExactly | ntgcalls/src/e2e/state.cpp:189-206 | a key fits a valid group if and only if it is empty or addresses each member once and nobody else |
| BlockRules.ChangedExactly | ntgcalls/src/e2e/state.cpp:58-93 | each kind of change is applied if and only if its signer may make it |
| BlockRules.AllChangedExactly | ntgcalls/src/e2e/state.cpp:239-243 | a list of changes is applied if and only if the signer may make each in its turn |
| BlockRules.AcceptedExactly | ntgcalls/src/e2e/state.cpp:217-248 | after every accepted history: the next block is accepted if and only if it follows, is signed by someone who may make each of its changes, changes something, and its proof repeats just what it leaves alone |
| BlockRules.AnyoneMayFound | ntgcalls/src/e2e/state.cpp:223-225 | the first block may set any valid group in which its signer has a right |
| BlockRules.OverlayExactly | ntgcalls/src/e2e/chain/blockchain.cpp:86-101 | without authorisation the changes leave the last group and key set, and the marks of what they touch |
| BlockRules.JoinableExactly | ntgcalls/src/e2e/chain/blockchain.cpp:75-114 | a block can be joined from if and only if it is past the start, changes something, its proof gives just what its changes do not, and the resulting group and key are valid; these are what the chain has |
| BlockRules.DoubledMemberIsRefused | ntgcalls/src/e2e/chain/blockchain.cpp:107-110 | a group that lists one participant twice cannot be joined |
| GroupKey.MakeChangesForNewState | ntgcalls/src/e2e/session.cpp:31-66 | the two changes of a new state, with one header per participant in order |
| GroupKey.FindAndDecrypt | ntgcalls/src/e2e/session.cpp:322-347 | the secret in the first header listed for the user id, if it opens to 32 bytes |
| GroupKey.MemberRecoversGroupKey | ntgcalls/src/e2e/session.cpp:31-66 | each listed participant finds its own header and gets the group key |
| GroupKey.MembersShareEpochSecret | ntgcalls/src/e2e/session.cpp:296-347 | all of them end up with one epoch secret, rehashed or not |
| GroupKey.EpochSecretExactly | ntgcalls/src/e2e/session.cpp:296-347 | that secret is the group key, hashed with the block hash if and only if every participant is at version 1 or later |
| GroupKey.FreshKeyIsValid | ntgcalls/src/e2e/session.cpp:45-57 | a key just made for a group passes its validation |
| Join.NewStateBuildsExactly | ntgcalls/src/e2e/session.cpp:103-138 | a new state builds exactly if its signer may set it and stays in it with a right |
| Join.NewStateIsInstalled | ntgcalls/src/e2e/session.cpp:103-138 | the group and key such a block leaves on every chain that applies it |
| Join.ZeroBlockBuilds | ntgcalls/src/e2e/session.cpp:103-113 | the founding block always builds |
| Join.SelfAddBuildsExactly | ntgcalls/src/e2e/session.cpp:115-138 | adding oneself builds exactly if the key is nobody else's and one may add and remove |
| Join.JoinsAlwaysSucceed | ntgcalls/src/e2e/session.cpp:402-430 | any number of joins with fresh keys all build and apply and leave exactly the current joiners |
| Join.EveryoneHoldsTheLastKey | ntgcalls/src/e2e/session.cpp:402-430 | after any such run everyone still in the call recovers the secret of the last joiner |
| Session.Session.ScheduleWaiting | ntgcalls/src/e2e/session.cpp:178-200 | a new generation, posted and current |
| Session.Session.CancelWaiting | ntgcalls/src/e2e/session.cpp:202-206 | a new generation that nothing carries |
| Session.Session.ScheduleShortPoll | ntgcalls/src/e2e/session.cpp:349-363 | a new poll generation, posted and current |
| Session.Session.Apply | ntgcalls/src/e2e/session.cpp:150-176 | a block next in line, or the first, is applied and accounted for, or the session fails for a recorded reason |
| Session.Session.DrainWaiting | ntgcalls/src/e2e/session.cpp:222-245 | the waiting blocks up to the first gap are applied in order, and those applied or passed are dropped |
| Session.Session.SetTimers | ntgcalls/src/e2e/session.cpp:225-247 | what runs next after a drain: a later poll, a timer, or a poll at once |
| Session.Session.CheckWaitingBlocks | ntgcalls/src/e2e/session.cpp:212-248 | nothing while failed, without a chain or during a poll; else drains and reschedules |
| Session.Session.ShortPoll | ntgcalls/src/e2e/session.cpp:432-447 | asks for blocks from the current height, or waits for a chain first |
| Session.Session.FinishSubchainRequest | ntgcalls/src/e2e/session.cpp:449-456 | the poll is over and what had to wait is applied |
| Session.Session.WaitingTimerFires | ntgcalls/src/e2e/session.cpp:184-199 | only the current generation acts, and polls at once if the gap is still there |
| Session.Session.PollTimerFires | ntgcalls/src/e2e/session.cpp:353-361 | only the current generation polls |
| Session.Session.HoldBack | ntgcalls/src/e2e/session.cpp:494-497 | early blocks wait under their index, the first one kept |
| Session.Session.DropOlder | ntgcalls/src/e2e/session.cpp:475-480 | a poll reply makes the waiting blocks before its end pointless |
| Session.Session.ApplyDirectly | ntgcalls/src/e2e/session.cpp:499-509 | blocks of a delivery are applied exactly where they meet the height, or the first one of all |
| Session.Session.NoteLastBlock | ntgcalls/src/e2e/session.cpp:469-472 | the newest main block seen is kept for a later join |
| Session.Session.ApplyBlocks | ntgcalls/src/e2e/session.cpp:463-511 | the blocks applied, the height, the waiting table and the log as functions of the state before; the session fails exactly for a polled broadcast without a chain or for main blocks that cannot all be applied; nothing is asked |
| SessionSpec.DrainStopsAtGap | ntgcalls/src/e2e/session.cpp:222-245 | draining takes exactly the consecutive run from the height on |
| SessionSpec.ContiguousMeansEveryIndex | ntgcalls/src/e2e/session.cpp:463-511 | in order, at most once and balanced means every index from the first applied to the height |
| SessionSpec.DeliveryDecidesContiguity | ntgcalls/src/e2e/session.cpp:474-510 | a delivery leaves the main log contiguous exactly unless a poll reply starts past the height without the first block |
| SessionSpec.StepIsReplay | ntgcalls/src/e2e/session.cpp:264-294 | out of an accepted log the next block in line always yields the next chain, from whatever first block |
| SessionSpec.FoldIsReplay | ntgcalls/src/e2e/session.cpp:150-176 | the chain of a consecutive run of applied blocks is the chain of the log up to there |
| SessionSpec.DeliveryKeeps | ntgcalls/src/e2e/session.cpp:474-510 | a delivery drops no waiting block above the height it reaches, and all it brings is below that height or waits |
| SessionSpec.WaitsDuringPoll | ntgcalls/src/e2e/session.cpp:212-224 | during a poll what waits goes on waiting, save what a reply reaches past |
| SessionSpec.TakenAtOnceExactly | ntgcalls/src/e2e/session.cpp:492-509 | during a poll a delivery is taken at once if and only if it is polled, or starts at or below the height and is no broadcast before the chain; otherwise height and log stay |
| SessionSpec.OnlyMembersGoOn | ntgcalls/src/e2e/session.cpp:264-347 | a step only succeeds for a member the chain lists under its own id and key, and that can open the group key |
| SessionRuns.AppliedInOrderOnce | ntgcalls/src/e2e/session.cpp:463-511 | applied indices strictly increase below the height, come from what was delivered, and on the main chain leave no gap; between polls every waiting main block is above the height, and so is every waiting broadcast once that subchain has been looked at with a chain |
| SessionRuns.Step | ntgcalls/src/e2e/session.cpp:178-511 | what any event keeps: no height goes back, every waiting block stays until the height is past it, all that is delivered is below the height or waits, and neither a delivery nor the end of a request asks for more; the broadcast subchain as the chain found it is noted when the chain arrives, and dropped exactly at the next delivery, timer or end of request that looks at it between polls |
| SessionRuns.OverdueExactly | ntgcalls/src/e2e/session.cpp:212-248 | in every reachable state with a chain and between polls: something that could be applied is left waiting if and only if it is on the broadcast subchain, one was at or below the height there when the chain arrived, and nothing has looked at it since; its timer is then running |
| SessionRuns.MainEventsLeaveBroadcasts | ntgcalls/src/e2e/session.cpp:150-176 | whatever main events bring the chain and follow it: no broadcast poll is under way, and a broadcast is overdue if and only if one waited at or below the height before |
| SessionRuns.EarlyBroadcastIsOverdue | ntgcalls/src/e2e/session.cpp:494-510 | broadcast 0, then main block 0: the session is healthy, has a chain and no poll under way, and the broadcast is left waiting at its own height |
| SessionRuns.TimerAppliesOverdue | ntgcalls/src/e2e/session.cpp:184-199 | its waiting timer then applies it |
| SessionRuns.NeverStalls | ntgcalls/src/e2e/session.cpp:178-248 | waiting means a current timer is posted, and then no current poll timer; every subchain that was started or has a chain to apply to has a poll, a timer or a poll timer |
| SessionRuns.NeverFailsOnAnAcceptedLog | ntgcalls/src/e2e/session.cpp:150-176 | with admissible deliveries out of an accepted log, from where the member has its key, no session fails |
| SessionRuns.HoldsTheChainOfTheLog | ntgcalls/src/e2e/session.cpp:463-511 | a session that has not failed holds the chain of the log at its height |
| SessionRuns.SameHeightSameChain | ntgcalls/src/e2e/session.cpp:264-294 | two sessions fed out of one log in any order, joined at any block, agree at equal height |
| SessionRuns.Run | ntgcalls/src/e2e/session.cpp:463-511 | every run of pushes, poll replies and timers keeps the invariant; if each delivery was admissible, on slices of an accepted log it ends healthy with the chain of the log |
| SessionRuns.Feed | ntgcalls/src/e2e/session.cpp:463-511 | every run of any events: unless the session fails, every block ever handed in is below the height or waits |
| SessionRuns.NothingIsLost | ntgcalls/src/e2e/session.cpp:463-511 | then every main block from the first applied on is applied or waits, if each delivery was admissible |
| SessionRuns.ReplyMeetsWhatWaits | ntgcalls/src/e2e/session.cpp:449-511 | during a poll the block after the next is pushed, the reply brings the next one, and the end of the request applies both |
| SessionRuns.AsksOnceWithoutChain | ntgcalls/src/e2e/session.cpp:212-220 | whatever is delivered and whatever runs: as long as there is no chain, the request made at the start stays the only one and no poll timer is posted for main blocks |
| SessionRuns.EmptyReplyLosesStep | ntgcalls/src/e2e/session.cpp:489-509 | a session given an empty poll reply before its first block is healthy and at the announced height with nothing applied |
| SessionRuns.EmptyReplyStrandsTheSession | ntgcalls/src/e2e/session.cpp:489-509 | it still joins with a pushed block but stays at the announced height, and fails on the block it takes for the next, all out of an accepted log |
| SessionRuns.LaterBlockDoesNotFollow | ntgcalls/src/e2e/session.cpp:280-294 | a block of an accepted log cannot be applied to a chain that ends before the block in between |
| SessionServed.ChainMeansStarted | ntgcalls/src/e2e/session.cpp:463-511 | a session has a chain only once its height is past the first block it can have been given |
| SessionServed.Serve | ntgcalls/src/e2e/session.cpp:432-511 | whatever pushes, answers to its own requests and timers interleave, a session served out of an accepted log stays admissible, never fails and holds the chain of the log |
| SessionServed.AnswerWithTheRest | ntgcalls/src/e2e/session.cpp:463-511 | any request for main blocks, answered with the rest of the log, brings the session to the end of the log and to its chain, also as its first blocks |
| SessionServed.Ask | ntgcalls/src/e2e/session.cpp:178-248 | with a chain, the end of a request and the timers that are posted always lead to a new request at the height |
| SessionServed.CatchUp | ntgcalls/src/e2e/session.cpp:432-511 | with a chain, however few blocks each answer brings, going on polling ends with the chain of the whole log |
| ReplayWindow.MarkAsSeen | ntgcalls/src/e2e/session_encryption.cpp:56-62 | keeps the largest recent part that fits the window |
| ReplayWindow.TrimKeepsTheMost | ntgcalls/src/e2e/session_encryption.cpp:59-61 | only older numbers are dropped and no more than necessary |
| ReplayWindow.WindowRefinesHistory | ntgcalls/src/e2e/session_encryption.cpp:45-62 | up to 2^32-1025 the kept set is the recent end of the full history, at most 1024 numbers within 1024 of each other |
| ReplayWindow.NoneAcceptedTwice | ntgcalls/src/e2e/session_encryption.cpp:45-62 | as long as every accepted number was safe or anchored, no number is accepted twice, and an unseen one is refused exactly if it is older than everything kept |
| ReplayWindow.SafeRunsAreHeld | ntgcalls/src/e2e/session_encryption.cpp:56-62 | which holds of every run of numbers up to 2^32-1025 |
| ReplayWindow.ReplayableExactly | ntgcalls/src/e2e/session_encryption.cpp:45-62 | over every run: some accepted number can be accepted once more at some moment if and only if some accepted number was neither safe nor anchored |
| ReplayWindow.UnheldIsReplayable | ntgcalls/src/e2e/session_encryption.cpp:56-62 | the first copy after such a number is accepted |
| ReplayWindow.OlderNumberComesBack | ntgcalls/src/e2e/session_encryption.cpp:56-62 | such a number empties the window, so that an older, safe number is accepted a second time |
| ReplayWindow.FiveComesBack | ntgcalls/src/e2e/session_encryption.cpp:56-62 | the run 5, 2^32-1024, 5 |
| ReplayWindow.CountingUpIsAccepted | ntgcalls/src/e2e/session_encryption.cpp:45-54 | increasing numbers are all accepted |
| ReplayWindow.ReplayedAtOnceExactly | ntgcalls/src/e2e/session_encryption.cpp:56-62 | the condition, in terms of the window before, under which a number just marked is accepted again at once |
| ReplayWindow.LastNumberIsForgotten | ntgcalls/src/e2e/session_encryption.cpp:59-61 | a first packet numbered above 2^32-1025 is forgotten at once |
| Epochs.SyncKeepsTidy | ntgcalls/src/e2e/session_encryption.cpp:64-74 | synchronising keeps table and index inverse, keeps the newest epoch, leaves at most 15 and nothing due |
| Epochs.ForgottenEarlyOnlyIfCrowded | ntgcalls/src/e2e/session_encryption.cpp:64-74 | an epoch goes before its delay only if more than 15 are active, and then exactly 15 stay |
| Epochs.SyncOnlyForgets | ntgcalls/src/e2e/session_encryption.cpp:64-74 | synchronising changes no epoch that stays |
| Epochs.RekeyKeepsTidy | ntgcalls/src/e2e/session.cpp:296-320 | superseding an epoch and entering the next keeps all that |
| Epochs.EveryRunStaysTidy | ntgcalls/src/e2e/session_encryption.cpp:286-300 | so does every run of new keys and synchronisations under a clock that does not go back |
| Epochs.SupersededStays | ntgcalls/src/e2e/session_encryption.cpp:64-74 | the epoch a new key supersedes stays for ten seconds from then, unless more than fifteen are active, and then exactly fifteen stay |
| Packets.FrameParses | ntgcalls/src/e2e/session_encryption.cpp:213-250 | a frame with up to 15 epochs and a prefix below 2^16 parses into its parts |
| Packets.ParsedExactly | ntgcalls/src/e2e/session_encryption.cpp:213-250 | a packet parses into some parts if and only if it is made of them: a prefix below 2^16 with its size at the end, a count up to fifteen, version and reserved bytes zero, as many hashes and headers |
| Packets.InnerRoundTrip | ntgcalls/src/e2e/session_encryption.cpp:80-171 | the sealed part opens to channel, number and data under the signer's key |
| Packets.PacketRoundTrip | ntgcalls/src/e2e/session_encryption.cpp:173-284 | a packet opens to the data, prefix included, for a member that shares a listed epoch, and for no one who shares none |
| Packets.OpenedInnerIsSigned | ntgcalls/src/e2e/session_encryption.cpp:118-171 | what opens as a member's is what that member of the group signed: channel, number and data, with the epochs and the prefix of the packet |
| Packets.OpenedIsSigned | ntgcalls/src/e2e/session_encryption.cpp:213-284 | the same for a whole packet, in an epoch it lists and the receiver has; nobody opens its own |
| Packets.ForeignPacketStaysClosed | ntgcalls/src/e2e/session_encryption.cpp:146-152 | a packet not signed by the member it is delivered as opens for nobody |
| Packets.Active | ntgcalls/src/e2e/session_encryption.cpp:184-188 | the listed epochs are those of the table, each once |
| Packets.ActiveIsAscending | ntgcalls/src/e2e/session_encryption.cpp:184-188 | they are listed oldest first |
| SessionEncryption.SessionEncryption.Sync | ntgcalls/src/e2e/session_encryption.cpp:64-74 | the loop leaves the specified table, index and queue |
| SessionEncryption.SessionEncryption.ForgetSharedKey | ntgcalls/src/e2e/session_encryption.cpp:286-289 | the epoch is queued with its due time |
| SessionEncryption.SessionEncryption.AddSharedKey | ntgcalls/src/e2e/session_encryption.cpp:291-300 | an epoch is entered exactly if the member finds itself in its group |
| SessionEncryption.SessionEncryption.CheckNotSeen | ntgcalls/src/e2e/session_encryption.cpp:45-54 | true exactly for a number not seen and not older than what is kept |
| SessionEncryption.SessionEncryption.RememberSeen | ntgcalls/src/e2e/session_encryption.cpp:56-62 | only the set of that sender and channel changes, to the trimmed one |
| SessionEncryption.SessionEncryption.EncryptPacketWithSecret | ntgcalls/src/e2e/session_encryption.cpp:80-113 | takes the next number of the channel and seals under it; refuses a bad channel or the last number |
| SessionEncryption.SessionEncryption.Encrypt | ntgcalls/src/e2e/session_encryption.cpp:173-220 | the specified packet, or none for a bad prefix, channel, number or empty table |
| SessionEncryption.SessionEncryption.DecryptPacketWithSecret | ntgcalls/src/e2e/session_encryption.cpp:115-171 | delivers an opened packet once and remembers it, or changes nothing; what it delivers was signed by the named member of the group |
| SessionEncryption.SessionEncryption.Decrypt | ntgcalls/src/e2e/session_encryption.cpp:222-284 | the first known listed epoch decides; a packet is delivered once; what is delivered was signed by the named member, in an epoch the packet lists and the receiver has |
| SessionEncryption.OwnIdIsFound | ntgcalls/src/e2e/session_encryption.cpp:293-296 | a member that found itself by key is found by id under that key |
| SessionEncryption.AlikeMeansAgreed | ntgcalls/src/e2e/session_encryption.cpp:291-300 | the receiver finds the sender in the matched epoch because the sender entered only epochs it belongs to |
| SessionEncryption.UpdateGroupSharedKey | ntgcalls/src/e2e/session.cpp:296-320 | superseding the previous block's epoch and entering the new one |
| SessionEncryption.SendAndReceiveTwice | ntgcalls/src/e2e/session_encryption.cpp:173-284 | between members that know shared epochs alike, one sends, the other receives the data, and a second copy is refused |
| VerificationSpec.EveryRoundIsSound | ntgcalls/src/e2e/session_verification.cpp:44-132 | in every run commitments are frozen after their phase, nonces match them, and a fingerprint exists exactly at the end |
| VerificationSpec.FingerprintsAgree | ntgcalls/src/e2e/session_verification.cpp:69-111 | same block, participants and commitments give one fingerprint, whatever arrived, or two nonces with one digest |
| VerificationSpec.HonestRoundCompletes | ntgcalls/src/e2e/session_verification.cpp:44-132 | all commitments and then all reveals, in any order and among anything else, end with the fingerprint of the nonces |
| VerificationSpec.RoundEndsExactly | ntgcalls/src/e2e/session_verification.cpp:44-132 | where everyone signs for one nonce, a round ends if and only if at some point all had committed and after it all reveal |
| VerificationSpec.LeavesCommitExactly | ntgcalls/src/e2e/session_verification.cpp:44-67 | a new round leaves the commit phase if and only if every participant's signed commitment is among the messages |
| VerificationSpec.NothingCountsExactly | ntgcalls/src/e2e/session_verification.cpp:44-132 | messages leave a new round as it is if and only if none is a commitment signed by a participant |
| VerificationSpec.StoredCameFromMessages | ntgcalls/src/e2e/session_verification.cpp:44-132 | commitments and nonces on record come from authentic messages of those they are stored under |
| VerificationSpec.MessageTakesEffect | ntgcalls/src/e2e/session_verification.cpp:44-111 | an authentic message is in effect after any run containing it |
| VerificationSpec.FingerprintIsCanonical | ntgcalls/src/e2e/session_verification.cpp:95-108 | the fingerprint depends on which nonces there are, not on their order |
| VerificationSpec.SortedIsCanonical | ntgcalls/src/e2e/session_verification.cpp:100 | one multiset has one sorted arrangement |
| VerificationSpec.AtMostExactly | ntgcalls/src/e2e/session_verification.cpp:100-102 | nonces are ordered by the first byte in which they differ |
| VerificationSpec.FingerprintHoldsAllNonces | ntgcalls/src/e2e/session_verification.cpp:94-108 | at its end a round has the digest, under the block hash, of 32 bytes for each participant: all revealed nonces, each as often as it was revealed, in ascending order |
| VerificationSpec.EqualFingerprintsMeanEqualNonces | ntgcalls/src/e2e/session_verification.cpp:94-108 | equal fingerprints for one block mean equal nonces, each revealed equally often, or there are two messages with one digest |
| VerificationSpec.KeysAreThoseOfTheFirst | ntgcalls/src/e2e/session_verification.cpp:195-198 | each id stands for its first participant |
| VerificationSpec.RecordedWasSigned | ntgcalls/src/e2e/session_verification.cpp:44-132 | whatever arrives, all that is on record for an id was signed, for this block and over the whole message, by the participant of that id |
| Verification.SessionVerification.ProcessCommit | ntgcalls/src/e2e/session_verification.cpp:44-67 | takes in a first commitment signed by a participant while committing, and nothing else |
| Verification.SessionVerification.ProcessReveal | ntgcalls/src/e2e/session_verification.cpp:69-111 | takes in a first matching nonce signed by a participant while revealing, and ends with the fingerprint |
| Verification.SessionVerification.ProcessBroadcast | ntgcalls/src/e2e/session_verification.cpp:113-132 | nothing about another block counts |
| Verification.SessionVerification.EmitRevealIfNeeded | ntgcalls/src/e2e/session_verification.cpp:134-148 | queues the own nonce once, in the reveal phase |
| Verification.SessionVerification.ReceiveInboundMessage | ntgcalls/src/e2e/session_verification.cpp:150-173 | past messages are ignored, future ones put aside, present ones taken in; the nonce is queued exactly as the commit phase ends |
| Verification.SessionVerification.ReplayDelayed | ntgcalls/src/e2e/session_verification.cpp:215-221 | only messages that do not parse cleanly are processed on replay |
| Verification.SessionVerification.OnNewMainBlock | ntgcalls/src/e2e/session_verification.cpp:185-224 | a new round with nothing taken in, one commitment to send, and nothing put aside for a past height |
| Verification.EarlyEqualsOnTimeExactly | ntgcalls/src/e2e/session_verification.cpp:212-222 | replaying what came early for a new block has the effect it would have had on time if and only if none of it is a commitment signed by a participant |
| Verification.CommitOnlyEarlyStalls | ntgcalls/src/e2e/session_verification.cpp:150-224 | if a participant's commitment came only early, the round stays in the commit phase whatever else arrives |
| Verification.OwnCommitCountsOnlyOnTime | ntgcalls/src/e2e/session_verification.cpp:185-224 | a member's own commitment counts where it arrives on time and not where it arrives early |
| Verification.OwnMessagesAreAuthentic | ntgcalls/src/e2e/session_verification.cpp:134-148 | own messages are accepted by whoever has the member under its key |
| Verification.HandleBroadcast | ntgcalls/src/e2e/session.cpp:150-158 | at most one message is waiting after a broadcast, so sending the last one loses none |
| Verification.RunRound | ntgcalls/src/e2e/session_verification.cpp:150-224 | a block and any messages after it make the specified round; the commitment is sent once, the nonce once and only when all have committed |
| Verification.RunBlocks | ntgcalls/src/e2e/session_verification.cpp:150-224 | over successive blocks each round is made by the messages of its own span alone; what came about a later height waits in order of arrival, and nothing is kept for a height that has passed |
| Verification.EveryoneFinishes | ntgcalls/src/e2e/session_verification.cpp:134-224 | once all members' own commitments and then their own nonces came, in any order and number, the round is at its end with everybody's nonce |
| Conference.JoinBlocksReplay | ntgcalls/src/e2e/session.cpp:402-430 | replaying the blocks of any run of joins gives the chain of the run |
| Conference.MemberIsKeyed | ntgcalls/src/e2e/session.cpp:296-347 | a member still in the call finds itself and its key in every chain from its own block on |
| Conference.AttendCall | ntgcalls/src/e2e/session.cpp:463-511 | given the blocks from its own on, by pushes and answers to its requests in any order, a member's session never fails and holds the chain of the call |
| Conference.AnyTwoMembersCanTalk | ntgcalls/src/e2e/session_encryption.cpp:173-284 | what one member seals under all its active epochs opens for another that has one of them, or two blocks of the call have one hash |
| Conference.EnterChain | ntgcalls/src/e2e/session.cpp:296-347 | a member of the call enters the epoch of each block, and its table holds nothing but epochs of the call |
| Conference.MembersKnowAlike | ntgcalls/src/e2e/session.cpp:296-320 | members of one call know every shared epoch alike, or two of its blocks have one hash |
| Conference.Converse | ntgcalls/src/e2e/session_encryption.cpp:173-284 | between two objects fed from one call the data arrives, and once only |
| Conference.NextEpochKeepsTidy | ntgcalls/src/e2e/session.cpp:296-320 | entering the next block of the call keeps the table in order, with that epoch, or two blocks of the call have one hash |
| Conference.FollowCall | ntgcalls/src/e2e/session.cpp:296-347 | an object given the chains of successive blocks, and used in between, holds nothing but epochs of the call, in order, with the last, or two blocks have one hash |
| Conference.FollowAndTalk | ntgcalls/src/e2e/session_encryption.cpp:173-300 | two new objects fed from one call, from wherever each begins and with uses in between: at a common block the data arrives, and once only |
| ThreadedReader.StepKeepsInv | ntgcalls/src/io/threaded_reader.cpp:38-99 | every atomic step of every thread keeps the invariant |
| ThreadedReader.EveryReachableStateIsOrdered | ntgcalls/src/io/threaded_reader.cpp:38-99 | so does every interleaving with enabling, disabling and closing |
| ThreadedReader.OneReaderOneEmitter | ntgcalls/src/io/threaded_reader.cpp:46-94 | never two readers or two emitters, and the frames out are a beginning of the frames read |
| ThreadedReader.BufferIsTheGap | ntgcalls/src/io/threaded_reader.cpp:46-94 | while running the chunks held are exactly those read and not handed on, at most one per thread, each intact |
| ThreadedReader.NeverDeadlocks | ntgcalls/src/io/threaded_reader.cpp:46-94 | while running and enabled some thread can go on |
| ThreadedReader.EofIsSignalled | ntgcalls/src/io/threaded_reader.cpp:95-99 | the end is never signalled while running and always once all threads are gone |
| ThreadedReader.EofCanComeTwice | ntgcalls/src/io/threaded_reader.cpp:38-42 | for any number of threads above one there is a run that signals it twice |
| ThreadedReader.SignalsAgainExactly | ntgcalls/src/io/threaded_reader.cpp:38-99 | for any number of threads: once the reader has stopped, another signal is possible if and only if some thread is not gone yet |
| ThreadedReader.OnlyLatecomersSignalAgain | ntgcalls/src/io/threaded_reader.cpp:38-99 | after a signal with nobody registered, another is possible if and only if some thread is still to register |
| ThreadedReader.EofComesOnce | ntgcalls/src/io/threaded_reader.cpp:95-99 | if every thread has registered by the first signal, that signal is the only one |
| ThreadedReader.DisabledMeansSilent | ntgcalls/src/io/threaded_reader.cpp:71-79 | nothing starts to be emitted while disabled, whatever the threads do and also if the reader is closed |
| ThreadedReader.AtMostOneChunkMore | ntgcalls/src/io/threaded_reader.cpp:71-90 | from any reachable state on, while disabled at most the chunk under way is handed on, and then all is silent |
| ThreadedReader.AtMostOneFrameAfterTheStop | ntgcalls/src/io/threaded_reader.cpp:81-86 | once stopped, the frame being sent is the last to go out |
| Signaling.SignalingSctpConnection.Send | ntgcalls/src/signaling/signaling_sctp_connection.cpp:55-75 | taken by the transport if ready, else appended to what is pending |
| Signaling.SignalingSctpConnection.OnReadyToSend | ntgcalls/src/signaling/signaling_sctp_connection.cpp:77-95 | sends up to the first refusal and keeps the rest in order; ready exactly if nothing is left |
| Signaling.AcceptedThenPendingIsSent | ntgcalls/src/signaling/signaling_sctp_connection.cpp:55-95 | in every run what was taken, then what is pending, is what was sent, and ready means nothing pending |
| Signaling.AllIsDeliveredInTheEnd | ntgcalls/src/signaling/signaling_sctp_connection.cpp:77-95 | one ready event with a willing transport delivers everything |
| Signaling.Run | ntgcalls/src/signaling/signaling_sctp_connection.cpp:55-95 | the objects do what those lemmas are about |

## Left out

- Boxed codec of blocks and broadcasts: `ntgcalls/tl/e2e_api.hpp` is not part of this model; encoding a block is a function of the block, decoding a broadcast is a function that also says whether the reader finished.
- Server framing: `from_server_to_local`, `read_magic` and `write_magic` are the `parse` parameter of a client, which turns a server block into a block or refuses it.
- Primitives: the bodies of AES, HMAC, SHA-256, Ed25519 and X25519, and anything about secrecy, forgery or unpredictability.
- `decrypt_data` on a 16-byte input reads the first byte of an empty plaintext; the model refuses such an input.
- Real threads, mutexes, weak pointers and task posting: each event of a session is one atomic step and callbacks do not call back; timers are posted and fire in any order, also spuriously.
- Wall-clock delays of timers and pacing of frames: `synchronize_time`, `wait_next_frame`, `last_update` and the timeouts of `session.hpp`.
- Signed overflow of the timer generations and of `next_offset`: these counters are unbounded here.
- Session calls into the encryption and verification objects: the session knows only whether the member finds itself and its key in a chain; the two objects are modelled in their own modules, and emoji display is left out.
- The emoji table and all string formatting: only the fingerprint bytes matter.
- Restarting a threaded reader, and the frame and end-of-file callbacks being cleared by `close`: one run, from the start of its threads.
- Packets of the signalling connection are taken as already encrypted; SCTP, DTLS and ICE below it are left out.
- The trie behind `kv_hash`: `ChangeSetValue` only marks the state, as in the code.
- `NTgCalls`, `CallInterface`, `GroupCall`, `P2PCall`, devices, codecs, bindings and build files.
- SessionRuns.NeverFailsOnAnAcceptedLog: needs that the member finds itself and its key in every chain from its first block on, because the code fails the session otherwise.
