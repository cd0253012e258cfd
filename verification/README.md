# A verified model of a Media over QUIC relay

This project models a relay for draft-ietf-moq-transport-17, its wire library, the TypeScript client's
reader, and the publisher and subscriber programs around them, and proves what they keep. It is checked
with Dafny 4.11 (`dafny verify dfyconfig.toml`).

## What is modelled

**The relay as interleaved tasks** (modules `RelayTables`, `RelaySystem`, `RelayInvariants`, `RelayTheorems`,
`RelayResponses`, `RelayRuns`). `RelayTables.RelayState` is the shared state as a class with the source's maps; each of its
methods is proved against a function on the value of those maps (`Tables`). `RelaySystem` is the step
system: connections, SUBSCRIBE handlers, namespace handlers and data-stream handlers, each with its
program counter and locals. The code between two `.await` points is one atomic step. The environment
chooses the next task, connects and disconnects sessions, answers or refuses upstream, and lets writes
succeed or fail. Three kinds of lock are modelled: per track, state, per request; the guard in the `match`
scrutinee of handle_subscribe lives through the `None` arm. `History` records, for the theorems only, which
upstream requests were sent, failed or lost their entry, which SUBSCRIBE_OK each handler is to send and which PUBLISH_DONE it got. `RelayTheorems` holds for all reachable states or
for all runs: aggregation, session references, deadlock freedom, how many responses a request sees, and
track isolation. `RelayResponses` says which requests are left without an answer or without PUBLISH_DONE.
`RelayRuns` gives concrete runs to the states that these conditions speak of.

**The wire library** (`Words`, `Codec`, `Varint`, `Blocks`, `KeyValuePairs`, `Parameters`, `Namespaces`,
`Wire`, `Messages`, `Setup`, `Subgroups`, `WireBytes`, `Utf8`). Each encoder and decoder is a method over a growing buffer or a
cursor, as in the source, and is proved against an encoding function or a specification parser. The laws
are about those: round trips with the exact conditions under which they hold, decoders that consume only
what they need, encodings that cannot be shortened. `WireBytes` has one example of each message byte by byte, and
`Utf8` says which track names the relay takes. Bit operations are written as arithmetic; `WordBits`
proves the two forms equal on machine words.

**Streams, fan-out and forwarding** (`Streams`, `Fanout`, `Forwarding`). The stream readers refine the slice
decoders on the whole stream content. `Fanout` is handle_data_stream over stream objects that may fail at any
byte. `Forwarding` is about what the relay decodes and encodes again.

**The TypeScript client** (`Doubles`, `TsVarint`, `TsMessage`, `StreamReader`). Numbers are doubles: the encoder
takes whole numbers of at most 2^53 - 1, the decoder rounds every sum as IEEE 754 does, and `&` and `>>` go through
ToInt32. The buffered reader works over arbitrary chunks.

**Publisher and subscriber programs** (`Segmentation`, `Ivf`, `Pipeline`). Cutting a frame sequence into
groups at keyframes, writing the groups to streams, the IVF container, and the whole way from the
publisher's file to the subscriber's over streams that may be relayed, cut off, lost and reordered.

## Where the code and its documentation differ

The model follows the code.

- moqt-core/src/wire/parameter.rs:15-18 says that the decoder advances past skipped parameters without error, and
  that relays do not forward parameters. A parameter that follows a skipped one is misread
  (`Parameters.OneSkipped` has the exact condition for one skipped parameter, `Parameters.RunOfSkipped` for a run of
  them, `Parameters.FirstKeptAfterSkip` the law for all that can follow), and handle_subscribe does send the decoded
  parameters of the first subscriber on to the publisher (`Forwarding.SubscribeIsForwardable`).
- moqt-core/src/wire/varint.rs:23-24 calls the first byte 0xFD invalid. The code takes it for the 9-byte form
  (`Varint.AcceptedIsEncoding`); the TypeScript decoder does reject it (`TsVarint.AgreesWithRust`).
- web/src/wire/varint.ts:14-17 takes values up to 2^53 - 1 to be safe. The decoder accumulates the prefix byte too, so
  that an 8-byte form runs past 2^53 whatever its value: from 2^42 on, a number comes back only if it is a multiple of
  2^11 (`TsVarint.OwnRoundTrip`, `TsVarint.FirstLoss`).
- A SUBSCRIBE is not always answered: `RelayResponses.UnansweredIff` has the three cases. One of them is a SUBSCRIBE_OK
  with a filter other than NextGroupStart, which the relay decodes and records and then fails to encode; every
  subscriber that joins such an entry is listed and hears nothing (`RelayResponses.UnencodableEntry`,
  `Forwarding.ReceivedAndNotSent`).
- One subscriber that does not read its REQUEST_ERROR stops the whole relay, because the state lock is held while the
  error is written (`RelayTheorems.StalledByOneWrite`). `RelayTheorems.NoDeadlock` counts the end of that write as a
  step that can be taken.
- moqt-core/src/stream/data.rs:33-34 and moqt-core/src/session/mod.rs:266-268 speak of pass-through of the raw
  header. The relay decodes the header and encodes it again; `Fanout.HeaderIsPassedThrough` says exactly when its
  bytes stay the same.
- moqt-core/src/wire/subgroup_header.rs:91-93 says that the optional fields are not stored. They are.
- moqt-core/src/wire/object.rs:40-51 puts the payload length before the properties and has no status field, so
  nothing is claimed about Figure 25 of section 10.4.2 of the draft.
- A request that joins an existing subscription can see PUBLISH_DONE before SUBSCRIBE_OK
  (`RelayRuns.OvertakingRun`), and so can one that is recorded after a deletion
  (`RelayRuns.OvertakingAfterDeletionRun`, `RelayRuns.DoneWithoutAnswerRun`); `RelayResponses.DoneBeforeAnswer` is the
  exact condition. A request can see several PUBLISH_DONE: `RelayTheorems.DoneBound` is the bound, and
  `RelayRuns.DoneBoundIsAttained` reaches it for every number of deletions. A request that joins late can see none
  (`RelayResponses.NotifiedIffListed`, `RelayResponses.JoinerIsStranded`).
- A SUBSCRIBE that the relay accepts can be too long to be sent on under a new request ID, because the length is cast
  to 16 bits: `Forwarding.SubscribeReachesPublisher` has the exact condition.

## Model

| member | source | states |
|---|---|---|
| `RelayTables.RelayState.RegisterSession` | moqt-relay/src/relay.rs:103-108 | issues the next ID, adds it to the live sessions and changes nothing else |
| `RelayTables.RelayState.RemoveSession` | moqt-relay/src/relay.rs:111-123 | the session leaves the live sessions, its namespaces and its subscriber entries; a track goes when it was the publisher or no subscriber is left |
| `RelayTables.RelayState.RegisterNamespace` | moqt-relay/src/relay.rs:126-128 | the namespace gets this owner, replacing an earlier one |
| `RelayTables.RelayState.FindPublisherSession` | moqt-relay/src/relay.rs:133-145 | the loop ends and returns exactly the live owner of the longest registered field-wise prefix, or nothing |
| `RelayTables.RelayState.AddSubscriber` | moqt-relay/src/relay.rs:148-166 | a missing track is inserted, and the entry is appended either way |
| `RelayTables.RelayState.FindSubscriberSessions` | moqt-relay/src/relay.rs:169-183 | the live sessions of the entries of the matching tracks, in some order of the map |
| `RelayTables.RelayState.FindSubscriberRequests` | moqt-relay/src/relay.rs:194-199 | the request handles of the track in list order, none for an unknown track |
| `RelayTables.WithoutSession` | moqt-relay/src/relay.rs:119 | what retain leaves: exactly the entries of other sessions |
| `RelayTables.RemoveEntries` | moqt-relay/src/relay.rs:116-122 | an entry goes if and only if its publisher is the session that leaves, or every subscriber of it is on that session; one that stays keeps its publisher, alias and SUBSCRIBE_OK and exactly the subscribers of other sessions |
| `RelayTables.RemoveOwners` | moqt-relay/src/relay.rs:112-113 | a namespace goes if and only if the session that leaves owns it, every other session stays, and the next ID and the track locks are untouched |
| `RelayTables.LongestPrefixRouting` | moqt-relay/src/relay.rs:133-145 | dropping trailing fields finds a registered prefix of maximal length, and misses none |
| `RelayTables.RoutesToLiveOwner` | moqt-relay/src/relay.rs:133-145 | the answer is a session if and only if it is live and owns the longest registered prefix; a shorter prefix never stands in for a dead owner |
| `RelayTables.LiveSessions` | moqt-relay/src/relay.rs:180-181 | the sessions of the entries that are still registered, and no others |
| `RelayTables.LiveOncePerEntry` | moqt-relay/src/relay.rs:180-182 | a live session is listed once per entry, a dead one never |
| `RelayTables.TargetsOncePerEntry` | moqt-relay/src/relay.rs:169-183 | the result is, as a multiset, the live sessions of all matching entries |
| `RelayTables.OrderDoesNotMatter` | moqt-relay/src/relay.rs:174-182 | any two iteration orders of the map give the same multiset of sessions |
| `RelayInvariants.LocksKept` | moqt-relay/src/relay.rs:421-508 | a lock has one owner, namely the task whose program counter holds it |
| `RelayInvariants.IdsKept` | moqt-relay/src/relay.rs:103-123 | every ID in the tables and in a task local was issued |
| `RelayInvariants.ListsKept` | moqt-relay/src/relay.rs:436-449 | no request is listed twice, and each listed entry belongs to the handler that listed it |
| `RelayInvariants.VacantKept` | moqt-relay/src/relay.rs:435-488 | a handler that found no entry under the track lock still finds none when it records |
| `RelayInvariants.FatesKept` | moqt-relay/src/relay.rs:457-488 | every upstream SUBSCRIBE is in flight, failed, the current entry of its track, or an entry that was deleted |
| `RelayInvariants.AnswersKept` | moqt-relay/src/relay.rs:403-499 | which responses a request has seen is fixed by the phase of its handler |
| `RelayInvariants.DonesKept` | moqt-relay/src/relay.rs:502-508 | PUBLISH_DONE goes once from each handler to each request of its snapshot so far |
| `RelayInvariants.AliasesKept` | moqt-relay/src/relay.rs:479-488 | a recorded track carries an alias that its publisher assigned to it |
| `RelayInvariants.ReferencesKept` | moqt-relay/src/relay.rs:111-128 | references to removed sessions come from tasks that wrote late |
| `RelayInvariants.InvKept` | moqt-relay/src/relay.rs:235-510 | every step keeps the whole invariant |
| `RelayInvariants.InvReachable` | moqt-relay/src/relay.rs:235-510 | the invariant holds in every reachable state |
| `RelayTheorems.OneHolderPerTrack` | moqt-relay/src/relay.rs:421-492 | in every reachable state at most one task is between taking the track lock and giving it back |
| `RelayTheorems.RecordFindsVacantTrack` | moqt-relay/src/relay.rs:482-488 | add_subscriber always finds the track vacant |
| `RelayTheorems.UpstreamOnlyAfterLoss` | moqt-relay/src/relay.rs:435-477 | a second upstream SUBSCRIBE for a track is preceded by the failure of the first or the deletion of its entry |
| `RelayTheorems.OneLiveUpstreamPerTrack` | moqt-relay/src/relay.rs:421-492 | at any moment at most one upstream SUBSCRIBE per track is pending or established |
| `RelayTheorems.IdsAreNeverReused` | moqt-relay/src/relay.rs:103-123 | over every run, an ID that was issued and is gone stays gone |
| `RelayTheorems.DanglingOnlyFromLateWrites` | moqt-relay/src/relay.rs:281-289 | a table names a dead session only where a task wrote an ID it had captured before the removal |
| `RelayTheorems.LateMeansAfterRemoval` | moqt-relay/src/relay.rs:281-289 | a task joins those writers exactly when it copies into the tables an ID that was issued and has been removed |
| `RelayTheorems.LockOrder` | moqt-relay/src/relay.rs:421-508 | locks are taken in the order track, state, request; none is held while waiting for PUBLISH_DONE; the state lock is held across an await only in the None arm |
| `RelayTheorems.HeldExactly` | moqt-relay/src/relay.rs:421-508 | at every await: the track lock is held up to the answer or the recording, the state lock in the None arm, and the lock of a request exactly while a response is written on its stream |
| `RelayTheorems.TablesUnderLock` | moqt-relay/src/relay.rs:235-510 | the shared tables are read and changed only when nobody else holds the state lock |
| `RelayTheorems.OneWriter` | moqt-relay/src/relay.rs:403-508 | in every reachable state, two tasks that write on the stream of the same request are the same task |
| `RelayTheorems.ResponseStartsAlone` | moqt-relay/src/relay.rs:403-508 | a response is begun only on a stream on which nobody is writing, and then its task is |
| `RelayTheorems.WaitingRaisesLevel` | moqt-relay/src/relay.rs:421-508 | whoever is waited for waits for a higher lock, or for none |
| `RelayTheorems.NoWaitCycle` | moqt-relay/src/relay.rs:421-508 | the wait-for graph of a reachable state has no cycle of any length |
| `RelayTheorems.NoDeadlock` | moqt-relay/src/relay.rs:421-508 | from every blocked task the waits lead in at most three hops to a lock holder that has an enabled step |
| `RelayTheorems.NobodyIsStuck` | moqt-relay/src/relay.rs:235-510 | in every reachable state, a task that is neither done nor blocked on a lock has an enabled step; writes, answers of the publisher and PUBLISH_DONE may come out either way |
| `RelayTheorems.ListedUntilRemoved` | moqt-relay/src/relay.rs:111-123 | over every run, a listed request stays listed, for the same publisher, if and only if neither its session nor the publisher is removed |
| `RelayTheorems.LastAnnouncementOwns` | moqt-relay/src/relay.rs:111-128 | over every run without another announcement of a namespace, its owner stays if and only if it is not removed |
| `RelayTheorems.RoutesToLongestPrefix` | moqt-relay/src/relay.rs:457-477 | a handler sends its SUBSCRIBE to a session if and only if that session is live and owns the longest registered prefix; it refuses if and only if that prefix has no live owner |
| `RelayTheorems.StalledByOneWrite` | moqt-relay/src/relay.rs:457-467 | over every run in which the write of one REQUEST_ERROR does not end, the state lock stays with its handler, the tables are frozen, no session comes or goes, and every task that waits for the state lock stays where it is |
| `RelayTheorems.WriteEndFreesState` | moqt-relay/src/relay.rs:457-467 | the end of that write frees the state lock |
| `RelayTheorems.AtMostOneAnswer` | moqt-relay/src/relay.rs:403-499 | each SUBSCRIBE gets at most one of SUBSCRIBE_OK and REQUEST_ERROR |
| `RelayTheorems.RefusedIsNeverListed` | moqt-relay/src/relay.rs:403-413 | a request that is in a subscription was never refused |
| `RelayTheorems.DoneBound` | moqt-relay/src/relay.rs:502-508 | a request gets at most one PUBLISH_DONE more than entries of its track were deleted |
| `RelayTheorems.AtMostOneDone` | moqt-relay/src/relay.rs:502-508 | without a deletion on its track, at most one |
| `RelayTheorems.NotifierFate` | moqt-relay/src/relay.rs:494-508 | whoever forwards PUBLISH_DONE to a request serves the same track, and its entry is the current one or was deleted |
| `RelayTheorems.DoneReachesSnapshot` | moqt-relay/src/relay.rs:502-508 | a handler that is done has forwarded PUBLISH_DONE to exactly the requests of its snapshot |
| `RelayTheorems.SnapshotIsKept` | moqt-relay/src/relay.rs:504-508 | over every run, the snapshot never changes afterwards |
| `RelayTheorems.TrackIsolation` | moqt-relay/src/relay.rs:169-183 | if no publisher gives one alias to two tracks, a data stream goes to the live subscribers of that track, each entry once, and to nobody else |
| `RelayTheorems.LookUpFindsAll` | moqt-relay/src/relay.rs:169-183 | whatever aliases there are, a data stream goes to a session if and only if it is registered and listed for a track recorded for the publisher and the alias of the stream |
| `RelayTheorems.IsolationIffUniqueMatch` | moqt-relay/src/relay.rs:169-183 | isolation holds if and only if no two recorded tracks share publisher and alias |
| `RelayRuns.DeadOwnerRun` | moqt-relay/src/relay.rs:281-289 | a run after which a namespace is owned by a session that is gone, and routes nowhere |
| `RelayRuns.OvertakingRun` | moqt-relay/src/relay.rs:442-508 | a run in which PUBLISH_DONE is sent to a request that has no SUBSCRIBE_OK yet |
| `RelayRuns.DoubleDoneRun` | moqt-relay/src/relay.rs:494-510 | a run with one deletion in which a request gets two PUBLISH_DONE |
| `RelayRuns.DoneBoundIsAttained` | moqt-relay/src/relay.rs:494-510 | for every number of deletions on a track, a run in which a later request gets one PUBLISH_DONE more than that: the bound is tight |
| `RelayRuns.OvertakingAfterDeletionRun` | moqt-relay/src/relay.rs:482-508 | a run in which a request that was recorded after a deletion is sent PUBLISH_DONE before SUBSCRIBE_OK |
| `RelayRuns.StrandedRun` | moqt-relay/src/relay.rs:435-510 | a run in which a request joins after PUBLISH_DONE was forwarded, is accepted, and no handler is left to tell it |
| `RelayRuns.UnencodableRun` | moqt-relay/src/relay.rs:442-499 | a publisher answers with another filter: two subscribers are listed, both handlers are done, and not a byte was sent |
| `RelayRuns.DoneWithoutAnswerRun` | moqt-relay/src/relay.rs:482-508 | a run in which a request with such a SUBSCRIBE_OK is sent PUBLISH_DONE after a deletion and never an answer |
| `RelayRuns.StalledRun` | moqt-relay/src/relay.rs:457-467 | a run to the stall: one subscriber does not read its REQUEST_ERROR, and an announcement and a data stream of another session wait for it |
| `RelayResponses.UnansweredIff` | moqt-relay/src/relay.rs:415-499 | a handler that is done has sent no answer if and only if the name is not UTF-8 after the filter check passed, or the upstream request was refused or lost, or the SUBSCRIBE_OK to send has a filter other than NextGroupStart |
| `RelayResponses.DoneBeforeAnswer` | moqt-relay/src/relay.rs:442-508 | a request that was sent PUBLISH_DONE has no SUBSCRIBE_OK yet if and only if its handler waits to answer it after joining a subscription, or after recording one on a track that saw a deletion, or is done because the SUBSCRIBE_OK has a filter other than NextGroupStart |
| `RelayResponses.ContentsKept` | moqt-relay/src/relay.rs:396-508 | every step keeps that what was said on the request streams, and what the handlers are about to say, is what it should be |
| `RelayResponses.ResponsesSayRight` | moqt-relay/src/relay.rs:396-508 | in every reachable state, a SUBSCRIBE_OK sent to a request is the one offered to its handler, a REQUEST_ERROR names NOT_SUPPORTED if the filter check failed and DOES_NOT_EXIST otherwise, and a PUBLISH_DONE is the one its forwarder received |
| `RelayResponses.AnswerMatchesEntry` | moqt-relay/src/relay.rs:440-499 | whoever is listed was answered, if at all, with the SUBSCRIBE_OK of the entry, and its alias is the one the publisher assigned and under which data streams are looked up |
| `RelayResponses.FailedAnswerIsMute` | moqt-relay/src/relay.rs:494-508 | over every run, a handler whose SUBSCRIBE_OK could not be written never forwards PUBLISH_DONE |
| `RelayResponses.BadOfferIsMute` | moqt-relay/src/relay.rs:442-502 | a handler with such a SUBSCRIBE_OK never answers, never waits for PUBLISH_DONE and never forwards it |
| `RelayResponses.UnencodableEntry` | moqt-relay/src/relay.rs:442-499 | while an entry holds such a SUBSCRIBE_OK, every request listed on it, however late, is without an answer, and the handler that recorded it neither waits for PUBLISH_DONE nor forwards it |
| `RelayResponses.NotifiedIffListed` | moqt-relay/src/relay.rs:502-508 | over every run, a handler that is done sent PUBLISH_DONE to a request if and only if the request was listed when the handler read the list |
| `RelayResponses.JoinerAfterSnapshot` | moqt-relay/src/relay.rs:502-510 | over every run, a request that is not in the snapshot of a handler never gets PUBLISH_DONE from it; what it gets comes from other handlers of its track |
| `RelayResponses.JoinerIsStranded` | moqt-relay/src/relay.rs:502-510 | over every run in which the entry stays and no other entry of the track was deleted, such a request gets no PUBLISH_DONE at all |
| `Utf8.ScalarInFront` | moqt-relay/src/relay.rs:415 | in front of any byte string, the octets of a character make no difference to whether the string is accepted |
| `Utf8.Utf8Iff` | moqt-relay/src/relay.rs:415 | a track name is accepted if and only if it is the UTF-8 encoding of a list of Unicode scalar values |
| `Forwarding.SubscribeIsForwardable` | moqt-relay/src/relay.rs:396-413 | the filter check is exact: a SUBSCRIBE read from the wire can be encoded for the publisher if and only if it passes |
| `Forwarding.SubscribeReachesPublisher` | moqt-core/src/session/mod.rs:180-197 | the SUBSCRIBE that the relay sends on is decoded by the publisher to the message meant if and only if its payload fits the 16-bit length under the new request ID; enough room in the received payload, or an ID no longer than the old one, suffices |
| `Forwarding.LongSubscribeIsLost` | moqt-core/src/session/mod.rs:190-197 | a SUBSCRIBE of 65535 payload bytes arrives, passes every check and does not survive being sent on under request ID 129 |
| `Forwarding.SubscribeOkReachesSubscriber` | moqt-core/src/session/subscribe_request.rs:41-43 | the SUBSCRIBE_OK that the relay encodes again is decoded by the subscriber to the same message, unless it holds a filter other than NextGroupStart |
| `Forwarding.ReceivedAndNotSent` | moqt-core/src/stream/request.rs:112-117 | every SUBSCRIBE_OK with parameters that the decoder keeps is read by the relay, and cannot be sent on if and only if it has a filter other than NextGroupStart |
| `Forwarding.BadOkIsReceived` | moqt-core/src/stream/request.rs:112-117 | the SUBSCRIBE_OK of RelayRuns.UnencodableRun can come from the wire |
| `Forwarding.PublishDoneReachesSubscriber` | moqt-core/src/session/subscribe_request.rs:67-69 | the PUBLISH_DONE that the relay encodes again is always decoded to the same message |
| `Fanout.HandleDataStream` | moqt-relay/src/relay.rs:316-376 | one stream on the session of each target; each is a prefix of re-encoded header and complete objects; a stream that did not fail holds all of it and is finished if and only if the upstream stream ended cleanly, which decides between success and error |
| `Fanout.ForwardObject` | moqt-relay/src/relay.rs:353-366 | each active writer gets the object exactly once; the writers kept are those that did not fail |
| `Fanout.OpenAll` | moqt-relay/src/relay.rs:338-346 | one stream on the session of each target; the ones kept hold exactly the header |
| `Fanout.OpenDataStream` | moqt-core/src/session/mod.rs:269-274 | opening either writes the whole header or fails |
| `Fanout.DataStreamWriter.WriteObject` | moqt-core/src/stream/data.rs:143-149 | header and payload in one write, all or a prefix |
| `Fanout.ObjectThen` | moqt-core/src/stream/data.rs:76-121 | the raw bytes of an object are read as that object, whatever follows them |
| `Fanout.ObjectWithProperties` | moqt-core/src/stream/data.rs:99-115 | an object with properties: they belong to the raw bytes of its header, and the payload is what comes after them |
| `Fanout.CompleteIsFaithful` | moqt-core/src/stream/data.rs:76-121 | the forwarded bytes are a prefix of the upstream content and contain the same objects |
| `Fanout.SubscriberDecodesTheSame` | moqt-relay/src/relay.rs:337-373 | a subscriber decodes the same header and the same objects as the relay did |
| `Fanout.HeaderIsPassedThrough` | moqt-relay/src/relay.rs:337-346 | the relay passes the bytes of a header through if and only if the mode is not 01 and every varint had its shortest form |
| `Fanout.PaddedAliasIsRewritten` | moqt-relay/src/relay.rs:337-346 | a header with an alias in two bytes where one is enough, which is rewritten |
| `Varint.VarintByteLength` | moqt-core/src/wire/varint.rs:30-50 | the prefix table: the announced width, an error for 0xfc only |
| `Varint.EncodeVarint` | moqt-core/src/wire/varint.rs:61-117 | the six short tiers and, through EncodeWideVarint, the two wide ones append the encoding of the value |
| `Varint.EncodeWideVarint` | moqt-core/src/wire/varint.rs:97-117 | the 8-byte and 9-byte tiers |
| `Varint.DecodeVarint` | moqt-core/src/wire/varint.rs:130-180 | the accumulating loop computes the value modulo the mask and advances the slice by the announced width; an error leaves the slice |
| `Varint.RoundTrip` | moqt-core/src/wire/varint.rs:61-180 | for all u64, decode inverts encode and leaves what follows, including the 9-byte form |
| `Varint.ParseEncodedAs` | moqt-core/src/wire/varint.rs:130-180 | encodings that are longer than needed are read back too |
| `Varint.AcceptedIsEncoding` | moqt-core/src/wire/varint.rs:130-180 | an accepted string is the encoding of its value in its width, except that 0xfd stands for 0xff |
| `Varint.PrefixFree` | moqt-core/src/wire/varint.rs:61-117 | no encoding is a proper prefix of another |
| `Varint.EncodeIsShortest` | moqt-core/src/wire/varint.rs:61-117 | the encoder emits the shortest string accepted for the value |
| `Varint.ParseIsLocal` | moqt-core/src/wire/varint.rs:130-180 | what is decoded does not depend on what follows |
| `Varint.MaskAfterWrap` | moqt-core/src/wire/varint.rs:168-180 | dropping the bits above 64 before masking does not change the value |
| `Varint.ShiftIn` | moqt-core/src/wire/varint.rs:172-174 | one round of the accumulation in 64 bits |
| `Varint.EncodeByShifts` | moqt-core/src/wire/varint.rs:61-117 | the pushed bytes are the shifted value bytes, with the prefix on the first |
| `WordBits.PrefixTests` | moqt-core/src/wire/varint.rs:30-50 | the masked tests on the first byte, as comparisons |
| `WordBits.PrefixSums` | moqt-core/src/wire/varint.rs:61-94 | setting the prefix bits, as addition |
| `WordBits.ByteShifts` | moqt-core/src/wire/varint.rs:97-174 | shifting a byte in or out, as multiplication, division and remainder |
| `WordBits.ValueMasks` | moqt-core/src/wire/varint.rs:138-178 | masking with the value masks, as remainders |
| `KeyValuePairs.EncodeKeyValuePairs` | moqt-core/src/wire/key_value_pair.rs:53-92 | appends the delta coding, or fails exactly on a descending type or a wrong parity |
| `KeyValuePairs.DecodeKeyValuePairs` | moqt-core/src/wire/key_value_pair.rs:96-135 | reads pairs to the end of the slice, or fails where the specification parser does |
| `KeyValuePairs.PairsRoundTrip` | moqt-core/src/wire/key_value_pair.rs:53-135 | on every list the encoder accepts, decoding returns the list if and only if every byte value has at most 65535 bytes |
| `KeyValuePairs.AcceptedPairsReencode` | moqt-core/src/wire/key_value_pair.rs:96-135 | an accepted string encodes again without error, to a string no longer that decodes to the same pairs |
| `Parameters.EncodeParameters` | moqt-core/src/wire/parameter.rs:86-133 | writes count and delta-coded parameters, or fails exactly on a descending type or an unsupported filter |
| `Parameters.DecodeParameters` | moqt-core/src/wire/parameter.rs:137-242 | the loop: kept parameters advance the base of the next delta, skipped ones do not |
| `Parameters.ReadTyped` | moqt-core/src/wire/parameter.rs:146-237 | value syntax of each of the ten types; any other type is an error |
| `Parameters.EncodesAsDraft` | moqt-core/src/wire/parameter.rs:86-133 | the encoder accepts exactly the ascending lists with NextGroupStart filters, and writes the coding of section 9.3 |
| `Parameters.ParametersRoundTrip` | moqt-core/src/wire/parameter.rs:86-242 | decode inverts encode on every list that encode accepts, and leaves what follows |
| `Parameters.KeptRoundTrip` | moqt-core/src/wire/parameter.rs:137-242 | a list of section 9.3 without skipped types is read back whole, with all four filter kinds |
| `Parameters.FilterTail` | moqt-core/src/wire/parameter.rs:146-190 | bytes behind the filter in the value of a SUBSCRIPTION_FILTER are ignored |
| `Parameters.ResolvesAgainstBase` | moqt-core/src/wire/parameter.rs:142-145 | the exact law: a delta is added to the last kept type, not to the last type |
| `Parameters.ReadOverIff` | moqt-core/src/wire/parameter.rs:192-239 | the bytes of a skipped value, read as a value of another type, end where they end if and only if that type has the same shape, or the value is one byte or empty in both shapes |
| `Parameters.TakenForIs` | moqt-core/src/wire/parameter.rs:142-145 | in a run of skipped parameters each is taken for its own type, less the type of the skipped one before it, plus the last type kept |
| `Parameters.SkippedRun` | moqt-core/src/wire/parameter.rs:192-239 | a run of any length whose values are read over as the types that they are taken for leaves the decoder at the next parameter, at the last type kept |
| `Parameters.UndefinedAfterSkip` | moqt-core/src/wire/parameter.rs:142-239 | a list is rejected, whatever else it holds, if a parameter after such a run is taken for a type outside the draft |
| `Parameters.RunOfSkipped` | moqt-core/src/wire/parameter.rs:192-239 | with one such run of any length, the kept parameters are returned if and only if the run comes last |
| `Parameters.OneSkipped` | moqt-core/src/wire/parameter.rs:192-239 | with one skipped parameter, the others are returned if and only if the skipped one comes last |
| `Parameters.LostAfterSkip` | moqt-core/src/wire/parameter.rs:192-239 | otherwise the list is rejected, or, after EXPIRES with nothing kept before it and before FORWARD, loses a parameter |
| `Parameters.FirstKeptAfterSkip` | moqt-core/src/wire/parameter.rs:192-239 | whatever follows, a list in which a kept parameter comes after such a run is rejected, unless nothing was kept before the run, the run ends with EXPIRES and the kept one is FORWARD |
| `Parameters.SeveralSkipped` | moqt-core/src/wire/parameter.rs:192-239 | with any number of skipped parameters, the kept ones are returned if each of them precedes all skipped ones and each skipped value is read over as the type that it is taken for |
| `Parameters.MisreadingsCanCancel` | moqt-core/src/wire/parameter.rs:192-239 | with several skipped parameters the misreadings can cancel out: a list that is decoded correctly although a skipped type is followed by a kept one |
| `Parameters.AcceptedBody` | moqt-core/src/wire/parameter.rs:137-242 | the decoder returns ascending lists only |
| `Parameters.AcceptedParametersReencode` | moqt-core/src/wire/parameter.rs:86-242 | an accepted list encodes again if and only if its filters are NextGroupStart, and no longer |
| `Parameters.ParametersAreLocal` | moqt-core/src/wire/parameter.rs:137-242 | what is decoded does not depend on what follows |
| `Parameters.AtMostCount` | moqt-core/src/wire/parameter.rs:138-241 | no more parameters are returned than were announced |
| `Namespaces.EncodeTrackNamespace` | moqt-core/src/wire/track_namespace.rs:47-60 | writes the field count and the fields, or fails exactly on more than 32 fields or an empty field |
| `Namespaces.DecodeTrackNamespace` | moqt-core/src/wire/track_namespace.rs:64-88 | reads a namespace, or fails where the specification parser does |
| `Namespaces.NamespaceRoundTrip` | moqt-core/src/wire/track_namespace.rs:47-88 | decode inverts encode on every namespace within the limits |
| `Namespaces.AcceptedNamespace` | moqt-core/src/wire/track_namespace.rs:64-88 | an accepted namespace is within the limits, and its encoding is no longer |
| `Namespaces.NamespaceIsLocal` | moqt-core/src/wire/track_namespace.rs:64-88 | what is decoded does not depend on what follows |
| `ReasonPhrases.EncodeReasonPhrase` | moqt-core/src/wire/reason_phrase.rs:35-38 | length and bytes, without a limit |
| `ReasonPhrases.DecodeReasonPhrase` | moqt-core/src/wire/reason_phrase.rs:42-57 | reads at most 1024 bytes |
| `ReasonPhrases.ReasonRoundTrip` | moqt-core/src/wire/reason_phrase.rs:35-57 | a reason phrase comes back if and only if it has at most 1024 bytes |
| `Messages.EncodeMessage` | moqt-core/src/wire/mod.rs:72-77 | type, length modulo 2^16 in big-endian order, payload |
| `Messages.DecodeMessage` | moqt-core/src/wire/mod.rs:80-93 | the frame, or an error where it is cut off |
| `Messages.FrameRoundTrip` | moqt-core/src/wire/mod.rs:72-93 | a decoder sees the payload up to its length modulo 2^16, and the remainder as the next bytes |
| `Messages.EncodePublishNamespace` | moqt-core/src/wire/publish_namespace.rs:44-52 | appends the framed PUBLISH_NAMESPACE message or fails exactly where a field cannot be encoded |
| `Messages.DecodePublishNamespace` | moqt-core/src/wire/publish_namespace.rs:54-70 | reads a frame, checks its type and reads the fields of PUBLISH_NAMESPACE from its payload |
| `Messages.EncodeSubscribe` | moqt-core/src/wire/subscribe.rs:47-58 | appends the framed SUBSCRIBE message or fails exactly where a field cannot be encoded |
| `Messages.DecodeSubscribe` | moqt-core/src/wire/subscribe.rs:60-82 | reads a frame, checks its type and reads the fields of SUBSCRIBE from its payload |
| `Messages.EncodeSubscribeOk` | moqt-core/src/wire/subscribe_ok.rs:45-54 | appends the framed SUBSCRIBE_OK message or fails exactly where a field cannot be encoded |
| `Messages.DecodeSubscribeOk` | moqt-core/src/wire/subscribe_ok.rs:56-74 | reads a frame, checks its type and reads the fields of SUBSCRIBE_OK from its payload |
| `Messages.EncodeRequestOk` | moqt-core/src/wire/request_ok.rs:26-30 | appends the framed REQUEST_OK message |
| `Messages.DecodeRequestOk` | moqt-core/src/wire/request_ok.rs:32-41 | reads a frame, checks its type and reads the fields of REQUEST_OK from its payload |
| `Messages.EncodeRequestError` | moqt-core/src/wire/request_error.rs:42-48 | appends the framed REQUEST_ERROR message |
| `Messages.DecodeRequestError` | moqt-core/src/wire/request_error.rs:50-65 | reads a frame, checks its type and reads the fields of REQUEST_ERROR from its payload |
| `Messages.EncodePublishDone` | moqt-core/src/wire/publish_done.rs:42-48 | appends the framed PUBLISH_DONE message |
| `Messages.DecodePublishDone` | moqt-core/src/wire/publish_done.rs:50-65 | reads a frame, checks its type and reads the fields of PUBLISH_DONE from its payload |
| `Messages.NamespaceWithParameters` | moqt-core/src/wire/publish_namespace.rs:55-71 | whatever parameters a PUBLISH_NAMESPACE carries, they are read and dropped, and it is rejected if and only if they cannot be read |
| `Messages.RequestOkWithParameters` | moqt-core/src/wire/request_ok.rs:32-41 | the same for REQUEST_OK |
| `Messages.PublishNamespaceRoundTrip` | moqt-core/src/wire/publish_namespace.rs:44-70 | the payload of PUBLISH_NAMESPACE is read back to its last byte |
| `Messages.SubscribeRoundTrip` | moqt-core/src/wire/subscribe.rs:47-82 | the payload of SUBSCRIBE is read back to its last byte |
| `Messages.SubscribeOkRoundTrip` | moqt-core/src/wire/subscribe_ok.rs:45-74 | the payload of SUBSCRIBE_OK is read back to its last byte |
| `Messages.RequestErrorRoundTrip` | moqt-core/src/wire/request_error.rs:42-65 | the payload of REQUEST_ERROR is read back if and only if its reason fits |
| `Messages.PublishDoneRoundTrip` | moqt-core/src/wire/publish_done.rs:42-65 | the payload of PUBLISH_DONE is read back if and only if its reason fits |
| `Messages.ParseRequestMessage` | moqt-core/src/stream/request.rs:38-64 | dispatch on the type: the message of the frame, or an error |
| `Messages.TypedDecodersAgree` | moqt-core/src/stream/request.rs:38-64 | each typed decoder accepts precisely the frames that the dispatch takes for its message, and gives the same message |
| `Messages.OtherTypesAreRejected` | moqt-core/src/stream/request.rs:38-64 | a frame of any other type is rejected, whatever it carries |
| `Messages.MessageRoundTrip` | moqt-core/src/stream/request.rs:38-64 | an encodable message comes back if and only if its payload has at most 65535 bytes and its reason at most 1024 |
| `Messages.TruncatedPayload` | moqt-core/src/wire/mod.rs:72-93 | no proper prefix of a payload decodes to the message |
| `Messages.ReasonDecides` | moqt-core/src/wire/request_error.rs:42-65 | for REQUEST_ERROR and PUBLISH_DONE the reason phrase alone decides |
| `Messages.PayloadIsLocal` | moqt-core/src/stream/request.rs:38-64 | the message of a payload does not depend on what follows in the payload |
| `Setup.EncodeSetup` | moqt-core/src/wire/setup.rs:55-80 | options become pairs and are framed, or the pairs are refused |
| `Setup.DecodeSetup` | moqt-core/src/wire/setup.rs:84-121 | the pairs of the frame become options, known types in their known form |
| `Setup.SetupRoundTrip` | moqt-core/src/wire/setup.rs:55-121 | decode inverts encode if and only if the payload fits the 16-bit length and no known option was given as unknown; such an option comes back in its known form |
| `Setup.OtherTypeIsNoSetup` | moqt-core/src/wire/setup.rs:84-92 | a frame of another type is no SETUP |
| `Setup.PairsThroughFrame` | moqt-core/src/wire/setup.rs:76-92 | the pairs survive the frame if and only if the payload fits the 16-bit length |
| `Subgroups.EncodeSubgroupHeader` | moqt-core/src/wire/subgroup_header.rs:66-89 | the type byte collects the four flags, and the optional fields follow when present |
| `Subgroups.DecodeSubgroupHeader` | moqt-core/src/wire/subgroup_header.rs:94-137 | valid types only, and the optional fields that the type announces |
| `Subgroups.HeaderRoundTrip` | moqt-core/src/wire/subgroup_header.rs:66-137 | decode inverts encode on every header |
| `Subgroups.TypeAfterReencoding` | moqt-core/src/wire/subgroup_header.rs:66-137 | the type after decoding and encoding: the same, except that SUBGROUP_ID_MODE 01 becomes 00 |
| `Subgroups.ModesCollapse` | moqt-core/src/wire/subgroup_header.rs:113-117 | modes 00 and 01 decode to the same structure |
| `Subgroups.TypeByteBits` | moqt-core/src/wire/subgroup_header.rs:66-81 | the type byte is valid and carries each flag in its bit |
| `Subgroups.EncodeObjectHeader` | moqt-core/src/wire/object.rs:33-36 | delta, then payload length |
| `Subgroups.DecodeObjectHeader` | moqt-core/src/wire/object.rs:40-56 | delta, payload length and, if announced, properties that are skipped |
| `Subgroups.ObjectHeaderRoundTrip` | moqt-core/src/wire/object.rs:33-56 | decode inverts encode |
| `Subgroups.PropertiesAreReadOver` | moqt-core/src/wire/object.rs:40-56 | a header with properties is read to the end of the properties, whose length says how many bytes they are |
| `Subgroups.DeltasResolve` | moqt-core/src/wire/object.rs:58-68 | every ascending list of object IDs is resolved from its deltas |
| `WordBits.LowBit` | moqt-pub/src/main.rs:182 | the masked test of bit 0 of a byte, as arithmetic |
| `WordBits.HeaderTypeBits` | moqt-core/src/wire/subgroup_header.rs:105-120 | the bit tests on the type, as arithmetic |
| `Streams.ReadVarint` | moqt-core/src/stream/mod.rs:26-44 | succeeds exactly when the slice decoder does on the stream content, with the same value and the bytes consumed; the only error besides the end of the stream is 0xfc |
| `Streams.ReadMessageFrame` | moqt-core/src/stream/mod.rs:53-74 | returns exactly the bytes of the first frame, when there is one |
| `Streams.RequestStreamReader.ReadMessage` | moqt-core/src/stream/request.rs:77-85 | reading a message from the stream is parsing the head of its content |
| `Streams.DataStreamReader.ReadSubgroupHeader` | moqt-core/src/stream/data.rs:35-71 | succeeds exactly when the slice decoder does on the stream content, with the same header and the bytes consumed |
| `Streams.DataStreamReader.ReadObject` | moqt-core/src/stream/data.rs:76-121 | an end in the first varint is the end of the subgroup; otherwise succeeds exactly when header decoder and payload length do, and the raw header and payload are the bytes consumed |
| `Streams.HeaderSuffices` | moqt-core/src/wire/subgroup_header.rs:94-137 | the header decoder needs no more than it consumes |
| `Streams.FrameSuffices` | moqt-core/src/wire/mod.rs:80-93 | the frame decoder needs no more than it consumes |
| `Streams.FrameIsLocal` | moqt-core/src/wire/mod.rs:80-93 | a complete frame is the same whatever follows it |
| `Streams.CutFrame` | moqt-core/src/wire/mod.rs:80-93 | no proper prefix of a frame is read as a frame |
| `Streams.RequestSuffices` | moqt-core/src/stream/request.rs:38-64 | what a frame means does not depend on what follows it |
| `Streams.ValidateHeader` | moqt-core/src/stream/data.rs:64-66 | decoding the bytes read accepts exactly when the decoder accepts the stream content |
| `Streams.MessageListRoundTrip` | moqt-core/src/stream/request.rs:77-138 | for every list of sendable messages, framing and parsing the concatenated encodings gives the list back |
| `Segmentation.SendFrames` | moqt-pub/src/main.rs:193-231 | one finished stream per group with exactly its frames and the next group ID; the stream count is the number of streams; on a failure every stream holds a prefix of its group |
| `Segmentation.GroupsAreSegmentation` | moqt-pub/src/main.rs:199-224 | the groups concatenate to the input, each but the first starts with a keyframe, and none has a later keyframe |
| `Segmentation.SegmentationIsUnique` | moqt-pub/src/main.rs:199-224 | there is no other way to cut the input so |
| `Segmentation.CutAtKeyframes` | moqt-pub/src/main.rs:199-224 | a group other than the first starts at a frame if and only if the frame is flagged |
| `Segmentation.FileIsCutAtKeyframes` | moqt-pub/src/main.rs:151-224 | from the file to the groups: one starts at a frame other than the first if and only if the frame is not empty and bit 0 of its first byte is clear |
| `Segmentation.GroupIsReadBack` | moqt-core/src/session/subgroup.rs:37-43 | a subscriber reads from the stream of a group its header, its frames in order and the object IDs 0, 1, 2, ... |
| `Segmentation.ConsecutiveIds` | moqt-core/src/wire/object.rs:63-68 | with delta 0 throughout, resolved object IDs are consecutive |
| `Segmentation.GroupsGrow` | moqt-pub/src/main.rs:199-224 | a longer input only extends the last group or adds groups |
| `Segmentation.SubgroupWriter.WriteObject` | moqt-core/src/session/subgroup.rs:37-43 | appends an object with delta 0 and the length of its payload |
| `Segmentation.SubgroupWriter.Finish` | moqt-core/src/session/subgroup.rs:47-53 | finishes the stream once |
| `Segmentation.OpenGroup` | moqt-core/src/session/mod.rs:247-263 | opens the next stream with the header of the group |
| `Segmentation.WriteFrame` | moqt-pub/src/main.rs:219-223 | one more frame on the open stream, or a prefix of it |
| `Segmentation.CloseGroup` | moqt-pub/src/main.rs:202-204 | the open stream is finished with what it holds |
| `Ivf.WriteIvf` | moqt-sub/src/main.rs:84-121 | the file header before the first group, then every payload with its size and frame index |
| `Ivf.WriteGroup` | moqt-sub/src/main.rs:112-121 | one record per object, counting on |
| `Ivf.ReadIvf` | moqt-pub/src/main.rs:151-189 | the frames of the file up to the first that is cut off, each flagged if and only if it is not empty and bit 0 of its first byte is clear |
| `Ivf.RecordsOfPrefix` | moqt-pub/src/main.rs:157-189 | from a file that is cut off anywhere the records that are all there are read, and all of them if and only if nothing is cut off |
| `Ivf.RecordsRoundTrip` | moqt-sub/src/main.rs:112-121 | the records are read back, numbered, if and only if every payload is shorter than 2^32 bytes |
| `Ivf.FileRoundTrip` | moqt-sub/src/main.rs:84-121 | the publisher reads from the subscriber's file the payloads in order, numbered from 0, if and only if each is shorter than 2^32 bytes; nothing is written if no group arrives |
| `Pipeline.ReadGroup` | moqt-core/src/session/subgroup.rs:90-95 | reads from a stream the payloads of its objects up to the first that is missing or cut off, or nothing if the header cannot be read |
| `Pipeline.Receive` | moqt-sub/src/main.rs:88-121 | the receive loop writes the file of what it reads from the streams in their order of arrival, up to a stream without a readable header |
| `Pipeline.UnreadableEnds` | moqt-sub/src/main.rs:88-94 | a stream whose header cannot be read ends the reception: nothing of it or of later streams is written, and everything before it is |
| `Pipeline.StreamOfGroup` | moqt-core/src/session/subgroup.rs:90-95 | from a stream of a group that is cut off anywhere the subscriber reads a prefix of the data of the group, and all of it if and only if nothing is cut off |
| `Pipeline.RelayKeepsGroupStream` | moqt-relay/src/relay.rs:337-373 | a relay forwards a stream of a group, whole or cut off, as one of the same kind, and a whole one byte for byte |
| `Pipeline.AllFramesArrive` | moqt-sub/src/main.rs:88-121 | over any set of streams in any order, the publisher's frames are received if and only if no group is missing, none is cut off, and in the order of arrival they spell the same data |
| `Pipeline.InGroupOrder` | moqt-pub/src/main.rs:193-231 | if no two groups start with the same data, that order is the group order |
| `Pipeline.FileToFile` | moqt-sub/src/main.rs:84-121 | the subscriber's file holds what arrived, in order of arrival and numbered from 0, and these are the publisher's frames if and only if the condition of AllFramesArrive holds |
| `WireBytes.ShortVarints` | moqt-core/src/wire/varint.rs:61-94 | two examples of section 1.4.1 of the draft, byte by byte |
| `WireBytes.SixByteVarint` | moqt-core/src/wire/varint.rs:61-94 | the third example, in six bytes |
| `WireBytes.EightByteVarint` | moqt-core/src/wire/varint.rs:95-105 | an eight-byte form, byte by byte |
| `WireBytes.NineByteVarint` | moqt-core/src/wire/varint.rs:106-117 | the largest value, byte by byte |
| `WireBytes.SubscribeExample` | moqt-core/src/wire/subscribe.rs:47-58 | a SUBSCRIBE with different values in its fields, byte by byte |
| `WireBytes.SubscribeOkExample` | moqt-core/src/wire/subscribe_ok.rs:45-57 | a SUBSCRIBE_OK, byte by byte |
| `WireBytes.RequestErrorExample` | moqt-core/src/wire/request_error.rs:42-49 | a REQUEST_ERROR, byte by byte |
| `WireBytes.PublishNamespaceExample` | moqt-core/src/wire/publish_namespace.rs:44-54 | a PUBLISH_NAMESPACE, byte by byte |
| `WireBytes.RequestOkExample` | moqt-core/src/wire/request_ok.rs:26-31 | a REQUEST_OK, byte by byte |
| `WireBytes.PublishDoneExample` | moqt-core/src/wire/publish_done.rs:42-49 | a PUBLISH_DONE, byte by byte |
| `WireBytes.SetupExample` | moqt-core/src/wire/setup.rs:55-80 | the options of a SETUP, byte by byte |
| `WireBytes.SetupFrameExample` | moqt-core/src/wire/setup.rs:76-80 | the frame of a SETUP, byte by byte |
| `WireBytes.DataStreamExamples` | moqt-core/src/wire/subgroup_header.rs:66-89 | the header of the publisher program, one with properties and priority, and an object, byte by byte |
| `WireBytes.IvfExample` | moqt-sub/src/main.rs:112-121 | an IVF record, byte by byte |
| `TsVarint.VarintByteLength` | web/src/wire/varint.ts:67-79 | the prefix table: as in Rust, but 0xfd is an error too |
| `TsVarint.EncodeVarint` | web/src/wire/varint.ts:30-64 | for every safe integer, the bytes that the Rust encoder writes; every intermediate number is a safe integer |
| `TsVarint.FillBigEndian` | web/src/wire/varint.ts:36-39 | the shared loop writes the low-order bytes of the value |
| `TsVarint.DecodeVarint` | web/src/wire/varint.ts:82-124 | the number for every form: exact up to six bytes, and in the two wide forms what double rounding leaves of the value; every sum of the loop is rounded as IEEE 754 says |
| `Doubles.RoundIsNearest` | web/src/wire/varint.ts:109-113 | the rounding of a sum gives a double, no double is nearer, and a double is left as it is |
| `Doubles.ByteIsLost` | web/src/wire/varint.ts:109-113 | once the accumulated number is 2^53 or more, the byte that is added makes no difference |
| `TsVarint.ReceivedIff` | web/src/wire/varint.ts:97-121 | a value comes through the decoder unchanged if and only if it takes at most six bytes, or eight and is a multiple of 2^11, or nine and is a multiple of 2^19 below 2^53 |
| `TsVarint.OwnRoundTrip` | web/src/wire/varint.ts:30-124 | for every safe integer, decoding what the encoder wrote gives the integer back if and only if it is below 2^42 or a multiple of 2^11; the length is always right |
| `TsVarint.FirstLoss` | web/src/wire/varint.ts:97-121 | 2^42 + 1 is decoded as 2^42 |
| `TsVarint.AgreesWithRust` | web/src/wire/varint.ts:82-124 | both decoders read over the same bytes unless the first is 0xfd, and give the same value if and only if it survives the doubles |
| `TsVarint.BitAndIsRemainder` | web/src/wire/varint.ts:37 | the 32-bit operator, applied to a larger double, still yields the low bits |
| `TsVarint.ShiftIsDivision` | web/src/wire/message.ts:22 | under the mask, shifting the signed 32-bit integer is the same as dividing the double |
| `StreamReader.StreamReader.ReadExact` | web/src/stream/stream-reader.ts:22-45 | the loop ends; the result depends on the rest of the stream only, not on the chunks; a failure loses nothing |
| `StreamReader.StreamReader.TryReadExact` | web/src/stream/stream-reader.ts:48-73 | the same, with a clean end told apart from a cut |
| `StreamReader.StreamReader.ReadVarint` | web/src/stream/stream-reader.ts:76-94 | the number at the head of the stream and its bytes |
| `StreamReader.StreamReader.TryReadVarint` | web/src/stream/stream-reader.ts:97-114 | the same, with a clean end told apart |
| `StreamReader.StreamReader.ReadMessageFrame` | web/src/stream/stream-reader.ts:117-128 | the bytes of the frame at the head of the stream |
| `StreamReader.SameResults` | web/src/stream/stream-reader.ts:22-128 | any sequence of reads on any two chunkings of the same bytes gives the same results up to the first failure |
| `StreamReader.RawIsWhatWasRead` | web/src/stream/stream-reader.ts:76-94 | the raw bytes of a number are what was read of the stream, and they alone give the number |
| `StreamReader.FramesAgreeWithRust` | web/src/stream/stream-reader.ts:117-128 | both implementations take the same bytes as the first frame, unless the stream starts with 0xfd |
| `TsMessage.EncodeMessage` | web/src/wire/message.ts:17-26 | the bytes that the Rust encoder writes |
| `TsMessage.DecodeMessage` | web/src/wire/message.ts:29-55 | the frame at an offset, or an error where it is cut off |
| `TsMessage.DecodersAgree` | web/src/wire/message.ts:29-55 | both decoders agree on the payload of every frame that does not start with 0xfd, and on its type if and only if that survives the doubles |
| `TsMessage.TypeScriptReadsItself` | web/src/wire/message.ts:17-55 | a TypeScript peer reads back the payload that a TypeScript client sent, if it fits the length field, and the type if and only if it is below 2^42 or a multiple of 2^11 |
| `TsMessage.RustReadsTypeScript` | web/src/wire/message.ts:17-26 | a Rust peer reads back what a TypeScript client sent, if the payload fits the length field |

## Left out

- TLS, QUIC and WebTransport set-up, ALPN, the MOQT SETUP exchange as a protocol, session close and the browser code: foreign calls and user interface.
- The tokio scheduler and the FIFO order in which its mutex wakes waiters: any waiting task may be granted a free lock, which allows more runs than tokio does.
- Cancellation and panics of tasks; the end of the process.
- The event loop of a connection beyond what it spawns: a message that cannot be parsed ends the connection, which is a `Disconnect` step.
- A response counts as sent when its write begins; whether the peer receives it is the `Written` step of the environment. A SUBSCRIBE_OK that cannot be encoded does not count as sent: no write begins.
- `u64` overflow of session IDs and of resolved object IDs, and `usize` on machines with 32-bit addresses: the model has no upper bound for the former, and lengths below 2^64 for byte vectors.
- Memory: allocations as large as a length field says (parameter counts, object payloads, properties) are taken to succeed.
- Stream resets and STOP_SENDING are not told apart from an early end or a failed write; an object reader treats both alike, as the source does.
- Fanout.HandleDataStream: does not model the finish that the QUIC library performs when a writer is dropped, after a failed write or an upstream error, nor a failing `finish()`; that library is not part of this model.
- Parameters.OneSkipped: is for one skipped parameter; `Parameters.RunOfSkipped` is the condition for a run of several.
- Parameters.RunOfSkipped: asks that each value of the run is read over as the type that it is taken for. If a value is not, and that type is in the draft, the decoder goes on inside or behind the value (`Parameters.ReadOverIff`), and what it makes of the rest depends on the bytes there.
- Parameters.SeveralSkipped: is sufficient and not necessary, because misreadings can cancel out (`Parameters.MisreadingsCanCancel`).
- Numbers above 2^53 - 1 given to the TypeScript encoder, which only a caller that echoes a decoded wide form has, and numbers that are not whole.
- Parameters of the TypeScript client, whose type numbers differ from the Rust ones, and its remaining message files, which repeat the Rust shapes.
- The typed write methods of RequestStreamWriter and the control stream reader and writer: each encodes or reads one frame with the members above.
- RequestIdAllocator, argument parsing, logging, error texts, sleeps and the demo modes of the programs.
- Draft features that the code does not have: FETCH, PUBLISH, datagrams, caching, priorities, GOAWAY, object status, several publishers for one track.
