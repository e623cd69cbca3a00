# rtc-pubnub-fileshare, modelled in Dafny

rtc-pubnub-fileshare is a browser file-sharing client. Two peers find each
other through presence on a PubNub channel. They exchange WebRTC session
descriptions and ICE candidates over that channel, open a data channel, and
then move a file across it in fixed-size chunks. The receiver pulls the
chunks itself, in windows of at most 90 requests, and retries what has not
arrived after an expiry delay.

This project models the per-peer `Connection` object of `connection.js`, and
the `protocol` table and message routing of the `FSClient` in `main.js`.

- `protocol.dfy` (module `Protocol`): the message discriminants and their strings.
- `messages.dfy` (module `Messages`): bytes, ICE candidates, session descriptions, bus messages, presence messages, data-channel messages, and what a connection emits (`Outbound`).
- `chunks.dfy` (module `Chunks`): cutting a buffer into chunks and putting them back together.
- `sdp.dfy` (module `Sdp`): the bandwidth patch applied to outgoing SDP.
- `store.dfy` (module `ChunkStore`): the receiver's sparse chunk array and the index sets.
- `window.dfy` (module `Window`): which indices a request round draws and which an expiry check returns.
- `transfer.dfy` (module `Transfer`): the connection's state as a value (`Session`), with one function per event handler. These functions are the specification.
- `connection.dfy` (module `Connections`): `class Connection`. It has the JavaScript object's fields, updated in place by one method per handler, and each method ensures `State() == Transfer.<Handler>(old(State()))`. The loops of the source remain loops:
  - the chunk-filling loop of `stageFileData`;
  - the draw loop of `requestChunks`;
  - the re-insertion loop of the expiry callback;
  - the missing-set loop and the candidate-draining loop of the `setRemoteDescription` callback.
- `transfer_props.dfy` (module `TransferProps`): what the handlers guarantee, proved on the `Transfer` functions. This includes invariants kept across events and the exchange between a sending peer and a receiving peer.
- `client.dfy` (module `Client`): the router of `FSClient.handleSignal`, and `class FSClient` with its `connections` map.

### How the model stands in for the environment

- **Outbox.** The data channel and PubNub publishing are an append-only `outbox`. Each entry is either a `Send` on the channel, a `Publish` of a bus message, or a `CloseChannel`.
- **Peer-connection handle.** The `RTCPeerConnection` is an abstract handle (`PeerConn`). It records:
  - whether a remote description is set;
  - the local description;
  - the candidates handed to it, in order;
  - the `setRemoteDescription`, `createOffer` and `createAnswer` calls whose callbacks are still due.
- **Callbacks as events.** Those callbacks are separate events: `RemoteDescriptionSet`, `RemoteDescriptionFailed`, `OnDescAvail` and `CreateDescFailed`. Each one can fire only while one of its operations is pending.
- **Data channel.** The data channel is a flag: set means the field holds a channel, taken as open. A send while it is absent raises, and the rest of the handler is abandoned, as a JavaScript TypeError would abandon it. The same holds for a call on a peer connection that has not been created; it is created by the first `join` presence.
- **Expiry timers.** Every `setTimeout` of `requestChunks` has the same delay, so the scheduled expiry checks are a first-in first-out queue of batches (`timers`). `Expire` fires the oldest one.
- **Chunk ids.** Chunk ids travel as the string keys of JavaScript arrays. They index exactly like naturals, so they are modelled as `nat`.
- **Draw order.** A `for … in` over an array visits its indices in ascending order, so a round draws the smallest missing indices.

### Behaviour as written

These behaviours of the source are modelled as they are. Lemmas state them:

- **The retry stalls.**
  - Expiry puts lost ids back into the missing set, but never lowers `numRequested` (`TransferProps.ExpireReinserts`).
  - Once 70 or more requests are outstanding, firing every pending expiry sends nothing, and the transfer stalls (`TransferProps.ExpiryStalls`).
  - A single round started just below the threshold takes the count to 159 (`TransferProps.RoundOvershoot`).
- **A round without a channel loses ids.** The drawn ids leave the missing set, but the send raises before their expiry check is scheduled, so they are never requested again: an id that was neither stored nor awaiting an expiry check is accounted nowhere afterwards (`TransferProps.RequestWithoutChannelLoses`, with a concrete state in `TransferProps.LostExample`). While the channel is open, every index stays missing, stored or in flight (`TransferProps.Accounted`); the model's channel flag stands for an open channel, see "## Left out".
- **The reject never arrives.** The reject published after a failed remote description has no target, so the peer's router drops it (`Client.RejectDropped`).
- **Buffered candidates are handed over again.** `remoteIceCandidates` is not emptied when it is drained, so a second remote description hands the same candidates to the handle again (`TransferProps.CandidatesAddedTwice`).
- **An index can be stored and missing at once.** Above 70 requested, an expiry check puts an absent id back into the missing set without a new round; when its chunk then arrives late it is stored, and the id stays missing (`TransferProps.StoredAndMissing`, on a concrete state in `TransferProps.StoredAndMissingExample`). A later round asks for that index again and counts it as requested; the duplicate reply is ignored and never taken off the count, which feeds the stall (`TransferProps.RerequestStored`).
- **`reset` keeps the transfer state.** It leaves the chunk store, the missing set and the counters as they are. Only the next remote offer starts them afresh (`TransferProps.ResetEffect`, `TransferProps.OfferInitialises`).
- **Closing is ignored.** The channel's close handler is `onChannelReadyStateChange`. The close event's type is `"close"`, but the handler tests for `"closed"`, so closing changes nothing. No error handler is registered, so the `"error"` case is unreachable in the browser (`TransferProps.ReadyStateEvents`).
- **`transformOutgoingSdp` garbles input without the token.** When `"b=AS:30"` is absent, `splitted[1]` is `undefined`. The result is then the text, followed by `b=AS:1638400`, followed by the word `undefined`. The function is modelled on every input, with this case stated by `Sdp.TransformWithoutToken`, rather than given a precondition that excludes it. When the token occurs twice or more, everything from its second occurrence on is dropped (`Sdp.TransformWithToken`).

## Model

| member | source | states |
|---|---|---|
| Protocol.Parse | main.js:2-11 | a string recognised as a discriminant is that discriminant's text |
| Protocol.Text | main.js:2-11 | no contract of its own: the string each discriminant is sent as; described by Protocol.ParseText and Protocol.TextInjective |
| Protocol.ParseText | main.js:2-11 | every discriminant's text is recognised as that discriminant |
| Protocol.TextInjective | main.js:2-11 | the seven discriminants OFFER, ANSWER, REQUEST, DATA, DONE, ERR_REJECT and CANCEL are pairwise distinct |
| Chunks.NumChunks | connection.js:90 | the number of chunks is the least n whose n chunks cover the buffer; it is zero exactly for an empty buffer |
| Chunks.ChunkSizeFor | connection.js:18 | no contract of its own: the chunk size, 800 bytes when isChrome and 50000 otherwise; the constructor's contract records the choice |
| Chunks.NumChunksIsCeil | connection.js:90 | the number of chunks is Math.ceil(length / chunkSize), i.e. (length + chunkSize - 1) / chunkSize |
| Chunks.OffsetIsProduct | connection.js:94 | chunk i starts at i * chunkSize |
| Chunks.SplitAt | connection.js:93-96 | chunk i is the slice from i * chunkSize, chunkSize long, clipped at the end of the buffer |
| Chunks.Chunk | connection.js:94-95 | no contract of its own: `buffer.slice(start, start + chunkSize)` with both ends clipped to the buffer; described by Chunks.SplitAt |
| Chunks.Split | connection.js:90-96 | no contract of its own: the chunks of the slicing loop in index order; described by Chunks.SplitAt, Chunks.ChunkLengths and Chunks.SplitJoin |
| Chunks.Concat | connection.js:104-105 | no contract of its own: the chunks laid end to end, as the Blob of prepareFileDownload joins them; described by Chunks.ConcatFirst and Chunks.SplitJoin |
| Chunks.ConcatFirst | connection.js:93-96 | the first k chunks laid end to end are the first min(length, k * chunkSize) bytes of the buffer |
| Chunks.SplitJoin | connection.js:86-96 | laying the chunks end to end gives the buffer back |
| Chunks.ChunkLengths | connection.js:90-96 | there are ceil(length / chunkSize) chunks; every chunk but the last is chunkSize long; the last is non-empty and at most chunkSize long; an empty buffer has none |
| Sdp.IndexOf | connection.js:163 | the position of the first occurrence of the separator, or none when it does not occur |
| Sdp.SplitOn | connection.js:163 | String.split on a non-empty separator gives at least one piece; described further by Sdp.SplitJoin and Sdp.SplitPiecesFree |
| Sdp.SplitOnFirst | connection.js:163 | without the separator the split is the text alone; with it, the first piece ends at its leftmost occurrence |
| Sdp.TransformOutgoingSdp | connection.js:162-166 | no contract of its own: the first piece, "b=AS:1638400", then the second piece or "undefined"; described by Sdp.TransformWithToken, Sdp.TransformSingleToken and Sdp.TransformWithoutToken |
| Sdp.SplitJoin | connection.js:163 | the pieces of String.split, joined with the separator, give the text back |
| Sdp.SplitPiecesFree | connection.js:163 | no piece of the split contains the separator |
| Sdp.TransformWithToken | connection.js:162-166 | with the first "b=AS:30" at p, the result is the text before p, then "b=AS:1638400", then the text up to the token's second occurrence or to the end |
| Sdp.TransformSingleToken | connection.js:162-166 | with exactly one "b=AS:30", the patch replaces it in place and keeps everything else |
| Sdp.TransformWithoutToken | connection.js:162-166 | without the token, the result is the text, "b=AS:1638400", and "undefined" |
| ChunkStore.Put | connection.js:318 | writing index id grows the array with holes past its end, puts the chunk at id and leaves every other slot as it was |
| ChunkStore.Has | connection.js:317 | no contract of its own: `fileChunks[id]` is truthy, i.e. the slot exists and holds a chunk |
| ChunkStore.Stored | connection.js:317-319 | no contract of its own: the indices whose chunk is present; described by ChunkStore.PutNew |
| ChunkStore.Below | connection.js:191-193 | the missing set built from the chunk count holds exactly 0 .. n-1, n indices |
| ChunkStore.PutNew | connection.js:317-319 | storing a chunk at an absent index adds exactly that index to the stored set and one to its size |
| ChunkStore.PutKeepsOthers | connection.js:317-318 | storing at one index never disturbs a chunk already stored at another |
| Window.SmallestProps | connection.js:128-134 | a round draws min(missing, 90) indices, strictly ascending, all missing, each smaller than every missing index left behind |
| Window.DrawDone | connection.js:128-134 | the draw loop, run until 90 are drawn or none is left, has drawn the smallest ones and deleted exactly those from the missing set |
| Window.AbsentElems | connection.js:148-153 | the expired ids of a batch are exactly its ids whose chunk is absent |
| Window.InFlightAppend | connection.js:146-159 | scheduling a batch adds exactly its ids to those awaiting an expiry check |
| Window.Smallest | connection.js:128-134 | no contract of its own: the first k keys a for-in over missingChunks visits; described by Window.SmallestProps and Window.DrawDone |
| Window.Absent | connection.js:148-153 | no contract of its own: the ids of a batch whose chunk is absent, in batch order; described by Window.AbsentElems |
| Window.InFlight | connection.js:146-159 | no contract of its own: the ids of every scheduled expiry check; described by Window.InFlightAppend |
| Transfer.Initial | connection.js:4-40 | no contract of its own: the state the constructor leaves; Connections.Connection.constructor ensures its State() is this value |
| Transfer.RejectMsg | connection.js:202-208 | no contract of its own: the reject signal, with a sender and no target; described by Client.RejectDropped |
| Transfer.CancelMsg | connection.js:410-420 | no contract of its own: the cancel signal addressed to the peer; described by TransferProps.CancelResetsPeer and Client.PeerMessagesRouted |
| Transfer.CandidateMsg | connection.js:257-267 | no contract of its own: a local candidate addressed to the peer; described by Client.PeerMessagesRouted |
| Transfer.DescMsg | connection.js:290-302 | no contract of its own: the local description addressed to the peer, with name, type and chunk count only from the initiator; described by TransferProps.DescPublished |
| Transfer.PackageChunk | connection.js:116-122 | no contract of its own: the data message carrying the stored chunk at an id; described by TransferProps.ServedProps and TransferProps.ServedIsSplit |
| Transfer.CheckDownloadComplete | connection.js:100-102 | no contract of its own: the expected count equals the received count; described by TransferProps.ReceiveLastChunk, TransferProps.ReceiveChunkRequests and TransferProps.DownloadReassembles |
| Transfer.IsOffer | connection.js:178 | no contract of its own: the description's type is "offer"; described by TransferProps.OfferInitialises and TransferProps.AnswerApplied |
| Transfer.StageFileData | connection.js:86-98 | no contract of its own; described by TransferProps.StageFileDataChunks |
| Transfer.Staged | connection.js:90-96 | no contract of its own: slot i holds chunk i of the split; described by TransferProps.StageFileDataChunks |
| Transfer.Drawn | connection.js:128-134 | no contract of its own: the ids one round draws; described by TransferProps.RequestRound |
| Transfer.RequestChunks | connection.js:124-160 | no contract of its own; described by TransferProps.RequestRound, TransferProps.RoundOvershoot, TransferProps.RequestKeepsAccounted and TransferProps.RequestWithoutChannelLoses |
| Transfer.Expire | connection.js:146-159 | no contract of its own; described by TransferProps.ExpireReinserts, TransferProps.ExpiryStalls and TransferProps.ExpireKeepsAccounted |
| Transfer.Reset | connection.js:467-488 | no contract of its own; described by TransferProps.ResetEffect and TransferProps.ResetKeepsCounted |
| Transfer.ReceiveChunk | connection.js:316-335 | no contract of its own; described by TransferProps.ReceiveChunkStores, TransferProps.ReceiveLastChunk, TransferProps.ReceiveChunkRequests and TransferProps.ReceiveKeepsAccounted |
| Transfer.Progress | connection.js:322-333 | no contract of its own; described by TransferProps.ProgressKeepsStore, TransferProps.ReceiveLastChunk and TransferProps.ReceiveChunkRequests |
| Transfer.ServeRequest | connection.js:336-341 | no contract of its own; described by TransferProps.ServeRequestSends, TransferProps.ServeOutbox and TransferProps.ServeKeepsTransfer |
| Transfer.ReceiveDone | connection.js:342-347 | no contract of its own: not connected, then, with a channel, the channel closed and reset; Connections.Connection.ReceiveDone ensures its State() follows it |
| Transfer.OnChannelMessage | connection.js:314-348 | no contract of its own; described by TransferProps.ChannelMessageKeepsCounted |
| Transfer.OnChannelReadyStateChange | connection.js:350-374 | no contract of its own; described by TransferProps.ReadyStateEvents |
| Transfer.ReceiveDesc | connection.js:168-172 | no contract of its own: a description queues a pending setRemoteDescription on the handle; described by TransferProps.OfferRoundTrip |
| Transfer.RemoteDescriptionSet | connection.js:173-198 | no contract of its own; described by TransferProps.OfferInitialises, TransferProps.AnswerApplied, TransferProps.RemoteSetHandle and TransferProps.CandidatesAddedTwice |
| Transfer.RemoteDescriptionFailed | connection.js:200-210 | no contract of its own; described by TransferProps.RemoteFailedRejects |
| Transfer.ReceiveIce | connection.js:213-219 | no contract of its own; described by TransferProps.ReceiveIcesEffect and TransferProps.IceOrder |
| Transfer.HandleSignal | connection.js:221-230 | no contract of its own; described by TransferProps.HandleSignalEffect |
| Transfer.HandlePresence | connection.js:232-253 | no contract of its own; described by TransferProps.HandlePresenceEffect |
| Transfer.OnDescAvail | connection.js:273-303 | no contract of its own; described by TransferProps.DescPublished |
| Transfer.CreateDescFailed | connection.js:67-83 | no contract of its own: the failure callbacks of createOffer (67-70) and createAnswer (81-83) only log, so only the pending-create count drops; Connections.Connection.CreateDescFailed ensures its State() follows it |
| Transfer.OfferShare | connection.js:51-75 | no contract of its own; described by TransferProps.FilePickedOffers |
| Transfer.AnswerShare | connection.js:77-84 | no contract of its own: the role is cleared and, with a handle, one more create is pending; Connections.Connection.AnswerShare ensures its State() follows it |
| Transfer.FilePicked | connection.js:386-401 | no contract of its own; described by TransferProps.FilePickedOffers |
| Transfer.ShareAccepted | connection.js:402-409 | no contract of its own: answer, then connected when a handle exists; Connections.Connection.ShareAccepted ensures its State() follows it |
| Transfer.ShareCancelled | connection.js:410-420 | no contract of its own; described by TransferProps.CancelResetsPeer |
| Transfer.OnIceCandidate | connection.js:257-267 | no contract of its own: one publish of the candidate to the peer; Connections.Connection.OnIceCandidate ensures its State() follows it |
| Transfer.OnDataChannel | connection.js:268-272 | no contract of its own: the channel flag is set; Connections.Connection.OnDataChannel ensures its State() follows it |
| Connections.Connection.constructor | connection.js:4-40 | a new connection for a peer: no role, not connected, nothing staged, no counts, expected count 0, no handle |
| Connections.Connection.StageFileData | connection.js:86-98 | records the file and leaves chunk i of the buffer in slot i |
| Connections.Connection.RecordFile | connection.js:87-89 | sets the file name, type and buffer and nothing else |
| Connections.Connection.CutChunks | connection.js:90-96 | the fill loop leaves the chunk array with slot i holding chunk i of the split, for every i |
| Connections.Connection.RequestChunks | connection.js:124-160 | the state after a round is Transfer.RequestChunks of the state before |
| Connections.Connection.SendRequest | connection.js:144-158 | appends the request to the outbox and its batch to the scheduled checks, and nothing else |
| Connections.Connection.Draw | connection.js:128-134 | the draw loop takes the smallest 90 missing indices (or all) and removes exactly them |
| Connections.Connection.Expire | connection.js:146-159 | the expiry callback's loop and its follow-up round, as Transfer.Expire |
| Connections.Connection.Reset | connection.js:467-488 | the state after reset is Transfer.Reset of the state before |
| Connections.Connection.ClearFlags | connection.js:477-481 | clears the role, the connected flag and the channel, and nothing else |
| Connections.Connection.CloseHandle | connection.js:482-486 | empties both candidate lists and installs a fresh handle, and nothing else |
| Connections.Connection.ReceiveChunk | connection.js:316-335 | the data branch, as Transfer.ReceiveChunk |
| Connections.Connection.StoreChunk | connection.js:317-320 | stores the chunk, counts it received and one fewer requested, and nothing else |
| Connections.Connection.Progress | connection.js:322-333 | after a new chunk: another round or, once complete, done and reset, as Transfer.Progress |
| Connections.Connection.ServeRequest | connection.js:336-341 | the request branch sends one data message per id in order, as Transfer.ServeRequest |
| Connections.Connection.ReceiveDone | connection.js:342-347 | the done branch: not connected, channel closed, reset |
| Connections.Connection.OnChannelMessage | connection.js:314-348 | dispatch on the action; an unknown action changes nothing |
| Connections.Connection.OnChannelReadyStateChange | connection.js:350-374 | "open" starts the responder's requests; "closed", or "error" while connected, resets; anything else changes nothing |
| Connections.Connection.ReceiveDesc | connection.js:168-172 | a description starts a setRemoteDescription whose callbacks are due later |
| Connections.Connection.RemoteDescriptionSet | connection.js:173-198 | the success callback, as Transfer.RemoteDescriptionSet |
| Connections.Connection.RestartDownload | connection.js:185-193 | empties the store, installs the missing set, zeroes both counters and sets the expected count, and nothing else |
| Connections.Connection.EmptyStore | connection.js:185-186 | empties the store and installs the missing set, and nothing else |
| Connections.Connection.ResetCounts | connection.js:187-189 | zeroes both counters and sets the expected count, and nothing else |
| Connections.Connection.Drain | connection.js:175-177 | the candidate loop hands every buffered candidate to the handle, in order |
| Connections.Connection.AllMissing | connection.js:191-193 | the loop marks exactly the indices 0 .. nChunks-1 missing |
| Connections.Connection.RemoteDescriptionFailed | connection.js:200-210 | the failure callback: publish the reject, then reset |
| Connections.Connection.ReceiveIce | connection.js:213-219 | buffer the candidate, hand it over when a remote description is set |
| Connections.Connection.HandleSignal | connection.js:221-230 | a reject or a cancel resets |
| Connections.Connection.HandlePresence | connection.js:232-253 | a join sets available and creates the handle if none; a departure clears available and resets a connected share |
| Connections.Connection.OnDescAvail | connection.js:273-303 | the patched description becomes the local description and is published, with the file metadata if initiator; connected |
| Connections.Connection.CreateDescFailed | connection.js:67-83 | a failed createOffer (67-70) or createAnswer (81-83) only logs |
| Connections.Connection.OfferShare | connection.js:51-75 | become the initiator; unless connected, open the channel and create an offer |
| Connections.Connection.AnswerShare | connection.js:77-84 | become the responder and create an answer |
| Connections.Connection.FilePicked | connection.js:386-401 | stage the read file, then offer the share |
| Connections.Connection.ShareAccepted | connection.js:402-409 | answer, then count as connected |
| Connections.Connection.ShareCancelled | connection.js:410-420 | publish a cancel to the peer, then reset |
| Connections.Connection.OnIceCandidate | connection.js:257-267 | publish each local candidate to the peer |
| Connections.Connection.OnDataChannel | connection.js:268-272 | the peer's data channel becomes this connection's channel |
| TransferProps.StageFileDataChunks | connection.js:86-98 | staging fills ceil(length / chunkSize) slots, all of them, slot i with chunk i; the chunks give the buffer back; an empty buffer gives none; name, type and buffer are recorded |
| TransferProps.StageExample | connection.js:90-96 | 130000 bytes in 50000-byte chunks are three chunks of 50000, 50000 and 30000 bytes |
| TransferProps.RequestRound | connection.js:124-145 | a round draws min(missing, 90) ascending indices, the smallest missing ones; removes exactly them; adds their number to numRequested; sends one request listing them and schedules their expiry, or nothing when none was drawn or the channel is gone; nothing else changes |
| TransferProps.RoundOvershoot | connection.js:131-135 | a round started below 70 outstanding ends below 160, and from 69 with 90 or more missing it reaches 159 |
| TransferProps.ExpireReinserts | connection.js:146-158 | the expiry check puts back exactly the batch's still-absent ids and keeps numRequested; it starts a round if and only if some id expired and numRequested < 70 |
| TransferProps.StillAbsent | connection.js:148-153 | no contract of its own: the ids of a batch whose chunk has not arrived; described by TransferProps.ExpireReinserts |
| TransferProps.ExpireAll | connection.js:146-158 | no contract of its own: every pending expiry check fired, oldest first; described by TransferProps.ExpiryStalls |
| TransferProps.ExpiryStalls | connection.js:146-158 | with 70 or more outstanding, firing every pending expiry sends and schedules nothing and only refills the missing set |
| TransferProps.ProgressKeepsStore | connection.js:322-333 | what follows a new chunk does not touch the store or the counts received and expected |
| TransferProps.ProgressRequested | connection.js:322-326 | what follows a new chunk adds the next round's draw to numRequested exactly when the file is incomplete and fewer than 70 are requested |
| TransferProps.ReceiveChunkStores | connection.js:316-333 | a chunk for a stored index changes nothing; a new one is stored, adds exactly its index, counts as received and as one fewer requested, plus the next round's draw when the file is incomplete and fewer than 70 remain requested |
| TransferProps.ReceiveLastChunk | connection.js:316-333 | the completing chunk, with the channel there, gives exactly the reset of the stored-and-counted state with done sent and connected cleared: not connected, no channel, no role, one fewer requested, no further round |
| TransferProps.ReceiveChunkRequests | connection.js:322-326 | a new chunk that does not complete the file sends the next round's request if and only if fewer than 70 remain outstanding, some index is missing, and the channel exists |
| TransferProps.ReceiveWithoutChannelSilent | connection.js:316-335 | without a channel, receiving a chunk sends nothing |
| TransferProps.ReceiveAll | connection.js:314-335 | no contract of its own: a run of data messages received one after another; described by TransferProps.ReceiveAllSilent and TransferProps.DoneOnce |
| TransferProps.ReceiveAllSilent | connection.js:316-335 | without a channel, any number of received chunks sends nothing |
| TransferProps.DoneOnce | connection.js:316-335 | after the completing chunk, no run of further chunks, of any length, makes the connection send anything |
| TransferProps.ChannelMessageKeepsCounted | connection.js:314-348 | every data-channel message keeps nChunksReceived equal to the number of stored chunks |
| TransferProps.Counted | connection.js:316-320 | no contract of its own: the invariant nChunksReceived equals the number of stored chunks; kept by the *KeepsCounted lemmas |
| TransferProps.RequestKeepsCounted | connection.js:124-145 | a round keeps nChunksReceived equal to the number of stored chunks |
| TransferProps.ResetKeepsCounted | connection.js:467-488 | reset keeps nChunksReceived equal to the number of stored chunks |
| TransferProps.ExpireKeepsCounted | connection.js:146-158 | expiry keeps nChunksReceived equal to the number of stored chunks |
| TransferProps.OfferEstablishesCounted | connection.js:185-190 | an applied offer starts with nothing stored and nothing received |
| TransferProps.RequestKeepsAccounted | connection.js:124-159 | with the channel there, a round moves drawn indices from missing into flight, so every expected index stays missing, stored or in flight |
| TransferProps.Accounted | connection.js:124-158 | no contract of its own: the invariant that every expected id is missing, stored or awaiting an expiry check; kept by the *KeepsAccounted lemmas |
| TransferProps.RequestWithoutChannelLoses | connection.js:128-144 | without a channel, the first drawn index leaves the missing set while the store and the scheduled checks stay as they were; when that index is expected, not stored and not awaiting an expiry check, Accounted fails afterwards |
| TransferProps.LostExample | connection.js:128-144 | one expected chunk, missing, nothing stored or scheduled, no channel: Accounted holds before the round and fails after it |
| TransferProps.ExpireKeepsAccounted | connection.js:146-158 | with the channel there, an expiry check keeps every expected index missing, stored or in flight |
| TransferProps.ReceiveKeepsAccounted | connection.js:316-335 | with the channel there, receiving a chunk keeps every expected index missing, stored or in flight |
| TransferProps.OfferEstablishesAccounted | connection.js:185-193 | an applied offer marks every expected index missing |
| TransferProps.StoredAndMissing | connection.js:146-158 | above 70 requested, an expiry check followed by the late arrival of an expired chunk leaves its index both stored and missing |
| TransferProps.StoredAndMissingExample | connection.js:146-158 | index 0 expiring with 80 requested, then arriving, is stored and missing |
| TransferProps.RerequestStored | connection.js:124-145 | a round that draws an already-stored index requests it and counts it; the reply changes nothing, so the count is not lowered |
| TransferProps.ServedProps | connection.js:336-341 | data messages answer the ids in order, each with its stored chunk, up to the first id whose chunk is absent; all are answered if and only if all are stored |
| TransferProps.Served | connection.js:336-341 | no contract of its own: the data messages for the longest run of requested ids whose chunks are stored; described by TransferProps.ServedProps |
| TransferProps.ServeRequestSends | connection.js:336-341 | a request appends exactly those data messages, or nothing without a channel, and changes nothing else |
| TransferProps.ServeOutbox | connection.js:336-341 | serving appends exactly the Served messages to the outbox, or nothing without a channel |
| TransferProps.ServeOnlyOutbox | connection.js:336-341 | serving changes nothing but the outbox |
| TransferProps.ServeKeepsTransfer | connection.js:336-341 | serving leaves the store and the received count as they were |
| TransferProps.ResetEffect | connection.js:467-488 | reset clears role, connected, name, buffer and channel, installs a fresh handle with empty candidate lists when one exists, keeps the store, missing set, counters, type and timers, and is idempotent |
| TransferProps.ServedIsSplit | connection.js:116-122 | a data message served from a staged file carries, for an index of its split, exactly that chunk |
| TransferProps.Values | connection.js:104-105 | no contract of its own: the contents of the stored chunks in index order, which for a complete store are the parts of the download Blob; described by TransferProps.DownloadReassembles |
| TransferProps.Faithful | connection.js:316-320 | no contract of its own: the invariant that every stored chunk is the sender's chunk of the same index; kept by TransferProps.ReceiveKeepsFaithful |
| TransferProps.ReceiveKeepsFaithful | connection.js:316-320 | storing a chunk of the sender's split keeps every stored chunk equal to the sender's chunk of the same index |
| TransferProps.DownloadReassembles | connection.js:104-105 | when the download is complete, the stored chunks laid end to end are the sender's buffer |
| TransferProps.OfferInitialises | connection.js:173-193 | an applied offer hands every buffered candidate over in arrival order, keeps the candidate buffer, takes name, type and count from the offer, and marks exactly 0 .. nChunks-1 missing with the counters at zero |
| TransferProps.AnswerApplied | connection.js:173-198 | an applied answer changes only the handle |
| TransferProps.RemoteSetHandle | connection.js:173-177 | an applied description marks the handle and hands it the buffered candidates |
| TransferProps.CandidatesAddedTwice | connection.js:175-177 | a second applied description hands the same buffered candidates over again |
| TransferProps.RemoteFailedRejects | connection.js:200-210 | a failed description publishes one reject with no target, then resets |
| TransferProps.ReceiveIces | connection.js:213-219 | candidates received one after another; the handle exists afterwards exactly when it did before; described further by TransferProps.ReceiveIcesEffect and TransferProps.IceOrder |
| TransferProps.ReceiveIcesEffect | connection.js:213-219 | each candidate is buffered, and is handed over at once exactly when a remote description is set |
| TransferProps.IceOrder | connection.js:173-219 | candidates that arrive before and after the remote description reach the handle once each, in arrival order |
| TransferProps.HandleSignalEffect | connection.js:221-230 | a reject or a cancel resets; every other discriminant, and no action, changes nothing |
| TransferProps.HandlePresenceEffect | connection.js:232-253 | a join makes the peer available and keeps an existing handle; a departure clears available and resets exactly a connected share; repeating a presence message changes nothing more |
| TransferProps.DescPublished | connection.js:273-303 | the patched description is set locally and published to the peer; the metadata travels exactly when initiator, with nChunks the chunk count; connected |
| TransferProps.FilePickedOffers | connection.js:386-401 | a picked file is staged and offered: initiator, and unless connected a channel and a pending offer |
| TransferProps.OfferRoundTrip | connection.js:273-303 | the receiver of the sender's offer expects exactly the chunks of the picked file, all missing, under its name and type |
| TransferProps.CancelResetsPeer | connection.js:410-420 | a cancel is published to the peer and resets the peer's connection when it arrives |
| TransferProps.ReadyStateEvents | connection.js:350-382 | open starts the responder's requests; a "close" event changes nothing; "error" resets only while connected |
| Client.RouteAccepts | main.js:142-152 | a message is routed exactly when another client sent it to this one; a description goes to receiveDesc, else a candidate to receiveICE, else handleSignal |
| Client.Route | main.js:142-152 | no contract of its own: which handler a bus message reaches; described by Client.RouteAccepts |
| Client.Deliver | main.js:143-152 | no contract of its own: the routed call on the sender's connection; described by Client.PeerMessagesRouted and Client.FSClient.HandleSignal |
| Client.RejectDropped | main.js:142 | the reject a connection publishes is never routed |
| Client.PeerMessagesRouted | main.js:138-154 | a peer's description, candidate, end-of-candidates and cancel reach receiveDesc, receiveICE and handleSignal. The end-of-candidates message leaves the connection unchanged; the cancel resets it |
| Client.EmailsAppend | main.js:120-123 | one more contact entry adds its e-mail address, if it has one |
| Client.Emails | main.js:116-123 | no contract of its own: the addresses of the contact entries that have one; described by Client.EmailsAppend and Client.FSClient.AddContacts |
| Client.FSClient.constructor | main.js:28-30 | a client starts with no connections |
| Client.FSClient.Valid | main.js:116-123 | no contract of its own: every connection is filed under its peer's address and carries the client's identity; established by the constructor and kept by every method of FSClient |
| Client.FSClient.AddContacts | main.js:116-129 | one fresh connection per contact address, filed under it, with later duplicates replacing earlier ones; entries without an address are skipped; other connections are kept |
| Client.FSClient.HandleSignal | main.js:138-154 | the sender's connection gets the routed call; a sender with no connection is dropped; no other connection changes |
| Client.FSClient.HandlePresence | main.js:156-176 | a known peer's connection handles the presence; an unknown peer joining an unhosted client that is not itself gets exactly one fresh connection, which handles the join; nothing else changes |
| Client.FSClient.Admit | main.js:165-173 | the new connection is filed under the joining peer and has handled the join |

## Left out

- User interface:
  - The DOM and UI effects are left out: buttons, `innerHTML`, alerts and contact reordering. Of the UI state, only the `available` flag is kept.
  - The progress canvas and its timer are left out (`initProgress`, `updateProgress`, `animateProgress`). They use floating point and `setInterval`.
  - `shareStart` and the elapsed-time alert are left out. They read the clock.
  - `prepareFileDownload`'s Blob, object URL and link click are left out; these are browser objects. The file it would save is stated by `TransferProps.DownloadReassembles`: the stored chunks laid end to end.
- Platform and transport:
  - RTCPeerConnection and RTCDataChannel internals are left out: ICE and STUN configuration and the browser shims. The handle records only what the connection does with it.
  - `setLocalDescription` is treated as immediate, and its callbacks only log. Callbacks of a handle that `reset` has discarded are not delivered.
  - PubNub publish and subscribe internals are left out. Publishing is appending to the outbox, and delivery is calling the receiving client's handler.
  - `JSON.stringify`/`parse` and `Base64Binary.encode`/`decode` are library code and are left out. Messages are datatypes and chunk contents are opaque bytes. Encoding an absent chunk is treated as raising, which ends the serving loop.
  - Real `setTimeout` timing is left out. The expiry checks fire in scheduling order, when the environment chooses.
- `Client.FSClient.HandlePresence`: the model's connection map is a true map. In the source `connections` is a plain object, so a peer whose uuid names an inherited `Object.prototype` member (`constructor`, `toString`, `valueOf`, `__proto__`) finds a truthy entry whose `handlePresence` call raises, and that peer is never admitted; the model admits it like any other unknown peer.
- `Transfer.RequestChunks`: the channel flag records only that the `dataChannel` field is set, taken as an open channel. A channel the peer has closed keeps the field set, because the close handler tests `"closed"` (connection.js:370). In the browser the send on it raises (connection.js:113) before the `setTimeout` (connection.js:144-146), so the drawn ids are lost as in the no-channel case; the model sends the request and schedules the check.
- `Connections.Connection.RequestChunks`: the same open-channel reading as `Transfer.RequestChunks`.
- `Transfer.Expire`: an expiry on a set but closed channel starts such a round; the model re-sends and re-schedules it without end, where the browser raises and loses the ids.
- `Connections.Connection.Expire`: the same open-channel reading as `Transfer.Expire`.
- `Transfer.ServeRequest`, `Transfer.Progress`, `Transfer.ReceiveDone`: their sends and the `close()` on a set but closed channel are modelled as succeeding.
- `TransferProps.RequestKeepsAccounted`, `TransferProps.ExpireKeepsAccounted`, `TransferProps.ReceiveKeepsAccounted`: the hypothesis `s.dataChannel` matches the program only while the channel is open; after the peer closes it, ids can be lost and `Accounted` fails.
- Login and setup:
  - Login, the OAuth token flow, the Contacts fetch, FileReader loading and the name input are left out; they are I/O. `Client.FSClient.AddContacts` receives the fetched entries, `Connections.Connection.FilePicked` receives the bytes read, and the client's identity and `HOSTED` are constructor parameters.
  - Browser detection (`IS_CHROME`, main.js:12) is left out: the connection and the client take `isChrome` as a parameter, and `Chunks.ChunkSizeFor` picks 800 or 50000 bytes from it.
- Model choices:
  - `Sdp.TransformOutgoingSdp`: modelled on every input, including input without the token, instead of behind a precondition. The source handles that input, producing the text with "undefined" appended.
  - Chunk ids are naturals rather than string keys. The source uses them only as array indices.
