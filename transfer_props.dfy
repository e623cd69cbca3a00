/**
 * What the connection's handlers guarantee, stated on the Transfer model:
 * chunking, the request window and its retry, the receiver's chunk
 * accounting, reset, negotiation bookkeeping, and the protocol between a
 * serving and a receiving peer.
 */
module TransferProps {
  import opened Wrappers
  import opened Messages
  import opened Protocol
  import opened Chunks
  import opened ChunkStore
  import opened Window
  import opened Sdp
  import opened Transfer

  // ---- Chunking ----

  /**
   * stageFileData fills ceil(len / chunkSize) slots, every one of them,
   * slot i with chunk i of the split; the chunks put end to end give the
   * buffer back, and an empty buffer gives no chunks.
   */
  lemma StageFileDataChunks(s: Session, fName: string, fType: string, buffer: Bytes)
    ensures var t := StageFileData(s, fName, fType, buffer);
      && |t.fileChunks| == (|buffer| + s.chunkSize - 1) / s.chunkSize
      && (forall i :: 0 <= i < |t.fileChunks| ==> t.fileChunks[i] == Some(Split(buffer, s.chunkSize)[i]))
      && Stored(t.fileChunks) == Below(|t.fileChunks|)
      && Concat(Split(buffer, s.chunkSize)) == buffer
      && (|buffer| == 0 <==> t.fileChunks == [])
      && t.fileName == Some(fName) && t.fileType == Some(fType) && t.buffer == Some(buffer)
  {
    var t := StageFileData(s, fName, fType, buffer);
    ChunkLengths(buffer, s.chunkSize);
    Chunks.SplitJoin(buffer, s.chunkSize);
    forall i: nat ensures i in Stored(t.fileChunks) <==> i in Below(|t.fileChunks|) {
    }
  }

  /** A 130000-byte file in 50000-byte chunks: three chunks, of 50000, 50000 and 30000 bytes. */
  lemma StageExample(buffer: Bytes)
    requires |buffer| == 130000
    ensures var cs := Split(buffer, 50000);
      |cs| == 3 && |cs[0]| == 50000 && |cs[1]| == 50000 && |cs[2]| == 30000
  {
    ChunkLengths(buffer, 50000);
    var cs := Split(buffer, 50000);
    SplitAt(buffer, 50000, 2);
    assert Offset(2, 50000) == 100000;
  }

  // ---- One request round ----

  /**
   * One requestChunks round draws min(|missing|, 90) indices, strictly
   * ascending, all of them missing and smaller than every missing index it
   * leaves; it removes exactly those from the missing set and counts them
   * as requested; it sends one request listing them and schedules one
   * expiry check for them, or, when none were drawn or the channel is
   * gone, sends and schedules nothing. Nothing else changes.
   */
  lemma RequestRound(s: Session)
    ensures var d := Drawn(s); var t := RequestChunks(s);
      && |d| == (if |s.missingChunks| < RequestMax then |s.missingChunks| else RequestMax)
      && (|d| == 0 <==> s.missingChunks == {})
      && StrictlyAscending(d)
      && (forall x :: x in d ==> x in s.missingChunks)
      && (forall x, y :: x in s.missingChunks && x !in d && y in d ==> y < x)
      && t.missingChunks == s.missingChunks - Elems(d)
      && t.numRequested == s.numRequested + |d|
      && (|d| > 0 && s.dataChannel ==>
            t.outbox == s.outbox + [Send(RequestMsg(d))] && t.timers == s.timers + [d])
      && (|d| == 0 || !s.dataChannel ==> t.outbox == s.outbox && t.timers == s.timers)
      && t == s.(missingChunks := t.missingChunks, numRequested := t.numRequested,
                 outbox := t.outbox, timers := t.timers)
  {
    SmallestProps(s.missingChunks, RequestMax);
    var d := Drawn(s);
    if s.missingChunks != {} {
      var x :| x in s.missingChunks;
      assert |d| > 0;
    }
  }

  /**
   * A round started while fewer than 70 chunks are outstanding can take the
   * count to at most 159; from exactly 69 with at least 90 missing it
   * reaches 159.
   */
  lemma RoundOvershoot(s: Session)
    ensures s.numRequested < RequestThreshold ==>
      RequestChunks(s).numRequested < RequestThreshold + RequestMax
    ensures s.numRequested == RequestThreshold - 1 && |s.missingChunks| >= RequestMax ==>
      RequestChunks(s).numRequested == RequestThreshold - 1 + RequestMax
  {
    RequestRound(s);
  }

  // ---- Expiry ----

  /** The indices of a batch whose chunk has not arrived. */
  ghost function StillAbsent(batch: seq<nat>, fc: Store): set<nat> {
    set x | x in batch && !Has(fc, x)
  }

  /**
   * The expiry check of the oldest batch puts back into the missing set
   * exactly the ids of the batch whose chunk is still absent, and leaves
   * numRequested as it is; a new round follows if and only if some id
   * expired and fewer than 70 are counted as requested.
   */
  lemma ExpireReinserts(s: Session)
    requires |s.timers| > 0
    ensures var back := StillAbsent(s.timers[0], s.fileChunks);
      var s1 := s.(timers := s.timers[1..], missingChunks := s.missingChunks + back);
      && (back == {} || s.numRequested >= RequestThreshold ==> Expire(s) == s1)
      && (back != {} && s.numRequested < RequestThreshold ==> Expire(s) == RequestChunks(s1))
      && Expire(s).numRequested >= s.numRequested
  {
    var gone := Absent(s.timers[0], s.fileChunks);
    AbsentElems(s.timers[0], s.fileChunks);
    assert Elems(gone) == StillAbsent(s.timers[0], s.fileChunks);
    if |gone| > 0 {
      assert gone[0] in Elems(gone);
    } else {
      assert Elems(gone) == {};
    }
    var s1 := s.(timers := s.timers[1..], missingChunks := s.missingChunks + Elems(gone));
    RequestRound(s1);
  }

  /**
   * Every pending expiry check fired, oldest first, once 70 or more chunks
   * are counted as requested (below that an expiry may schedule a new one).
   */
  ghost function ExpireAll(s: Session): Session
    requires s.numRequested >= RequestThreshold
    decreases |s.timers|
  {
    if |s.timers| == 0 then s
    else ExpireReinserts(s); ExpireAll(Expire(s))
  }

  /**
   * The retry stalls once 70 or more chunks are counted as requested:
   * expiry never lowers the count, so however many requests were lost,
   * firing every pending expiry check sends nothing and schedules nothing,
   * and the lost ids only go back into the missing set.
   */
  lemma {:induction false} ExpiryStalls(s: Session)
    requires s.numRequested >= RequestThreshold
    ensures ExpireAll(s).outbox == s.outbox
    ensures ExpireAll(s).timers == []
    ensures ExpireAll(s).numRequested == s.numRequested
    ensures ExpireAll(s).missingChunks >= s.missingChunks
    ensures ExpireAll(s).fileChunks == s.fileChunks
    decreases |s.timers|
  {
    if |s.timers| > 0 {
      ExpireReinserts(s);
      ExpiryStalls(Expire(s));
    }
  }

  // ---- Receiving a chunk ----

  /** The state right after a new chunk is stored, before Progress. */
  function Stash(s: Session, id: nat, content: Bytes): Session {
    s.(fileChunks := Put(s.fileChunks, id, content),
       nChunksReceived := s.nChunksReceived + 1,
       numRequested := s.numRequested - 1)
  }

  /** What follows a new chunk never touches the store, the received count or the expected count. */
  lemma ProgressKeepsStore(s: Session)
    ensures Progress(s).fileChunks == s.fileChunks
    ensures Progress(s).nChunksReceived == s.nChunksReceived
    ensures Progress(s).nChunksExpected == s.nChunksExpected
  {
  }

  /** What follows a new chunk adds the next round's draw to the requested count, when it starts one. */
  lemma ProgressRequested(s: Session)
    ensures Progress(s).numRequested == s.numRequested +
      (if !CheckDownloadComplete(s) && s.numRequested < RequestThreshold then |Drawn(s)| else 0)
  {
    if !CheckDownloadComplete(s) && s.numRequested < RequestThreshold {
      RequestRound(s);
    }
  }

  /**
   * A data message for an index already stored changes nothing, so a
   * stored chunk is never overwritten and a duplicate is not counted. A new
   * one is stored, counted as received, adds exactly its index to the
   * stored set, and counts as one fewer requested; if that leaves the file
   * incomplete and fewer than 70 requested, the next round's draw is
   * counted as requested on top.
   */
  lemma ReceiveChunkStores(s: Session, id: nat, content: Bytes)
    ensures Has(s.fileChunks, id) ==> ReceiveChunk(s, id, content) == s
    ensures !Has(s.fileChunks, id) ==>
      var t := ReceiveChunk(s, id, content);
      && t.fileChunks == Put(s.fileChunks, id, content)
      && Stored(t.fileChunks) == Stored(s.fileChunks) + {id}
      && t.nChunksReceived == s.nChunksReceived + 1
      && t.nChunksExpected == s.nChunksExpected
      && t.numRequested == s.numRequested - 1 +
           (if s.nChunksExpected != Some(s.nChunksReceived + 1) && s.numRequested - 1 < RequestThreshold
            then |Drawn(s)| else 0)
  {
    if !Has(s.fileChunks, id) {
      PutNew(s.fileChunks, id, content);
      assert ReceiveChunk(s, id, content) == Progress(Stash(s, id, content));
      ProgressKeepsStore(Stash(s, id, content));
      ProgressRequested(Stash(s, id, content));
    }
  }

  /**
   * The chunk that completes the file, with the channel still there, is
   * stored and counted, then `done` is sent, the connection counts as not
   * connected, and it is reset: no channel, no role, one fewer requested,
   * and no further round.
   */
  lemma ReceiveLastChunk(s: Session, id: nat, content: Bytes)
    requires !Has(s.fileChunks, id) && s.dataChannel
    requires s.nChunksExpected == Some(s.nChunksReceived + 1)
    ensures ReceiveChunk(s, id, content)
      == Reset(Stash(s, id, content).(outbox := s.outbox + [Send(DoneMsg)], connected := false))
    ensures var t := ReceiveChunk(s, id, content);
      && t.outbox == s.outbox + [Send(DoneMsg)]
      && !t.connected && !t.dataChannel && !t.isInitiator
      && t.timers == s.timers && t.missingChunks == s.missingChunks
      && t.numRequested == s.numRequested - 1
  {
    assert ReceiveChunk(s, id, content) == Progress(Stash(s, id, content));
  }

  /**
   * A new chunk that does not complete the file sends a request if and only
   * if fewer than 70 remain counted as requested, some index is missing
   * and the channel is there; the request lists the next round's indices.
   */
  lemma ReceiveChunkRequests(s: Session, id: nat, content: Bytes)
    requires !Has(s.fileChunks, id)
    requires s.nChunksExpected != Some(s.nChunksReceived + 1)
    ensures var t := ReceiveChunk(s, id, content);
      var go := s.numRequested - 1 < RequestThreshold && s.missingChunks != {} && s.dataChannel;
      && (go ==> t.outbox == s.outbox + [Send(RequestMsg(Drawn(s)))] && t.timers == s.timers + [Drawn(s)])
      && (!go ==> t.outbox == s.outbox && t.timers == s.timers)
  {
    assert ReceiveChunk(s, id, content) == Progress(Stash(s, id, content));
    RequestRound(Stash(s, id, content));
  }

  /** Without a channel, receiving a chunk sends nothing, and the channel stays gone. */
  lemma ReceiveWithoutChannelSilent(s: Session, id: nat, content: Bytes)
    requires !s.dataChannel
    ensures ReceiveChunk(s, id, content).outbox == s.outbox
    ensures !ReceiveChunk(s, id, content).dataChannel
  {
    if !Has(s.fileChunks, id) {
      assert ReceiveChunk(s, id, content) == Progress(Stash(s, id, content));
      RequestRound(Stash(s, id, content));
    }
  }

  /** The data messages of `chunks` received one after another, first to last. */
  ghost function ReceiveAll(s: Session, chunks: seq<(nat, Bytes)>): Session
    decreases |chunks|
  {
    if chunks == [] then s
    else ReceiveAll(ReceiveChunk(s, chunks[0].0, chunks[0].1), chunks[1..])
  }

  /** Without a channel, no number of received chunks sends anything. */
  lemma {:induction false} ReceiveAllSilent(s: Session, chunks: seq<(nat, Bytes)>)
    requires !s.dataChannel
    ensures ReceiveAll(s, chunks).outbox == s.outbox
    decreases |chunks|
  {
    if chunks != [] {
      ReceiveWithoutChannelSilent(s, chunks[0].0, chunks[0].1);
      ReceiveAllSilent(ReceiveChunk(s, chunks[0].0, chunks[0].1), chunks[1..]);
    }
  }

  /**
   * `done` is sent once: after the chunk that completes the file, no
   * further chunks, however many and whether duplicates or not, make the
   * connection send anything.
   */
  lemma DoneOnce(s: Session, id: nat, content: Bytes, later: seq<(nat, Bytes)>)
    requires !Has(s.fileChunks, id) && s.dataChannel
    requires s.nChunksExpected == Some(s.nChunksReceived + 1)
    ensures var t := ReceiveChunk(s, id, content);
      ReceiveAll(t, later).outbox == t.outbox
  {
    ReceiveLastChunk(s, id, content);
    ReceiveAllSilent(ReceiveChunk(s, id, content), later);
  }

  // ---- The chunk-count invariant ----

  /** The received counter counts the stored chunks. */
  ghost predicate Counted(s: Session) {
    |Stored(s.fileChunks)| == s.nChunksReceived
  }

  lemma RequestKeepsCounted(s: Session)
    requires Counted(s)
    ensures Counted(RequestChunks(s))
  {
  }

  lemma ResetKeepsCounted(s: Session)
    requires Counted(s)
    ensures Counted(Reset(s))
  {
  }

  /** Every data-channel message keeps the received counter equal to the number of stored chunks. */
  lemma ChannelMessageKeepsCounted(s: Session, m: ChannelMsg)
    requires Counted(s)
    ensures Counted(OnChannelMessage(s, m))
  {
    match m
    case DataMsg(id, content) =>
      ReceiveChunkStores(s, id, content);
    case RequestMsg(ids) => ServeKeepsTransfer(s, ids);
    case DoneMsg =>
    case OtherMsg(_) =>
  }

  lemma ExpireKeepsCounted(s: Session)
    requires |s.timers| > 0 && Counted(s)
    ensures Counted(Expire(s))
  {
  }

  /** A remote offer starts the count afresh: nothing stored, nothing received. */
  lemma OfferEstablishesCounted(s: Session)
    requires RemotePending(s) && IsOffer(s.peerConn.value.pendingRemote[0])
    ensures Counted(RemoteDescriptionSet(s))
  {
    assert Stored([]) == {};
  }

  // ---- Every chunk is accounted for ----

  /**
   * Every index of the expected file is missing, stored, or in a batch
   * whose expiry check is still scheduled.
   */
  ghost predicate Accounted(s: Session) {
    s.nChunksExpected.Some? ==>
      forall i: nat :: i < s.nChunksExpected.value ==>
        i in s.missingChunks || Has(s.fileChunks, i) || i in InFlight(s.timers)
  }

  /** A round moves the drawn indices from the missing set into the new batch. */
  lemma RequestKeepsAccounted(s: Session)
    requires Accounted(s) && s.dataChannel
    ensures Accounted(RequestChunks(s))
  {
    RequestRound(s);
    var d := Drawn(s);
    if |d| > 0 {
      InFlightAppend(s.timers, d);
    }
  }

  /**
   * The flaw of a round without a channel: the drawn indices leave the
   * missing set, but the send raises before the expiry check is scheduled,
   * so an index that is neither stored nor in flight is then accounted
   * nowhere and is never requested again.
   */
  lemma RequestWithoutChannelLoses(s: Session)
    requires !s.dataChannel && s.missingChunks != {}
    ensures var x := Drawn(s)[0]; var t := RequestChunks(s);
      && x in s.missingChunks
      && x !in t.missingChunks
      && t.fileChunks == s.fileChunks && t.timers == s.timers
      && ((s.nChunksExpected.Some? && x < s.nChunksExpected.value
           && !Has(s.fileChunks, x) && x !in InFlight(s.timers)) ==> !Accounted(t))
  {
    RequestRound(s);
    assert Drawn(s)[0] in Drawn(s);
  }

  /**
   * The loss on a concrete state: one expected chunk, missing, nothing
   * stored or scheduled, and no channel. Before the round every index is
   * accounted for; after it, index 0 is accounted nowhere.
   */
  lemma LostExample(s: Session)
    requires !s.dataChannel && s.nChunksExpected == Some(1)
    requires s.missingChunks == {0} && s.fileChunks == [] && s.timers == []
    ensures Accounted(s) && !Accounted(RequestChunks(s))
  {
    RequestWithoutChannelLoses(s);
    SmallestProps(s.missingChunks, RequestMax);
  }

  /** An expiry check takes its batch out of flight and puts its absent indices back into the missing set. */
  lemma ExpireKeepsAccounted(s: Session)
    requires |s.timers| > 0 && Accounted(s) && s.dataChannel
    ensures Accounted(Expire(s))
  {
    var gone := Absent(s.timers[0], s.fileChunks);
    AbsentElems(s.timers[0], s.fileChunks);
    var s1 := s.(timers := s.timers[1..], missingChunks := s.missingChunks + Elems(gone));
    assert Accounted(s1);
    if |gone| > 0 && s.numRequested < RequestThreshold {
      RequestKeepsAccounted(s1);
    }
  }

  /** Receiving a chunk, with the channel there, keeps every index accounted for. */
  lemma ReceiveKeepsAccounted(s: Session, id: nat, content: Bytes)
    requires Accounted(s) && s.dataChannel
    ensures Accounted(ReceiveChunk(s, id, content))
  {
    if !Has(s.fileChunks, id) {
      var s1 := Stash(s, id, content);
      assert ReceiveChunk(s, id, content) == Progress(s1);
      forall j: nat | Has(s.fileChunks, j) ensures Has(s1.fileChunks, j) {
        if j != id {
          PutKeepsOthers(s.fileChunks, id, content, j);
        }
      }
      assert Accounted(s1);
      if !CheckDownloadComplete(s1) && s1.numRequested < RequestThreshold {
        RequestKeepsAccounted(s1);
      }
    }
  }

  /** A remote offer starts with every index of the file missing. */
  lemma OfferEstablishesAccounted(s: Session)
    requires RemotePending(s) && IsOffer(s.peerConn.value.pendingRemote[0])
    ensures Accounted(RemoteDescriptionSet(s))
  {
  }

  // ---- Stored and missing at once ----

  /**
   * Expiry does not keep the missing set and the store apart. With more
   * than 70 counted as requested, the expiry check puts an absent id of its
   * batch back into the missing set without starting a round; if the chunk
   * then arrives late, it is stored and its id stays missing.
   */
  lemma StoredAndMissing(s: Session, x: nat, content: Bytes)
    requires |s.timers| > 0 && x in s.timers[0] && !Has(s.fileChunks, x)
    requires s.numRequested > RequestThreshold
    ensures var t := ReceiveChunk(Expire(s), x, content);
      x in t.missingChunks && Has(t.fileChunks, x)
  {
    ExpireReinserts(s);
    var s1 := Expire(s);
    assert x in StillAbsent(s.timers[0], s.fileChunks);
    assert ReceiveChunk(s1, x, content) == Progress(Stash(s1, x, content));
    ProgressKeepsStore(Stash(s1, x, content));
  }

  /** The overlap on a concrete state: index 0 expires with 80 requested, then its chunk arrives. */
  lemma StoredAndMissingExample(s: Session)
    requires s.timers == [[0]] && s.fileChunks == [] && s.missingChunks == {}
    requires s.numRequested == 80 && s.nChunksExpected == Some(2)
    ensures var t := ReceiveChunk(Expire(s), 0, [1]);
      0 in t.missingChunks && Has(t.fileChunks, 0)
  {
    StoredAndMissing(s, 0, [1]);
  }

  /**
   * A round requests an index again even when its chunk is already stored,
   * and counts it as requested; the reply is a duplicate and changes
   * nothing, so that request is never taken off the count.
   */
  lemma RerequestStored(s: Session, x: nat, content: Bytes)
    requires x in Drawn(s) && Has(s.fileChunks, x) && s.dataChannel
    ensures var t := RequestChunks(s);
      && t.outbox == s.outbox + [Send(RequestMsg(Drawn(s)))]
      && t.numRequested == s.numRequested + |Drawn(s)|
      && ReceiveChunk(t, x, content) == t
  {
    RequestRound(s);
  }

  // ---- Serving requests ----

  /** The data messages for the longest prefix of ids whose chunks are all stored. */
  function Served(fc: Store, ids: seq<nat>): seq<Outbound>
    decreases |ids|
  {
    if ids == [] || !Has(fc, ids[0]) then []
    else [Send(PackageChunk(fc, ids[0]))] + Served(fc, ids[1..])
  }

  /**
   * Served answers the ids in the order asked, each with its stored chunk,
   * and stops exactly at the first id whose chunk is absent: all of them
   * are answered if and only if all are stored.
   */
  lemma {:induction false} ServedProps(fc: Store, ids: seq<nat>)
    ensures |Served(fc, ids)| <= |ids|
    ensures forall i :: 0 <= i < |Served(fc, ids)| ==>
      Has(fc, ids[i]) && Served(fc, ids)[i] == Send(DataMsg(ids[i], fc[ids[i]].value))
    ensures |Served(fc, ids)| == |ids| <==> forall i :: 0 <= i < |ids| ==> Has(fc, ids[i])
    ensures |Served(fc, ids)| < |ids| ==> !Has(fc, ids[|Served(fc, ids)|])
    decreases |ids|
  {
    if ids != [] && Has(fc, ids[0]) {
      ServedProps(fc, ids[1..]);
      var r := Served(fc, ids);
      assert forall i :: 1 <= i < |ids| ==> ids[i] == ids[1..][i - 1];
      assert forall i :: 1 <= i < |r| ==> r[i] == Served(fc, ids[1..])[i - 1];
    }
  }

  /**
   * Serving a request sends, in the order asked, one data message with the
   * stored chunk for each requested index up to the first one not stored
   * (encoding an absent chunk raises), and nothing without a channel;
   * nothing but the outbox changes.
   */
  lemma {:induction false} ServeRequestSends(s: Session, ids: seq<nat>)
    ensures ServeRequest(s, ids) == s.(outbox := s.outbox + if s.dataChannel then Served(s.fileChunks, ids) else [])
  {
    ServeOutbox(s, ids);
    ServeOnlyOutbox(s, ids);
  }

  lemma {:induction false} ServeOutbox(s: Session, ids: seq<nat>)
    ensures ServeRequest(s, ids).outbox == s.outbox + if s.dataChannel then Served(s.fileChunks, ids) else []
    decreases |ids|
  {
    if ids != [] && s.dataChannel && Has(s.fileChunks, ids[0]) {
      var out := [Send(PackageChunk(s.fileChunks, ids[0]))];
      var s1 := s.(outbox := s.outbox + out);
      ServeOutbox(s1, ids[1..]);
      assert Served(s.fileChunks, ids) == out + Served(s.fileChunks, ids[1..]);
      assert s1.outbox + Served(s.fileChunks, ids[1..]) == s.outbox + Served(s.fileChunks, ids);
    }
  }

  lemma {:induction false} ServeOnlyOutbox(s: Session, ids: seq<nat>)
    ensures ServeRequest(s, ids) == s.(outbox := ServeRequest(s, ids).outbox)
    decreases |ids|
  {
    if ids != [] && s.dataChannel && Has(s.fileChunks, ids[0]) {
      var s1 := s.(outbox := s.outbox + [Send(PackageChunk(s.fileChunks, ids[0]))]);
      ServeOnlyOutbox(s1, ids[1..]);
    }
  }

  lemma ServeKeepsTransfer(s: Session, ids: seq<nat>)
    ensures ServeRequest(s, ids).fileChunks == s.fileChunks
    ensures ServeRequest(s, ids).nChunksReceived == s.nChunksReceived
  {
    ServeRequestSends(s, ids);
  }

  // ---- Reset ----

  /**
   * reset clears the role, the connection flags, the file name and buffer
   * and the channel, and when a handle exists replaces it with a fresh one
   * and empties both candidate lists; it leaves the chunk store, the
   * missing set, the counters, the file type and the scheduled checks as
   * they are. Resetting twice is resetting once.
   */
  lemma ResetEffect(s: Session)
    ensures var t := Reset(s);
      && !t.isInitiator && !t.connected && !t.dataChannel
      && t.fileName == None && t.buffer == None
      && (s.peerConn.Some? ==>
            t.peerConn == Some(FreshPeerConn) && t.localIceCandidates == [] && t.remoteIceCandidates == [])
      && (s.peerConn.None? ==>
            t.peerConn == None && t.localIceCandidates == s.localIceCandidates
            && t.remoteIceCandidates == s.remoteIceCandidates)
      && t.fileChunks == s.fileChunks && t.missingChunks == s.missingChunks
      && t.numRequested == s.numRequested && t.nChunksReceived == s.nChunksReceived
      && t.nChunksExpected == s.nChunksExpected && t.fileType == s.fileType
      && t.timers == s.timers && t.outbox == s.outbox && t.available == s.available
    ensures Reset(Reset(s)) == Reset(s)
  {
  }

  // ---- From the sender's chunks to the receiver's file ----

  /** The contents of the stored chunks, in index order (a hole gives an empty part; a complete store has none). */
  function Values(fc: Store): seq<Bytes> {
    seq(|fc|, i requires 0 <= i < |fc| => if fc[i].Some? then fc[i].value else [])
  }

  /**
   * Every chunk the receiver holds is the chunk of the same index of the
   * sender's buffer, and the store is no longer than the sender's split.
   */
  ghost predicate Faithful(fc: Store, buffer: Bytes, size: ChunkSize) {
    && |fc| <= NumChunks(|buffer|, size)
    && forall i :: 0 <= i < |fc| && fc[i].Some? ==> fc[i].value == Split(buffer, size)[i]
  }

  /** A served data message carries, for an index of the sender's split, exactly that chunk. */
  lemma ServedIsSplit(buffer: Bytes, size: ChunkSize, ids: seq<nat>, k: nat)
    requires k < |Served(Staged(buffer, size), ids)|
    ensures var m := Served(Staged(buffer, size), ids)[k];
      && m.Send? && m.msg.DataMsg?
      && m.msg.id < NumChunks(|buffer|, size)
      && m.msg.content == Split(buffer, size)[m.msg.id]
  {
    ServedProps(Staged(buffer, size), ids);
  }

  /** Receiving a chunk of the sender's split keeps the receiver's store faithful to it. */
  lemma ReceiveKeepsFaithful(s: Session, buffer: Bytes, size: ChunkSize, id: nat)
    requires Faithful(s.fileChunks, buffer, size) && id < NumChunks(|buffer|, size)
    ensures Faithful(ReceiveChunk(s, id, Split(buffer, size)[id]).fileChunks, buffer, size)
  {
    ReceiveChunkStores(s, id, Split(buffer, size)[id]);
  }

  lemma {:induction false} SubsetFull(a: set<nat>, b: set<nat>)
    requires a <= b && |a| == |b|
    ensures a == b
    decreases |a|
  {
    if a != {} {
      var y :| y in a;
      SubsetFull(a - {y}, b - {y});
      assert a == (a - {y}) + {y} && b == (b - {y}) + {y};
    }
  }

  /**
   * The end of a download: when the received count reaches the expected
   * count, which is the number of chunks of the sender's buffer, and every
   * stored chunk came from that buffer, the stored chunks laid end to end
   * are the sender's file.
   */
  lemma DownloadReassembles(s: Session, buffer: Bytes, size: ChunkSize)
    requires Counted(s) && Faithful(s.fileChunks, buffer, size)
    requires s.nChunksExpected == Some(NumChunks(|buffer|, size))
    requires CheckDownloadComplete(s)
    ensures Concat(Values(s.fileChunks)) == buffer
  {
    var fc := s.fileChunks;
    var n := NumChunks(|buffer|, size);
    assert Stored(fc) <= Below(n);
    SubsetFull(Stored(fc), Below(n));
    assert |fc| == n;
    forall i | 0 <= i < n ensures Values(fc)[i] == Split(buffer, size)[i] {
      assert i in Below(n);
    }
    assert Values(fc) == Split(buffer, size);
    Chunks.SplitJoin(buffer, size);
  }

  // ---- Negotiation ----

  /**
   * Applying a remote offer hands every buffered remote candidate to the
   * handle, in arrival order, keeps the candidate buffer, takes the file name, type
   * and chunk count from the offer, and marks every chunk missing with
   * nothing stored, requested or received. An offer without a chunk count
   * leaves nothing missing.
   */
  lemma OfferInitialises(s: Session)
    requires RemotePending(s) && IsOffer(s.peerConn.value.pendingRemote[0])
    ensures var msg := s.peerConn.value.pendingRemote[0]; var t := RemoteDescriptionSet(s);
      var n := if msg.nChunks.Some? then msg.nChunks.value else 0;
      && t.missingChunks == Below(n) && t.fileChunks == []
      && t.numRequested == 0 && t.nChunksReceived == 0 && t.nChunksExpected == msg.nChunks
      && t.fileName == msg.fName && t.fileType == msg.fType
      && t.peerConn.Some? && t.peerConn.value.remoteDescriptionSet
      && t.peerConn.value.addedCandidates == s.peerConn.value.addedCandidates + s.remoteIceCandidates
      && t.peerConn.value.pendingRemote == s.peerConn.value.pendingRemote[1..]
      && t.remoteIceCandidates == s.remoteIceCandidates
      && t.outbox == s.outbox && t.timers == s.timers
  {
  }

  /** Applying a remote answer touches only the handle. */
  lemma AnswerApplied(s: Session)
    requires RemotePending(s) && !IsOffer(s.peerConn.value.pendingRemote[0])
    ensures var pc := s.peerConn.value;
      RemoteDescriptionSet(s) == s.(peerConn := Some(pc.(remoteDescriptionSet := true,
        addedCandidates := pc.addedCandidates + s.remoteIceCandidates,
        pendingRemote := pc.pendingRemote[1..])))
  {
  }

  /**
   * The buffered remote candidates are never emptied when they are handed
   * over, so a second remote description hands them to the handle again.
   */
  lemma CandidatesAddedTwice(s: Session)
    requires RemotePending(s) && |s.peerConn.value.pendingRemote| >= 2
    ensures var t := RemoteDescriptionSet(s);
      && RemotePending(t)
      && RemoteDescriptionSet(t).peerConn.value.addedCandidates
         == s.peerConn.value.addedCandidates + s.remoteIceCandidates + s.remoteIceCandidates
  {
  }

  /** Whether or not it is an offer, an applied remote description marks the handle and hands it the buffered candidates. */
  lemma RemoteSetHandle(s: Session)
    requires RemotePending(s)
    ensures var t := RemoteDescriptionSet(s);
      && t.peerConn.Some? && t.peerConn.value.remoteDescriptionSet
      && t.peerConn.value.addedCandidates == s.peerConn.value.addedCandidates + s.remoteIceCandidates
      && t.remoteIceCandidates == s.remoteIceCandidates
  {
  }

  /** A remote description that cannot be applied publishes one reject, with no target, then resets. */
  lemma RemoteFailedRejects(s: Session)
    requires RemotePending(s)
    ensures var t := RemoteDescriptionFailed(s);
      && t.outbox == s.outbox + [Publish(RejectMsg(s.uuid))]
      && RejectMsg(s.uuid).target == None && RejectMsg(s.uuid).action == Some(Text(ErrReject))
      && !t.connected && !t.isInitiator && !t.dataChannel && t.peerConn == Some(FreshPeerConn)
  {
  }

  /** Remote candidates delivered one after another. */
  function ReceiveIces(s: Session, cs: seq<Candidate>): (r: Session)
    ensures r.peerConn.Some? <==> s.peerConn.Some?
  {
    if cs == [] then s else ReceiveIce(ReceiveIces(s, cs[..|cs| - 1]), cs[|cs| - 1])
  }

  /**
   * A remote candidate is always buffered, and handed to the handle at once
   * exactly when a remote description is already set.
   */
  lemma {:induction false} ReceiveIcesEffect(s: Session, cs: seq<Candidate>)
    requires s.peerConn.Some?
    ensures var t := ReceiveIces(s, cs);
      && t.remoteIceCandidates == s.remoteIceCandidates + cs
      && t.peerConn.Some?
      && t.peerConn.value.addedCandidates == s.peerConn.value.addedCandidates
           + (if s.peerConn.value.remoteDescriptionSet then cs else [])
      && t.peerConn.value.remoteDescriptionSet == s.peerConn.value.remoteDescriptionSet
      && t.peerConn.value.pendingRemote == s.peerConn.value.pendingRemote
      && t.peerConn.value.localDescription == s.peerConn.value.localDescription
      && t.peerConn.value.pendingCreates == s.peerConn.value.pendingCreates
      && t.fileChunks == s.fileChunks && t.missingChunks == s.missingChunks && t.outbox == s.outbox
  {
    if cs != [] {
      var init := cs[..|cs| - 1];
      ReceiveIcesEffect(s, init);
      assert init + [cs[|cs| - 1]] == cs;
    }
  }

  /**
   * Whichever side of the remote description they arrive on, the remote
   * candidates reach the handle exactly once each and in arrival order.
   */
  lemma IceOrder(s: Session, before: seq<Candidate>, after: seq<Candidate>)
    requires s.peerConn.Some? && !s.peerConn.value.remoteDescriptionSet
    requires s.peerConn.value.addedCandidates == [] && s.remoteIceCandidates == []
    requires |s.peerConn.value.pendingRemote| > 0
    ensures var t1 := ReceiveIces(s, before);
      && RemotePending(t1)
      && ReceiveIces(RemoteDescriptionSet(t1), after).peerConn.value.addedCandidates == before + after
  {
    ReceiveIcesEffect(s, before);
    var t1 := ReceiveIces(s, before);
    RemoteSetHandle(t1);
    ReceiveIcesEffect(RemoteDescriptionSet(t1), after);
  }

  /** handleSignal resets on a reject or a cancel and ignores every other action. */
  lemma HandleSignalEffect(s: Session, msg: BusMsg)
    ensures msg.action == Some(Text(ErrReject)) || msg.action == Some(Text(Cancel)) ==>
      HandleSignal(s, msg) == Reset(s)
    ensures forall t: Tag :: t != ErrReject && t != Cancel && msg.action == Some(Text(t)) ==>
      HandleSignal(s, msg) == s
    ensures msg.action == None ==> HandleSignal(s, msg) == s
  {
    forall t: Tag | t != ErrReject && t != Cancel
      ensures Text(t) != Text(ErrReject) && Text(t) != Text(Cancel)
    {
      TextInjective(t, ErrReject);
      TextInjective(t, Cancel);
    }
  }

  /**
   * A join makes the peer available and creates the handle only when there
   * is none; leaving makes it unavailable and resets only a connected
   * share. Either message delivered twice acts as once.
   */
  lemma HandlePresenceEffect(s: Session, p: PresenceMsg)
    ensures var t := HandlePresence(s, p);
      && (p.action == "join" ==>
            t.available && t.peerConn.Some? && (s.peerConn.Some? ==> t.peerConn == s.peerConn)
            && t.connected == s.connected)
      && (p.action != "join" ==>
            !t.available && !t.connected && (s.connected <==> t != s.(available := false)))
      && HandlePresence(t, p) == t
  {
    if p.action != "join" && s.connected {
      ResetEffect(s.(available := false));
    }
  }

  /**
   * onDescAvail: the patched description becomes the local description and
   * is published to the peer; the file name, type and chunk count travel
   * with it exactly when this side is the initiator; the connection counts
   * as connected.
   */
  lemma DescPublished(s: Session, desc: Desc)
    requires CreatePending(s)
    ensures var t := OnDescAvail(s, desc); var d := desc.(sdp := TransformOutgoingSdp(desc.sdp));
      var m := DescMsg(s, d);
      && t.connected
      && t.outbox == s.outbox + [Publish(m)]
      && t.peerConn.value.localDescription == Some(d)
      && m.uuid == s.uuid && m.target == Some(s.email) && m.desc == Some(d)
      && (m.nChunks.Some? <==> s.isInitiator)
      && (s.isInitiator ==> m.nChunks == Some(|s.fileChunks|) && m.fName == s.fileName && m.fType == s.fileType)
  {
  }

  /**
   * A picked file is staged and offered: the connection becomes the
   * initiator and, unless already connected, opens a data channel and asks
   * the handle for an offer.
   */
  lemma FilePickedOffers(s: Session, fName: string, fType: string, buffer: Bytes)
    ensures var t := FilePicked(s, fName, fType, buffer);
      && t.isInitiator && t.fileChunks == Staged(buffer, s.chunkSize)
      && (!s.connected && s.peerConn.Some? ==>
            t.dataChannel && CreatePending(t)
            && t.peerConn.value.pendingCreates == s.peerConn.value.pendingCreates + 1)
      && (s.connected || s.peerConn.None? ==> t.dataChannel == s.dataChannel && t.peerConn == s.peerConn)
  {
  }

  /**
   * The offer round trip: the chunk count the sender publishes with its
   * offer is the number of chunks of the picked file, and a receiver that
   * applies that offer expects exactly those chunks, with every one of them
   * missing, under the picked name and type.
   */
  lemma OfferRoundTrip(s: Session, fName: string, fType: string, buffer: Bytes, desc: Desc, r: Session)
    requires s.peerConn.Some? && !s.connected && desc.kind == Text(Offer)
    requires r.peerConn.Some? && r.peerConn.value.pendingRemote == []
    ensures var a := FilePicked(s, fName, fType, buffer);
      && CreatePending(a)
      && var b := OnDescAvail(a, desc);
      && |b.outbox| > 0 && b.outbox[|b.outbox| - 1].Publish?
      && var m := b.outbox[|b.outbox| - 1].bus;
      && RemotePending(ReceiveDesc(r, m))
      && var t := RemoteDescriptionSet(ReceiveDesc(r, m));
      && t.nChunksExpected == Some(NumChunks(|buffer|, s.chunkSize))
      && t.missingChunks == Below(NumChunks(|buffer|, s.chunkSize))
      && t.fileName == Some(fName) && t.fileType == Some(fType)
  {
    FilePickedOffers(s, fName, fType, buffer);
    var a := FilePicked(s, fName, fType, buffer);
    DescPublished(a, desc);
    var b := OnDescAvail(a, desc);
    var m := b.outbox[|b.outbox| - 1].bus;
    assert |a.fileChunks| == NumChunks(|buffer|, s.chunkSize);
    OfferInitialises(ReceiveDesc(r, m));
  }

  /** Cancelling publishes a cancel addressed to the peer, which resets the peer when it arrives. */
  lemma CancelResetsPeer(s: Session, peer: Session)
    ensures var t := ShareCancelled(s);
      && t.outbox == s.outbox + [Publish(CancelMsg(s.uuid, s.email))]
      && CancelMsg(s.uuid, s.email).target == Some(s.email)
      && HandleSignal(peer, CancelMsg(s.uuid, s.email)) == Reset(peer)
      && t == Reset(s.(outbox := t.outbox))
  {
  }

  // ---- Channel state events ----

  /**
   * When the channel opens the responder starts requesting and the
   * initiator waits; an event typed "close", which is what a closing
   * channel reports, matches neither "open" nor "closed" and is ignored.
   */
  lemma ReadyStateEvents(s: Session)
    ensures OnChannelReadyStateChange(s, "open") == if s.isInitiator then s else RequestChunks(s)
    ensures OnChannelReadyStateChange(s, "close") == s
    ensures OnChannelReadyStateChange(s, "error") == if s.connected then Reset(s) else s
  {
    assert "close" != "open" && "close" != "closed" && "close" != "error";
    assert "error" != "open" && "error" != "closed";
  }
}
