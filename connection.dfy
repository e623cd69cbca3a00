/**
 * The Connection object of connection.js: one per remote peer, with the
 * same fields, updated in place by its event handlers. State() reads the
 * fields out as a Transfer.Session, and every handler is proved to leave
 * the state Transfer prescribes for that event.
 */
module Connections {
  import opened Wrappers
  import opened Messages
  import opened Chunks
  import opened ChunkStore
  import opened Window
  import opened Sdp
  import Protocol
  import Transfer

  class Connection {
    const email: string
    const uuid: string
    const chunkSize: ChunkSize
    var isInitiator: bool
    var connected: bool
    var available: bool
    var fileName: Option<string>
    var fileType: Option<string>
    var buffer: Option<Bytes>
    var fileChunks: Store
    var missingChunks: set<nat>
    var numRequested: int
    var nChunksReceived: nat
    var nChunksExpected: Option<nat>
    var localIceCandidates: seq<Candidate>
    var remoteIceCandidates: seq<Candidate>
    var peerConn: Option<Transfer.PeerConn>
    var dataChannel: bool
    var outbox: seq<Outbound>
    var timers: seq<seq<nat>>

    function State(): Transfer.Session
      reads this
    {
      Transfer.Session(email, uuid, chunkSize, isInitiator, connected, available,
                       fileName, fileType, buffer, fileChunks, missingChunks,
                       numRequested, nChunksReceived, nChunksExpected,
                       localIceCandidates, remoteIceCandidates, peerConn, dataChannel,
                       outbox, timers)
    }

    constructor (email: string, uuid: string, isChrome: bool)
      ensures State() == Transfer.Initial(email, uuid, ChunkSizeFor(isChrome))
    {
      this.email := email;
      this.uuid := uuid;
      chunkSize := ChunkSizeFor(isChrome);
      isInitiator := false;
      connected := false;
      available := false;
      fileName := None;
      fileType := None;
      buffer := None;
      fileChunks := [];
      missingChunks := {};
      numRequested := 0;
      nChunksReceived := 0;
      nChunksExpected := Some(0);
      localIceCandidates := [];
      remoteIceCandidates := [];
      peerConn := None;
      dataChannel := false;
      outbox := [];
      timers := [];
    }

    /** stageFileData: the chunk array is allocated with holes and filled slice by slice. */
    method StageFileData(fName: string, fType: string, buffer: Bytes)
      modifies this
      ensures State() == Transfer.StageFileData(old(State()), fName, fType, buffer)
    {
      RecordFile(Some(fName), Some(fType), Some(buffer));
      var chunks := CutChunks(buffer, chunkSize);
      fileChunks := chunks;
    }

    method RecordFile(name: Option<string>, kind: Option<string>, data: Option<Bytes>)
      modifies this
      ensures State() == old(State()).(fileName := name, fileType := kind, buffer := data)
    {
      fileName := name;
      fileType := kind;
      buffer := data;
    }

    /** The slicing loop: an array of NumChunks holes, filled slot by slot. */
    static method CutChunks(buffer: Bytes, size: ChunkSize) returns (chunks: Store)
      ensures chunks == Transfer.Staged(buffer, size)
    {
      var n := NumChunks(|buffer|, size);
      ghost var cs := Split(buffer, size);
      chunks := seq(n, _ => None);
      for i := 0 to n
        invariant |chunks| == n
        invariant forall j :: 0 <= j < n ==> chunks[j] == if j < i then Some(cs[j]) else None
      {
        SplitAt(buffer, size, i);
        chunks := chunks[i := Some(Chunk(buffer, size, i))];
      }
    }

    /** requestChunks: draw up to RequestMax missing indices in ascending order, request them, schedule their expiry. */
    method RequestChunks()
      modifies this
      ensures State() == Transfer.RequestChunks(old(State()))
    {
      var chunks, missing := Draw(missingChunks);
      var n := |chunks|;
      missingChunks := missing;
      numRequested := numRequested + n;
      if n == 0 || !dataChannel {
        return;  // nothing drawn; or send() on a deleted channel raises: no request, no expiry check
      }
      SendRequest(chunks);
    }

    /** Send one req-chunk message and schedule its expiry check. */
    method SendRequest(chunks: seq<nat>)
      modifies this
      ensures State() == old(State()).(outbox := old(outbox) + [Send(RequestMsg(chunks))],
                                       timers := old(timers) + [chunks])
    {
      outbox := outbox + [Send(RequestMsg(chunks))];
      timers := timers + [chunks];
    }

    /**
     * The for-in loop of requestChunks: take indices from the missing set in
     * ascending order, deleting each, until RequestMax are taken.
     */
    static method Draw(m: set<nat>) returns (chunks: seq<nat>, missing: set<nat>)
      ensures chunks == Smallest(m, Transfer.RequestMax)
      ensures missing == m - Elems(chunks)
    {
      chunks := [];
      missing := m;
      DrawStart(m, Transfer.RequestMax);
      while |chunks| < Transfer.RequestMax && missing != {}
        invariant Drawing(m, Transfer.RequestMax, chunks, missing)
        decreases Transfer.RequestMax - |chunks|
      {
        var id := NextKey(missing);
        DrawStep(m, Transfer.RequestMax, chunks, missing, id);
        chunks := chunks + [id];
        missing := missing - {id};
      }
      DrawDone(m, Transfer.RequestMax, chunks, missing);
    }

    /** The next key for-in visits: the least index still in the set. */
    static method NextKey(missing: set<nat>) returns (id: nat)
      requires missing != {}
      ensures id in missing && forall y :: y in missing ==> id <= y
    {
      ghost var least := Least(missing);
      id :| id in missing && forall y :: y in missing ==> id <= y;
    }

    /** The expiry check of the oldest scheduled batch. */
    method Expire()
      requires |timers| > 0
      modifies this
      ensures State() == Transfer.Expire(old(State()))
    {
      var chunks := timers[0];
      var expired := 0;
      var missing := missingChunks;
      for i := 0 to |chunks|
        invariant expired == |Absent(chunks[..i], fileChunks)|
        invariant missing == missingChunks + Elems(Absent(chunks[..i], fileChunks))
      {
        var id := chunks[i];
        assert chunks[..i + 1][..i] == chunks[..i];
        if !Has(fileChunks, id) {
          expired := expired + 1;
          missing := missing + {id};
        }
      }
      assert chunks[..|chunks|] == chunks;
      timers := timers[1..];
      missingChunks := missing;
      if expired > 0 && numRequested < Transfer.RequestThreshold {
        RequestChunks();
      }
    }

    /** reset */
    method Reset()
      modifies this
      ensures State() == Transfer.Reset(old(State()))
    {
      ClearFlags();
      RecordFile(None, fileType, None);
      if peerConn.None? {
        return;  // close() on a missing handle raises
      }
      CloseHandle();
    }

    method ClearFlags()
      modifies this
      ensures State() == old(State()).(isInitiator := false, connected := false, dataChannel := false)
    {
      isInitiator := false;
      connected := false;
      dataChannel := false;
    }

    /** Drop both candidate lists and install a fresh handle in place of the closed one. */
    method CloseHandle()
      modifies this
      ensures State() == old(State()).(localIceCandidates := [], remoteIceCandidates := [],
                                       peerConn := Some(Transfer.FreshPeerConn))
    {
      localIceCandidates := [];
      remoteIceCandidates := [];
      peerConn := Some(Transfer.FreshPeerConn);
    }

    /** The `data` branch of onChannelMessage. */
    method ReceiveChunk(id: nat, content: Bytes)
      modifies this
      ensures State() == Transfer.ReceiveChunk(old(State()), id, content)
    {
      if Has(fileChunks, id) {
        return;
      }
      StoreChunk(id, content);
      Progress();
    }

    method StoreChunk(id: nat, content: Bytes)
      modifies this
      ensures State() == old(State()).(fileChunks := Put(old(fileChunks), id, content),
                                       nChunksReceived := old(nChunksReceived) + 1,
                                       numRequested := old(numRequested) - 1)
    {
      fileChunks := Put(fileChunks, id, content);
      nChunksReceived := nChunksReceived + 1;
      numRequested := numRequested - 1;
    }

    /** After a new chunk is stored: request more, or finish the download. */
    method Progress()
      modifies this
      ensures State() == Transfer.Progress(old(State()))
    {
      if !Transfer.CheckDownloadComplete(State()) {
        if numRequested < Transfer.RequestThreshold {
          RequestChunks();
        }
      } else {
        if !dataChannel {
          return;  // sending `done` raises
        }
        outbox := outbox + [Send(DoneMsg)];
        connected := false;
        Reset();
      }
    }

    /** The `req-chunk` branch: the forEach over the requested ids. */
    method ServeRequest(ids: seq<nat>)
      modifies this
      ensures State() == Transfer.ServeRequest(old(State()), ids)
    {
      var out := outbox;
      var i := 0;
      while i < |ids| && dataChannel && Has(fileChunks, ids[i])
        invariant 0 <= i <= |ids|
        invariant Transfer.ServeRequest(State().(outbox := out), ids[i..]) == Transfer.ServeRequest(State(), ids)
      {
        assert ids[i..][1..] == ids[i + 1..];
        out := out + [Send(Transfer.PackageChunk(fileChunks, ids[i]))];
        i := i + 1;
      }
      outbox := out;
    }

    /** The `done` branch. */
    method ReceiveDone()
      modifies this
      ensures State() == Transfer.ReceiveDone(old(State()))
    {
      connected := false;
      if !dataChannel {
        return;  // close() on a deleted channel raises
      }
      outbox := outbox + [CloseChannel];
      Reset();
    }

    /** onChannelMessage */
    method OnChannelMessage(m: ChannelMsg)
      modifies this
      ensures State() == Transfer.OnChannelMessage(old(State()), m)
    {
      match m
      case DataMsg(id, content) => ReceiveChunk(id, content);
      case RequestMsg(ids) => ServeRequest(ids);
      case DoneMsg => ReceiveDone();
      case OtherMsg(_) =>
    }

    /** onChannelReadyStateChange */
    method OnChannelReadyStateChange(eventType: string)
      modifies this
      ensures State() == Transfer.OnChannelReadyStateChange(old(State()), eventType)
    {
      if eventType == "open" {
        if !isInitiator {
          RequestChunks();
        }
      } else if eventType == "closed" || (eventType == "error" && connected) {
        Reset();
      }
    }

    /** receiveDesc */
    method ReceiveDesc(msg: BusMsg)
      modifies this
      ensures State() == Transfer.ReceiveDesc(old(State()), msg)
    {
      if msg.desc.None? || peerConn.None? {
        return;
      }
      peerConn := Some(peerConn.value.(pendingRemote := peerConn.value.pendingRemote + [msg]));
    }

    /** The success callback of setRemoteDescription. */
    method RemoteDescriptionSet()
      requires Transfer.RemotePending(State())
      modifies this
      ensures State() == Transfer.RemoteDescriptionSet(old(State()))
    {
      var pc := peerConn.value;
      var msg := pc.pendingRemote[0];
      var added := Drain(pc.addedCandidates, remoteIceCandidates);
      peerConn := Some(pc.(remoteDescriptionSet := true, addedCandidates := added,
                           pendingRemote := pc.pendingRemote[1..]));
      if Transfer.IsOffer(msg) {
        RecordFile(msg.fName, msg.fType, buffer);
        var n := if msg.nChunks.Some? then msg.nChunks.value else 0;
        var missing := AllMissing(n);
        RestartDownload(missing, msg.nChunks);
      }
    }

    /** An empty chunk array and the given missing set, zeroed counters and the expected count. */
    method RestartDownload(missing: set<nat>, expected: Option<nat>)
      modifies this
      ensures State() == old(State()).(fileChunks := [], missingChunks := missing, numRequested := 0,
                                       nChunksReceived := 0, nChunksExpected := expected)
    {
      EmptyStore(missing);
      ResetCounts(expected);
    }

    method EmptyStore(missing: set<nat>)
      modifies this
      ensures State() == old(State()).(fileChunks := [], missingChunks := missing)
    {
      fileChunks := [];
      missingChunks := missing;
    }

    method ResetCounts(expected: Option<nat>)
      modifies this
      ensures State() == old(State()).(numRequested := 0, nChunksReceived := 0, nChunksExpected := expected)
    {
      numRequested := 0;
      nChunksReceived := 0;
      nChunksExpected := expected;
    }

    /** The loop that hands every buffered remote candidate to the handle, in arrival order. */
    static method Drain(added: seq<Candidate>, buffered: seq<Candidate>) returns (r: seq<Candidate>)
      ensures r == added + buffered
    {
      r := added;
      for i := 0 to |buffered|
        invariant r == added + buffered[..i]
      {
        assert buffered[..i + 1] == buffered[..i] + [buffered[i]];
        r := r + [buffered[i]];
      }
      assert buffered[..|buffered|] == buffered;
    }

    /** The loop that marks every chunk of an offered file as missing. */
    static method AllMissing(n: nat) returns (missing: set<nat>)
      ensures missing == Below(n)
    {
      missing := {};
      for i := 0 to n
        invariant missing == Below(i)
      {
        missing := missing + {i};
      }
    }

    /** The failure callback of setRemoteDescription. */
    method RemoteDescriptionFailed()
      requires Transfer.RemotePending(State())
      modifies this
      ensures State() == Transfer.RemoteDescriptionFailed(old(State()))
    {
      peerConn := Some(peerConn.value.(pendingRemote := peerConn.value.pendingRemote[1..]));
      outbox := outbox + [Publish(Transfer.RejectMsg(uuid))];
      Reset();
    }

    /** receiveICE */
    method ReceiveIce(c: Candidate)
      modifies this
      ensures State() == Transfer.ReceiveIce(old(State()), c)
    {
      remoteIceCandidates := remoteIceCandidates + [c];
      if peerConn.None? {
        return;  // reading remoteDescription of a missing handle raises
      }
      if peerConn.value.remoteDescriptionSet {
        peerConn := Some(peerConn.value.(addedCandidates := peerConn.value.addedCandidates + [c]));
      }
    }

    /** handleSignal */
    method HandleSignal(msg: BusMsg)
      modifies this
      ensures State() == Transfer.HandleSignal(old(State()), msg)
    {
      if msg.action == Some(Protocol.Text(Protocol.ErrReject)) {
        Reset();
      } else if msg.action == Some(Protocol.Text(Protocol.Cancel)) {
        Reset();
      }
    }

    /** handlePresence */
    method HandlePresence(p: PresenceMsg)
      modifies this
      ensures State() == Transfer.HandlePresence(old(State()), p)
    {
      if p.action == "join" {
        available := true;
        if peerConn.None? {
          peerConn := Some(Transfer.FreshPeerConn);
        }
      } else {
        available := false;
        if connected {
          Reset();
        }
      }
    }

    /** onDescAvail */
    method OnDescAvail(desc: Desc)
      requires Transfer.CreatePending(State())
      modifies this
      ensures State() == Transfer.OnDescAvail(old(State()), desc)
    {
      var d := desc.(sdp := TransformOutgoingSdp(desc.sdp));
      peerConn := Some(peerConn.value.(localDescription := Some(d),
                                       pendingCreates := peerConn.value.pendingCreates - 1));
      connected := true;
      outbox := outbox + [Publish(Transfer.DescMsg(State(), d))];
    }

    /** The failure callback of createOffer/createAnswer. */
    method CreateDescFailed()
      requires Transfer.CreatePending(State())
      modifies this
      ensures State() == Transfer.CreateDescFailed(old(State()))
    {
      peerConn := Some(peerConn.value.(pendingCreates := peerConn.value.pendingCreates - 1));
    }

    /** offerShare */
    method OfferShare()
      modifies this
      ensures State() == Transfer.OfferShare(old(State()))
    {
      isInitiator := true;
      if connected || peerConn.None? {
        return;
      }
      dataChannel := true;
      peerConn := Some(peerConn.value.(pendingCreates := peerConn.value.pendingCreates + 1));
    }

    /** answerShare */
    method AnswerShare()
      modifies this
      ensures State() == Transfer.AnswerShare(old(State()))
    {
      isInitiator := false;
      if peerConn.None? {
        return;
      }
      peerConn := Some(peerConn.value.(pendingCreates := peerConn.value.pendingCreates + 1));
    }

    /** filePicked, once the reader has delivered the file. */
    method FilePicked(fName: string, fType: string, buffer: Bytes)
      modifies this
      ensures State() == Transfer.FilePicked(old(State()), fName, fType, buffer)
    {
      StageFileData(fName, fType, buffer);
      OfferShare();
    }

    /** shareAccepted */
    method ShareAccepted()
      modifies this
      ensures State() == Transfer.ShareAccepted(old(State()))
    {
      var raises := peerConn.None?;
      AnswerShare();
      if !raises {
        connected := true;
      }
    }

    /** shareCancelled */
    method ShareCancelled()
      modifies this
      ensures State() == Transfer.ShareCancelled(old(State()))
    {
      outbox := outbox + [Publish(Transfer.CancelMsg(uuid, email))];
      Reset();
    }

    /** The handle's local-candidate callback. */
    method OnIceCandidate(c: Option<Candidate>)
      modifies this
      ensures State() == Transfer.OnIceCandidate(old(State()), c)
    {
      outbox := outbox + [Publish(Transfer.CandidateMsg(uuid, email, c))];
    }

    /** dataChannelCreated */
    method OnDataChannel()
      modifies this
      ensures State() == Transfer.OnDataChannel(old(State()))
    {
      dataChannel := true;
    }
  }
}
