/**
 * The per-peer connection of connection.js as a state and its events. A
 * Session value holds every field the connection object updates, plus an
 * opaque handle for the peer connection, the ordered log of what the
 * connection emits, and the expiry checks it has scheduled. Each function
 * below is one event handler of the object, stated on values; the class
 * Connections.Connection runs the same handlers in place and is proved to
 * agree with them.
 *
 * A JavaScript TypeError (a call on a deleted data channel or on a peer
 * connection that was never created) abandons the rest of the handler; the
 * functions below stop at that point, keeping what was already done.
 */
module Transfer {
  import opened Wrappers
  import opened Messages
  import opened Protocol
  import opened Chunks
  import opened ChunkStore
  import opened Window
  import opened Sdp

  /** At most this many indices are drawn in one request round. */
  const RequestMax: nat := 90
  /** A new round is started only while fewer than this many chunks are outstanding. */
  const RequestThreshold: int := 70

  /**
   * The peer connection handle: whether a remote description is set, the
   * local description, the remote candidates handed to it in order, and the
   * operations whose callbacks are still due (setRemoteDescription calls
   * with their message, and createOffer/createAnswer calls).
   */
  datatype PeerConn = PeerConn(
    remoteDescriptionSet: bool,
    localDescription: Option<Desc>,
    addedCandidates: seq<Candidate>,
    pendingRemote: seq<BusMsg>,
    pendingCreates: nat)

  const FreshPeerConn: PeerConn := PeerConn(false, None, [], [], 0)

  datatype Session = Session(
    email: string,          // the remote peer, and the target of what this side publishes
    uuid: string,           // this client's own identity
    chunkSize: ChunkSize,
    isInitiator: bool,
    connected: bool,
    available: bool,
    fileName: Option<string>,
    fileType: Option<string>,
    buffer: Option<Bytes>,
    fileChunks: Store,
    missingChunks: set<nat>,
    numRequested: int,
    nChunksReceived: nat,
    nChunksExpected: Option<nat>,
    localIceCandidates: seq<Candidate>,
    remoteIceCandidates: seq<Candidate>,
    peerConn: Option<PeerConn>,
    dataChannel: bool,
    outbox: seq<Outbound>,
    timers: seq<seq<nat>>)  // the batches of the scheduled expiry checks, oldest first

  /** A connection as the constructor leaves it; nothing is negotiated yet and no handle exists. */
  function Initial(email: string, uuid: string, chunkSize: ChunkSize): Session {
    Session(email, uuid, chunkSize, false, false, false, None, None, None, [], {},
            0, 0, Some(0), [], [], None, false, [], [])
  }

  // ---- Messages a connection builds ----

  /** The reject signal published when a remote description cannot be applied; it has no target. */
  function RejectMsg(uuid: string): BusMsg {
    BusMsg(uuid, None, None, None, Some(Text(ErrReject)), None, None, None)
  }

  /** The cancel signal, addressed to the peer. */
  function CancelMsg(uuid: string, email: string): BusMsg {
    BusMsg(uuid, Some(email), None, None, Some(Text(Cancel)), None, None, None)
  }

  /** A local candidate (None for the end-of-candidates event), addressed to the peer. */
  function CandidateMsg(uuid: string, email: string, c: Option<Candidate>): BusMsg {
    BusMsg(uuid, Some(email), None, c, None, None, None, None)
  }

  /** The local description, addressed to the peer; with the file's metadata only from the initiator. */
  function DescMsg(s: Session, d: Desc): BusMsg {
    if s.isInitiator then
      BusMsg(s.uuid, Some(s.email), Some(d), None, None, s.fileName, s.fileType, Some(|s.fileChunks|))
    else
      BusMsg(s.uuid, Some(s.email), Some(d), None, None, None, None, None)
  }

  /** packageChunk: a data message carrying the stored chunk at id. */
  function PackageChunk(fc: Store, id: nat): ChannelMsg
    requires Has(fc, id)
  {
    DataMsg(id, fc[id].value)
  }

  /** checkDownloadComplete */
  predicate CheckDownloadComplete(s: Session) {
    s.nChunksExpected == Some(s.nChunksReceived)
  }

  predicate IsOffer(msg: BusMsg) {
    msg.desc.Some? && msg.desc.value.kind == Text(Offer)
  }

  // ---- Chunking ----

  /** stageFileData: records the file and cuts the buffer into chunks. */
  function StageFileData(s: Session, fName: string, fType: string, buffer: Bytes): Session {
    s.(fileName := Some(fName), fileType := Some(fType), buffer := Some(buffer),
       fileChunks := Staged(buffer, s.chunkSize))
  }

  /** The chunk array of a staged buffer: slot i holds chunk i of the split. */
  function Staged(buffer: Bytes, size: ChunkSize): Store {
    var cs := Split(buffer, size);
    seq(|cs|, i requires 0 <= i < |cs| => Some(cs[i]))
  }

  // ---- Request window and retry ----

  /** The indices one round takes from the missing set. */
  ghost function Drawn(s: Session): seq<nat> {
    Smallest(s.missingChunks, RequestMax)
  }

  /**
   * requestChunks: the drawn indices leave the missing set and are counted
   * as requested; if any were drawn, one request lists them and an expiry
   * check for them is scheduled (unless the send raises).
   */
  ghost function RequestChunks(s: Session): Session {
    var d := Drawn(s);
    var s1 := s.(missingChunks := s.missingChunks - Elems(d), numRequested := s.numRequested + |d|);
    if |d| == 0 || !s.dataChannel then s1
    else s1.(outbox := s.outbox + [Send(RequestMsg(d))], timers := s.timers + [d])
  }

  /**
   * The expiry check of the oldest batch: its still-absent indices go back
   * into the missing set, and a new round is started if any did and fewer
   * than RequestThreshold chunks are counted as requested.
   */
  ghost function Expire(s: Session): Session
    requires |s.timers| > 0
  {
    var gone := Absent(s.timers[0], s.fileChunks);
    var s1 := s.(timers := s.timers[1..], missingChunks := s.missingChunks + Elems(gone));
    if |gone| > 0 && s.numRequested < RequestThreshold then RequestChunks(s1) else s1
  }

  // ---- Reset ----

  /**
   * reset: clears the role, the connected flag, the file name and buffer,
   * drops the data channel, closes the handle and installs a fresh one with
   * empty candidate lists. With no handle, close() raises after the flags.
   */
  function Reset(s: Session): Session {
    var s1 := s.(isInitiator := false, connected := false, fileName := None, buffer := None,
                 dataChannel := false);
    if s.peerConn.None? then s1
    else s1.(localIceCandidates := [], remoteIceCandidates := [], peerConn := Some(FreshPeerConn))
  }

  // ---- Data-channel messages ----

  /** The `data` branch of onChannelMessage. */
  ghost function ReceiveChunk(s: Session, id: nat, content: Bytes): Session {
    if Has(s.fileChunks, id) then s
    else
      Progress(s.(fileChunks := Put(s.fileChunks, id, content),
                  nChunksReceived := s.nChunksReceived + 1,
                  numRequested := s.numRequested - 1))
  }

  /**
   * The rest of the `data` branch once a new chunk is stored: another round
   * of requests while the file is incomplete and fewer than 70 are
   * outstanding, or `done` and a reset once it is complete.
   */
  ghost function Progress(s: Session): Session {
    if !CheckDownloadComplete(s) then
      if s.numRequested < RequestThreshold then RequestChunks(s) else s
    else if !s.dataChannel then s
    else Reset(s.(outbox := s.outbox + [Send(DoneMsg)], connected := false))
  }

  /** The `req-chunk` branch: one data message per requested index, stopping at the first that raises. */
  function ServeRequest(s: Session, ids: seq<nat>): Session
    decreases |ids|
  {
    if ids == [] || !s.dataChannel || !Has(s.fileChunks, ids[0]) then s
    else ServeRequest(s.(outbox := s.outbox + [Send(PackageChunk(s.fileChunks, ids[0]))]), ids[1..])
  }

  /** The `done` branch: not connected any more, the channel is closed, then reset. */
  function ReceiveDone(s: Session): Session {
    var s1 := s.(connected := false);
    if !s.dataChannel then s1 else Reset(s1.(outbox := s1.outbox + [CloseChannel]))
  }

  /** onChannelMessage; an unknown action changes nothing. */
  ghost function OnChannelMessage(s: Session, m: ChannelMsg): Session {
    match m
    case DataMsg(id, content) => ReceiveChunk(s, id, content)
    case RequestMsg(ids) => ServeRequest(s, ids)
    case DoneMsg => ReceiveDone(s)
    case OtherMsg(_) => s
  }

  /**
   * onChannelReadyStateChange for an event of the given type: on "open" the
   * responder starts requesting; "closed", or "error" while connected, resets.
   */
  ghost function OnChannelReadyStateChange(s: Session, eventType: string): Session {
    if eventType == "open" then
      if !s.isInitiator then RequestChunks(s) else s
    else if eventType == "closed" || (eventType == "error" && s.connected) then Reset(s)
    else s
  }

  // ---- Negotiation ----

  /** receiveDesc: starts applying the remote description; its callbacks are due later. */
  function ReceiveDesc(s: Session, msg: BusMsg): Session {
    if msg.desc.None? || s.peerConn.None? then s
    else s.(peerConn := Some(s.peerConn.value.(pendingRemote := s.peerConn.value.pendingRemote + [msg])))
  }

  predicate RemotePending(s: Session) {
    s.peerConn.Some? && |s.peerConn.value.pendingRemote| > 0
  }

  /**
   * The success callback of setRemoteDescription: the buffered remote
   * candidates are handed to the handle, and an offer (re)starts the
   * transfer with every chunk missing.
   */
  function RemoteDescriptionSet(s: Session): Session
    requires RemotePending(s)
  {
    var pc := s.peerConn.value;
    var msg := pc.pendingRemote[0];
    var s1 := s.(peerConn := Some(pc.(remoteDescriptionSet := true,
                                      addedCandidates := pc.addedCandidates + s.remoteIceCandidates,
                                      pendingRemote := pc.pendingRemote[1..])));
    if IsOffer(msg) then
      var n := if msg.nChunks.Some? then msg.nChunks.value else 0;
      s1.(fileName := msg.fName, fileType := msg.fType, fileChunks := [], missingChunks := Below(n),
          numRequested := 0, nChunksReceived := 0, nChunksExpected := msg.nChunks)
    else s1
  }

  /** The failure callback of setRemoteDescription: publish a reject, then reset. */
  function RemoteDescriptionFailed(s: Session): Session
    requires RemotePending(s)
  {
    var pc := s.peerConn.value;
    Reset(s.(peerConn := Some(pc.(pendingRemote := pc.pendingRemote[1..])),
             outbox := s.outbox + [Publish(RejectMsg(s.uuid))]))
  }

  /** receiveICE: buffer the candidate; hand it over at once if a remote description is set. */
  function ReceiveIce(s: Session, c: Candidate): Session {
    var s1 := s.(remoteIceCandidates := s.remoteIceCandidates + [c]);
    if s.peerConn.Some? && s.peerConn.value.remoteDescriptionSet then
      s1.(peerConn := Some(s.peerConn.value.(addedCandidates := s.peerConn.value.addedCandidates + [c])))
    else s1
  }

  /** handleSignal: a reject or a cancel from the peer resets; anything else is ignored. */
  function HandleSignal(s: Session, msg: BusMsg): Session {
    if msg.action == Some(Text(ErrReject)) || msg.action == Some(Text(Cancel)) then Reset(s) else s
  }

  /** handlePresence: a join makes the peer available (and creates the handle); a departure while connected resets. */
  function HandlePresence(s: Session, p: PresenceMsg): Session {
    if p.action == "join" then
      s.(available := true, peerConn := if s.peerConn.None? then Some(FreshPeerConn) else s.peerConn)
    else
      var s1 := s.(available := false);
      if s.connected then Reset(s1) else s1
  }

  predicate CreatePending(s: Session) {
    s.peerConn.Some? && s.peerConn.value.pendingCreates > 0
  }

  /**
   * onDescAvail, the success callback of createOffer/createAnswer: the SDP
   * is patched, set as the local description and published to the peer;
   * the connection counts as connected.
   */
  function OnDescAvail(s: Session, desc: Desc): Session
    requires CreatePending(s)
  {
    var d := desc.(sdp := TransformOutgoingSdp(desc.sdp));
    var pc := s.peerConn.value;
    s.(peerConn := Some(pc.(localDescription := Some(d), pendingCreates := pc.pendingCreates - 1)),
       connected := true,
       outbox := s.outbox + [Publish(DescMsg(s, d))])
  }

  /** The failure callback of createOffer/createAnswer only logs. */
  function CreateDescFailed(s: Session): Session
    requires CreatePending(s)
  {
    s.(peerConn := Some(s.peerConn.value.(pendingCreates := s.peerConn.value.pendingCreates - 1)))
  }

  /** offerShare: become the initiator; unless connected, open the data channel and create an offer. */
  function OfferShare(s: Session): Session {
    var s1 := s.(isInitiator := true);
    if s.connected || s.peerConn.None? then s1
    else s1.(dataChannel := true,
             peerConn := Some(s.peerConn.value.(pendingCreates := s.peerConn.value.pendingCreates + 1)))
  }

  /** answerShare: become the responder and create an answer. */
  function AnswerShare(s: Session): Session {
    var s1 := s.(isInitiator := false);
    if s.peerConn.None? then s1
    else s1.(peerConn := Some(s.peerConn.value.(pendingCreates := s.peerConn.value.pendingCreates + 1)))
  }

  /** filePicked, once the file is read: stage it and offer the share. */
  function FilePicked(s: Session, fName: string, fType: string, buffer: Bytes): Session {
    OfferShare(StageFileData(s, fName, fType, buffer))
  }

  /** shareAccepted: answer, then count as connected. */
  function ShareAccepted(s: Session): Session {
    var s1 := AnswerShare(s);
    if s.peerConn.None? then s1 else s1.(connected := true)
  }

  /** shareCancelled: publish a cancel to the peer, then reset. */
  function ShareCancelled(s: Session): Session {
    Reset(s.(outbox := s.outbox + [Publish(CancelMsg(s.uuid, s.email))]))
  }

  /** The handle's local-candidate callback: publish the candidate to the peer. */
  function OnIceCandidate(s: Session, c: Option<Candidate>): Session {
    s.(outbox := s.outbox + [Publish(CandidateMsg(s.uuid, s.email, c))])
  }

  /** dataChannelCreated: the peer opened a data channel. */
  function OnDataChannel(s: Session): Session {
    s.(dataChannel := true)
  }
}
