/**
 * The messages a connection exchanges. The JSON and Base64 encodings of
 * connection.js are left out: a message is its decoded value, and a chunk's
 * content is its bytes.
 */
module Messages {
  import opened Wrappers

  newtype byte = x: int | 0 <= x < 256
  type Bytes = seq<byte>

  /** A network candidate descriptor, opaque to the connection. */
  datatype Candidate = Candidate(text: string)

  /** A session description: its `type` ("offer", "answer", ...) and its SDP text. */
  datatype Desc = Desc(kind: string, sdp: string)

  /**
   * A message on the signalling bus. A property the sender did not set,
   * or set to null, is None.
   */
  datatype BusMsg = BusMsg(
    uuid: string,
    target: Option<string>,
    desc: Option<Desc>,
    candidate: Option<Candidate>,
    action: Option<string>,
    fName: Option<string>,
    fType: Option<string>,
    nChunks: Option<nat>)

  /** A presence event of the bus: who joined or left. */
  datatype PresenceMsg = PresenceMsg(uuid: string, action: string)

  /**
   * A data-channel message, by its `action`: `data` carries one chunk,
   * `req-chunk` lists the wanted indices, `done` ends the transfer;
   * OtherMsg stands for a message whose action is none of these.
   */
  datatype ChannelMsg =
    | DataMsg(id: nat, content: Bytes)
    | RequestMsg(ids: seq<nat>)
    | DoneMsg
    | OtherMsg(action: string)

  /** What a connection emits: a data-channel send, a bus publish, or closing its channel. */
  datatype Outbound = Send(msg: ChannelMsg) | Publish(bus: BusMsg) | CloseChannel
}
