/**
 * The client of main.js: it owns one Connection per contact, keyed by the
 * contact's e-mail address, and routes what arrives on the signalling
 * channel to them. A bus message is for this client when someone else sent
 * it and it names this client as its target; a description goes to
 * receiveDesc, else a candidate to receiveICE, else the message goes to
 * handleSignal. Presence goes to the contact's connection, and when the
 * page is not hosted a join from an unknown peer creates its connection.
 */
module Client {
  import opened Wrappers
  import opened Messages
  import opened Protocol
  import opened Chunks
  import Transfer
  import opened Connections

  /** Which handler of the target connection a bus message reaches. */
  datatype Dispatch = Ignore | ToDesc | ToIce(c: Candidate) | ToSignal

  /** The routing of handleSignal for the client whose identity is `self`. */
  function Route(self: string, msg: BusMsg): Dispatch {
    if msg.uuid == self || msg.target != Some(self) then Ignore
    else if msg.desc.Some? then ToDesc
    else if msg.candidate.Some? then ToIce(msg.candidate.value)
    else ToSignal
  }

  /** The routed call, on the state of the sender's connection. */
  function Deliver(s: Transfer.Session, d: Dispatch, msg: BusMsg): Transfer.Session {
    match d
    case Ignore => s
    case ToDesc => Transfer.ReceiveDesc(s, msg)
    case ToIce(c) => Transfer.ReceiveIce(s, c)
    case ToSignal => Transfer.HandleSignal(s, msg)
  }

  /**
   * A message is routed exactly when another client sent it to this one,
   * so a client never handles its own messages nor those meant for others;
   * a description takes precedence over a candidate, and a message with
   * neither is a signal.
   */
  lemma RouteAccepts(self: string, msg: BusMsg)
    ensures Route(self, msg) != Ignore <==> msg.uuid != self && msg.target == Some(self)
    ensures Route(self, msg) != Ignore ==>
      && (Route(self, msg) == ToDesc <==> msg.desc.Some?)
      && (Route(self, msg).ToIce? <==> msg.desc.None? && msg.candidate.Some?)
      && (Route(self, msg).ToIce? ==> Route(self, msg).c == msg.candidate.value)
  {
  }

  /**
   * The reject a connection publishes when a remote description fails
   * carries no target, so no client routes it and the peer that sent the
   * description is never told.
   */
  lemma RejectDropped(self: string, sender: string)
    ensures Route(self, Transfer.RejectMsg(sender)) == Ignore
  {
  }

  /**
   * What a connection publishes to its peer reaches the matching handler of
   * the peer's connection: its description goes to receiveDesc, a
   * candidate to receiveICE, and a cancel to handleSignal, where it resets
   * the connection; the end-of-candidates message (no candidate) is a
   * signal that changes nothing.
   */
  lemma PeerMessagesRouted(s: Transfer.Session, d: Desc, c: Candidate, r: Transfer.Session)
    requires s.uuid != s.email
    ensures Route(s.email, Transfer.DescMsg(s, d)) == ToDesc
    ensures Route(s.email, Transfer.CandidateMsg(s.uuid, s.email, Some(c))) == ToIce(c)
    ensures var m := Transfer.CandidateMsg(s.uuid, s.email, None);
      Route(s.email, m) == ToSignal && Deliver(r, Route(s.email, m), m) == r
    ensures var m := Transfer.CancelMsg(s.uuid, s.email);
      Route(s.email, m) == ToSignal && Deliver(r, Route(s.email, m), m) == Transfer.Reset(r)
  {
  }

  /** The e-mail addresses of the contact entries that have one. */
  function Emails(entries: seq<Option<string>>): set<string> {
    set i | 0 <= i < |entries| && entries[i].Some? :: entries[i].value
  }

  lemma EmailsAppend(entries: seq<Option<string>>, e: Option<string>)
    ensures Emails(entries + [e]) == Emails(entries) + (if e.Some? then {e.value} else {})
  {
    var es := entries + [e];
    forall x ensures x in Emails(es) <==> x in Emails(entries) + (if e.Some? then {e.value} else {}) {
      if x in Emails(entries) {
        var i :| 0 <= i < |entries| && entries[i].Some? && entries[i].value == x;
        assert es[i] == entries[i];
      }
      if x in Emails(es) {
        var i :| 0 <= i < |es| && es[i].Some? && es[i].value == x;
        if i < |entries| {
          assert es[i] == entries[i];
        }
      }
      if e.Some? && x == e.value {
        assert es[|entries|] == e;
      }
    }
  }

  class FSClient {
    const uuid: string
    const hosted: bool
    const isChrome: bool
    var connections: map<string, Connection>

    /** Every connection is the one for the contact it is filed under, and belongs to this client. */
    predicate Valid()
      reads this, connections.Values
    {
      forall k :: k in connections ==> connections[k].email == k && connections[k].uuid == uuid
    }

    constructor (uuid: string, hosted: bool, isChrome: bool)
      ensures this.uuid == uuid && this.hosted == hosted && this.isChrome == isChrome
      ensures connections == map[] && Valid()
    {
      this.uuid := uuid;
      this.hosted := hosted;
      this.isChrome := isChrome;
      connections := map[];
    }

    /**
     * The contacts loop of the login: one new connection per entry with an
     * e-mail address, filed under that address; a later entry with the same
     * address replaces the earlier connection, and entries without one are
     * skipped.
     */
    method AddContacts(entries: seq<Option<string>>)
      requires Valid()
      modifies this
      ensures Valid()
      ensures connections.Keys == old(connections.Keys) + Emails(entries)
      ensures forall k :: k in Emails(entries) ==>
        fresh(connections[k]) && connections[k].State() == Transfer.Initial(k, uuid, ChunkSizeFor(isChrome))
      ensures forall k :: k in old(connections) && k !in Emails(entries) ==> connections[k] == old(connections[k])
    {
      for i := 0 to |entries|
        invariant Valid()
        invariant connections.Keys == old(connections.Keys) + Emails(entries[..i])
        invariant forall k :: k in Emails(entries[..i]) ==>
          fresh(connections[k]) && connections[k].State() == Transfer.Initial(k, uuid, ChunkSizeFor(isChrome))
        invariant forall k :: k in old(connections) && k !in Emails(entries[..i]) ==>
          connections[k] == old(connections[k])
      {
        EmailsAppend(entries[..i], entries[i]);
        assert entries[..i + 1] == entries[..i] + [entries[i]];
        if entries[i].Some? {
          var c := new Connection(entries[i].value, uuid, isChrome);
          connections := connections[entries[i].value := c];
        }
      }
      assert entries[..|entries|] == entries;
    }

    /**
     * handleSignal: the routed message is handed to the sender's
     * connection; from a sender with no connection it is dropped (the
     * lookup yields undefined and the call raises). No other connection
     * changes.
     */
    method HandleSignal(msg: BusMsg)
      requires Valid()
      modifies connections.Values
      ensures Valid() && connections == old(connections)
      ensures msg.uuid in connections ==>
        connections[msg.uuid].State() == Deliver(old(connections[msg.uuid].State()), Route(uuid, msg), msg)
      ensures forall k :: k in connections && k != msg.uuid ==>
        connections[k].State() == old(connections[k].State())
    {
      var d := Route(uuid, msg);
      if d == Ignore || msg.uuid !in connections {
        return;
      }
      var c := connections[msg.uuid];
      match d
      case ToDesc => c.ReceiveDesc(msg);
      case ToIce(cand) => c.ReceiveIce(cand);
      case ToSignal => c.HandleSignal(msg);
    }

    /**
     * handlePresence: a known peer's connection handles the presence
     * message; an unknown peer that joins, when the page is not hosted and
     * the peer is not this client, gets a new connection which then handles
     * the join. At most one connection is created, and no other connection
     * changes.
     */
    method HandlePresence(msg: PresenceMsg)
      requires Valid()
      modifies this, connections.Values
      ensures Valid()
      ensures var created := msg.uuid !in old(connections) && !hosted && msg.uuid != uuid && msg.action == "join";
        && connections.Keys == old(connections.Keys) + (if created then {msg.uuid} else {})
        && (created ==>
              fresh(connections[msg.uuid])
              && connections[msg.uuid].State()
                 == Transfer.HandlePresence(Transfer.Initial(msg.uuid, uuid, ChunkSizeFor(isChrome)), msg))
      ensures msg.uuid in old(connections) ==>
        connections[msg.uuid] == old(connections[msg.uuid])
        && connections[msg.uuid].State() == Transfer.HandlePresence(old(connections[msg.uuid].State()), msg)
      ensures forall k :: k in old(connections) && k != msg.uuid ==>
        connections[k] == old(connections[k]) && connections[k].State() == old(connections[k].State())
    {
      if msg.uuid in connections {
        connections[msg.uuid].HandlePresence(msg);
      } else if !hosted && msg.uuid != uuid && msg.action == "join" {
        Admit(msg);
      }
    }

    /** A new connection for the joining peer, filed under its identity, which then handles the join. */
    method Admit(msg: PresenceMsg)
      requires Valid() && msg.uuid !in connections
      modifies this
      ensures Valid()
      ensures msg.uuid in connections && fresh(connections[msg.uuid])
      ensures connections == old(connections)[msg.uuid := connections[msg.uuid]]
      ensures connections[msg.uuid].State()
        == Transfer.HandlePresence(Transfer.Initial(msg.uuid, uuid, ChunkSizeFor(isChrome)), msg)
    {
      var c := new Connection(msg.uuid, uuid, isChrome);
      c.HandlePresence(msg);
      connections := connections[msg.uuid := c];
    }
  }
}
