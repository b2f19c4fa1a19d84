/**
 * The subscriber client (`DlgSubscriber`): it connects a DEALER to the registry,
 * asks for a service, follows the registry's reply to the service's broker and
 * queues what the broker delivers until the application extracts it.
 */
module SubscriberClient {
  import opened Bytes
  import opened Transport
  import opened Frames
  import opened Envelope
  import opened Messages
  import opened Ids
  import opened ServiceRegistry

  /** The scheme `connect_to` writes in front of the name it is given. */
  const TCP_SCHEME: seq<byte> := Ascii("tcp://")

  /** `connect_to(name)`: the endpoint `sprintf("tcp://%s", name)` builds from a C string. */
  function Dialed(target: seq<byte>): seq<byte>
  {
    TCP_SCHEME + CString(target)
  }

  /** What the subscriber loop does with one received message. */
  datatype Reaction =
    | Ignore
    | Handoff(endpoint: seq<byte>)
    | Queue

  /**
   * The subscriber loop's reaction to received frames: an unreadable type is dropped;
   * a registry reply with a readable body hands the connection over to the endpoint in
   * the body; published text and binary messages are queued whether or not their body
   * then validates; anything else is ignored.
   */
  function React(fs: seq<Frame>): Reaction
  {
    match MessageType(fs)
      case None => Ignore
      case Some(t) =>
        if t == SUBSCRIBE_TO_SERVICE then
          match MessageBody(fs)
            case None => Ignore
            case Some(b) => Handoff(b)
        else if t == PUBLISH_TEXT_MESSAGE || t == PUBLISH_BINARY_MESSAGE then Queue
        else Ignore
  }

  /** Exactly the published messages are queued, also those whose body does not validate. */
  lemma QueuedExactlyPublished(fs: seq<Frame>)
    ensures React(fs) == Queue <==>
              MessageType(fs) == Some(PUBLISH_TEXT_MESSAGE) || MessageType(fs) == Some(PUBLISH_BINARY_MESSAGE)
  {
    TypeCodesDistinct();
  }

  /** A registry reply hands the subscriber over to the endpoint the reply carries. */
  lemma ReplyHandsOff(service: seq<byte>, to: seq<byte>, endpoint: seq<byte>)
    requires FitsStr(service) && FitsStr(to) && FitsStr(endpoint) && NulFree(endpoint)
    ensures React(EnvelopeFrames(service, SERVER_NAME, to, SUBSCRIBE_TO_SERVICE, endpoint)) == Handoff(endpoint)
  {
    EnvelopeReadBack(service, SERVER_NAME, to, SUBSCRIBE_TO_SERVICE, endpoint);
    CStringFixed(endpoint);
  }

  /**
   * The handoff as written: `subscribe_to_service` passes the reply body to
   * `connect_to`, which dials it with the scheme written in front once more.
   */
  function HandoffAsWritten(body: seq<byte>): seq<byte>
  {
    Dialed(body)
  }

  /**
   * The endpoint dialled as written is never the endpoint the reply carries; for a
   * broker bound at "tcp://192.168.0.112:40001" it is "tcp://tcp://192.168.0.112:40001".
   */
  lemma HandoffAsWrittenMissesBroker(endpoint: seq<byte>)
    requires NulFree(endpoint)
    ensures HandoffAsWritten(endpoint) != endpoint
    ensures HandoffAsWritten(endpoint) == TCP_SCHEME + endpoint
  {
    CStringFixed(endpoint);
    assert |HandoffAsWritten(endpoint)| == |endpoint| + 6;
  }

  /**
   * End to end: the registry's answer to a first subscription, once the ROUTER has
   * stripped the addressing part, reaches the subscriber as one message whose reaction
   * is a handoff to the service's broker endpoint; the as-written handoff dials a
   * different address.
   */
  lemma SubscriptionHandsOffToBroker(st: map<Id, ServiceState>, service: seq<byte>, name: seq<byte>,
                                     server: seq<byte>, port: seq<byte>, rest: seq<Part>)
    requires WellKept(st)
    requires NulFree(service) && NulFree(name) && NulFree(port)
    requires FitsStr(service) && FitsStr(name) && FitsStr(server) && FitsStr(port)
    requires service in st ==> name !in st[service].subscribers && NulFree(st[service].port) && FitsStr(st[service].port)
    ensures var e := Admit(st, EnvelopeFrames(service, name, server, SUBSCRIBE_TO_SERVICE, []), name + [0], port);
            var endpoint := if service in st then st[service].port else port;
            var out := ReplyParts(e.reply);
            |out| > 1 && out[0] == Part(name + [0], true) &&
            var r := Receive(Dealer, out[1..] + rest);
            r.ok && r.rest == rest && React(r.frames) == Handoff(endpoint) &&
            HandoffAsWritten(endpoint) != endpoint
  {
    AdmitSubscribe(st, service, name, server, port);
    var e := Admit(st, EnvelopeFrames(service, name, server, SUBSCRIBE_TO_SERVICE, []), name + [0], port);
    var endpoint := if service in st then st[service].port else port;
    var fs := e.reply.value.frames;
    assert fs != [] by {
      assert MessageType(fs).Some?;
    }
    var out := ReplyParts(e.reply);
    assert out[1..] == FramesToParts(fs);
    SendRecvRoundTrip(fs, [], rest);
    HandoffAsWrittenMissesBroker(endpoint);
  }

  class Subscriber {
    /** `m_name`: also the routing identity (with its terminator) of every connection. */
    const name: seq<byte>
    /** `m_service`: the service to subscribe to, empty when none is set. */
    var service: seq<byte>
    /** `m_server`: the registry address, empty when none is set. */
    var server: seq<byte>
    /** `m_socket`: the current connection; null when not connected. */
    var socket: Socket?
    /** `m_messages`: received publications, oldest first. */
    var messages: seq<Message>

    ghost predicate Valid()
      reads this, socket
    {
      socket != null ==> socket.kind == Dealer && socket.routingId == name + [0]
    }

    /** `IsConnected`. */
    predicate IsConnected()
      reads this
    {
      socket != null
    }

    /** `HasData`. */
    predicate HasData()
      reads this
    {
      messages != []
    }

    /** `DlgSubscriber(name, serviceName, serverName)`: not connected, nothing queued. */
    constructor (name: seq<byte>, service: seq<byte>, server: seq<byte>)
      ensures Valid() && this.name == name && this.service == service && this.server == server
      ensures socket == null && messages == []
    {
      this.name := name;
      this.service := service;
      this.server := server;
      socket := null;
      messages := [];
    }

    /** `DlgSubscriber(name)`: no service and no server yet. */
    constructor Named(name: seq<byte>)
      ensures Valid() && this.name == name && service == [] && server == []
      ensures socket == null && messages == []
    {
      this.name := name;
      service := [];
      server := [];
      socket := null;
      messages := [];
    }

    /** `DlgSubscriber(name, serviceName)`: no server yet. */
    constructor ForService(name: seq<byte>, service: seq<byte>)
      ensures Valid() && this.name == name && this.service == service && server == []
      ensures socket == null && messages == []
    {
      this.name := name;
      this.service := service;
      server := [];
      socket := null;
      messages := [];
    }

    /** `SetServerName`: only when no server is set yet. */
    method SetServerName(s: seq<byte>) returns (ok: bool)
      modifies this
      ensures ok == (old(server) == [])
      ensures server == if ok then s else old(server)
      ensures service == old(service) && socket == old(socket) && messages == old(messages)
    {
      if server != [] {
        return false;
      }
      server := s;
      ok := true;
    }

    /** `SetServiceName`: only when no service is set yet. */
    method SetServiceName(s: seq<byte>) returns (ok: bool)
      modifies this
      ensures ok == (old(service) == [])
      ensures service == if ok then s else old(service)
      ensures server == old(server) && socket == old(socket) && messages == old(messages)
    {
      if service != [] {
        return false;
      }
      service := s;
      ok := true;
    }

    /** `close_connection`. */
    method CloseConnection()
      modifies this
      ensures Valid() && socket == null
      ensures service == old(service) && server == old(server) && messages == old(messages)
    {
      socket := null;
    }

    /**
     * A new DEALER presenting the subscriber's name (with its terminator) as routing
     * identity, connected to `endpoint`, replacing any current connection.
     */
    method Dial(endpoint: seq<byte>, linkUp: bool)
      modifies this
      ensures Valid() && socket != null && fresh(socket)
      ensures socket.endpoint == endpoint && socket.linkUp == linkUp && socket.sent == [] && socket.inbox == []
      ensures service == old(service) && server == old(server) && messages == old(messages)
    {
      if IsConnected() {
        CloseConnection();
      }
      socket := new Socket(Dealer, endpoint, name + [0], linkUp);
    }

    /** `connect_to(target)`: dial "tcp://" followed by the C string `target`; it always succeeds. */
    method ConnectTo(target: seq<byte>, linkUp: bool) returns (ok: bool)
      modifies this
      ensures ok && Valid() && socket != null && fresh(socket)
      ensures socket.endpoint == Dialed(target) && socket.linkUp == linkUp && socket.sent == [] && socket.inbox == []
      ensures service == old(service) && server == old(server) && messages == old(messages)
    {
      Dial(Dialed(target), linkUp);
      ok := true;
    }

    /** `Connect()`: refused when connected already or when no server is set. */
    method Connect(linkUp: bool) returns (ok: bool)
      requires Valid()
      modifies this
      ensures Valid()
      ensures ok == (old(socket) == null && server != [])
      ensures ok ==> socket != null && fresh(socket) && socket.endpoint == Dialed(server) &&
                     socket.linkUp == linkUp && socket.sent == [] && socket.inbox == []
      ensures !ok ==> socket == old(socket)
      ensures service == old(service) && server == old(server) && messages == old(messages)
    {
      if IsConnected() {
        return false;
      }
      if server == [] {
        return false;
      }
      ok := ConnectTo(server, linkUp);
    }

    /** `Connect(serverName)`: stores the server unconditionally, then connects to it. */
    method ConnectServer(s: seq<byte>, linkUp: bool) returns (ok: bool)
      modifies this
      ensures ok && Valid() && server == s
      ensures socket != null && fresh(socket) && socket.endpoint == Dialed(s) &&
              socket.linkUp == linkUp && socket.sent == [] && socket.inbox == []
      ensures service == old(service) && messages == old(messages)
    {
      server := s;
      ok := ConnectTo(server, linkUp);
    }

    /** `ReConnect(serverName)`: closes any connection, stores the server and calls `Connect()`. */
    method ReConnect(s: seq<byte>, linkUp: bool) returns (ok: bool)
      requires Valid()
      modifies this
      ensures Valid() && server == s
      ensures ok == (s != [])
      ensures ok ==> socket != null && fresh(socket) && socket.endpoint == Dialed(s) &&
                     socket.linkUp == linkUp && socket.sent == [] && socket.inbox == []
      ensures !ok ==> socket == null
      ensures service == old(service) && messages == old(messages)
    {
      if IsConnected() {
        CloseConnection();
      }
      server := s;
      ok := Connect(linkUp);
    }

    /**
     * `Subscribe()`: refused when not connected or when no service is set; otherwise one
     * SUBSCRIBE_TO_SERVICE envelope (service, name, server, "") goes out on the connection.
     */
    method Subscribe() returns (ok: bool)
      requires Valid()
      modifies socket
      ensures ok == (socket != null && service != [] && old(socket.linkUp))
      ensures socket != null ==>
                socket.sent == old(socket.sent) +
                  (if ok then FramesToParts(EnvelopeFrames(service, name, server, SUBSCRIBE_TO_SERVICE, [])) else []) &&
                socket.inbox == old(socket.inbox) && socket.linkUp == old(socket.linkUp)
    {
      if !IsConnected() {
        return false;
      }
      if service == [] {
        return false;
      }
      var msg := new Message(service, name, server, SUBSCRIBE_TO_SERVICE, []);
      var _ := msg.SetIdentity(name);
      ok := msg.Send(socket);
    }

    /** `Subscribe(serviceName)`: stores the service unconditionally, then `Subscribe()`. */
    method SubscribeTo(s: seq<byte>) returns (ok: bool)
      requires Valid()
      modifies this, socket
      ensures service == s && socket == old(socket) && server == old(server) && messages == old(messages)
      ensures ok == (socket != null && s != [] && old(socket.linkUp))
      ensures socket != null ==>
                socket.sent == old(socket.sent) +
                  (if ok then FramesToParts(EnvelopeFrames(s, name, server, SUBSCRIBE_TO_SERVICE, [])) else []) &&
                socket.inbox == old(socket.inbox) && socket.linkUp == old(socket.linkUp)
    {
      service := s;
      ok := Subscribe();
    }

    /** `ExtractMessage`: the oldest queued message, or failure on an empty queue. */
    method ExtractMessage() returns (ok: bool, msg: Message?)
      modifies this
      ensures ok == (old(messages) != [])
      ensures ok ==> msg == old(messages)[0] && messages == old(messages)[1..]
      ensures !ok ==> messages == old(messages)
      ensures service == old(service) && server == old(server) && socket == old(socket)
    {
      if messages == [] {
        return false, null;
      }
      msg := messages[0];
      messages := messages[1..];
      ok := true;
    }

    /**
     * One iteration of the subscriber loop: nothing happens unless connected with a
     * message waiting; then one message is received and `React` decides. A handoff
     * goes through `connect_to` as written, so it dials `HandoffAsWritten` of the
     * endpoint. `linkUp` is whether the connection a handoff opens accepts sends.
     */
    method Step(linkUp: bool)
      requires Valid()
      modifies this, socket
      ensures Valid() && service == old(service) && server == old(server)
      ensures old(socket) == null || old(socket.inbox) == [] ==>
                socket == old(socket) && messages == old(messages) &&
                (socket != null ==> socket.inbox == old(socket.inbox) && socket.sent == old(socket.sent))
      ensures old(socket) != null && old(socket.inbox) != [] ==>
                var r := Receive(Dealer, old(socket.inbox));
                old(socket).inbox == r.rest && old(socket).sent == old(socket.sent) &&
                old(socket).linkUp == old(socket.linkUp) &&
                (!r.ok || React(r.frames) == Ignore ==> socket == old(socket) && messages == old(messages)) &&
                (r.ok && React(r.frames).Handoff? ==>
                  socket != null && fresh(socket) && socket.endpoint == HandoffAsWritten(React(r.frames).endpoint) &&
                  socket.linkUp == linkUp && socket.sent == [] && socket.inbox == [] &&
                  messages == old(messages)) &&
                (r.ok && React(r.frames) == Queue ==>
                  socket == old(socket) && |messages| == |old(messages)| + 1 &&
                  messages[..|old(messages)|] == old(messages) &&
                  fresh(messages[|old(messages)|]) && messages[|old(messages)|].frames == r.frames)
    {
      if socket == null || socket.inbox == [] {
        return;
      }
      var sock := socket;
      var msg := new Message.Default();
      var ok := msg.Recv(sock);
      if !ok {
        return;
      }
      var t := MessageType(msg.frames);
      if t.None? {
        return;
      }
      TypeCodesDistinct();
      if t.value == SUBSCRIBE_TO_SERVICE {
        var body := MessageBody(msg.frames);
        if body.None? {
          return;
        }
        var _ := ConnectTo(body.value, linkUp);
      } else if t.value == PUBLISH_TEXT_MESSAGE || t.value == PUBLISH_BINARY_MESSAGE {
        messages := messages + [msg];
      }
    }
  }
}
