/**
 * The publisher client (`DlgPublisher`): it registers with the registry over a DEALER,
 * waits a bounded number of polls for the registry's answer, moves its connection to
 * the service's broker, and then publishes messages stamped with its name and service.
 */
module PublisherClient {
  import opened Bytes
  import opened Transport
  import opened Frames
  import opened Envelope
  import opened Messages
  import opened Ids
  import opened ServiceBroker
  import opened ServiceRegistry

  /** The registry address `Register` dials: a fixed host and `DLG_SERVER_TCP_PORT`. */
  const REGISTRY_ENDPOINT: seq<byte> := Ascii("tcp://192.168.100.13:55550")

  /** `while (++cnt < 4)` starting from `cnt = 0`: three polls. */
  const POLLS: nat := 3

  /** How a registration ends. */
  datatype Outcome =
    | Silent                    // no answer within the polls: still on the registry
    | Failed                    // an answer that could not be received or understood
    | Handoff(endpoint: seq<byte>)  // the broker's endpoint from a REGISTER_PUBLISHER answer

  /** The registry answer received at one poll: it must be a REGISTER_PUBLISHER message with a readable body. */
  function ReplyOutcome(fs: seq<Frame>): Outcome
  {
    match MessageType(fs)
      case None => Failed
      case Some(t) =>
        if t != REGISTER_PUBLISHER then Failed
        else match MessageBody(fs)
          case None => Failed
          case Some(b) => Handoff(b)
  }

  /** The parts that reach the socket while it waits in poll `round`. */
  function Arrived(arrivals: seq<seq<Part>>, round: nat): seq<Part>
  {
    if round < |arrivals| then arrivals[round] else []
  }

  /** The outcome of the polls and what is left in the socket's inbox. */
  datatype Registration = Registration(outcome: Outcome, inbox: seq<Part>)

  /**
   * Polls `round` up to `POLLS`: a poll that finds nothing pending moves to the next
   * one; the first that finds something receives one message and decides; when the
   * polls run out the registration is silent.
   */
  function Polled(inbox: seq<Part>, arrivals: seq<seq<Part>>, round: nat): Registration
    decreases POLLS - round
  {
    if round >= POLLS then Registration(Silent, inbox)
    else
      var box := inbox + Arrived(arrivals, round);
      if box == [] then Polled(box, arrivals, round + 1)
      else
        var r := Receive(Dealer, box);
        Registration(if r.ok then ReplyOutcome(r.frames) else Failed, r.rest)
  }

  /** One poll of `Polled`, unfolded. */
  lemma PollStep(inbox: seq<Part>, arrivals: seq<seq<Part>>, round: nat)
    requires round < POLLS
    ensures var box := inbox + Arrived(arrivals, round);
            var r := Receive(Dealer, box);
            Polled(inbox, arrivals, round) ==
              if box == [] then Polled(box, arrivals, round + 1)
              else Registration(if r.ok then ReplyOutcome(r.frames) else Failed, r.rest)
  {
  }

  /** Only the first `POLLS` polls matter: what arrives later never changes the registration. */
  lemma {:induction false} OnlyThreePolls(inbox: seq<Part>, a: seq<seq<Part>>, b: seq<seq<Part>>, round: nat)
    requires forall i :: 0 <= i < POLLS ==> Arrived(a, i) == Arrived(b, i)
    ensures Polled(inbox, a, round) == Polled(inbox, b, round)
    decreases POLLS - round
  {
    if round < POLLS {
      var box := inbox + Arrived(a, round);
      if box == [] {
        OnlyThreePolls(box, a, b, round + 1);
      }
    }
  }

  /** Nothing arriving during the polls leaves the registration silent with the inbox as it was. */
  lemma {:induction false} SilentWithoutAnswer(arrivals: seq<seq<Part>>, round: nat)
    requires forall i :: round <= i < POLLS ==> Arrived(arrivals, i) == []
    ensures Polled([], arrivals, round) == Registration(Silent, [])
    decreases POLLS - round
  {
    if round < POLLS {
      assert [] + Arrived(arrivals, round) == [];
      SilentWithoutAnswer(arrivals, round + 1);
    }
  }

  /** An answer other than a readable REGISTER_PUBLISHER message fails the registration. */
  lemma ReplyOutcomeCases(fs: seq<Frame>)
    ensures ReplyOutcome(fs).Handoff? <==>
              MessageType(fs) == Some(REGISTER_PUBLISHER) && MessageBody(fs).Some?
    ensures ReplyOutcome(fs).Handoff? ==> ReplyOutcome(fs).endpoint == MessageBody(fs).value
    ensures ReplyOutcome(fs) != Silent
  {
  }

  /**
   * A first registration arriving at the registry is answered, to the publisher, with
   * the service's broker endpoint (the new broker's when the service is new).
   */
  lemma AdmitRegister(st: map<Id, ServiceState>, service: seq<byte>, name: seq<byte>, port: seq<byte>)
    requires WellKept(st)
    requires NulFree(service) && NulFree(name)
    requires FitsStr(service) && FitsStr(name)
    requires service in st ==> name !in st[service].publishers
    ensures var e := Admit(st, EnvelopeFrames(service, name, [], REGISTER_PUBLISHER, []), name + [0], port);
            var endpoint := if service in st then st[service].port else port;
            service in e.services && name in e.services[service].publishers &&
            e.reply == Some(Reply(name, EnvelopeFrames(service, SERVER_NAME, name, REGISTER_PUBLISHER, endpoint)))
  {
    EnvelopeReadBack(service, name, [], REGISTER_PUBLISHER, []);
    CStringFixed(service);
    IdentityRoundTrip(name);
    var st1 := if service in st then st else st[service := ServiceState(port, [], {})];
    EnrolChanges(st1, service, name, REGISTER_PUBLISHER);
  }

  /** The registry's answer, received at the first poll, hands the publisher over to the endpoint it carries. */
  lemma AnswerHandsOff(service: seq<byte>, name: seq<byte>, endpoint: seq<byte>, rest: seq<Part>, later: seq<seq<Part>>)
    requires FitsStr(service) && FitsStr(name) && FitsStr(endpoint) && NulFree(endpoint)
    ensures var fs := EnvelopeFrames(service, SERVER_NAME, name, REGISTER_PUBLISHER, endpoint);
            Polled([], [FramesToParts(fs) + rest] + later, 0) == Registration(Handoff(endpoint), rest)
  {
    var fs := EnvelopeFrames(service, SERVER_NAME, name, REGISTER_PUBLISHER, endpoint);
    AnswerRead(service, name, endpoint);
    SendRecvRoundTrip(fs, [], rest);
    assert [] + Arrived([FramesToParts(fs) + rest] + later, 0) == FramesToParts(fs) + rest;
  }

  /** The registry's answer, as frames, is a readable REGISTER_PUBLISHER message carrying the endpoint. */
  lemma AnswerRead(service: seq<byte>, name: seq<byte>, endpoint: seq<byte>)
    requires FitsStr(service) && FitsStr(name) && FitsStr(endpoint) && NulFree(endpoint)
    ensures var fs := EnvelopeFrames(service, SERVER_NAME, name, REGISTER_PUBLISHER, endpoint);
            fs != [] && ReplyOutcome(fs) == Handoff(endpoint)
  {
    CStringFixed(endpoint);
    EnvelopeReadBack(service, SERVER_NAME, name, REGISTER_PUBLISHER, endpoint);
  }

  /**
   * End to end: the registry's answer to a first registration, once the ROUTER has
   * stripped the addressing part, arrives at the first poll and hands the publisher
   * over to exactly the service's broker endpoint.
   */
  lemma RegistrationHandsOffToBroker(st: map<Id, ServiceState>, service: seq<byte>, name: seq<byte>,
                                     port: seq<byte>, rest: seq<Part>, later: seq<seq<Part>>)
    requires WellKept(st)
    requires NulFree(service) && NulFree(name) && NulFree(port)
    requires FitsStr(service) && FitsStr(name) && FitsStr(port)
    requires service in st ==> name !in st[service].publishers && NulFree(st[service].port) && FitsStr(st[service].port)
    ensures var e := Admit(st, EnvelopeFrames(service, name, [], REGISTER_PUBLISHER, []), name + [0], port);
            var endpoint := if service in st then st[service].port else port;
            var out := ReplyParts(e.reply);
            |out| > 1 && out[0] == Part(name + [0], true) &&
            Polled([], [out[1..] + rest] + later, 0) == Registration(Handoff(endpoint), rest)
  {
    AdmitRegister(st, service, name, port);
    var endpoint := if service in st then st[service].port else port;
    var fs := EnvelopeFrames(service, SERVER_NAME, name, REGISTER_PUBLISHER, endpoint);
    var out := ReplyParts(Some(Reply(name, fs)));
    assert out[1..] == FramesToParts(fs);
    AnswerHandsOff(service, name, endpoint, rest, later);
  }

  /**
   * A text publication sent by a publisher named `name` reaches the service's broker
   * under that name: the broker records `name` as a publisher and fans the message out
   * to every subscriber, and to no one else.
   */
  lemma PublicationQueuedByBroker(subs: seq<Id>, pubs: set<Id>, name: seq<byte>, fs: seq<Frame>, rest: seq<Part>, s: Id)
    requires Sorted(subs) && NulFree(name)
    requires MessageType(fs) == Some(PUBLISH_TEXT_MESSAGE) && MessageBody(fs).Some?
    ensures var a := Incoming(subs, pubs, [Part(name + [0], true)] + FramesToParts(fs) + rest);
            a.rest == rest && a.deliver && a.subscribers == subs && a.publishers == pubs + {name} &&
            ReceivedBy(Deliveries(a.subscribers, a.queued), s) == if s in subs then [fs] else []
  {
    assert fs != [] by {
      assert MessageType(fs).Some?;
    }
    PublishFansOut(subs, pubs, [], name + [0], fs, rest, s);
    IdentityRoundTrip(name);
    var a := Incoming(subs, pubs, [Part(name + [0], true)] + FramesToParts(fs) + rest);
    assert [] + a.queued == a.queued;
  }

  /**
   * One poll that found something pending: receive into `msg`, then check the
   * answer's type and body; the outcome is `Failed` on the first check that fails.
   */
  method ReadAnswer(sock: Socket, msg: Message) returns (outcome: Outcome)
    requires sock.kind == Dealer
    modifies sock, msg
    ensures var r := Receive(Dealer, old(sock.inbox));
            outcome == (if r.ok then ReplyOutcome(r.frames) else Failed) && sock.inbox == r.rest
    ensures !outcome.Silent?
    ensures sock.sent == old(sock.sent) && sock.linkUp == old(sock.linkUp)
  {
    var received := msg.Recv(sock);
    if !received {
      return Failed;
    }
    var t := MessageType(msg.frames);
    if t.None? || t.value != REGISTER_PUBLISHER {
      return Failed;
    }
    var body := MessageBody(msg.frames);
    if body.None? {
      return Failed;
    }
    outcome := Handoff(body.value);
  }

  /**
   * The poll loop of `Register` on the registry connection `sock`, after the request
   * went out. The first poll that finds something pending reads the answer; a
   * readable REGISTER_PUBLISHER answer opens `active`, a new DEALER with the
   * publisher's routing identity connected to the endpoint in the answer.
   */
  method AwaitAnswer(sock: Socket, msg: Message, name: seq<byte>, arrivals: seq<seq<Part>>, brokerLinkUp: bool)
    returns (ok: bool, active: Socket)
    requires sock.kind == Dealer
    modifies sock, msg
    ensures var p := Polled(old(sock.inbox), arrivals, 0);
            ok == !p.outcome.Failed? && sock.inbox == p.inbox &&
            sock.sent == old(sock.sent) && sock.linkUp == old(sock.linkUp) &&
            (p.outcome.Handoff? ==>
               fresh(active) && active.kind == Dealer && active.routingId == name + [0] &&
               active.endpoint == p.outcome.endpoint && active.linkUp == brokerLinkUp &&
               active.sent == [] && active.inbox == []) &&
            (!p.outcome.Handoff? ==> active == sock)
  {
    ghost var start := Polled(sock.inbox, arrivals, 0);
    var answer := Silent;
    active := sock;
    var cnt := 0;
    cnt := cnt + 1;
    while cnt < 4
      invariant 1 <= cnt <= 5 && !answer.Failed?
      invariant sock.sent == old(sock.sent) && sock.linkUp == old(sock.linkUp)
      invariant answer.Silent? <==> cnt <= 4
      invariant answer.Silent? ==> Polled(sock.inbox, arrivals, cnt - 1) == start
      invariant answer.Handoff? ==> start == Registration(answer, sock.inbox)
      invariant answer.Silent? ==> active == sock
      invariant answer.Handoff? ==>
                  fresh(active) && active.kind == Dealer && active.routingId == name + [0] &&
                  active.endpoint == answer.endpoint && active.linkUp == brokerLinkUp &&
                  active.sent == [] && active.inbox == []
      decreases 5 - cnt
    {
      ghost var before := sock.inbox;
      PollStep(before, arrivals, cnt - 1);
      sock.Arrive(Arrived(arrivals, cnt - 1));
      if sock.inbox != [] {
        answer := ReadAnswer(sock, msg);
        assert start == Registration(answer, sock.inbox);
        if !answer.Handoff? {
          return false, sock;
        }
        active := new Socket(Dealer, answer.endpoint, name + [0], brokerLinkUp);
        cnt := 4;
      } else {
        assert Polled(sock.inbox, arrivals, cnt) == start;
      }
      cnt := cnt + 1;
    }
    ok := true;
  }

  class Publisher {
    /** `m_name`: also the routing identity (with its terminator) of every connection. */
    const name: seq<byte>
    /** `m_service`: the service this publisher publishes to. */
    const service: seq<byte>
    /** `m_socket`: the current connection; null before `Register`. */
    var socket: Socket?

    ghost predicate Valid()
      reads this, socket
    {
      socket != null ==> socket.kind == Dealer && socket.routingId == name + [0]
    }

    /** `IsConnected`. */
    predicate IsConnected()
      reads this
    {
      socket != null
    }

    /** `DlgPublisher(name, service)`: not connected. */
    constructor (name: seq<byte>, service: seq<byte>)
      ensures Valid() && this.name == name && this.service == service && socket == null
    {
      this.name := name;
      this.service := service;
      socket := null;
    }

    /**
     * `Register`: connect a DEALER to the registry and send one REGISTER_PUBLISHER
     * envelope (service, name, "", ""); a refused send fails. Then up to `POLLS` polls
     * for the answer: a bad answer fails, a good one moves the connection to the
     * broker, and no answer at all still succeeds, leaving the connection on the
     * registry. `linkUp` and `brokerLinkUp` say whether the two connections accept
     * sends; `arrivals` is what reaches the registry connection during each poll.
     */
    method Register(linkUp: bool, brokerLinkUp: bool, arrivals: seq<seq<Part>>) returns (ok: bool)
      modifies this
      ensures Valid() && socket != null && fresh(socket)
      ensures var request := FramesToParts(EnvelopeFrames(service, name, [], REGISTER_PUBLISHER, []));
              var p := Polled([], arrivals, 0);
              ok == (linkUp && !p.outcome.Failed?) &&
              (!linkUp ==>
                 socket.endpoint == REGISTRY_ENDPOINT && socket.linkUp == linkUp &&
                 socket.sent == [] && socket.inbox == []) &&
              (linkUp && p.outcome.Handoff? ==>
                 socket.endpoint == p.outcome.endpoint && socket.linkUp == brokerLinkUp &&
                 socket.sent == [] && socket.inbox == []) &&
              (linkUp && !p.outcome.Handoff? ==>
                 socket.endpoint == REGISTRY_ENDPOINT && socket.linkUp == linkUp &&
                 socket.sent == request && socket.inbox == p.inbox)
    {
      var sock := new Socket(Dealer, REGISTRY_ENDPOINT, name + [0], linkUp);
      socket := sock;
      var msg := new Message(service, name, [], REGISTER_PUBLISHER, []);
      var _ := msg.SetIdentity(name);
      var sent := msg.Send(sock);
      if !sent {
        return false;
      }
      var active;
      ok, active := AwaitAnswer(sock, msg, name, arrivals, brokerLinkUp);
      socket := active;
    }

    /**
     * `PublishMessage`: stamp the message with the publisher's name as identity and its
     * service in the service field, then send it; without a connection, or when the
     * connection refuses, it fails.
     */
    method PublishMessage(msg: Message) returns (ok: bool)
      requires Valid()
      modifies msg, socket
      ensures msg.identity == name + [0]
      ensures msg.frames == UpdateStr(old(msg.frames), SERVICE_FIELD, service).value
      ensures ok == (socket != null && old(socket.linkUp))
      ensures socket != null ==>
                socket.sent == old(socket.sent) + (if ok then FramesToParts(msg.frames) else []) &&
                socket.inbox == old(socket.inbox) && socket.linkUp == old(socket.linkUp)
    {
      var _ := msg.SetIdentity(name);
      var _ := msg.SetServiceName(service);
      ok := msg.Send(socket);
    }
  }
}
