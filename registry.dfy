/**
 * The registry (`DlgServer`): a ROUTER on the well-known port that creates one broker
 * per service name on first mention, records subscribers and publishers with that
 * broker, and replies to each new one with the broker's endpoint.
 */
module ServiceRegistry {
  import opened Bytes
  import opened Transport
  import opened Frames
  import opened Envelope
  import opened Messages
  import opened Ids
  import opened ServiceBroker

  /** `DLG_SERVER_TCP_PORT`. */
  const DLG_SERVER_TCP_PORT: nat := 55550

  /** What the registry knows of one service: its broker's endpoint and key sets. */
  datatype ServiceState = ServiceState(port: seq<byte>, subscribers: seq<Id>, publishers: set<Id>)

  /** A reply on the registry's ROUTER: the peer it is routed to and its frames. */
  datatype Reply = Reply(to: Id, frames: seq<Frame>)

  datatype Enrolled = Enrolled(services: map<Id, ServiceState>, reply: Option<Reply>)

  predicate WellKept(st: map<Id, ServiceState>) {
    forall n :: n in st ==> Sorted(st[n].subscribers)
  }

  datatype Joined = Joined(service: ServiceState, added: bool)

  /**
   * The broker side of `subscribe_to_service` / `register_publisher`: a peer already
   * known in the role the type names is refused; a new one is added. Other types
   * change nothing.
   */
  function Join(s: ServiceState, id: Id, t: u32): (j: Joined)
    requires Sorted(s.subscribers)
    ensures Sorted(j.service.subscribers)
  {
    if t == SUBSCRIBE_TO_SERVICE then
      if id in s.subscribers then Joined(s, false)
      else Joined(s.(subscribers := InsertSorted(s.subscribers, id)), true)
    else if t == REGISTER_PUBLISHER then
      if id in s.publishers then Joined(s, false)
      else Joined(s.(publishers := s.publishers + {id}), true)
    else Joined(s, false)
  }

  /**
   * `subscribe_to_service` / `register_publisher` once the service exists: the named
   * service's broker joins the peer, and a peer it added is answered with an envelope
   * (service, "DlgServer", peer, same type, broker endpoint).
   */
  function Enrol(st: map<Id, ServiceState>, n: Id, id: Id, t: u32): (e: Enrolled)
    requires n in st && WellKept(st)
    ensures WellKept(e.services) && e.services.Keys == st.Keys
  {
    var j := Join(st[n], id, t);
    if j.added then
      Enrolled(st[n := j.service], Some(Reply(id, EnvelopeFrames(n, SERVER_NAME, id, t, st[n].port))))
    else Enrolled(st, None)
  }

  /**
   * What `Enrol` does: only the named service changes, its endpoint stays, the sender
   * joins the role the type names, and a reply goes out exactly when the sender is new
   * in that role.
   */
  lemma EnrolChanges(st: map<Id, ServiceState>, n: Id, id: Id, t: u32)
    requires n in st && WellKept(st)
    ensures var e := Enrol(st, n, id, t);
            (forall m :: m in st && m != n ==> e.services[m] == st[m]) &&
            e.services[n].port == st[n].port &&
            (e.reply.Some? <==>
              (t == SUBSCRIBE_TO_SERVICE && id !in st[n].subscribers) ||
              (t == REGISTER_PUBLISHER && id !in st[n].publishers)) &&
            (e.reply.Some? ==> e.reply.value == Reply(id, EnvelopeFrames(n, SERVER_NAME, id, t, st[n].port))) &&
            (forall x :: x in e.services[n].subscribers <==>
              x in st[n].subscribers || (t == SUBSCRIBE_TO_SERVICE && x == id)) &&
            e.services[n].publishers == st[n].publishers + (if t == REGISTER_PUBLISHER then {id} else {})
  {
    TypeCodesDistinct();
  }

  /**
   * The registry's handling of one received message: no readable service name drops
   * it; a readable name creates its service (its new broker bound to `port`) before
   * the type is even read; then an unreadable type drops the message, and the known
   * types go to `Enrol`.
   */
  function Admit(st: map<Id, ServiceState>, frames: seq<Frame>, identity: seq<byte>, port: seq<byte>): (e: Enrolled)
    requires WellKept(st)
    ensures WellKept(e.services) && st.Keys <= e.services.Keys
    ensures ServiceName(frames).None? ==> e == Enrolled(st, None)
    ensures MessageType(frames).None? ==> e.reply.None?
    ensures ServiceName(frames).Some? ==>
              var n := ServiceName(frames).value;
              e.services.Keys == st.Keys + {n} &&
              (forall m :: m in st && m != n ==> e.services[m] == st[m]) &&
              (n in st ==> e.services[n].port == st[n].port &&
                           (forall x :: x in st[n].subscribers ==> x in e.services[n].subscribers) &&
                           st[n].publishers <= e.services[n].publishers) &&
              (n !in st ==> e.services[n].port == port)
  {
    match ServiceName(frames)
      case None => Enrolled(st, None)
      case Some(n) =>
        var st1 := if n in st then st else st[n := ServiceState(port, [], {})];
        match MessageType(frames)
          case None => Enrolled(st1, None)
          case Some(t) =>
            EnrolChanges(st1, n, Identity(identity), t);
            Enrol(st1, n, Identity(identity), t)
  }

  datatype Served = Served(rest: seq<Part>, services: map<Id, ServiceState>, reply: Option<Reply>)

  /** One iteration of the registry loop: receive a message, if any, and admit it. */
  function Serve(st: map<Id, ServiceState>, inbox: seq<Part>, port: seq<byte>): (s: Served)
    requires WellKept(st)
    ensures WellKept(s.services) && st.Keys <= s.services.Keys
    ensures forall m :: m in st ==>
              s.services[m].port == st[m].port &&
              (forall x :: x in st[m].subscribers ==> x in s.services[m].subscribers) &&
              st[m].publishers <= s.services[m].publishers
  {
    if inbox == [] then Served([], st, None)
    else
      var r := Receive(Router, inbox);
      if !r.ok then Served(r.rest, st, None)
      else
        var e := Admit(st, r.frames, r.identity, port);
        Served(r.rest, e.services, e.reply)
  }

  /** The parts a reply puts on the registry's ROUTER. */
  function ReplyParts(reply: Option<Reply>): seq<Part>
  {
    match reply
      case None => []
      case Some(rp) => Outgoing(Router, rp.to + [0], rp.frames)
  }

  /**
   * A subscription envelope as a subscriber sends it makes the registry record the
   * subscriber with the named service, creating the service if needed, and answer
   * with the service's broker endpoint; the reply reads back as that endpoint.
   */
  lemma AdmitSubscribe(st: map<Id, ServiceState>, service: seq<byte>, name: seq<byte>,
                       server: seq<byte>, port: seq<byte>)
    requires WellKept(st)
    requires NulFree(service) && NulFree(name) && NulFree(port)
    requires FitsStr(service) && FitsStr(name) && FitsStr(server) && FitsStr(port)
    requires service in st ==> name !in st[service].subscribers && NulFree(st[service].port) && FitsStr(st[service].port)
    ensures var e := Admit(st, EnvelopeFrames(service, name, server, SUBSCRIBE_TO_SERVICE, []), name + [0], port);
            var endpoint := if service in st then st[service].port else port;
            service in e.services && name in e.services[service].subscribers &&
            e.reply.Some? && e.reply.value.to == name &&
            MessageType(e.reply.value.frames) == Some(SUBSCRIBE_TO_SERVICE) &&
            MessageBody(e.reply.value.frames) == Some(endpoint)
  {
    EnvelopeReadBack(service, name, server, SUBSCRIBE_TO_SERVICE, []);
    CStringFixed(service);
    IdentityRoundTrip(name);
    var endpoint := if service in st then st[service].port else port;
    CStringFixed(endpoint);
    EnvelopeReadBack(service, SERVER_NAME, name, SUBSCRIBE_TO_SERVICE, endpoint);
  }

  /**
   * The same for a request on the wire: the subscriber's identity with its terminating
   * NUL routed ahead of the envelope, followed by whatever else is queued.
   */
  lemma SubscribeHandshake(st: map<Id, ServiceState>, service: seq<byte>, name: seq<byte>,
                           server: seq<byte>, port: seq<byte>, rest: seq<Part>)
    requires WellKept(st)
    requires NulFree(service) && NulFree(name) && NulFree(port)
    requires FitsStr(service) && FitsStr(name) && FitsStr(server) && FitsStr(port)
    requires service in st ==> name !in st[service].subscribers && NulFree(st[service].port) && FitsStr(st[service].port)
    ensures var s := Serve(st, [Part(name + [0], true)] + FramesToParts(EnvelopeFrames(service, name, server, SUBSCRIBE_TO_SERVICE, [])) + rest, port);
            var endpoint := if service in st then st[service].port else port;
            s.rest == rest && service in s.services && name in s.services[service].subscribers &&
            s.reply.Some? && s.reply.value.to == name &&
            MessageType(s.reply.value.frames) == Some(SUBSCRIBE_TO_SERVICE) &&
            MessageBody(s.reply.value.frames) == Some(endpoint)
  {
    SendRecvRoundTrip(EnvelopeFrames(service, name, server, SUBSCRIBE_TO_SERVICE, []), name + [0], rest);
    AdmitSubscribe(st, service, name, server, port);
  }

  /** Subscribing again is refused silently: no reply and nothing recorded. */
  lemma SubscribeTwice(st: map<Id, ServiceState>, n: Id, id: Id)
    requires n in st && WellKept(st)
    ensures var e := Enrol(st, n, id, SUBSCRIBE_TO_SERVICE);
            var e2 := Enrol(e.services, n, id, SUBSCRIBE_TO_SERVICE);
            e2.reply.None? && e2.services == e.services
  {
  }

  /** The same holds for registering a publisher twice. */
  lemma RegisterTwice(st: map<Id, ServiceState>, n: Id, id: Id)
    requires n in st && WellKept(st)
    ensures var e := Enrol(st, n, id, REGISTER_PUBLISHER);
            var e2 := Enrol(e.services, n, id, REGISTER_PUBLISHER);
            e2.reply.None? && e2.services == e.services
  {
  }

  /**
   * The reply half of `subscribe_to_service` / `register_publisher`: an envelope
   * (service, "DlgServer", peer, type, broker endpoint) routed to the peer.
   */
  method Answer(router: Socket, n: Id, id: Id, t: u32, port: seq<byte>) returns (ok: bool)
    requires router.kind == Router
    modifies router
    ensures ok == old(router.linkUp)
    ensures router.sent == old(router.sent) +
              (if ok then ReplyParts(Some(Reply(id, EnvelopeFrames(n, SERVER_NAME, id, t, port)))) else [])
    ensures router.inbox == old(router.inbox) && router.linkUp == old(router.linkUp)
  {
    var reply := new Message(n, SERVER_NAME, id, t, port);
    var _ := reply.SetIdentity(id);
    ok := reply.Send(router);
  }

  class Registry {
    /** `m_router`: bound to the well-known port. */
    const router: Socket
    /**
     * `m_services`: for each service name, the key sets of its broker and the endpoint
     * the broker is bound to.
     */
    var services: map<Id, ServiceState>

    ghost predicate Valid()
      reads this
    {
      router.kind == Router && WellKept(services)
    }

    /** `DlgServer()`: a ROUTER bound to `endpoint`; no services yet. */
    constructor (endpoint: seq<byte>, linkUp: bool)
      ensures Valid() && fresh(router) && router.endpoint == endpoint
      ensures router.linkUp == linkUp && router.sent == [] && router.inbox == []
      ensures services == map[]
    {
      router := new Socket(Router, endpoint, [], linkUp);
      services := map[];
    }

    /**
     * `create_service`: fails for a known name, otherwise adds a service whose new
     * broker is bound to `port` and has no subscribers or publishers yet.
     */
    method CreateService(name: Id, port: seq<byte>) returns (ok: bool)
      requires Valid()
      modifies this
      ensures Valid()
      ensures ok == (name !in old(services))
      ensures services == if ok then old(services)[name := ServiceState(port, [], {})] else old(services)
    {
      if name in services {
        return false;
      }
      services := services[name := ServiceState(port, [], {})];
      ok := true;
    }

    /**
     * `subscribe_to_service` / `register_publisher` (selected by `t`): read the service
     * name, add the sender to the broker, and send the reply. A known sender gets no
     * reply; a reply the router refuses makes the call fail after the sender was added.
     */
    method Enroll(msg: Message, t: u32) returns (ok: bool)
      requires Valid() && t in {SUBSCRIBE_TO_SERVICE, REGISTER_PUBLISHER}
      requires ServiceName(msg.frames).Some? ==> ServiceName(msg.frames).value in services
      modifies this, router
      ensures Valid()
      ensures router.inbox == old(router.inbox) && router.linkUp == old(router.linkUp)
      ensures ServiceName(msg.frames).None? ==>
                !ok && services == old(services) && router.sent == old(router.sent)
      ensures ServiceName(msg.frames).Some? ==>
                var e := Enrol(old(services), ServiceName(msg.frames).value, Identity(msg.identity), t);
                services == e.services &&
                ok == (e.reply.Some? && router.linkUp) &&
                router.sent == old(router.sent) + (if router.linkUp then ReplyParts(e.reply) else [])
    {
      var name := ServiceName(msg.frames);
      if name.None? {
        return false;
      }
      var n := name.value;
      var id := Identity(msg.identity);
      var j := Join(services[n], id, t);
      var port := services[n].port;
      services := services[n := j.service];
      if !j.added {
        return false;
      }
      ok := Answer(router, n, id, t, port);
    }

    /**
     * The body of the registry loop after a message was received: `Admit` on the
     * received frames and the sender's routing identity.
     */
    method Handle(msg: Message, port: seq<byte>)
      requires Valid()
      modifies this, router
      ensures Valid()
      ensures var e := Admit(old(services), msg.frames, msg.identity, port);
              services == e.services &&
              router.inbox == old(router.inbox) && router.linkUp == old(router.linkUp) &&
              router.sent == old(router.sent) + (if router.linkUp then ReplyParts(e.reply) else [])
    {
      var name := ServiceName(msg.frames);
      if name.None? {
        return;
      }
      var ok: bool;
      if name.value !in services {
        ok := CreateService(name.value, port);
      }
      var t := MessageType(msg.frames);
      if t.None? {
        return;
      }
      TypeCodesDistinct();
      if t.value == SUBSCRIBE_TO_SERVICE || t.value == REGISTER_PUBLISHER {
        ok := Enroll(msg, t.value);
      }
    }

    /**
     * One iteration of the registry loop. `port` is the endpoint a broker created in
     * this iteration is bound to.
     */
    method Step(port: seq<byte>)
      requires Valid()
      modifies this, router
      ensures Valid()
      ensures var s := Serve(old(services), old(router.inbox), port);
              router.inbox == s.rest && services == s.services &&
              router.linkUp == old(router.linkUp) &&
              router.sent == old(router.sent) + (if router.linkUp then ReplyParts(s.reply) else [])
    {
      if router.inbox == [] {
        return;
      }
      ghost var r := Receive(Router, router.inbox);
      var msg := new Message.Default();
      var ok := msg.Recv(router);
      if ok {
        assert msg.identity == r.identity && msg.frames == r.frames;
        Handle(msg, port);
      }
    }
  }
}
