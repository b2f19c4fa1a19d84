/**
 * The per-service broker (`aBroker`): a ROUTER bound to its own endpoint, the
 * subscribers and publishers of the service keyed by peer identity, and the queue of
 * published messages that each loop iteration fans out to every subscriber.
 */
module ServiceBroker {
  import opened Bytes
  import opened Transport
  import opened Frames
  import opened Envelope
  import opened Messages
  import opened Ids

  // ---------------------------------------------------------------------------
  // Message handling, as a function of the broker's key sets

  /** The effect of one handler: whether it succeeded, the new key sets, and whether the message is queued. */
  datatype Dispatched = Dispatched(ok: bool, subscribers: seq<Id>, publishers: set<Id>, enqueue: bool)

  /**
   * The handler the broker runs for a message of type `t` from peer `id`: a
   * registration or subscription adds the peer and fails when it is already known; a
   * text or binary publication first makes its sender a publisher, then is queued when
   * its body reads back; any other type is accepted and ignored.
   */
  function Dispatch(subs: seq<Id>, pubs: set<Id>, id: Id, t: u32, fs: seq<Frame>): (r: Dispatched)
    requires Sorted(subs)
    ensures Sorted(r.subscribers)
    ensures forall x :: x in r.subscribers <==> x in subs || (t == SUBSCRIBE_TO_SERVICE && r.ok && x == id)
    ensures r.publishers == pubs + (if t in {REGISTER_PUBLISHER, PUBLISH_TEXT_MESSAGE, PUBLISH_BINARY_MESSAGE} then {id} else {})
    ensures r.ok <==> (t == REGISTER_PUBLISHER ==> id !in pubs) && (t == SUBSCRIBE_TO_SERVICE ==> id !in subs) &&
                      (t == PUBLISH_TEXT_MESSAGE ==> MessageBody(fs).Some?) &&
                      (t == PUBLISH_BINARY_MESSAGE ==> MessageBuffer(fs, 0, false).ok)
    ensures r.enqueue <==> r.ok && t in {PUBLISH_TEXT_MESSAGE, PUBLISH_BINARY_MESSAGE}
  {
    TypeCodesDistinct();
    if t == REGISTER_PUBLISHER then
      if id in pubs then Dispatched(false, subs, pubs, false) else Dispatched(true, subs, pubs + {id}, false)
    else if t == SUBSCRIBE_TO_SERVICE then
      if id in subs then Dispatched(false, subs, pubs, false) else Dispatched(true, InsertSorted(subs, id), pubs, false)
    else if t == PUBLISH_TEXT_MESSAGE then
      var ok := MessageBody(fs).Some?;
      Dispatched(ok, subs, pubs + {id}, ok)
    else if t == PUBLISH_BINARY_MESSAGE then
      var ok := MessageBuffer(fs, 0, false).ok;
      Dispatched(ok, subs, pubs + {id}, ok)
    else
      Dispatched(true, subs, pubs, false)
  }

  /** What one received message does to the broker, and whether the fan-out runs afterwards. */
  datatype Arrival = Arrival(rest: seq<Part>, subscribers: seq<Id>, publishers: set<Id>, deliver: bool, queued: seq<seq<Frame>>)

  /**
   * One poll of the broker's socket: nothing pending means straight to the fan-out; a
   * receive that fails or a message without a readable type skips the fan-out for this
   * iteration, as does a handler that fails.
   */
  function Incoming(subs: seq<Id>, pubs: set<Id>, inbox: seq<Part>): Arrival
    requires Sorted(subs)
  {
    if inbox == [] then Arrival([], subs, pubs, true, [])
    else
      var r := Receive(Router, inbox);
      if !r.ok then Arrival(r.rest, subs, pubs, false, [])
      else match MessageType(r.frames)
        case None => Arrival(r.rest, subs, pubs, false, [])
        case Some(t) =>
          var d := Dispatch(subs, pubs, Identity(r.identity), t, r.frames);
          Arrival(r.rest, d.subscribers, d.publishers, d.ok, if d.enqueue then [r.frames] else [])
  }

  // ---------------------------------------------------------------------------
  // Fan-out: every queued message to every subscriber

  /** One queued message addressed to one subscriber. */
  datatype Delivery = Delivery(to: Id, frames: seq<Frame>)

  /** The queue addressed to one subscriber, in queue order. */
  function Row(id: Id, rs: seq<seq<Frame>>): (ds: seq<Delivery>)
    ensures |ds| == |rs|
  {
    if rs == [] then [] else Row(id, rs[..|rs| - 1]) + [Delivery(id, rs[|rs| - 1])]
  }

  /** The fan-out order: subscribers in key order, for each the whole queue. */
  function Deliveries(ids: seq<Id>, rs: seq<seq<Frame>>): seq<Delivery>
  {
    if ids == [] then [] else Deliveries(ids[..|ids| - 1], rs) + Row(ids[|ids| - 1], rs)
  }

  /** The parts the ROUTER emits for deliveries: each message preceded by its subscriber's identity. */
  function Wire(ds: seq<Delivery>): seq<Part>
  {
    if ds == [] then []
    else Wire(ds[..|ds| - 1]) + Outgoing(Router, ds[|ds| - 1].to + [0], ds[|ds| - 1].frames)
  }

  /** The messages among `ds` that the ROUTER routes to subscriber `s`, in order. */
  function ReceivedBy(ds: seq<Delivery>, s: Id): seq<seq<Frame>>
  {
    if ds == [] then []
    else ReceivedBy(ds[..|ds| - 1], s) + (if ds[|ds| - 1].to == s then [ds[|ds| - 1].frames] else [])
  }

  lemma {:induction false} WireConcat(ds: seq<Delivery>, es: seq<Delivery>)
    ensures Wire(ds + es) == Wire(ds) + Wire(es)
    decreases |es|
  {
    if es == [] {
      assert ds + es == ds;
    } else {
      var n := |es| - 1;
      assert (ds + es)[..|ds + es| - 1] == ds + es[..n];
      WireConcat(ds, es[..n]);
    }
  }

  lemma RowStep(id: Id, rs: seq<seq<Frame>>, j: nat)
    requires j < |rs|
    ensures Row(id, rs[..j + 1]) == Row(id, rs[..j]) + [Delivery(id, rs[j])]
  {
    assert rs[..j + 1][..j] == rs[..j];
  }

  lemma DeliveriesStep(ids: seq<Id>, rs: seq<seq<Frame>>, i: nat)
    requires i < |ids|
    ensures Deliveries(ids[..i + 1], rs) == Deliveries(ids[..i], rs) + Row(ids[i], rs)
  {
    assert ids[..i + 1][..i] == ids[..i];
  }

  lemma {:induction false} ReceivedByConcat(ds: seq<Delivery>, es: seq<Delivery>, s: Id)
    ensures ReceivedBy(ds + es, s) == ReceivedBy(ds, s) + ReceivedBy(es, s)
    decreases |es|
  {
    if es == [] {
      assert ds + es == ds;
    } else {
      var n := |es| - 1;
      assert (ds + es)[..|ds + es| - 1] == ds + es[..n];
      ReceivedByConcat(ds, es[..n], s);
    }
  }

  /** A subscriber finds in its own row exactly the queue, and in any other row nothing. */
  lemma {:induction false} RowReceivedBy(id: Id, rs: seq<seq<Frame>>, s: Id)
    ensures ReceivedBy(Row(id, rs), s) == if id == s then rs else []
    decreases |rs|
  {
    if rs != [] {
      var n := |rs| - 1;
      var ds := Row(id, rs);
      assert ds[..n] == Row(id, rs[..n]);
      RowReceivedBy(id, rs[..n], s);
      assert rs[..n] + [rs[n]] == rs;
    }
  }

  /**
   * The fan-out gives each subscriber every queued message exactly once, in queue
   * order, and gives nothing to a peer that is not subscribed.
   */
  lemma {:induction false} EachSubscriberGetsAll(ids: seq<Id>, rs: seq<seq<Frame>>, s: Id)
    requires forall i, j :: 0 <= i < j < |ids| ==> ids[i] != ids[j]
    ensures ReceivedBy(Deliveries(ids, rs), s) == if s in ids then rs else []
    decreases |ids|
  {
    if ids != [] {
      var n := |ids| - 1;
      EachSubscriberGetsAll(ids[..n], rs, s);
      ReceivedByConcat(Deliveries(ids[..n], rs), Row(ids[n], rs), s);
      RowReceivedBy(ids[n], rs, s);
      assert ids == ids[..n] + [ids[n]];
      if ids[n] == s {
        assert s !in ids[..n];
      }
    }
  }

  /** The frames of the queued messages, in queue order. */
  function FramesOf(ms: seq<Message>): (rs: seq<seq<Frame>>)
    reads ms
    ensures |rs| == |ms|
  {
    if ms == [] then [] else FramesOf(ms[..|ms| - 1]) + [ms[|ms| - 1].frames]
  }

  lemma {:induction false} FramesOfSame(ms: seq<Message>, rs: seq<seq<Frame>>)
    requires |rs| == |ms| && forall k :: 0 <= k < |ms| ==> ms[k].frames == rs[k]
    ensures FramesOf(ms) == rs
    decreases |ms|
  {
    if ms != [] {
      var n := |ms| - 1;
      FramesOfSame(ms[..n], rs[..n]);
      assert rs[..n] + [rs[n]] == rs;
    }
  }

  /** Queueing messages adds their frames at the end of the queue's frames. */
  lemma {:induction false} FramesOfConcat(ms: seq<Message>, ns: seq<Message>)
    ensures FramesOf(ms + ns) == FramesOf(ms) + FramesOf(ns)
    decreases |ns|
  {
    if ns == [] {
      assert ms + ns == ms;
    } else {
      var n := |ns| - 1;
      assert (ms + ns)[..|ms + ns| - 1] == ms + ns[..n];
      FramesOfConcat(ms, ns[..n]);
    }
  }

  lemma {:induction false} FramesOfAt(ms: seq<Message>)
    ensures forall k :: 0 <= k < |ms| ==> FramesOf(ms)[k] == ms[k].frames
    decreases |ms|
  {
    if ms != [] {
      FramesOfAt(ms[..|ms| - 1]);
    }
  }

  /**
   * A well-formed text publication from peer `pid` reaching the broker makes the peer
   * a publisher, is queued, and then reaches every subscriber after whatever was
   * already queued, and no one else.
   */
  lemma PublishFansOut(subs: seq<Id>, pubs: set<Id>, pending: seq<seq<Frame>>,
                       pid: seq<byte>, fs: seq<Frame>, rest: seq<Part>, s: Id)
    requires Sorted(subs) && fs != []
    requires MessageType(fs) == Some(PUBLISH_TEXT_MESSAGE) && MessageBody(fs).Some?
    ensures var a := Incoming(subs, pubs, [Part(pid, true)] + FramesToParts(fs) + rest);
            a.rest == rest && a.deliver && a.subscribers == subs && a.publishers == pubs + {CString(pid)} &&
            ReceivedBy(Deliveries(a.subscribers, pending + a.queued), s) == if s in subs then pending + [fs] else []
  {
    SendRecvRoundTrip(fs, pid, rest);
    SortedDistinct(subs);
    TypeCodesDistinct();
    var a := Incoming(subs, pubs, [Part(pid, true)] + FramesToParts(fs) + rest);
    assert a.queued == [fs];
    EachSubscriberGetsAll(subs, pending + [fs], s);
  }

  // ---------------------------------------------------------------------------
  // The fan-out loops, over the broker's ROUTER

  /** `SendMessage` on a ROUTER: the message is addressed to `id` (identity `id` + NUL) and sent. */
  method Address(sock: Socket, msg: Message, id: Id) returns (ok: bool)
    requires sock.kind == Router
    modifies msg, sock
    ensures ok == old(sock.linkUp)
    ensures msg.frames == old(msg.frames) && msg.identity == id + [0]
    ensures sock.sent == old(sock.sent) + (if ok then Outgoing(Router, id + [0], msg.frames) else [])
    ensures sock.inbox == old(sock.inbox) && sock.linkUp == old(sock.linkUp)
  {
    var _ := msg.SetIdentity(id);
    ok := msg.Send(sock);
  }

  /** The parts logged after the whole queue went to one more subscriber. */
  lemma DeliveriesSent(prev: seq<Part>, subs: seq<Id>, rs: seq<seq<Frame>>, i: nat)
    requires i < |subs|
    ensures prev + Wire(Deliveries(subs[..i], rs)) + Wire(Row(subs[i], rs)) == prev + Wire(Deliveries(subs[..i + 1], rs))
  {
    DeliveriesStep(subs, rs, i);
    WireConcat(Deliveries(subs[..i], rs), Row(subs[i], rs));
    assert prev + Wire(Deliveries(subs[..i], rs)) + Wire(Row(subs[i], rs)) ==
           prev + (Wire(Deliveries(subs[..i], rs)) + Wire(Row(subs[i], rs)));
  }

  /** The parts logged after addressing one more queued message to `id`. */
  lemma RowSent(prev: seq<Part>, id: Id, rs: seq<seq<Frame>>, j: nat)
    requires j < |rs|
    ensures prev + Wire(Row(id, rs[..j])) + Outgoing(Router, id + [0], rs[j]) == prev + Wire(Row(id, rs[..j + 1]))
  {
    RowStep(id, rs, j);
    var ds := Row(id, rs[..j]);
    assert (ds + [Delivery(id, rs[j])])[..|ds|] == ds;
    assert prev + Wire(ds) + Outgoing(Router, id + [0], rs[j]) ==
           prev + (Wire(ds) + Outgoing(Router, id + [0], rs[j]));
  }

  /** The inner fan-out loop: every queued message, in order, to subscriber `id`; `rs` are the queued frames. */
  method DeliverTo(sock: Socket, id: Id, ms: seq<Message>, ghost rs: seq<seq<Frame>>)
    requires sock.kind == Router
    requires |rs| == |ms| && forall k :: 0 <= k < |ms| ==> ms[k].frames == rs[k]
    modifies sock, ms
    ensures forall k :: 0 <= k < |ms| ==> ms[k].frames == rs[k]
    ensures sock.sent == old(sock.sent) + (if old(sock.linkUp) then Wire(Row(id, rs)) else [])
    ensures sock.inbox == old(sock.inbox) && sock.linkUp == old(sock.linkUp)
  {
    ghost var prev := sock.sent;
    ghost var up := sock.linkUp;
    var j := 0;
    while j < |ms|
      invariant 0 <= j <= |ms|
      invariant forall k :: 0 <= k < |ms| ==> ms[k].frames == rs[k]
      invariant sock.inbox == old(sock.inbox) && sock.linkUp == up
      invariant up ==> sock.sent == prev + Wire(Row(id, rs[..j]))
      invariant !up ==> sock.sent == prev
    {
      var ok := Address(sock, ms[j], id);
      if ok {
        RowSent(prev, id, rs, j);
      }
      j := j + 1;
    }
    assert rs[..|ms|] == rs;
  }

  /** The outer fan-out loop: the subscribers in key order, each receiving the whole queue. */
  method FanOut(sock: Socket, subs: seq<Id>, ms: seq<Message>)
    requires sock.kind == Router
    modifies sock, ms
    ensures sock.sent == old(sock.sent) + (if old(sock.linkUp) then Wire(Deliveries(subs, old(FramesOf(ms)))) else [])
    ensures sock.inbox == old(sock.inbox) && sock.linkUp == old(sock.linkUp)
  {
    ghost var rf := FramesOf(ms);
    ghost var prev := sock.sent;
    ghost var up := sock.linkUp;
    FramesOfAt(ms);
    var i := 0;
    while i < |subs|
      invariant 0 <= i <= |subs|
      invariant forall k :: 0 <= k < |ms| ==> ms[k].frames == rf[k]
      invariant sock.inbox == old(sock.inbox) && sock.linkUp == up
      invariant up ==> sock.sent == prev + Wire(Deliveries(subs[..i], rf))
      invariant !up ==> sock.sent == prev
    {
      DeliverTo(sock, subs[i], ms, rf);
      if up {
        DeliveriesSent(prev, subs, rf, i);
      }
      i := i + 1;
    }
    assert subs[..i] == subs;
  }

  // ---------------------------------------------------------------------------
  // The broker object

  class Broker {
    /** `m_name`: the service this broker serves. */
    const name: Id
    /** `m_port`: the endpoint the socket is bound to, as the transport reports it. */
    const port: seq<byte>
    /** `m_socket`: the broker's ROUTER. */
    const socket: Socket
    /** The keys of `m_subscribers`, in map order. */
    var subscribers: seq<Id>
    /** The keys of `m_publishers`. */
    var publishers: set<Id>
    /** `m_requests`: published messages waiting for the fan-out. */
    var requests: seq<Message>

    ghost predicate Valid()
      reads this
    {
      socket.kind == Router && Sorted(subscribers)
    }

    /** `aBroker(name)`: a ROUTER bound to the endpoint the transport assigned (`port`). */
    constructor (name: Id, port: seq<byte>, linkUp: bool)
      ensures Valid() && fresh(socket)
      ensures this.name == name && this.port == port && socket.endpoint == port
      ensures socket.linkUp == linkUp && socket.sent == [] && socket.inbox == []
      ensures subscribers == [] && publishers == {} && requests == []
    {
      this.name := name;
      this.port := port;
      socket := new Socket(Router, port, [], linkUp);
      subscribers := [];
      publishers := {};
      requests := [];
    }

    /** `AddSubscriber`: fails on a known subscriber, otherwise adds it at its place in the order. */
    method AddSubscriber(id: Id) returns (ok: bool)
      requires Valid()
      modifies this
      ensures Valid()
      ensures ok == (id !in old(subscribers))
      ensures subscribers == if ok then InsertSorted(old(subscribers), id) else old(subscribers)
      ensures publishers == old(publishers) && requests == old(requests)
    {
      if id in subscribers {
        return false;
      }
      subscribers := InsertSorted(subscribers, id);
      ok := true;
    }

    /** `AddPublisher`: fails on a known publisher. */
    method AddPublisher(id: Id) returns (ok: bool)
      requires Valid()
      modifies this
      ensures Valid()
      ensures ok == (id !in old(publishers))
      ensures publishers == if ok then old(publishers) + {id} else old(publishers)
      ensures subscribers == old(subscribers) && requests == old(requests)
    {
      if id in publishers {
        return false;
      }
      publishers := publishers + {id};
      ok := true;
    }

    /** `delete_publisher`: removes the publisher if present. */
    method DeletePublisher(id: Id)
      requires Valid()
      modifies this
      ensures Valid()
      ensures publishers == old(publishers) - {id}
      ensures subscribers == old(subscribers) && requests == old(requests)
    {
      publishers := publishers - {id};
    }

    /** `destroy_publishers`. */
    method DestroyPublishers()
      requires Valid()
      modifies this
      ensures Valid()
      ensures publishers == {} && subscribers == old(subscribers) && requests == old(requests)
    {
      publishers := {};
    }

    /** `AddRequest`: queues a message; a null message is refused. */
    method AddRequest(msg: Message?) returns (ok: bool)
      requires Valid()
      modifies this
      ensures Valid()
      ensures ok == (msg != null)
      ensures requests == if ok then old(requests) + [msg] else old(requests)
      ensures subscribers == old(subscribers) && publishers == old(publishers)
    {
      if msg == null {
        return false;
      }
      requests := requests + [msg];
      ok := true;
    }

    /** `register_publisher`: the sender becomes a publisher. */
    method RegisterPublisher(msg: Message) returns (ok: bool)
      requires Valid()
      modifies this
      ensures Valid()
      ensures var d := Dispatch(old(subscribers), old(publishers), Identity(msg.identity), REGISTER_PUBLISHER, msg.frames);
              ok == d.ok && subscribers == d.subscribers && publishers == d.publishers && requests == old(requests)
    {
      ok := AddPublisher(Identity(msg.identity));
    }

    /** `subscribe_to_service`: the sender becomes a subscriber. */
    method SubscribeToService(msg: Message) returns (ok: bool)
      requires Valid()
      modifies this
      ensures Valid()
      ensures var d := Dispatch(old(subscribers), old(publishers), Identity(msg.identity), SUBSCRIBE_TO_SERVICE, msg.frames);
              ok == d.ok && subscribers == d.subscribers && publishers == d.publishers && requests == old(requests)
    {
      TypeCodesDistinct();
      ok := AddSubscriber(Identity(msg.identity));
    }

    /** `publish_text_message`: the sender is made a publisher if needed; the message is queued when its body reads. */
    method PublishText(msg: Message) returns (ok: bool)
      requires Valid()
      modifies this
      ensures Valid()
      ensures var d := Dispatch(old(subscribers), old(publishers), Identity(msg.identity), PUBLISH_TEXT_MESSAGE, msg.frames);
              ok == d.ok && subscribers == d.subscribers && publishers == d.publishers &&
              requests == old(requests) + (if d.enqueue then [msg] else [])
    {
      TypeCodesDistinct();
      var id := Identity(msg.identity);
      if id !in publishers {
        var _ := AddPublisher(id);
      }
      if MessageBody(msg.frames).None? {
        return false;
      }
      ok := AddRequest(msg);
    }

    /** `publish_binary_message`: as for text, with the body probed as a buffer. */
    method PublishBinary(msg: Message) returns (ok: bool)
      requires Valid()
      modifies this
      ensures Valid()
      ensures var d := Dispatch(old(subscribers), old(publishers), Identity(msg.identity), PUBLISH_BINARY_MESSAGE, msg.frames);
              ok == d.ok && subscribers == d.subscribers && publishers == d.publishers &&
              requests == old(requests) + (if d.enqueue then [msg] else [])
    {
      TypeCodesDistinct();
      var id := Identity(msg.identity);
      if id !in publishers {
        var _ := AddPublisher(id);
      }
      if !MessageBuffer(msg.frames, 0, false).ok {
        return false;
      }
      ok := AddRequest(msg);
    }

    /** `SendMessage`: addresses the message to a subscriber and sends it on the broker's ROUTER. */
    method SendMessage(msg: Message, id: Id) returns (ok: bool)
      requires Valid()
      modifies msg, socket
      ensures ok == old(socket.linkUp)
      ensures msg.frames == old(msg.frames) && msg.identity == id + [0]
      ensures socket.sent == old(socket.sent) + (if ok then Outgoing(Router, id + [0], msg.frames) else [])
      ensures socket.inbox == old(socket.inbox) && socket.linkUp == old(socket.linkUp)
    {
      ok := Address(socket, msg, id);
    }

    /** The fan-out at the end of each loop iteration, then the queue is emptied. */
    method DeliverAll()
      requires Valid()
      modifies this, socket, requests
      ensures Valid()
      ensures subscribers == old(subscribers) && publishers == old(publishers) && requests == []
      ensures socket.sent == old(socket.sent) +
                (if old(socket.linkUp) then Wire(Deliveries(subscribers, old(FramesOf(requests)))) else [])
      ensures socket.inbox == old(socket.inbox) && socket.linkUp == old(socket.linkUp)
    {
      FanOut(socket, subscribers, requests);
      requests := [];
    }

    /**
     * The receiving half of one broker iteration, into the freshly allocated message
     * `msg`: receive, read the type, run the handler. The result says whether the
     * fan-out follows.
     */
    method HandleIncoming(msg: Message) returns (deliver: bool)
      requires Valid() && socket.inbox != [] && msg.identity == [] && msg !in requests
      modifies this, socket, msg
      ensures Valid()
      ensures var a := Incoming(old(subscribers), old(publishers), old(socket.inbox));
              deliver == a.deliver && socket.inbox == a.rest &&
              subscribers == a.subscribers && publishers == a.publishers &&
              socket.sent == old(socket.sent) && socket.linkUp == old(socket.linkUp) &&
              requests == old(requests) + (if a.queued == [] then [] else [msg]) &&
              (a.queued != [] ==> a.queued == [msg.frames])
    {
      ghost var inbox := socket.inbox;
      var ok := msg.Recv(socket);
      if !ok {
        return false;
      }
      var t := MessageType(msg.frames);
      if t.None? {
        return false;
      }
      assert msg.identity == Receive(Router, inbox).identity;
      TypeCodesDistinct();
      if t.value == REGISTER_PUBLISHER {
        deliver := RegisterPublisher(msg);
      } else if t.value == SUBSCRIBE_TO_SERVICE {
        deliver := SubscribeToService(msg);
      } else if t.value == PUBLISH_TEXT_MESSAGE {
        deliver := PublishText(msg);
      } else if t.value == PUBLISH_BINARY_MESSAGE {
        deliver := PublishBinary(msg);
      } else {
        deliver := true;
      }
    }

    /**
     * One iteration of the broker loop: poll, and when something arrived receive it
     * into a new message, read its type and run its handler; unless one of those
     * failed, fan out.
     */
    method Step()
      requires Valid()
      modifies this, socket, requests
      ensures Valid()
      ensures var a := Incoming(old(subscribers), old(publishers), old(socket.inbox));
              socket.inbox == a.rest && subscribers == a.subscribers && publishers == a.publishers &&
              socket.linkUp == old(socket.linkUp) &&
              (a.deliver ==>
                 requests == [] &&
                 socket.sent == old(socket.sent) +
                   (if old(socket.linkUp) then Wire(Deliveries(a.subscribers, old(FramesOf(requests)) + a.queued)) else [])) &&
              (!a.deliver ==> requests == old(requests) && socket.sent == old(socket.sent))
    {
      ghost var a := Incoming(subscribers, publishers, socket.inbox);
      ghost var pending := requests;
      ghost var before := FramesOf(requests);
      var deliver := true;
      if socket.inbox != [] {
        var msg := new Message.Default();
        deliver := HandleIncoming(msg);
        if deliver {
          assert FramesOf(pending) == before;
          if a.queued != [] {
            FramesOfConcat(pending, [msg]);
            assert FramesOf([msg]) == [msg.frames];
          } else {
            assert requests == pending;
          }
        }
      }
      assert deliver ==> FramesOf(requests) == before + a.queued;
      if deliver {
        DeliverAll();
      }
    }
  }
}
