/**
 * The message transport the core runs on, reduced to what the core observes:
 * a socket is either a ROUTER (it learns and needs peer identities) or a
 * DEALER (it carries a fixed routing identity), it has a log of the parts it
 * sent and a queue of the parts that reached it. Whether a send is accepted is
 * decided by the environment (`linkUp`); polling is "the inbox is non-empty".
 */
module Transport {
  import opened Bytes

  datatype SocketKind = Router | Dealer

  /** One message part on the wire with its "more parts follow" flag. */
  datatype Part = Part(data: seq<byte>, more: bool)

  class Socket {
    const kind: SocketKind
    /** The endpoint this socket is bound or connected to. */
    const endpoint: seq<byte>
    /** The `ZMQ_IDENTITY` option a DEALER presents to the ROUTER it talks to. */
    const routingId: seq<byte>
    /** Whether the transport currently accepts sends; a refused send raises an error. */
    var linkUp: bool
    var sent: seq<Part>
    var inbox: seq<Part>

    constructor (kind: SocketKind, endpoint: seq<byte>, routingId: seq<byte>, linkUp: bool)
      ensures this.kind == kind && this.endpoint == endpoint && this.routingId == routingId
      ensures this.linkUp == linkUp && sent == [] && inbox == []
    {
      this.kind := kind;
      this.endpoint := endpoint;
      this.routingId := routingId;
      this.linkUp := linkUp;
      sent := [];
      inbox := [];
    }

    /** `socket->send(part, flags)`: logged when the link accepts it. */
    method Transmit(p: Part) returns (ok: bool)
      modifies this
      ensures ok == linkUp && linkUp == old(linkUp) && inbox == old(inbox)
      ensures sent == if ok then old(sent) + [p] else old(sent)
    {
      ok := linkUp;
      if ok {
        sent := sent + [p];
      }
    }

    /** `socket->recv(&part)`: takes the oldest part that arrived, or fails when none did. */
    method Take() returns (ok: bool, p: Part)
      modifies this
      ensures ok == (old(inbox) != []) && sent == old(sent) && linkUp == old(linkUp)
      ensures ok ==> p == old(inbox)[0] && inbox == old(inbox)[1..]
      ensures !ok ==> inbox == old(inbox)
    {
      if inbox == [] {
        ok, p := false, Part([], false);
      } else {
        ok, p := true, inbox[0];
        inbox := inbox[1..];
      }
    }

    /** The environment delivers parts to this socket. */
    method Arrive(ps: seq<Part>)
      modifies this
      ensures inbox == old(inbox) + ps && sent == old(sent) && linkUp == old(linkUp)
    {
      inbox := inbox + ps;
    }
  }
}
