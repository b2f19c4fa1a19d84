/**
 * A message object (`message_array_t` with its `DlgMessage` envelope layer): the frame
 * list `m_data` and the out-of-band identity `m_identity`, both updated in place.
 * The field getters are the functions of module Envelope applied to `frames`.
 */
module Messages {
  import opened Bytes
  import opened Transport
  import opened Frames
  import opened Envelope

  /** The send loop of `Send`: each part in order; a refused part ends the call with failure. */
  method SendParts(sock: Socket, parts: seq<Part>) returns (ok: bool)
    modifies sock
    ensures ok == (old(sock.linkUp) || parts == [])
    ensures sock.sent == old(sock.sent) + (if ok then parts else [])
    ensures sock.inbox == old(sock.inbox) && sock.linkUp == old(sock.linkUp)
  {
    var i := 0;
    while i < |parts|
      invariant 0 <= i <= |parts|
      invariant sock.linkUp == old(sock.linkUp) && sock.inbox == old(sock.inbox)
      invariant sock.sent == old(sock.sent) + parts[..i]
      invariant i > 0 ==> sock.linkUp
    {
      var sentOk := sock.Transmit(parts[i]);
      if !sentOk {
        return false;
      }
      assert parts[..i + 1] == parts[..i] + [parts[i]];
      i := i + 1;
    }
    assert parts[..|parts|] == parts;
    ok := true;
  }

  /**
   * The frame loop of `Recv`: parts are taken and kept as frames until one comes
   * without the "more" flag; when the parts run out the frames read so far are kept.
   */
  method ReadFrames(sock: Socket) returns (ok: bool, fs: seq<Frame>)
    modifies sock
    ensures var t := TakeFrames(old(sock.inbox));
            ok == t.complete && fs == t.frames && sock.inbox == old(sock.inbox)[t.used..]
    ensures sock.sent == old(sock.sent) && sock.linkUp == old(sock.linkUp)
  {
    ghost var start := sock.inbox;
    fs := [];
    var more := true;
    while more
      invariant |fs| <= |start| && sock.inbox == start[|fs|..]
      invariant forall i :: 0 <= i < |fs| ==> fs[i] == start[i].data
      invariant forall i :: 0 <= i < |fs| - 1 ==> start[i].more
      invariant more ==> |fs| == 0 || start[|fs| - 1].more
      invariant !more ==> |fs| > 0 && !start[|fs| - 1].more
      invariant sock.sent == old(sock.sent) && sock.linkUp == old(sock.linkUp)
      decreases |sock.inbox|
    {
      var got, p := sock.Take();
      if !got {
        TakeFramesUnique(start, fs, false);
        return false, fs;
      }
      fs := fs + [p.data];
      more := p.more;
    }
    TakeFramesUnique(start, fs, true);
    ok := true;
  }

  class Message {
    /** `m_data`: the frames, each `[uint32 length][payload]`. */
    var frames: seq<Frame>
    /** `m_identity`: the routing identity used by ROUTER sockets. */
    var identity: seq<byte>

    /** `message_array_t()`: no frames. */
    constructor Empty()
      ensures frames == [] && identity == []
    {
      frames := [];
      identity := [];
    }

    /** `message_array_t(const char*)`: one string frame. */
    constructor FromString(s: seq<byte>)
      ensures frames == [StrFrame(s)] && identity == []
    {
      frames := [StrFrame(s)];
      identity := [];
    }

    /** The copy constructor copies the frames only; the identity starts empty. */
    constructor Copy(other: Message)
      ensures frames == other.frames && identity == []
    {
      frames := other.frames;
      identity := [];
    }

    /** `DlgMessage()`: empty service, from, to and body, type EMPTY_MESSAGE. */
    constructor Default()
      ensures frames == DefaultFrames() && |frames| == N_FIELDS && identity == []
    {
      frames := [];
      identity := [];
      new;
      PushBack([]);
      PushBack([]);
      PushBack([]);
      PushBackBuf(LE32(EMPTY_MESSAGE));
      PushBack([]);
    }

    /** `DlgMessage(name, from, to, msgType, body)`: the five fields pushed back in order. */
    constructor (name: seq<byte>, from: seq<byte>, to: seq<byte>, msgType: u32, body: seq<byte>)
      ensures frames == EnvelopeFrames(name, from, to, msgType, body) && |frames| == N_FIELDS
      ensures identity == []
    {
      frames := [];
      identity := [];
      new;
      PushBack(name);
      PushBack(from);
      PushBack(to);
      PushBackBuf(LE32(msgType));
      PushBack(body);
    }

    /** `GetNParts`. */
    function NParts(): nat
      reads this
    {
      |frames|
    }

    /** `Clear`: drops every frame and keeps the identity. */
    method Clear()
      modifies this
      ensures frames == [] && identity == old(identity)
    {
      frames := [];
    }

    /** `Update(idx, str)`. */
    method Update(idx: int, s: seq<byte>) returns (ok: bool)
      modifies this
      ensures ok == (idx <= |old(frames)|) && ok == UpdateStr(old(frames), idx, s).Some?
      ensures frames == if ok then UpdateStr(old(frames), idx, s).value else old(frames)
      ensures identity == old(identity)
    {
      if idx > |frames| {
        return false;
      }
      var f := StrFrame(s);
      if 0 <= idx < |frames| {
        frames := frames[idx := f];
      } else {
        frames := frames + [f];
      }
      ok := true;
    }

    /** `Update(idx, buf, size)`. */
    method UpdateBuf(idx: int, b: seq<byte>) returns (ok: bool)
      modifies this
      ensures ok == (idx < |old(frames)|) && ok == UpdateBin(old(frames), idx, b).Some?
      ensures frames == if ok then UpdateBin(old(frames), idx, b).value else old(frames)
      ensures identity == old(identity)
    {
      if idx >= |frames| {
        return false;
      }
      var f := BinFrame(b);
      if 0 <= idx {
        frames := frames[idx := f];
      } else {
        frames := frames + [f];
      }
      ok := true;
    }

    /** `PushFront(str)`: the new frame goes to index 0 and the others shift by one. */
    method PushFront(s: seq<byte>)
      modifies this
      ensures frames == [StrFrame(s)] + old(frames) && identity == old(identity)
    {
      frames := [StrFrame(s)] + frames;
    }

    /** `PushFront(buf, size)`. */
    method PushFrontBuf(b: seq<byte>)
      modifies this
      ensures frames == [BinFrame(b)] + old(frames) && identity == old(identity)
    {
      frames := [BinFrame(b)] + frames;
    }

    /** `PushBack(str)`, which is `Update(-1, str)`. */
    method PushBack(s: seq<byte>)
      modifies this
      ensures frames == old(frames) + [StrFrame(s)] && identity == old(identity)
    {
      var _ := Update(-1, s);
    }

    /** `PushBack(buf, size)`, which is `Update(-1, buf, size)`. */
    method PushBackBuf(b: seq<byte>)
      modifies this
      ensures frames == old(frames) + [BinFrame(b)] && identity == old(identity)
    {
      var _ := UpdateBuf(-1, b);
    }

    /** `PopFront(std::string&)`. */
    method PopFront() returns (ok: bool, text: seq<byte>)
      modifies this
      ensures var r := PopStr(old(frames));
              ok == r.ok && frames == r.rest && (ok ==> text == r.text)
      ensures old(frames) == [] ==> !ok && frames == old(frames)
      ensures identity == old(identity)
    {
      if frames == [] {
        return false, [];
      }
      var f := frames[0];
      frames := frames[1..];
      if !WellSized(f) {
        return false, [];
      }
      ok, text := true, CString(f[4..]);
    }

    /**
     * `PopFront(buf, size)` as written: after the 4-byte check the declared length is
     * compared only with the capacity `size`, never with the bytes the frame holds
     * (see Frames.PopBufAsWritten and Frames.PopBufOverRead). `size` is the capacity of
     * `buf` on entry and `newSize` its value on return; `copied` holds the bytes of
     * the frame that the copy reads.
     */
    method PopFrontBuf(size: nat) returns (ok: bool, newSize: nat, copied: seq<byte>)
      modifies this
      ensures var r := PopBufAsWritten(old(frames), size);
              ok == r.ok && frames == r.rest && newSize == r.size && (ok ==> copied == r.copied)
      ensures identity == old(identity)
    {
      if frames == [] {
        return false, size, [];
      }
      var f := frames[0];
      frames := frames[1..];
      if |f| < 4 {
        return false, size, [];
      }
      var u := Declared(f);
      if u > size {
        return false, u, [];
      }
      var p := f[4..];
      ok, newSize := true, u;
      copied := if u <= |p| then p[..u] else p;
    }

    /**
     * `Send`: no socket fails; a ROUTER needs an identity and sends it first with the
     * "more" flag; then every frame in order, "more" on all but the last. A send the
     * transport refuses makes the whole call fail.
     */
    method Send(sock: Socket?) returns (ok: bool)
      modifies sock
      ensures sock == null ==> !ok
      ensures sock != null ==>
                var out := Outgoing(sock.kind, identity, frames);
                ok == (!(sock.kind == Router && identity == []) && (old(sock.linkUp) || out == [])) &&
                sock.sent == old(sock.sent) + (if ok then out else []) &&
                sock.inbox == old(sock.inbox) && sock.linkUp == old(sock.linkUp)
    {
      if sock == null {
        return false;
      }
      if sock.kind == Router && identity == [] {
        return false;
      }
      ok := SendParts(sock, Outgoing(sock.kind, identity, frames));
    }

    /**
     * `Recv`: no socket fails without change. Otherwise the frames are cleared, on a
     * ROUTER the first part is appended to the identity (which is never cleared), and
     * the frame loop runs.
     */
    method Recv(sock: Socket?) returns (ok: bool)
      modifies this, sock
      ensures sock == null ==> !ok && frames == old(frames) && identity == old(identity)
      ensures sock != null ==>
                var r := Receive(sock.kind, old(sock.inbox));
                ok == r.ok && frames == r.frames && sock.inbox == r.rest &&
                identity == old(identity) + r.identity &&
                sock.sent == old(sock.sent) && sock.linkUp == old(sock.linkUp)
    {
      if sock == null {
        return false;
      }
      Clear();
      if sock.kind == Router {
        var got, p := sock.Take();
        if !got {
          return false;
        }
        identity := identity + p.data;
      }
      ok, frames := ReadFrames(sock);
    }

    /** `SetIdentity`: stores the string with its terminator. */
    method SetIdentity(s: seq<byte>) returns (ok: bool)
      modifies this
      ensures ok && identity == s + [0] && frames == old(frames)
    {
      identity := s + [0];
      ok := true;
    }

    /** `SetServiceName`: `Update(0, name)`; it cannot fail, and appends on an empty list. */
    method SetServiceName(name: seq<byte>) returns (ok: bool)
      modifies this
      ensures ok && frames == UpdateStr(old(frames), SERVICE_FIELD, name).value
      ensures identity == old(identity)
    {
      ok := Update(SERVICE_FIELD, name);
    }

    /** `SetFromAddress`: `Update(1, address)`. */
    method SetFromAddress(address: seq<byte>) returns (ok: bool)
      modifies this
      ensures ok == UpdateStr(old(frames), FROM_FIELD, address).Some?
      ensures frames == if ok then UpdateStr(old(frames), FROM_FIELD, address).value else old(frames)
      ensures identity == old(identity)
    {
      ok := Update(FROM_FIELD, address);
    }

    /** `SetToAddress`: `Update(2, address)`. */
    method SetToAddress(address: seq<byte>) returns (ok: bool)
      modifies this
      ensures ok == UpdateStr(old(frames), TO_FIELD, address).Some?
      ensures frames == if ok then UpdateStr(old(frames), TO_FIELD, address).value else old(frames)
      ensures identity == old(identity)
    {
      ok := Update(TO_FIELD, address);
    }

    /** `SetMessageType`: the binary `Update(3, &t, 4)`. */
    method SetMessageType(t: u32) returns (ok: bool)
      modifies this
      ensures ok == UpdateBin(old(frames), TYPE_FIELD, LE32(t)).Some?
      ensures frames == if ok then UpdateBin(old(frames), TYPE_FIELD, LE32(t)).value else old(frames)
      ensures identity == old(identity)
    {
      ok := UpdateBuf(TYPE_FIELD, LE32(t));
    }

    /** `SetMessageBody`: `Update(4, body)`. */
    method SetMessageBody(body: seq<byte>) returns (ok: bool)
      modifies this
      ensures ok == UpdateStr(old(frames), BODY_FIELD, body).Some?
      ensures frames == if ok then UpdateStr(old(frames), BODY_FIELD, body).value else old(frames)
      ensures identity == old(identity)
    {
      ok := Update(BODY_FIELD, body);
    }

    /** `SetMessageBuffer`: the binary `Update(4, buf, size)`. */
    method SetMessageBuffer(b: seq<byte>) returns (ok: bool)
      modifies this
      ensures ok == UpdateBin(old(frames), BODY_FIELD, b).Some?
      ensures frames == if ok then UpdateBin(old(frames), BODY_FIELD, b).value else old(frames)
      ensures identity == old(identity)
    {
      ok := UpdateBuf(BODY_FIELD, b);
    }
  }
}
