/**
 * The multipart frame codec of `message_array_t` (ZmqDialog/sources/DlgMessage.cc):
 * how a string or a binary buffer becomes a length-prefixed frame, how the list of
 * frames is updated, pushed and popped, and how a list of frames is laid out as
 * message parts on a socket and read back.
 */
module Frames {
  import opened Bytes
  import opened Transport

  /** One element of `m_data`: `[uint32 length][payload]`. */
  type Frame = seq<byte>

  function Zeros(k: nat): (z: seq<byte>)
    ensures |z| == k && forall i :: 0 <= i < k ==> z[i] == 0
  {
    seq(k, i => 0)
  }

  /**
   * The frame built from a C string: the length counts the terminator, and both
   * the length and the copied byte count are truncated to 32 bits as the source does.
   */
  function StrFrame(s: seq<byte>): Frame
  {
    var c := CString(s);
    var n := (|c| + 1) % U32_LIMIT;
    LE32(n) + (c + [0])[..n]
  }

  /**
   * The frame built from `size` bytes at `buf`: the prefix holds the size truncated
   * to 32 bits, only that many bytes are copied and the rest of the allocation stays zero.
   */
  function BinFrame(b: seq<byte>): Frame
  {
    var n := |b| % U32_LIMIT;
    LE32(n) + b[..n] + Zeros(|b| - n)
  }

  /** A string whose frame length does not wrap around. */
  predicate FitsStr(s: seq<byte>) {
    |CString(s)| + 1 < U32_LIMIT
  }

  /** Layout of a string frame: the 4-byte count strlen+1, the bytes, the terminator. */
  lemma StrFrameLayout(s: seq<byte>)
    requires FitsStr(s)
    ensures StrFrame(s) == LE32(|CString(s)| + 1) + CString(s) + [0]
    ensures |StrFrame(s)| == |CString(s)| + 5
  {
    var c := CString(s);
    var n := |c| + 1;
    assert n % U32_LIMIT == n;
    assert (c + [0])[..n] == c + [0];
    assert StrFrame(s) == LE32(n) + (c + [0]);
  }

  /** Layout of a binary frame: the 4-byte size followed by exactly the buffer. */
  lemma BinFrameLayout(b: seq<byte>)
    requires |b| < U32_LIMIT
    ensures BinFrame(b) == LE32(|b|) + b
  {
    assert b[..|b|] == b;
    assert Zeros(0) == [];
  }

  /** The declared length of a frame, when the frame is long enough to hold one. */
  function Declared(f: Frame): (d: u32)
    requires |f| >= 4
  {
    Word(f)
  }

  /** A frame whose declared length is exactly the number of payload bytes. */
  predicate WellSized(f: Frame) {
    |f| >= 4 && Declared(f) == |f| - 4
  }

  /** The payload of a well-sized frame, read as a string field (the getters of `DlgMessage`). */
  function DecodeStr(f: Frame): Option<seq<byte>>
  {
    if !WellSized(f) then None
    else if Declared(f) == 0 then Some([])
    else
      var c := CString(f[4..]);
      if |c| + 1 != Declared(f) then None else Some(c)
  }

  /** The payload of a well-sized frame, as a raw buffer. */
  function DecodeBuf(f: Frame): Option<seq<byte>>
  {
    if WellSized(f) then Some(f[4..]) else None
  }

  /** A 32-bit word frame: exactly 8 bytes, declared length 4. */
  function DecodeWord(f: Frame): Option<u32>
  {
    if |f| == 8 && Declared(f) == 4 then Some(Word(f[4..])) else None
  }

  datatype Option<T> = None | Some(value: T)

  /** Decoding a string frame gives back the C string it was built from. */
  lemma StrRoundTrip(s: seq<byte>)
    requires FitsStr(s)
    ensures DecodeStr(StrFrame(s)) == Some(CString(s))
  {
    var c := CString(s);
    var f := StrFrame(s);
    StrFrameLayout(s);
    WordOfLE32(|c| + 1);
    WordPrefix(LE32(|c| + 1), c + [0]);
    assert f == LE32(|c| + 1) + (c + [0]);
    assert f[4..] == c + [0] + [];
    CStringTerminated(c, []);
  }

  /**
   * The string decoder accepts exactly the frames the encoder produces, plus the
   * bare 4-byte frame of declared length 0, which reads as the empty string.
   */
  lemma StrDecodeExact(f: Frame, c: seq<byte>)
    ensures DecodeStr(f) == Some(c) <==>
              (f == StrFrame(c) && NulFree(c) && FitsStr(c)) || (f == LE32(0) && c == [])
  {
    if DecodeStr(f) == Some(c) {
      if Declared(f) == 0 {
        LE32OfWord(f[..4]);
        assert f == f[..4];
      } else {
        var d := Declared(f);
        var p := f[4..];
        assert c == CString(p) && |c| + 1 == d && |p| == d;
        assert p == c + [0];
        CStringFixed(c);
        assert FitsStr(c);
        StrFrameLayout(c);
        LE32OfWord(f[..4]);
        assert f == f[..4] + p;
      }
    }
    if f == StrFrame(c) && NulFree(c) && FitsStr(c) {
      CStringFixed(c);
      StrRoundTrip(c);
    }
    if f == LE32(0) && c == [] {
      WordOfLE32(0);
    }
  }

  /** Decoding a binary frame gives back the buffer, when its size fits 32 bits. */
  lemma BufRoundTrip(b: seq<byte>)
    requires |b| < U32_LIMIT
    ensures DecodeBuf(BinFrame(b)) == Some(b)
  {
    BinFrameLayout(b);
    WordOfLE32(|b|);
    WordPrefix(LE32(|b|), b);
    assert BinFrame(b)[4..] == b;
  }

  /** The buffer decoder accepts exactly the binary frames. */
  lemma BufDecodeExact(f: Frame, b: seq<byte>)
    ensures DecodeBuf(f) == Some(b) <==> f == BinFrame(b) && |b| < U32_LIMIT
  {
    if DecodeBuf(f) == Some(b) {
      LE32OfWord(f[..4]);
      BinFrameLayout(b);
      assert f == f[..4] + f[4..];
    }
    if f == BinFrame(b) && |b| < U32_LIMIT {
      BufRoundTrip(b);
    }
  }

  /** A word written as a 4-byte binary frame reads back, and only such frames read as words. */
  lemma WordRoundTrip(f: Frame, t: u32)
    ensures DecodeWord(f) == Some(t) <==> f == BinFrame(LE32(t))
  {
    BinFrameLayout(LE32(t));
    WordOfLE32(4);
    WordOfLE32(t);
    if DecodeWord(f) == Some(t) {
      LE32OfWord(f[..4]);
      LE32OfWord(f[4..]);
      assert f == f[..4] + f[4..];
    }
    if f == BinFrame(LE32(t)) {
      WordPrefix(LE32(4), LE32(t));
      assert f[4..] == LE32(t);
    }
  }

  // ---------------------------------------------------------------------------
  // Operations on the frame list `m_data`

  /**
   * `Update(idx, str)`: refused when idx is past the end; an index inside the list
   * replaces that frame; a negative index or the index one past the end appends.
   */
  function UpdateStr(fs: seq<Frame>, idx: int, s: seq<byte>): Option<seq<Frame>>
  {
    if idx > |fs| then None
    else if 0 <= idx < |fs| then Some(fs[idx := StrFrame(s)])
    else Some(fs + [StrFrame(s)])
  }

  /**
   * `Update(idx, buf, size)`: refused from the last index on (so it never appends at
   * the index one past the end); only a negative index appends.
   */
  function UpdateBin(fs: seq<Frame>, idx: int, b: seq<byte>): Option<seq<Frame>>
  {
    if idx >= |fs| then None
    else if 0 <= idx then Some(fs[idx := BinFrame(b)])
    else Some(fs + [BinFrame(b)])
  }

  /** The string variant of Update: when it fails, where it writes, and what it keeps. */
  lemma UpdateStrCases(fs: seq<Frame>, idx: int, s: seq<byte>)
    ensures UpdateStr(fs, idx, s).None? <==> idx > |fs|
    ensures 0 <= idx < |fs| ==>
              var r := UpdateStr(fs, idx, s).value;
              |r| == |fs| && r[idx] == StrFrame(s) &&
              forall j :: 0 <= j < |fs| && j != idx ==> r[j] == fs[j]
    ensures idx < 0 || idx == |fs| ==> UpdateStr(fs, idx, s) == Some(fs + [StrFrame(s)])
  {
  }

  /** The binary variant of Update: it rejects idx == count, so it appends only for a negative index. */
  lemma UpdateBinCases(fs: seq<Frame>, idx: int, b: seq<byte>)
    ensures UpdateBin(fs, idx, b).None? <==> idx >= |fs|
    ensures 0 <= idx < |fs| ==>
              var r := UpdateBin(fs, idx, b).value;
              |r| == |fs| && r[idx] == BinFrame(b) &&
              forall j :: 0 <= j < |fs| && j != idx ==> r[j] == fs[j]
    ensures idx < 0 ==> UpdateBin(fs, idx, b) == Some(fs + [BinFrame(b)])
  {
  }

  /** The result of `PopFront(std::string&)`: the list without its front, and the text when it validated. */
  datatype StrPop = StrPop(ok: bool, rest: seq<Frame>, text: seq<byte>)

  /**
   * `PopFront(str)`: fails on an empty list without change; otherwise the front frame is
   * removed even when it then fails the size checks. The text is read as a C string.
   */
  function PopStr(fs: seq<Frame>): StrPop
  {
    if fs == [] then StrPop(false, fs, [])
    else if !WellSized(fs[0]) then StrPop(false, fs[1..], [])
    else StrPop(true, fs[1..], CString(fs[0][4..]))
  }

  /** Pushing a string to the front and popping it gives the string and the old list back. */
  lemma PushPopStr(fs: seq<Frame>, s: seq<byte>)
    requires FitsStr(s)
    ensures PopStr([StrFrame(s)] + fs) == StrPop(true, fs, CString(s))
  {
    StrRoundTrip(s);
    var c := CString(s);
    StrFrameLayout(s);
    assert StrFrame(s)[4..] == c + [0] + [];
    CStringTerminated(c, []);
    assert ([StrFrame(s)] + fs)[1..] == fs;
  }

  /** A pop on an empty list changes nothing; otherwise exactly the front frame goes. */
  lemma PopStrRemovesFront(fs: seq<Frame>)
    ensures fs == [] ==> PopStr(fs) == StrPop(false, [], [])
    ensures fs != [] ==> PopStr(fs).rest == fs[1..] && |PopStr(fs).rest| == |fs| - 1
  {
  }

  /** The result of `PopFront(void* buf, size_t& size)`. */
  datatype BufPop = BufPop(ok: bool, rest: seq<Frame>, size: nat, copied: seq<byte>)

  /**
   * `PopFront(buf, size)` exactly as written: after the 4-byte check it compares the
   * declared length only with the caller's capacity, never with the bytes the frame
   * holds, and copies `declared` bytes. `copied` holds the bytes that exist; when
   * `size` exceeds `|copied|` the source reads past the end of the frame.
   */
  function PopBufAsWritten(fs: seq<Frame>, size: nat): BufPop
  {
    if fs == [] then BufPop(false, fs, size, [])
    else if |fs[0]| < 4 then BufPop(false, fs[1..], size, [])
    else
      var u := Declared(fs[0]);
      if u > size then BufPop(false, fs[1..], u, [])
      else
        var p := fs[0][4..];
        BufPop(true, fs[1..], u, if u <= |p| then p[..u] else p)
  }

  /** A frame that declares more bytes than it holds is accepted and over-read. */
  lemma PopBufOverRead()
    ensures var r := PopBufAsWritten([LE32(8) + [7]], 8);
            r.ok && r.size == 8 && |r.copied| == 1
  {
    WordOfLE32(8);
    WordPrefix(LE32(8), [7]);
  }

  /**
   * `PopFront(buf, size)` with the declared length checked against the payload, as
   * the string variant and every field getter do. When capacity is too small the
   * required size is reported.
   */
  function PopBuf(fs: seq<Frame>, size: nat): BufPop
  {
    if fs == [] then BufPop(false, fs, size, [])
    else if !WellSized(fs[0]) then BufPop(false, fs[1..], size, [])
    else
      var u := Declared(fs[0]);
      if u > size then BufPop(false, fs[1..], u, [])
      else BufPop(true, fs[1..], u, fs[0][4..])
  }

  /** A successful buffer pop copies exactly `size` bytes, all from the frame; a too-small capacity learns the size. */
  lemma PopBufExact(fs: seq<Frame>, size: nat)
    ensures var r := PopBuf(fs, size);
            (r.ok ==> |r.copied| == r.size <= size && [LE32(r.size) + r.copied] + r.rest == fs) &&
            (fs != [] && WellSized(fs[0]) && Declared(fs[0]) > size ==> !r.ok && r.size == Declared(fs[0]))
  {
    var r := PopBuf(fs, size);
    if r.ok {
      LE32OfWord(fs[0][..4]);
      assert fs[0] == fs[0][..4] + fs[0][4..];
      assert fs == [fs[0]] + fs[1..];
    }
  }

  /**
   * Pushing a buffer to the front and popping it with enough capacity gives it back,
   * from the pop as written as well as from the corrected one.
   */
  lemma PushPopBuf(fs: seq<Frame>, b: seq<byte>, size: nat)
    requires |b| <= size && |b| < U32_LIMIT
    ensures PopBuf([BinFrame(b)] + fs, size) == BufPop(true, fs, |b|, b)
    ensures PopBufAsWritten([BinFrame(b)] + fs, size) == BufPop(true, fs, |b|, b)
  {
    BufRoundTrip(b);
    assert ([BinFrame(b)] + fs)[1..] == fs;
    assert BinFrame(b)[4..][..|b|] == BinFrame(b)[4..];
  }

  /** The pop as written and the corrected pop differ only on a front frame that is not well sized. */
  lemma PopBufAgrees(fs: seq<Frame>, size: nat)
    requires fs == [] || WellSized(fs[0])
    ensures PopBufAsWritten(fs, size) == PopBuf(fs, size)
  {
    if fs != [] {
      assert fs[0][4..][..|fs[0][4..]|] == fs[0][4..];
    }
  }

  // ---------------------------------------------------------------------------
  // Multipart framing on a socket (`Send` / `Recv`)

  /** Every frame in order, with the "more" flag on all but the last. */
  function FramesToParts(fs: seq<Frame>): (ps: seq<Part>)
    ensures |ps| == |fs|
  {
    seq(|fs|, i requires 0 <= i < |fs| => Part(fs[i], i < |fs| - 1))
  }

  /** What `Send` puts on a socket of the given kind: the identity part first on a ROUTER. */
  function Outgoing(kind: SocketKind, identity: seq<byte>, fs: seq<Frame>): seq<Part>
  {
    (if kind == Router then [Part(identity, true)] else []) + FramesToParts(fs)
  }

  /** Frames read until a part without the "more" flag; `complete` is false when the parts ran out first. */
  datatype Taken = Taken(frames: seq<Frame>, used: nat, complete: bool)

  function TakeFrames(parts: seq<Part>): (t: Taken)
    ensures t.used == |t.frames| <= |parts|
    ensures forall i :: 0 <= i < t.used ==> t.frames[i] == parts[i].data
    ensures t.complete ==> t.used > 0 && !parts[t.used - 1].more
    ensures !t.complete ==> t.used == |parts|
  {
    if parts == [] then Taken([], 0, false)
    else if !parts[0].more then Taken([parts[0].data], 1, true)
    else
      var t := TakeFrames(parts[1..]);
      Taken([parts[0].data] + t.frames, t.used + 1, t.complete)
  }

  /** What one `Recv` makes of the parts waiting on a socket. */
  /**
   * Frame reading is determined by the parts' flags: `fs` is what is read from `ps`
   * exactly when it holds their payloads in order and either ends at the first part
   * without "more" (`complete`) or takes every part, all flagged "more".
   */
  lemma {:induction false} TakeFramesUnique(ps: seq<Part>, fs: seq<Frame>, complete: bool)
    requires |fs| <= |ps| && forall i :: 0 <= i < |fs| ==> fs[i] == ps[i].data
    requires complete ==> |fs| > 0 && !ps[|fs| - 1].more && forall i :: 0 <= i < |fs| - 1 ==> ps[i].more
    requires !complete ==> |fs| == |ps| && forall i :: 0 <= i < |fs| ==> ps[i].more
    ensures TakeFrames(ps) == Taken(fs, |fs|, complete)
  {
    if ps == [] {
    } else if !ps[0].more {
      assert fs == [ps[0].data];
    } else {
      assert |fs| > 0;
      TakeFramesUnique(ps[1..], fs[1..], complete);
      assert [fs[0]] + fs[1..] == fs;
    }
  }

  datatype Received = Received(ok: bool, identity: seq<byte>, frames: seq<Frame>, rest: seq<Part>)

  /**
   * `Recv`: on a ROUTER the first part is the sender's identity; then frames are read up
   * to and including one without the "more" flag. `ok` is false when the parts run out.
   */
  function Receive(kind: SocketKind, inbox: seq<Part>): Received
  {
    if kind == Router then
      if inbox == [] then Received(false, [], [], [])
      else
        var t := TakeFrames(inbox[1..]);
        Received(t.complete, inbox[0].data, t.frames, inbox[1..][t.used..])
    else
      var t := TakeFrames(inbox);
      Received(t.complete, [], t.frames, inbox[t.used..])
  }

  /** Reading back a non-empty list of frames that was framed as parts yields exactly that list. */
  lemma {:induction false} TakeFramesOfParts(fs: seq<Frame>, rest: seq<Part>)
    requires fs != []
    ensures TakeFrames(FramesToParts(fs) + rest) == Taken(fs, |fs|, true)
  {
    var ps := FramesToParts(fs) + rest;
    if |fs| == 1 {
      assert ps[0] == Part(fs[0], false);
      assert [fs[0]] == fs;
    } else {
      assert ps[0] == Part(fs[0], true);
      assert FramesToParts(fs)[1..] == FramesToParts(fs[1..]);
      assert ps[1..] == FramesToParts(fs[1..]) + rest;
      TakeFramesOfParts(fs[1..], rest);
      assert [fs[0]] + fs[1..] == fs;
    }
  }

  /**
   * The framing round trip: what a socket of one kind sends with `Send` is received by
   * `Recv` as the same frames, and a ROUTER learns the identity its peer presented.
   */
  lemma SendRecvRoundTrip(fs: seq<Frame>, identity: seq<byte>, rest: seq<Part>)
    requires fs != []
    ensures Receive(Dealer, FramesToParts(fs) + rest) == Received(true, [], fs, rest)
    ensures Receive(Router, [Part(identity, true)] + FramesToParts(fs) + rest) ==
              Received(true, identity, fs, rest)
  {
    TakeFramesOfParts(fs, rest);
    var ps := FramesToParts(fs) + rest;
    assert ps[|fs|..] == rest;
    var rp := [Part(identity, true)] + FramesToParts(fs) + rest;
    assert rp[1..] == ps;
  }
}
