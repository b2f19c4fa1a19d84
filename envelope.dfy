/**
 * The 5-field envelope of `DlgMessage` (ZmqDialog/sources/DlgMessage.cc,
 * ZmqDialog/include/DlgMessage.h): service, from, to, type, body. The getters only
 * read the frame list and validate it, so they are functions of it here.
 */
module Envelope {
  import opened Bytes
  import opened Frames

  /** Accessors require at least this many frames. */
  const N_FIELDS: nat := 5

  const SERVICE_FIELD: nat := 0
  const FROM_FIELD: nat := 1
  const TO_FIELD: nat := 2
  const TYPE_FIELD: nat := 3
  const BODY_FIELD: nat := 4

  const EMPTY_MESSAGE: u32 := 0
  const PUBLISH_TEXT_MESSAGE: u32 := 1
  const PUBLISH_BINARY_MESSAGE: u32 := 2
  /**
   * The two protocol codes are defined in a header that is not part of this model;
   * the values follow the order of the message-type enumeration of the design, and
   * nothing below depends on them beyond their being distinct from the three above
   * and from each other (see TypeCodesDistinct).
   */
  const SUBSCRIBE_TO_SERVICE: u32 := 3
  const REGISTER_PUBLISHER: u32 := 4

  lemma TypeCodesDistinct()
    ensures |{EMPTY_MESSAGE, PUBLISH_TEXT_MESSAGE, PUBLISH_BINARY_MESSAGE, SUBSCRIBE_TO_SERVICE, REGISTER_PUBLISHER}| == 5
  {
  }

  /** "DlgServer", the from-address of registry replies. */
  const SERVER_NAME: seq<byte> := Ascii("DlgServer")

  /** The frames the 5-argument constructor pushes back, in field order. */
  function EnvelopeFrames(name: seq<byte>, from: seq<byte>, to: seq<byte>, msgType: u32, body: seq<byte>): seq<Frame>
  {
    [StrFrame(name), StrFrame(from), StrFrame(to), BinFrame(LE32(msgType)), StrFrame(body)]
  }

  /** The frames of a default-constructed envelope. */
  function DefaultFrames(): seq<Frame>
  {
    EnvelopeFrames([], [], [], EMPTY_MESSAGE, [])
  }

  /** A string field: at least N_FIELDS frames, and the field's frame decodes as a string. */
  function StrField(fs: seq<Frame>, idx: nat): Option<seq<byte>>
    requires idx < N_FIELDS
  {
    if |fs| < N_FIELDS then None else DecodeStr(fs[idx])
  }

  function ServiceName(fs: seq<Frame>): Option<seq<byte>> { StrField(fs, SERVICE_FIELD) }
  function FromAddress(fs: seq<Frame>): Option<seq<byte>> { StrField(fs, FROM_FIELD) }
  function ToAddress(fs: seq<Frame>): Option<seq<byte>> { StrField(fs, TO_FIELD) }
  function MessageBody(fs: seq<Frame>): Option<seq<byte>> { StrField(fs, BODY_FIELD) }

  /** `GetMessageType`: at least N_FIELDS frames and frame 3 is an 8-byte word frame of declared length 4. */
  function MessageType(fs: seq<Frame>): Option<u32>
  {
    if |fs| < N_FIELDS then None else DecodeWord(fs[TYPE_FIELD])
  }

  /** `GetIdentity`: the stored identity read as a C string. */
  function Identity(raw: seq<byte>): seq<byte>
  {
    CString(raw)
  }

  /** The outcome of `GetMessageBuffer(buf, size)`: verdict, new `size`, bytes copied into `buf` if any. */
  datatype Probe = Probe(ok: bool, size: nat, copied: Option<seq<byte>>)

  /**
   * `GetMessageBuffer(buf, size)`. After the frame-count and size checks: a zero
   * capacity is a size probe (true, size set, nothing copied); a capacity below the
   * declared length fails and reports it; a null buffer fails; otherwise the declared
   * bytes are copied.
   */
  function MessageBuffer(fs: seq<Frame>, size: nat, hasBuf: bool): Probe
  {
    if |fs| < N_FIELDS then Probe(false, size, None)
    else match DecodeBuf(fs[BODY_FIELD])
      case None => Probe(false, size, None)
      case Some(p) =>
        if size == 0 then Probe(true, |p|, None)
        else if |p| > size then Probe(false, |p|, None)
        else if !hasBuf then Probe(false, size, None)
        else Probe(true, |p|, Some(p))
  }

  // ---------------------------------------------------------------------------

  /** Both constructors give 5 frames; the default one holds empty strings (length 1, one NUL) and type EMPTY_MESSAGE. */
  lemma DefaultLayout()
    ensures |DefaultFrames()| == N_FIELDS
    ensures forall i :: i in {0, 1, 2, 4} ==> DefaultFrames()[i] == [1, 0, 0, 0, 0]
    ensures DefaultFrames()[TYPE_FIELD] == [4, 0, 0, 0, 0, 0, 0, 0]
    ensures MessageType(DefaultFrames()) == Some(EMPTY_MESSAGE)
    ensures ServiceName(DefaultFrames()) == Some([]) && MessageBody(DefaultFrames()) == Some([])
  {
    StrFrameLayout([]);
    BinFrameLayout(LE32(0));
    WordRoundTrip(BinFrame(LE32(0)), 0);
    StrRoundTrip([]);
  }

  /**
   * An envelope built from its five fields reads them all back: each string field as
   * the C string it was given, the type as given, and the body also as a raw buffer
   * that includes the terminator.
   */
  lemma EnvelopeReadBack(name: seq<byte>, from: seq<byte>, to: seq<byte>, msgType: u32, body: seq<byte>)
    requires FitsStr(name) && FitsStr(from) && FitsStr(to) && FitsStr(body)
    ensures var fs := EnvelopeFrames(name, from, to, msgType, body);
            |fs| == N_FIELDS &&
            ServiceName(fs) == Some(CString(name)) &&
            FromAddress(fs) == Some(CString(from)) &&
            ToAddress(fs) == Some(CString(to)) &&
            MessageType(fs) == Some(msgType) &&
            MessageBody(fs) == Some(CString(body)) &&
            MessageBuffer(fs, 0, false) == Probe(true, |CString(body)| + 1, None)
  {
    StrRoundTrip(name);
    StrRoundTrip(from);
    StrRoundTrip(to);
    StrRoundTrip(body);
    WordRoundTrip(BinFrame(LE32(msgType)), msgType);
    StrFrameLayout(body);
    WordOfLE32(|CString(body)| + 1);
    WordPrefix(LE32(|CString(body)| + 1), CString(body) + [0]);
  }

  /** A string getter succeeds exactly on a string frame of a NUL-free value, or on the bare zero-length frame. */
  lemma StrFieldExact(fs: seq<Frame>, idx: nat, c: seq<byte>)
    requires idx < N_FIELDS
    ensures StrField(fs, idx) == Some(c) <==>
              |fs| >= N_FIELDS &&
              ((fs[idx] == StrFrame(c) && NulFree(c) && FitsStr(c)) || (fs[idx] == LE32(0) && c == []))
  {
    if |fs| >= N_FIELDS {
      StrDecodeExact(fs[idx], c);
    }
  }

  /**
   * The string getters fail on fewer than N_FIELDS frames, on a frame shorter than its
   * prefix, on a declared length that differs from the payload, and on a payload whose
   * first NUL is not its last byte.
   */
  lemma StrFieldRejects(fs: seq<Frame>, idx: nat)
    requires idx < N_FIELDS
    ensures |fs| < N_FIELDS ==> StrField(fs, idx) == None
    ensures |fs| >= N_FIELDS && !WellSized(fs[idx]) ==> StrField(fs, idx) == None
    ensures (|fs| >= N_FIELDS && WellSized(fs[idx]) && Declared(fs[idx]) > 0 &&
             exists k :: 4 <= k < |fs[idx]| - 1 && fs[idx][k] == 0) ==> StrField(fs, idx) == None
    ensures (|fs| >= N_FIELDS && WellSized(fs[idx]) && Declared(fs[idx]) > 0 &&
             fs[idx][|fs[idx]| - 1] != 0) ==> StrField(fs, idx) == None
  {
    if |fs| >= N_FIELDS && WellSized(fs[idx]) && Declared(fs[idx]) > 0 {
      var f := fs[idx];
      var p := f[4..];
      var c := CString(p);
      if exists k :: 4 <= k < |f| - 1 && f[k] == 0 {
        var k :| 4 <= k < |f| - 1 && f[k] == 0;
        assert p[k - 4] == 0;
        assert |c| <= k - 4;
      }
      if f[|f| - 1] != 0 {
        assert p[|p| - 1] != 0;
      }
    }
  }

  /** `GetMessageType` succeeds exactly when there are N_FIELDS frames and frame 3 is the 8-byte frame of a word. */
  lemma MessageTypeExact(fs: seq<Frame>, t: u32)
    ensures MessageType(fs) == Some(t) <==> |fs| >= N_FIELDS && fs[TYPE_FIELD] == BinFrame(LE32(t))
  {
    if |fs| >= N_FIELDS {
      WordRoundTrip(fs[TYPE_FIELD], t);
    }
  }

  /**
   * Setting a string field with `Update(idx, str)` and reading it back yields the
   * C string that was set, while every other field's frame is unchanged. The body
   * setter also succeeds on a 4-frame list, where it appends the fifth frame.
   */
  lemma SetStrFieldThenGet(fs: seq<Frame>, idx: nat, s: seq<byte>)
    requires idx in {SERVICE_FIELD, FROM_FIELD, TO_FIELD, BODY_FIELD}
    requires |fs| >= N_FIELDS || (idx == BODY_FIELD && |fs| == N_FIELDS - 1)
    requires FitsStr(s)
    ensures UpdateStr(fs, idx, s).Some?
    ensures var r := UpdateStr(fs, idx, s).value;
            |r| == (if |fs| >= N_FIELDS then |fs| else N_FIELDS) &&
            StrField(r, idx) == Some(CString(s)) &&
            forall j :: 0 <= j < N_FIELDS && j != idx ==> r[j] == fs[j]
  {
    StrRoundTrip(s);
  }

  /** `SetMessageType(t)` followed by `GetMessageType` yields t, and touches no other field. */
  lemma SetTypeThenGet(fs: seq<Frame>, t: u32)
    requires |fs| >= N_FIELDS
    ensures UpdateBin(fs, TYPE_FIELD, LE32(t)).Some?
    ensures var r := UpdateBin(fs, TYPE_FIELD, LE32(t)).value;
            |r| == |fs| && MessageType(r) == Some(t) &&
            forall j :: 0 <= j < |fs| && j != TYPE_FIELD ==> r[j] == fs[j]
  {
    WordRoundTrip(BinFrame(LE32(t)), t);
  }

  /** `SetMessageType` fails on fewer than 4 frames, since the binary Update refuses index 3 there. */
  lemma SetTypeNeedsFourFrames(fs: seq<Frame>, t: u32)
    ensures UpdateBin(fs, TYPE_FIELD, LE32(t)).None? <==> |fs| <= TYPE_FIELD
  {
  }

  /** `SetIdentity(s)` stores s with its terminator; `GetIdentity` then yields s when s holds no NUL. */
  lemma IdentityRoundTrip(s: seq<byte>)
    ensures Identity(s + [0]) == CString(s)
    ensures NulFree(s) ==> Identity(s + [0]) == s
  {
    var c := CString(s);
    if |c| < |s| {
      assert (s + [0])[..|c|] == c;
      assert (s + [0])[|c|] == 0;
      CStringPrefix(s + [0], c);
    } else {
      assert s == c;
      CStringTerminated(c, []);
      assert s + [0] == c + [0] + [];
    }
    CStringFixed(s);
  }

  /** A C-string read is determined by its prefix up to and including the first NUL. */
  lemma {:induction false} CStringPrefix(s: seq<byte>, c: seq<byte>)
    requires NulFree(c) && |c| < |s| && s[..|c|] == c && s[|c|] == 0
    ensures CString(s) == c
  {
    if c != [] {
      assert s[1..][..|c| - 1] == c[1..];
      CStringPrefix(s[1..], c[1..]);
    }
  }

  /**
   * The two-call size probe of `GetMessageBuffer`: a zero capacity reports the true
   * size and copies nothing; asking again with that capacity and a buffer copies
   * exactly the payload. Too small a capacity fails and reports the size; a null
   * buffer fails without changing `size`.
   */
  lemma BufferProbeProtocol(fs: seq<Frame>, p: seq<byte>, size: nat)
    requires |fs| >= N_FIELDS && DecodeBuf(fs[BODY_FIELD]) == Some(p)
    ensures MessageBuffer(fs, 0, false) == Probe(true, |p|, None)
    ensures |p| > 0 ==> MessageBuffer(fs, |p|, true) == Probe(true, |p|, Some(p))
    ensures 0 < size < |p| ==> MessageBuffer(fs, size, true) == Probe(false, |p|, None)
    ensures 0 < size && |p| <= size ==> MessageBuffer(fs, size, false) == Probe(false, size, None)
  {
  }

  /** Every `GetMessageBuffer` failure comes from a malformed envelope, too small a capacity, or a null buffer. */
  lemma BufferProbeFailures(fs: seq<Frame>, size: nat, hasBuf: bool)
    ensures var r := MessageBuffer(fs, size, hasBuf);
            !r.ok <==> (|fs| < N_FIELDS || !WellSized(fs[BODY_FIELD]) ||
                        (size > 0 && (Declared(fs[BODY_FIELD]) > size || !hasBuf)))
  {
  }
}
