/** Bytes, 32-bit words and C strings: the raw material of every frame. */
module Bytes {

  type byte = b: int | 0 <= b < 256

  /** One past the largest value of a `uint32_t`. */
  const U32_LIMIT: int := 0x1_0000_0000

  type u32 = n: int | 0 <= n < 0x1_0000_0000

  /** A `const char*`: a byte string with no NUL inside it. */
  predicate NulFree(s: seq<byte>) {
    forall i :: 0 <= i < |s| ==> s[i] != 0
  }

  /** What `strlen`-based code sees of `s`: every byte before the first NUL. */
  function CString(s: seq<byte>): (c: seq<byte>)
    ensures |c| <= |s| && c == s[..|c|] && NulFree(c)
    ensures |c| < |s| ==> s[|c|] == 0
  {
    if s == [] || s[0] == 0 then [] else [s[0]] + CString(s[1..])
  }

  /** A string read through `c_str()` is unchanged exactly when it holds no NUL. */
  lemma {:induction false} CStringFixed(s: seq<byte>)
    ensures CString(s) == s <==> NulFree(s)
  {
    if s != [] && s[0] != 0 {
      CStringFixed(s[1..]);
      assert NulFree(s) ==> NulFree(s[1..]);
      assert NulFree(s[1..]) ==> NulFree(s) by {
        if NulFree(s[1..]) {
          forall i | 0 <= i < |s| ensures s[i] != 0 {
            if i > 0 { assert s[i] == s[1..][i - 1]; }
          }
        }
      }
    }
  }

  /** Reading a NUL-terminated buffer stops at the terminator. */
  lemma {:induction false} CStringTerminated(c: seq<byte>, tail: seq<byte>)
    requires NulFree(c)
    ensures CString(c + [0] + tail) == c
  {
    if c != [] {
      assert (c + [0] + tail)[1..] == c[1..] + [0] + tail;
      CStringTerminated(c[1..], tail);
    }
  }

  /** The four little-endian bytes of a 32-bit word (the wire's length prefix). */
  function LE32(n: u32): (b: seq<byte>)
    ensures |b| == 4
  {
    [n % 256, (n / 256) % 256, (n / 65536) % 256, n / 16777216]
  }

  /** The 32-bit word held little-endian in the first four bytes of `b`. */
  function Word(b: seq<byte>): u32
    requires |b| >= 4
  {
    b[0] as int + 256 * (b[1] as int) + 65536 * (b[2] as int) + 16777216 * (b[3] as int)
  }

  /** Reading back a written length prefix yields the length. */
  lemma WordOfLE32(n: u32)
    ensures Word(LE32(n)) == n
  {
    var b := LE32(n);
    assert n == n % 256 + 256 * (n / 256);
    assert n / 256 == (n / 256) % 256 + 256 * (n / 65536);
    assert n / 65536 == (n / 65536) % 256 + 256 * (n / 16777216);
  }

  /** Writing back a read prefix reproduces its four bytes: prefixes and words are in bijection. */
  lemma LE32OfWord(b: seq<byte>)
    requires |b| == 4
    ensures LE32(Word(b)) == b
  {
    var n := Word(b);
    var b0, b1, b2, b3 := b[0] as int, b[1] as int, b[2] as int, b[3] as int;
    DivModSplit(b0, b1 + 256 * b2 + 65536 * b3, 256);
    DivModSplit(b1, b2 + 256 * b3, 256);
    DivModSplit(b0 + 256 * b1, b2 + 256 * b3, 65536);
    DivModSplit(b2, b3, 256);
    DivModSplit(b0 + 256 * b1 + 65536 * b2, b3, 16777216);
  }

  /** Euclidean division of `a + m * q` by `m` when `a` is a remainder. */
  lemma DivModSplit(a: int, q: int, m: int)
    requires 0 <= a < m
    ensures (a + m * q) / m == q && (a + m * q) % m == a
  {
    var x := a + m * q;
    var d, r := x / m, x % m;
    assert m * (q - d) == r - a;
    assert q - d >= 1 ==> m * (q - d) >= m;
    assert q - d <= -1 ==> m * (q - d) <= -m;
  }

  /** Only the first four bytes of a frame make its prefix. */
  lemma WordPrefix(b: seq<byte>, rest: seq<byte>)
    requires |b| == 4
    ensures Word(b + rest) == Word(b)
  {
  }

  /** An ASCII literal as bytes. */
  function Ascii(s: string): (b: seq<byte>)
    requires forall i :: 0 <= i < |s| ==> s[i] as int < 256
    ensures |b| == |s| && forall i :: 0 <= i < |s| ==> b[i] == s[i] as int
  {
    seq(|s|, i requires 0 <= i < |s| => s[i] as int)
  }
}
