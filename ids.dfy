/**
 * Peer identities as the broker keys them: a `std::string` made from a C string, so
 * NUL-free, ordered as `std::map<std::string, …>` orders its keys (byte by byte,
 * bytes compared as unsigned, a proper prefix first).
 */
module Ids {
  import opened Bytes

  type Id = seq<byte>

  /** `a < b` for `std::string`: lexicographic over unsigned bytes. */
  predicate Below(a: Id, b: Id)
    decreases |a|
  {
    if a == [] then b != []
    else if b == [] then false
    else a[0] < b[0] || (a[0] == b[0] && Below(a[1..], b[1..]))
  }

  lemma {:induction false} BelowIrreflexive(a: Id)
    ensures !Below(a, a)
  {
    if a != [] {
      BelowIrreflexive(a[1..]);
    }
  }

  lemma {:induction false} BelowTransitive(a: Id, b: Id, c: Id)
    requires Below(a, b) && Below(b, c)
    ensures Below(a, c)
    decreases |a|
  {
    if a != [] && a[0] == b[0] && b[0] == c[0] {
      BelowTransitive(a[1..], b[1..], c[1..]);
    }
  }

  /** Any two distinct keys are ordered one way or the other. */
  lemma {:induction false} BelowTotal(a: Id, b: Id)
    ensures a == b || Below(a, b) || Below(b, a)
    decreases |a|
  {
    if a != [] && b != [] && a[0] == b[0] {
      BelowTotal(a[1..], b[1..]);
      if a[1..] == b[1..] {
        assert a == [a[0]] + a[1..] && b == [b[0]] + b[1..];
      }
    }
  }

  /** The keys of a map in iteration order. */
  predicate Sorted(ks: seq<Id>) {
    forall i, j :: 0 <= i < j < |ks| ==> Below(ks[i], ks[j])
  }

  /** A sorted key list names each key once. */
  lemma SortedDistinct(ks: seq<Id>)
    requires Sorted(ks)
    ensures forall i, j :: 0 <= i < j < |ks| ==> ks[i] != ks[j]
  {
    forall i, j | 0 <= i < j < |ks|
      ensures ks[i] != ks[j]
    {
      BelowIrreflexive(ks[i]);
    }
  }

  /** `m[k] = …` for a key not yet present: the key goes to its place in the order. */
  function InsertSorted(ks: seq<Id>, k: Id): (r: seq<Id>)
    requires Sorted(ks) && k !in ks
    ensures Sorted(r) && |r| == |ks| + 1
    ensures forall x :: x in r <==> x in ks || x == k
  {
    if ks == [] then [k]
    else if Below(k, ks[0]) then
      assert forall j :: 0 < j < |ks| ==> Below(k, ks[j]) by {
        forall j | 0 < j < |ks| ensures Below(k, ks[j]) {
          BelowTransitive(k, ks[0], ks[j]);
        }
      }
      [k] + ks
    else
      BelowTotal(k, ks[0]);
      var t := InsertSorted(ks[1..], k);
      assert forall x :: x in ks[1..] ==> Below(ks[0], x);
      [ks[0]] + t
  }
}
