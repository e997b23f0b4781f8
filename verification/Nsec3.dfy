/** The "next" hash of a minimally covering NSEC3 record (src/dns/dnssec.rs; section 3.1.7 of RFC 5155). */
module Nsec3 {
  import opened Wrappers

  function Pow256(n: nat): (p: nat)
    ensures p > 0
  {
    if n == 0 then 1 else 256 * Pow256(n - 1)
  }

  /** The big-endian value of a hash. */
  function Value(h: seq<Byte>): nat {
    if h == [] then 0 else 256 * Value(h[..|h| - 1]) + h[|h| - 1]
  }

  predicate AllOnes(h: seq<Byte>) {
    forall i :: 0 <= i < |h| ==> h[i] == 255
  }

  lemma {:induction false} ValueBound(h: seq<Byte>)
    ensures Value(h) < Pow256(|h|)
    ensures Value(h) == Pow256(|h|) - 1 <==> AllOnes(h)
  {
    if h != [] {
      var front := h[..|h| - 1];
      ValueBound(front);
      if AllOnes(front) && h[|h| - 1] == 255 {
        forall i | 0 <= i < |h| ensures h[i] == 255 {
          if i < |h| - 1 {
            assert h[i] == front[i];
          }
        }
      }
    }
  }

  /** The successor of a hash, rippling the carry from the last byte. */
  function Successor(h: seq<Byte>): (r: seq<Byte>)
    ensures |r| == |h|
  {
    if h == [] then []
    else if h[|h| - 1] < 255 then h[..|h| - 1] + [h[|h| - 1] + 1]
    else Successor(h[..|h| - 1]) + [0]
  }

  /** `increment_hash`: in place, from the last byte, until there is no carry. */
  method IncrementHash(bytes: array<Byte>)
    modifies bytes
    ensures bytes[..] == Successor(old(bytes[..]))
  {
    ghost var was := bytes[..];
    var i := bytes.Length;
    assert was[..i] == was && bytes[i..] == [];
    while i > 0
      invariant 0 <= i <= bytes.Length
      invariant bytes[..i] == was[..i]
      invariant Successor(was) == Successor(was[..i]) + bytes[i..]
    {
      i := i - 1;
      assert was[..i + 1][..i] == was[..i];
      ghost var tail := bytes[i + 1..];
      if bytes[i] < 255 {
        bytes[i] := bytes[i] + 1;
        assert bytes[..] == was[..i] + [bytes[i]] + tail;
        return;
      }
      bytes[i] := 0;
      assert bytes[i..] == [0] + tail;
    }
    assert bytes[..] == bytes[0..];
  }

  lemma {:induction false} SuccessorValue(h: seq<Byte>)
    ensures Value(Successor(h)) == if AllOnes(h) then 0 else Value(h) + 1
  {
    if h != [] {
      var front, last := h[..|h| - 1], h[|h| - 1];
      var r := Successor(h);
      assert h == front + [last];
      if last < 255 {
        assert r[..|r| - 1] == front && r[|r| - 1] == last + 1;
      } else {
        SuccessorValue(front);
        assert r[..|r| - 1] == Successor(front) && r[|r| - 1] == 0;
        assert AllOnes(h) <==> AllOnes(front);
      }
    }
  }

  /** The increment adds one modulo 256^n. */
  lemma SuccessorAddsOne(h: seq<Byte>)
    ensures Value(Successor(h)) == (Value(h) + 1) % Pow256(|h|)
  {
    SuccessorValue(h);
    ValueBound(h);
    WrapAround(Value(h), Pow256(|h|), Value(Successor(h)));
  }

  lemma WrapAround(v: nat, p: nat, s: nat)
    requires v < p && s == if v == p - 1 then 0 else v + 1
    ensures s == (v + 1) % p
  {
  }

  /** The order of hashed owner names: the first differing byte decides. */
  ghost predicate Before(a: seq<Byte>, b: seq<Byte>)
    requires |a| == |b|
  {
    exists k :: 0 <= k < |a| && a[..k] == b[..k] && a[k] < b[k]
  }

  lemma BeforeByLastByte(a: seq<Byte>, b: seq<Byte>)
    requires |a| == |b| > 0
    ensures var n := |a| - 1;
            Before(a, b) <==> Before(a[..n], b[..n]) || (a[..n] == b[..n] && a[n] < b[n])
  {
    var n := |a| - 1;
    var x, y := a[..n], b[..n];
    if Before(a, b) {
      var k :| 0 <= k < |a| && a[..k] == b[..k] && a[k] < b[k];
      if k < n {
        assert x[..k] == a[..k] && y[..k] == b[..k] && x[k] < y[k];
      }
    }
    if Before(x, y) {
      var k :| 0 <= k < n && x[..k] == y[..k] && x[k] < y[k];
      assert a[..k] == x[..k] && b[..k] == y[..k] && a[k] < b[k];
    }
  }

  lemma {:induction false} OrderIsNumeric(a: seq<Byte>, b: seq<Byte>)
    requires |a| == |b|
    ensures Before(a, b) <==> Value(a) < Value(b)
    ensures a == b <==> Value(a) == Value(b)
  {
    if a != [] {
      var n := |a| - 1;
      OrderIsNumeric(a[..n], b[..n]);
      BeforeByLastByte(a, b);
      assert a == a[..n] + [a[n]] && b == b[..n] + [b[n]];
    }
  }

  /**
   A minimally covering record denies no other name: no hash of the same length lies strictly between the
   owner hash and its successor; after the largest hash the successor wraps around to the smallest.
   */
  lemma NothingLiesBetween(h: seq<Byte>, other: seq<Byte>)
    requires |other| == |h|
    ensures !AllOnes(h) ==> Before(h, Successor(h)) && !(Before(h, other) && Before(other, Successor(h)))
    ensures AllOnes(h) ==> !Before(h, other) && !Before(other, Successor(h))
  {
    SuccessorValue(h);
    ValueBound(other);
    ValueBound(h);
    OrderIsNumeric(h, Successor(h));
    OrderIsNumeric(h, other);
    OrderIsNumeric(other, Successor(h));
  }
}
