/** Bytes, fixed-width integers and their little-endian encoding. */
module Bytes {

  type Byte = b: int | 0 <= b < 256
  type U32 = x: int | 0 <= x < TWO_32
  type I64 = x: int | -TWO_63 <= x < TWO_63

  const TWO_32: int := 0x1_0000_0000
  const TWO_63: int := 0x8000_0000_0000_0000
  const TWO_64: int := 0x1_0000_0000_0000_0000

  datatype Option<+T> = None | Some(value: T)

  function Min(a: int, b: int): (m: int)
    ensures m <= a && m <= b && (m == a || m == b)
  {
    if a < b then a else b
  }

  lemma Assoc<T>(a: seq<T>, b: seq<T>, c: seq<T>)
    ensures a + b + c == a + (b + c)
  {
  }

  lemma SplitAt<T>(s: seq<T>, n: nat)
    requires n <= |s|
    ensures s[..n] + s[n..] == s
  {
  }

  lemma CutAfter(a: seq<Byte>, b: seq<Byte>, n: nat)
    requires |a| <= n <= |a + b|
    ensures (a + b)[..n] == a + b[..n - |a|]
  {
  }

  lemma SliceOfRest<T>(s: seq<T>, k: nat, lo: nat, hi: nat)
    requires k <= |s| && lo <= hi <= |s| - k
    ensures s[k..][lo..hi] == s[k + lo..k + hi]
  {
  }

  lemma PrefixOfSlice<T>(s: seq<T>, lo: nat, hi: nat, k: nat)
    requires lo <= hi <= |s| && k <= hi - lo
    ensures s[lo..hi][..k] == s[lo..lo + k]
  {
  }

  /** Concatenation of a list of byte strings. */
  function Flatten(parts: seq<seq<Byte>>): seq<Byte> {
    if parts == [] then [] else parts[0] + Flatten(parts[1..])
  }

  lemma {:induction false} FlattenAppend(a: seq<seq<Byte>>, b: seq<seq<Byte>>)
    ensures Flatten(a + b) == Flatten(a) + Flatten(b)
  {
    if a == [] {
      assert a + b == b;
    } else {
      assert (a + b)[1..] == a[1..] + b;
      FlattenAppend(a[1..], b);
    }
  }

  lemma FlattenSnoc(a: seq<seq<Byte>>, last: seq<Byte>)
    ensures Flatten(a + [last]) == Flatten(a) + last
  {
    FlattenAppend(a, [last]);
    assert Flatten([last]) == last + Flatten([]);
  }

  function Pow256(n: nat): (p: nat)
    ensures p > 0
  {
    if n == 0 then 1 else 256 * Pow256(n - 1)
  }

  lemma Pow256Facts()
    ensures Pow256(2) == 0x1_0000
    ensures Pow256(4) == TWO_32
    ensures Pow256(8) == TWO_64
  {
    assert Pow256(2) == 256 * Pow256(1) == 256 * (256 * Pow256(0));
    assert Pow256(4) == 256 * Pow256(3) == 256 * (256 * Pow256(2));
    assert Pow256(6) == 256 * Pow256(5) == 256 * (256 * Pow256(4));
    assert Pow256(8) == 256 * Pow256(7) == 256 * (256 * Pow256(6));
  }

  /** The n low-order bytes of v, least significant first. */
  function LE(n: nat, v: nat): (s: seq<Byte>)
    ensures |s| == n
  {
    if n == 0 then [] else [v % 256] + LE(n - 1, v / 256)
  }

  function LEVal(s: seq<Byte>): nat {
    if s == [] then 0 else s[0] + 256 * LEVal(s[1..])
  }

  lemma {:induction false} LERoundTrip(n: nat, v: nat)
    requires v < Pow256(n)
    ensures LEVal(LE(n, v)) == v
  {
    if n > 0 {
      LERoundTrip(n - 1, v / 256);
      assert LE(n, v)[1..] == LE(n - 1, v / 256);
    }
  }

  lemma {:induction false} LEValRoundTrip(s: seq<Byte>)
    ensures LEVal(s) < Pow256(|s|)
    ensures LE(|s|, LEVal(s)) == s
  {
    if s != [] {
      LEValRoundTrip(s[1..]);
    }
  }

  lemma DivDiv(v: nat, p: nat)
    requires p > 0
    ensures (v / 256) / p == v / (256 * p)
  {
    var q, r := v / (256 * p), v % (256 * p);
    assert v == 256 * p * q + r;
    assert v / 256 == q * p + r / 256 by {
      assert v == 256 * (q * p) + r;
    }
    assert r / 256 < p;
    DivUnique(v / 256, p, q, r / 256);
  }

  lemma DivUnique(x: nat, p: nat, q: nat, r: nat)
    requires p > 0 && r < p && x == q * p + r
    ensures x / p == q && x % p == r
  {
    var d := x / p - q;
    assert d * p == r - x % p;
    MulBounds(d, p);
  }

  lemma MulBounds(d: int, p: int)
    requires p >= 0
    ensures d >= 1 ==> d * p >= p
    ensures d <= -1 ==> d * p <= -p
  {
    if d >= 1 {
      assert (d - 1) * p >= 0;
    } else if d <= -1 {
      assert (-d - 1) * p >= 0;
    }
  }

  /** Digit i of the encoding is digit i of the number in base 256. */
  lemma {:induction false} LEDigit(n: nat, v: nat, i: nat)
    requires i < n
    ensures LE(n, v)[i] == (v / Pow256(i)) % 256
  {
    if i > 0 {
      LEDigit(n - 1, v / 256, i - 1);
      DivDiv(v, Pow256(i - 1));
    }
  }
}
