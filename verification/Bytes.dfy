/** Fixed-width numbers in memory and in files, least or most significant byte first. */
module Bytes {

  type Byte = x: int | 0 <= x < 256

  function Pow256(n: nat): (p: nat)
    ensures p > 0
  {
    if n == 0 then 1 else 256 * Pow256(n - 1)
  }

  lemma Pow256Values()
    ensures Pow256(2) == 0x1_0000 && Pow256(4) == 0x1_0000_0000 && Pow256(8) == 0x1_0000_0000_0000_0000
  {
    assert Pow256(1) == 256;
    assert Pow256(3) == 256 * Pow256(2);
    assert Pow256(5) == 256 * Pow256(4);
    assert Pow256(7) == 256 * Pow256(6);
  }

  /** The n low bytes of v, least significant first. */
  function ToLe(v: nat, n: nat): (bs: seq<Byte>)
    ensures |bs| == n
  {
    if n == 0 then [] else [v % 256] + ToLe(v / 256, n - 1)
  }

  function FromLe(bs: seq<Byte>): nat {
    if bs == [] then 0 else bs[0] + 256 * FromLe(bs[1..])
  }

  lemma DigitSplit(v: nat, p: nat)
    requires p > 0
    ensures v % (256 * p) == v % 256 + 256 * (v / 256 % p)
  {
    var q, r := v / 256 / p, v / 256 % p;
    assert v / 256 == q * p + r;
    var rest := v % 256 + 256 * r;
    assert v == 256 * (q * p) + rest;
    assert 0 <= rest < 256 * p;
    Remainder(v, 256 * p, q, rest);
  }

  lemma Remainder(v: nat, m: nat, q: nat, r: nat)
    requires v == m * q + r && r < m
    ensures v % m == r
  {
    var a, b := v / m, v % m;
    assert m * a + b == m * q + r;
    assert a < q ==> m * (a + 1) <= m * q;
    assert a > q ==> m * (q + 1) <= m * a;
  }

  /** Reading back n bytes gives the number, reduced to n bytes. */
  lemma {:induction false} LeRoundTrip(v: nat, n: nat)
    ensures FromLe(ToLe(v, n)) == v % Pow256(n)
    ensures v < Pow256(n) ==> FromLe(ToLe(v, n)) == v
  {
    if n > 0 {
      LeRoundTrip(v / 256, n - 1);
      assert ToLe(v, n)[1..] == ToLe(v / 256, n - 1);
      DigitSplit(v, Pow256(n - 1));
    }
  }

  /** The n low bytes of v, most significant first. */
  function ToBe(v: nat, n: nat): (bs: seq<Byte>)
    ensures |bs| == n
  {
    if n == 0 then [] else ToBe(v / 256, n - 1) + [v % 256]
  }

  function FromBe(bs: seq<Byte>): nat {
    if bs == [] then 0 else 256 * FromBe(bs[..|bs| - 1]) + bs[|bs| - 1]
  }

  lemma {:induction false} BeRoundTrip(v: nat, n: nat)
    requires v < Pow256(n)
    ensures FromBe(ToBe(v, n)) == v
  {
    if n > 0 {
      BeRoundTrip(v / 256, n - 1);
      assert ToBe(v, n)[..n - 1] == ToBe(v / 256, n - 1);
    }
  }

  // ------------------------------------------------------------------ slices

  /** A slice that is cut off at the end of the data, as Python slices are. */
  function Slice(s: seq<Byte>, a: nat, n: nat): (r: seq<Byte>)
    ensures |r| <= n
  {
    if a >= |s| then [] else if a + n <= |s| then s[a..a + n] else s[a..]
  }

  function From(s: seq<Byte>, a: nat): seq<Byte> {
    if a >= |s| then [] else s[a..]
  }

  /** b stands at offset o of s. */
  predicate At(s: seq<Byte>, o: nat, b: seq<Byte>) {
    o + |b| <= |s| && s[o..o + |b|] == b
  }

  lemma AtSplit(s: seq<Byte>, o: nat, a: seq<Byte>, b: seq<Byte>)
    requires At(s, o, a + b)
    ensures At(s, o, a) && At(s, o + |a|, b)
  {
    var t := s[o..o + |a + b|];
    assert t[..|a|] == a && t[|a|..] == b;
    assert s[o..o + |a|] == t[..|a|];
    assert s[o + |a|..o + |a| + |b|] == t[|a|..];
  }

  lemma AtSlice(s: seq<Byte>, o: nat, b: seq<Byte>)
    requires At(s, o, b)
    ensures Slice(s, o, |b|) == b
  {
  }

  lemma AtEnd(s: seq<Byte>, o: nat, b: seq<Byte>)
    requires At(s, o, b) && o + |b| == |s|
    ensures From(s, o) == b
  {
  }
}
