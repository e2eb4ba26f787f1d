/** The two symbol hashes, as numbers. */
module ElfHashes {
  import opened Bits
  import opened Bytes
  import opened ElfSymbols

  // ---------------------------------------------------------------------- GNU

  function Power(b: nat, n: nat): nat {
    if n == 0 then 1 else b * Power(b, n - 1)
  }

  /** The bytes times the powers of b, the last byte times 1. */
  function Weighted(b: nat, name: seq<Byte>): nat
    decreases |name|
  {
    if name == [] then 0 else name[0] * Power(b, |name| - 1) + Weighted(b, name[1..])
  }

  lemma DropMultiple(x: nat, m: nat, k: nat)
    requires m > 0
    ensures (x + m * k) % m == x % m
  {
    assert x == m * (x / m) + x % m;
    assert x + m * k == m * (x / m + k) + x % m;
    Remainder(x + m * k, m, x / m + k, x % m);
  }

  /** Reducing a factor first does not matter. */
  lemma ReduceFirst(x: nat, m: nat, p: nat, w: nat)
    requires m > 0
    ensures (x % m * p + w) % m == (x * p + w) % m
  {
    var q := x / m;
    assert x * p + w == (x % m * p + w) + m * (q * p);
    DropMultiple(x % m * p + w, m, q * p);
  }

  lemma OneMoreByte(b: nat, h: nat, c: nat, p: nat, w: nat)
    ensures (h * b + c) * p + w == h * (b * p) + (c * p + w)
  {
  }

  lemma {:induction false} GnuHashFromIs(h: nat, name: seq<Byte>)
    requires h < 0x1_0000_0000
    ensures GnuHashFrom(h, name) == (h * Power(33, |name|) + Weighted(33, name)) % 0x1_0000_0000
    decreases |name|
  {
    if name != [] {
      var rest, c := name[1..], name[0];
      var next := (h * 33 + c) % 0x1_0000_0000;
      GnuHashFromIs(next, rest);
      ReduceFirst(h * 33 + c, 0x1_0000_0000, Power(33, |rest|), Weighted(33, rest));
      OneMoreByte(33, h, c, Power(33, |rest|), Weighted(33, rest));
      assert GnuHashFrom(h, name) == GnuHashFrom(next, rest);
    }
  }

  /** The GNU hash is the bytes times powers of 33, with 5381 before them, in 32 bits. */
  lemma GnuHashIs(name: seq<Byte>)
    ensures GnuHash(name) == (5381 * Power(33, |name|) + Weighted(33, name)) % 0x1_0000_0000
  {
    GnuHashFromIs(5381, name);
  }

  // ------------------------------------------------------------------- System V

  lemma HalfOfLow(x: nat, p: nat)
    requires p > 0
    ensures x % (2 * p) == 2 * (x / 2 % p) + x % 2
  {
    var q, r := x / 2 / p, x / 2 % p;
    assert x / 2 == q * p + r;
    assert x == 2 * p * q + (2 * r + x % 2);
    Remainder(x, 2 * p, q, 2 * r + x % 2);
  }

  function Differ(x: nat, y: nat): nat {
    if x % 2 != y % 2 then 1 else 0
  }

  lemma XorHalf(x: nat, y: nat)
    ensures Xor(x, y) == 2 * Xor(x / 2, y / 2) + Differ(x, y)
  {
  }

  lemma XorPut(u: nat, v: nat, a: nat, b: nat, x: nat, y: nat)
    requires u == 2 * a + x % 2 && v == 2 * b + y % 2
    ensures Xor(u, v) == 2 * Xor(a, b) + Differ(x, y)
  {
    XorHalf(u, v);
    assert u / 2 == a && v / 2 == b && u % 2 == x % 2 && v % 2 == y % 2;
  }

  lemma LowOfXor(x: nat, y: nat, p: nat, low: nat)
    requires p > 0 && Xor(x / 2, y / 2) % p == low
    ensures Xor(x, y) % (2 * p) == 2 * low + Differ(x, y)
  {
    XorHalf(x, y);
    var z, half := Xor(x, y), Xor(x / 2, y / 2);
    assert z / 2 == half && z % 2 == Differ(x, y);
    HalfOfLow(z, p);
  }

  lemma XorOfLows(x: nat, y: nat, p: nat)
    requires p > 0
    ensures Xor(x % (2 * p), y % (2 * p)) == 2 * Xor(x / 2 % p, y / 2 % p) + Differ(x, y)
  {
    HalfOfLow(x, p);
    HalfOfLow(y, p);
    XorPut(x % (2 * p), y % (2 * p), x / 2 % p, y / 2 % p, x, y);
  }

  lemma {:induction false} XorLow(x: nat, y: nat, k: nat)
    ensures Xor(x, y) % PowerOfTwo(k) == Xor(x % PowerOfTwo(k), y % PowerOfTwo(k))
    decreases k
  {
    if k > 0 {
      var p := PowerOfTwo(k - 1);
      XorLow(x / 2, y / 2, k - 1);
      LowOfXor(x, y, p, Xor(x / 2 % p, y / 2 % p));
      XorOfLows(x, y, p);
    }
  }

  lemma TwentyEight()
    ensures PowerOfTwo(28) == 0x1000_0000
  {
    assert PowerOfTwo(4) == 16;
    assert PowerOfTwo(8) == 16 * PowerOfTwo(4);
    assert PowerOfTwo(12) == 16 * PowerOfTwo(8);
    assert PowerOfTwo(16) == 16 * PowerOfTwo(12);
    assert PowerOfTwo(20) == 16 * PowerOfTwo(16);
    assert PowerOfTwo(24) == 16 * PowerOfTwo(20);
  }

  /** A 32-bit number with its top four bits taken apart. */
  predicate IsSplit(t: nat, top: nat, low: nat) {
    t == 0x1000_0000 * top + low && top < 16 && low < 0x1000_0000
  }

  lemma SplitIs(t: nat, top: nat, low: nat)
    requires IsSplit(t, top, low)
    ensures t / 0x1000_0000 == top && t % 0x1000_0000 == low
  {
  }

  lemma Folded(t: nat, top: nat, low: nat)
    requires IsSplit(t, top, low)
    ensures Xor(t, 16 * top) % 0x1000_0000 == Xor(low, 16 * top)
  {
    SplitIs(t, top, low);
    TwentyEight();
    XorLow(t, 16 * top, 28);
    SplitIs(16 * top, 0, 16 * top);
  }

  /**
   One byte of the System V hash: the number shifted by four bits, with the byte
   added, is cut to 28 bits, and the four bits cut off are added to bits 4 to 7
   without carry.
   */
  lemma ElfHashStepIs(h: nat, c: Byte, t: nat, top: nat, low: nat)
    requires t == (16 * h + c) % 0x1_0000_0000 && IsSplit(t, top, low)
    ensures ElfHashStep(h, c) == Xor(low, 16 * top) < 0x1000_0000
  {
    SplitIs(t, top, low);
    assert top * 0x1000_0000 / 0x100_0000 == 16 * top;
    Folded(t, top, low);
  }

  lemma ShortStep(h: nat, c: Byte)
    requires 16 * h + c < 0x1000_0000
    ensures ElfHashStep(h, c) == 16 * h + c
  {
    ElfHashStepIs(h, c, 16 * h + c, 0, 16 * h + c);
  }

  lemma {:induction false} ShortElfHashFrom(h: nat, name: seq<Byte>)
    requires h * Power(16, |name|) + Weighted(16, name) < 0x1000_0000
    ensures ElfHashFrom(h, name) == h * Power(16, |name|) + Weighted(16, name)
    decreases |name|
  {
    if name != [] {
      var rest, c := name[1..], name[0];
      var t, p, w := 16 * h + c, Power(16, |rest|), Weighted(16, rest);
      OneMoreByte(16, h, c, p, w);
      PowerPositive(16, |rest|);
      AtLeast(t, p, w);
      ShortStep(h, c);
      ShortElfHashFrom(t, rest);
    }
  }

  /** A name whose bytes, times powers of 16, fit into 28 bits: the hash is just that number. */
  lemma ShortElfHash(name: seq<Byte>)
    requires Weighted(16, name) < 0x1000_0000
    ensures ElfHash(name) == Weighted(16, name)
  {
    ShortElfHashFrom(0, name);
  }

  lemma PowerPositive(b: nat, n: nat)
    requires b > 0
    ensures Power(b, n) > 0
  {
  }

  lemma AtLeast(t: nat, p: nat, w: nat)
    requires p > 0
    ensures t <= t * p + w
  {
  }

  lemma GnuByte(h: nat, c: Byte, rest: seq<Byte>, next: nat)
    requires h < 0x1_0000_0000 && next == (h * 33 + c) % 0x1_0000_0000
    ensures GnuHashFrom(h, [c] + rest) == GnuHashFrom(next, rest)
  {
    assert ([c] + rest)[1..] == rest;
  }

  lemma ElfByte(h: nat, c: Byte, rest: seq<Byte>, next: nat)
    requires ElfHashStep(h, c) == next
    ensures ElfHashFrom(h, [c] + rest) == ElfHashFrom(next, rest)
  {
    assert ([c] + rest)[1..] == rest;
  }

  const PRINTF: seq<Byte> := [112, 114, 105, 110, 116, 102]
  const MEMMOVE: seq<Byte> := [109, 101, 109, 109, 111, 118, 101]

  lemma Six<T>(a: T, b: T, c: T, d: T, e: T, f: T, rest: seq<T>)
    ensures [a] + ([b] + ([c] + ([d] + ([e] + ([f] + rest))))) == [a, b, c, d, e, f] + rest
  {
  }

  /** The GNU hash of a name. */
  lemma GnuHashOfPrintf()
    ensures GnuHash(PRINTF) == 0x156b_2bb8
  {
    var s5: seq<Byte> := [102] + [];
    var s4: seq<Byte> := [116] + s5;
    var s3: seq<Byte> := [110] + s4;
    var s2: seq<Byte> := [105] + s3;
    var s1: seq<Byte> := [114] + s2;
    GnuByte(5381, 112, s1, 0x2_b615);
    GnuByte(0x2_b615, 114, s2, 0x59_7927);
    GnuByte(0x59_7927, 105, s3, 0xb88_9e70);
    GnuByte(0xb88_9e70, 110, s4, 0x7c9c_6cde);
    GnuByte(0x7c9c_6cde, 116, s5, 0x102a_0912);
    GnuByte(0x102a_0912, 102, [], 0x156b_2bb8);
    Six<Byte>(112, 114, 105, 110, 116, 102, []);
  }

  lemma LastXor()
    ensures Xor(0x3c4_46c5, 0x70) == 0x3c4_46b5
  {
    XorPut(0x3c4_46c5, 0x70, 0x1e2_2362, 0x38, 1, 0);
    XorPut(0x1e2_2362, 0x38, 0xf1_11b1, 0x1c, 0, 0);
    XorPut(0xf1_11b1, 0x1c, 0x78_88d8, 0xe, 1, 0);
    XorPut(0x78_88d8, 0xe, 0x3c_446c, 7, 0, 0);
    XorPut(0x3c_446c, 7, 0x1e_2236, 3, 0, 1);
    XorPut(0x1e_2236, 3, 0xf_111b, 1, 0, 1);
    XorPut(0xf_111b, 1, 0x7_888d, 0, 1, 1);
  }

  lemma LastByteOfMemmove()
    ensures ElfHashStep(0x73c_4466, 101) == 0x3c4_46b5
  {
    ElfHashStepIs(0x73c_4466, 101, 0x73c4_46c5, 7, 0x3c4_46c5);
    LastXor();
  }

  /** The System V hash of a name that is long enough to lose its top bits. */
  lemma ElfHashOfMemmove()
    ensures ElfHash(MEMMOVE) == 0x3c4_46b5
  {
    var s6: seq<Byte> := [101] + [];
    var s5: seq<Byte> := [118] + s6;
    var s4: seq<Byte> := [111] + s5;
    var s3: seq<Byte> := [109] + s4;
    var s2: seq<Byte> := [109] + s3;
    var s1: seq<Byte> := [101] + s2;
    ShortByte(0, 109, s1, 0x6d);
    ShortByte(0x6d, 101, s2, 0x735);
    ShortByte(0x735, 109, s3, 0x73bd);
    ShortByte(0x73bd, 109, s4, 0x7_3c3d);
    ShortByte(0x7_3c3d, 111, s5, 0x73_c43f);
    ShortByte(0x73_c43f, 118, s6, 0x73c_4466);
    LastByteOfMemmove();
    ElfByte(0x73c_4466, 101, [], 0x3c4_46b5);
    Six<Byte>(109, 101, 109, 109, 111, 118, s6);
    assert MEMMOVE == [109, 101, 109, 109, 111, 118] + s6;
  }

  lemma ShortByte(h: nat, c: Byte, rest: seq<Byte>, next: nat)
    requires next == 16 * h + c < 0x1000_0000
    ensures ElfHashFrom(h, [c] + rest) == ElfHashFrom(next, rest)
  {
    ShortStep(h, c);
    ElfByte(h, c, rest, next);
  }
}
