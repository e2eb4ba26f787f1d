/** Bitwise operations on naturals, and a bitmap read as a stack whose top is the lowest set bit. */
module Bits {

  function PowerOfTwo(i: nat): (r: nat)
    ensures r > 0
  {
    if i == 0 then 1 else 2 * PowerOfTwo(i - 1)
  }

  /** Bitwise and, or, exclusive or of naturals. */
  function And(x: nat, y: nat): nat {
    if x == 0 || y == 0 then 0 else 2 * And(x / 2, y / 2) + (if x % 2 == 1 && y % 2 == 1 then 1 else 0)
  }

  function Or(x: nat, y: nat): nat {
    if x == 0 then y else if y == 0 then x
    else 2 * Or(x / 2, y / 2) + (if x % 2 == 1 || y % 2 == 1 then 1 else 0)
  }

  function Xor(x: nat, y: nat): nat {
    if x == 0 then y else if y == 0 then x
    else 2 * Xor(x / 2, y / 2) + (if x % 2 != y % 2 then 1 else 0)
  }

  /** Count of trailing zero bits. */
  function Ctz(x: nat): nat
    requires x != 0
  {
    if x % 2 == 1 then 0 else 1 + Ctz(x / 2)
  }

  /** The positions of the set bits of x, lowest first, counted from k. */
  function Indices(x: nat, k: nat): seq<nat> {
    if x == 0 then [] else (if x % 2 == 1 then [k] else []) + Indices(x / 2, k + 1)
  }

  lemma {:induction false} AndSelf(x: nat)
    ensures And(x, x) == x
  {
    if x != 0 { AndSelf(x / 2); }
  }

  lemma {:induction false} TopIsCtz(x: nat, k: nat)
    requires x != 0
    ensures Indices(x, k) != [] && Indices(x, k)[0] == k + Ctz(x)
  {
    if x % 2 == 0 { TopIsCtz(x / 2, k + 1); }
  }

  lemma IndicesOdd(y: nat, k: nat)
    ensures Indices(2 * y + 1, k) == [k] + Indices(y, k + 1)
  {
    assert (2 * y + 1) / 2 == y;
  }

  lemma IndicesEven(y: nat, k: nat)
    ensures Indices(2 * y, k) == Indices(y, k + 1)
  {
    if y != 0 {
      assert 2 * y / 2 == y;
      assert [] + Indices(y, k + 1) == Indices(y, k + 1);
    }
  }

  lemma AndOdd(y: nat)
    ensures And(2 * y + 1, 2 * y) == 2 * y
  {
    AndSelf(y);
    assert (2 * y + 1) / 2 == y && 2 * y / 2 == y;
  }

  lemma AndEven(y: nat)
    requires y != 0
    ensures And(2 * y, 2 * y - 1) == 2 * And(y, y - 1)
  {
    assert 2 * y / 2 == y && (2 * y - 1) / 2 == y - 1;
  }

  lemma {:induction false} PopClearsTop(x: nat, k: nat)
    requires x != 0
    ensures Indices(x, k) != [] && Indices(And(x, x - 1), k) == Indices(x, k)[1..]
  {
    var y := x / 2;
    if x % 2 == 1 {
      assert x == 2 * y + 1;
      AndOdd(y);
      IndicesOdd(y, k);
      IndicesEven(y, k);
    } else {
      assert x == 2 * y;
      PopClearsTop(y, k + 1);
      AndEven(y);
      IndicesEven(y, k);
      IndicesEven(And(y, y - 1), k);
    }
  }

  lemma {:induction false} PushSetsTop(x: nat, i: nat, k: nat)
    requires x == 0 || i < Ctz(x)
    ensures Or(x, PowerOfTwo(i)) != 0
    ensures Indices(Or(x, PowerOfTwo(i)), k) == [k + i] + Indices(x, k)
    decreases i
  {
    if x == 0 {
      PowerIndex(i, k);
    } else if i == 0 {
      assert Or(x, 1) == x + 1;
      assert (x + 1) / 2 == x / 2;
    } else {
      PushSetsTop(x / 2, i - 1, k + 1);
      assert PowerOfTwo(i) / 2 == PowerOfTwo(i - 1);
      assert Or(x, PowerOfTwo(i)) == 2 * Or(x / 2, PowerOfTwo(i - 1));
    }
  }

  lemma {:induction false} PowerIndex(i: nat, k: nat)
    ensures Indices(PowerOfTwo(i), k) == [k + i]
  {
    if i > 0 {
      PowerIndex(i - 1, k + 1);
      assert PowerOfTwo(i) / 2 == PowerOfTwo(i - 1);
    } else {
      assert Indices(0, k + 1) == [];
    }
  }

  predicate Ascending(s: seq<nat>) {
    forall i, j :: 0 <= i < j < |s| ==> s[i] < s[j]
  }

  // -------------------------------------------------------------------- masks

  predicate HasBit(x: nat, i: nat) {
    if i == 0 then x % 2 == 1 else HasBit(x / 2, i - 1)
  }

  lemma {:induction false} ZeroHasNone(i: nat)
    ensures !HasBit(0, i)
  {
    if i > 0 { ZeroHasNone(i - 1); }
  }

  lemma OrHalf(x: nat, y: nat)
    ensures Or(x, y) / 2 == Or(x / 2, y / 2)
    ensures Or(x, y) % 2 == 1 <==> x % 2 == 1 || y % 2 == 1
  {
    if x != 0 && y != 0 {
      assert Or(x, y) == 2 * Or(x / 2, y / 2) + (if x % 2 == 1 || y % 2 == 1 then 1 else 0);
    }
  }

  lemma {:induction false} OrBits(x: nat, y: nat, i: nat)
    ensures HasBit(Or(x, y), i) <==> HasBit(x, i) || HasBit(y, i)
    decreases i
  {
    OrHalf(x, y);
    if i > 0 { OrBits(x / 2, y / 2, i - 1); }
  }

  lemma AndHalf(x: nat, y: nat)
    ensures And(x, y) / 2 == And(x / 2, y / 2)
    ensures And(x, y) % 2 == 1 <==> x % 2 == 1 && y % 2 == 1
  {
    if x != 0 && y != 0 {
      assert And(x, y) == 2 * And(x / 2, y / 2) + (if x % 2 == 1 && y % 2 == 1 then 1 else 0);
    }
  }

  lemma {:induction false} PowerBits(a: nat, i: nat)
    ensures HasBit(PowerOfTwo(a), i) <==> a == i
    decreases i
  {
    if a == 0 {
      if i > 0 { ZeroHasNone(i - 1); }
    } else if i > 0 {
      assert PowerOfTwo(a) / 2 == PowerOfTwo(a - 1);
      PowerBits(a - 1, i - 1);
    }
  }

  /** Every bit of m is a bit of w. */
  ghost predicate Contains(w: nat, m: nat) {
    forall i: nat :: HasBit(m, i) ==> HasBit(w, i)
  }

  lemma ContainsHalf(w: nat, m: nat)
    ensures Contains(w, m) <==> Contains(w / 2, m / 2) && (m % 2 == 1 ==> w % 2 == 1)
  {
    if Contains(w, m) {
      assert HasBit(m, 0) ==> HasBit(w, 0);
      forall i: nat | HasBit(m / 2, i) ensures HasBit(w / 2, i) {
        assert HasBit(m, i + 1) && HasBit(w, i + 1);
      }
    }
    if Contains(w / 2, m / 2) && (m % 2 == 1 ==> w % 2 == 1) {
      forall i: nat | HasBit(m, i) ensures HasBit(w, i) {
        if i > 0 { assert HasBit(m / 2, i - 1); }
      }
    }
  }

  /** Masking a word leaves the mask exactly when the word has every bit of the mask. */
  lemma {:induction false} MaskMeaning(w: nat, m: nat)
    ensures And(w, m) == m <==> Contains(w, m)
    decreases m
  {
    if m == 0 {
      forall i: nat ensures !HasBit(m, i) { ZeroHasNone(i); }
    } else {
      MaskMeaning(w / 2, m / 2);
      ContainsHalf(w, m);
      AndHalf(w, m);
      assert And(w, m) == m <==> And(w, m) / 2 == m / 2 && And(w, m) % 2 == m % 2;
    }
  }

  /** A two-bit mask test: both bits are set. */
  lemma TwoBitMask(w: nat, a: nat, b: nat)
    ensures var m := Or(PowerOfTwo(a), PowerOfTwo(b));
            And(w, m) == m <==> HasBit(w, a) && HasBit(w, b)
  {
    var m := Or(PowerOfTwo(a), PowerOfTwo(b));
    MaskMeaning(w, m);
    forall i: nat ensures HasBit(m, i) <==> i == a || i == b {
      OrBits(PowerOfTwo(a), PowerOfTwo(b), i);
      PowerBits(a, i);
      PowerBits(b, i);
    }
  }

  lemma OrContains(x: nat, y: nat)
    ensures Contains(Or(x, y), x) && Contains(Or(x, y), y)
  {
    forall i: nat ensures (HasBit(x, i) || HasBit(y, i)) ==> HasBit(Or(x, y), i) { OrBits(x, y, i); }
  }

  /** A mask below bit n does not see that bit. */
  lemma {:induction false} MaskIgnores(x: nat, m: nat, n: nat)
    requires m < PowerOfTwo(n)
    ensures And(x + PowerOfTwo(n), m) == And(x, m)
    decreases n
  {
    if n > 0 {
      var p := PowerOfTwo(n - 1);
      MaskIgnores(x / 2, m / 2, n - 1);
      assert (x + 2 * p) / 2 == x / 2 + p && (x + 2 * p) % 2 == x % 2;
      AndHalf(x, m);
      AndHalf(x + 2 * p, m);
    }
  }
}
