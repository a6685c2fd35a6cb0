/**
  FNV-1a over 64-bit words (draft-eastlake-fnv, section 2), and why a change of
  one input byte can never be lost: every step is a bijection of the state.
 */
module Fnv {
  const OFFSET: bv64 := 0xcbf29ce484222325
  const PRIME: bv64 := 0x100000001b3

  // Wrapping multiplication of machine words.
  function Mul(x: bv64, m: bv64): bv64 { x * m }

  lemma OddTimesNonzero(d: bv64, m: bv64)
    requires m & 1 == 1
    requires Mul(d, m) == 0
    ensures d == 0
  {
  }

  lemma MulDistributes(x: bv64, y: bv64, m: bv64)
    ensures Mul(x - y, m) == Mul(x, m) - Mul(y, m)
  {
    calc {
      Mul(x - y, m);
      (x - y) * m;
      x * m - y * m;
      Mul(x, m) - y * m;
      Mul(x, m) - Mul(y, m);
    }
  }

  lemma SubSelf(p: bv64, q: bv64)
    requires p == q
    ensures p - q == 0
  {
  }

  lemma SubZero(p: bv64, q: bv64)
    requires p - q == 0
    ensures p == q
  {
  }

  // Multiplying by an odd word is injective modulo 2^64.
  lemma OddMulInjective(x: bv64, y: bv64, m: bv64)
    requires m & 1 == 1
    requires Mul(x, m) == Mul(y, m)
    ensures x == y
  {
    hide Mul;
    MulDistributes(x, y, m);
    SubSelf(Mul(x, m), Mul(y, m));
    OddTimesNonzero(x - y, m);
    SubZero(x, y);
  }

  function XorByte(h: bv64, b: bv8): bv64 { h ^ (b as bv64) }

  function Step(h: bv64, b: bv8): bv64 {
    Mul(XorByte(h, b), PRIME)
  }

  function Fold(h: bv64, bytes: seq<bv8>): bv64 {
    if bytes == [] then h else Step(Fold(h, bytes[..|bytes| - 1]), bytes[|bytes| - 1])
  }

  lemma XorByteInjectiveInState(g: bv64, h: bv64, b: bv8)
    requires XorByte(g, b) == XorByte(h, b)
    ensures g == h
  {
  }

  lemma XorByteInjectiveInByte(h: bv64, b: bv8, c: bv8)
    requires XorByte(h, b) == XorByte(h, c)
    ensures b == c
  {
  }

  lemma PrimeIsOdd()
    ensures PRIME & 1 == 1
  {
  }

  lemma StepInjectiveInState(g: bv64, h: bv64, b: bv8)
    requires Step(g, b) == Step(h, b)
    ensures g == h
  {
    hide Mul, XorByte;
    PrimeIsOdd();
    OddMulInjective(XorByte(g, b), XorByte(h, b), PRIME);
    XorByteInjectiveInState(g, h, b);
  }

  lemma StepInjectiveInByte(h: bv64, b: bv8, c: bv8)
    requires Step(h, b) == Step(h, c)
    ensures b == c
  {
    hide Mul, XorByte;
    PrimeIsOdd();
    OddMulInjective(XorByte(h, b), XorByte(h, c), PRIME);
    XorByteInjectiveInByte(h, b, c);
  }

  // Hashing the same bytes from two states keeps the states apart.
  lemma {:induction false} FoldInjectiveInState(g: bv64, h: bv64, bytes: seq<bv8>)
    requires Fold(g, bytes) == Fold(h, bytes)
    ensures g == h
  {
    if bytes != [] {
      var p, b := bytes[..|bytes| - 1], bytes[|bytes| - 1];
      StepInjectiveInState(Fold(g, p), Fold(h, p), b);
      FoldInjectiveInState(g, h, p);
    }
  }

  lemma {:induction false} FoldAppend(h: bv64, x: seq<bv8>, y: seq<bv8>)
    ensures Fold(h, x + y) == Fold(Fold(h, x), y)
  {
    if y == [] {
      assert x + y == x;
    } else {
      var p, b := y[..|y| - 1], y[|y| - 1];
      FoldAppend(h, x, p);
      assert (x + y)[..|x + y| - 1] == x + p;
    }
  }

  lemma FoldOne(h: bv64, b: bv8)
    ensures Fold(h, [b]) == Step(h, b)
  {
    assert Fold(h, [b][..0]) == h;
  }

  // Two inputs of one length that differ in exactly one byte never collide.
  lemma OneByteNeverCollides(h: bv64, x: seq<bv8>, y: seq<bv8>, k: nat)
    requires |x| == |y| && k < |x|
    requires x[k] != y[k]
    requires forall i :: 0 <= i < |x| && i != k ==> x[i] == y[i]
    ensures Fold(h, x) != Fold(h, y)
  {
    var p, q := x[..k], x[k + 1..];
    assert x == p + ([x[k]] + q);
    assert y == p + ([y[k]] + q);
    FoldAppend(h, p, [x[k]] + q);
    FoldAppend(h, p, [y[k]] + q);
    var g := Fold(h, p);
    FoldAppend(g, [x[k]], q);
    FoldAppend(g, [y[k]], q);
    FoldOne(g, x[k]);
    FoldOne(g, y[k]);
    if Fold(h, x) == Fold(h, y) {
      FoldInjectiveInState(Step(g, x[k]), Step(g, y[k]), q);
      StepInjectiveInByte(g, x[k], y[k]);
    }
  }

  // Published answers: "a" and "foobar" (draft-eastlake-fnv, appendix C).
  lemma KnownAnswers()
    ensures Fold(OFFSET, [0x61]) == 0xaf63dc4c8601ec8c
    ensures Fold(OFFSET, [0x66, 0x6f, 0x6f, 0x62, 0x61, 0x72]) == 0x85944171f73967e8
  {
    FoldOne(OFFSET, 0x61);
    var s: seq<bv8> := [0x66, 0x6f, 0x6f, 0x62, 0x61, 0x72];
    assert s[..0] == [] && s[..1] == [0x66] && s[..2] == s[..1] + [0x6f] && s[..3] == s[..2] + [0x6f];
    assert s[..4] == s[..3] + [0x62] && s[..5] == s[..4] + [0x61] && s == s[..5] + [0x72];
    var h1, h2 := Step(OFFSET, 0x66), Step(Step(OFFSET, 0x66), 0x6f);
    var h3 := Step(h2, 0x6f);
    var h4 := Step(h3, 0x62);
    var h5 := Step(h4, 0x61);
    FoldOne(OFFSET, 0x66);
    FoldSnoc(s[..1], 0x6f);
    FoldSnoc(s[..2], 0x6f);
    FoldSnoc(s[..3], 0x62);
    FoldSnoc(s[..4], 0x61);
    FoldSnoc(s[..5], 0x72);
    assert Step(h5, 0x72) == 0x85944171f73967e8;
  }

  lemma FoldSnoc(s: seq<bv8>, b: bv8)
    ensures Fold(OFFSET, s + [b]) == Step(Fold(OFFSET, s), b)
  {
    assert (s + [b])[..|s|] == s;
  }
}
