/**
  crates/fnprint-sig, minhash: the 128 slots are 128 different hashes. Every slot has its own
  multiplier and its own addend, told apart by their low 16 bits.
 */
module Slots {
  import F = Fnv
  import M = MinHash
  import opened Machine
  import opened Sig

  // ---------- slot numbers as words ----------

  lemma NextWord(w: bv7)
    requires w < 127
    ensures ((w + 1) as bv64) as nat == (w as bv64) as nat + 1
  {
  }

  lemma WordBelow(w: bv7, i: nat)
    requires (w as bv64) as nat == i && i < 127
    ensures w < 127
  {
  }

  lemma WordResidue(u: bv64)
    requires u < 128
    ensures (u & 7) as nat == (u as nat) % 8
  {
  }

  // w is slot i's number.
  ghost predicate Is(w: bv7, i: Slot) { (w as bv64) as nat == i && i as bv64 == w as bv64 }

  lemma IsByValue(w: bv7, i: Slot)
    requires (w as bv64) as nat == i
    ensures Is(w, i)
  {
    M.WordRoundTrip(w as bv64);
  }

  lemma NextIs(w: bv7, i: Slot)
    requires Is(w, i) && i < 127
    ensures Is(w + 1, i + 1)
  {
    WordBelow(w, i);
    NextWord(w);
    IsByValue(w + 1, i + 1);
  }

  lemma {:induction false} SlotNumber(i: Slot) returns (w: bv7)
    ensures Is(w, i)
  {
    hide Is;
    if i == 0 {
      w := 0;
      IsByValue(0, 0);
    } else {
      w := SlotNumber(i - 1);
      NextIs(w, i - 1);
      w := w + 1;
    }
  }

  lemma ResidueOf(w: bv7, i: Slot)
    requires Is(w, i)
    ensures i % 8 == ((w as bv64) & 7) as nat
    ensures (i % 8) as bv64 == (w as bv64) & 7
  {
    var u := w as bv64;
    assert u < 128;
    WordResidue(u);
    M.WordRoundTrip(u & 7);
  }

  // ---------- the constants, by word ----------

  function PickA(r: bv64): bv64 {
    if r == 0 then 0xff51afd7ed558ccd else if r == 1 then 0xc4ceb9fe1a85ec53
    else if r == 2 then 0x9e3779b97f4a7c15 else if r == 3 then 0x2545f4914f6cdd1d
    else if r == 4 then 0xbf58476d1ce4e5b9 else if r == 5 then 0x94d049bb133111eb
    else if r == 6 then 0xd6e8feb86659fd93 else 0xa0761d6478bd642f
  }

  function PickB(r: bv64): bv64 {
    if r == 0 then 0xe7037ed1a0b428db else if r == 1 then 0x8ebc6af09c88c6e3
    else if r == 2 then 0x589965cc75374cc3 else if r == 3 then 0x1d8e4e27c47d124f
    else if r == 4 then 0xeb44accab455d165 else if r == 5 then 0x165667b19e3779f9
    else if r == 6 then 0x27d4eb2f165667c5 else 0x2545f4914f6cdd1d
  }

  lemma Constants(k: nat, r: bv64)
    requires k < 8 && k as bv64 == r
    ensures PERM_A[k] == PickA(r) && PERM_B[k] == PickB(r)
  {
    if k == 0 { } else if k == 1 { } else if k == 2 { } else if k == 3 { }
    else if k == 4 { } else if k == 5 { } else if k == 6 { } else { }
  }

  function Multiplier(w: bv7): bv64 {
    Odd(Add(F.Mul(PickA((w & 7) as bv64), Odd(w as bv64)), 0x9e3779b97f4a7c15))
  }

  function Addend(w: bv7): bv64 { Add(PickB((w & 7) as bv64), F.Mul(w as bv64, 0x2545f4914f6cdd1d)) }

  lemma SlotConstants(w: bv7, i: Slot)
    requires Is(w, i)
    ensures Odd(SlotA(i)) == Multiplier(w) && SlotB(i) == Addend(w)
  {
    hide PickA, PickB, F.Mul, Add, Odd;
    ResidueOf(w, i);
    Constants(i % 8, (w as bv64) & 7);
    WidenResidue(w);
  }

  lemma WidenResidue(w: bv7)
    ensures (w as bv64) & 7 == (w & 7) as bv64
  {
  }

  // ---------- no two slots share a constant ----------

  // Their low 16 bits tell them apart.
  function LowMultiplier(w: bv7): bv64 {
    Odd(Add(F.Mul(PickA((w & 7) as bv64), Odd(w as bv64)), 0x9e3779b97f4a7c15)) & 0xffff
  }

  function LowAddend(w: bv7): bv64 { Add(PickB((w & 7) as bv64), F.Mul(w as bv64, 0x2545f4914f6cdd1d)) & 0xffff }

  lemma LowParts(w: bv7)
    ensures Multiplier(w) & 0xffff == LowMultiplier(w) && Addend(w) & 0xffff == LowAddend(w)
  {
    hide PickA, PickB, F.Mul, Add, Odd;
  }

  lemma LowAddendsDiffer0(w: bv7, v: bv7)
    requires w < v && w & 2 == 0
    ensures LowAddend(w) != LowAddend(v)
  {
  }

  lemma LowAddendsDiffer2(w: bv7, v: bv7)
    requires w < v && w & 2 == 2
    ensures LowAddend(w) != LowAddend(v)
  {
  }

  lemma LowMultipliersDiffer0(w: bv7, v: bv7)
    requires w < v && w & 6 == 0
    ensures LowMultiplier(w) != LowMultiplier(v)
  {
  }

  lemma LowMultipliersDiffer2(w: bv7, v: bv7)
    requires w < v && w & 6 == 2
    ensures LowMultiplier(w) != LowMultiplier(v)
  {
  }

  lemma LowMultipliersDiffer4(w: bv7, v: bv7)
    requires w < v && w & 6 == 4
    ensures LowMultiplier(w) != LowMultiplier(v)
  {
  }

  lemma LowMultipliersDiffer6(w: bv7, v: bv7)
    requires w < v && w & 6 == 6
    ensures LowMultiplier(w) != LowMultiplier(v)
  {
  }

  lemma SixSplits(w: bv7)
    ensures (w & 2 == 0 && (w & 6 == 0 || w & 6 == 4)) || (w & 2 == 2 && (w & 6 == 2 || w & 6 == 6))
  {
  }

  lemma LowPartsDiffer(w: bv7, v: bv7)
    requires w < v
    ensures LowMultiplier(w) != LowMultiplier(v) && LowAddend(w) != LowAddend(v)
  {
    hide LowMultiplier, LowAddend;
    SixSplits(w);
    if w & 2 == 0 { LowAddendsDiffer0(w, v); } else { LowAddendsDiffer2(w, v); }
    if w & 6 == 0 {
      LowMultipliersDiffer0(w, v);
    } else if w & 6 == 2 {
      LowMultipliersDiffer2(w, v);
    } else if w & 6 == 4 {
      LowMultipliersDiffer4(w, v);
    } else {
      LowMultipliersDiffer6(w, v);
    }
  }

  lemma SameWordSameSlot(w: bv7, i: Slot, j: Slot)
    requires Is(w, i) && Is(w, j)
    ensures i == j
  {
  }

  lemma Trichotomy(w: bv7, v: bv7)
    ensures w < v || v < w || w == v
  {
  }

  // The slots have 128 multipliers and 128 addends.
  lemma ConstantsDiffer(i: Slot, j: Slot)
    requires i != j
    ensures Odd(SlotA(i)) != Odd(SlotA(j)) && SlotB(i) != SlotB(j)
  {
    hide Is, Odd, SlotA, SlotB, Multiplier, Addend, LowMultiplier, LowAddend;
    var w := SlotNumber(i);
    var v := SlotNumber(j);
    SlotConstants(w, i);
    SlotConstants(v, j);
    LowParts(w);
    LowParts(v);
    Trichotomy(w, v);
    if w < v {
      LowPartsDiffer(w, v);
    } else if v < w {
      LowPartsDiffer(v, w);
    } else {
      SameWordSameSlot(w, i, j);
    }
  }

  // ---------- 128 different hashes ----------

  lemma AffineAtZero(a: bv64, b: bv64)
    ensures Affine(0, a, b) == b
  {
    MulZero(Odd(a));
    AddZero(b);
  }

  lemma MulZero(a: bv64)
    ensures F.Mul(0, a) == 0
  {
  }

  lemma AddZero(b: bv64)
    ensures Add(0, b) == b
  {
  }

  lemma AffineAtOne(a: bv64, b: bv64)
    ensures Affine(1, a, b) == Add(Odd(a), b)
  {
    MulOne(Odd(a));
  }

  lemma MulOne(a: bv64)
    ensures F.Mul(1, a) == a
  {
  }

  // No two slots of any signature that holds the one shingle 0 agree.
  lemma SlotsDifferAtZero(s: seq<U64>, i: Slot, j: Slot)
    requires IsSignature({0}, s) && i != j
    ensures s[i] != s[j]
  {
    hide Odd, SlotA, SlotB, XorShift, Affine, M.NatOf, M.WordOf;
    ConstantsDiffer(i, j);
    AffineAtZero(SlotA(i), SlotB(i));
    AffineAtZero(SlotA(j), SlotB(j));
    assert s[i] == SlotHash(i, 0) && s[j] == SlotHash(j, 0);
    if s[i] == s[j] {
      M.NatRoundTrip(SlotWord(i, 0));
      M.NatRoundTrip(SlotWord(j, 0));
      XorShiftInjective(SlotB(i), SlotB(j));
    }
  }

  // What a slot hashes to before its bits are mixed.
  function Unmixed(i: Slot, x: bv64): bv64 { UndoXorShift(SlotWord(i, x)) }

  // Nor is one slot's hash another's with a constant added: from shingle 0 to shingle 1 each
  // moves by a step of its own.
  lemma SlotsMoveDifferently(i: Slot, j: Slot)
    requires i != j
    ensures Sub(Unmixed(i, 1), Unmixed(i, 0)) != Sub(Unmixed(j, 1), Unmixed(j, 0))
  {
    hide Odd, SlotA, SlotB, XorShift, UndoXorShift, Sub, Add;
    ConstantsDiffer(i, j);
    StepOf(i);
    StepOf(j);
  }

  lemma StepOf(i: Slot)
    ensures Sub(Unmixed(i, 1), Unmixed(i, 0)) == Odd(SlotA(i))
  {
    hide Odd, SlotA, SlotB, XorShift, UndoXorShift, Sub, Add, Affine;
    var a, b := SlotA(i), SlotB(i);
    XorShiftUndone(Affine(1, a, b));
    XorShiftUndone(Affine(0, a, b));
    AffineAtZero(a, b);
    AffineAtOne(a, b);
    AddUndone(Odd(a), b);
  }
}
