/**
  crates/fnprint-sig, first half: tokens to shingles to a MinHash signature, and
  what agreement of two signatures says about the shingle sets behind them.
 */
module Sig {
  import F = Fnv
  import M = MinHash
  import opened Machine
  import opened Trace
  import opened Sorting

  const SIG_LEN: nat := 128
  const SHINGLE_N: nat := 3

  datatype Fingerprint = Fingerprint(sig: seq<U64>, shingles: U32, complexity: U32, capped: bool)

  // ---------- hashing words ----------

  function WordBytes(v: bv64): (r: seq<bv8>)
    ensures |r| == 8
  {
    U64Bytes(M.NatOf(v))
  }

  // The words differ in byte k and nowhere else.
  ghost predicate ApartIn(v: bv64, w: bv64, k: nat) {
    && k < 8 && WordBytes(v)[k] != WordBytes(w)[k]
    && forall i :: 0 <= i < 8 && i != k ==> WordBytes(v)[i] == WordBytes(w)[i]
  }

  function WordsBytes(vals: seq<bv64>): seq<bv8> {
    if vals == [] then [] else WordsBytes(vals[..|vals| - 1]) + WordBytes(vals[|vals| - 1])
  }

  function HashWords(vals: seq<bv64>): bv64 {
    F.Fold(F.OFFSET, WordsBytes(vals))
  }

  method Mix(vals: seq<bv64>) returns (h: bv64)
    ensures h == HashWords(vals)
  {
    hide WordBytes;
    h := F.OFFSET;
    for k := 0 to |vals|
      invariant h == HashWords(vals[..k])
    {
      var bytes := WordBytes(vals[k]);
      ghost var h0 := h;
      for i := 0 to 8
        invariant h == F.Fold(h0, bytes[..i])
      {
        assert bytes[..i + 1][..i] == bytes[..i];
        h := F.Step(h, bytes[i]);
      }
      assert bytes[..8] == bytes;
      assert vals[..k + 1][..k] == vals[..k];
      F.FoldAppend(F.OFFSET, WordsBytes(vals[..k]), bytes);
    }
    assert vals[..|vals|] == vals;
  }

  // ---------- shingles ----------

  function Unigram(t: bv64): bv64 { HashWords([1, t]) }

  function TrigramAt(toks: seq<bv64>, i: nat): bv64
    requires i + 2 < |toks|
  {
    HashWords([3, toks[i], toks[i + 1], toks[i + 2]])
  }

  lemma OneWordByteApart(before: seq<bv64>, v: bv64, w: bv64, after: seq<bv64>, k: nat)
    requires ApartIn(v, w, k)
    ensures HashWords(before + [v] + after) != HashWords(before + [w] + after)
  {
    hide WordBytes, F.Fold;
    var x, y := WordBytes(v), WordBytes(w);
    var p, q := WordsBytes(before), WordsBytes(after);
    WordsBytesSplit(before, v, after);
    WordsBytesSplit(before, w, after);
    F.OneByteNeverCollides(F.OFFSET, p + x + q, p + y + q, |p| + k);
  }

  lemma {:induction false} WordsBytesSplit(before: seq<bv64>, v: bv64, after: seq<bv64>)
    ensures WordsBytes(before + [v] + after) == WordsBytes(before) + WordBytes(v) + WordsBytes(after)
  {
    hide WordBytes;
    var n := |after|;
    if n == 0 {
      assert before + [v] + after == before + [v];
      assert (before + [v])[..|before|] == before;
    } else {
      WordsBytesSplit(before, v, after[..n - 1]);
      var all := before + [v] + after;
      assert all[..|all| - 1] == before + [v] + after[..n - 1];
    }
  }

  // The two shingles of windows that differ in one byte of one token differ, whichever it is.
  lemma ShinglesKeepOneByteApart(s: seq<bv64>, t: seq<bv64>, i: nat, j: nat, k: nat)
    requires i + 2 < |s| == |t| && i <= j <= i + 2 && ApartIn(s[j], t[j], k)
    requires forall m :: i <= m <= i + 2 && m != j ==> s[m] == t[m]
    ensures TrigramAt(s, i) != TrigramAt(t, i) && Unigram(s[j]) != Unigram(t[j])
  {
    hide HashWords, WordBytes;
    var before, after := [3] + s[i..j], s[j + 1..i + 3];
    assert [3, s[i], s[i + 1], s[i + 2]] == before + [s[j]] + after;
    assert [3, t[i], t[i + 1], t[i + 2]] == before + [t[j]] + after;
    OneWordByteApart(before, s[j], t[j], after, k);
    assert [1, s[j]] == [1] + [s[j]] + [] && [1, t[j]] == [1] + [t[j]] + [];
    OneWordByteApart([1], s[j], t[j], [], k);
  }

  ghost function ShinglesOf(toks: seq<bv64>): set<bv64> {
    (set i | 0 <= i < |toks| :: Unigram(toks[i])) +
    (set i | 0 <= i < |toks| - 2 :: TrigramAt(toks, i))
  }

  function WordLe(): (bv64, bv64) -> bool { (x: bv64, y: bv64) => M.NatOf(x) <= M.NatOf(y) }

  ghost function WordLt(): (bv64, bv64) -> bool { (x: bv64, y: bv64) => M.NatOf(x) < M.NatOf(y) }

  lemma WordOrder()
    ensures Reflexes(WordLe(), WordLt())
  {
    hide M.NatOf, M.WordOf;
    forall x: bv64, y: bv64 | WordLe()(x, y) ensures x == y || WordLt()(x, y) {
      M.NatRoundTrip(x);
      M.NatRoundTrip(y);
    }
  }

  // Without repeats and in ascending order: what `sort_unstable` and `dedup` leave.
  ghost predicate Canonical(s: seq<bv64>) { Ascends(s, WordLt()) }

  method SortAndDedup(s: seq<bv64>) returns (r: seq<bv64>)
    ensures Canonical(r)
    ensures Elements(r) == Elements(s)
    ensures |r| == |Elements(s)|
  {
    hide WordLe, WordLt;
    r := SortDedup(s, WordLe());
    WordOrder();
    SortDedupAscends(s, WordLe(), WordLt());
  }

  lemma UnigramsAre(toks: seq<bv64>, x: bv64)
    ensures x in (set i | 0 <= i < |toks| :: Unigram(toks[i])) <==> exists i :: 0 <= i < |toks| && x == HashWords([1, toks[i]])
  {
    hide HashWords;
  }

  lemma TrigramsAre(toks: seq<bv64>, x: bv64)
    ensures x in (set i | 0 <= i < |toks| - 2 :: TrigramAt(toks, i)) <==>
            exists i :: 0 <= i < |toks| - 2 && x == HashWords([3, toks[i], toks[i + 1], toks[i + 2]])
  {
    hide HashWords;
    forall i | 0 <= i < |toks| - 2 ensures TrigramAt(toks, i) == HashWords([3, toks[i], toks[i + 1], toks[i + 2]]) { }
  }

  // What a shingle is: one token behind the mark 1, or three in a row behind the mark 3.
  lemma ShinglesAre(toks: seq<bv64>, x: bv64)
    ensures x in ShinglesOf(toks) <==>
            || (exists i :: 0 <= i < |toks| && x == HashWords([1, toks[i]]))
            || (exists i :: 0 <= i < |toks| - 2 && x == HashWords([3, toks[i], toks[i + 1], toks[i + 2]]))
  {
    hide HashWords, Unigram, TrigramAt;
    UnigramsAre(toks, x);
    TrigramsAre(toks, x);
  }

  method ShingleSet(toks: seq<bv64>) returns (r: seq<bv64>)
    ensures Canonical(r)
    ensures Elements(r) == ShinglesOf(toks)
    ensures |r| == |ShinglesOf(toks)|
  {
    hide HashWords, Canonical;
    var all: seq<bv64> := [];
    if toks == [] {
      assert ShinglesOf(toks) == {} == Elements(all);
      r := SortAndDedup(all);
      return r;
    }
    for i := 0 to |toks|
      invariant Elements(all) == set k | 0 <= k < i :: Unigram(toks[k])
    {
      var h := Mix([1, toks[i]]);
      ElementsSnoc(all, h);
      all := all + [h];
    }
    ghost var uni := Elements(all);
    if |toks| >= SHINGLE_N {
      for i := 0 to |toks| - 2
        invariant Elements(all) == uni + set k | 0 <= k < i :: TrigramAt(toks, k)
      {
        var buf := [3] + toks[i..i + SHINGLE_N];
        assert buf == [3, toks[i], toks[i + 1], toks[i + 2]];
        var h := Mix(buf);
        ElementsSnoc(all, h);
        all := all + [h];
        assert h == TrigramAt(toks, i);
      }
    }
    assert Elements(all) == ShinglesOf(toks);
    r := SortAndDedup(all);
  }

  // ---------- the slot hashes ----------

  const PERM_A: seq<bv64> := [
    0xff51afd7ed558ccd, 0xc4ceb9fe1a85ec53, 0x9e3779b97f4a7c15, 0x2545f4914f6cdd1d,
    0xbf58476d1ce4e5b9, 0x94d049bb133111eb, 0xd6e8feb86659fd93, 0xa0761d6478bd642f]

  const PERM_B: seq<bv64> := [
    0xe7037ed1a0b428db, 0x8ebc6af09c88c6e3, 0x589965cc75374cc3, 0x1d8e4e27c47d124f,
    0xeb44accab455d165, 0x165667b19e3779f9, 0x27d4eb2f165667c5, 0x2545f4914f6cdd1d]

  type Slot = i: nat | i < SIG_LEN

  function SlotA(i: Slot): bv64 {
    Add(F.Mul(PERM_A[i % 8], Odd(i as bv64)), 0x9e3779b97f4a7c15)
  }

  function SlotB(i: Slot): bv64 {
    Add(PERM_B[i % 8], F.Mul(i as bv64, 0x2545f4914f6cdd1d))
  }

  function Odd(a: bv64): bv64 { a | 1 }

  // Wrapping addition.
  function Add(x: bv64, y: bv64): bv64 { x + y }

  function Sub(x: bv64, y: bv64): bv64 { x - y }

  function Affine(x: bv64, a: bv64, b: bv64): bv64 { Add(F.Mul(x, Odd(a)), b) }

  function XorShift(v: bv64): bv64 { v ^ (v >> 29) }

  function SlotWord(i: Slot, x: bv64): bv64 { XorShift(Affine(x, SlotA(i), SlotB(i))) }

  // The hash of shingle x in slot i, as the number the slots are compared by.
  function SlotHash(i: Slot, x: bv64): U64 { M.NatOf(SlotWord(i, x)) }

  lemma ShiftOfXor(v: bv64, w: bv64)
    ensures (v ^ w) >> 29 == (v >> 29) ^ (w >> 29)
    ensures (v ^ w) >> 58 == (v >> 58) ^ (w >> 58)
  {
  }

  lemma ShiftOfShift(v: bv64)
    ensures (v >> 29) >> 29 == v >> 58
    ensures (v >> 29) >> 58 == 0
  {
  }

  lemma XorCancels(v: bv64, p: bv64, q: bv64)
    ensures ((v ^ p) ^ (p ^ q)) ^ (q ^ 0) == v
  {
  }

  function UndoXorShift(w: bv64): bv64 { w ^ (w >> 29) ^ (w >> 58) }

  // Two more xors undo the shift-xor.
  lemma XorShiftUndone(v: bv64)
    ensures UndoXorShift(XorShift(v)) == v
  {
    ShiftOfXor(v, v >> 29);
    ShiftOfShift(v);
    XorCancels(v, v >> 29, v >> 58);
  }

  lemma XorShiftInjective(v: bv64, w: bv64)
    requires XorShift(v) == XorShift(w)
    ensures v == w
  {
    hide XorShift, UndoXorShift;
    XorShiftUndone(v);
    XorShiftUndone(w);
  }

  lemma OddIsOdd(a: bv64)
    ensures Odd(a) & 1 == 1
  {
  }

  lemma SubUndoesPlus(p: bv64, b: bv64)
    ensures Sub(p + b, b) == p
  {
    calc {
      Sub(p + b, b);
      (p + b) - b;
      p;
    }
  }

  lemma AddIsPlus(p: bv64, b: bv64)
    ensures Sub(Add(p, b), b) == Sub(p + b, b)
  {
    hide Sub;
  }

  lemma AddUndone(p: bv64, b: bv64)
    ensures Sub(Add(p, b), b) == p
  {
    hide Add, Sub;
    AddIsPlus(p, b);
    SubUndoesPlus(p, b);
  }

  lemma AddCancels(p: bv64, q: bv64, b: bv64)
    requires Add(p, b) == Add(q, b)
    ensures p == q
  {
    hide Add, Sub;
    AddUndone(p, b);
    AddUndone(q, b);
  }

  lemma AffineInjective(x: bv64, y: bv64, a: bv64, b: bv64)
    requires Affine(x, a, b) == Affine(y, a, b)
    ensures x == y
  {
    hide F.Mul, Odd, Add;
    OddIsOdd(a);
    AddCancels(F.Mul(x, Odd(a)), F.Mul(y, Odd(a)), b);
    F.OddMulInjective(x, y, Odd(a));
  }

  lemma SlotWordInjective(i: Slot, x: bv64, y: bv64)
    requires SlotWord(i, x) == SlotWord(i, y)
    ensures x == y
  {
    hide SlotA, SlotB, Affine, XorShift;
    var a, b := SlotA(i), SlotB(i);
    XorShiftInjective(Affine(x, a, b), Affine(y, a, b));
    AffineInjective(x, y, a, b);
  }

  // Every slot hash is a permutation of the 64-bit words.
  lemma SlotIsAPermutation(i: Slot, w: bv64)
    ensures forall x, y :: SlotWord(i, x) == SlotWord(i, y) ==> x == y
    ensures exists x :: SlotWord(i, x) == w
  {
    hide SlotWord;
    var h := (x: bv64) => SlotWord(i, x);
    forall x, y | SlotWord(i, x) == SlotWord(i, y) ensures x == y { SlotWordInjective(i, x, y); }
    assert M.Injective(h) by {
      forall x, y | h(x) == h(y) ensures x == y { assert SlotWord(i, x) == SlotWord(i, y); }
    }
    M.InjectiveIsOnto(h, w);
    var x :| h(x) == w;
    assert SlotWord(i, x) == w;
  }

  function Family(i: Slot): bv64 -> nat { (x: bv64) => SlotHash(i, x) }

  lemma FamilyInjective(i: Slot)
    ensures M.Injective(Family(i))
  {
    hide SlotWord, M.NatOf, M.WordOf;
    forall x, y | Family(i)(x) == Family(i)(y) ensures x == y {
      M.NatRoundTrip(SlotWord(i, x));
      M.NatRoundTrip(SlotWord(i, y));
      SlotWordInjective(i, x, y);
    }
  }

  // ---------- signatures ----------

  // sig is the MinHash signature of S: per slot the least hash; all zeros for the empty set.
  ghost predicate IsSignature(S: set<bv64>, sig: seq<U64>) {
    && |sig| == SIG_LEN
    && forall i: Slot :: if S == {} then sig[i] == 0 else M.Least(Family(i), S, sig[i])
  }

  method MinHash(shingles: seq<bv64>) returns (sig: seq<U64>)
    ensures IsSignature(Elements(shingles), sig)
  {
    hide SlotWord, M.NatOf;
    if shingles == [] {
      assert Elements(shingles) == {};
      return seq(SIG_LEN, _ => 0);
    }
    assert shingles[0] in Elements(shingles);
    sig := [];
    for i := 0 to SIG_LEN
      invariant |sig| == i
      invariant forall j: Slot :: j < i ==> M.Least(Family(j), Elements(shingles), sig[j])
    {
      var m: U64 := 0xFFFF_FFFF_FFFF_FFFF;
      for k := 0 to |shingles|
        invariant forall j :: 0 <= j < k ==> m <= SlotHash(i, shingles[j])
        invariant if k == 0 then m == 0xFFFF_FFFF_FFFF_FFFF
                  else exists j :: 0 <= j < k && SlotHash(i, shingles[j]) == m
      {
        var v := SlotHash(i, shingles[k]);
        if v < m {
          m := v;
        }
        assert k == 0 ==> SlotHash(i, shingles[0]) == m;
      }
      assert M.Least(Family(i), Elements(shingles), m) by {
        var j :| 0 <= j < |shingles| && SlotHash(i, shingles[j]) == m;
        assert shingles[j] in Elements(shingles) && Family(i)(shingles[j]) == m;
        forall y | y in Elements(shingles) ensures m <= Family(i)(y) {
          var l :| 0 <= l < |shingles| && shingles[l] == y;
        }
      }
      sig := sig + [m];
    }
  }

  lemma SignatureIsUnique(S: set<bv64>, s: seq<U64>, t: seq<U64>)
    requires IsSignature(S, s) && IsSignature(S, t)
    ensures s == t
  {
    hide Family;
    forall i: Slot | true ensures s[i] == t[i] {
      if S != {} { M.LeastIsUnique(Family(i), S, s[i], t[i]); }
    }
  }

  // Slot i of two signatures agrees exactly when the element of either set
  // with the least hash in that slot lies in both.
  lemma SlotTheorem(S: set<bv64>, T: set<bv64>, s: seq<U64>, t: seq<U64>, i: Slot)
    requires S != {} && T != {}
    requires IsSignature(S, s) && IsSignature(T, t)
    ensures s[i] == t[i] <==>
            exists e :: e in S * T && forall y :: y in S + T ==> SlotHash(i, e) <= SlotHash(i, y)
  {
    hide SlotHash;
    FamilyInjective(i);
    M.AgreeIffLeastIsShared(Family(i), S, T, s[i], t[i]);
    assert forall x :: Family(i)(x) == SlotHash(i, x);
  }

  // The signature of a union is the slotwise minimum.
  lemma UnionIsSlotwiseMin(S: set<bv64>, T: set<bv64>, s: seq<U64>, t: seq<U64>, u: seq<U64>)
    requires S != {} && T != {}
    requires IsSignature(S, s) && IsSignature(T, t)
    ensures IsSignature(S + T, u) <==>
            |u| == SIG_LEN && forall i: Slot :: u[i] == if s[i] < t[i] then s[i] else t[i]
  {
    hide Family;
    forall i: Slot | true
      ensures M.Least(Family(i), S + T, if s[i] < t[i] then s[i] else t[i])
    {
      M.LeastOfUnion(Family(i), S, T, s[i], t[i]);
    }
    if IsSignature(S + T, u) {
      forall i: Slot | true ensures u[i] == if s[i] < t[i] then s[i] else t[i] {
        M.LeastIsUnique(Family(i), S + T, u[i], if s[i] < t[i] then s[i] else t[i]);
      }
    }
  }

  // ---------- similarity ----------

  // How many positions agree.
  function Agree(s: seq<U64>, t: seq<U64>): nat
    requires |s| == |t|
  {
    if s == [] then 0
    else Agree(s[..|s| - 1], t[..|s| - 1]) + if s[|s| - 1] == t[|s| - 1] then 1 else 0
  }

  function SigSimilarity(s: seq<U64>, t: seq<U64>): real {
    if |s| != |t| || s == [] then 0.0 else Agree(s, t) as real / |s| as real
  }

  function Similarity(f: Fingerprint, g: Fingerprint): real {
    SigSimilarity(f.sig, g.sig)
  }

  lemma {:induction false} AgreeBounds(s: seq<U64>, t: seq<U64>)
    requires |s| == |t|
    ensures Agree(s, t) <= |s|
    ensures Agree(s, t) == |s| <==> s == t
    ensures Agree(s, t) == 0 <==> forall i :: 0 <= i < |s| ==> s[i] != t[i]
    ensures Agree(s, t) == Agree(t, s)
  {
    if s != [] {
      var n := |s| - 1;
      AgreeBounds(s[..n], t[..n]);
      assert s == s[..n] + [s[n]] && t == t[..n] + [t[n]];
      assert forall i :: 0 <= i < n ==> s[..n][i] == s[i] && t[..n][i] == t[i];
    }
  }

  // Similarity counts the slots two signatures agree in.
  lemma {:induction false} AgreeCounts(s: seq<U64>, t: seq<U64>)
    requires |s| == |t|
    ensures Agree(s, t) == |set i: nat | i < |s| && s[i] == t[i]|
  {
    if s != [] {
      var n := |s| - 1;
      AgreeCounts(s[..n], t[..n]);
      var S := set i: nat | i < n && s[..n][i] == t[..n][i];
      assert (set i: nat | i < |s| && s[i] == t[i]) == S + if s[n] == t[n] then {n} else {};
    }
  }

  lemma SimilarityCountsSlots(f: Fingerprint, g: Fingerprint)
    requires |f.sig| == 128 == |g.sig|
    ensures Similarity(f, g) == |set i: nat | i < 128 && f.sig[i] == g.sig[i]| as real / 128.0
  {
    AgreeCounts(f.sig, g.sig);
  }

  lemma RatioBounds(k: nat, n: nat)
    requires k <= n && n > 0
    ensures 0.0 <= k as real / n as real <= 1.0
    ensures k == 0 ==> k as real / n as real == 0.0
    ensures k == n ==> k as real / n as real == 1.0
  {
  }

  lemma SimilarityBounds(f: Fingerprint, g: Fingerprint)
    ensures 0.0 <= Similarity(f, g) <= 1.0
    ensures Similarity(f, g) == Similarity(g, f)
  {
    if |f.sig| == |g.sig| && f.sig != [] {
      AgreeBounds(f.sig, g.sig);
      RatioBounds(Agree(f.sig, g.sig), |f.sig|);
    }
  }

  // Equal shingle sets print alike; disjoint ones agree nowhere.
  lemma SimilarityExtremes(S: set<bv64>, T: set<bv64>, s: seq<U64>, t: seq<U64>)
    requires IsSignature(S, s) && IsSignature(T, t)
    ensures S == T ==> SigSimilarity(s, t) == 1.0
    ensures S != {} && T != {} && S !! T ==> SigSimilarity(s, t) == 0.0
  {
    hide Family, SlotHash;
    AgreeBounds(s, t);
    RatioBounds(Agree(s, t), |s|);
    if S == T {
      SignatureIsUnique(S, s, t);
    } else if S != {} && T != {} && S !! T {
      forall i: Slot | true ensures s[i] != t[i] {
        SlotTheorem(S, T, s, t, i);
      }
    }
  }

  lemma {:induction false} AgreeMonotone(s: seq<U64>, t: seq<U64>, u: seq<U64>)
    requires |s| == |t| == |u|
    requires forall i :: 0 <= i < |s| && s[i] == u[i] ==> s[i] == t[i] && t[i] == u[i]
    ensures Agree(s, u) <= Agree(s, t) && Agree(s, u) <= Agree(t, u)
  {
    if s != [] {
      var n := |s| - 1;
      assert forall i :: 0 <= i < n ==> s[..n][i] == s[i] && t[..n][i] == t[i] && u[..n][i] == u[i];
      AgreeMonotone(s[..n], t[..n], u[..n]);
    }
  }

  // Along S <= T <= U the slots where the ends agree are those where both links agree,
  // so growing a print only moves it away.
  lemma NestedPrints(S: set<bv64>, T: set<bv64>, U: set<bv64>, s: seq<U64>, t: seq<U64>, u: seq<U64>)
    requires {} < S <= T <= U
    requires IsSignature(S, s) && IsSignature(T, t) && IsSignature(U, u)
    ensures forall i: Slot :: s[i] == u[i] <==> s[i] == t[i] && t[i] == u[i]
    ensures SigSimilarity(s, u) <= SigSimilarity(s, t)
    ensures SigSimilarity(s, u) <= SigSimilarity(t, u)
  {
    hide Family;
    forall i: Slot | true ensures s[i] == u[i] <==> s[i] == t[i] && t[i] == u[i] {
      M.ChainAgreement(Family(i), S, T, U, s[i], t[i], u[i]);
    }
    AgreeMonotone(s, t, u);
  }
}
