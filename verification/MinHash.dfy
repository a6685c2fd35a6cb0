/**
  MinHash over an arbitrary hash without collisions: what it means for two sets
  that their least hashes agree.
 */
module MinHash {
  import opened Sorting

  ghost predicate Injective<T(!new), U(!new)>(h: T -> U) {
    forall x, y :: h(x) == h(y) ==> x == y
  }

  // m is the least hash of S.
  ghost predicate Least<T(!new)>(h: T -> nat, S: set<T>, m: nat) {
    && (exists x :: x in S && h(x) == m)
    && (forall y :: y in S ==> m <= h(y))
  }

  // Two least hashes agree exactly when the element with the least hash of all is shared.
  lemma AgreeIffLeastIsShared<T(!new)>(h: T -> nat, S: set<T>, R: set<T>, m: nat, n: nat)
    requires Injective(h)
    requires Least(h, S, m) && Least(h, R, n)
    ensures m == n <==> exists e :: e in S * R && forall y :: y in S + R ==> h(e) <= h(y)
  {
    var x :| x in S && h(x) == m;
    var z :| z in R && h(z) == n;
    if m == n {
      assert x == z;
      assert x in S * R;
    }
    if e :| e in S * R && forall y :: y in S + R ==> h(e) <= h(y) {
      assert x in S + R && z in S + R;
    }
  }

  lemma LeastOfUnion<T(!new)>(h: T -> nat, S: set<T>, R: set<T>, m: nat, n: nat)
    requires Least(h, S, m) && Least(h, R, n)
    ensures Least(h, S + R, if m < n then m else n)
  {
    var x :| x in S && h(x) == m;
    var z :| z in R && h(z) == n;
    assert x in S + R && z in S + R;
  }

  lemma LeastIsUnique<T(!new)>(h: T -> nat, S: set<T>, m: nat, n: nat)
    requires Least(h, S, m) && Least(h, S, n)
    ensures m == n
  {
  }

  // Along a chain of sets, the ends agree exactly when both links agree.
  lemma ChainAgreement<T(!new)>(h: T -> nat, S: set<T>, R: set<T>, Q: set<T>, s: nat, r: nat, q: nat)
    requires S <= R <= Q
    requires Least(h, S, s) && Least(h, R, r) && Least(h, Q, q)
    ensures s == q <==> s == r && r == q
  {
    var x :| x in S && h(x) == s;
    var y :| y in R && h(y) == r;
  }

  // ---------- an injection of the 64-bit words is onto ----------

  function WordOf(n: nat): bv64
    requires n < 0x1_0000_0000_0000_0000
  {
    n as bv64
  }

  ghost function Words(): set<bv64> {
    set n: nat | n < 0x1_0000_0000_0000_0000 :: WordOf(n)
  }

  lemma WordRoundTrip(w: bv64)
    ensures (w as nat) as bv64 == w
  {
  }

  function NatOf(w: bv64): (n: nat)
    ensures n < 0x1_0000_0000_0000_0000
  {
    w as nat
  }

  lemma NatRoundTrip(w: bv64)
    ensures WordOf(NatOf(w)) == w
  {
    WordRoundTrip(w);
  }

  lemma WordsHasAll(w: bv64)
    ensures w in Words()
  {
    hide WordOf, NatOf;
    NatRoundTrip(w);
  }

  ghost function Image<T>(h: T -> T, S: set<T>): set<T> {
    set x | x in S :: h(x)
  }

  lemma {:induction false} ImageCard<T(!new)>(h: T -> T, S: set<T>)
    requires Injective(h)
    ensures |Image(h, S)| == |S|
  {
    if S != {} {
      var x :| x in S;
      ImageCard(h, S - {x});
      assert Image(h, S) == Image(h, S - {x}) + {h(x)};
    }
  }

  lemma InjectiveIsOnto(h: bv64 -> bv64, w: bv64)
    requires Injective(h)
    ensures exists x :: h(x) == w
  {
    ImageCard(h, Words());
    forall y | y in Image(h, Words()) ensures y in Words() { WordsHasAll(y); }
    SubsetCard(Image(h, Words()), Words());
    WordsHasAll(w);
  }
}
