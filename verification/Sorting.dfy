/**
  The orders and the stable sort the Rust code takes from its standard library:
  byte-wise string order, `sort_by`, `dedup`. `SortBy` is fixed by the lemmas
  beside it: sorted, a permutation, ties kept in their old order.
 */
module Sorting {

  // ---------- strings ----------

  // Rust compares strings by bytes; on UTF-8 that is the order of the code points.
  predicate StrLess(x: string, y: string) {
    if y == [] then false
    else if x == [] then true
    else if x[0] != y[0] then x[0] < y[0]
    else StrLess(x[1..], y[1..])
  }

  // The strings part at k: there one ends, or has the smaller character.
  ghost predicate PartAt(x: string, y: string, k: nat) {
    && k <= |x| && k < |y| && x[..k] == y[..k]
    && (k < |x| ==> x[k] < y[k])
  }

  // The order is that of a dictionary.
  lemma {:induction false} StrLessIs(x: string, y: string)
    ensures StrLess(x, y) <==> exists k :: PartAt(x, y, k)
  {
    if x == [] || y == [] {
      if y != [] { assert PartAt(x, y, 0); }
    } else {
      StrLessIs(x[1..], y[1..]);
      if x[0] == y[0] {
        if k: nat :| PartAt(x[1..], y[1..], k) { PartsLater(x, y, k); }
        if k: nat :| PartAt(x, y, k) { PartsEarlier(x, y, k); }
      } else {
        if x[0] < y[0] { assert PartAt(x, y, 0); }
        if k: nat :| PartAt(x, y, k) {
          if k > 0 { SameStart(x, y, k); }
        }
      }
    }
  }

  lemma SameStart(x: string, y: string, k: nat)
    requires 0 < k <= |x| && k <= |y| && x[..k] == y[..k]
    ensures x[0] == y[0]
  {
    assert x[..k][0] == x[0] && y[..k][0] == y[0];
  }

  lemma PartsLater(x: string, y: string, k: nat)
    requires x != [] && y != [] && x[0] == y[0] && PartAt(x[1..], y[1..], k)
    ensures PartAt(x, y, k + 1)
  {
    assert x[..k + 1] == [x[0]] + x[1..][..k] && y[..k + 1] == [y[0]] + y[1..][..k];
  }

  lemma PartsEarlier(x: string, y: string, k: nat)
    requires x != [] && y != [] && x[0] == y[0] && PartAt(x, y, k)
    ensures k > 0 && PartAt(x[1..], y[1..], k - 1)
  {
    if k > 0 { assert x[1..][..k - 1] == x[..k][1..] && y[1..][..k - 1] == y[..k][1..]; }
  }

  lemma {:induction false} StrLessIrreflexive(x: string)
    ensures !StrLess(x, x)
  {
    if x != [] { StrLessIrreflexive(x[1..]); }
  }

  lemma {:induction false} StrLessTransitive(x: string, y: string, z: string)
    requires StrLess(x, y) && StrLess(y, z)
    ensures StrLess(x, z)
  {
    if x != [] && x[0] == y[0] == z[0] {
      StrLessTransitive(x[1..], y[1..], z[1..]);
    }
  }

  lemma {:induction false} StrLessTotal(x: string, y: string)
    ensures StrLess(x, y) || StrLess(y, x) || x == y
  {
    if x != [] && y != [] && x[0] == y[0] {
      StrLessTotal(x[1..], y[1..]);
      assert x == [x[0]] + x[1..] && y == [y[0]] + y[1..];
    }
  }

  lemma StrOrder()
    ensures forall x :: !StrLess(x, x)
    ensures forall x, y, z :: StrLess(x, y) && StrLess(y, z) ==> StrLess(x, z)
    ensures forall x, y :: StrLess(x, y) || StrLess(y, x) || x == y
  {
    forall x ensures !StrLess(x, x) { StrLessIrreflexive(x); }
    forall x, y, z | StrLess(x, y) && StrLess(y, z) ensures StrLess(x, z) { StrLessTransitive(x, y, z); }
    forall x, y ensures StrLess(x, y) || StrLess(y, x) || x == y { StrLessTotal(x, y); }
  }

  // ---------- sorted sequences ----------

  ghost predicate TotalPreorder<T(!new)>(le: (T, T) -> bool) {
    && (forall x, y :: le(x, y) || le(y, x))
    && (forall x, y, z :: le(x, y) && le(y, z) ==> le(x, z))
  }

  ghost predicate Sorted<T>(s: seq<T>, le: (T, T) -> bool) {
    forall i, j :: 0 <= i < j < |s| ==> le(s[i], s[j])
  }

  // No two different elements tie.
  ghost predicate Strict<T>(s: seq<T>, le: (T, T) -> bool) {
    forall x, y :: x in s && y in s && le(x, y) && le(y, x) ==> x == y
  }

  ghost predicate NoDup<T>(s: seq<T>) {
    forall i, j :: 0 <= i < j < |s| ==> s[i] != s[j]
  }

  function Insert<T>(x: T, s: seq<T>, le: (T, T) -> bool): seq<T> {
    if s == [] then [x]
    else if le(x, s[0]) then [x] + s
    else [s[0]] + Insert(x, s[1..], le)
  }

  function SortBy<T>(s: seq<T>, le: (T, T) -> bool): seq<T> {
    if s == [] then [] else Insert(s[0], SortBy(s[1..], le), le)
  }

  lemma {:induction false} InsertKeeps<T>(x: T, s: seq<T>, le: (T, T) -> bool)
    ensures multiset(Insert(x, s, le)) == multiset{x} + multiset(s)
    ensures forall y :: y in Insert(x, s, le) <==> y == x || y in s
  {
    if s != [] && !le(x, s[0]) {
      InsertKeeps(x, s[1..], le);
      assert s == [s[0]] + s[1..];
    }
  }

  lemma {:induction false} InsertSorts<T(!new)>(x: T, s: seq<T>, le: (T, T) -> bool)
    requires TotalPreorder(le) && Sorted(s, le)
    ensures Sorted(Insert(x, s, le), le)
  {
    if s != [] && !le(x, s[0]) {
      InsertSorts(x, s[1..], le);
      InsertKeeps(x, s[1..], le);
      var t := Insert(x, s[1..], le);
      forall j | 0 <= j < |t| ensures le(s[0], t[j]) {
        assert t[j] in t;
        if t[j] != x { assert t[j] in s[1..]; }
      }
    }
  }

  lemma {:induction false} SortBySorts<T(!new)>(s: seq<T>, le: (T, T) -> bool)
    ensures multiset(SortBy(s, le)) == multiset(s)
    ensures |SortBy(s, le)| == |s|
    ensures forall x :: x in SortBy(s, le) <==> x in s
    ensures TotalPreorder(le) ==> Sorted(SortBy(s, le), le)
  {
    if s != [] {
      SortBySorts(s[1..], le);
      InsertKeeps(s[0], SortBy(s[1..], le), le);
      if TotalPreorder(le) { InsertSorts(s[0], SortBy(s[1..], le), le); }
      assert s == [s[0]] + s[1..];
    }
    SameElements(SortBy(s, le), s);
  }

  lemma SameElements<T>(s: seq<T>, t: seq<T>)
    requires multiset(s) == multiset(t)
    ensures |s| == |t|
    ensures forall x :: x in s <==> x in t
  {
    assert |multiset(s)| == |s| && |multiset(t)| == |t|;
    assert forall x :: x in s <==> x in multiset(s);
    assert forall x :: x in t <==> x in multiset(t);
  }

  lemma {:induction false} InsertFront<T(!new)>(x: T, s: seq<T>, le: (T, T) -> bool)
    requires forall y :: y in s ==> le(x, y)
    ensures Insert(x, s, le) == [x] + s
  {
  }

  // Sorting a sorted sequence moves nothing, ties included.
  lemma {:induction false} SortBySortedIsIdentity<T(!new)>(s: seq<T>, le: (T, T) -> bool)
    requires Sorted(s, le)
    ensures SortBy(s, le) == s
  {
    if s != [] {
      SortBySortedIsIdentity(s[1..], le);
      assert s == [s[0]] + s[1..];
      InsertFront(s[0], s[1..], le);
    }
  }

  // The elements of s that tie with x, in order.
  function Ties<T>(x: T, s: seq<T>, le: (T, T) -> bool): seq<T> {
    if s == [] then []
    else (if le(x, s[0]) && le(s[0], x) then [s[0]] else []) + Ties(x, s[1..], le)
  }

  lemma {:induction false} InsertIsStable<T(!new)>(x: T, y: T, s: seq<T>, le: (T, T) -> bool)
    requires TotalPreorder(le) && Sorted(s, le)
    ensures Ties(x, Insert(y, s, le), le) == Ties(x, [y] + s, le)
  {
    assert ([y] + s)[1..] == s;
    if s != [] && !le(y, s[0]) {
      InsertIsStable(x, y, s[1..], le);
      assert ([y] + s[1..])[1..] == s[1..];
      var r := Insert(y, s, le);
      assert r[1..] == Insert(y, s[1..], le);
    }
  }

  // The sort is stable: every class of ties keeps its order.
  lemma {:induction false} SortByIsStable<T(!new)>(x: T, s: seq<T>, le: (T, T) -> bool)
    requires TotalPreorder(le)
    ensures Ties(x, SortBy(s, le), le) == Ties(x, s, le)
  {
    if s != [] {
      SortByIsStable(x, s[1..], le);
      SortBySorts(s[1..], le);
      InsertIsStable(x, s[0], SortBy(s[1..], le), le);
      assert ([s[0]] + SortBy(s[1..], le))[1..] == SortBy(s[1..], le);
    }
  }

  lemma SortedHead<T>(s: seq<T>, t: seq<T>, le: (T, T) -> bool)
    requires s != [] && t != [] && s[0] in t && t[0] in s
    requires Sorted(s, le) && Sorted(t, le)
    requires Strict(s, le)
    ensures s[0] == t[0]
  {
    var i: nat :| i < |t| && t[i] == s[0];
    var j: nat :| j < |s| && s[j] == t[0];
    assert j == 0 || le(s[0], s[j]);
    assert i == 0 || le(t[0], t[i]);
  }

  lemma MultisetTail<T>(s: seq<T>)
    requires s != []
    ensures multiset(s[1..]) == multiset(s) - multiset{s[0]}
  {
    assert s == [s[0]] + s[1..];
  }

  lemma TailKeeps<T>(s: seq<T>, le: (T, T) -> bool)
    requires s != []
    ensures Strict(s, le) ==> Strict(s[1..], le)
    ensures Sorted(s, le) ==> Sorted(s[1..], le)
  {
    assert forall x :: x in s[1..] ==> x in s;
  }

  lemma HeadsMeet<T>(s: seq<T>, t: seq<T>)
    requires s != [] && multiset(s) == multiset(t)
    ensures t != [] && s[0] in t && t[0] in s
  {
    SameElements(s, t);
    assert t != [];
  }

  lemma ConsEqual<T>(s: seq<T>, t: seq<T>)
    requires s != [] && t != [] && s[0] == t[0] && s[1..] == t[1..]
    ensures s == t
  {
    assert s == [s[0]] + s[1..] && t == [t[0]] + t[1..];
  }

  // Without ties there is one sorted arrangement.
  lemma {:induction false} SortedUnique<T>(s: seq<T>, t: seq<T>, le: (T, T) -> bool)
    requires multiset(s) == multiset(t)
    requires Sorted(s, le) && Sorted(t, le)
    requires Strict(s, le)
    ensures s == t
  {
    hide Strict, Sorted;
    if s == [] {
      SameElements(s, t);
    } else {
      HeadsMeet(s, t);
      SortedHead(s, t, le);
      MultisetTail(s);
      MultisetTail(t);
      TailKeeps(s, le);
      TailKeeps(t, le);
      SortedUnique(s[1..], t[1..], le);
      ConsEqual(s, t);
    }
  }

  // A sort without ties depends only on the elements.
  lemma SortByPermutation<T(!new)>(s: seq<T>, t: seq<T>, le: (T, T) -> bool)
    requires TotalPreorder(le)
    requires multiset(s) == multiset(t)
    requires Strict(s, le)
    ensures SortBy(s, le) == SortBy(t, le)
  {
    SortBySorts(s, le);
    SortBySorts(t, le);
    SortedUnique(SortBy(s, le), SortBy(t, le), le);
  }

  lemma {:induction false} NoDupMultiset<T>(s: seq<T>)
    requires NoDup(s)
    ensures forall x :: multiset(s)[x] == if x in s then 1 else 0
  {
    if s != [] {
      assert s == [s[0]] + s[1..];
      NoDupMultiset(s[1..]);
    }
  }

  lemma TwiceInMultiset<T>(t: seq<T>, i: nat, j: nat)
    requires i < j < |t| && t[i] == t[j]
    ensures multiset(t)[t[i]] >= 2
  {
    assert t == t[..i] + [t[i]] + t[i + 1..j] + [t[j]] + t[j + 1..];
  }

  lemma NoDupPermutation<T>(s: seq<T>, t: seq<T>)
    requires NoDup(s) && multiset(s) == multiset(t)
    ensures NoDup(t)
  {
    NoDupMultiset(s);
    forall i, j | 0 <= i < j < |t| ensures t[i] != t[j] {
      if t[i] == t[j] { TwiceInMultiset(t, i, j); }
    }
  }

  lemma SameSetSameMultiset<T>(s: seq<T>, t: seq<T>)
    requires NoDup(s) && NoDup(t)
    requires forall x :: x in s <==> x in t
    ensures multiset(s) == multiset(t)
  {
    NoDupMultiset(s);
    NoDupMultiset(t);
  }

  // ---------- dedup ----------

  // `dedup_by_key`: drops an element whose key equals that of the one kept before it.
  function DedupBy<T, K(==)>(s: seq<T>, key: T -> K): seq<T> {
    if s == [] then []
    else
      var d := DedupBy(s[..|s| - 1], key);
      if d != [] && key(d[|d| - 1]) == key(s[|s| - 1]) then d else d + [s[|s| - 1]]
  }

  // Elements with equal keys sit side by side, as after a sort on the key.
  ghost predicate Grouped<T, K(!new)>(s: seq<T>, key: T -> K, klt: (K, K) -> bool) {
    forall i, j :: 0 <= i < j < |s| ==> key(s[i]) == key(s[j]) || klt(key(s[i]), key(s[j]))
  }

  ghost predicate KeysAscend<T, K(!new)>(s: seq<T>, key: T -> K, klt: (K, K) -> bool) {
    forall i, j :: 0 <= i < j < |s| ==> klt(key(s[i]), key(s[j]))
  }

  ghost predicate StrictOrder<K(!new)>(klt: (K, K) -> bool) {
    && (forall x :: !klt(x, x))
    && (forall x, y, z :: klt(x, y) && klt(y, z) ==> klt(x, z))
  }

  // x is the first element of s with its key.
  ghost predicate FirstOfKey<T, K>(s: seq<T>, key: T -> K, i: nat) {
    i < |s| && forall j :: 0 <= j < i ==> key(s[j]) != key(s[i])
  }

  lemma {:induction false} DedupBySubset<T, K>(s: seq<T>, key: T -> K)
    ensures forall x :: x in DedupBy(s, key) ==> x in s
    ensures s != [] ==> DedupBy(s, key) != [] && key(DedupBy(s, key)[|DedupBy(s, key)| - 1]) == key(s[|s| - 1])
  {
    if s != [] { DedupBySubset(s[..|s| - 1], key); }
  }

  // Dropping repeats of the key just kept leaves keys that strictly ascend.
  lemma {:induction false} DedupByAscends<T, K(!new)>(s: seq<T>, key: T -> K, klt: (K, K) -> bool)
    requires StrictOrder(klt) && Grouped(s, key, klt)
    ensures KeysAscend(DedupBy(s, key), key, klt)
  {
    if s != [] {
      var n := |s| - 1;
      var d := DedupBy(s[..n], key);
      DedupByAscends(s[..n], key, klt);
      DedupBySubset(s[..n], key);
      if d == [] || key(d[|d| - 1]) != key(s[n]) {
        forall i | 0 <= i < |d| ensures klt(key(d[i]), key(s[n])) {
          var last := d[|d| - 1];
          assert last in s[..n];
          var k: nat :| k < n && s[k] == last;
          assert klt(key(last), key(s[n]));
          if i < |d| - 1 { assert klt(key(d[i]), key(last)); }
        }
      }
    }
  }

  // One element is left for every key: the first that carried it.
  lemma {:induction false} DedupByKeepsFirst<T, K(!new)>(s: seq<T>, key: T -> K, klt: (K, K) -> bool, i: nat)
    requires StrictOrder(klt) && Grouped(s, key, klt)
    requires FirstOfKey(s, key, i)
    ensures s[i] in DedupBy(s, key)
  {
    var n := |s| - 1;
    var d := DedupBy(s[..n], key);
    if i < n {
      DedupByKeepsFirst(s[..n], key, klt, i);
    } else if n > 0 {
      DedupBySubset(s[..n], key);
      assert key(d[|d| - 1]) == key(s[n - 1]);
    }
  }

  // Strictly ascending naturals: the form `sort_unstable` + `dedup` leaves.
  ghost predicate Ascending(s: seq<nat>) {
    forall i, j :: 0 <= i < j < |s| ==> s[i] < s[j]
  }

  lemma {:induction false} AscendingUnique(s: seq<nat>, t: seq<nat>)
    requires Ascending(s) && Ascending(t)
    requires forall x :: x in s <==> x in t
    ensures s == t
  {
    if s == [] {
      assert forall i :: 0 <= i < |t| ==> t[i] in t;
    } else {
      assert s[0] in t && t != [];
      assert t[0] in s;
      assert s[0] == t[0];
      assert s == [s[0]] + s[1..] && t == [t[0]] + t[1..];
      forall x ensures x in s[1..] <==> x in t[1..] {
        if x in s[1..] { assert x in t && x != s[0]; }
        if x in t[1..] { assert x in s && x != t[0]; }
      }
      AscendingUnique(s[1..], t[1..]);
    }
  }

  ghost function Elements<T>(s: seq<T>): set<T> { set x | x in s }

  lemma ElementsSnoc<T>(s: seq<T>, x: T)
    ensures Elements(s + [x]) == Elements(s) + {x}
  {
  }

  ghost predicate Ascends<T(!new)>(s: seq<T>, lt: (T, T) -> bool) {
    forall i, j :: 0 <= i < j < |s| ==> lt(s[i], s[j])
  }

  ghost predicate Reflexes<T(!new)>(le: (T, T) -> bool, lt: (T, T) -> bool) {
    && TotalPreorder(le)
    && StrictOrder(lt)
    && forall x, y :: le(x, y) ==> x == y || lt(x, y)
  }

  // `sort_unstable` followed by `dedup`.
  function SortDedup<T(==)>(s: seq<T>, le: (T, T) -> bool): seq<T> {
    DedupBy(SortBy(s, le), (x: T) => x)
  }

  // Sort and dedup leave every element once, in ascending order.
  lemma SortDedupAscends<T(!new)>(s: seq<T>, le: (T, T) -> bool, lt: (T, T) -> bool)
    requires Reflexes(le, lt)
    ensures Ascends(SortDedup(s, le), lt)
    ensures forall x :: x in SortDedup(s, le) <==> x in s
    ensures |SortDedup(s, le)| == |Elements(s)|
  {
    var t := SortBy(s, le);
    var id := (x: T) => x;
    SortBySorts(s, le);
    assert Grouped(t, id, lt) by {
      forall i, j | 0 <= i < j < |t| ensures t[i] == t[j] || lt(t[i], t[j]) { assert le(t[i], t[j]); }
    }
    var r := SortDedup(s, le);
    DedupByAscends(t, id, lt);
    DedupBySubset(t, id);
    forall i, j | 0 <= i < j < |r| ensures lt(r[i], r[j]) { assert lt(id(r[i]), id(r[j])); }
    forall x | x in s ensures x in r {
      var i := FirstIndex(t, x);
      DedupByKeepsFirst(t, id, lt, i);
    }
    assert Elements(r) == Elements(s);
    NoDupCard(r);
  }

  lemma {:induction false} NoDupCard<T>(r: seq<T>)
    requires NoDup(r)
    ensures |Elements(r)| == |r|
  {
    if r != [] {
      NoDupCard(r[1..]);
      assert Elements(r) == {r[0]} + Elements(r[1..]);
    }
  }

  lemma SubsetCard<T>(S: set<T>, R: set<T>)
    requires S <= R
    ensures |S| <= |R|
    ensures |S| == |R| ==> S == R
  {
    assert |R - S| == |R| - |S|;
  }

  function NatLe(): (nat, nat) -> bool { (x: nat, y: nat) => x <= y }

  ghost function NatLt(): (nat, nat) -> bool { (x: nat, y: nat) => x < y }

  lemma SortDedupNat(s: seq<nat>)
    ensures Ascending(SortDedup(s, NatLe()))
    ensures forall x :: x in SortDedup(s, NatLe()) <==> x in s
  {
    SortDedupAscends(s, NatLe(), NatLt());
    var r := SortDedup(s, NatLe());
    forall i, j | 0 <= i < j < |r| ensures r[i] < r[j] { assert NatLt()(r[i], r[j]); }
  }

  lemma FirstIndex<T>(s: seq<T>, x: T) returns (i: nat)
    requires x in s
    ensures i < |s| && s[i] == x && forall j :: 0 <= j < i ==> s[j] != x
  {
    i := 0;
    while s[i] != x
      decreases |s| - i
      invariant i < |s| && x in s[i..]
      invariant forall j :: 0 <= j < i ==> s[j] != x
    {
      assert s[i..] == [s[i]] + s[i+1..];
      i := i + 1;
    }
  }

  // The in-place sort of a slice.
  method SortInPlace<T>(arr: array<T>, le: (T, T) -> bool)
    modifies arr
    ensures arr[..] == SortBy(old(arr[..]), le)
  {
    var sorted := SortBy(arr[..], le);
    LengthOfSort(arr[..], le);
    forall i | 0 <= i < arr.Length {
      arr[i] := sorted[i];
    }
    assert arr[..] == sorted;
  }

  lemma {:induction false} LengthOfSort<T>(s: seq<T>, le: (T, T) -> bool)
    ensures |SortBy(s, le)| == |s|
  {
    if s != [] {
      LengthOfSort(s[1..], le);
      LengthOfInsert(s[0], SortBy(s[1..], le), le);
    }
  }

  lemma {:induction false} LengthOfInsert<T>(x: T, s: seq<T>, le: (T, T) -> bool)
    ensures |Insert(x, s, le)| == |s| + 1
  {
    if s != [] { LengthOfInsert(x, s[1..], le); }
  }
}
