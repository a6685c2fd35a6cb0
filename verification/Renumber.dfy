/**
  The call graph does not see how the functions of a side are numbered: over a reordered
  side the same neighbours are resolved, and graph_score comes out the same.
 */
module Renumber {
  import opened Sorting
  import opened Wrappers
  import opened Counting
  import opened Assign
  import opened Graph

  // The functions a list of indices stands for.
  function At(xs: seq<nat>, ns: seq<Node>): (r: seq<Node>)
    requires InBounds(xs, |ns|)
    ensures |r| == |xs|
  {
    seq(|xs|, k requires 0 <= k < |xs| => ns[xs[k]])
  }

  // ns2 is ns in another order, and no two functions share a key.
  ghost predicate Reordered(ns: seq<Node>, ns2: seq<Node>, scoped: bool) {
    multiset(ns) == multiset(ns2) && NoDup(KeysOf(ns, scoped)) && NoDup(KeysOf(ns2, scoped))
  }

  lemma KeysTellApart(ns: seq<Node>, scoped: bool, i: nat, j: nat)
    requires NoDup(KeysOf(ns, scoped)) && i < |ns| && j < |ns|
    requires KeysOf(ns, scoped)[i] == KeysOf(ns, scoped)[j]
    ensures i == j
  {
  }

  lemma KeysDiffer(ns: seq<Node>, scoped: bool, i: nat, j: nat)
    requires NoDup(KeysOf(ns, scoped)) && i < |ns| && j < |ns| && i != j
    ensures ns[i] != ns[j]
  {
    assert KeysOf(ns, scoped)[i] != KeysOf(ns, scoped)[j];
  }

  // ---------- the same neighbours ----------

  lemma KeyRenumbers(k: Key, ns: seq<Node>, ns2: seq<Node>, scoped: bool)
    requires Reordered(ns, ns2, scoped)
    ensures k in IndexBy(KeysOf(ns, scoped)) <==> k in IndexBy(KeysOf(ns2, scoped))
    ensures k in IndexBy(KeysOf(ns, scoped)) ==>
              var i, j := IndexBy(KeysOf(ns, scoped))[k], IndexBy(KeysOf(ns2, scoped))[k];
              i < |ns| && j < |ns2| && ns[i] == ns2[j]
  {
    var keys, keys2 := KeysOf(ns, scoped), KeysOf(ns2, scoped);
    IndexByFinds(keys);
    IndexByFinds(keys2);
    SameElements(ns, ns2);
    if k in keys {
      var i := IndexBy(keys)[k];
      assert ns[i] in ns2;
      var j :| 0 <= j < |ns2| && ns2[j] == ns[i];
      assert keys2[j] == k;
      KeysTellApart(ns2, scoped, j, IndexBy(keys2)[k]);
    }
    if k in keys2 {
      var j := IndexBy(keys2)[k];
      assert ns2[j] in ns;
      var i :| 0 <= i < |ns| && ns[i] == ns2[j];
      assert keys[i] == k;
    }
  }

  lemma {:induction false} ResolveRenumbers(keys: seq<Key>, ns: seq<Node>, ns2: seq<Node>, scoped: bool)
    requires Reordered(ns, ns2, scoped)
    ensures var xs, ys := Resolve(keys, IndexBy(KeysOf(ns, scoped))), Resolve(keys, IndexBy(KeysOf(ns2, scoped)));
            InBounds(xs, |ns|) && InBounds(ys, |ns2|) && At(xs, ns) == At(ys, ns2)
  {
    hide Reordered, IndexBy;
    if keys != [] {
      var n := |keys| - 1;
      var idx, idx2 := IndexBy(KeysOf(ns, scoped)), IndexBy(KeysOf(ns2, scoped));
      var r, r2 := Resolve(keys[..n], idx), Resolve(keys[..n], idx2);
      ResolveRenumbers(keys[..n], ns, ns2, scoped);
      KeyRenumbers(keys[n], ns, ns2, scoped);
      if keys[n] in idx {
        assert At(r + [idx[keys[n]]], ns) == At(r, ns) + [ns[idx[keys[n]]]];
        assert At(r2 + [idx2[keys[n]]], ns2) == At(r2, ns2) + [ns2[idx2[keys[n]]]];
      }
    }
  }

  lemma CalleesRenumber(ns: seq<Node>, ns2: seq<Node>, scoped: bool, i: nat, j: nat)
    requires Reordered(ns, ns2, scoped) && i < |ns| && j < |ns2| && ns[i] == ns2[j]
    ensures var xs, ys := Callees(ns, scoped)[i], Callees(ns2, scoped)[j];
            InBounds(xs, |ns|) && InBounds(ys, |ns2|) && At(xs, ns) == At(ys, ns2)
  {
    hide Reordered, IndexBy, Resolve;
    ResolveRenumbers(CalleeKeys(ns[i], scoped), ns, ns2, scoped);
  }

  lemma AtIsIn(xs: seq<nat>, ns: seq<Node>, scoped: bool, i: nat)
    requires NoDup(KeysOf(ns, scoped)) && InBounds(xs, |ns|) && i < |ns|
    ensures i in xs <==> ns[i] in At(xs, ns)
  {
    if i in xs {
      var k :| 0 <= k < |xs| && xs[k] == i;
      assert At(xs, ns)[k] == ns[i];
    }
    if ns[i] in At(xs, ns) {
      var k :| 0 <= k < |xs| && At(xs, ns)[k] == ns[i];
      KeysTellApart(ns, scoped, xs[k], i);
    }
  }

  lemma AtNoDup(xs: seq<nat>, ns: seq<Node>, scoped: bool)
    requires NoDup(KeysOf(ns, scoped)) && InBounds(xs, |ns|) && NoDup(xs)
    ensures NoDup(At(xs, ns))
  {
    forall k, l | 0 <= k < l < |xs| ensures At(xs, ns)[k] != At(xs, ns)[l] {
      KeysDiffer(ns, scoped, xs[k], xs[l]);
    }
  }

  // Who calls function i, by index.
  lemma CallersAre(ns: seq<Node>, scoped: bool, i: nat)
    requires i < |ns|
    ensures var cs := CallersOf(Callees(ns, scoped), i);
            && Ascending(cs) && InBounds(cs, |ns|)
            && forall x: nat :: x in cs <==> x < |ns| && i in Callees(ns, scoped)[x]
  {
    var cs := CallersOf(Callees(ns, scoped), i);
    CallersOfIsReverse(Callees(ns, scoped), i);
    forall x: nat ensures x in cs <==> x < |ns| && i in Callees(ns, scoped)[x] {
      assert x in cs <==> x in CallerSet(Callees(ns, scoped), i, |ns|);
    }
    forall k | 0 <= k < |cs| ensures cs[k] < |ns| { assert cs[k] in cs; }
  }

  lemma CallerCarriesOver(ns: seq<Node>, ns2: seq<Node>, scoped: bool, i: nat, j: nat, n: Node)
    requires Reordered(ns, ns2, scoped) && i < |ns| && j < |ns2| && ns[i] == ns2[j]
    requires InBounds(CallersOf(Callees(ns, scoped), i), |ns|) && InBounds(CallersOf(Callees(ns2, scoped), j), |ns2|)
    requires n in At(CallersOf(Callees(ns, scoped), i), ns)
    ensures n in At(CallersOf(Callees(ns2, scoped), j), ns2)
  {
    hide Callees, CallersOf;
    var cs, ds := CallersOf(Callees(ns, scoped), i), CallersOf(Callees(ns2, scoped), j);
    CallersAre(ns, scoped, i);
    CallersAre(ns2, scoped, j);
    var k :| 0 <= k < |cs| && At(cs, ns)[k] == n;
    var x := cs[k];
    assert x in cs;
    SameElements(ns, ns2);
    assert ns[x] in ns2;
    var y: nat :| y < |ns2| && ns2[y] == ns[x];
    CalleesRenumber(ns, ns2, scoped, x, y);
    AtIsIn(Callees(ns, scoped)[x], ns, scoped, i);
    AtIsIn(Callees(ns2, scoped)[y], ns2, scoped, j);
    assert y in ds;
    AtIsIn(ds, ns2, scoped, y);
  }

  lemma CallersRenumber(ns: seq<Node>, ns2: seq<Node>, scoped: bool, i: nat, j: nat)
    requires Reordered(ns, ns2, scoped) && i < |ns| && j < |ns2| && ns[i] == ns2[j]
    ensures var cs, ds := CallersOf(Callees(ns, scoped), i), CallersOf(Callees(ns2, scoped), j);
            InBounds(cs, |ns|) && InBounds(ds, |ns2|) && multiset(At(cs, ns)) == multiset(At(ds, ns2))
  {
    hide Callees, CallersOf, At;
    var cs, ds := CallersOf(Callees(ns, scoped), i), CallersOf(Callees(ns2, scoped), j);
    CallersAre(ns, scoped, i);
    CallersAre(ns2, scoped, j);
    AtNoDup(cs, ns, scoped);
    AtNoDup(ds, ns2, scoped);
    forall n ensures n in At(cs, ns) <==> n in At(ds, ns2) {
      if n in At(cs, ns) { CallerCarriesOver(ns, ns2, scoped, i, j, n); }
      if n in At(ds, ns2) { CallerCarriesOver(ns2, ns, scoped, j, i, n); }
    }
    SameSetSameMultiset(At(cs, ns), At(ds, ns2));
  }

  // ---------- the same counts ----------

  // The pairing, told by functions: partner and marks say exactly who is paired with whom.
  ghost predicate Tells(partner: Pairing, bPaired: seq<bool>, a: seq<Node>, b: seq<Node>, M: set<(Node, Node)>) {
    && |partner| == |a| && |bPaired| == |b|
    && (forall x :: 0 <= x < |a| && partner[x].Some? ==> partner[x].value < |b|)
    && (forall x, y :: 0 <= x < |a| && 0 <= y < |b| ==> (partner[x] == Some(y) <==> (a[x], b[y]) in M))
    && (forall y :: 0 <= y < |b| ==> (bPaired[y] <==> Some(y) in partner))
    && (forall n, m :: (n, m) in M ==> n in a && m in b)
  }

  ghost predicate HasPartner(M: set<(Node, Node)>, n: Node) { exists m :: (n, m) in M }

  ghost predicate IsPartner(M: set<(Node, Node)>, m: Node) { exists n :: (n, m) in M }

  ghost predicate LandsIn(M: set<(Node, Node)>, n: Node, F: set<Node>) { exists m :: m in F && (n, m) in M }

  // The b functions a search in ys finds.
  ghost function FoundBy(ys: seq<nat>, b: seq<Node>): set<Node> {
    set y | 0 <= y < |b| && BinarySearch(ys, y) :: b[y]
  }

  lemma {:induction false} PartneredByNode(xs: seq<nat>, partner: Pairing, bPaired: seq<bool>,
                                           a: seq<Node>, b: seq<Node>, M: set<(Node, Node)>)
    requires Tells(partner, bPaired, a, b, M) && InBounds(xs, |a|)
    ensures CountPartnered(xs, partner) == Count(At(xs, a), n => HasPartner(M, n))
  {
    if xs != [] {
      var n := |xs| - 1;
      var x := xs[n];
      PartneredByNode(xs[..n], partner, bPaired, a, b, M);
      assert At(xs, a)[..n] == At(xs[..n], a);
      if partner[x].Some? { assert (a[x], b[partner[x].value]) in M; }
      if m :| (a[x], m) in M {
        var y :| 0 <= y < |b| && b[y] == m;
        assert partner[x] == Some(y);
      }
    }
  }

  lemma {:induction false} PairedByNode(ys: seq<nat>, partner: Pairing, bPaired: seq<bool>,
                                        a: seq<Node>, b: seq<Node>, M: set<(Node, Node)>)
    requires Tells(partner, bPaired, a, b, M) && InBounds(ys, |b|)
    ensures CountPaired(ys, bPaired) == Count(At(ys, b), m => IsPartner(M, m))
  {
    if ys != [] {
      var n := |ys| - 1;
      var y := ys[n];
      PairedByNode(ys[..n], partner, bPaired, a, b, M);
      assert At(ys, b)[..n] == At(ys[..n], b);
      if bPaired[y] {
        var x :| 0 <= x < |partner| && partner[x] == Some(y);
        assert (a[x], b[y]) in M;
      }
      if m :| (m, b[y]) in M {
        var x :| 0 <= x < |a| && a[x] == m;
        assert partner[x] == Some(y);
      }
    }
  }

  lemma HitByNode(x: nat, partner: Pairing, bPaired: seq<bool>,
                  a: seq<Node>, b: seq<Node>, M: set<(Node, Node)>, ys: seq<nat>)
    requires Tells(partner, bPaired, a, b, M) && x < |a|
    ensures Hit(x, partner, ys) <==> LandsIn(M, a[x], FoundBy(ys, b))
  {
    if Hit(x, partner, ys) {
      var y := partner[x].value;
      assert b[y] in FoundBy(ys, b) && (a[x], b[y]) in M;
    }
    if LandsIn(M, a[x], FoundBy(ys, b)) {
      var m :| m in FoundBy(ys, b) && (a[x], m) in M;
      var y :| 0 <= y < |b| && BinarySearch(ys, y) && b[y] == m;
      assert partner[x] == Some(y);
    }
  }

  lemma {:induction false} HitsByNode(xs: seq<nat>, partner: Pairing, bPaired: seq<bool>,
                                      a: seq<Node>, b: seq<Node>, M: set<(Node, Node)>, ys: seq<nat>)
    requires Tells(partner, bPaired, a, b, M) && InBounds(xs, |a|)
    ensures Hits(xs, partner, ys) == Count(At(xs, a), n => LandsIn(M, n, FoundBy(ys, b)))
  {
    hide LandsIn, FoundBy, Hit, Tells;
    if xs != [] {
      var n := |xs| - 1;
      HitsByNode(xs[..n], partner, bPaired, a, b, M, ys);
      assert At(xs, a)[..n] == At(xs[..n], a);
      HitByNode(xs[n], partner, bPaired, a, b, M, ys);
    }
  }

  // One neighbourhood list of a pair on either numbering: the same functions, found alike.
  ghost predicate Alike(xs: seq<nat>, a: seq<Node>, xs2: seq<nat>, a2: seq<Node>) {
    InBounds(xs, |a|) && InBounds(xs2, |a2|) && multiset(At(xs, a)) == multiset(At(xs2, a2))
  }

  ghost predicate AroundAlike(x: Around, ns: seq<Node>, x2: Around, ns2: seq<Node>) {
    Alike(x.callees, ns, x2.callees, ns2) && Alike(x.callers, ns, x2.callers, ns2)
  }

  ghost predicate FoundAlike(y: Around, b: seq<Node>, y2: Around, b2: seq<Node>) {
    FoundBy(y.callees, b) == FoundBy(y2.callees, b2) && FoundBy(y.callers, b) == FoundBy(y2.callers, b2)
  }

  lemma CountsRenumber(xs: seq<nat>, a: seq<Node>, xs2: seq<nat>, a2: seq<Node>, b: seq<Node>, b2: seq<Node>,
                       partner: Pairing, bPaired: seq<bool>, partner2: Pairing, bPaired2: seq<bool>,
                       M: set<(Node, Node)>, ys: seq<nat>, ys2: seq<nat>)
    requires Tells(partner, bPaired, a, b, M) && Tells(partner2, bPaired2, a2, b2, M)
    requires Alike(xs, a, xs2, a2) && Alike(ys, b, ys2, b2)
    requires FoundBy(ys, b) == FoundBy(ys2, b2)
    ensures CountPartnered(xs, partner) == CountPartnered(xs2, partner2)
    ensures CountPaired(ys, bPaired) == CountPaired(ys2, bPaired2)
    ensures Hits(xs, partner, ys) == Hits(xs2, partner2, ys2)
  {
    hide Tells, HasPartner, IsPartner, LandsIn, FoundBy, At, Count, CountPartnered, CountPaired, Hits;
    PartneredByNode(xs, partner, bPaired, a, b, M);
    PartneredByNode(xs2, partner2, bPaired2, a2, b2, M);
    CountPermutes(At(xs, a), At(xs2, a2), n => HasPartner(M, n));
    PairedByNode(ys, partner, bPaired, a, b, M);
    PairedByNode(ys2, partner2, bPaired2, a2, b2, M);
    CountPermutes(At(ys, b), At(ys2, b2), m => IsPartner(M, m));
    HitsByNode(xs, partner, bPaired, a, b, M, ys);
    HitsByNode(xs2, partner2, bPaired2, a2, b2, M, ys2);
    var F := FoundBy(ys, b);
    CountPermutes(At(xs, a), At(xs2, a2), n => LandsIn(M, n, F));
  }

  // The score of two functions depends on who their neighbours are, who is paired with whom,
  // and whom the searches find: not on the numbering.
  lemma ScoreRenumbers(x: Around, y: Around, partner: Pairing, bPaired: seq<bool>, a: seq<Node>, b: seq<Node>,
                       x2: Around, y2: Around, partner2: Pairing, bPaired2: seq<bool>, a2: seq<Node>, b2: seq<Node>,
                       M: set<(Node, Node)>)
    requires Tells(partner, bPaired, a, b, M) && Tells(partner2, bPaired2, a2, b2, M)
    requires AroundAlike(x, a, x2, a2) && AroundAlike(y, b, y2, b2) && FoundAlike(y, b, y2, b2)
    ensures GraphScore(x, y, partner, bPaired) == GraphScore(x2, y2, partner2, bPaired2)
  {
    hide Tells, Alike, FoundBy, CountPartnered, CountPaired, Hits;
    CountsRenumber(x.callees, a, x2.callees, a2, b, b2, partner, bPaired, partner2, bPaired2, M, y.callees, y2.callees);
    CountsRenumber(x.callers, a, x2.callers, a2, b, b2, partner, bPaired, partner2, bPaired2, M, y.callers, y2.callers);
  }

  // ---------- when the searches agree ----------

  // Every b list is searched without a miss.
  ghost predicate ListsSearchable(b: seq<Node>) {
    forall i :: 0 <= i < |b| ==> Searchable(Callees(b, true)[i])
  }

  lemma SearchableFindsAll(ys: seq<nat>, b: seq<Node>)
    requires Searchable(ys) && InBounds(ys, |b|)
    ensures FoundBy(ys, b) == Elements(At(ys, b))
  {
    forall m | m in FoundBy(ys, b) ensures m in Elements(At(ys, b)) {
      var y :| 0 <= y < |b| && BinarySearch(ys, y) && b[y] == m;
      var k :| 0 <= k < |ys| && ys[k] == y;
      assert At(ys, b)[k] == m;
    }
    forall m | m in Elements(At(ys, b)) ensures m in FoundBy(ys, b) {
      var k :| 0 <= k < |ys| && At(ys, b)[k] == m;
      assert ys[k] in ys;
    }
  }

  lemma SearchableFoundAlike(ys: seq<nat>, b: seq<Node>, ys2: seq<nat>, b2: seq<Node>)
    requires Alike(ys, b, ys2, b2) && Searchable(ys) && Searchable(ys2)
    ensures FoundBy(ys, b) == FoundBy(ys2, b2)
  {
    hide Searchable, At, FoundBy;
    SearchableFindsAll(ys, b);
    SearchableFindsAll(ys2, b2);
    SameElements(At(ys, b), At(ys2, b2));
  }

  // The keys of the b functions a search in ys finds.
  ghost function FoundKeys(ys: seq<nat>, b: seq<Node>): set<Key> {
    set y | 0 <= y < |b| && BinarySearch(ys, y) :: KeysOf(b, true)[y]
  }

  // The two orders of b are searched alike: for each function the same callees are found.
  ghost predicate SearchedAlike(b: seq<Node>, b2: seq<Node>) {
    forall i, j :: 0 <= i < |b| && 0 <= j < |b2| && KeysOf(b, true)[i] == KeysOf(b2, true)[j] ==>
      FoundKeys(Callees(b, true)[i], b) == FoundKeys(Callees(b2, true)[j], b2)
  }

  lemma FoundKeyCarries(ys: seq<nat>, b: seq<Node>, ys2: seq<nat>, b2: seq<Node>, n: Node)
    requires Reordered(b, b2, true) && FoundKeys(ys, b) <= FoundKeys(ys2, b2)
    requires n in FoundBy(ys, b)
    ensures n in FoundBy(ys2, b2)
  {
    var y :| 0 <= y < |b| && BinarySearch(ys, y) && b[y] == n;
    assert KeysOf(b, true)[y] in FoundKeys(ys2, b2);
    var z :| 0 <= z < |b2| && BinarySearch(ys2, z) && KeysOf(b2, true)[z] == KeysOf(b, true)[y];
    SameElements(b, b2);
    assert n in b2;
    var x :| 0 <= x < |b2| && b2[x] == n;
    KeysTellApart(b2, true, x, z);
  }

  lemma FoundByKeys(ys: seq<nat>, b: seq<Node>, ys2: seq<nat>, b2: seq<Node>)
    requires Reordered(b, b2, true)
    ensures FoundKeys(ys, b) == FoundKeys(ys2, b2) <==> FoundBy(ys, b) == FoundBy(ys2, b2)
  {
    if FoundKeys(ys, b) == FoundKeys(ys2, b2) {
      forall n ensures n in FoundBy(ys, b) <==> n in FoundBy(ys2, b2) {
        if n in FoundBy(ys, b) { FoundKeyCarries(ys, b, ys2, b2, n); }
        if n in FoundBy(ys2, b2) { FoundKeyCarries(ys2, b2, ys, b, n); }
      }
    }
    if FoundBy(ys, b) == FoundBy(ys2, b2) {
      FoundKeysOfNodes(ys, b);
      FoundKeysOfNodes(ys2, b2);
    }
  }

  lemma FoundKeysOfNodes(ys: seq<nat>, b: seq<Node>)
    ensures FoundKeys(ys, b) == set n | n in FoundBy(ys, b) :: KeyOf(n, n.entry, true)
  {
    forall k | k in FoundKeys(ys, b) ensures k in set n | n in FoundBy(ys, b) :: KeyOf(n, n.entry, true) {
      var y :| 0 <= y < |b| && BinarySearch(ys, y) && KeysOf(b, true)[y] == k;
      assert b[y] in FoundBy(ys, b);
    }
  }

  lemma SameOrderIsSearchedAlike(b: seq<Node>)
    requires NoDup(KeysOf(b, true))
    ensures SearchedAlike(b, b)
  {
    forall i, j | 0 <= i < |b| && 0 <= j < |b| && KeysOf(b, true)[i] == KeysOf(b, true)[j]
      ensures FoundKeys(Callees(b, true)[i], b) == FoundKeys(Callees(b, true)[j], b)
    {
      KeysTellApart(b, true, i, j);
    }
  }

  // Once nothing is missed in one order, another order is searched alike exactly when nothing
  // is missed there either.
  lemma SearchedAlikeIff(b: seq<Node>, b2: seq<Node>)
    requires Reordered(b, b2, true) && ListsSearchable(b)
    ensures SearchedAlike(b, b2) <==> ListsSearchable(b2)
  {
    hide Callees, At, FoundBy, FoundKeys, Searchable;
    if ListsSearchable(b2) {
      forall i, j | 0 <= i < |b| && 0 <= j < |b2| && KeysOf(b, true)[i] == KeysOf(b2, true)[j]
        ensures FoundKeys(Callees(b, true)[i], b) == FoundKeys(Callees(b2, true)[j], b2)
      {
        SameKeySameNode(b, b2, i, j);
        CalleesRenumber(b, b2, true, i, j);
        SearchableFoundAlike(Callees(b, true)[i], b, Callees(b2, true)[j], b2);
        FoundByKeys(Callees(b, true)[i], b, Callees(b2, true)[j], b2);
      }
    }
    if SearchedAlike(b, b2) {
      forall j | 0 <= j < |b2| ensures Searchable(Callees(b2, true)[j]) {
        SameElements(b, b2);
        assert b2[j] in b;
        var i :| 0 <= i < |b| && b[i] == b2[j];
        CalleesRenumber(b, b2, true, i, j);
        FoundByKeys(Callees(b, true)[i], b, Callees(b2, true)[j], b2);
        AllFoundIsSearchable(Callees(b, true)[i], b, Callees(b2, true)[j], b2);
      }
    }
  }

  lemma SameKeySameNode(b: seq<Node>, b2: seq<Node>, i: nat, j: nat)
    requires Reordered(b, b2, true) && i < |b| && j < |b2| && KeysOf(b, true)[i] == KeysOf(b2, true)[j]
    ensures b[i] == b2[j]
  {
    SameElements(b, b2);
    assert b[i] in b2;
    var x :| 0 <= x < |b2| && b2[x] == b[i];
    KeysTellApart(b2, true, x, j);
  }

  lemma AllFoundIsSearchable(ys: seq<nat>, b: seq<Node>, ys2: seq<nat>, b2: seq<Node>)
    requires Reordered(b, b2, true)
    requires InBounds(ys, |b|) && InBounds(ys2, |b2|) && At(ys, b) == At(ys2, b2)
    requires Searchable(ys) && FoundBy(ys, b) == FoundBy(ys2, b2)
    ensures Searchable(ys2)
  {
    SearchableFindsAll(ys, b);
    forall y | y in ys2 ensures BinarySearch(ys2, y) {
      var k :| 0 <= k < |ys2| && ys2[k] == y;
      assert At(ys, b)[k] == b2[y];
      assert b2[y] in FoundBy(ys2, b2);
      var z :| 0 <= z < |b2| && BinarySearch(ys2, z) && b2[z] == b2[y];
      KeysTellApart(b2, true, y, z);
    }
  }

  function AroundOf(ns: seq<Node>, scoped: bool, i: nat): Around
    requires i < |ns|
  {
    Around(Callees(ns, scoped)[i], CallersOf(Callees(ns, scoped), i))
  }

  lemma AroundRenumbers(ns: seq<Node>, ns2: seq<Node>, scoped: bool, i: nat, j: nat)
    requires Reordered(ns, ns2, scoped) && i < |ns| && j < |ns2| && ns[i] == ns2[j]
    ensures AroundAlike(AroundOf(ns, scoped, i), ns, AroundOf(ns2, scoped, j), ns2)
  {
    hide Callees, CallersOf, At, Reordered;
    CalleesRenumber(ns, ns2, scoped, i, j);
    CallersRenumber(ns, ns2, scoped, i, j);
  }

  lemma SearchesRenumber(b: seq<Node>, b2: seq<Node>, i: nat, j: nat)
    requires Reordered(b, b2, true) && i < |b| && j < |b2| && b[i] == b2[j]
    requires SearchedAlike(b, b2)
    ensures FoundAlike(AroundOf(b, true, i), b, AroundOf(b2, true, j), b2)
  {
    hide Callees, CallersOf, At, FoundBy, FoundKeys;
    assert KeysOf(b, true)[i] == KeysOf(b2, true)[j];
    FoundByKeys(Callees(b, true)[i], b, Callees(b2, true)[j], b2);
    CallersFoundAlike(b, b2, i, j);
  }

  // Caller lists are built in index order, so no caller is missed.
  lemma CallersFoundAlike(b: seq<Node>, b2: seq<Node>, i: nat, j: nat)
    requires Reordered(b, b2, true) && i < |b| && j < |b2| && b[i] == b2[j]
    ensures FoundBy(CallersOf(Callees(b, true), i), b) == FoundBy(CallersOf(Callees(b2, true), j), b2)
  {
    hide Callees, CallersOf, At, FoundBy;
    AroundRenumbers(b, b2, true, i, j);
    CallersAre(b, true, i);
    CallersAre(b2, true, j);
    SearchableIff(CallersOf(Callees(b, true), i));
    SearchableIff(CallersOf(Callees(b2, true), j));
    SearchableFoundAlike(CallersOf(Callees(b, true), i), b, CallersOf(Callees(b2, true), j), b2);
  }

  // The indexer's corpora qualify: callees ascend, and within a binary the functions stand in
  // entry order.
  lemma EntryOrderIsSearchable(b: seq<Node>)
    requires InEntryOrder(b) && forall i :: 0 <= i < |b| ==> Ascending(b[i].callees)
    ensures ListsSearchable(b)
  {
    hide Callees, Searchable;
    forall i | 0 <= i < |b| ensures Searchable(Callees(b, true)[i]) {
      CalleesAscend(b, i);
      SearchableIff(Callees(b, true)[i]);
    }
  }
}
