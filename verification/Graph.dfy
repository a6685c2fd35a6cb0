/**
  crates/fnprint-core/src/align.rs, reverse and graph_score: callee entries become
  neighbour indices, callers are the reversed edges, and two functions are scored by
  how far the current pairing maps one neighbourhood onto the other.
 */
module Graph {
  import opened Sorting
  import opened Wrappers
  import opened Assign

  // ---------- entries to indices ----------

  type Key = (string, nat)

  // An a entry stands for itself, a b entry is scoped by its group.
  function KeyOf(n: Node, entry: nat, scoped: bool): Key {
    (if scoped then n.group else "", entry)
  }

  function KeysOf(ns: seq<Node>, scoped: bool): (r: seq<Key>)
    ensures |r| == |ns|
  {
    seq(|ns|, i requires 0 <= i < |ns| => KeyOf(ns[i], ns[i].entry, scoped))
  }

  // Collecting into a HashMap: a later index replaces an earlier one.
  function IndexBy(keys: seq<Key>): map<Key, nat> {
    if keys == [] then map[]
    else IndexBy(keys[..|keys| - 1])[keys[|keys| - 1] := |keys| - 1]
  }

  lemma {:induction false} IndexByFinds(keys: seq<Key>)
    ensures forall k :: k in IndexBy(keys) <==> k in keys
    ensures forall k :: k in IndexBy(keys) ==> IndexBy(keys)[k] < |keys| && keys[IndexBy(keys)[k]] == k
  {
    if keys != [] {
      var n := |keys| - 1;
      IndexByFinds(keys[..n]);
      assert keys == keys[..n] + [keys[n]];
      assert forall i :: 0 <= i < n ==> keys[..n][i] == keys[i];
    }
  }

  // `filter_map` over the entry map: unknown callees drop out.
  function Resolve(keys: seq<Key>, idx: map<Key, nat>): seq<nat> {
    if keys == [] then []
    else
      var r := Resolve(keys[..|keys| - 1], idx);
      var k := keys[|keys| - 1];
      if k in idx then r + [idx[k]] else r
  }

  function CalleeKeys(n: Node, scoped: bool): (r: seq<Key>)
    ensures |r| == |n.callees|
  {
    seq(|n.callees|, i requires 0 <= i < |n.callees| => KeyOf(n, n.callees[i], scoped))
  }

  function Callees(ns: seq<Node>, scoped: bool): (r: seq<seq<nat>>)
    ensures |r| == |ns|
  {
    seq(|ns|, i requires 0 <= i < |ns| => Resolve(CalleeKeys(ns[i], scoped), IndexBy(KeysOf(ns, scoped))))
  }

  ghost predicate Within(lists: seq<seq<nat>>, n: nat) {
    forall i, k :: 0 <= i < |lists| && 0 <= k < |lists[i]| ==> lists[i][k] < n
  }

  lemma {:induction false} ResolveFinds(keys: seq<Key>, all: seq<Key>)
    ensures forall x :: x in Resolve(keys, IndexBy(all)) ==> x < |all| && all[x] in keys
  {
    IndexByFinds(all);
    if keys != [] {
      ResolveFinds(keys[..|keys| - 1], all);
      assert keys == keys[..|keys| - 1] + [keys[|keys| - 1]];
    }
  }

  lemma {:induction false} ResolveNoDup(keys: seq<Key>, all: seq<Key>)
    requires NoDup(keys)
    ensures NoDup(Resolve(keys, IndexBy(all)))
  {
    if keys != [] {
      var n := |keys| - 1;
      ResolveNoDup(keys[..n], all);
      ResolveFinds(keys[..n], all);
      IndexByFinds(all);
      var r, s := Resolve(keys[..n], IndexBy(all)), Resolve(keys, IndexBy(all));
      if keys[n] in IndexBy(all) {
        forall i | 0 <= i < |r| ensures r[i] != IndexBy(all)[keys[n]] {
          assert r[i] in r;
          assert all[r[i]] in keys[..n];
          var k :| 0 <= k < n && keys[..n][k] == all[r[i]];
          assert keys[k] != keys[n];
        }
      }
    }
  }

  lemma {:induction false} ResolveKeeps(keys: seq<Key>, all: seq<Key>, x: nat)
    requires NoDup(all) && x < |all| && all[x] in keys
    ensures x in Resolve(keys, IndexBy(all))
  {
    IndexByFinds(all);
    var n := |keys| - 1;
    assert keys == keys[..n] + [keys[n]];
    assert all[x] in IndexBy(all) && IndexBy(all)[all[x]] == x;
    if all[x] in keys[..n] { ResolveKeeps(keys[..n], all, x); }
  }

  // The neighbours of a b function are the functions of its own group at the entries it calls.
  lemma CalleesAre(b: seq<Node>, i: nat, x: nat)
    requires DistinctKeys(b) && i < |b| && x < |b|
    ensures x in Callees(b, true)[i] <==> b[x].group == b[i].group && b[x].entry in b[i].callees
  {
    var keys, all := CalleeKeys(b[i], true), KeysOf(b, true);
    ResolveFinds(keys, all);
    assert NoDup(all);
    if x in Callees(b, true)[i] {
      var k :| 0 <= k < |keys| && keys[k] == all[x];
    }
    if b[x].group == b[i].group && b[x].entry in b[i].callees {
      var k :| 0 <= k < |b[i].callees| && b[i].callees[k] == b[x].entry;
      assert keys[k] == all[x];
      ResolveKeeps(keys, all, x);
    }
  }

  // Those of an a function are the functions at the entries it calls.
  lemma TargetCalleesAre(a: seq<Node>, i: nat, x: nat)
    requires DistinctEntries(a) && i < |a| && x < |a|
    ensures x in Callees(a, false)[i] <==> a[x].entry in a[i].callees
  {
    var keys, all := CalleeKeys(a[i], false), KeysOf(a, false);
    ResolveFinds(keys, all);
    assert NoDup(all);
    if x in Callees(a, false)[i] {
      var k :| 0 <= k < |keys| && keys[k] == all[x];
    }
    if a[x].entry in a[i].callees {
      var k :| 0 <= k < |a[i].callees| && a[i].callees[k] == a[x].entry;
      assert keys[k] == all[x];
      ResolveKeeps(keys, all, x);
    }
  }

  lemma CalleesWithin(ns: seq<Node>, scoped: bool)
    ensures Within(Callees(ns, scoped), |ns|)
  {
    var lists := Callees(ns, scoped);
    forall i, k | 0 <= i < |lists| && 0 <= k < |lists[i]| ensures lists[i][k] < |ns| {
      ResolveFinds(CalleeKeys(ns[i], scoped), KeysOf(ns, scoped));
      assert lists[i][k] in lists[i];
    }
  }

  // Callee lists without repeats resolve to neighbour lists without repeats.
  lemma CalleesNoDup(ns: seq<Node>, scoped: bool, i: nat)
    requires i < |ns| && NoDup(ns[i].callees)
    ensures NoDup(Callees(ns, scoped)[i])
  {
    assert NoDup(CalleeKeys(ns[i], scoped));
    ResolveNoDup(CalleeKeys(ns[i], scoped), KeysOf(ns, scoped));
  }

  // Within a group the nodes come in entry order, as the loader leaves them.
  ghost predicate InEntryOrder(ns: seq<Node>) {
    forall i, j :: 0 <= i < j < |ns| && ns[i].group == ns[j].group ==> ns[i].entry < ns[j].entry
  }

  lemma EarlierCalleeEarlierIndex(n: Node, ns: seq<Node>, i: nat, j: nat, x: nat, y: nat)
    requires InEntryOrder(ns) && Ascending(n.callees) && i < j < |n.callees|
    requires x < |ns| && y < |ns|
    requires KeysOf(ns, true)[x] == CalleeKeys(n, true)[i]
    requires KeysOf(ns, true)[y] == CalleeKeys(n, true)[j]
    ensures x < y
  {
    assert ns[x].entry == n.callees[i] && ns[y].entry == n.callees[j];
    assert ns[x].group == ns[y].group;
  }

  lemma NothingAscends()
    ensures Ascending([])
  {
  }

  lemma AscendsSnoc(r: seq<nat>, n: nat)
    requires Ascending(r) && forall k :: 0 <= k < |r| ==> r[k] < n
    ensures Ascending(r + [n])
  {
  }

  lemma {:induction false} ResolveAscends(n: Node, ns: seq<Node>, k: nat)
    requires InEntryOrder(ns) && Ascending(n.callees) && k <= |n.callees|
    ensures Ascending(Resolve(CalleeKeys(n, true)[..k], IndexBy(KeysOf(ns, true))))
  {
    hide Ascending, IndexBy;
    if k == 0 {
      NothingAscends();
    } else {
      var all, keys := KeysOf(ns, true), CalleeKeys(n, true);
      var idx := IndexBy(all);
      ResolveAscends(n, ns, k - 1);
      assert keys[..k][..k - 1] == keys[..k - 1];
      ResolveFinds(keys[..k - 1], all);
      IndexByFinds(all);
      var r := Resolve(keys[..k - 1], idx);
      if keys[k - 1] in idx {
        forall i | 0 <= i < |r| ensures r[i] < idx[keys[k - 1]] {
          assert r[i] in r;
          var m :| 0 <= m < k - 1 && keys[..k - 1][m] == all[r[i]];
          EarlierCalleeEarlierIndex(n, ns, m, k - 1, r[i], idx[keys[k - 1]]);
        }
        AscendsSnoc(r, idx[keys[k - 1]]);
      }
    }
  }

  // Sorted callee lists over nodes in entry order resolve to lists in index order.
  lemma CalleesAscend(ns: seq<Node>, i: nat)
    requires i < |ns| && InEntryOrder(ns) && Ascending(ns[i].callees)
    ensures Ascending(Callees(ns, true)[i])
  {
    var keys := CalleeKeys(ns[i], true);
    ResolveAscends(ns[i], ns, |keys|);
    assert keys[..|keys|] == keys;
  }

  // ---------- callers ----------

  function CallersOf(callees: seq<seq<nat>>, c: nat): seq<nat> {
    if callees == [] then []
    else
      CallersOf(callees[..|callees| - 1], c) +
      if c in callees[|callees| - 1] then [|callees| - 1] else []
  }

  function Callers(callees: seq<seq<nat>>, n: nat): (r: seq<seq<nat>>)
    ensures |r| == n
  {
    seq(n, c requires 0 <= c < n => CallersOf(callees, c))
  }

  // Those of the first i functions that call c.
  ghost function CallerSet(callees: seq<seq<nat>>, c: nat, i: nat): set<nat>
    requires i <= |callees|
  {
    set x | 0 <= x < i && c in callees[x]
  }

  lemma CallerSetStep(callees: seq<seq<nat>>, c: nat)
    requires callees != []
    ensures var n := |callees| - 1;
            CallerSet(callees, c, n + 1) == CallerSet(callees[..n], c, n) + if c in callees[n] then {n} else {}
  {
  }

  // The callers of c in index order, each once.
  lemma {:induction false} CallersOfIsReverse(callees: seq<seq<nat>>, c: nat)
    ensures Ascending(CallersOf(callees, c))
    ensures Elements(CallersOf(callees, c)) == CallerSet(callees, c, |callees|)
  {
    hide Ascending;
    if callees == [] {
      NothingAscends();
    } else {
      var n := |callees| - 1;
      CallersOfIsReverse(callees[..n], c);
      CallerSetStep(callees, c);
      var r := CallersOf(callees[..n], c);
      if c in callees[n] {
        forall k | 0 <= k < |r| ensures r[k] < n { assert r[k] in Elements(r) && r[k] in CallerSet(callees[..n], c, n); }
        AscendsSnoc(r, n);
        ElementsSnoc(r, n);
      } else {
        assert CallersOf(callees, c) == r;
      }
    }
  }

  lemma CallersWithin(callees: seq<seq<nat>>, n: nat)
    ensures Within(Callers(callees, n), |callees|)
  {
    var lists := Callers(callees, n);
    forall i, k | 0 <= i < |lists| && 0 <= k < |lists[i]| ensures lists[i][k] < |callees| {
      CallersOfIsReverse(callees, i);
      assert lists[i][k] in Elements(lists[i]);
    }
  }

  method Reverse(callees: seq<seq<nat>>, n: nat) returns (callers: seq<seq<nat>>)
    requires Within(callees, n)
    ensures callers == Callers(callees, n)
  {
    var rev := new seq<nat>[n](_ => []);
    for i := 0 to |callees|
      invariant forall c :: 0 <= c < n ==> Elements(rev[c]) == CallerSet(callees, c, i)
    {
      var cs := callees[i];
      for k := 0 to |cs|
        invariant forall c :: 0 <= c < n ==>
                    Elements(rev[c]) == CallerSet(callees, c, i) + if c in cs[..k] then {i} else {}
      {
        var c := cs[k];
        assert forall d :: d in cs[..k + 1] <==> d in cs[..k] || d == c;
        assert Elements(rev[c] + [i]) == Elements(rev[c]) + {i};
        rev[c] := rev[c] + [i];
      }
      assert cs[..|cs|] == cs;
      forall c | 0 <= c < n
        ensures CallerSet(callees, c, i + 1) == CallerSet(callees, c, i) + if c in cs then {i} else {}
      {
      }
    }
    callers := [];
    for c := 0 to n
      invariant callers == Callers(callees, c)
      invariant forall d :: 0 <= d < n ==> Elements(rev[d]) == CallerSet(callees, d, |callees|)
    {
      var v := SortDedup(rev[c], NatLe());
      SortsToCallers(callees, c, rev[c]);
      callers := callers + [v];
    }
  }

  lemma SortsToCallers(callees: seq<seq<nat>>, c: nat, pushed: seq<nat>)
    requires Elements(pushed) == CallerSet(callees, c, |callees|)
    ensures SortDedup(pushed, NatLe()) == CallersOf(callees, c)
  {
    var v := SortDedup(pushed, NatLe());
    SortDedupNat(pushed);
    CallersOfIsReverse(callees, c);
    forall x ensures x in v <==> x in CallersOf(callees, c) {
      assert x in v <==> x in Elements(pushed);
      assert x in CallersOf(callees, c) <==> x in Elements(CallersOf(callees, c));
    }
    AscendingUnique(v, CallersOf(callees, c));
  }

  // ---------- binary search ----------

  function Search(s: seq<nat>, y: nat, base: nat, size: nat): (found: bool)
    requires 0 < size && base + size <= |s|
    ensures found ==> y in s
    decreases size
  {
    if size == 1 then s[base] == y
    else
      var mid := base + size / 2;
      Search(s, y, if s[mid] > y then base else mid, size - size / 2)
  }

  // The halving search of the standard library; on a list that is not in order it may miss.
  function BinarySearch(s: seq<nat>, y: nat): (found: bool)
    ensures found ==> y in s
  {
    s != [] && Search(s, y, 0, |s|)
  }

  lemma {:induction false} SearchFinds(s: seq<nat>, y: nat, base: nat, size: nat, k: nat)
    requires Ascending(s) && base + size <= |s|
    requires base <= k < base + size && s[k] == y
    ensures Search(s, y, base, size)
    decreases size
  {
    if size > 1 {
      var mid := base + size / 2;
      if s[mid] > y {
        assert k < mid;
        SearchFinds(s, y, base, size - size / 2, k);
      } else {
        SearchFinds(s, y, mid, size - size / 2, k);
      }
    }
  }

  lemma BinarySearchDecides(s: seq<nat>, y: nat)
    requires Ascending(s)
    ensures BinarySearch(s, y) <==> y in s
  {
    if y in s {
      var k :| 0 <= k < |s| && s[k] == y;
      SearchFinds(s, y, 0, |s|, k);
    }
  }

  // Every member of the list is found.
  ghost predicate Searchable(s: seq<nat>) { forall y :: y in s ==> BinarySearch(s, y) }

  lemma {:induction false} SearchEndsAt(s: seq<nat>, base: nat, size: nat, k: nat)
    requires NoDup(s) && 0 < size && base + size <= |s| && k < |s|
    requires Search(s, s[k], base, size)
    ensures base <= k < base + size
    decreases size
  {
    if size > 1 {
      var mid := base + size / 2;
      SearchEndsAt(s, if s[mid] > s[k] then base else mid, size - size / 2, k);
    }
  }

  // A member that is found stands below its right neighbour.
  lemma {:induction false} FoundStandsBelow(s: seq<nat>, base: nat, size: nat, k: nat)
    requires NoDup(s) && 1 < size && base + size <= |s|
    requires base <= k && k + 1 < base + size
    requires Search(s, s[k], base, size)
    ensures s[k] < s[k + 1]
    decreases size
  {
    var mid := base + size / 2;
    SearchEndsAt(s, if s[mid] > s[k] then base else mid, size - size / 2, k);
    if s[mid] > s[k] {
      if k + 1 < mid { FoundStandsBelow(s, base, size - size / 2, k); }
    } else {
      FoundStandsBelow(s, mid, size - size / 2, k);
    }
  }

  lemma {:induction false} NeighboursAscend(s: seq<nat>, i: nat, j: nat)
    requires forall k :: 0 <= k < |s| - 1 ==> s[k] < s[k + 1]
    requires i < j < |s|
    ensures s[i] < s[j]
    decreases j - i
  {
    if i + 1 < j { NeighboursAscend(s, i + 1, j); }
  }

  // The search misses a member exactly when the list is out of order.
  lemma SearchableIff(s: seq<nat>)
    requires NoDup(s)
    ensures Searchable(s) <==> Ascending(s)
  {
    if Searchable(s) {
      forall k | 0 <= k < |s| - 1 ensures s[k] < s[k + 1] {
        assert BinarySearch(s, s[k]);
        FoundStandsBelow(s, 0, |s|, k);
      }
      forall i, j | 0 <= i < j < |s| ensures s[i] < s[j] { NeighboursAscend(s, i, j); }
    }
    if Ascending(s) {
      forall y | y in s ensures BinarySearch(s, y) { BinarySearchDecides(s, y); }
    }
  }

  // ---------- the score ----------

  // partner[x] is the b index a's x is paired with; bPaired marks the b indices in use.
  type Pairing = seq<Option<nat>>

  function CountPartnered(xs: seq<nat>, partner: Pairing): nat {
    if xs == [] then 0
    else
      var x := xs[|xs| - 1];
      CountPartnered(xs[..|xs| - 1], partner) + if x < |partner| && partner[x].Some? then 1 else 0
  }

  function CountPaired(ys: seq<nat>, bPaired: seq<bool>): nat {
    if ys == [] then 0
    else
      var y := ys[|ys| - 1];
      CountPaired(ys[..|ys| - 1], bPaired) + if y < |bPaired| && bPaired[y] then 1 else 0
  }

  predicate Hit(x: nat, partner: Pairing, ys: seq<nat>) {
    x < |partner| && partner[x].Some? && BinarySearch(ys, partner[x].value)
  }

  function Hits(xs: seq<nat>, partner: Pairing, ys: seq<nat>): nat {
    if xs == [] then 0
    else Hits(xs[..|xs| - 1], partner, ys) + if Hit(xs[|xs| - 1], partner, ys) then 1 else 0
  }

  // Callees and callers of one function.
  datatype Around = Around(callees: seq<nat>, callers: seq<nat>)

  predicate InBounds(xs: seq<nat>, n: nat) { forall k :: 0 <= k < |xs| ==> xs[k] < n }

  // Both lists index a side of n functions.
  predicate Fits(x: Around, n: nat) { InBounds(x.callees, n) && InBounds(x.callers, n) }

  function Dice(hit: nat, na: nat, nb: nat): real {
    if na + nb == 0 then 0.0 else (2 * hit) as real / (na + nb) as real
  }

  function GraphScore(x: Around, y: Around, partner: Pairing, bPaired: seq<bool>): real {
    Dice(Hits(x.callees, partner, y.callees) + Hits(x.callers, partner, y.callers),
         CountPartnered(x.callees, partner) + CountPartnered(x.callers, partner),
         CountPaired(y.callees, bPaired) + CountPaired(y.callers, bPaired))
  }

  method ComputeGraphScore(x: Around, y: Around, partner: Pairing, bPaired: seq<bool>) returns (g: real)
    requires Fits(x, |partner|) && Fits(y, |bPaired|)
    ensures g == GraphScore(x, y, partner, bPaired)
  {
    var na := CountPartnered(x.callees, partner) + CountPartnered(x.callers, partner);
    var nb := CountPaired(y.callees, bPaired) + CountPaired(y.callers, bPaired);
    if na + nb == 0 {
      return 0.0;
    }
    var hit := 0;
    for k := 0 to |x.callees|
      invariant hit == Hits(x.callees[..k], partner, y.callees)
    {
      assert x.callees[..k + 1][..k] == x.callees[..k];
      match partner[x.callees[k]]
      case Some(p) =>
        if BinarySearch(y.callees, p) {
          hit := hit + 1;
        }
      case None =>
    }
    assert x.callees[..|x.callees|] == x.callees;
    for k := 0 to |x.callers|
      invariant hit == Hits(x.callees, partner, y.callees) + Hits(x.callers[..k], partner, y.callers)
    {
      assert x.callers[..k + 1][..k] == x.callers[..k];
      match partner[x.callers[k]]
      case Some(p) =>
        if BinarySearch(y.callers, p) {
          hit := hit + 1;
        }
      case None =>
    }
    assert x.callers[..|x.callers|] == x.callers;
    g := (2 * hit) as real / (na + nb) as real;
  }

  // ---------- the score is a Dice ratio ----------

  // No b function has two partners, and the marks name exactly the partners.
  ghost predicate Consistent(partner: Pairing, bPaired: seq<bool>) {
    && (forall x, z :: 0 <= x < |partner| && 0 <= z < |partner| && partner[x].Some? && partner[x] == partner[z] ==> x == z)
    && (forall y :: 0 <= y < |bPaired| ==> (bPaired[y] <==> Some(y) in partner))
    && (forall x :: 0 <= x < |partner| && partner[x].Some? ==> partner[x].value < |bPaired|)
  }

  // Where the pairing sends a list of a functions.
  ghost function Sent(xs: seq<nat>, partner: Pairing): set<nat> {
    set x | x in xs && x < |partner| && partner[x].Some? :: partner[x].value
  }

  ghost function PairedIn(ys: seq<nat>, bPaired: seq<bool>): set<nat> {
    set y | y in ys && y < |bPaired| && bPaired[y]
  }

  ghost function SentInto(xs: seq<nat>, partner: Pairing, ys: seq<nat>): set<nat> {
    set x | x in xs && Hit(x, partner, ys) :: partner[x].value
  }

  lemma InLast(xs: seq<nat>)
    requires xs != []
    ensures forall x :: x in xs <==> x in xs[..|xs| - 1] || x == xs[|xs| - 1]
  {
    assert xs == xs[..|xs| - 1] + [xs[|xs| - 1]];
  }

  lemma {:induction false} CountPartneredIsSent(xs: seq<nat>, partner: Pairing, bPaired: seq<bool>)
    requires Consistent(partner, bPaired) && NoDup(xs)
    ensures CountPartnered(xs, partner) == |Sent(xs, partner)|
  {
    if xs != [] {
      var n := |xs| - 1;
      CountPartneredIsSent(xs[..n], partner, bPaired);
      InLast(xs);
      assert xs[n] !in xs[..n];
      if xs[n] < |partner| && partner[xs[n]].Some? {
        assert Sent(xs, partner) == Sent(xs[..n], partner) + {partner[xs[n]].value};
        assert partner[xs[n]].value !in Sent(xs[..n], partner);
      } else {
        assert Sent(xs, partner) == Sent(xs[..n], partner);
      }
    }
  }

  lemma {:induction false} HitsIsSentInto(xs: seq<nat>, partner: Pairing, bPaired: seq<bool>, ys: seq<nat>)
    requires Consistent(partner, bPaired) && NoDup(xs)
    ensures Hits(xs, partner, ys) == |SentInto(xs, partner, ys)|
  {
    if xs != [] {
      var n := |xs| - 1;
      HitsIsSentInto(xs[..n], partner, bPaired, ys);
      InLast(xs);
      assert xs[n] !in xs[..n];
      if Hit(xs[n], partner, ys) {
        assert SentInto(xs, partner, ys) == SentInto(xs[..n], partner, ys) + {partner[xs[n]].value};
        assert partner[xs[n]].value !in SentInto(xs[..n], partner, ys);
      } else {
        assert SentInto(xs, partner, ys) == SentInto(xs[..n], partner, ys);
      }
    }
  }

  lemma {:induction false} CountPairedBounds(ys: seq<nat>, bPaired: seq<bool>)
    ensures CountPaired(ys, bPaired) >= |PairedIn(ys, bPaired)|
    ensures NoDup(ys) ==> CountPaired(ys, bPaired) == |PairedIn(ys, bPaired)|
  {
    if ys != [] {
      var n := |ys| - 1;
      CountPairedBounds(ys[..n], bPaired);
      InLast(ys);
      if ys[n] < |bPaired| && bPaired[ys[n]] {
        assert PairedIn(ys, bPaired) == PairedIn(ys[..n], bPaired) + {ys[n]};
      } else {
        assert PairedIn(ys, bPaired) == PairedIn(ys[..n], bPaired);
      }
    }
  }

  // Each list's hits fit into both of its counts.
  lemma HitsFit(xs: seq<nat>, partner: Pairing, bPaired: seq<bool>, ys: seq<nat>)
    requires Consistent(partner, bPaired) && NoDup(xs)
    ensures Hits(xs, partner, ys) <= CountPartnered(xs, partner)
    ensures Hits(xs, partner, ys) <= CountPaired(ys, bPaired)
  {
    HitsIsSentInto(xs, partner, bPaired, ys);
    CountPartneredIsSent(xs, partner, bPaired);
    CountPairedBounds(ys, bPaired);
    SubsetCard(SentInto(xs, partner, ys), Sent(xs, partner));
    assert SentInto(xs, partner, ys) <= PairedIn(ys, bPaired) by {
      forall x | x in xs && Hit(x, partner, ys) ensures partner[x].value in PairedIn(ys, bPaired) {
        assert partner[x] in partner;
      }
    }
    SubsetCard(SentInto(xs, partner, ys), PairedIn(ys, bPaired));
  }

  lemma QuotientRange(p: real, q: real)
    requires p >= 0.0 && q > 0.0
    ensures p / q >= 0.0
    ensures p / q <= 1.0 <==> p <= q
  {
    var r := p / q;
    assert r * q == p;
    if r > 1.0 { QuotientScales(r, 1.0, q); }
    if 1.0 > r { QuotientScales(1.0, r, q); }
    if 0.0 > r { QuotientScales(0.0, r, q); }
  }

  lemma QuotientScales(r: real, s: real, q: real)
    requires r > s && q > 0.0
    ensures r * q > s * q
  {
  }

  lemma DiceRange(hit: nat, na: nat, nb: nat)
    ensures Dice(hit, na, nb) >= 0.0
    ensures Dice(hit, na, nb) <= 1.0 <==> 2 * hit <= na + nb || na + nb == 0
  {
    if na + nb > 0 { QuotientRange((2 * hit) as real, (na + nb) as real); }
  }

  // Duplicate-free neighbours of a keep the score in [0, 1], whatever b's lists look like.
  lemma GraphScoreWithinUnit(x: Around, y: Around, partner: Pairing, bPaired: seq<bool>)
    requires Consistent(partner, bPaired)
    requires NoDup(x.callees) && NoDup(x.callers)
    ensures 0.0 <= GraphScore(x, y, partner, bPaired) <= 1.0
  {
    HitsFit(x.callees, partner, bPaired, y.callees);
    HitsFit(x.callers, partner, bPaired, y.callers);
    DiceRange(Hits(x.callees, partner, y.callees) + Hits(x.callers, partner, y.callers),
              CountPartnered(x.callees, partner) + CountPartnered(x.callers, partner),
              CountPaired(y.callees, bPaired) + CountPaired(y.callers, bPaired));
  }

  // ---------- a repeated callee breaks the bound ----------

  // Never above 1, whatever the other function and the pairing.
  ghost predicate AlwaysWithinUnit(x: Around) {
    forall y, partner, bPaired :: Fits(x, |partner|) && Fits(y, |bPaired|) && Consistent(partner, bPaired) ==>
      GraphScore(x, y, partner, bPaired) <= 1.0
  }

  // Of n functions only x is paired, with 0.
  function Only(x: nat, n: nat): (p: Pairing)
    ensures |p| == n
  {
    seq(n, i => if i == x then Some(0) else None)
  }

  lemma {:induction false} CountOnly(xs: seq<nat>, x: nat, n: nat)
    requires x < n
    ensures CountPartnered(xs, Only(x, n)) == multiset(xs)[x]
    ensures Hits(xs, Only(x, n), [0]) == multiset(xs)[x]
    ensures Hits(xs, Only(x, n), []) == 0
  {
    if xs != [] {
      var k := |xs| - 1;
      CountOnly(xs[..k], x, n);
      assert xs == xs[..k] + [xs[k]];
      assert Search([0], 0, 0, 1);
    }
  }

  // A bound above every member.
  function Above(xs: seq<nat>): (n: nat)
    ensures forall k :: 0 <= k < |xs| ==> xs[k] < n
  {
    if xs == [] then 0
    else
      var n := Above(xs[..|xs| - 1]);
      if n <= xs[|xs| - 1] then xs[|xs| - 1] + 1 else n
  }

  lemma OnlyIsConsistent(x: nat, n: nat)
    requires x < n
    ensures Consistent(Only(x, n), [true])
  {
    assert Only(x, n)[x] == Some(0);
  }

  // A callee counted k times, and d times as a caller, against neighbours that know it once.
  lemma OvershootAt(x: Around, c: nat, n: nat)
    requires Fits(x, n) && c < n
    requires multiset(x.callees)[c] >= 2 && multiset(x.callers)[c] <= 1
    ensures GraphScore(x, Around([0], if c in x.callers then [0] else []), Only(c, n), [true]) > 1.0
  {
    hide Only, Hits, CountPartnered, Dice;
    CountOnly(x.callees, c, n);
    CountOnly(x.callers, c, n);
    assert [0][..0] == [];
    assert CountPaired([0], [true]) == 1 && CountPaired([], [true]) == 0;
    var k, d := multiset(x.callees)[c], if c in x.callers then 1 else 0;
    DiceRange(k + d, k + d, 1 + d);
  }

  lemma RepeatedCalleeOvershoots(x: Around)
    requires NoDup(x.callers) && !NoDup(x.callees)
    ensures !AlwaysWithinUnit(x)
  {
    hide Above, Only, GraphScore, Consistent;
    var i, j :| 0 <= i < j < |x.callees| && x.callees[i] == x.callees[j];
    var c := x.callees[i];
    TwiceInMultiset(x.callees, i, j);
    NoDupMultiset(x.callers);
    var n := Above(x.callees) + Above(x.callers);
    var y := Around([0], if c in x.callers then [0] else []);
    OvershootAt(x, c, n);
    OnlyIsConsistent(c, n);
    assert Fits(y, |[true]|);
  }

  // The score is a ratio for every corpus and pairing exactly when the callee list has no repeats.
  lemma WithinUnitIff(x: Around)
    requires NoDup(x.callers)
    ensures AlwaysWithinUnit(x) <==> NoDup(x.callees)
  {
    if NoDup(x.callees) {
      forall y, partner, bPaired | Fits(x, |partner|) && Fits(y, |bPaired|) && Consistent(partner, bPaired)
        ensures GraphScore(x, y, partner, bPaired) <= 1.0
      {
        GraphScoreWithinUnit(x, y, partner, bPaired);
      }
    } else {
      RepeatedCalleeOvershoots(x);
    }
  }

  // ---------- with lists in order ----------

  ghost function Tag(tag: bool, S: set<nat>): set<(bool, nat)> { set y | y in S :: (tag, y) }

  // The neighbourhoods as sets, callees and callers kept apart.
  ghost function Both(callees: set<nat>, callers: set<nat>): set<(bool, nat)> {
    Tag(true, callees) + Tag(false, callers)
  }

  ghost function SentAround(x: Around, partner: Pairing): set<(bool, nat)> {
    Both(Sent(x.callees, partner), Sent(x.callers, partner))
  }

  ghost function PairedAround(y: Around, bPaired: seq<bool>): set<(bool, nat)> {
    Both(PairedIn(y.callees, bPaired), PairedIn(y.callers, bPaired))
  }

  lemma {:induction false} TaggedCard(tag: bool, S: set<nat>)
    ensures |Tag(tag, S)| == |S|
  {
    if S != {} {
      var x :| x in S;
      TaggedCard(tag, S - {x});
      assert Tag(tag, S) == Tag(tag, S - {x}) + {(tag, x)};
    }
  }

  lemma BothCard(S: set<nat>, T: set<nat>)
    ensures |Both(S, T)| == |S| + |T|
  {
    TaggedCard(true, S);
    TaggedCard(false, T);
    assert Tag(true, S) !! Tag(false, T);
  }

  lemma BothMeet(P: set<nat>, Q: set<nat>, R: set<nat>, S: set<nat>)
    ensures Both(P, Q) * Both(R, S) == Both(P * R, Q * S)
  {
  }

  lemma HitsAreShared(xs: seq<nat>, partner: Pairing, bPaired: seq<bool>, ys: seq<nat>)
    requires Consistent(partner, bPaired) && NoDup(xs) && Ascending(ys)
    ensures Hits(xs, partner, ys) == |Sent(xs, partner) * PairedIn(ys, bPaired)|
  {
    HitsIsSentInto(xs, partner, bPaired, ys);
    forall y ensures y in SentInto(xs, partner, ys) <==> y in Sent(xs, partner) * PairedIn(ys, bPaired) {
      BinarySearchDecides(ys, y);
      if y in Sent(xs, partner) {
        var x :| x in xs && x < |partner| && partner[x] == Some(y);
        assert partner[x] in partner;
        if y in ys { assert Hit(x, partner, ys); }
      }
    }
    assert SentInto(xs, partner, ys) == Sent(xs, partner) * PairedIn(ys, bPaired);
  }

  // The Dice coefficient of the two paired neighbourhoods.
  ghost function TrueDice(x: Around, y: Around, partner: Pairing, bPaired: seq<bool>): real {
    Dice(|SentAround(x, partner) * PairedAround(y, bPaired)|, |SentAround(x, partner)|, |PairedAround(y, bPaired)|)
  }

  // With duplicate-free lists, b's in index order, the score is the Dice coefficient
  // of the two paired neighbourhoods.
  lemma GraphScoreIsDice(x: Around, y: Around, partner: Pairing, bPaired: seq<bool>)
    requires Consistent(partner, bPaired)
    requires NoDup(x.callees) && NoDup(x.callers)
    requires Ascending(y.callees) && Ascending(y.callers)
    ensures GraphScore(x, y, partner, bPaired) == TrueDice(x, y, partner, bPaired)
  {
    hide Both, Hits, CountPartnered, CountPaired, Sent, PairedIn, Dice;
    var P, Q := Sent(x.callees, partner), Sent(x.callers, partner);
    var R, S := PairedIn(y.callees, bPaired), PairedIn(y.callers, bPaired);
    HitsAreShared(x.callees, partner, bPaired, y.callees);
    HitsAreShared(x.callers, partner, bPaired, y.callers);
    CountPartneredIsSent(x.callees, partner, bPaired);
    CountPartneredIsSent(x.callers, partner, bPaired);
    CountPairedBounds(y.callees, bPaired);
    CountPairedBounds(y.callers, bPaired);
    BothCard(P, Q);
    BothCard(R, S);
    BothCard(P * R, Q * S);
    BothMeet(P, Q, R, S);
  }

  // The score against y is the Dice coefficient whatever the other function and the pairing.
  ghost predicate AlwaysDice(y: Around) {
    forall x, partner, bPaired ::
      Fits(x, |partner|) && Fits(y, |bPaired|) && Consistent(partner, bPaired) && NoDup(x.callees) && NoDup(x.callers) ==>
      GraphScore(x, y, partner, bPaired) == TrueDice(x, y, partner, bPaired)
  }

  // A pairing of one function with y's neighbour m, of n.
  function Marks(m: nat, n: nat): (r: seq<bool>)
    ensures |r| == n
  {
    seq(n, i => i == m)
  }

  // x's one neighbour is paired with y's neighbour m, and the search for m fails.
  ghost predicate Misses(x: Around, y: Around, m: nat) {
    || (x == Around([0], []) && m in y.callees && !BinarySearch(y.callees, m))
    || (x == Around([], [0]) && m in y.callers && !BinarySearch(y.callers, m))
  }

  lemma NoHit(xs: seq<nat>, ys: seq<nat>, m: nat)
    requires xs == [] || (xs == [0] && !BinarySearch(ys, m))
    ensures Hits(xs, [Some(m)], ys) == 0
  {
    hide BinarySearch;
    if xs == [0] {
      assert xs[..0] == [];
      assert !Hit(0, [Some(m)], ys);
      assert Hits([], [Some(m)], ys) == 0;
    }
  }

  lemma MissScoresNothing(x: Around, y: Around, m: nat, bPaired: seq<bool>)
    requires Misses(x, y, m)
    ensures GraphScore(x, y, [Some(m)], bPaired) == 0.0
  {
    hide CountPartnered, CountPaired, BinarySearch, Hits, Dice;
    NoHit(x.callees, y.callees, m);
    NoHit(x.callers, y.callers, m);
    DiceOfNone(CountPartnered(x.callees, [Some(m)]) + CountPartnered(x.callers, [Some(m)]),
               CountPaired(y.callees, bPaired) + CountPaired(y.callers, bPaired));
  }

  lemma MarksAreConsistent(m: nat, n: nat)
    requires m < n
    ensures Consistent([Some(m)], Marks(m, n))
  {
    var partner: Pairing := [Some(m)];
    assert partner[0] == Some(m);
  }

  lemma OneSent(xs: seq<nat>, m: nat)
    requires xs == [] || xs == [0]
    ensures m in Sent(xs, [Some(m)]) <==> xs == [0]
  {
    assert 0 in [0];
  }

  lemma OneMarked(ys: seq<nat>, m: nat, n: nat)
    requires m < n
    ensures m in PairedIn(ys, Marks(m, n)) <==> m in ys
  {
  }

  lemma MissIsShared(x: Around, y: Around, m: nat, n: nat)
    requires Misses(x, y, m) && m < n
    ensures TrueDice(x, y, [Some(m)], Marks(m, n)) > 0.0
  {
    hide BinarySearch, Dice, Sent, PairedIn, Marks, Both;
    OneSent(x.callees, m);
    OneSent(x.callers, m);
    OneMarked(y.callees, m, n);
    OneMarked(y.callers, m, n);
    SharedIsPositive(Sent(x.callees, [Some(m)]), Sent(x.callers, [Some(m)]),
                     PairedIn(y.callees, Marks(m, n)), PairedIn(y.callers, Marks(m, n)), m);
  }

  lemma SharedIsPositive(P: set<nat>, Q: set<nat>, R: set<nat>, S: set<nat>, m: nat)
    requires (m in P && m in R) || (m in Q && m in S)
    ensures Dice(|Both(P, Q) * Both(R, S)|, |Both(P, Q)|, |Both(R, S)|) > 0.0
  {
    hide Dice;
    BothMeet(P, Q, R, S);
    BothCard(P, Q);
    BothCard(P * R, Q * S);
    assert m in P * R || m in Q * S;
    DiceIsPositive(|Both(P, Q) * Both(R, S)|, |Both(P, Q)|, |Both(R, S)|);
  }

  lemma MissedNeighbour(y: Around, x: Around, m: nat, n: nat)
    requires Misses(x, y, m) && Fits(y, n)
    ensures !AlwaysDice(y)
  {
    hide GraphScore, TrueDice, Consistent, BinarySearch;
    assert m < n;
    MissScoresNothing(x, y, m, Marks(m, n));
    MarksAreConsistent(m, n);
    MissIsShared(x, y, m, n);
    hide Misses;
    assert Fits(x, |[Some(m)]|) && Fits(y, |Marks(m, n)|);
  }

  lemma DiceOfNone(na: nat, nb: nat)
    ensures Dice(0, na, nb) == 0.0
  {
  }

  lemma DiceIsPositive(hit: nat, na: nat, nb: nat)
    requires hit > 0 && na + nb > 0
    ensures Dice(hit, na, nb) > 0.0
  {
  }

  // The score is the Dice coefficient exactly when y's lists are in index order; out of order
  // the search misses a neighbour.
  lemma DiceIff(y: Around)
    requires NoDup(y.callees) && NoDup(y.callers)
    ensures AlwaysDice(y) <==> Ascending(y.callees) && Ascending(y.callers)
  {
    hide AlwaysDice, GraphScore, TrueDice, Above;
    SearchableIff(y.callees);
    SearchableIff(y.callers);
    var n := Above(y.callees) + Above(y.callers);
    if !Ascending(y.callees) {
      var m :| m in y.callees && !BinarySearch(y.callees, m);
      MissedNeighbour(y, Around([0], []), m, n);
    } else if !Ascending(y.callers) {
      var m :| m in y.callers && !BinarySearch(y.callers, m);
      MissedNeighbour(y, Around([], [0]), m, n);
    } else {
      InOrderIsDice(y);
    }
  }

  lemma InOrderIsDice(y: Around)
    requires Ascending(y.callees) && Ascending(y.callers)
    ensures AlwaysDice(y)
  {
    hide GraphScore, TrueDice;
    forall x, partner, bPaired | Fits(x, |partner|) && Fits(y, |bPaired|) && Consistent(partner, bPaired)
                                 && NoDup(x.callees) && NoDup(x.callers)
      ensures GraphScore(x, y, partner, bPaired) == TrueDice(x, y, partner, bPaired)
    {
      GraphScoreIsDice(x, y, partner, bPaired);
    }
  }
}
