/**
  crates/fnprint-core/src/align.rs, assign_greedy: a walk down the ranked candidates that
  keeps whatever clashes with nothing kept. The result is the only stable 1:1 choice, and
  never less than half as good as any other.
 */
module Assign {
  import opened Sorting
  import opened Wrappers
  import opened Sig

  // A function to be matched. An address says which function of its group it is; on the b
  // side there is one group per binary.
  datatype Node = Node(fp: Fingerprint, entry: nat, callees: seq<nat>, name: Option<string>, group: string)

  datatype Cand = Cand(a: nat, b: nat, sim: real, graph: real)

  datatype Pair = Pair(a: nat, b: nat, sim: real, graph: real, score: real)

  function Score(c: Cand, w: real): real { c.sim + w * c.graph }

  function ToPair(c: Cand, w: real): Pair {
    Pair(c.a, c.b, c.sim, c.graph, if Score(c, w) < 1.0 then Score(c, w) else 1.0)
  }

  function ToPairs(cs: seq<Cand>, w: real): (r: seq<Pair>)
    ensures |r| == |cs|
  {
    seq(|cs|, i requires 0 <= i < |cs| => ToPair(cs[i], w))
  }

  // ---------- the ranking ----------

  datatype Rank = Rank(score: real, sim: real, ea: nat, gb: string, eb: nat)

  function EntryAt(ns: seq<Node>, i: nat): nat { if i < |ns| then ns[i].entry else 0 }

  function GroupAt(ns: seq<Node>, i: nat): string { if i < |ns| then ns[i].group else "" }

  function RankOf(c: Cand, a: seq<Node>, b: seq<Node>, w: real): Rank {
    Rank(Score(c, w), c.sim, EntryAt(a, c.a), GroupAt(b, c.b), EntryAt(b, c.b))
  }

  // r ranks strictly ahead of q: by the larger score, the larger similarity, and at last by
  // the smaller addresses, a's first.
  predicate Before(r: Rank, q: Rank) {
    || r.score > q.score
    || (r.score == q.score
        && (|| r.sim > q.sim
            || (r.sim == q.sim
                && (|| r.ea < q.ea
                    || (r.ea == q.ea
                        && (StrLess(r.gb, q.gb) || (r.gb == q.gb && r.eb < q.eb)))))))
  }

  function ByRank(a: seq<Node>, b: seq<Node>, w: real): (Cand, Cand) -> bool {
    (x: Cand, y: Cand) => !Before(RankOf(y, a, b, w), RankOf(x, a, b, w))
  }

  lemma BeforeTrichotomy(r: Rank, q: Rank)
    ensures !(Before(r, q) && Before(q, r))
    ensures Before(r, q) || Before(q, r) || r == q
    ensures !Before(r, r)
  {
    StrLessTotal(r.gb, q.gb);
    StrLessIrreflexive(r.gb);
    if StrLess(r.gb, q.gb) && StrLess(q.gb, r.gb) { StrLessTransitive(r.gb, q.gb, r.gb); }
  }

  lemma BeforeTransitive(r: Rank, q: Rank, p: Rank)
    requires Before(r, q) && Before(q, p)
    ensures Before(r, p)
  {
    if StrLess(r.gb, q.gb) && StrLess(q.gb, p.gb) { StrLessTransitive(r.gb, q.gb, p.gb); }
  }

  lemma ByRankOrders(a: seq<Node>, b: seq<Node>, w: real)
    ensures TotalPreorder(ByRank(a, b, w))
  {
    var le := ByRank(a, b, w);
    forall x, y ensures le(x, y) || le(y, x) {
      BeforeTrichotomy(RankOf(x, a, b, w), RankOf(y, a, b, w));
    }
    forall x, y, z | le(x, y) && le(y, z) ensures le(x, z) {
      var p, q, r := RankOf(x, a, b, w), RankOf(y, a, b, w), RankOf(z, a, b, w);
      BeforeTrichotomy(p, q);
      BeforeTrichotomy(q, r);
      BeforeTrichotomy(p, r);
      if Before(r, p) && Before(p, q) { BeforeTransitive(r, p, q); }
    }
  }

  // ---------- the greedy choice ----------

  predicate Clash(c: Cand, d: Cand) { c.a == d.a || c.b == d.b }

  predicate ClashesWith(c: Cand, chosen: seq<Cand>) {
    exists i :: 0 <= i < |chosen| && Clash(chosen[i], c)
  }

  // What the walk keeps.
  function Greedy(cs: seq<Cand>): seq<Cand> {
    if cs == [] then []
    else
      var g := Greedy(cs[..|cs| - 1]);
      if ClashesWith(cs[|cs| - 1], g) then g else g + [cs[|cs| - 1]]
  }

  function ByA(): (Pair, Pair) -> bool { (x: Pair, y: Pair) => x.a <= y.a }

  function Chosen(cs: seq<Cand>, a: seq<Node>, b: seq<Node>, w: real): seq<Cand> {
    Greedy(SortBy(cs, ByRank(a, b, w)))
  }

  function Assignment(cs: seq<Cand>, a: seq<Node>, b: seq<Node>, w: real): seq<Pair> {
    SortBy(ToPairs(Chosen(cs, a, b, w), w), ByA())
  }

  predicate InRange(cs: seq<Cand>, a: seq<Node>, b: seq<Node>) {
    forall i :: 0 <= i < |cs| ==> cs[i].a < |a| && cs[i].b < |b|
  }

  predicate TakesA(g: seq<Cand>, x: nat) { exists d :: d in g && d.a == x }

  predicate TakesB(g: seq<Cand>, y: nat) { exists d :: d in g && d.b == y }

  lemma NothingTaken()
    ensures Greedy([]) == []
    ensures forall x :: !TakesA([], x) && !TakesB([], x)
  {
  }

  lemma TakesSnoc(g: seq<Cand>, c: Cand)
    ensures forall x :: TakesA(g + [c], x) <==> TakesA(g, x) || x == c.a
    ensures forall y :: TakesB(g + [c], y) <==> TakesB(g, y) || y == c.b
  {
    assert forall d :: d in g + [c] <==> d in g || d == c;
  }

  lemma GreedyStep(s: seq<Cand>, i: nat)
    requires i < |s|
    ensures Greedy(s[..i + 1]) ==
            if TakesA(Greedy(s[..i]), s[i].a) || TakesB(Greedy(s[..i]), s[i].b) then Greedy(s[..i])
            else Greedy(s[..i]) + [s[i]]
  {
    var g := Greedy(s[..i]);
    assert s[..i + 1][..i] == s[..i];
    if ClashesWith(s[i], g) {
      var k :| 0 <= k < |g| && Clash(g[k], s[i]);
      assert g[k] in g;
    }
  }

  method AssignGreedy(cands: array<Cand>, a: seq<Node>, b: seq<Node>, w: real) returns (out: seq<Pair>)
    requires InRange(cands[..], a, b)
    modifies cands
    ensures cands[..] == SortBy(old(cands[..]), ByRank(a, b, w))
    ensures out == Assignment(old(cands[..]), a, b, w)
  {
    hide ClashesWith, Greedy, TakesA, TakesB;
    ghost var given := cands[..];
    SortInPlace(cands, ByRank(a, b, w));
    ghost var sorted := cands[..];
    SortKeepsRange(given, a, b, w);
    assert sorted[..0] == [];
    NothingTaken();
    var aTaken := new bool[|a|](_ => false);
    var bTaken := new bool[|b|](_ => false);
    out := [];
    for i := 0 to cands.Length
      invariant cands[..] == sorted
      invariant out == ToPairs(Greedy(sorted[..i]), w)
      invariant forall x :: 0 <= x < |a| ==> (aTaken[x] <==> TakesA(Greedy(sorted[..i]), x))
      invariant forall y :: 0 <= y < |b| ==> (bTaken[y] <==> TakesB(Greedy(sorted[..i]), y))
    {
      var c := cands[i];
      ghost var g := Greedy(sorted[..i]);
      assert c == sorted[i] && c.a < |a| && c.b < |b|;
      GreedyStep(sorted, i);
      TakesSnoc(g, c);
      if aTaken[c.a] || bTaken[c.b] {
        continue;
      }
      aTaken[c.a] := true;
      bTaken[c.b] := true;
      out := out + [ToPair(c, w)];
    }
    assert sorted[..cands.Length] == sorted;
    out := SortBy(out, ByA());
  }

  lemma SortKeepsRange(cs: seq<Cand>, a: seq<Node>, b: seq<Node>, w: real)
    requires InRange(cs, a, b)
    ensures InRange(SortBy(cs, ByRank(a, b, w)), a, b)
  {
    var s := SortBy(cs, ByRank(a, b, w));
    SortBySorts(cs, ByRank(a, b, w));
    forall i | 0 <= i < |s| ensures s[i].a < |a| && s[i].b < |b| {
      assert s[i] in cs;
    }
  }

  // ---------- stability ----------

  ghost predicate OneToOne(T: set<Cand>) {
    forall c, d :: c in T && d in T && Clash(c, d) ==> c == d
  }

  // T is a 1:1 part of the list, and everything left out clashes with something
  // in T that stands before it.
  ghost predicate Stable(T: set<Cand>, cs: seq<Cand>) {
    && (forall c :: c in T ==> c in cs)
    && OneToOne(T)
    && (forall i :: 0 <= i < |cs| && cs[i] !in T ==>
          exists j :: 0 <= j < i && cs[j] in T && Clash(cs[j], cs[i]))
  }

  lemma {:induction false} GreedyIsPart(cs: seq<Cand>)
    ensures forall c :: c in Greedy(cs) ==> c in cs
    ensures OneToOne(Elements(Greedy(cs)))
  {
    if cs != [] { GreedyIsPart(cs[..|cs| - 1]); }
  }

  lemma {:induction false} GreedyIsStable(cs: seq<Cand>)
    ensures Stable(Elements(Greedy(cs)), cs)
  {
    GreedyIsPart(cs);
    if cs != [] {
      var n := |cs| - 1;
      GreedyIsStable(cs[..n]);
      var G, H := Elements(Greedy(cs[..n])), Elements(Greedy(cs));
      ElementsSnoc(Greedy(cs[..n]), cs[n]);
      forall i | 0 <= i < |cs| && cs[i] !in H
        ensures exists j :: 0 <= j < i && cs[j] in H && Clash(cs[j], cs[i])
      {
        if i < n {
          assert cs[..n][i] == cs[i];
          var j :| 0 <= j < i && cs[..n][j] in G && Clash(cs[..n][j], cs[i]);
          assert cs[j] in H;
        } else {
          GreedyIsPart(cs[..n]);
          var k :| 0 <= k < |Greedy(cs[..n])| && Clash(Greedy(cs[..n])[k], cs[n]);
          var d := Greedy(cs[..n])[k];
          assert d in Greedy(cs[..n]);
          var j :| 0 <= j < n && cs[..n][j] == d;
          assert cs[j] == d && d in H;
        }
      }
    }
  }

  lemma StablePrefix(T: set<Cand>, cs: seq<Cand>)
    requires cs != [] && NoDup(cs) && Stable(T, cs)
    ensures Stable(T - {cs[|cs| - 1]}, cs[..|cs| - 1])
  {
    var n := |cs| - 1;
    var p, P := cs[..n], T - {cs[n]};
    forall c | c in P ensures c in p {
      var i :| 0 <= i < |cs| && cs[i] == c;
      assert p[i] == c;
    }
    forall i | 0 <= i < n && p[i] !in P
      ensures exists j :: 0 <= j < i && p[j] in P && Clash(p[j], p[i])
    {
      assert cs[i] !in T;
      var j :| 0 <= j < i && cs[j] in T && Clash(cs[j], cs[i]);
      assert p[j] == cs[j] && cs[j] != cs[n];
    }
  }

  lemma LastIsInUnlessBlocked(T: set<Cand>, cs: seq<Cand>, g: seq<Cand>)
    requires cs != [] && NoDup(cs) && Stable(T, cs)
    requires T - {cs[|cs| - 1]} == Elements(g)
    ensures cs[|cs| - 1] in T <==> !ClashesWith(cs[|cs| - 1], g)
  {
    var n := |cs| - 1;
    var c := cs[n];
    if c in T {
      assert forall k :: 0 <= k < |g| ==> g[k] in Elements(g);
    } else {
      var j :| 0 <= j < n && cs[j] in T && Clash(cs[j], c);
      assert cs[j] in Elements(g);
      var k :| 0 <= k < |g| && g[k] == cs[j];
    }
  }

  // The greedy choice is the only stable one.
  lemma {:induction false} StableIsGreedy(T: set<Cand>, cs: seq<Cand>)
    requires NoDup(cs) && Stable(T, cs)
    ensures T == Elements(Greedy(cs))
  {
    hide ClashesWith;
    if cs == [] {
      assert T == {};
    } else {
      var n := |cs| - 1;
      var g := Greedy(cs[..n]);
      StablePrefix(T, cs);
      StableIsGreedy(T - {cs[n]}, cs[..n]);
      LastIsInUnlessBlocked(T, cs, g);
      ElementsSnoc(g, cs[n]);
    }
  }

  // ---------- without ties ----------

  ghost predicate DistinctEntries(a: seq<Node>) {
    forall i, j :: 0 <= i < j < |a| ==> a[i].entry != a[j].entry
  }

  ghost predicate DistinctKeys(b: seq<Node>) {
    forall i, j :: 0 <= i < j < |b| ==> b[i].group != b[j].group || b[i].entry != b[j].entry
  }

  // Every pair of functions is a candidate at most once.
  ghost predicate Keyed(cs: seq<Cand>) {
    forall i, j :: 0 <= i < j < |cs| ==> cs[i].a != cs[j].a || cs[i].b != cs[j].b
  }

  lemma RanksDiffer(cs: seq<Cand>, a: seq<Node>, b: seq<Node>, w: real)
    requires InRange(cs, a, b) && Keyed(cs)
    requires (b == [] || DistinctEntries(a)) && (a == [] || DistinctKeys(b))
    ensures Strict(cs, ByRank(a, b, w))
    ensures NoDup(cs)
  {
    forall x, y | x in cs && y in cs && ByRank(a, b, w)(x, y) && ByRank(a, b, w)(y, x) ensures x == y {
      BeforeTrichotomy(RankOf(x, a, b, w), RankOf(y, a, b, w));
      var i :| 0 <= i < |cs| && cs[i] == x;
      var j :| 0 <= j < |cs| && cs[j] == y;
      assert a[x.a].entry == a[y.a].entry;
      assert b[x.b].entry == b[y.b].entry && b[x.b].group == b[y.b].group;
      assert x.a == y.a && x.b == y.b;
    }
  }

  // T is a 1:1 set of candidates and every other candidate shares a side with
  // one of T that ranks before it.
  ghost predicate RankStable(T: set<Cand>, C: set<Cand>, a: seq<Node>, b: seq<Node>, w: real) {
    && T <= C
    && OneToOne(T)
    && forall c :: c in C && c !in T ==>
         exists d :: d in T && Clash(d, c) && Before(RankOf(d, a, b, w), RankOf(c, a, b, w))
  }

  lemma StableMeansRankStable(T: set<Cand>, s: seq<Cand>, a: seq<Node>, b: seq<Node>, w: real)
    requires Sorted(s, ByRank(a, b, w)) && Strict(s, ByRank(a, b, w)) && NoDup(s)
    ensures Stable(T, s) <==> RankStable(T, Elements(s), a, b, w)
  {
    forall i, j | 0 <= i < |s| && 0 <= j < |s|
      ensures j < i <==> Before(RankOf(s[j], a, b, w), RankOf(s[i], a, b, w))
    {
      PositionIsRank(s, a, b, w, j, i);
    }
    if Stable(T, s) {
      forall c | c in Elements(s) && c !in T
        ensures exists d :: d in T && Clash(d, c) && Before(RankOf(d, a, b, w), RankOf(c, a, b, w))
      {
        var i :| 0 <= i < |s| && s[i] == c;
        var j :| 0 <= j < i && s[j] in T && Clash(s[j], s[i]);
      }
    }
    if RankStable(T, Elements(s), a, b, w) {
      forall i | 0 <= i < |s| && s[i] !in T
        ensures exists j :: 0 <= j < i && s[j] in T && Clash(s[j], s[i])
      {
        assert s[i] in Elements(s);
        var d :| d in T && Clash(d, s[i]) && Before(RankOf(d, a, b, w), RankOf(s[i], a, b, w));
        assert d in Elements(s);
        var j :| 0 <= j < |s| && s[j] == d;
      }
    }
  }

  lemma PositionIsRank(s: seq<Cand>, a: seq<Node>, b: seq<Node>, w: real, j: nat, i: nat)
    requires Sorted(s, ByRank(a, b, w)) && Strict(s, ByRank(a, b, w)) && NoDup(s)
    requires i < |s| && j < |s|
    ensures j < i <==> Before(RankOf(s[j], a, b, w), RankOf(s[i], a, b, w))
  {
    var le := ByRank(a, b, w);
    BeforeTrichotomy(RankOf(s[j], a, b, w), RankOf(s[i], a, b, w));
    if j < i {
      assert le(s[j], s[i]);
      assert s[j] in s && s[i] in s;
    } else if i < j {
      assert le(s[i], s[j]);
    }
  }

  // With distinct entries there is exactly one stable matching, and it is the one chosen.
  lemma UniqueStableMatching(cs: seq<Cand>, a: seq<Node>, b: seq<Node>, w: real, T: set<Cand>)
    requires InRange(cs, a, b) && Keyed(cs)
    requires DistinctEntries(a) && DistinctKeys(b)
    ensures RankStable(T, Elements(cs), a, b, w) <==> T == Elements(Chosen(cs, a, b, w))
  {
    var s := SortBy(cs, ByRank(a, b, w));
    RanksDiffer(cs, a, b, w);
    ByRankOrders(a, b, w);
    SortBySorts(cs, ByRank(a, b, w));
    NoDupPermutation(cs, s);
    assert Elements(s) == Elements(cs);
    StableMeansRankStable(T, s, a, b, w);
    GreedyIsStable(s);
    if Stable(T, s) { StableIsGreedy(T, s); }
  }

  // ---------- independence of the order of the list ----------

  // Reordering a candidate list never changes its assignment.
  ghost predicate OrderIndependent(a: seq<Node>, b: seq<Node>, w: real) {
    forall cs: seq<Cand>, ds: seq<Cand> :: InRange(cs, a, b) && Keyed(cs) && multiset(cs) == multiset(ds) ==>
      Assignment(cs, a, b, w) == Assignment(ds, a, b, w)
  }

  lemma TwoTied(x: Cand, y: Cand, a: seq<Node>, b: seq<Node>, w: real)
    requires RankOf(x, a, b, w) == RankOf(y, a, b, w)
    requires Clash(x, y)
    ensures Assignment([x, y], a, b, w) == [ToPair(x, w)]
  {
    var le := ByRank(a, b, w);
    BeforeTrichotomy(RankOf(x, a, b, w), RankOf(y, a, b, w));
    assert Sorted([x, y], le);
    SortBySortedIsIdentity([x, y], le);
    assert [x, y][..1] == [x] && [x][..0] == [];
    assert Greedy([x]) == [x];
    assert ClashesWith(y, [x]) by { assert Clash([x][0], y); }
    assert Greedy([x, y]) == [x];
    assert ToPairs([x], w) == [ToPair(x, w)];
    SortBySortedIsIdentity([ToPair(x, w)], ByA());
  }

  lemma TiesBreakIndependence(x: Cand, y: Cand, a: seq<Node>, b: seq<Node>, w: real)
    requires RankOf(x, a, b, w) == RankOf(y, a, b, w)
    requires Clash(x, y) && (x.a != y.a || x.b != y.b)
    requires InRange([x, y], a, b)
    ensures !OrderIndependent(a, b, w)
  {
    TwoTied(x, y, a, b, w);
    TwoTied(y, x, a, b, w);
    assert multiset([x, y]) == multiset([y, x]);
    assert Keyed([x, y]);
    assert [ToPair(x, w)][0] != [ToPair(y, w)][0];
  }

  // The assignment forgets the order of its input exactly when no two functions
  // of a side carry the same address (as long as the other side has any).
  lemma OrderIndependentIff(a: seq<Node>, b: seq<Node>, w: real)
    ensures OrderIndependent(a, b, w) <==>
            (b == [] || DistinctEntries(a)) && (a == [] || DistinctKeys(b))
  {
    if (b == [] || DistinctEntries(a)) && (a == [] || DistinctKeys(b)) {
      forall cs: seq<Cand>, ds: seq<Cand> | InRange(cs, a, b) && Keyed(cs) && multiset(cs) == multiset(ds)
        ensures Assignment(cs, a, b, w) == Assignment(ds, a, b, w)
      {
        ByRankOrders(a, b, w);
        RanksDiffer(cs, a, b, w);
        SortByPermutation(cs, ds, ByRank(a, b, w));
      }
    }
    if b != [] && !DistinctEntries(a) {
      var i, j :| 0 <= i < j < |a| && a[i].entry == a[j].entry;
      TiesBreakIndependence(Cand(i, 0, 1.0, 0.0), Cand(j, 0, 1.0, 0.0), a, b, w);
    }
    if a != [] && !DistinctKeys(b) {
      var i, j :| 0 <= i < j < |b| && b[i].group == b[j].group && b[i].entry == b[j].entry;
      TiesBreakIndependence(Cand(0, i, 1.0, 0.0), Cand(0, j, 1.0, 0.0), a, b, w);
    }
  }

  // ---------- how good the choice is ----------

  ghost function Total(S: set<Cand>, v: Cand -> real): real {
    if S == {} then 0.0 else var c :| c in S; v(c) + Total(S - {c}, v)
  }

  lemma {:induction false} TotalRemove(S: set<Cand>, v: Cand -> real, c: Cand)
    requires c in S
    ensures Total(S, v) == v(c) + Total(S - {c}, v)
  {
    var d :| d in S && Total(S, v) == v(d) + Total(S - {d}, v);
    if d != c {
      TotalRemove(S - {d}, v, c);
      TotalRemove(S - {c}, v, d);
      assert S - {d} - {c} == S - {c} - {d};
    }
  }

  lemma {:induction false} TotalSplit(S: set<Cand>, P: set<Cand>, v: Cand -> real)
    requires P <= S
    ensures Total(S, v) == Total(P, v) + Total(S - P, v)
  {
    if P == {} {
      assert S - P == S;
    } else {
      var c :| c in P;
      TotalRemove(S, v, c);
      TotalRemove(P, v, c);
      TotalSplit(S - {c}, P - {c}, v);
      assert S - {c} - (P - {c}) == S - P;
    }
  }

  lemma {:induction false} TotalNonNegative(S: set<Cand>, v: Cand -> real)
    requires forall c :: c in S ==> v(c) >= 0.0
    ensures Total(S, v) >= 0.0
  {
    if S != {} {
      var c :| c in S;
      TotalRemove(S, v, c);
      TotalNonNegative(S - {c}, v);
    }
  }

  // If each member of S has its own, at least as valuable, member of G, S totals no more than G.
  lemma {:induction false} Dominated(S: set<Cand>, G: set<Cand>, v: Cand -> real, key: Cand -> nat)
    requires forall c :: c in G ==> v(c) >= 0.0
    requires forall c, d :: c in S && d in S && key(c) == key(d) ==> c == d
    requires forall c :: c in S ==> exists d :: d in G && key(d) == key(c) && v(d) >= v(c)
    ensures Total(S, v) <= Total(G, v)
  {
    if S == {} {
      TotalNonNegative(G, v);
    } else {
      var c :| c in S;
      var d :| d in G && key(d) == key(c) && v(d) >= v(c);
      forall e | e in S - {c} ensures exists f :: f in G - {d} && key(f) == key(e) && v(f) >= v(e) {
        var f :| f in G && key(f) == key(e) && v(f) >= v(e);
        assert key(e) != key(c);
      }
      Dominated(S - {c}, G - {d}, v, key);
      TotalRemove(S, v, c);
      TotalRemove(G, v, d);
    }
  }

  // d takes one side of t and is worth no less.
  ghost predicate Outbids(d: Cand, t: Cand, v: Cand -> real) {
    Clash(d, t) && v(d) >= v(t)
  }

  // Every candidate is outbid by a chosen one (by itself, if chosen).
  lemma EveryoneIsOutbid(cs: seq<Cand>, a: seq<Node>, b: seq<Node>, w: real, v: Cand -> real, t: Cand)
    returns (d: Cand)
    requires forall c, d :: ByRank(a, b, w)(c, d) ==> v(c) >= v(d)
    requires t in cs
    ensures d in Chosen(cs, a, b, w) && Outbids(d, t, v)
  {
    var le := ByRank(a, b, w);
    var s := SortBy(cs, le);
    var G := Elements(Greedy(s));
    ByRankOrders(a, b, w);
    SortBySorts(cs, le);
    GreedyIsStable(s);
    if t in G {
      d := t;
    } else {
      var i :| 0 <= i < |s| && s[i] == t;
      var j :| 0 <= j < i && s[j] in G && Clash(s[j], s[i]);
      assert le(s[j], s[i]);
      d := s[j];
    }
  }

  // d comes first: by score, then by similarity, then by the lower address of its a function, then
  // by the lesser group and the lower address of its b function.
  ghost predicate ComesFirst(d: Cand, c: Cand, a: seq<Node>, b: seq<Node>, w: real)
    requires d.a < |a| && d.b < |b| && c.a < |a| && c.b < |b|
  {
    if d.sim + w * d.graph != c.sim + w * c.graph then d.sim + w * d.graph > c.sim + w * c.graph
    else if d.sim != c.sim then d.sim > c.sim
    else if a[d.a].entry != a[c.a].entry then a[d.a].entry < a[c.a].entry
    else if b[d.b].group != b[c.b].group then StrLess(b[d.b].group, b[c.b].group)
    else b[d.b].entry <= b[c.b].entry
  }

  lemma RankedFirst(d: Cand, c: Cand, a: seq<Node>, b: seq<Node>, w: real)
    requires d.a < |a| && d.b < |b| && c.a < |a| && c.b < |b|
    requires ByRank(a, b, w)(d, c)
    ensures ComesFirst(d, c, a, b, w)
  {
    BeforeTrichotomy(RankOf(c, a, b, w), RankOf(d, a, b, w));
  }

  // A candidate is left out only for one that comes first and takes one of its functions.
  lemma LoserIsOutranked(cs: seq<Cand>, a: seq<Node>, b: seq<Node>, w: real, c: Cand) returns (d: Cand)
    requires InRange(cs, a, b) && c in cs && c !in Chosen(cs, a, b, w)
    ensures d in Chosen(cs, a, b, w) && d.a < |a| && d.b < |b| && c.a < |a| && c.b < |b|
    ensures (d.a == c.a || d.b == c.b) && ComesFirst(d, c, a, b, w)
  {
    hide ByRank, ComesFirst;
    var s := SortBy(cs, ByRank(a, b, w));
    var G := Elements(Greedy(s));
    ByRankOrders(a, b, w);
    SortBySorts(cs, ByRank(a, b, w));
    SortKeepsRange(cs, a, b, w);
    GreedyIsStable(s);
    var i :| 0 <= i < |s| && s[i] == c;
    var j :| 0 <= j < i && s[j] in G && Clash(s[j], s[i]);
    d := s[j];
    RankedFirst(d, c, a, b, w);
  }

  lemma SideDominated(S: set<Cand>, G: set<Cand>, v: Cand -> real, key: Cand -> nat)
    requires forall c :: c in G ==> v(c) >= 0.0
    requires OneToOne(S)
    requires forall c, d :: key(c) == key(d) ==> Clash(c, d)
    requires forall c :: c in S ==> exists d :: d in G && key(d) == key(c) && v(d) >= v(c)
    ensures Total(S, v) <= Total(G, v)
  {
    hide Clash;
    Dominated(S, G, v, key);
  }

  lemma TwoSidesDominate(T: set<Cand>, G: set<Cand>, v: Cand -> real)
    requires forall c :: c in G ==> v(c) >= 0.0
    requires OneToOne(T)
    requires forall t :: t in T ==> exists d :: d in G && Outbids(d, t, v)
    ensures Total(T, v) <= 2.0 * Total(G, v)
  {
    var byA := (c: Cand) => c.a;
    var byB := (c: Cand) => c.b;
    var TA := set t | t in T && exists d :: d in G && byA(d) == byA(t) && v(d) >= v(t);
    var TB := T - TA;
    forall t | t in TB ensures exists d :: d in G && byB(d) == byB(t) && v(d) >= v(t) {
      var d :| d in G && Outbids(d, t, v);
      assert byA(d) != byA(t);
      assert byB(d) == byB(t);
    }
    assert OneToOne(TA) && OneToOne(TB);
    SideDominated(TA, G, v, byA);
    SideDominated(TB, G, v, byB);
    TotalSplit(T, TA, v);
  }

  // For any value that never rises along the ranking, any 1:1 choice is worth
  // at most twice the greedy one: every pair of it is outbid on one of its two sides.
  lemma HalfOf(cs: seq<Cand>, a: seq<Node>, b: seq<Node>, w: real, v: Cand -> real, T: set<Cand>)
    requires forall c :: c in cs ==> v(c) >= 0.0
    requires forall c, d :: ByRank(a, b, w)(c, d) ==> v(c) >= v(d)
    requires T <= Elements(cs) && OneToOne(T)
    ensures Total(T, v) <= 2.0 * Total(Elements(Chosen(cs, a, b, w)), v)
  {
    hide ByRank;
    var G := Elements(Chosen(cs, a, b, w));
    SortBySorts(cs, ByRank(a, b, w));
    GreedyIsPart(SortBy(cs, ByRank(a, b, w)));
    forall t | t in T ensures exists d :: d in G && Outbids(d, t, v) {
      var d := EveryoneIsOutbid(cs, a, b, w, v, t);
      assert d in G;
    }
    TwoSidesDominate(T, G, v);
  }

  function ScoreBy(w: real): Cand -> real { (c: Cand) => Score(c, w) }

  lemma {:induction false} TotalOfOnes(S: set<Cand>)
    ensures Total(S, (c: Cand) => 1.0) == |S| as real
  {
    if S != {} {
      var c :| c in S;
      TotalRemove(S, (c: Cand) => 1.0, c);
      TotalOfOnes(S - {c});
    }
  }

  // The greedy choice is worth at least half of any 1:1 choice, and has at least half as many pairs.
  lemma GreedyIsHalfOptimal(cs: seq<Cand>, a: seq<Node>, b: seq<Node>, w: real, T: set<Cand>)
    requires forall c :: c in cs ==> Score(c, w) >= 0.0
    requires T <= Elements(cs) && OneToOne(T)
    ensures Total(T, ScoreBy(w)) <= 2.0 * Total(Elements(Chosen(cs, a, b, w)), ScoreBy(w))
    ensures |T| <= 2 * |Elements(Chosen(cs, a, b, w))|
  {
    HalfOf(cs, a, b, w, ScoreBy(w), T);
    var one := (c: Cand) => 1.0;
    HalfOf(cs, a, b, w, one, T);
    TotalOfOnes(T);
    TotalOfOnes(Elements(Chosen(cs, a, b, w)));
  }

  // ---------- what the assignment holds ----------

  // The pairs index lists of their own sides, of whatever elements.
  predicate PairsInRange<X, Y>(ps: seq<Pair>, a: seq<X>, b: seq<Y>) {
    forall i :: 0 <= i < |ps| ==> ps[i].a < |a| && ps[i].b < |b|
  }

  ghost predicate OneToOnePairs(ps: seq<Pair>) {
    forall i, j :: 0 <= i < j < |ps| ==> ps[i].a != ps[j].a && ps[i].b != ps[j].b
  }

  lemma {:induction false} GreedyIsOneToOne(cs: seq<Cand>)
    ensures forall i, j :: 0 <= i < j < |Greedy(cs)| ==> !Clash(Greedy(cs)[i], Greedy(cs)[j])
  {
    if cs != [] { GreedyIsOneToOne(cs[..|cs| - 1]); }
  }

  lemma OneToOnePermutes(ps: seq<Pair>, qs: seq<Pair>)
    requires OneToOnePairs(ps) && multiset(ps) == multiset(qs)
    ensures OneToOnePairs(qs)
  {
    SameElements(ps, qs);
    NoDupPermutation(ps, qs);
    forall i, j | 0 <= i < j < |qs| ensures qs[i].a != qs[j].a && qs[i].b != qs[j].b {
      assert qs[i] in ps && qs[j] in ps && qs[i] != qs[j];
    }
  }

  // No function is claimed twice, every pair comes from a candidate, and the list is in a order.
  lemma AssignmentIsOneToOne(cs: seq<Cand>, a: seq<Node>, b: seq<Node>, w: real)
    ensures OneToOnePairs(Assignment(cs, a, b, w))
    ensures forall p :: p in Assignment(cs, a, b, w) <==> exists c :: c in Chosen(cs, a, b, w) && p == ToPair(c, w)
    ensures forall c :: c in Chosen(cs, a, b, w) ==> c in cs
    ensures Sorted(Assignment(cs, a, b, w), ByA())
  {
    var g := Chosen(cs, a, b, w);
    var ps := ToPairs(g, w);
    GreedyIsOneToOne(SortBy(cs, ByRank(a, b, w)));
    GreedyIsPart(SortBy(cs, ByRank(a, b, w)));
    SortBySorts(cs, ByRank(a, b, w));
    SortBySorts(ps, ByA());
    assert TotalPreorder(ByA());
    assert OneToOnePairs(ps) by {
      forall i, j | 0 <= i < j < |ps| ensures ps[i].a != ps[j].a && ps[i].b != ps[j].b {
        assert !Clash(g[i], g[j]);
      }
    }
    OneToOnePermutes(ps, Assignment(cs, a, b, w));
    forall p ensures p in Assignment(cs, a, b, w) <==> exists c :: c in g && p == ToPair(c, w) {
      if p in ps {
        var i :| 0 <= i < |ps| && ps[i] == p;
        assert g[i] in g;
      }
      if c :| c in g && p == ToPair(c, w) {
        var i :| 0 <= i < |g| && g[i] == c;
        assert ps[i] == p;
      }
    }
  }
}
