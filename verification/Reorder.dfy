/**
  align does not depend on the order of its inputs: the same functions are matched, with
  the same numbers, in the same order of report, at every graph weight and after any number
  of rounds. For the b side this holds as long as no neighbour list is searched in vain.
 */
module Reorder {
  import opened Sorting
  import opened Wrappers
  import opened Sig
  import opened Assign
  import opened Align
  import opened AlignTheorems
  import opened Renumber
  import G = Graph

  // A candidate by what it pairs instead of where it stands.
  datatype View = View(na: Node, nb: Node, sim: real, graph: real)

  function ViewOf(c: Cand, a: seq<Node>, b: seq<Node>): View
    requires c.a < |a| && c.b < |b|
  {
    View(a[c.a], b[c.b], c.sim, c.graph)
  }

  function Views(cs: seq<Cand>, a: seq<Node>, b: seq<Node>): (r: seq<View>)
    requires InRange(cs, a, b)
    ensures |r| == |cs|
  {
    seq(|cs|, i requires 0 <= i < |cs| => ViewOf(cs[i], a, b))
  }

  function ViewRank(v: View, w: real): Rank {
    Rank(v.sim + w * v.graph, v.sim, v.na.entry, v.nb.group, v.nb.entry)
  }

  function ByViewRank(w: real): (View, View) -> bool {
    (x: View, y: View) => !Before(ViewRank(y, w), ViewRank(x, w))
  }

  // ---------- the same candidates ----------

  lemma SomeNearReorders(f: Fingerprint, b: seq<Node>, b2: seq<Node>)
    requires multiset(b) == multiset(b2)
    ensures SomeNear(f, b) ==> SomeNear(f, b2)
  {
    hide Near;
    SameElements(b, b2);
    if j :| 0 <= j < |b| && Near(f, b[j]) {
      assert b[j] in b2;
      var k :| 0 <= k < |b2| && b2[k] == b[j];
    }
  }

  // The same two functions are a candidate over the other order.
  lemma CandidateMoves(a: seq<Node>, b: seq<Node>, a2: seq<Node>, b2: seq<Node>, c: Cand) returns (d: Cand)
    requires multiset(a) == multiset(a2) && multiset(b) == multiset(b2)
    requires ListCand(a, b, c)
    ensures ListCand(a2, b2, d) && d.sim == c.sim && d.graph == c.graph
    ensures c.a < |a| && c.b < |b| && a2[d.a] == a[c.a] && b2[d.b] == b[c.b]
  {
    hide Near, Similarity, SomeNear, Usable;
    SameElements(a, a2);
    SameElements(b, b2);
    assert a[c.a] in a2 && b[c.b] in b2;
    var k: nat :| k < |a2| && a2[k] == a[c.a];
    var l: nat :| l < |b2| && b2[l] == b[c.b];
    SomeNearReorders(a[c.a].fp, b, b2);
    SomeNearReorders(a[c.a].fp, b2, b);
    d := Cand(k, l, c.sim, c.graph);
  }

  lemma CandidatesReorder(a: seq<Node>, b: seq<Node>, a2: seq<Node>, b2: seq<Node>, v: View)
    requires multiset(a) == multiset(a2) && multiset(b) == multiset(b2)
    requires InRange(CandList(a, b, |a|), a, b) && InRange(CandList(a2, b2, |a2|), a2, b2)
    requires v in Views(CandList(a, b, |a|), a, b)
    ensures v in Views(CandList(a2, b2, |a2|), a2, b2)
  {
    hide ListCand, CandList;
    var cs, ds := CandList(a, b, |a|), CandList(a2, b2, |a2|);
    CandListHolds(a, b, |a|);
    CandListHolds(a2, b2, |a2|);
    var i :| 0 <= i < |cs| && ViewOf(cs[i], a, b) == v;
    assert cs[i] in cs;
    var d := CandidateMoves(a, b, a2, b2, cs[i]);
    ListCandInRange(a2, b2, d);
    assert d in ds;
    var m :| 0 <= m < |ds| && ds[m] == d;
    assert Views(ds, a2, b2)[m] == v;
  }

  lemma ListCandInRange(a: seq<Node>, b: seq<Node>, c: Cand)
    requires ListCand(a, b, c)
    ensures c.a < |a| && c.b < |b|
  {
  }

  // ---------- the same ranking ----------

  lemma SameOrder(c: Cand, d: Cand, a: seq<Node>, b: seq<Node>, w: real)
    requires c.a < |a| && c.b < |b| && d.a < |a| && d.b < |b|
    ensures ByViewRank(w)(ViewOf(c, a, b), ViewOf(d, a, b)) <==> ByRank(a, b, w)(c, d)
  {
    hide Before;
    assert RankOf(c, a, b, w) == ViewRank(ViewOf(c, a, b), w);
    assert RankOf(d, a, b, w) == ViewRank(ViewOf(d, a, b), w);
  }

  lemma ViewsSorted(s: seq<Cand>, a: seq<Node>, b: seq<Node>, w: real)
    requires InRange(s, a, b) && Keyed(s)
    requires DistinctEntries(a) && DistinctKeys(b)
    requires Sorted(s, ByRank(a, b, w)) && Strict(s, ByRank(a, b, w))
    ensures Sorted(Views(s, a, b), ByViewRank(w))
    ensures Strict(Views(s, a, b), ByViewRank(w))
    ensures NoDup(Views(s, a, b))
  {
    hide ByRank, ByViewRank;
    var vs := Views(s, a, b);
    forall i, j | 0 <= i < j < |vs| ensures ByViewRank(w)(vs[i], vs[j]) && vs[i] != vs[j] {
      SameOrder(s[i], s[j], a, b, w);
    }
    forall x, y | x in vs && y in vs && ByViewRank(w)(x, y) && ByViewRank(w)(y, x) ensures x == y {
      var i :| 0 <= i < |vs| && vs[i] == x;
      var j :| 0 <= j < |vs| && vs[j] == y;
      assert s[i] in s && s[j] in s;
      SameOrder(s[i], s[j], a, b, w);
      SameOrder(s[j], s[i], a, b, w);
    }
  }

  lemma SortedCandList(a: seq<Node>, b: seq<Node>, w: real) returns (s: seq<Cand>)
    requires DistinctEntries(a) && DistinctKeys(b)
    ensures s == SortBy(CandList(a, b, |a|), ByRank(a, b, w))
    ensures InRange(CandList(a, b, |a|), a, b) && InRange(s, a, b)
    ensures Sorted(Views(s, a, b), ByViewRank(w))
    ensures Strict(Views(s, a, b), ByViewRank(w))
    ensures NoDup(Views(s, a, b))
    ensures forall v :: v in Views(s, a, b) <==> v in Views(CandList(a, b, |a|), a, b)
  {
    hide ListCand, ByRank, ByViewRank, Strict, Sorted, NoDup, DistinctEntries, DistinctKeys;
    var cs := CandList(a, b, |a|);
    s := SortBy(cs, ByRank(a, b, w));
    CandListInRange(a, b);
    CandListHolds(a, b, |a|);
    SortKeepsRange(cs, a, b, w);
    RanksDiffer(cs, a, b, w);
    ByRankOrders(a, b, w);
    SortBySorts(cs, ByRank(a, b, w));
    KeyedPermutes(cs, s);
    StrictPermutes(cs, s, ByRank(a, b, w));
    ViewsSorted(s, a, b, w);
    ViewsElements(cs, s, a, b);
    ViewsElements(s, cs, a, b);
  }

  lemma StrictPermutes<T>(s: seq<T>, t: seq<T>, le: (T, T) -> bool)
    requires Strict(s, le) && forall x :: x in t ==> x in s
    ensures Strict(t, le)
  {
  }

  lemma ViewsElements(cs: seq<Cand>, ds: seq<Cand>, a: seq<Node>, b: seq<Node>)
    requires InRange(cs, a, b) && InRange(ds, a, b)
    requires forall c :: c in cs ==> c in ds
    ensures forall v :: v in Views(cs, a, b) ==> v in Views(ds, a, b)
  {
    forall v | v in Views(cs, a, b) ensures v in Views(ds, a, b) {
      var i :| 0 <= i < |cs| && Views(cs, a, b)[i] == v;
      assert cs[i] in ds;
      var j :| 0 <= j < |ds| && ds[j] == cs[i];
      assert Views(ds, a, b)[j] == v;
    }
  }

  // Sorted, the two candidate lists show the same functions at the same places.
  lemma SameSortedViews(a: seq<Node>, b: seq<Node>, a2: seq<Node>, b2: seq<Node>, w: real)
    requires DistinctEntries(a) && DistinctKeys(b) && DistinctEntries(a2) && DistinctKeys(b2)
    requires multiset(a) == multiset(a2) && multiset(b) == multiset(b2)
    ensures var s, t := SortBy(CandList(a, b, |a|), ByRank(a, b, w)), SortBy(CandList(a2, b2, |a2|), ByRank(a2, b2, w));
            InRange(s, a, b) && InRange(t, a2, b2) && Views(s, a, b) == Views(t, a2, b2)
  {
    hide ByRank, ByViewRank, Strict, Sorted, NoDup, DistinctEntries, DistinctKeys, InRange;
    var s := SortedCandList(a, b, w);
    var t := SortedCandList(a2, b2, w);
    var vs, us := Views(s, a, b), Views(t, a2, b2);
    forall v ensures v in vs <==> v in us {
      if v in vs { CandidatesReorder(a, b, a2, b2, v); }
      if v in us { CandidatesReorder(a2, b2, a, b, v); }
    }
    SameSetSameMultiset(vs, us);
    SortedUnique(vs, us, ByViewRank(w));
  }

  lemma DistinctReorders(a: seq<Node>, a2: seq<Node>)
    requires multiset(a) == multiset(a2)
    ensures DistinctEntries(a) ==> DistinctEntries(a2)
    ensures DistinctKeys(a) ==> DistinctKeys(a2)
  {
    SameElements(a, a2);
    if DistinctEntries(a) || DistinctKeys(a) {
      assert NoDup(a);
      NoDupPermutation(a, a2);
    }
    forall i, j | 0 <= i < j < |a2| ensures DistinctEntries(a) ==> a2[i].entry != a2[j].entry
      ensures DistinctKeys(a) ==> a2[i].group != a2[j].group || a2[i].entry != a2[j].entry
    {
      assert a2[i] in a && a2[j] in a;
    }
  }

  // ---------- the same choice ----------

  lemma SameClashes(c: Cand, d: Cand, a: seq<Node>, b: seq<Node>)
    requires c.a < |a| && c.b < |b| && d.a < |a| && d.b < |b|
    requires NoDup(a) && NoDup(b)
    ensures Clash(c, d) <==> ViewOf(c, a, b).na == ViewOf(d, a, b).na || ViewOf(c, a, b).nb == ViewOf(d, a, b).nb
  {
  }

  lemma SameBlocked(g: seq<Cand>, c: Cand, a: seq<Node>, b: seq<Node>)
    requires InRange(g, a, b) && c.a < |a| && c.b < |b|
    requires NoDup(a) && NoDup(b)
    ensures ClashesWith(c, g) <==>
            exists v :: v in Views(g, a, b) && (v.na == ViewOf(c, a, b).na || v.nb == ViewOf(c, a, b).nb)
  {
    if ClashesWith(c, g) {
      var i :| 0 <= i < |g| && Clash(g[i], c);
      assert Views(g, a, b)[i] in Views(g, a, b);
    }
    if v :| v in Views(g, a, b) && (v.na == ViewOf(c, a, b).na || v.nb == ViewOf(c, a, b).nb) {
      var i :| 0 <= i < |g| && Views(g, a, b)[i] == v;
      SameClashes(g[i], c, a, b);
    }
  }

  lemma GreedyInRange(cs: seq<Cand>, a: seq<Node>, b: seq<Node>)
    requires InRange(cs, a, b)
    ensures InRange(Greedy(cs), a, b)
  {
    GreedyIsPart(cs);
    forall i | 0 <= i < |Greedy(cs)| ensures Greedy(cs)[i].a < |a| && Greedy(cs)[i].b < |b| {
      assert Greedy(cs)[i] in cs;
    }
  }

  // The greedy walk sees only the views.
  lemma {:induction false} SameChoice(s: seq<Cand>, a: seq<Node>, b: seq<Node>, t: seq<Cand>, a2: seq<Node>, b2: seq<Node>)
    requires InRange(s, a, b) && InRange(t, a2, b2)
    requires InRange(Greedy(s), a, b) && InRange(Greedy(t), a2, b2)
    requires NoDup(a) && NoDup(b) && NoDup(a2) && NoDup(b2)
    requires Views(s, a, b) == Views(t, a2, b2)
    ensures Views(Greedy(s), a, b) == Views(Greedy(t), a2, b2)
  {
    hide ClashesWith, NoDup;
    if s != [] {
      var n := |s| - 1;
      assert |t| == |s|;
      var p, q := s[..n], t[..n];
      assert Views(p, a, b) == Views(s, a, b)[..n] && Views(q, a2, b2) == Views(t, a2, b2)[..n];
      GreedyInRange(p, a, b);
      GreedyInRange(q, a2, b2);
      SameChoice(p, a, b, q, a2, b2);
      assert ViewOf(s[n], a, b) == Views(s, a, b)[n] == Views(t, a2, b2)[n] == ViewOf(t[n], a2, b2);
      SameBlocked(Greedy(p), s[n], a, b);
      SameBlocked(Greedy(q), t[n], a2, b2);
      if !ClashesWith(s[n], Greedy(p)) {
        assert Views(Greedy(s), a, b) == Views(Greedy(p), a, b) + [ViewOf(s[n], a, b)];
        assert Views(Greedy(t), a2, b2) == Views(Greedy(q), a2, b2) + [ViewOf(t[n], a2, b2)];
      }
    }
  }

  // ---------- the same order after a round ----------

  lemma ViewsCons(x: Cand, s: seq<Cand>, a: seq<Node>, b: seq<Node>)
    requires x.a < |a| && x.b < |b| && InRange(s, a, b)
    ensures InRange([x] + s, a, b) && Views([x] + s, a, b) == [ViewOf(x, a, b)] + Views(s, a, b)
  {
  }

  lemma {:induction false} InsertViews(x: Cand, s: seq<Cand>, a: seq<Node>, b: seq<Node>, w: real)
    requires x.a < |a| && x.b < |b| && InRange(s, a, b)
    ensures InRange(Insert(x, s, ByRank(a, b, w)), a, b)
    ensures Views(Insert(x, s, ByRank(a, b, w)), a, b) == Insert(ViewOf(x, a, b), Views(s, a, b), ByViewRank(w))
  {
    hide ByRank, ByViewRank, Views;
    ViewsCons(x, s, a, b);
    if s == [] {
      ViewsCons(x, [], a, b);
      assert [x] + [] == [x];
      NoViews(a, b);
    } else {
      assert s == [s[0]] + s[1..];
      ViewsCons(s[0], s[1..], a, b);
      assert Views(s, a, b)[0] == ViewOf(s[0], a, b) && Views(s, a, b)[1..] == Views(s[1..], a, b);
      SameOrder(x, s[0], a, b, w);
      if !ByRank(a, b, w)(x, s[0]) {
        InsertViews(x, s[1..], a, b, w);
        ViewsCons(s[0], Insert(x, s[1..], ByRank(a, b, w)), a, b);
      }
    }
  }

  lemma NoViews(a: seq<Node>, b: seq<Node>)
    ensures Views([], a, b) == []
  {
  }

  // Sorting by rank sees only the views.
  lemma {:induction false} SortViews(s: seq<Cand>, a: seq<Node>, b: seq<Node>, w: real)
    requires InRange(s, a, b)
    ensures InRange(SortBy(s, ByRank(a, b, w)), a, b)
    ensures Views(SortBy(s, ByRank(a, b, w)), a, b) == SortBy(Views(s, a, b), ByViewRank(w))
  {
    hide ByRank, ByViewRank;
    if s != [] {
      assert Views(s, a, b)[1..] == Views(s[1..], a, b);
      SortViews(s[1..], a, b, w);
      InsertViews(s[0], SortBy(s[1..], ByRank(a, b, w)), a, b, w);
    }
  }

  // Who is paired with whom.
  ghost function Matched(vs: seq<View>): set<(Node, Node)> { set v | v in vs :: (v.na, v.nb) }

  lemma ChoiceInRange(cs: seq<Cand>, a: seq<Node>, b: seq<Node>, w: real)
    requires InRange(cs, a, b)
    ensures InRange(SortBy(cs, ByRank(a, b, w)), a, b) && InRange(Chosen(cs, a, b, w), a, b)
  {
    SortKeepsRange(cs, a, b, w);
    GreedyInRange(SortBy(cs, ByRank(a, b, w)), a, b);
  }

  lemma PairIsMatched(ps: seq<Pair>, g: seq<Cand>, a: seq<Node>, b: seq<Node>, w: real, x: nat, y: nat)
    requires InRange(g, a, b) && NoDup(a) && NoDup(b) && x < |a| && y < |b|
    requires forall p :: p in ps <==> exists c :: c in g && p == ToPair(c, w)
    ensures (exists k :: 0 <= k < |ps| && ps[k].a == x && ps[k].b == y) <==> (a[x], b[y]) in Matched(Views(g, a, b))
  {
    hide Score;
    if k :| 0 <= k < |ps| && ps[k].a == x && ps[k].b == y {
      assert ps[k] in ps;
      var c :| c in g && ps[k] == ToPair(c, w);
      var i :| 0 <= i < |g| && g[i] == c;
      assert Views(g, a, b)[i] in Views(g, a, b);
    }
    if (a[x], b[y]) in Matched(Views(g, a, b)) {
      var v :| v in Views(g, a, b) && v.na == a[x] && v.nb == b[y];
      var i :| 0 <= i < |g| && Views(g, a, b)[i] == v;
      assert g[i] in g && ToPair(g[i], w) in ps;
      var k :| 0 <= k < |ps| && ps[k] == ToPair(g[i], w);
    }
  }

  lemma MatchedAreNodes(g: seq<Cand>, a: seq<Node>, b: seq<Node>)
    requires InRange(g, a, b)
    ensures forall n, m :: (n, m) in Matched(Views(g, a, b)) ==> n in a && m in b
  {
  }

  // The rounds' partner list and marks tell the chosen views.
  lemma ChoiceTells(cs: seq<Cand>, a: seq<Node>, b: seq<Node>, w: real)
    requires InRange(cs, a, b) && InRange(Chosen(cs, a, b, w), a, b) && NoDup(a) && NoDup(b)
    ensures var ps := Assignment(cs, a, b, w);
            Tells(PartnerOf(ps, |a|), PairedOf(ps, |b|), a, b, Matched(Views(Chosen(cs, a, b, w), a, b)))
  {
    hide Chosen, Assignment, PartnerOf, PairedOf, NoDup, Matched;
    var g, ps := Chosen(cs, a, b, w), Assignment(cs, a, b, w);
    AssignmentIsOneToOne(cs, a, b, w);
    AssignmentInRange(cs, a, b, w);
    PartnerOfHolds(ps, |a|);
    PartnerIsConsistent(ps, |a|, |b|);
    MatchedAreNodes(g, a, b);
    var partner := PartnerOf(ps, |a|);
    forall x, y | 0 <= x < |a| && 0 <= y < |b|
      ensures partner[x] == Some(y) <==> (a[x], b[y]) in Matched(Views(g, a, b))
    {
      PairIsMatched(ps, g, a, b, w, x, y);
      if k :| 0 <= k < |ps| && ps[k].a == x && ps[k].b == y { assert partner[ps[k].a] == Some(ps[k].b); }
    }
  }

  // The same functions on either side, in another order, and the b lists searched alike.
  ghost predicate Renumbered(s: Setting, s2: Setting) {
    && s == SettingOf(s.a, s.b, s.w) && s2 == SettingOf(s2.a, s2.b, s2.w) && s.w == s2.w
    && Reordered(s.a, s2.a, false) && Reordered(s.b, s2.b, true)
    && SearchedAlike(s.b, s2.b)
  }

  lemma NeighboursAreAround(ns: seq<Node>, scoped: bool, i: nat)
    requires i < |ns|
    ensures NeighboursOf(ns, scoped)[i] == AroundOf(ns, scoped, i)
  {
  }

  lemma GraphRenumbers(s: Setting, s2: Setting, c: Cand, d: Cand, partner: G.Pairing, bPaired: seq<bool>,
                       partner2: G.Pairing, bPaired2: seq<bool>, M: set<(Node, Node)>)
    requires Renumbered(s, s2)
    requires c.a < |s.a| && c.b < |s.b| && d.a < |s2.a| && d.b < |s2.b|
    requires s.a[c.a] == s2.a[d.a] && s.b[c.b] == s2.b[d.b]
    requires Tells(partner, bPaired, s.a, s.b, M) && Tells(partner2, bPaired2, s2.a, s2.b, M)
    ensures GraphOf(s, c, partner, bPaired) == GraphOf(s2, d, partner2, bPaired2)
  {
    hide NeighboursOf, Tells, Reordered, SearchedAlike, AroundOf, AroundAlike, FoundAlike, G.GraphScore;
    NeighboursAreAround(s.a, false, c.a);
    NeighboursAreAround(s.b, true, c.b);
    NeighboursAreAround(s2.a, false, d.a);
    NeighboursAreAround(s2.b, true, d.b);
    AroundRenumbers(s.a, s2.a, false, c.a, d.a);
    AroundRenumbers(s.b, s2.b, true, c.b, d.b);
    SearchesRenumber(s.b, s2.b, c.b, d.b);
    ScoreRenumbers(AroundOf(s.a, false, c.a), AroundOf(s.b, true, c.b), partner, bPaired, s.a, s.b,
                   AroundOf(s2.a, false, d.a), AroundOf(s2.b, true, d.b), partner2, bPaired2, s2.a, s2.b, M);
  }

  // Sorted, the two lists show the same candidates at the same places.
  ghost predicate SortedAlike(s: Setting, cs: seq<Cand>, s2: Setting, ds: seq<Cand>) {
    && InRange(cs, s.a, s.b) && InRange(ds, s2.a, s2.b)
    && InRange(SortBy(cs, ByRank(s.a, s.b, s.w)), s.a, s.b)
    && InRange(SortBy(ds, ByRank(s2.a, s2.b, s2.w)), s2.a, s2.b)
    && Views(SortBy(cs, ByRank(s.a, s.b, s.w)), s.a, s.b) == Views(SortBy(ds, ByRank(s2.a, s2.b, s2.w)), s2.a, s2.b)
  }

  lemma ReorderedDistinct(s: Setting, s2: Setting)
    requires Renumbered(s, s2)
    ensures NoDup(s.a) && NoDup(s.b) && NoDup(s2.a) && NoDup(s2.b)
  {
    DistinctByKey(s.a, false);
    DistinctByKey(s.b, true);
    DistinctByKey(s2.a, false);
    DistinctByKey(s2.b, true);
  }

  lemma DistinctByKey(ns: seq<Node>, scoped: bool)
    requires NoDup(G.KeysOf(ns, scoped))
    ensures NoDup(ns)
  {
    forall i, j | 0 <= i < j < |ns| ensures ns[i] != ns[j] {
      assert G.KeysOf(ns, scoped)[i] != G.KeysOf(ns, scoped)[j];
    }
  }

  lemma ChosenAlike(s: Setting, cs: seq<Cand>, s2: Setting, ds: seq<Cand>)
    requires Renumbered(s, s2) && SortedAlike(s, cs, s2, ds)
    ensures InRange(Chosen(cs, s.a, s.b, s.w), s.a, s.b) && InRange(Chosen(ds, s2.a, s2.b, s2.w), s2.a, s2.b)
    ensures Views(Chosen(cs, s.a, s.b, s.w), s.a, s.b) == Views(Chosen(ds, s2.a, s2.b, s2.w), s2.a, s2.b)
  {
    hide ByRank, Greedy, Renumbered, NoDup;
    ReorderedDistinct(s, s2);
    ChoiceInRange(cs, s.a, s.b, s.w);
    ChoiceInRange(ds, s2.a, s2.b, s2.w);
    SameChoice(SortBy(cs, ByRank(s.a, s.b, s.w)), s.a, s.b, SortBy(ds, ByRank(s2.a, s2.b, s2.w)), s2.a, s2.b);
  }

  function NextCands(s: Setting, cs: seq<Cand>): seq<Cand> {
    Rescore(s, Assigned(s, cs).cands, Assigned(s, cs).assign)
  }

  lemma NextInRange(s: Setting, cs: seq<Cand>)
    requires InRange(cs, s.a, s.b)
    ensures InRange(NextCands(s, cs), s.a, s.b)
  {
    SortKeepsRange(cs, s.a, s.b, s.w);
    RescoreKeepsRange(s, SortBy(cs, ByRank(s.a, s.b, s.w)), Assignment(cs, s.a, s.b, s.w));
  }

  // One round on either numbering re-scores the same candidates by the same graph.
  lemma NextViewsAlike(s: Setting, cs: seq<Cand>, s2: Setting, ds: seq<Cand>)
    requires Renumbered(s, s2) && SortedAlike(s, cs, s2, ds)
    requires InRange(NextCands(s, cs), s.a, s.b) && InRange(NextCands(s2, ds), s2.a, s2.b)
    ensures Views(NextCands(s, cs), s.a, s.b) == Views(NextCands(s2, ds), s2.a, s2.b)
  {
    hide ByRank, Chosen, Assignment, Renumbered, Matched, Tells, PartnerOf, PairedOf, GraphOf, NoDup;
    ReorderedDistinct(s, s2);
    ChosenAlike(s, cs, s2, ds);
    ChoiceTells(cs, s.a, s.b, s.w);
    ChoiceTells(ds, s2.a, s2.b, s2.w);
    var M := Matched(Views(Chosen(cs, s.a, s.b, s.w), s.a, s.b));
    var S, T := SortBy(cs, ByRank(s.a, s.b, s.w)), SortBy(ds, ByRank(s2.a, s2.b, s2.w));
    var ps, qs := Assignment(cs, s.a, s.b, s.w), Assignment(ds, s2.a, s2.b, s2.w);
    assert |S| == |Views(S, s.a, s.b)| == |T|;
    forall i | 0 <= i < |S|
      ensures ViewOf(RescoreOne(s, S[i], ps), s.a, s.b) == ViewOf(RescoreOne(s2, T[i], qs), s2.a, s2.b)
    {
      assert ViewOf(S[i], s.a, s.b) == Views(S, s.a, s.b)[i] == Views(T, s2.a, s2.b)[i] == ViewOf(T[i], s2.a, s2.b);
      GraphRenumbers(s, s2, S[i], T[i], PartnerOf(ps, |s.a|), PairedOf(ps, |s.b|),
                     PartnerOf(qs, |s2.a|), PairedOf(qs, |s2.b|), M);
    }
  }

  lemma RoundKeepsAlike(s: Setting, cs: seq<Cand>, s2: Setting, ds: seq<Cand>)
    requires Renumbered(s, s2) && SortedAlike(s, cs, s2, ds)
    ensures SortedAlike(s, NextCands(s, cs), s2, NextCands(s2, ds))
  {
    assert s.w == s2.w;
    hide ByRank, ByViewRank, Renumbered, NextCands;
    NextInRange(s, cs);
    NextInRange(s2, ds);
    NextViewsAlike(s, cs, s2, ds);
    SortViews(NextCands(s, cs), s.a, s.b, s.w);
    SortViews(NextCands(s2, ds), s2.a, s2.b, s2.w);
  }

  // After any number of rounds.
  lemma {:induction false} RoundsAlike(s: Setting, s2: Setting, k: nat)
    requires k > 0 ==> Renumbered(s, s2)
    requires SortedAlike(s, CandList(s.a, s.b, |s.a|), s2, CandList(s2.a, s2.b, |s2.a|))
    ensures SortedAlike(s, CandsAt(s, k), s2, CandsAt(s2, k))
  {
    hide SortedAlike, Renumbered, Assigned, Rescore, CandList;
    if k > 0 {
      RoundsAlike(s, s2, k - 1);
      RoundKeepsAlike(s, CandsAt(s, k - 1), s2, CandsAt(s2, k - 1));
    }
  }

  // ---------- the same report ----------

  // One reported match: the two functions and the numbers.
  datatype Match = Match(na: Node, nb: Node, sim: real, graph: real, score: real)

  function MatchOf(p: Pair, a: seq<Node>, b: seq<Node>): Match
    requires p.a < |a| && p.b < |b|
  {
    Match(a[p.a], b[p.b], p.sim, p.graph, p.score)
  }

  function Matches(ps: seq<Pair>, a: seq<Node>, b: seq<Node>): (r: seq<Match>)
    requires forall i :: 0 <= i < |ps| ==> ps[i].a < |a| && ps[i].b < |b|
    ensures |r| == |ps|
  {
    seq(|ps|, i requires 0 <= i < |ps| => MatchOf(ps[i], a, b))
  }

  function MatchOfView(v: View, w: real): Match {
    var score := v.sim + w * v.graph;
    Match(v.na, v.nb, v.sim, v.graph, if score < 1.0 then score else 1.0)
  }

  function ByMatchScore(): (Match, Match) -> bool {
    (x: Match, y: Match) =>
      || x.score > y.score
      || (x.score == y.score && (x.sim > y.sim || (x.sim == y.sim && x.na.entry <= y.na.entry)))
  }

  lemma AlignedInRange(a: seq<Node>, b: seq<Node>, o: Opts)
    ensures forall i :: 0 <= i < |Aligned(a, b, o)| ==> Aligned(a, b, o)[i].a < |a| && Aligned(a, b, o)[i].b < |b|
  {
    hide Aligned;
    AlignedIsSound(a, b, o);
    var ps := Aligned(a, b, o);
    forall i | 0 <= i < |ps| ensures ps[i].a < |a| && ps[i].b < |b| { assert ps[i] in ps; }
  }

  lemma MatchToView(ps: seq<Pair>, g: seq<Cand>, a: seq<Node>, b: seq<Node>, w: real, m: Match)
    requires InRange(g, a, b)
    requires forall i :: 0 <= i < |ps| ==> ps[i].a < |a| && ps[i].b < |b|
    requires forall p :: p in ps ==> exists c :: c in g && p == ToPair(c, w)
    requires m in Matches(ps, a, b)
    ensures exists v :: v in Views(g, a, b) && m == MatchOfView(v, w)
  {
    var i :| 0 <= i < |ps| && Matches(ps, a, b)[i] == m;
    assert ps[i] in ps;
    var c :| c in g && ps[i] == ToPair(c, w);
    var k :| 0 <= k < |g| && g[k] == c;
    var v := Views(g, a, b)[k];
    assert v in Views(g, a, b) && m == MatchOfView(v, w);
  }

  lemma ViewToMatch(ps: seq<Pair>, g: seq<Cand>, a: seq<Node>, b: seq<Node>, w: real, v: View)
    requires InRange(g, a, b)
    requires forall i :: 0 <= i < |ps| ==> ps[i].a < |a| && ps[i].b < |b|
    requires v in Views(g, a, b)
    requires forall c :: c in g && ToPair(c, w).score == MatchOfView(v, w).score ==> ToPair(c, w) in ps
    ensures MatchOfView(v, w) in Matches(ps, a, b)
  {
    var k :| 0 <= k < |g| && Views(g, a, b)[k] == v;
    var p := ToPair(g[k], w);
    assert g[k] in g;
    assert p in ps;
    var i :| 0 <= i < |ps| && ps[i] == p;
    assert Matches(ps, a, b)[i] == MatchOfView(v, w);
  }

  // The matches are the views chosen last, at or above the threshold.
  lemma MatchesAreChosenViews(a: seq<Node>, b: seq<Node>, o: Opts, g: seq<Cand>)
    requires InRange(g, a, b)
    requires g == Chosen(CandsAt(SettingOf(a, b, Weight(o)), RoundCount(o)), a, b, Weight(o))
    requires forall i :: 0 <= i < |Aligned(a, b, o)| ==> Aligned(a, b, o)[i].a < |a| && Aligned(a, b, o)[i].b < |b|
    ensures forall m :: m in Matches(Aligned(a, b, o), a, b) <==>
              m.score >= o.threshold && exists v :: v in Views(g, a, b) && m == MatchOfView(v, Weight(o))
  {
    hide Aligned, Chosen, FinalList, CandList, InRange, ToPair, MatchOfView, CandsAt, SettingOf;
    var ps := Aligned(a, b, o);
    var cs := FinalCands(a, b, o);
    AlignedElements(a, b, o, cs);
    assert forall p :: p in ps <==> p.score >= o.threshold && exists c :: c in g && p == ToPair(c, Weight(o));
    forall m ensures m in Matches(ps, a, b) <==>
              m.score >= o.threshold && exists v :: v in Views(g, a, b) && m == MatchOfView(v, Weight(o))
    {
      if m in Matches(ps, a, b) {
        MatchToView(ps, g, a, b, Weight(o), m);
        var i :| 0 <= i < |ps| && Matches(ps, a, b)[i] == m;
        assert ps[i] in ps;
      }
      if m.score >= o.threshold && exists v :: v in Views(g, a, b) && m == MatchOfView(v, Weight(o)) {
        var v :| v in Views(g, a, b) && m == MatchOfView(v, Weight(o));
        ViewToMatch(ps, g, a, b, Weight(o), v);
      }
    }
  }

  lemma MatchOrder(p: Pair, q: Pair, a: seq<Node>, b: seq<Node>)
    requires p.a < |a| && p.b < |b| && q.a < |a| && q.b < |b|
    requires ByScore(a)(p, q)
    ensures ByMatchScore()(MatchOf(p, a, b), MatchOf(q, a, b))
  {
  }

  lemma TiedMatches(x: Match, y: Match)
    requires ByMatchScore()(x, y) && ByMatchScore()(y, x)
    ensures x.na.entry == y.na.entry
  {
  }

  lemma MatchesSorted(a: seq<Node>, b: seq<Node>, o: Opts)
    requires DistinctEntries(a)
    requires forall i :: 0 <= i < |Aligned(a, b, o)| ==> Aligned(a, b, o)[i].a < |a| && Aligned(a, b, o)[i].b < |b|
    ensures Sorted(Matches(Aligned(a, b, o), a, b), ByMatchScore())
    ensures Strict(Matches(Aligned(a, b, o), a, b), ByMatchScore())
    ensures NoDup(Matches(Aligned(a, b, o), a, b))
  {
    hide Aligned, ByScore, ByMatchScore, Honest, BestFirst;
    var ps := Aligned(a, b, o);
    var ms := Matches(ps, a, b);
    AlignedIsSound(a, b, o);
    forall i, j | 0 <= i < j < |ms| ensures ByMatchScore()(ms[i], ms[j]) && ms[i].na.entry != ms[j].na.entry {
      assert ByScore(a)(ps[i], ps[j]);
      MatchOrder(ps[i], ps[j], a, b);
    }
    forall x, y | x in ms && y in ms && ByMatchScore()(x, y) && ByMatchScore()(y, x) ensures x == y {
      var i :| 0 <= i < |ms| && ms[i] == x;
      var j :| 0 <= j < |ms| && ms[j] == y;
      TiedMatches(x, y);
    }
  }

  lemma KeysAreDistinct(a: seq<Node>, b: seq<Node>)
    requires DistinctEntries(a) && DistinctKeys(b)
    ensures NoDup(G.KeysOf(a, false)) && NoDup(G.KeysOf(b, true))
  {
  }

  lemma SettingsRenumber(a: seq<Node>, b: seq<Node>, a2: seq<Node>, b2: seq<Node>, w: real)
    requires DistinctEntries(a) && DistinctKeys(b) && DistinctEntries(a2) && DistinctKeys(b2)
    requires multiset(a) == multiset(a2) && multiset(b) == multiset(b2)
    requires SearchedAlike(b, b2)
    ensures Renumbered(SettingOf(a, b, w), SettingOf(a2, b2, w))
  {
    hide SearchedAlike, NeighboursOf, DistinctEntries, DistinctKeys;
    KeysAreDistinct(a, b);
    KeysAreDistinct(a2, b2);
  }

  // The choices of the last round, without the graph or with it.
  lemma FinalChoiceAlike(a: seq<Node>, b: seq<Node>, a2: seq<Node>, b2: seq<Node>, o: Opts)
    returns (g: seq<Cand>, h: seq<Cand>)
    requires DistinctEntries(a) && DistinctKeys(b) && DistinctEntries(a2) && DistinctKeys(b2)
    requires multiset(a) == multiset(a2) && multiset(b) == multiset(b2)
    requires RoundCount(o) == 0 || SearchedAlike(b, b2)
    ensures g == Chosen(CandsAt(SettingOf(a, b, Weight(o)), RoundCount(o)), a, b, Weight(o)) && InRange(g, a, b)
    ensures h == Chosen(CandsAt(SettingOf(a2, b2, Weight(o)), RoundCount(o)), a2, b2, Weight(o)) && InRange(h, a2, b2)
    ensures Views(g, a, b) == Views(h, a2, b2)
  {
    hide SearchedAlike, Renumbered, DistinctEntries, DistinctKeys, CandList, ByRank, NoDup, NeighboursOf, CandsAt, Greedy;
    var w, k := Weight(o), RoundCount(o);
    var s, s2 := SettingOf(a, b, w), SettingOf(a2, b2, w);
    CandListInRange(a, b);
    CandListInRange(a2, b2);
    SameSortedViews(a, b, a2, b2, w);
    if k > 0 { SettingsRenumber(a, b, a2, b2, w); }
    RoundsAlike(s, s2, k);
    var cs, ds := CandsAt(s, k), CandsAt(s2, k);
    ChoiceInRange(cs, a, b, w);
    ChoiceInRange(ds, a2, b2, w);
    KeysAreDistinct(a, b);
    KeysAreDistinct(a2, b2);
    DistinctByKey(a, false);
    DistinctByKey(b, true);
    DistinctByKey(a2, false);
    DistinctByKey(b2, true);
    SameChoice(SortBy(cs, ByRank(a, b, w)), a, b, SortBy(ds, ByRank(a2, b2, w)), a2, b2);
    g, h := Chosen(cs, a, b, w), Chosen(ds, a2, b2, w);
  }

  // What align reports: the functions matched, with the numbers, in order.
  ghost function Reported(a: seq<Node>, b: seq<Node>, o: Opts): seq<Match> {
    AlignedInRange(a, b, o);
    Matches(Aligned(a, b, o), a, b)
  }

  // Reordering the inputs reorders nothing in the report, whatever the weight and the rounds:
  // a in any way; b in any way that lets the searches find the same callees, or in any way at
  // all when no round looks at the graph.
  lemma AlignIgnoresInputOrder(a: seq<Node>, b: seq<Node>, a2: seq<Node>, b2: seq<Node>, o: Opts)
    requires DistinctEntries(a) && DistinctKeys(b)
    requires multiset(a) == multiset(a2) && multiset(b) == multiset(b2)
    requires SearchedAlike(b, b2) || o.graphWeight <= 0.0 || o.rounds == 0
    ensures Reported(a, b, o) == Reported(a2, b2, o)
  {
    hide Aligned, Chosen, CandsAt, SettingOf, DistinctEntries, DistinctKeys, SearchedAlike,
         Sorted, Strict, NoDup, ByMatchScore, MatchOfView;
    DistinctReorders(a, a2);
    DistinctReorders(b, b2);
    AlignedInRange(a, b, o);
    AlignedInRange(a2, b2, o);
    var g, h := FinalChoiceAlike(a, b, a2, b2, o);
    MatchesAreChosenViews(a, b, o, g);
    MatchesAreChosenViews(a2, b2, o, h);
    MatchesSorted(a, b, o);
    MatchesSorted(a2, b2, o);
    SameSetSameMultiset(Reported(a, b, o), Reported(a2, b2, o));
    SortedUnique(Reported(a, b, o), Reported(a2, b2, o), ByMatchScore());
  }

  lemma KeysReorder(b: seq<Node>, b2: seq<Node>)
    requires DistinctKeys(b) && multiset(b) == multiset(b2)
    ensures Reordered(b, b2, true)
  {
    DistinctReorders(b, b2);
    KeysAreDistinct([], b);
    KeysAreDistinct([], b2);
  }

  // Two corpora in entry order, as the loader leaves them and the indexer sorts their callees.
  lemma CorpusOrderIsEnough(a: seq<Node>, b: seq<Node>, a2: seq<Node>, b2: seq<Node>, o: Opts)
    requires DistinctEntries(a) && CorpusOrder(b) && G.InEntryOrder(b2)
    requires multiset(a) == multiset(a2) && multiset(b) == multiset(b2)
    ensures Reported(a, b, o) == Reported(a2, b2, o)
  {
    hide Ascending, Reported;
    SameElements(b, b2);
    forall i | 0 <= i < |b2| ensures Ascending(b2[i].callees) { assert b2[i] in b; }
    EntryOrderIsSearchable(b);
    EntryOrderIsSearchable(b2);
    KeysReorder(b, b2);
    SearchedAlikeIff(b, b2);
    AlignIgnoresInputOrder(a, b, a2, b2, o);
  }
}
