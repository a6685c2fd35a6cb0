/**
  Inputs on which the code does not keep what its comments say: a graph score above 1, a
  match that is lost when the corpus is listed backwards, and an unchanged function that
  triage accuses.
 */
module Instances {
  import opened Sorting
  import opened Wrappers
  import opened Machine
  import opened Sig
  import opened Bands
  import opened Assign
  import opened Align
  import opened AlignTheorems
  import opened Indexed
  import G = Graph
  import L = Loader
  import C = Corpus
  import R = Triage

  // ---------- inputs that leave the assignment no choice ----------

  // No function is a candidate for two others.
  ghost predicate Forced(a: seq<Node>, b: seq<Node>) {
    forall c, d :: ListCand(a, b, c) && ListCand(a, b, d) && Clash(c, d) ==> c == d
  }

  lemma ForcedChoice(cs: seq<Cand>, a: seq<Node>, b: seq<Node>, w: real)
    requires Covers(cs, a, b) && Forced(a, b)
    ensures forall c :: c in Chosen(cs, a, b, w) <==> c in cs
  {
    hide Chosen, ListCand, Score;
    AssignmentIsOneToOne(cs, a, b, w);
    forall c | c in cs ensures c in Chosen(cs, a, b, w) {
      var d := ChosenCovers(cs, a, b, w, c);
      assert Clash(Bare(d), Bare(c));
      assert Bare(d) == Bare(c);
      var i :| 0 <= i < |cs| && cs[i] == c;
      var j :| 0 <= j < |cs| && cs[j] == d;
    }
  }

  // ps pairs exactly the candidates.
  ghost predicate PairsAll(ps: seq<Pair>, a: seq<Node>, b: seq<Node>) {
    && OneToOnePairs(ps) && PairsInRange(ps, a, b)
    && forall c :: ListCand(a, b, c) ==> exists k :: 0 <= k < |ps| && ps[k].a == c.a && ps[k].b == c.b
  }

  lemma ForcedAssignment(cs: seq<Cand>, a: seq<Node>, b: seq<Node>, w: real)
    requires Covers(cs, a, b) && Forced(a, b)
    ensures PairsAll(Assignment(cs, a, b, w), a, b)
  {
    hide Chosen, ListCand, Score, Assignment, Forced;
    var ps := Assignment(cs, a, b, w);
    AssignmentIsOneToOne(cs, a, b, w);
    CoversInRange(cs, a, b);
    AssignmentInRange(cs, a, b, w);
    ForcedChoice(cs, a, b, w);
    forall c | ListCand(a, b, c) ensures exists k :: 0 <= k < |ps| && ps[k].a == c.a && ps[k].b == c.b {
      var d :| d in cs && Bare(d) == c;
      assert ToPair(d, w) in ps;
      var k :| 0 <= k < |ps| && ps[k] == ToPair(d, w);
    }
  }

  lemma RescoredCands(s: Setting, before: seq<Cand>, ps: seq<Pair>, c: Cand)
    requires Covers(before, s.a, s.b)
    ensures c in Rescore(s, SortBy(before, ByRank(s.a, s.b, s.w)), ps) <==>
            exists d :: ListCand(s.a, s.b, d) && c == RescoreOne(s, d, ps)
  {
    hide ListCand, GraphOf;
    var sorted := SortBy(before, ByRank(s.a, s.b, s.w));
    SortBySorts(before, ByRank(s.a, s.b, s.w));
    if c in Rescore(s, sorted, ps) {
      var i :| 0 <= i < |sorted| && c == RescoreOne(s, sorted[i], ps);
      assert sorted[i] in before;
      GraphIgnoresOldScore(s, sorted[i], ps);
      assert ListCand(s.a, s.b, Bare(sorted[i])) && c == RescoreOne(s, Bare(sorted[i]), ps);
    }
    if d :| ListCand(s.a, s.b, d) && c == RescoreOne(s, d, ps) {
      var e :| e in before && Bare(e) == d;
      GraphIgnoresOldScore(s, e, ps);
      var i :| 0 <= i < |sorted| && sorted[i] == e;
      assert Rescore(s, sorted, ps)[i] == c;
    }
  }

  lemma GraphIgnoresOldScore(s: Setting, c: Cand, ps: seq<Pair>)
    ensures RescoreOne(s, c, ps) == RescoreOne(s, Bare(c), ps)
  {
    hide G.GraphScore, PartnerOf, PairedOf;
  }

  // With no choice to make, every candidate at or above the threshold is reported, scored by
  // the graph under the pairing of all candidates.
  lemma ForcedReport(a: seq<Node>, b: seq<Node>, o: Opts) returns (ps: seq<Pair>)
    requires Forced(a, b) && RoundCount(o) > 0
    ensures PairsAll(ps, a, b)
    ensures forall p :: p in Aligned(a, b, o) <==>
              p.score >= o.threshold &&
              exists c :: ListCand(a, b, c) && p == ToPair(RescoreOne(SettingOf(a, b, Weight(o)), c, ps), Weight(o))
  {
    hide FinalList, Aligned, Chosen, Assignment, ListCand, Covers, Forced, ByRank, NeighboursOf, RescoreOne, ToPair;
    var s, k := SettingOf(a, b, Weight(o)), RoundCount(o);
    var cs := FinalCands(a, b, o);
    var before := CandsAt(s, k - 1);
    RoundsAssign(s, k - 1);
    RoundsAssign(s, k);
    ps := Assignment(before, a, b, s.w);
    ForcedAssignment(before, a, b, s.w);
    ForcedChoice(cs, a, b, s.w);
    AlignedElements(a, b, o, cs);
    assert cs == Rescore(s, SortBy(before, ByRank(a, b, s.w)), ps);
    forall c ensures c in cs <==> exists d :: ListCand(a, b, d) && c == RescoreOne(s, d, ps) {
      RescoredCands(s, before, ps, c);
    }
  }

  // ---------- prints ----------

  function Fill(n: nat, v: U64): (r: seq<U64>)
    ensures |r| == n && forall k :: 0 <= k < n ==> r[k] == v
  {
    seq(n, _ => v)
  }

  // A full-length signature: one value in the first half of its slots, one in the second.
  function Halves(v: U64, w: U64): Fingerprint { Fingerprint(Fill(64, v) + Fill(64, w), 8, 8, false) }

  lemma FillsAgree(n: nat, v: U64, w: U64)
    requires n > 0
    ensures Agree(Fill(n, v), Fill(n, w)) == if v == w then n else 0
  {
    AgreeBounds(Fill(n, v), Fill(n, w));
    assert Fill(n, v)[0] == v && Fill(n, w)[0] == w;
    if v == w { assert Fill(n, v) == Fill(n, w); }
  }

  lemma HalvesSimilarity(v: U64, w: U64, x: U64, y: U64)
    ensures Similarity(Halves(v, w), Halves(x, y)) == (if v == x then 0.5 else 0.0) + if w == y then 0.5 else 0.0
  {
    hide Agree;
    var s, t := Halves(v, w).sig, Halves(x, y).sig;
    AgreeSplits(s, t, 64);
    assert s[..64] == Fill(64, v) && s[64..] == Fill(64, w);
    assert t[..64] == Fill(64, x) && t[64..] == Fill(64, y);
    FillsAgree(64, v, x);
    FillsAgree(64, w, y);
  }

  lemma SameFirstHalfIsNear(v: U64, w: U64, y: U64)
    ensures ShareBand(Halves(v, w), Halves(v, y))
  {
    hide BandKey;
    var f, g := Halves(v, w), Halves(v, y);
    assert f.sig[..4] == g.sig[..4];
    assert Chunks(f.sig, BAND_ROWS)[0] == f.sig[..4] && Chunks(g.sig, BAND_ROWS)[0] == g.sig[..4];
    assert Keys(f)[0] == Keys(g)[0];
  }

  function Fn(entry: nat, callees: seq<nat>, v: U64, w: U64): Node {
    Node(Halves(v, w), entry, callees, None, "")
  }

  // Functions with one first half are candidates for each other; with no half in common they are not.
  lemma CandidateByHalves(a: seq<Node>, b: seq<Node>, i: nat, j: nat, v: U64, w: U64, x: U64, y: U64)
    requires i < |a| && j < |b| && a[i].fp == Halves(v, w) && b[j].fp == Halves(x, y)
    ensures v == x ==> IsCandidate(a, b, i, j)
    ensures v != x && w != y ==> !IsCandidate(a, b, i, j)
  {
    hide Similarity, ShareBand, SomeNear;
    HalvesSimilarity(v, w, x, y);
    if v == x { SameFirstHalfIsNear(v, w, y); }
  }

  // ---------- callee lists that all resolve ----------

  lemma {:induction false} ResolveAll(keys: seq<G.Key>, idx: map<G.Key, nat>, r: seq<nat>)
    requires |r| == |keys| && forall k :: 0 <= k < |keys| ==> keys[k] in idx && idx[keys[k]] == r[k]
    ensures G.Resolve(keys, idx) == r
  {
    if keys != [] {
      var n := |keys| - 1;
      ResolveAll(keys[..n], idx, r[..n]);
      assert r == r[..n] + [r[n]];
    }
  }

  lemma KeyIndex(ns: seq<Node>, scoped: bool, i: nat)
    requires NoDup(G.KeysOf(ns, scoped)) && i < |ns|
    ensures var keys := G.KeysOf(ns, scoped); keys[i] in G.IndexBy(keys) && G.IndexBy(keys)[keys[i]] == i
  {
    var keys := G.KeysOf(ns, scoped);
    G.IndexByFinds(keys);
    assert keys[i] in keys;
  }

  // Function i's callees stand at the indices r.
  lemma CalleesResolve(ns: seq<Node>, scoped: bool, i: nat, r: seq<nat>)
    requires NoDup(G.KeysOf(ns, scoped)) && i < |ns| && |r| == |ns[i].callees|
    requires forall k :: 0 <= k < |r| ==> r[k] < |ns| && G.KeysOf(ns, scoped)[r[k]] == G.CalleeKeys(ns[i], scoped)[k]
    ensures G.Callees(ns, scoped)[i] == r
  {
    hide G.IndexBy;
    var idx, keys := G.IndexBy(G.KeysOf(ns, scoped)), G.CalleeKeys(ns[i], scoped);
    forall k | 0 <= k < |r| ensures keys[k] in idx && idx[keys[k]] == r[k] {
      KeyIndex(ns, scoped, r[k]);
    }
    ResolveAll(keys, idx, r);
  }

  lemma NoCallers(ns: seq<Node>, scoped: bool, i: nat)
    requires i < |ns| && forall x :: 0 <= x < |ns| ==> i !in G.Callees(ns, scoped)[x]
    ensures NeighboursOf(ns, scoped)[i].callers == []
  {
    var cs := NeighboursOf(ns, scoped)[i].callers;
    G.CallersOfIsReverse(G.Callees(ns, scoped), i);
    assert Elements(cs) == {};
    NoDupCard(cs);
  }

  // ---------- a graph score above 1 ----------

  // The target calls its helper from two places; the corpus lists the call once.
  function RepeatingTarget(): seq<Node> { [Fn(1, [2, 2], 1, 1), Fn(2, [], 2, 2)] }

  function PlainCorpus(): seq<Node> { [Fn(1, [2], 1, 1), Fn(2, [], 2, 2)] }

  lemma RepeatingCandidates(c: Cand)
    ensures ListCand(RepeatingTarget(), PlainCorpus(), c) <==> c == Cand(0, 0, 1.0, 0.0) || c == Cand(1, 1, 1.0, 0.0)
  {
    hide Halves, Similarity;
    var a, b := RepeatingTarget(), PlainCorpus();
    CandidateByHalves(a, b, 0, 0, 1, 1, 1, 1);
    CandidateByHalves(a, b, 0, 1, 1, 1, 2, 2);
    CandidateByHalves(a, b, 1, 0, 2, 2, 1, 1);
    CandidateByHalves(a, b, 1, 1, 2, 2, 2, 2);
    HalvesSimilarity(1, 1, 1, 1);
    HalvesSimilarity(2, 2, 2, 2);
  }

  lemma RepeatingNeighbours()
    ensures NeighboursOf(RepeatingTarget(), false)[0] == G.Around([1, 1], [])
    ensures NeighboursOf(PlainCorpus(), true)[0] == G.Around([1], [])
  {
    hide Halves;
    var a, b := RepeatingTarget(), PlainCorpus();
    CalleesResolve(a, false, 0, [1, 1]);
    CalleesResolve(a, false, 1, []);
    CalleesResolve(b, true, 0, [1]);
    CalleesResolve(b, true, 1, []);
    NoCallers(a, false, 0);
    NoCallers(b, true, 0);
  }

  lemma TwoHitsOfThree(partner: G.Pairing, bPaired: seq<bool>)
    requires |partner| == 2 && |bPaired| == 2 && partner[1] == Some(1) && bPaired[1]
    ensures G.GraphScore(G.Around([1, 1], []), G.Around([1], []), partner, bPaired) == 4.0 / 3.0
  {
    assert [1, 1][..1] == [1] && [1][..0] == [];
    EmptyCounts(partner, [1], bPaired);
    assert G.BinarySearch([1], 1);
    assert G.Hits([1], partner, [1]) == 1;
    assert G.CountPartnered([1], partner) == 1;
    assert G.CountPaired([1], bPaired) == 1;
  }

  lemma RepeatingGraph(ps: seq<Pair>, w: real)
    requires PairsAll(ps, RepeatingTarget(), PlainCorpus())
    ensures var s := SettingOf(RepeatingTarget(), PlainCorpus(), w);
            GraphOf(s, Cand(0, 0, 1.0, 0.0), PartnerOf(ps, 2), PairedOf(ps, 2)) == 4.0 / 3.0
  {
    hide NeighboursOf, PartnerOf, PairedOf, ListCand, G.GraphScore, Halves;
    RepeatingCandidates(Cand(1, 1, 1.0, 0.0));
    assert ListCand(RepeatingTarget(), PlainCorpus(), Cand(1, 1, 1.0, 0.0));
    PartnerOfHolds(ps, 2);
    PairedOfHolds(ps, 2);
    RepeatingNeighbours();
    TwoHitsOfThree(PartnerOf(ps, 2), PairedOf(ps, 2));
  }

  // At any weight and after any number of rounds align reports the pair with graph score 4/3.
  lemma RepeatedCalleeExceedsUnit(o: Opts)
    requires o.graphWeight > 0.0 && o.rounds > 0 && o.threshold <= 1.0
    ensures exists p :: p in Aligned(RepeatingTarget(), PlainCorpus(), o) && p.a == 0 && p.graph == 4.0 / 3.0
  {
    hide Aligned, ListCand, NeighboursOf, PartnerOf, PairedOf, GraphOf, RepeatingTarget, PlainCorpus;
    var a, b := RepeatingTarget(), PlainCorpus();
    forall c | ListCand(a, b, c) ensures c == Cand(0, 0, 1.0, 0.0) || c == Cand(1, 1, 1.0, 0.0) { RepeatingCandidates(c); }
    var ps := ForcedReport(a, b, o);
    var c := Cand(0, 0, 1.0, 0.0);
    RepeatingCandidates(c);
    RepeatingGraph(ps, Weight(o));
    RepeatingSizes();
    var p := ToPair(RescoreOne(SettingOf(a, b, Weight(o)), c, ps), Weight(o));
    assert p in Aligned(a, b, o);
  }

  lemma RepeatingSizes()
    ensures |RepeatingTarget()| == 2 == |PlainCorpus()|
  {
  }

  // ---------- a corpus listed backwards ----------

  // The options align uses unless told otherwise.
  const DEFAULT: Opts := Opts(0.7, 1.0, 2)

  function Caller(w: U64): Node { Fn(10, [20, 30, 40], 1, w) }

  function Leaf(k: nat): Node
    requires 1 <= k <= 3
  {
    Fn(10 + 10 * k, [], 3 + k, 3 + k)
  }

  function Target(): seq<Node> { [Caller(2), Leaf(1), Leaf(2), Leaf(3)] }

  function InOrder(): seq<Node> { [Caller(3), Leaf(1), Leaf(2), Leaf(3)] }

  function Backwards(): seq<Node> { [Leaf(3), Leaf(2), Leaf(1), Caller(3)] }

  function SimAt(i: nat): real { if i == 0 then 0.5 else 1.0 }

  lemma OnlyTwinsMatch(b: seq<Node>, i: nat, j: nat, t: nat)
    requires |b| == 4 && i < 4 && j < 4 && t < 4 && b[j] == InOrder()[t]
    ensures IsCandidate(Target(), b, i, j) <==> i == t
    ensures i == t ==> Similarity(Target()[i].fp, b[j].fp) == SimAt(i)
  {
    hide Halves, Similarity, ShareBand, SomeNear, IsCandidate;
    var v, w := if i == 0 then 1 else 3 + i, if i == 0 then 2 else 3 + i;
    var x, y := if t == 0 then 1 else 3 + t, if t == 0 then 3 else 3 + t;
    assert Target()[i].fp == Halves(v, w);
    assert b[j].fp == Halves(x, y);
    CandidateByHalves(Target(), b, i, j, v, w, x, y);
    HalvesSimilarity(v, w, x, y);
  }

  // Function i of the target and its twin in a corpus.
  function TwinAt(backwards: bool, i: nat): nat
    requires i < 4
  {
    if backwards then 3 - i else i
  }

  function Corpus(backwards: bool): (b: seq<Node>)
    ensures |b| == 4
  {
    if backwards then Backwards() else InOrder()
  }

  lemma TwinsAreCandidates(backwards: bool, c: Cand)
    ensures ListCand(Target(), Corpus(backwards), c) <==>
            c.a < 4 && c == Cand(c.a, TwinAt(backwards, c.a), SimAt(c.a), 0.0)
  {
    hide Halves, Similarity, IsCandidate;
    var b := Corpus(backwards);
    if c.a < 4 && c.b < 4 {
      var t := if backwards then 3 - c.b else c.b;
      assert b[c.b] == InOrder()[t];
      OnlyTwinsMatch(b, c.a, c.b, t);
    } else {
      CandidateStays(b, c);
    }
  }

  lemma CandidateStays(b: seq<Node>, c: Cand)
    requires |b| == 4
    ensures IsCandidate(Target(), b, c.a, c.b) ==> c.a < 4 && c.b < 4
  {
  }

  lemma LeafCallsNobody(ns: seq<Node>, scoped: bool, i: nat)
    requires i < |ns| && ns[i].callees == []
    ensures G.Callees(ns, scoped)[i] == []
  {
    assert G.CalleeKeys(ns[i], scoped) == [];
  }

  // One function calls r, and nobody calls it.
  lemma LoneCaller(ns: seq<Node>, scoped: bool, i: nat, r: seq<nat>)
    requires i < |ns| && G.Callees(ns, scoped)[i] == r && i !in r
    requires forall j :: 0 <= j < |ns| && j != i ==> ns[j].callees == []
    ensures NeighboursOf(ns, scoped)[i] == G.Around(r, [])
  {
    hide G.Callees, G.CallersOf;
    forall x | 0 <= x < |ns| ensures i !in G.Callees(ns, scoped)[x] {
      if x != i { LeafCallsNobody(ns, scoped, x); }
    }
    NoCallers(ns, scoped, i);
  }

  lemma TargetNeighbours()
    ensures NeighboursOf(Target(), false)[0] == G.Around([1, 2, 3], [])
  {
    hide Halves, G.Callees, NeighboursOf;
    var a := Target();
    assert G.KeysOf(a, false) == [("", 10), ("", 20), ("", 30), ("", 40)];
    CalleesResolve(a, false, 0, [1, 2, 3]);
    LoneCaller(a, false, 0, [1, 2, 3]);
  }

  lemma InOrderNeighbours()
    ensures NeighboursOf(InOrder(), true)[0] == G.Around([1, 2, 3], [])
  {
    hide Halves, G.Callees, NeighboursOf;
    var b := InOrder();
    assert G.KeysOf(b, true) == [("", 10), ("", 20), ("", 30), ("", 40)];
    CalleesResolve(b, true, 0, [1, 2, 3]);
    LoneCaller(b, true, 0, [1, 2, 3]);
  }

  lemma BackwardsNeighbours()
    ensures NeighboursOf(Backwards(), true)[3] == G.Around([2, 1, 0], [])
  {
    hide Halves, G.Callees, NeighboursOf;
    var b := Backwards();
    assert G.KeysOf(b, true) == [("", 40), ("", 30), ("", 20), ("", 10)];
    CalleesResolve(b, true, 3, [2, 1, 0]);
    LoneCaller(b, true, 3, [2, 1, 0]);
  }

  lemma CallerHits(backwards: bool, partner: G.Pairing, ys: seq<nat>)
    requires ys == if backwards then [2, 1, 0] else [1, 2, 3]
    requires |partner| == 4 && forall i :: 0 <= i < 4 ==> partner[i] == Some(TwinAt(backwards, i))
    ensures forall x :: 1 <= x <= 3 ==> (G.Hit(x, partner, ys) <==> !backwards)
  {
    hide G.BinarySearch, G.Search;
    if backwards {
      BackwardsMisses();
    } else {
      assert ys[0] == 1 && ys[1] == 2 && ys[2] == 3;
      G.BinarySearchDecides(ys, 1);
      G.BinarySearchDecides(ys, 2);
      G.BinarySearchDecides(ys, 3);
    }
  }

  // Every callee is paired with its twin; the search of the backwards list finds none of them.
  lemma CallerScore(backwards: bool, partner: G.Pairing, bPaired: seq<bool>, ys: seq<nat>)
    requires ys == if backwards then [2, 1, 0] else [1, 2, 3]
    requires |partner| == 4 && |bPaired| == 4
    requires forall i :: 0 <= i < 4 ==> partner[i] == Some(TwinAt(backwards, i)) && bPaired[TwinAt(backwards, i)]
    ensures G.GraphScore(G.Around([1, 2, 3], []), G.Around(ys, []), partner, bPaired) == if backwards then 0.0 else 1.0
  {
    hide G.Hit, G.Hits, G.CountPartnered, G.CountPaired;
    forall y | 0 <= y < 4 ensures bPaired[y] { assert bPaired[TwinAt(backwards, TwinAt(backwards, y))]; }
    ThreeCounts([1, 2, 3], partner, ys, bPaired);
    ThreeCounts(ys, partner, ys, bPaired);
    CallerHits(backwards, partner, ys);
    EmptyCounts(partner, [], bPaired);
  }

  lemma EmptyCounts(partner: G.Pairing, ys: seq<nat>, bPaired: seq<bool>)
    ensures G.CountPartnered([], partner) == 0 && G.CountPaired([], bPaired) == 0 && G.Hits([], partner, ys) == 0
  {
  }

  lemma BackwardsMisses()
    ensures !G.BinarySearch([2, 1, 0], 0) && !G.BinarySearch([2, 1, 0], 1) && !G.BinarySearch([2, 1, 0], 2)
  {
    var s: seq<nat> := [2, 1, 0];
    assert !G.Search(s, 0, 0, 1) && !G.Search(s, 1, 2, 1) && !G.Search(s, 2, 2, 1);
    assert !G.Search(s, 0, 0, 2) && !G.Search(s, 1, 1, 2) && !G.Search(s, 2, 1, 2);
  }

  lemma ThreeCounts(xs: seq<nat>, partner: G.Pairing, ys: seq<nat>, bPaired: seq<bool>)
    requires |xs| == 3 && |partner| == 4 && |bPaired| == 4 && xs[0] < 4 && xs[1] < 4 && xs[2] < 4
    requires forall i :: 0 <= i < 4 ==> partner[i].Some?
    requires bPaired[xs[0]] && bPaired[xs[1]] && bPaired[xs[2]]
    ensures G.CountPartnered(xs, partner) == 3 && G.CountPaired(xs, bPaired) == 3
    ensures G.Hits(xs, partner, ys) == (if G.Hit(xs[0], partner, ys) then 1 else 0)
              + (if G.Hit(xs[1], partner, ys) then 1 else 0) + if G.Hit(xs[2], partner, ys) then 1 else 0
  {
    hide G.Hit;
    assert xs[..2][..1] == xs[..1] && xs[..1][..0] == [];
    assert G.CountPartnered(xs[..1], partner) == 1 && G.CountPaired(xs[..1], bPaired) == 1;
    assert G.CountPartnered(xs[..2], partner) == 2 && G.CountPaired(xs[..2], bPaired) == 2;
    assert G.Hits(xs[..1], partner, ys) == if G.Hit(xs[0], partner, ys) then 1 else 0;
  }

  lemma CallerGraph(backwards: bool, ps: seq<Pair>, w: real)
    requires PairsAll(ps, Target(), Corpus(backwards))
    ensures GraphOf(SettingOf(Target(), Corpus(backwards), w), Cand(0, TwinAt(backwards, 0), 0.5, 0.0),
                    PartnerOf(ps, 4), PairedOf(ps, 4))
            == if backwards then 0.0 else 1.0
  {
    hide NeighboursOf, PartnerOf, PairedOf, ListCand, G.GraphScore, Halves;
    var partner, bPaired := PartnerOf(ps, 4), PairedOf(ps, 4);
    PartnerOfHolds(ps, 4);
    PairedOfHolds(ps, 4);
    forall i | 0 <= i < 4 ensures partner[i] == Some(TwinAt(backwards, i)) && bPaired[TwinAt(backwards, i)] {
      var c := Cand(i, TwinAt(backwards, i), SimAt(i), 0.0);
      TwinsAreCandidates(backwards, c);
      assert ListCand(Target(), Corpus(backwards), c);
    }
    CallerScore(backwards, partner, bPaired, if backwards then [2, 1, 0] else [1, 2, 3]);
    TargetNeighbours();
    if backwards { BackwardsNeighbours(); } else { InOrderNeighbours(); }
  }

  // The caller is reported exactly against the corpus in order.
  lemma CallerReported(backwards: bool)
    ensures (exists p :: p in Aligned(Target(), Corpus(backwards), DEFAULT) && p.a == 0) <==> !backwards
  {
    hide Aligned, ListCand, NeighboursOf, PartnerOf, PairedOf, GraphOf, Target, Corpus, PairsAll;
    var a, b := Target(), Corpus(backwards);
    TargetSize();
    forall c: Cand ensures ListCand(a, b, c) <==> c.a < 4 && c == Cand(c.a, TwinAt(backwards, c.a), SimAt(c.a), 0.0) {
      TwinsAreCandidates(backwards, c);
    }
    var ps := ForcedReport(a, b, DEFAULT);
    var s := SettingOf(a, b, 1.0);
    var c := Cand(0, TwinAt(backwards, 0), 0.5, 0.0);
    CallerGraph(backwards, ps, 1.0);
    var p := ToPair(RescoreOne(s, c, ps), 1.0);
    assert p.score == if backwards then 0.5 else 1.0;
    assert ListCand(a, b, c);
    if q :| q in Aligned(a, b, DEFAULT) && q.a == 0 {
      var d :| ListCand(a, b, d) && q == ToPair(RescoreOne(s, d, ps), 1.0);
      assert d == c;
    }
  }

  lemma TargetSize()
    ensures |Target()| == 4
  {
  }

  // With the default options a corpus listed backwards loses a match: the functions are the
  // same, their addresses distinct, and the corpus in order is one the indexer stores.
  lemma BackwardsLosesAMatch()
    ensures DistinctEntries(Target()) && CorpusOrder(InOrder()) && DistinctKeys(InOrder())
    ensures multiset(InOrder()) == multiset(Backwards())
    ensures exists p :: p in Aligned(Target(), InOrder(), DEFAULT) && p.a == 0
    ensures forall p :: p in Aligned(Target(), Backwards(), DEFAULT) ==> p.a != 0
  {
    hide Aligned, Halves, Target, InOrder, Backwards, DistinctEntries, DistinctKeys, CorpusOrder;
    CorpusIsOrderly();
    CallerReported(false);
    CallerReported(true);
  }

  lemma CorpusIsOrderly()
    ensures DistinctEntries(Target()) && CorpusOrder(InOrder()) && DistinctKeys(InOrder())
    ensures multiset(InOrder()) == multiset(Backwards())
  {
    hide Halves;
  }

  // ---------- an unchanged function accused ----------

  function Unchanged(): IndexedFunc { IndexedFunc(None, 10, L.EhFrame, Halves(1, 1), Finite(1.0), []) }

  function UnchangedRec(): C.FuncRec { C.FuncRec(1, "lib", Some("f"), 10, "symtab", Halves(1, 1), []) }

  // At margin 0 a function that did not change between the two builds is called vulnerable.
  lemma UnchangedIsAccused()
    ensures exists hits: seq<R.TriageHit> :: R.IsTriage([Unchanged()], [UnchangedRec()], [UnchangedRec()], 0.5, 0.0, hits)
                           && |hits| == 1 && hits[0].verdict == R.Vulnerable
  {
    var hits := R.SameRecordIsAccused(Unchanged(), UnchangedRec(), 0.5, 0.0);
  }
}
