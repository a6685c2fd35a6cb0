/**
  What align promises about its result: no double claims, honest numbers, no
  close pair overlooked, a lift by the call graph that is bounded, and graph
  scores that are Dice coefficients.
 */
module AlignTheorems {
  import opened Sorting
  import opened Wrappers
  import opened Sig
  import opened Bands
  import opened Assign
  import opened Align
  import G = Graph

  // ---------- the candidates survive the rounds ----------

  function Bare(c: Cand): Cand { c.(graph := 0.0) }

  // cs is the candidate list, up to order and graph scores.
  ghost predicate Covers(cs: seq<Cand>, a: seq<Node>, b: seq<Node>) {
    && Keyed(cs)
    && (forall c :: c in cs ==> ListCand(a, b, Bare(c)))
    && (forall d :: ListCand(a, b, d) ==> exists c :: c in cs && Bare(c) == d)
  }

  lemma CandListCovers(a: seq<Node>, b: seq<Node>)
    ensures Covers(CandList(a, b, |a|), a, b)
  {
    hide IsCandidate, Similarity;
    CandListHolds(a, b, |a|);
    forall d | ListCand(a, b, d) ensures exists c :: c in CandList(a, b, |a|) && Bare(c) == d {
      assert d.a < |a| by { CandidateInRange(a, b, d); }
      assert d in CandList(a, b, |a|) && Bare(d) == d;
    }
  }

  lemma CandidateInRange(a: seq<Node>, b: seq<Node>, d: Cand)
    requires IsCandidate(a, b, d.a, d.b)
    ensures d.a < |a| && d.b < |b|
  {
  }

  lemma RescoreCovers(s: Setting, cs: seq<Cand>, ps: seq<Pair>)
    requires Covers(cs, s.a, s.b)
    ensures Covers(Rescore(s, cs, ps), s.a, s.b)
  {
    hide ListCand, GraphOf;
    var ds := Rescore(s, cs, ps);
    forall d | d in ds ensures ListCand(s.a, s.b, Bare(d)) {
      var i :| 0 <= i < |ds| && ds[i] == d;
      assert Bare(d) == Bare(cs[i]);
    }
    forall d | ListCand(s.a, s.b, d) ensures exists c :: c in ds && Bare(c) == d {
      var c :| c in cs && Bare(c) == d;
      var i :| 0 <= i < |cs| && cs[i] == c;
      assert ds[i] in ds && Bare(ds[i]) == d;
    }
  }

  lemma KeyedPermutes(cs: seq<Cand>, ds: seq<Cand>)
    requires Keyed(cs) && multiset(cs) == multiset(ds)
    ensures Keyed(ds)
  {
    SameElements(cs, ds);
    assert NoDup(cs);
    NoDupPermutation(cs, ds);
    forall i, j | 0 <= i < j < |ds| ensures ds[i].a != ds[j].a || ds[i].b != ds[j].b {
      assert ds[i] in cs && ds[j] in cs && ds[i] != ds[j];
    }
  }

  lemma SortCovers(cs: seq<Cand>, a: seq<Node>, b: seq<Node>, w: real)
    requires Covers(cs, a, b)
    ensures Covers(SortBy(cs, ByRank(a, b, w)), a, b)
  {
    hide ListCand;
    SortBySorts(cs, ByRank(a, b, w));
    KeyedPermutes(cs, SortBy(cs, ByRank(a, b, w)));
  }

  // The graph scores in cs come from one 1:1 assignment.
  ghost predicate Rescored(s: Setting, cs: seq<Cand>) {
    exists ds, ps :: cs == Rescore(s, ds, ps) && OneToOnePairs(ps) && PairsInRange(ps, s.a, s.b)
  }

  lemma OneMoreRound(s: Setting, before: seq<Cand>)
    requires Covers(before, s.a, s.b)
    ensures var cs := Rescore(s, Assigned(s, before).cands, Assigned(s, before).assign);
            Covers(cs, s.a, s.b) && Rescored(s, cs) && Round(s, Assigned(s, before)) == Assigned(s, cs)
  {
    hide Chosen, Assignment, ByRank, GraphOf, Covers;
    var st := Assigned(s, before);
    SortCovers(before, s.a, s.b, s.w);
    RescoreCovers(s, st.cands, st.assign);
    AssignmentIsOneToOne(before, s.a, s.b, s.w);
    CoversInRange(before, s.a, s.b);
    AssignmentInRange(before, s.a, s.b, s.w);
  }

  // The candidates as the k-th round leaves them, before the assignment sorts them.
  ghost function CandsAt(s: Setting, k: nat): seq<Cand> {
    if k == 0 then CandList(s.a, s.b, |s.a|)
    else var st := Assigned(s, CandsAt(s, k - 1)); Rescore(s, st.cands, st.assign)
  }

  // After any number of rounds the state is one greedy assignment of the candidates,
  // with graph scores in place of the zeros they started with.
  lemma {:induction false} RoundsAssign(s: Setting, k: nat)
    ensures Rounds(s, Assigned(s, CandList(s.a, s.b, |s.a|)), k) == Assigned(s, CandsAt(s, k))
    ensures Covers(CandsAt(s, k), s.a, s.b)
    ensures k > 0 ==> Rescored(s, CandsAt(s, k))
  {
    hide Covers, Rescored, Assigned, Round, CandList, Rescore;
    if k == 0 {
      CandListCovers(s.a, s.b);
    } else {
      RoundsAssign(s, k - 1);
      OneMoreRound(s, CandsAt(s, k - 1));
    }
  }

  lemma CoversInRange(cs: seq<Cand>, a: seq<Node>, b: seq<Node>)
    requires Covers(cs, a, b)
    ensures InRange(cs, a, b)
  {
    forall i | 0 <= i < |cs| ensures cs[i].a < |a| && cs[i].b < |b| {
      assert cs[i] in cs;
      CandidateInRange(a, b, Bare(cs[i]));
    }
  }

  // ---------- what is accepted ----------

  lemma {:induction false} AcceptHolds(ps: seq<Pair>, t: real)
    ensures forall p :: p in Accept(ps, t) <==> p in ps && p.score >= t
    ensures OneToOnePairs(ps) ==> OneToOnePairs(Accept(ps, t))
  {
    if ps != [] {
      var n := |ps| - 1;
      AcceptHolds(ps[..n], t);
      assert ps == ps[..n] + [ps[n]];
      var r := Accept(ps[..n], t);
      if OneToOnePairs(ps) {
        forall i | 0 <= i < |r| ensures r[i].a != ps[n].a && r[i].b != ps[n].b {
          assert r[i] in ps[..n];
        }
      }
    }
  }

  lemma ByScoreOrders(a: seq<Node>)
    ensures TotalPreorder(ByScore(a))
  {
  }

  // cs is the candidate list as the last round left it.
  ghost predicate FinalList(a: seq<Node>, b: seq<Node>, o: Opts, cs: seq<Cand>) {
    && Final(a, b, o) == Assigned(SettingOf(a, b, Weight(o)), cs)
    && Covers(cs, a, b)
    && (RoundCount(o) == 0 ==> cs == CandList(a, b, |a|))
    && (RoundCount(o) > 0 ==> Rescored(SettingOf(a, b, Weight(o)), cs))
  }

  lemma FinalCands(a: seq<Node>, b: seq<Node>, o: Opts) returns (cs: seq<Cand>)
    ensures FinalList(a, b, o, cs)
    ensures cs == CandsAt(SettingOf(a, b, Weight(o)), RoundCount(o))
  {
    hide Covers, NeighboursOf, Assigned, Rescored;
    RoundsAssign(SettingOf(a, b, Weight(o)), RoundCount(o));
    cs := CandsAt(SettingOf(a, b, Weight(o)), RoundCount(o));
  }

  lemma AlignedElements(a: seq<Node>, b: seq<Node>, o: Opts, cs: seq<Cand>)
    requires FinalList(a, b, o, cs)
    ensures forall p :: p in Aligned(a, b, o) <==>
              p.score >= o.threshold && exists c :: c in Chosen(cs, a, b, Weight(o)) && p == ToPair(c, Weight(o))
    ensures OneToOnePairs(Aligned(a, b, o))
    ensures Sorted(Aligned(a, b, o), ByScore(a))
  {
    hide Final, Chosen, Assignment, NeighboursOf, Covers, Rescored;
    var w := Weight(o);
    var ps := Assignment(cs, a, b, w);
    assert Final(a, b, o).assign == ps;
    AssignmentIsOneToOne(cs, a, b, w);
    AcceptHolds(ps, o.threshold);
    SortBySorts(Accept(ps, o.threshold), ByScore(a));
    ByScoreOrders(a);
    OneToOnePermutes(Accept(ps, o.threshold), Aligned(a, b, o));
  }

  // The candidate behind an accepted pair.
  lemma Origin(a: seq<Node>, b: seq<Node>, o: Opts, cs: seq<Cand>, p: Pair) returns (c: Cand)
    requires FinalList(a, b, o, cs) && p in Aligned(a, b, o)
    ensures c in cs && p == ToPair(c, Weight(o)) && ListCand(a, b, Bare(c)) && p.score >= o.threshold
  {
    hide Final, Aligned, Chosen, Rescored, ListCand;
    AlignedElements(a, b, o, cs);
    c :| c in Chosen(cs, a, b, Weight(o)) && p == ToPair(c, Weight(o));
    AssignmentIsOneToOne(cs, a, b, Weight(o));
  }

  // p reports the prints' own similarity, and the score the pair was ranked by; a negative weight
  // counts as none.
  ghost predicate Honest(a: seq<Node>, b: seq<Node>, o: Opts, p: Pair) {
    var lifted := p.sim + (if o.graphWeight > 0.0 then o.graphWeight else 0.0) * p.graph;
    && p.a < |a| && p.b < |b|
    && Usable(a[p.a].fp) && Usable(b[p.b].fp)
    && p.sim == Similarity(a[p.a].fp, b[p.b].fp) >= FLOOR
    && p.score == (if lifted < 1.0 then lifted else 1.0)
    && p.score >= o.threshold
  }

  lemma PairIsHonest(a: seq<Node>, b: seq<Node>, o: Opts, cs: seq<Cand>, p: Pair)
    requires FinalList(a, b, o, cs) && p in Aligned(a, b, o)
    ensures Honest(a, b, o, p)
  {
    hide FinalList, Aligned, Similarity;
    var c := Origin(a, b, o, cs, p);
  }

  // Best score first, then the higher similarity, then the lower a entry.
  ghost predicate BestFirst(a: seq<Node>, ps: seq<Pair>) {
    forall i, j :: 0 <= i < j < |ps| ==>
      || ps[i].score > ps[j].score
      || (ps[i].score == ps[j].score && ps[i].sim > ps[j].sim)
      || (ps[i].score == ps[j].score && ps[i].sim == ps[j].sim
          && ps[i].a < |a| && ps[j].a < |a| && a[ps[i].a].entry <= a[ps[j].a].entry)
  }

  lemma SortedIsBestFirst(a: seq<Node>, ps: seq<Pair>)
    requires Sorted(ps, ByScore(a)) && forall p :: p in ps ==> p.a < |a|
    ensures BestFirst(a, ps)
  {
    forall i, j | 0 <= i < j < |ps|
      ensures ByScore(a)(ps[i], ps[j]) && ps[i].a < |a| && ps[j].a < |a|
    {
      assert ps[i] in ps && ps[j] in ps;
    }
  }

  // Every function appears in at most one pair; a pair's similarity is the prints' own,
  // never below the floor; its score is similarity plus weighted graph, cut at 1, and
  // clears the threshold; best score first.
  lemma AlignedIsSound(a: seq<Node>, b: seq<Node>, o: Opts)
    ensures OneToOnePairs(Aligned(a, b, o))
    ensures Sorted(Aligned(a, b, o), ByScore(a))
    ensures forall p :: p in Aligned(a, b, o) ==> Honest(a, b, o, p)
    ensures BestFirst(a, Aligned(a, b, o))
  {
    hide FinalList, Aligned, Honest, Chosen, BestFirst;
    var cs := FinalCands(a, b, o);
    AlignedElements(a, b, o, cs);
    forall p | p in Aligned(a, b, o) ensures Honest(a, b, o, p) {
      PairIsHonest(a, b, o, cs, p);
    }
    forall p | p in Aligned(a, b, o) ensures p.a < |a| { HonestInRange(a, b, o, p); }
    SortedIsBestFirst(a, Aligned(a, b, o));
  }

  lemma HonestInRange(a: seq<Node>, b: seq<Node>, o: Opts, p: Pair)
    requires Honest(a, b, o, p)
    ensures p.a < |a| && p.b < |b|
  {
  }

  // ---------- the graph term ----------

  lemma {:induction false} PartnerOfHolds(ps: seq<Pair>, n: nat)
    requires OneToOnePairs(ps)
    requires forall i :: 0 <= i < |ps| ==> ps[i].a < n
    ensures forall x :: 0 <= x < n && PartnerOf(ps, n)[x].Some? ==>
              exists k :: 0 <= k < |ps| && ps[k].a == x && PartnerOf(ps, n)[x] == Some(ps[k].b)
    ensures forall k :: 0 <= k < |ps| ==> PartnerOf(ps, n)[ps[k].a] == Some(ps[k].b)
  {
    if ps != [] {
      var k := |ps| - 1;
      PartnerOfHolds(ps[..k], n);
      assert forall i :: 0 <= i < k ==> ps[..k][i] == ps[i];
    }
  }

  lemma {:induction false} PairedOfHolds(ps: seq<Pair>, m: nat)
    requires forall i :: 0 <= i < |ps| ==> ps[i].b < m
    ensures forall y :: 0 <= y < m && PairedOf(ps, m)[y] ==> exists k :: 0 <= k < |ps| && ps[k].b == y
    ensures forall k :: 0 <= k < |ps| ==> PairedOf(ps, m)[ps[k].b]
  {
    if ps != [] {
      var k := |ps| - 1;
      PairedOfHolds(ps[..k], m);
      assert forall i :: 0 <= i < k ==> ps[..k][i] == ps[i];
    }
  }

  // A 1:1 assignment gives a consistent pairing.
  lemma PartnerIsConsistent(ps: seq<Pair>, n: nat, m: nat)
    requires OneToOnePairs(ps)
    requires forall i :: 0 <= i < |ps| ==> ps[i].a < n && ps[i].b < m
    ensures G.Consistent(PartnerOf(ps, n), PairedOf(ps, m))
  {
    hide PartnerOf, PairedOf;
    PartnerOfHolds(ps, n);
    PairedOfHolds(ps, m);
    var partner, paired := PartnerOf(ps, n), PairedOf(ps, m);
    forall x, z | 0 <= x < n && 0 <= z < n && partner[x].Some? && partner[x] == partner[z] ensures x == z {
      var k :| 0 <= k < |ps| && ps[k].a == x && partner[x] == Some(ps[k].b);
      var l :| 0 <= l < |ps| && ps[l].a == z && partner[z] == Some(ps[l].b);
    }
    forall y | 0 <= y < m ensures paired[y] <==> Some(y) in partner {
      if paired[y] {
        var k :| 0 <= k < |ps| && ps[k].b == y;
        assert partner[ps[k].a] == Some(y);
      }
      if Some(y) in partner {
        var x :| 0 <= x < n && partner[x] == Some(y);
      }
    }
  }

  lemma CallersNoDup(ns: seq<Node>, scoped: bool, i: nat)
    requires i < |ns|
    ensures NoDup(NeighboursOf(ns, scoped)[i].callers)
  {
    G.CallersOfIsReverse(G.Callees(ns, scoped), i);
  }

  lemma GraphOfRange(s: Setting, c: Cand, ps: seq<Pair>)
    requires s == SettingOf(s.a, s.b, s.w)
    requires OneToOnePairs(ps) && PairsInRange(ps, s.a, s.b)
    ensures RescoreOne(s, c, ps).graph >= 0.0
    ensures NoRepeatedCallees(s.a) ==> RescoreOne(s, c, ps).graph <= 1.0
  {
    hide NeighboursOf, PartnerOf, PairedOf, G.Consistent;
    if c.a < |s.na| && c.b < |s.nb| {
      var x, y := s.na[c.a], s.nb[c.b];
      var partner, paired := PartnerOf(ps, |s.a|), PairedOf(ps, |s.b|);
      G.DiceRange(G.Hits(x.callees, partner, y.callees) + G.Hits(x.callers, partner, y.callers),
                  G.CountPartnered(x.callees, partner) + G.CountPartnered(x.callers, partner),
                  G.CountPaired(y.callees, paired) + G.CountPaired(y.callers, paired));
      if NoRepeatedCallees(s.a) {
        PartnerIsConsistent(ps, |s.a|, |s.b|);
        NeighbourCalleesNoDup(s.a, false, c.a);
        CallersNoDup(s.a, false, c.a);
        G.GraphScoreWithinUnit(x, y, partner, paired);
      }
    }
  }

  lemma NeighbourCalleesNoDup(ns: seq<Node>, scoped: bool, i: nat)
    requires i < |ns| && NoDup(ns[i].callees)
    ensures NoDup(NeighboursOf(ns, scoped)[i].callees)
  {
    G.CalleesNoDup(ns, scoped, i);
  }

  ghost predicate NoRepeatedCallees(a: seq<Node>) {
    forall i :: 0 <= i < |a| ==> NoDup(a[i].callees)
  }

  // The graph scores of the final candidates.
  lemma FinalGraphRange(a: seq<Node>, b: seq<Node>, o: Opts, cs: seq<Cand>, c: Cand)
    requires FinalList(a, b, o, cs) && c in cs
    ensures c.graph >= 0.0
    ensures NoRepeatedCallees(a) ==> c.graph <= 1.0
  {
    hide NeighboursOf, GraphOf, Final, Covers, Assigned, IsCandidate;
    if RoundCount(o) == 0 {
      CandListHolds(a, b, |a|);
    } else {
      var s := SettingOf(a, b, Weight(o));
      var ds, ps :| cs == Rescore(s, ds, ps) && OneToOnePairs(ps) && PairsInRange(ps, a, b);
      var i :| 0 <= i < |cs| && cs[i] == c;
      GraphOfRange(s, ds[i], ps);
    }
  }

  // With duplicate-free callee lists on the a side every graph score lies in [0, 1], so
  // the graph lifts a pair by at most the weight: what is accepted was within it.
  lemma GraphLiftIsBounded(a: seq<Node>, b: seq<Node>, o: Opts)
    requires NoRepeatedCallees(a)
    ensures forall p :: p in Aligned(a, b, o) ==> 0.0 <= p.graph <= 1.0 && p.sim >= o.threshold - Weight(o)
  {
    hide FinalList, Aligned, ListCand, NoRepeatedCallees;
    var cs := FinalCands(a, b, o);
    forall p | p in Aligned(a, b, o) ensures 0.0 <= p.graph <= 1.0 && p.sim >= o.threshold - Weight(o) {
      var c := Origin(a, b, o, cs, p);
      FinalGraphRange(a, b, o, cs, c);
      LiftWithinWeight(Weight(o), c, p, o.threshold);
    }
  }

  lemma LiftWithinWeight(w: real, c: Cand, p: Pair, threshold: real)
    requires w >= 0.0 && 0.0 <= c.graph <= 1.0
    requires p == ToPair(c, w) && p.score >= threshold
    ensures p.sim >= threshold - w
  {
    var lift := w * c.graph;
    WeightScales(w, c.graph);
    assert p.score <= c.sim + lift;
  }

  lemma WeightScales(w: real, g: real)
    requires w >= 0.0 && g >= 0.0
    ensures w * g >= 0.0
    ensures g <= 1.0 ==> w * g <= w
  {
  }

  // The Dice coefficient of what functions i and j are connected to, under the assignment ps.
  ghost function DiceUnder(s: Setting, i: nat, j: nat, ps: seq<Pair>): real
    requires i < |s.na| && j < |s.nb|
  {
    G.TrueDice(s.na[i], s.nb[j], PartnerOf(ps, |s.a|), PairedOf(ps, |s.b|))
  }

  // A corpus as the indexer stores it: entries ascend within a binary, and so do callees.
  ghost predicate CorpusOrder(b: seq<Node>) {
    G.InEntryOrder(b) && forall j :: 0 <= j < |b| ==> Ascending(b[j].callees)
  }

  // What align computes for one pair is the Dice coefficient.
  lemma GraphOfIsDice(s: Setting, c: Cand, ps: seq<Pair>)
    requires s == SettingOf(s.a, s.b, s.w) && c.a < |s.a| && c.b < |s.b|
    requires OneToOnePairs(ps) && PairsInRange(ps, s.a, s.b)
    requires NoRepeatedCallees(s.a) && CorpusOrder(s.b)
    ensures GraphOf(s, c, PartnerOf(ps, |s.a|), PairedOf(ps, |s.b|)) == DiceUnder(s, c.a, c.b, ps)
  {
    hide NeighboursOf, PartnerOf, PairedOf, G.Consistent, G.GraphScore, G.TrueDice;
    PartnerIsConsistent(ps, |s.a|, |s.b|);
    NeighbourCalleesNoDup(s.a, false, c.a);
    CallersNoDup(s.a, false, c.a);
    NeighboursAscend(s.b, c.b);
    G.GraphScoreIsDice(s.na[c.a], s.nb[c.b], PartnerOf(ps, |s.a|), PairedOf(ps, |s.b|));
  }

  lemma NeighboursAscend(b: seq<Node>, j: nat)
    requires CorpusOrder(b) && j < |b|
    ensures Ascending(NeighboursOf(b, true)[j].callees) && Ascending(NeighboursOf(b, true)[j].callers)
  {
    G.CalleesAscend(b, j);
    G.CallersOfIsReverse(G.Callees(b, true), j);
  }

  lemma LastAssignment(s: Setting, k: nat)
    ensures var last := Rounds(s, Assigned(s, CandList(s.a, s.b, |s.a|)), k).assign;
            && last == Assignment(CandsAt(s, k), s.a, s.b, s.w)
            && OneToOnePairs(last) && PairsInRange(last, s.a, s.b)
  {
    hide Rounds, Assignment, Covers, Rescored, CandList, CandsAt, ByRank;
    RoundsAssign(s, k);
    CoversInRange(CandsAt(s, k), s.a, s.b);
    AssignmentIsOneToOne(CandsAt(s, k), s.a, s.b, s.w);
    AssignmentInRange(CandsAt(s, k), s.a, s.b, s.w);
  }

  // A candidate of round k + 1 is scored under the assignment of round k.
  lemma ScoredByLast(s: Setting, k: nat, c: Cand) returns (d: Cand)
    requires c in CandsAt(s, k + 1)
    ensures c == RescoreOne(s, d, Assignment(CandsAt(s, k), s.a, s.b, s.w))
  {
    hide Assignment, GraphOf, ByRank;
    var before := CandsAt(s, k);
    var i :| 0 <= i < |CandsAt(s, k + 1)| && CandsAt(s, k + 1)[i] == c;
    d := SortBy(before, ByRank(s.a, s.b, s.w))[i];
  }

  // With the graph off, or no rounds, the graph plays no part and a score is the similarity.
  lemma GraphOff(a: seq<Node>, b: seq<Node>, o: Opts)
    requires o.graphWeight <= 0.0 || o.rounds == 0
    ensures forall p :: p in Aligned(a, b, o) ==> p.graph == 0.0 && p.score == p.sim
  {
    hide FinalList, Aligned, ListCand;
    var cs := FinalCands(a, b, o);
    CandListHolds(a, b, |a|);
    forall p | p in Aligned(a, b, o) ensures p.graph == 0.0 && p.score == p.sim {
      var c := Origin(a, b, o, cs, p);
      UnscoredCand(a, b, o, cs, c);
      SimilarityAtMostOne(a[c.a].fp, b[c.b].fp);
    }
  }

  lemma UnscoredCand(a: seq<Node>, b: seq<Node>, o: Opts, cs: seq<Cand>, c: Cand)
    requires FinalList(a, b, o, cs) && RoundCount(o) == 0 && c in cs
    ensures c.a < |a| && c.b < |b| && c.graph == 0.0 && c.sim == Similarity(a[c.a].fp, b[c.b].fp)
  {
    hide Final, Assigned, Similarity, InPool;
    CandListHolds(a, b, |a|);
  }

  // Every graph score in the report is the Dice coefficient under the assignment of the round before.
  lemma ReportedGraphIsDice(a: seq<Node>, b: seq<Node>, o: Opts)
    requires o.graphWeight > 0.0 && o.rounds > 0 && NoRepeatedCallees(a) && CorpusOrder(b)
    ensures var s := SettingOf(a, b, o.graphWeight);
            var last := Rounds(s, Assigned(s, CandList(a, b, |a|)), o.rounds - 1).assign;
            forall p :: p in Aligned(a, b, o) ==> p.a < |a| && p.b < |b| && p.graph == DiceUnder(s, p.a, p.b, last)
  {
    hide FinalList, Aligned, Rounds, Assignment, NeighboursOf, DiceUnder, GraphOf, ListCand, CandsAt, CandList, Assigned,
         NoRepeatedCallees, CorpusOrder, OneToOnePairs, PairsInRange, G.TrueDice;
    var s, k := SettingOf(a, b, Weight(o)), RoundCount(o);
    var cs := FinalCands(a, b, o);
    LastAssignment(s, k - 1);
    var last := Assignment(CandsAt(s, k - 1), a, b, s.w);
    AlignedIsSound(a, b, o);
    forall p | p in Aligned(a, b, o) ensures p.a < |a| && p.b < |b| && p.graph == DiceUnder(s, p.a, p.b, last) {
      assert Honest(a, b, o, p);
      var c := Origin(a, b, o, cs, p);
      var d := ScoredByLast(s, k - 1, c);
      hide Honest, FinalList, SettingOf;
      GraphOfIsDice(s, d, last);
    }
  }

  // ---------- nothing close is overlooked ----------

  // p takes one side of (i, j) with a score of at least t.
  ghost predicate Covered(p: Pair, i: nat, j: nat, t: real) {
    (p.a == i || p.b == j) && p.score >= t
  }

  lemma ChosenCovers(cs: seq<Cand>, a: seq<Node>, b: seq<Node>, w: real, c: Cand) returns (d: Cand)
    requires c in cs
    ensures d in Chosen(cs, a, b, w) && Clash(d, c) && Score(d, w) >= Score(c, w)
  {
    d := EveryoneIsOutbid(cs, a, b, w, ScoreBy(w), c);
  }

  // Enough behaviour to be paired at all.
  predicate Signal(n: Node) { n.fp.complexity >= 4 && n.fp.shingles > 0 }

  // No function of b with signal shares a band key with f.
  ghost predicate NoBandHit(f: Fingerprint, b: seq<Node>) {
    forall k :: 0 <= k < |b| && Signal(b[k]) ==> !ShareBand(f, b[k].fp)
  }

  // i and j may be paired: both have signal, their similarity reaches the floor, and they share a
  // band key, or i shares none with anybody and is compared with all.
  ghost predicate MayPair(a: seq<Node>, b: seq<Node>, i: nat, j: nat)
    requires i < |a| && j < |b|
  {
    && Signal(a[i]) && Signal(b[j])
    && Similarity(a[i].fp, b[j].fp) >= 0.2
    && (ShareBand(a[i].fp, b[j].fp) || NoBandHit(a[i].fp, b))
  }

  // The candidates are exactly the pairs that may be paired.
  lemma CandidatesAre(a: seq<Node>, b: seq<Node>, i: nat, j: nat)
    requires i < |a| && j < |b|
    ensures Cand(i, j, Similarity(a[i].fp, b[j].fp), 0.0) in CandList(a, b, |a|) <==> MayPair(a, b, i, j)
  {
    hide Similarity, ShareBand;
    CandListHolds(a, b, |a|);
    var c := Cand(i, j, Similarity(a[i].fp, b[j].fp), 0.0);
    assert c in CandList(a, b, |a|) <==> IsCandidate(a, b, i, j);
    assert SomeNear(a[i].fp, b) <==> !NoBandHit(a[i].fp, b);
  }

  lemma OriginOfPair(a: seq<Node>, b: seq<Node>, o: Opts, cs: seq<Cand>, i: nat, j: nat) returns (c: Cand)
    requires FinalList(a, b, o, cs)
    requires i < |a| && j < |b| && MayPair(a, b, i, j)
    ensures c in cs && c.a == i && c.b == j && c.sim == Similarity(a[i].fp, b[j].fp)
  {
    hide Similarity, Final, Assigned, Rescored, IsCandidate, MayPair;
    CandidatesAre(a, b, i, j);
    var bare := Cand(i, j, Similarity(a[i].fp, b[j].fp), 0.0);
    CandListHolds(a, b, |a|);
    assert ListCand(a, b, bare);
    c :| c in cs && Bare(c) == bare;
  }

  // Whatever the weight and the rounds: two functions that may be paired and reach the threshold
  // are accepted, or one of them is in an accepted pair that scores no less.
  lemma NoPairIsLost(a: seq<Node>, b: seq<Node>, o: Opts, i: nat, j: nat)
    requires i < |a| && j < |b| && MayPair(a, b, i, j)
    requires Similarity(a[i].fp, b[j].fp) >= o.threshold
    ensures exists p :: p in Aligned(a, b, o) && Covered(p, i, j, Similarity(a[i].fp, b[j].fp))
  {
    hide FinalList, Aligned, Chosen, Similarity, NoRepeatedCallees, MayPair;
    var w := Weight(o);
    var sim := Similarity(a[i].fp, b[j].fp);
    var cs := FinalCands(a, b, o);
    var c := OriginOfPair(a, b, o, cs, i, j);
    var d := ChosenCovers(cs, a, b, w, c);
    FinalGraphRange(a, b, o, cs, c);
    WeightScales(w, c.graph);
    assert sim <= 1.0 by { SimilarityAtMostOne(a[i].fp, b[j].fp); }
    AlignedElements(a, b, o, cs);
    assert Covered(ToPair(d, w), i, j, sim);
    assert ToPair(d, w) in Aligned(a, b, o);
  }

  // In particular a pair whose similarity exceeds 3/4 is never overlooked by the bands.
  lemma NoClosePairIsLost(a: seq<Node>, b: seq<Node>, o: Opts, i: nat, j: nat)
    requires i < |a| && j < |b|
    requires Signal(a[i]) && Signal(b[j])
    requires Similarity(a[i].fp, b[j].fp) > 0.75
    requires Similarity(a[i].fp, b[j].fp) >= o.threshold
    ensures exists p :: p in Aligned(a, b, o) && Covered(p, i, j, Similarity(a[i].fp, b[j].fp))
  {
    hide Aligned, Similarity, ShareBand;
    AboveThreeQuartersShareABand(a[i].fp, b[j].fp);
    NoPairIsLost(a, b, o, i, j);
  }

  // And every accepted pair is one that may be paired.
  lemma AcceptedMayPair(a: seq<Node>, b: seq<Node>, o: Opts)
    ensures forall p :: p in Aligned(a, b, o) ==> p.a < |a| && p.b < |b| && MayPair(a, b, p.a, p.b)
  {
    hide Aligned, MayPair, FinalList, ListCand;
    var cs := FinalCands(a, b, o);
    forall p | p in Aligned(a, b, o) ensures p.a < |a| && p.b < |b| && MayPair(a, b, p.a, p.b) {
      var c := Origin(a, b, o, cs, p);
      ListCandMayPair(a, b, Bare(c));
    }
  }

  lemma ListCandMayPair(a: seq<Node>, b: seq<Node>, c: Cand)
    requires ListCand(a, b, c)
    ensures c.a < |a| && c.b < |b| && MayPair(a, b, c.a, c.b)
  {
    hide Similarity, ShareBand, MayPair, InPool;
    CandListHolds(a, b, |a|);
    CandidatesAre(a, b, c.a, c.b);
  }

  lemma SimilarityAtMostOne(f: Fingerprint, g: Fingerprint)
    ensures Similarity(f, g) <= 1.0
  {
    SimilarityBounds(f, g);
  }
}
