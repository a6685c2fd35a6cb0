/**
  crates/fnprint-core/src/align.rs, align: the candidate pool, the assignment, and
  the rounds that re-score it by the call graph.
 */
module Align {
  import opened Sorting
  import opened Wrappers
  import opened Sig
  import opened Bands
  import opened BandIndex
  import opened Assign
  import G = Graph

  const MIN_COMPLEXITY: nat := 4
  const FLOOR: real := 0.2

  datatype Opts = Opts(threshold: real, graphWeight: real, rounds: nat)

  predicate Usable(fp: Fingerprint) {
    fp.complexity >= MIN_COMPLEXITY && fp.shingles > 0
  }

  // ---------- the candidate pool ----------

  predicate Near(f: Fingerprint, n: Node) {
    Usable(n.fp) && ShareBand(f, n.fp)
  }

  predicate SomeNear(f: Fingerprint, b: seq<Node>) {
    exists j :: 0 <= j < |b| && Near(f, b[j])
  }

  // Those that share a band, or every usable one when none does.
  predicate InPool(f: Fingerprint, b: seq<Node>, n: Node) {
    Near(f, n) || (Usable(n.fp) && !SomeNear(f, b))
  }

  function PoolUpTo(f: Fingerprint, b: seq<Node>, j: nat): seq<nat>
    requires j <= |b|
  {
    if j == 0 then []
    else PoolUpTo(f, b, j - 1) + if InPool(f, b, b[j - 1]) then [j - 1] else []
  }

  function Pool(f: Fingerprint, b: seq<Node>): seq<nat> { PoolUpTo(f, b, |b|) }

  function RowAt(i: nat, f: Fingerprint, b: seq<Node>, j: nat): seq<Cand> {
    var sim := if j < |b| then Similarity(f, b[j].fp) else 0.0;
    if sim >= FLOOR then [Cand(i, j, sim, 0.0)] else []
  }

  function Row(i: nat, f: Fingerprint, b: seq<Node>, pool: seq<nat>): seq<Cand> {
    if pool == [] then [] else Row(i, f, b, pool[..|pool| - 1]) + RowAt(i, f, b, pool[|pool| - 1])
  }

  function CandList(a: seq<Node>, b: seq<Node>, i: nat): seq<Cand>
    requires i <= |a|
  {
    if i == 0 then []
    else
      CandList(a, b, i - 1) +
      if Usable(a[i - 1].fp) then Row(i - 1, a[i - 1].fp, b, Pool(a[i - 1].fp, b)) else []
  }

  // i and j may be paired.
  predicate IsCandidate(a: seq<Node>, b: seq<Node>, i: nat, j: nat) {
    && i < |a| && j < |b|
    && Usable(a[i].fp)
    && InPool(a[i].fp, b, b[j])
    && Similarity(a[i].fp, b[j].fp) >= FLOOR
  }

  lemma {:induction false} PoolIsAscending(f: Fingerprint, b: seq<Node>, j: nat)
    requires j <= |b|
    ensures Ascending(PoolUpTo(f, b, j))
    ensures forall x :: x in PoolUpTo(f, b, j) <==> 0 <= x < j && InPool(f, b, b[x])
  {
    hide InPool;
    if j > 0 {
      PoolIsAscending(f, b, j - 1);
      var p := PoolUpTo(f, b, j - 1);
      assert forall k :: 0 <= k < |p| ==> p[k] in p;
    }
  }

  // c pairs function i with node j and carries their similarity.
  predicate RowCand(i: nat, f: Fingerprint, b: seq<Node>, j: nat, c: Cand) {
    j < |b| && c == Cand(i, j, Similarity(f, b[j].fp), 0.0) && c.sim >= FLOOR
  }

  lemma KeyedConcat(p: seq<Cand>, q: seq<Cand>)
    requires Keyed(p) && Keyed(q)
    requires forall c, d :: c in p && d in q ==> c.a != d.a || c.b != d.b
    ensures Keyed(p + q)
  {
    forall i, j | 0 <= i < j < |p + q| ensures (p + q)[i].a != (p + q)[j].a || (p + q)[i].b != (p + q)[j].b {
      if i < |p| { assert p[i] in p; }
      if j >= |p| { assert q[j - |p|] in q; }
    }
  }

  lemma RowAtHolds(i: nat, f: Fingerprint, b: seq<Node>, j: nat)
    requires j < |b|
    ensures forall c :: c in RowAt(i, f, b, j) <==> c.b == j && RowCand(i, f, b, c.b, c)
    ensures Keyed(RowAt(i, f, b, j))
  {
    hide Similarity;
  }

  lemma {:induction false} RowHolds(i: nat, f: Fingerprint, b: seq<Node>, pool: seq<nat>)
    requires Ascending(pool) && forall j :: j in pool ==> j < |b|
    ensures forall c :: c in Row(i, f, b, pool) <==> c.b in pool && RowCand(i, f, b, c.b, c)
    ensures Keyed(Row(i, f, b, pool))
  {
    hide RowCand, RowAt;
    if pool != [] {
      var n := |pool| - 1;
      var p, j := pool[..n], pool[n];
      assert pool == p + [j];
      assert Ascending(p) && j !in p && j in pool;
      assert forall x :: x in pool <==> x in p || x == j;
      RowHolds(i, f, b, p);
      RowAtHolds(i, f, b, j);
      KeyedConcat(Row(i, f, b, p), RowAt(i, f, b, j));
    }
  }

  // c pairs two functions that may be paired, with their similarity.
  predicate ListCand(a: seq<Node>, b: seq<Node>, c: Cand) {
    && IsCandidate(a, b, c.a, c.b)
    && c == Cand(c.a, c.b, Similarity(a[c.a].fp, b[c.b].fp), 0.0)
  }

  lemma RowOfList(a: seq<Node>, b: seq<Node>, i: nat)
    requires i < |a| && Usable(a[i].fp)
    ensures Keyed(Row(i, a[i].fp, b, Pool(a[i].fp, b)))
    ensures forall c :: c in Row(i, a[i].fp, b, Pool(a[i].fp, b)) <==> c.a == i && ListCand(a, b, c)
  {
    hide Similarity, InPool;
    PoolIsAscending(a[i].fp, b, |b|);
    RowHolds(i, a[i].fp, b, Pool(a[i].fp, b));
  }

  lemma CandidateIsUsable(a: seq<Node>, b: seq<Node>, c: Cand)
    requires IsCandidate(a, b, c.a, c.b)
    ensures c.a < |a| && Usable(a[c.a].fp)
  {
  }

  // The list holds every candidate pair once, with its similarity.
  lemma {:induction false} CandListHolds(a: seq<Node>, b: seq<Node>, i: nat)
    requires i <= |a|
    ensures forall c :: c in CandList(a, b, i) <==> c.a < i && ListCand(a, b, c)
    ensures Keyed(CandList(a, b, i))
  {
    hide IsCandidate, Row;
    if i > 0 {
      CandListHolds(a, b, i - 1);
      var p := CandList(a, b, i - 1);
      if Usable(a[i - 1].fp) {
        RowOfList(a, b, i - 1);
        KeyedConcat(p, Row(i - 1, a[i - 1].fp, b, Pool(a[i - 1].fp, b)));
      } else {
        assert CandList(a, b, i) == p;
        forall c | ListCand(a, b, c) ensures c.a < |a| && Usable(a[c.a].fp) { CandidateIsUsable(a, b, c); }
      }
    }
  }

  lemma CandListInRange(a: seq<Node>, b: seq<Node>)
    ensures InRange(CandList(a, b, |a|), a, b)
  {
    hide InPool, Usable, Similarity;
    var cs := CandList(a, b, |a|);
    CandListHolds(a, b, |a|);
    forall i | 0 <= i < |cs| ensures cs[i].a < |a| && cs[i].b < |b| {
      assert cs[i] in cs;
    }
  }

  // The band index misses no usable pair above similarity 3/4.
  lemma PoolKeepsCloseNodes(a: seq<Node>, b: seq<Node>, i: nat, j: nat)
    requires i < |a| && j < |b|
    requires Usable(a[i].fp) && Usable(b[j].fp)
    requires Similarity(a[i].fp, b[j].fp) > 0.75
    ensures Cand(i, j, Similarity(a[i].fp, b[j].fp), 0.0) in CandList(a, b, |a|)
  {
    hide Similarity, ShareBand;
    CandListHolds(a, b, |a|);
    AboveThreeQuartersShareABand(a[i].fp, b[j].fp);
  }

  ghost predicate Filed(bands: Index, b: seq<Node>, j: nat)
    requires j <= |b|
  {
    forall k: nat, h, x: nat :: Has(bands, k, h, x) <==>
      x < j && Usable(b[x].fp) && k < |Keys(b[x].fp)| && Keys(b[x].fp)[k] == h
  }

  method IndexBands(b: seq<Node>) returns (bands: Index)
    ensures Filed(bands, b, |b|)
  {
    hide Keys;
    bands := map[];
    for j := 0 to |b|
      invariant Filed(bands, b, j)
    {
      if Usable(b[j].fp) {
        var keys := BandKeys(b[j].fp.sig, BAND_ROWS);
        assert keys == Keys(b[j].fp) by { KeysOfPrint(b[j].fp); }
        bands := AddPrint(bands, keys, j);
      }
    }
  }

  lemma MeetsMeansNear(bands: Index, b: seq<Node>, f: Fingerprint, x: nat)
    requires Filed(bands, b, |b|)
    ensures Meets(bands, Keys(f), x) <==> x < |b| && Near(f, b[x])
  {
    hide Keys;
    if Meets(bands, Keys(f), x) {
      var k :| 0 <= k < |Keys(f)| && Has(bands, k, Keys(f)[k], x);
    }
    if x < |b| && Near(f, b[x]) {
      var k :| 0 <= k < |Keys(f)| && k < |Keys(b[x].fp)| && Keys(f)[k] == Keys(b[x].fp)[k];
      assert Has(bands, k, Keys(f)[k], x);
    }
  }

  method UsableIndices(b: seq<Node>) returns (r: seq<nat>)
    ensures Ascending(r)
    ensures forall x: nat :: x in r <==> x < |b| && Usable(b[x].fp)
  {
    r := [];
    for j := 0 to |b|
      invariant Ascending(r)
      invariant forall x: nat :: x in r <==> x < j && Usable(b[x].fp)
    {
      if Usable(b[j].fp) {
        assert forall k :: 0 <= k < |r| ==> r[k] in r;
        r := r + [j];
      }
    }
  }

  method FindPool(f: Fingerprint, b: seq<Node>, bands: Index, bUsable: seq<nat>) returns (pool: seq<nat>)
    requires Filed(bands, b, |b|)
    requires Ascending(bUsable) && forall x: nat :: x in bUsable <==> x < |b| && Usable(b[x].fp)
    ensures pool == Pool(f, b)
  {
    hide Keys, ShareBand;
    var keys := BandKeys(f.sig, BAND_ROWS);
    KeysOfPrint(f);
    var found := Collect(bands, keys);
    var seen := SortDedup(found, NatLe());
    SortDedupNat(found);
    pool := if seen == [] then bUsable else seen;
    forall x: nat ensures x in seen <==> x < |b| && Near(f, b[x]) {
      MeetsMeansNear(bands, b, f, x);
    }
    PoolIsAscending(f, b, |b|);
    if seen != [] {
      assert seen[0] in seen;
      assert SomeNear(f, b);
    }
    forall x: nat ensures x in pool <==> x in Pool(f, b) {
      assert x in pool <==> x < |b| && InPool(f, b, b[x]);
    }
    AscendingUnique(pool, Pool(f, b));
  }

  method FindRow(i: nat, f: Fingerprint, b: seq<Node>, pool: seq<nat>) returns (row: seq<Cand>)
    requires forall j :: j in pool ==> j < |b|
    ensures row == Row(i, f, b, pool)
  {
    hide Similarity;
    row := [];
    for k := 0 to |pool|
      invariant row == Row(i, f, b, pool[..k])
    {
      var j := pool[k];
      assert j in pool;
      assert pool[..k + 1][..k] == pool[..k];
      var sim := Similarity(f, b[j].fp);
      if sim >= FLOOR {
        row := row + [Cand(i, j, sim, 0.0)];
      }
    }
    assert pool[..|pool|] == pool;
  }

  method FindCandidates(a: seq<Node>, b: seq<Node>) returns (cands: seq<Cand>)
    ensures cands == CandList(a, b, |a|)
  {
    hide Usable, Filed, Row;
    var bands := IndexBands(b);
    var bUsable := UsableIndices(b);
    cands := [];
    for i := 0 to |a|
      invariant cands == CandList(a, b, i)
    {
      if Usable(a[i].fp) {
        var pool := FindPool(a[i].fp, b, bands, bUsable);
        PoolIsAscending(a[i].fp, b, |b|);
        var row := FindRow(i, a[i].fp, b, pool);
        cands := cands + row;
      }
    }
  }

  // ---------- re-scoring ----------

  function NeighboursOf(ns: seq<Node>, scoped: bool): (r: seq<G.Around>)
    ensures |r| == |ns|
  {
    var callees := G.Callees(ns, scoped);
    var callers := G.Callers(callees, |ns|);
    seq(|ns|, i requires 0 <= i < |ns| => G.Around(callees[i], callers[i]))
  }

  function PartnerOf(ps: seq<Pair>, n: nat): (r: G.Pairing)
    ensures |r| == n
  {
    if ps == [] then seq(n, i requires 0 <= i < n => None)
    else
      var p := ps[|ps| - 1];
      var r := PartnerOf(ps[..|ps| - 1], n);
      if p.a < n then r[p.a := Some(p.b)] else r
  }

  function PairedOf(ps: seq<Pair>, m: nat): (r: seq<bool>)
    ensures |r| == m
  {
    if ps == [] then seq(m, i requires 0 <= i < m => false)
    else
      var p := ps[|ps| - 1];
      var r := PairedOf(ps[..|ps| - 1], m);
      if p.b < m then r[p.b := true] else r
  }

  // Everything the rounds read but never change.
  datatype Setting = Setting(a: seq<Node>, b: seq<Node>, na: seq<G.Around>, nb: seq<G.Around>, w: real)

  function SettingOf(a: seq<Node>, b: seq<Node>, w: real): Setting {
    Setting(a, b, NeighboursOf(a, false), NeighboursOf(b, true), w)
  }

  function GraphOf(s: Setting, c: Cand, partner: G.Pairing, bPaired: seq<bool>): real {
    if c.a < |s.na| && c.b < |s.nb| then G.GraphScore(s.na[c.a], s.nb[c.b], partner, bPaired) else 0.0
  }

  function RescoreOne(s: Setting, c: Cand, ps: seq<Pair>): Cand {
    c.(graph := GraphOf(s, c, PartnerOf(ps, |s.a|), PairedOf(ps, |s.b|)))
  }

  function Rescore(s: Setting, cs: seq<Cand>, ps: seq<Pair>): (r: seq<Cand>)
    ensures |r| == |cs|
  {
    seq(|cs|, i requires 0 <= i < |cs| => RescoreOne(s, cs[i], ps))
  }

  datatype State = State(cands: seq<Cand>, assign: seq<Pair>)

  function Assigned(s: Setting, cs: seq<Cand>): State {
    State(SortBy(cs, ByRank(s.a, s.b, s.w)), Assignment(cs, s.a, s.b, s.w))
  }

  function Round(s: Setting, st: State): State {
    Assigned(s, Rescore(s, st.cands, st.assign))
  }

  // k rounds, none skipped.
  function Rounds(s: Setting, st: State, k: nat): State {
    if k == 0 then st else Round(s, Rounds(s, st, k - 1))
  }

  // ---------- stopping early changes nothing ----------

  lemma RescoreAgainIsIdentity(s: Setting, cs: seq<Cand>, ps: seq<Pair>)
    ensures var ds := SortBy(Rescore(s, cs, ps), ByRank(s.a, s.b, s.w)); Rescore(s, ds, ps) == ds
  {
    var ds := SortBy(Rescore(s, cs, ps), ByRank(s.a, s.b, s.w));
    SortBySorts(Rescore(s, cs, ps), ByRank(s.a, s.b, s.w));
    forall i | 0 <= i < |ds| ensures RescoreOne(s, ds[i], ps) == ds[i] {
      assert ds[i] in Rescore(s, cs, ps);
      var j :| 0 <= j < |cs| && RescoreOne(s, cs[j], ps) == ds[i];
    }
  }

  // A round that did not move the assignment has reached a fixed point.
  lemma UnmovedIsFixed(s: Setting, st: State)
    requires Round(s, st).assign == st.assign
    ensures Round(s, Round(s, st)) == Round(s, st)
  {
    var le := ByRank(s.a, s.b, s.w);
    var cs := Rescore(s, st.cands, st.assign);
    RescoreAgainIsIdentity(s, st.cands, st.assign);
    ByRankOrders(s.a, s.b, s.w);
    SortBySorts(cs, le);
    SortBySortedIsIdentity(SortBy(cs, le), le);
  }

  lemma {:induction false} FixedStaysFixed(s: Setting, st: State, k: nat, n: nat)
    requires Rounds(s, st, k + 1).assign == Rounds(s, st, k).assign
    requires k < n
    ensures Rounds(s, st, n) == Rounds(s, st, k + 1)
  {
    hide Round;
    if n > k + 1 {
      FixedStaysFixed(s, st, k, n - 1);
      UnmovedIsFixed(s, Rounds(s, st, k));
    }
  }

  // ---------- align ----------

  function Weight(o: Opts): real { if o.graphWeight > 0.0 then o.graphWeight else 0.0 }

  function RoundCount(o: Opts): nat { if Weight(o) > 0.0 then o.rounds else 0 }

  function Final(a: seq<Node>, b: seq<Node>, o: Opts): State {
    var s := SettingOf(a, b, Weight(o));
    Rounds(s, Assigned(s, CandList(a, b, |a|)), RoundCount(o))
  }

  function Accept(ps: seq<Pair>, threshold: real): seq<Pair> {
    if ps == [] then []
    else Accept(ps[..|ps| - 1], threshold) + if ps[|ps| - 1].score >= threshold then [ps[|ps| - 1]] else []
  }

  // Score and similarity descending, then the a entry.
  function ByScore(a: seq<Node>): (Pair, Pair) -> bool {
    (x: Pair, y: Pair) =>
      || x.score > y.score
      || (x.score == y.score && (x.sim > y.sim || (x.sim == y.sim && EntryAt(a, x.a) <= EntryAt(a, y.a))))
  }

  // What align returns: all rounds run to the end.
  function Aligned(a: seq<Node>, b: seq<Node>, o: Opts): seq<Pair> {
    SortBy(Accept(Final(a, b, o).assign, o.threshold), ByScore(a))
  }

  method BuildNeighbours(ns: seq<Node>, scoped: bool) returns (r: seq<G.Around>)
    ensures r == NeighboursOf(ns, scoped)
  {
    var callees := G.Callees(ns, scoped);
    G.CalleesWithin(ns, scoped);
    var callers := G.Reverse(callees, |ns|);
    r := seq(|ns|, i requires 0 <= i < |ns| => G.Around(callees[i], callers[i]));
  }

  lemma NeighboursWithin(ns: seq<Node>, scoped: bool, i: nat)
    requires i < |ns|
    ensures G.Fits(NeighboursOf(ns, scoped)[i], |ns|)
  {
    G.CalleesWithin(ns, scoped);
    G.CallersWithin(G.Callees(ns, scoped), |ns|);
  }

  method RescoreInPlace(s: Setting, cands: array<Cand>, assign: seq<Pair>)
    requires s == SettingOf(s.a, s.b, s.w)
    requires InRange(cands[..], s.a, s.b)
    requires forall i :: 0 <= i < |assign| ==> assign[i].a < |s.a| && assign[i].b < |s.b|
    modifies cands
    ensures cands[..] == Rescore(s, old(cands[..]), assign)
  {
    hide NeighboursOf, G.GraphScore;
    var partner := seq(|s.a|, i requires 0 <= i < |s.a| => None);
    var bPaired := seq(|s.b|, i requires 0 <= i < |s.b| => false);
    for k := 0 to |assign|
      invariant partner == PartnerOf(assign[..k], |s.a|)
      invariant bPaired == PairedOf(assign[..k], |s.b|)
    {
      assert assign[..k + 1][..k] == assign[..k];
      partner := partner[assign[k].a := Some(assign[k].b)];
      bPaired := bPaired[assign[k].b := true];
    }
    assert assign[..|assign|] == assign;
    ghost var given := cands[..];
    for i := 0 to cands.Length
      invariant forall k :: 0 <= k < i ==> cands[k] == RescoreOne(s, given[k], assign)
      invariant forall k :: i <= k < cands.Length ==> cands[k] == given[k]
    {
      var c := cands[i];
      assert c == given[i] && c.a < |s.a| && c.b < |s.b|;
      NeighboursWithin(s.a, false, c.a);
      NeighboursWithin(s.b, true, c.b);
      var g := G.ComputeGraphScore(s.na[c.a], s.nb[c.b], partner, bPaired);
      cands[i] := c.(graph := g);
    }
    assert cands[..] == Rescore(s, given, assign);
  }

  lemma RescoreKeepsRange(s: Setting, cs: seq<Cand>, ps: seq<Pair>)
    requires InRange(cs, s.a, s.b)
    ensures InRange(Rescore(s, cs, ps), s.a, s.b)
  {
  }

  lemma AssignmentInRange(cs: seq<Cand>, a: seq<Node>, b: seq<Node>, w: real)
    requires InRange(cs, a, b)
    ensures forall i :: 0 <= i < |Assignment(cs, a, b, w)| ==>
              Assignment(cs, a, b, w)[i].a < |a| && Assignment(cs, a, b, w)[i].b < |b|
  {
    hide Assignment, Chosen;
    AssignmentIsOneToOne(cs, a, b, w);
    var ps := Assignment(cs, a, b, w);
    forall i | 0 <= i < |ps| ensures ps[i].a < |a| && ps[i].b < |b| {
      assert ps[i] in ps;
      var c :| c in Chosen(cs, a, b, w) && ps[i] == ToPair(c, w);
      assert c in cs;
    }
  }

  // The re-scoring rounds, left as soon as one of them moves nothing.
  method RunRounds(s: Setting, cands: array<Cand>, rounds: nat) returns (assign: seq<Pair>)
    requires s == SettingOf(s.a, s.b, s.w)
    requires InRange(cands[..], s.a, s.b)
    modifies cands
    ensures assign == Rounds(s, Assigned(s, old(cands[..])), rounds).assign
  {
    hide SettingOf, Rescore, Assignment, ByRank;
    ghost var first := Assigned(s, cands[..]);
    SortKeepsRange(cands[..], s.a, s.b, s.w);
    AssignmentInRange(cands[..], s.a, s.b, s.w);
    assign := AssignGreedy(cands, s.a, s.b, s.w);
    for k := 0 to rounds
      invariant InRange(cands[..], s.a, s.b)
      invariant forall i :: 0 <= i < |assign| ==> assign[i].a < |s.a| && assign[i].b < |s.b|
      invariant State(cands[..], assign) == Rounds(s, first, k)
    {
      RescoreKeepsRange(s, cands[..], assign);
      RescoreInPlace(s, cands, assign);
      SortKeepsRange(cands[..], s.a, s.b, s.w);
      AssignmentInRange(cands[..], s.a, s.b, s.w);
      var next := AssignGreedy(cands, s.a, s.b, s.w);
      assert State(cands[..], next) == Rounds(s, first, k + 1);
      var moved := next != assign;
      assign := next;
      if !moved {
        FixedStaysFixed(s, first, k, rounds);
        return;
      }
    }
  }

  method Align(a: seq<Node>, b: seq<Node>, o: Opts) returns (out: seq<Pair>)
    ensures out == Aligned(a, b, o)
  {
    hide Assigned, Rounds, NeighboursOf;
    var w := if o.graphWeight > 0.0 then o.graphWeight else 0.0;
    var rounds := if w > 0.0 then o.rounds else 0;
    var cs := FindCandidates(a, b);
    CandListInRange(a, b);
    var na := BuildNeighbours(a, false);
    var nb := BuildNeighbours(b, true);
    var cands := new Cand[|cs|](i requires 0 <= i < |cs| => cs[i]);
    assert cands[..] == cs;
    var assign := RunRounds(Setting(a, b, na, nb, w), cands, rounds);
    out := [];
    for k := 0 to |assign|
      invariant out == Accept(assign[..k], o.threshold)
    {
      assert assign[..k + 1][..k] == assign[..k];
      if assign[k].score >= o.threshold {
        out := out + [assign[k]];
      }
    }
    assert assign[..|assign|] == assign;
    out := SortBy(out, ByScore(a));
  }
}
