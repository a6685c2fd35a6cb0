/**
  crates/fnprint-core, triage: each function of a target is searched for in a vulnerable and
  in a patched corpus, and the two answers decide where it stands in the review queue.
 */
module Triage {
  import opened Wrappers
  import opened Sorting
  import opened Counting
  import opened Sig
  import opened Bands
  import opened Corpus
  import opened Indexed
  import opened Search
  import A = Align

  datatype Verdict = Vulnerable | Patched | Inconclusive

  datatype TriageHit = TriageHit(
    entry: nat, verdict: Verdict, vulnSim: real, vulnName: string, patchedSim: real, patchedName: string, coverage: Coverage)

  function VerdictOf(vuln: real, patched: real, minSim: real, margin: real): Verdict {
    var top := if vuln > patched then vuln else patched;
    if top < minSim then Inconclusive
    else if vuln - patched >= margin then Vulnerable
    else if patched - vuln >= margin then Patched
    else Inconclusive
  }

  function SimOf(h: Option<Hit>): real { if h.Some? then h.value.sim else 0.0 }

  function NameOf(h: Option<Hit>): string { if h.Some? then h.value.name else "" }

  function HitFor(f: IndexedFunc, v: Option<Hit>, p: Option<Hit>, minSim: real, margin: real): TriageHit {
    TriageHit(f.entry, VerdictOf(SimOf(v), SimOf(p), minSim, margin), SimOf(v), NameOf(v), SimOf(p), NameOf(p), f.coverage)
  }

  function VerdictOrder(v: Verdict): nat {
    match v
    case Vulnerable => 0
    case Inconclusive => 1
    case Patched => 2
  }

  // The review queue: vulnerable leads first, the strongest on top.
  function ByQueue(): (TriageHit, TriageHit) -> bool {
    (x: TriageHit, y: TriageHit) =>
      || VerdictOrder(x.verdict) < VerdictOrder(y.verdict)
      || (x.verdict == y.verdict
          && (x.vulnSim > y.vulnSim || (x.vulnSim == y.vulnSim && x.entry <= y.entry)))
  }

  // The functions worth asking about.
  function Signals(target: seq<IndexedFunc>): seq<IndexedFunc> {
    if target == [] then []
    else
      Signals(target[..|target| - 1]) +
      if A.Usable(target[|target| - 1].fp) then [target[|target| - 1]] else []
  }

  function NamedRecs(recs: seq<FuncRec>): seq<FuncRec> {
    if recs == [] then []
    else NamedRecs(recs[..|recs| - 1]) + if recs[|recs| - 1].name.Some? then [recs[|recs| - 1]] else []
  }

  // Where one print is searched for: its band hits, or every named record.
  function PoolFor(recs: seq<FuncRec>, fp: Fingerprint): seq<FuncRec> {
    if SharingBand(recs, fp) == [] then NamedRecs(recs) else SharingBand(recs, fp)
  }

  // h tells how close f comes to the best of either corpus.
  ghost predicate IsHit(f: IndexedFunc, vuln: seq<FuncRec>, patched: seq<FuncRec>, minSim: real, margin: real, h: TriageHit) {
    exists v, p :: IsBest(f.fp, PoolFor(vuln, f.fp), v) && IsBest(f.fp, PoolFor(patched, f.fp), p)
                   && h == HitFor(f, v, p, minSim, margin)
  }

  ghost predicate HitsInOrder(fs: seq<IndexedFunc>, vuln: seq<FuncRec>, patched: seq<FuncRec>, minSim: real, margin: real,
                              hs: seq<TriageHit>) {
    |hs| == |fs| && forall i :: 0 <= i < |fs| ==> IsHit(fs[i], vuln, patched, minSim, margin, hs[i])
  }

  // One hit for every function with signal, in queue order.
  ghost predicate IsTriage(target: seq<IndexedFunc>, vuln: seq<FuncRec>, patched: seq<FuncRec>, minSim: real, margin: real,
                           hits: seq<TriageHit>) {
    exists hs :: HitsInOrder(Signals(target), vuln, patched, minSim, margin, hs) && hits == SortBy(hs, ByQueue())
  }

  // ---------- the loops ----------

  method NamedOf(recs: seq<FuncRec>) returns (r: seq<FuncRec>)
    ensures r == NamedRecs(recs)
  {
    r := [];
    for i := 0 to |recs|
      invariant r == NamedRecs(recs[..i])
    {
      assert recs[..i + 1][..i] == recs[..i];
      if recs[i].name.Some? {
        r := r + [recs[i]];
      }
    }
    assert recs[..|recs|] == recs;
  }

  ghost predicate IsSide(target: seq<IndexedFunc>, recs: seq<FuncRec>, best: seq<Option<Hit>>) {
    && |best| == |target|
    && forall i :: 0 <= i < |target| && A.Usable(target[i].fp) ==> IsBest(target[i].fp, PoolFor(recs, target[i].fp), best[i])
  }

  // The best of one corpus for every function of the target.
  method Side(target: seq<IndexedFunc>, corpus: MemCorpus) returns (best: seq<Option<Hit>>)
    requires corpus.Valid()
    ensures IsSide(target, corpus.recs, best)
  {
    hide IsBest, SharingBand;
    var recs := NamedOf(corpus.recs);
    best := [];
    for i := 0 to |target|
      invariant |best| == i
      invariant forall k :: 0 <= k < i && A.Usable(target[k].fp) ==>
                  IsBest(target[k].fp, PoolFor(corpus.recs, target[k].fp), best[k])
    {
      var b := None;
      if A.Usable(target[i].fp) {
        b := BestInCorpus(target[i].fp, corpus, recs);
      }
      best := best + [b];
    }
  }

  method Triage(target: seq<IndexedFunc>, vuln: MemCorpus, patched: MemCorpus, minSim: real, margin: real)
    returns (hits: seq<TriageHit>)
    requires vuln.Valid() && patched.Valid()
    ensures IsTriage(target, vuln.recs, patched.recs, minSim, margin, hits)
  {
    hide IsBest, PoolFor, A.Usable;
    var v := Side(target, vuln);
    var p := Side(target, patched);
    var out: seq<TriageHit> := [];
    for i := 0 to |target|
      invariant HitsInOrder(Signals(target[..i]), vuln.recs, patched.recs, minSim, margin, out)
    {
      assert target[..i + 1][..i] == target[..i];
      var f := target[i];
      if A.Usable(f.fp) {
        var h := HitFor(f, v[i], p[i], minSim, margin);
        assert IsHit(f, vuln.recs, patched.recs, minSim, margin, h);
        out := out + [h];
      }
    }
    assert target[..|target|] == target;
    hits := SortBy(out, ByQueue());
  }

  // ---------- one answer ----------

  lemma {:induction false} NamedRecsHold(recs: seq<FuncRec>)
    ensures forall r :: r in NamedRecs(recs) <==> r in recs && r.name.Some?
  {
    if recs != [] {
      NamedRecsHold(recs[..|recs| - 1]);
      assert recs == recs[..|recs| - 1] + [recs[|recs| - 1]];
    }
  }

  lemma NotEmpty<T>(s: seq<T>)
    ensures s == [] <==> forall x :: x !in s
  {
    if s != [] { assert s[0] in s; }
  }

  lemma PoolDependsOnRecords(recs: seq<FuncRec>, recs2: seq<FuncRec>, fp: Fingerprint)
    requires forall r :: r in recs <==> r in recs2
    ensures forall r :: r in PoolFor(recs, fp) <==> r in PoolFor(recs2, fp)
  {
    hide ShareBand;
    SharingBandHolds(recs, fp);
    SharingBandHolds(recs2, fp);
    NamedRecsHold(recs);
    NamedRecsHold(recs2);
    NotEmpty(SharingBand(recs, fp));
    NotEmpty(SharingBand(recs2, fp));
  }

  ghost predicate SameRecords(recs: seq<FuncRec>, recs2: seq<FuncRec>) { forall r :: r in recs <==> r in recs2 }

  lemma BestIsUnique(fp: Fingerprint, recs: seq<FuncRec>, recs2: seq<FuncRec>, x: Option<Hit>, y: Option<Hit>)
    requires SameRecords(recs, recs2)
    requires IsBest(fp, PoolFor(recs, fp), x) && IsBest(fp, PoolFor(recs2, fp), y)
    ensures x == y
  {
    hide PoolFor, IsBest;
    PoolDependsOnRecords(recs, recs2, fp);
    BestIgnoresPoolOrder(fp, PoolFor(recs, fp), PoolFor(recs2, fp), x, y);
  }

  lemma HitIsUnique(f: IndexedFunc, vuln: seq<FuncRec>, patched: seq<FuncRec>, vuln2: seq<FuncRec>, patched2: seq<FuncRec>,
                    minSim: real, margin: real, h: TriageHit, g: TriageHit)
    requires SameRecords(vuln, vuln2) && SameRecords(patched, patched2)
    requires IsHit(f, vuln, patched, minSim, margin, h) && IsHit(f, vuln2, patched2, minSim, margin, g)
    ensures h == g
  {
    hide IsBest, PoolFor, SameRecords;
    var v, p :| IsBest(f.fp, PoolFor(vuln, f.fp), v) && IsBest(f.fp, PoolFor(patched, f.fp), p)
                && h == HitFor(f, v, p, minSim, margin);
    var v2, p2 :| IsBest(f.fp, PoolFor(vuln2, f.fp), v2) && IsBest(f.fp, PoolFor(patched2, f.fp), p2)
                  && g == HitFor(f, v2, p2, minSim, margin);
    BestIsUnique(f.fp, vuln, vuln2, v, v2);
    BestIsUnique(f.fp, patched, patched2, p, p2);
  }

  // The queue depends on what the corpora hold, not on how their records are listed or repeated.
  lemma TriageIgnoresRecordOrder(target: seq<IndexedFunc>, vuln: seq<FuncRec>, patched: seq<FuncRec>,
                                 vuln2: seq<FuncRec>, patched2: seq<FuncRec>, minSim: real, margin: real,
                                 hits: seq<TriageHit>, hits2: seq<TriageHit>)
    requires SameRecords(vuln, vuln2) && SameRecords(patched, patched2)
    requires IsTriage(target, vuln, patched, minSim, margin, hits)
    requires IsTriage(target, vuln2, patched2, minSim, margin, hits2)
    ensures hits == hits2
  {
    hide IsHit, SameRecords, ByQueue;
    var fs := Signals(target);
    var hs: seq<TriageHit> :| HitsInOrder(fs, vuln, patched, minSim, margin, hs) && hits == SortBy(hs, ByQueue());
    var gs: seq<TriageHit> :| HitsInOrder(fs, vuln2, patched2, minSim, margin, gs) && hits2 == SortBy(gs, ByQueue());
    forall i | 0 <= i < |fs| ensures hs[i] == gs[i] {
      HitIsUnique(fs[i], vuln, patched, vuln2, patched2, minSim, margin, hs[i], gs[i]);
    }
    assert hs == gs;
  }

  // ---------- how close a corpus comes ----------

  // The similarity of the closest eligible record, 0 when there is none.
  function TopSim(fp: Fingerprint, pool: seq<FuncRec>): real {
    if pool == [] then 0.0
    else
      var top := TopSim(fp, pool[..|pool| - 1]);
      var r := pool[|pool| - 1];
      if Eligible(r) && Similarity(fp, r.fp) > top then Similarity(fp, r.fp) else top
  }

  // What a search of the corpus can find for f.
  function Closest(recs: seq<FuncRec>, f: IndexedFunc): real { TopSim(f.fp, PoolFor(recs, f.fp)) }

  lemma {:induction false} TopSimHolds(fp: Fingerprint, pool: seq<FuncRec>)
    ensures forall r :: r in pool && Eligible(r) ==> Similarity(fp, r.fp) <= TopSim(fp, pool)
    ensures TopSim(fp, pool) >= 0.0
    ensures TopSim(fp, pool) == 0.0 || exists r :: r in pool && Eligible(r) && Similarity(fp, r.fp) == TopSim(fp, pool)
  {
    hide Similarity, Eligible;
    if pool != [] {
      var n := |pool| - 1;
      TopSimHolds(fp, pool[..n]);
      assert pool == pool[..n] + [pool[n]];
    }
  }

  lemma BestIsClosest(f: IndexedFunc, recs: seq<FuncRec>, best: Option<Hit>)
    requires IsBest(f.fp, PoolFor(recs, f.fp), best)
    ensures SimOf(best) == Closest(recs, f)
  {
    hide Similarity, Eligible, PoolFor;
    var pool := PoolFor(recs, f.fp);
    TopSimHolds(f.fp, pool);
    if best.Some? {
      var r :| r in pool && Eligible(r) && HitOf(f.fp, r) == best.value;
      SimilarityBounds(f.fp, r.fp);
      forall q | q in pool && Eligible(q) ensures Similarity(f.fp, q.fp) <= best.value.sim {
        assert !Better(HitOf(f.fp, q), best.value);
      }
    }
  }

  lemma HitReportsClosest(f: IndexedFunc, vuln: seq<FuncRec>, patched: seq<FuncRec>, minSim: real, margin: real, h: TriageHit)
    requires IsHit(f, vuln, patched, minSim, margin, h)
    ensures h.vulnSim == Closest(vuln, f) && h.patchedSim == Closest(patched, f)
    ensures h.verdict == VerdictOf(Closest(vuln, f), Closest(patched, f), minSim, margin)
  {
    hide IsBest, Closest;
    var v, p :| IsBest(f.fp, PoolFor(vuln, f.fp), v) && IsBest(f.fp, PoolFor(patched, f.fp), p)
                && h == HitFor(f, v, p, minSim, margin);
    BestIsClosest(f, vuln, v);
    BestIsClosest(f, patched, p);
  }

  // The verdict, told by how close either corpus comes: a side must reach the minimum, and lead
  // the other by the margin.
  lemma VerdictIs(f: IndexedFunc, vuln: seq<FuncRec>, patched: seq<FuncRec>, minSim: real, margin: real, h: TriageHit)
    requires IsHit(f, vuln, patched, minSim, margin, h)
    ensures var v, p := Closest(vuln, f), Closest(patched, f);
            && (h.verdict == Vulnerable <==> (v >= minSim || p >= minSim) && v - p >= margin)
            && (h.verdict == Patched <==> (v >= minSim || p >= minSim) && v - p < margin && p - v >= margin)
  {
    hide Closest;
    HitReportsClosest(f, vuln, patched, minSim, margin, h);
  }

  // r may be found for f: it has a name and enough complexity, and it shares a band key with f,
  // or no record of the corpus does.
  ghost predicate Findable(f: IndexedFunc, recs: seq<FuncRec>, r: FuncRec) {
    && r in recs && r.name.Some? && r.fp.complexity >= 4
    && (ShareBand(f.fp, r.fp) || forall q :: q in recs ==> !ShareBand(f.fp, q.fp))
  }

  lemma FindableIsPooled(f: IndexedFunc, recs: seq<FuncRec>, r: FuncRec)
    ensures Findable(f, recs, r) <==> r in PoolFor(recs, f.fp) && Eligible(r)
  {
    hide ShareBand;
    SharingBandHolds(recs, f.fp);
    NamedRecsHold(recs);
    NotEmpty(SharingBand(recs, f.fp));
  }

  // What `Closest` is: the similarity of a findable record that no findable record exceeds, 0 if
  // nothing can be found.
  lemma ClosestIs(f: IndexedFunc, recs: seq<FuncRec>)
    ensures forall r :: Findable(f, recs, r) ==> Similarity(f.fp, r.fp) <= Closest(recs, f)
    ensures (exists r :: Findable(f, recs, r) && Similarity(f.fp, r.fp) == Closest(recs, f))
            || (Closest(recs, f) == 0.0 && forall r :: Findable(f, recs, r) ==> Similarity(f.fp, r.fp) == 0.0)
  {
    hide Similarity, Findable, Eligible, PoolFor;
    TopSimHolds(f.fp, PoolFor(recs, f.fp));
    forall r ensures Findable(f, recs, r) <==> r in PoolFor(recs, f.fp) && Eligible(r) { FindableIsPooled(f, recs, r); }
    forall r: FuncRec ensures Similarity(f.fp, r.fp) >= 0.0 { SimilarityBounds(f.fp, r.fp); }
  }

  // The names in a hit are those of a closest record: of all findable ones at that similarity it
  // has the least name.
  lemma HitNamesClosest(f: IndexedFunc, vuln: seq<FuncRec>, patched: seq<FuncRec>, minSim: real, margin: real, h: TriageHit)
    requires IsHit(f, vuln, patched, minSim, margin, h)
    ensures NamesClosest(f, vuln, h.vulnName) && NamesClosest(f, patched, h.patchedName)
    ensures h.entry == f.entry && h.coverage == f.coverage
  {
    hide IsBest, Closest, PoolFor;
    var v, p :| IsBest(f.fp, PoolFor(vuln, f.fp), v) && IsBest(f.fp, PoolFor(patched, f.fp), p)
                && h == HitFor(f, v, p, minSim, margin);
    BestNamesClosest(f, vuln, v);
    BestNamesClosest(f, patched, p);
  }

  ghost predicate NamesClosest(f: IndexedFunc, recs: seq<FuncRec>, name: string) {
    if exists r :: Findable(f, recs, r) then
      && (exists r :: Findable(f, recs, r) && Similarity(f.fp, r.fp) == Closest(recs, f) && r.name == Some(name))
      && (forall r :: Findable(f, recs, r) && Similarity(f.fp, r.fp) == Closest(recs, f) ==> !StrLess(r.name.value, name))
    else name == ""
  }

  lemma BestNamesClosest(f: IndexedFunc, recs: seq<FuncRec>, best: Option<Hit>)
    requires IsBest(f.fp, PoolFor(recs, f.fp), best)
    ensures NamesClosest(f, recs, NameOf(best))
  {
    hide Similarity, ShareBand, PoolFor, Closest;
    BestIsClosest(f, recs, best);
    forall r ensures Findable(f, recs, r) <==> r in PoolFor(recs, f.fp) && Eligible(r) { FindableIsPooled(f, recs, r); }
    if best.Some? {
      var r :| r in PoolFor(recs, f.fp) && Eligible(r) && HitOf(f.fp, r) == best.value;
      assert Findable(f, recs, r);
      forall q | Findable(f, recs, q) && Similarity(f.fp, q.fp) == Closest(recs, f)
        ensures !StrLess(q.name.value, best.value.name)
      {
        assert !Better(HitOf(f.fp, q), best.value);
      }
    }
  }

  // ---------- swapping the corpora ----------

  function Opposite(v: Verdict): Verdict {
    match v
    case Vulnerable => Patched
    case Patched => Vulnerable
    case Inconclusive => Inconclusive
  }

  function Mirror(h: TriageHit): TriageHit {
    TriageHit(h.entry, Opposite(h.verdict), h.patchedSim, h.patchedName, h.vulnSim, h.vulnName, h.coverage)
  }

  // A corpus comes close enough to f, and each of the two leads the other by the margin.
  predicate TwoFaced(f: IndexedFunc, vuln: seq<FuncRec>, patched: seq<FuncRec>, minSim: real, margin: real) {
    var v, p := Closest(vuln, f), Closest(patched, f);
    (v >= minSim || p >= minSim) && v - p >= margin && p - v >= margin
  }

  // Searched with the corpora swapped, a function gets the opposite verdict, exactly unless it
  // is two-faced, and then it is accused both times; no function is two-faced when the margin
  // is positive.
  lemma SwapIsOppositeIff(f: IndexedFunc, vuln: seq<FuncRec>, patched: seq<FuncRec>, minSim: real, margin: real,
                          h: TriageHit, g: TriageHit)
    requires IsHit(f, vuln, patched, minSim, margin, h) && IsHit(f, patched, vuln, minSim, margin, g)
    ensures g == Mirror(h) <==> !TwoFaced(f, vuln, patched, minSim, margin)
    ensures margin > 0.0 ==> !TwoFaced(f, vuln, patched, minSim, margin)
    ensures TwoFaced(f, vuln, patched, minSim, margin) ==> h.verdict == g.verdict == Vulnerable
  {
    HitReportsClosest(f, vuln, patched, minSim, margin, h);
    HitReportsClosest(f, patched, vuln, minSim, margin, g);
    hide IsBest, PoolFor, Closest;
    var v, p :| IsBest(f.fp, PoolFor(vuln, f.fp), v) && IsBest(f.fp, PoolFor(patched, f.fp), p)
                && h == HitFor(f, v, p, minSim, margin);
    var p2, v2 :| IsBest(f.fp, PoolFor(patched, f.fp), p2) && IsBest(f.fp, PoolFor(vuln, f.fp), v2)
                  && g == HitFor(f, p2, v2, minSim, margin);
    assert SameRecords(vuln, vuln) && SameRecords(patched, patched);
    BestIsUnique(f.fp, vuln, vuln, v, v2);
    BestIsUnique(f.fp, patched, patched, p, p2);
  }

  function Mirrors(hs: seq<TriageHit>): (r: seq<TriageHit>)
    ensures |r| == |hs|
  {
    seq(|hs|, i requires 0 <= i < |hs| => Mirror(hs[i]))
  }

  lemma MirrorsConcat(hs: seq<TriageHit>, gs: seq<TriageHit>)
    ensures Mirrors(hs + gs) == Mirrors(hs) + Mirrors(gs)
  {
  }

  lemma {:induction false} MirrorsPermute(hs: seq<TriageHit>, gs: seq<TriageHit>)
    requires multiset(hs) == multiset(gs)
    ensures multiset(Mirrors(hs)) == multiset(Mirrors(gs))
  {
    SameElements(hs, gs);
    hide Mirrors;
    if hs != [] {
      var n := |hs| - 1;
      var i := FindLast(hs, gs);
      assert hs == hs[..n] + [hs[n]];
      assert gs == gs[..i] + [gs[i]] + gs[i + 1..];
      MirrorsPermute(hs[..n], gs[..i] + gs[i + 1..]);
      MirrorsConcat(hs[..n], [hs[n]]);
      MirrorsConcat(gs[..i] + [gs[i]], gs[i + 1..]);
      MirrorsConcat(gs[..i], [gs[i]]);
      MirrorsConcat(gs[..i], gs[i + 1..]);
    } else {
      assert gs == [];
    }
  }

  function Accused(): TriageHit -> bool { (h: TriageHit) => h.verdict == Vulnerable }

  // g is h's mirror, or both accuse.
  predicate MirrorOrAccused(h: TriageHit, g: TriageHit) {
    g == Mirror(h) || h.verdict == g.verdict == Vulnerable
  }

  // A function accused both times leaves the swapped list one accusation ahead of the mirrors.
  lemma {:induction false} AccusationsPileUp(hs: seq<TriageHit>, gs: seq<TriageHit>)
    requires |hs| == |gs| && forall i :: 0 <= i < |hs| ==> MirrorOrAccused(hs[i], gs[i])
    ensures Count(gs, Accused()) >= Count(Mirrors(hs), Accused())
    ensures (exists i :: 0 <= i < |hs| && gs[i] != Mirror(hs[i])) ==> Count(gs, Accused()) > Count(Mirrors(hs), Accused())
  {
    if hs != [] {
      var n := |hs| - 1;
      AccusationsPileUp(hs[..n], gs[..n]);
      assert Mirrors(hs)[..n] == Mirrors(hs[..n]);
      if i :| 0 <= i < |hs| && gs[i] != Mirror(hs[i]) {
        if i < n { assert gs[..n][i] != Mirror(hs[..n][i]); }
      }
    }
  }

  // Triage against the swapped corpora reports every function once more, each with the opposite
  // verdict, exactly when no function of the target is two-faced.
  lemma SwappedTriageMirrorsIff(target: seq<IndexedFunc>, vuln: seq<FuncRec>, patched: seq<FuncRec>, minSim: real, margin: real,
                                hits: seq<TriageHit>, swapped: seq<TriageHit>)
    requires IsTriage(target, vuln, patched, minSim, margin, hits)
    requires IsTriage(target, patched, vuln, minSim, margin, swapped)
    ensures multiset(swapped) == multiset(Mirrors(hits)) <==>
            forall f :: f in Signals(target) ==> !TwoFaced(f, vuln, patched, minSim, margin)
  {
    hide IsHit, ByQueue, Mirror, TwoFaced;
    var fs := Signals(target);
    var hs: seq<TriageHit> :| HitsInOrder(fs, vuln, patched, minSim, margin, hs) && hits == SortBy(hs, ByQueue());
    var gs: seq<TriageHit> :| HitsInOrder(fs, patched, vuln, minSim, margin, gs) && swapped == SortBy(gs, ByQueue());
    forall i | 0 <= i < |fs|
      ensures gs[i] == Mirror(hs[i]) <==> !TwoFaced(fs[i], vuln, patched, minSim, margin)
      ensures MirrorOrAccused(hs[i], gs[i])
    {
      SwapIsOppositeIff(fs[i], vuln, patched, minSim, margin, hs[i], gs[i]);
    }
    SortBySorts(hs, ByQueue());
    SortBySorts(gs, ByQueue());
    MirrorsPermute(hs, hits);
    if i :| 0 <= i < |fs| && gs[i] != Mirror(hs[i]) {
      AccusationsPileUp(hs, gs);
      CountPermutes(gs, swapped, Accused());
      CountPermutes(Mirrors(hs), Mirrors(hits), Accused());
      assert fs[i] in fs;
      if multiset(swapped) == multiset(Mirrors(hits)) { CountPermutes(swapped, Mirrors(hits), Accused()); }
    } else {
      assert gs == Mirrors(hs);
    }
  }

  // Against two corpora with the same records no function is accused, exactly when the margin
  // is positive or the records come close to none.
  lemma SameCorporaAccuseNobodyIff(target: seq<IndexedFunc>, vuln: seq<FuncRec>, patched: seq<FuncRec>,
                                   minSim: real, margin: real, hits: seq<TriageHit>)
    requires SameRecords(vuln, patched)
    requires IsTriage(target, vuln, patched, minSim, margin, hits)
    ensures (forall h :: h in hits ==> h.verdict == Inconclusive) <==>
            margin > 0.0 || forall f :: f in Signals(target) ==> Closest(vuln, f) < minSim
  {
    hide IsHit, Closest, SameRecords, ByQueue;
    var fs := Signals(target);
    var hs: seq<TriageHit> :| HitsInOrder(fs, vuln, patched, minSim, margin, hs) && hits == SortBy(hs, ByQueue());
    SortBySorts(hs, ByQueue());
    forall i | 0 <= i < |fs| ensures hs[i].verdict == Inconclusive <==> margin > 0.0 || Closest(vuln, fs[i]) < minSim {
      SharedVerdict(fs[i], vuln, patched, minSim, margin, hs[i]);
    }
    SameVerdicts(hs, hits, margin > 0.0, fs, f => Closest(vuln, f) < minSim);
  }

  lemma SharedVerdict(f: IndexedFunc, vuln: seq<FuncRec>, patched: seq<FuncRec>, minSim: real, margin: real, h: TriageHit)
    requires SameRecords(vuln, patched) && IsHit(f, vuln, patched, minSim, margin, h)
    ensures h.verdict == Inconclusive <==> margin > 0.0 || Closest(vuln, f) < minSim
  {
    hide IsHit, Closest, SameRecords;
    HitReportsClosest(f, vuln, patched, minSim, margin, h);
    ClosestIsShared(f, vuln, patched);
  }

  lemma SameVerdicts(hs: seq<TriageHit>, hits: seq<TriageHit>, safe: bool, fs: seq<IndexedFunc>, far: IndexedFunc -> bool)
    requires |hs| == |fs| && multiset(hs) == multiset(hits)
    requires forall i :: 0 <= i < |fs| ==> (hs[i].verdict == Inconclusive <==> safe || far(fs[i]))
    ensures (forall h :: h in hits ==> h.verdict == Inconclusive) <==> safe || forall f :: f in fs ==> far(f)
  {
    SameElements(hs, hits);
    forall h | h in hits ensures exists i :: 0 <= i < |fs| && hs[i] == h { assert h in hs; }
    forall i | 0 <= i < |fs| ensures hs[i] in hits { assert hs[i] in hs; }
  }

  lemma ClosestIsShared(f: IndexedFunc, recs: seq<FuncRec>, recs2: seq<FuncRec>)
    requires SameRecords(recs, recs2)
    ensures Closest(recs, f) == Closest(recs2, f)
  {
    hide Similarity, Eligible, PoolFor;
    PoolDependsOnRecords(recs, recs2, f.fp);
    TopSimHolds(f.fp, PoolFor(recs, f.fp));
    TopSimHolds(f.fp, PoolFor(recs2, f.fp));
  }

  lemma OwnPoolIsOne(f: IndexedFunc, r: FuncRec)
    requires r.fp == f.fp && f.fp.sig != []
    ensures Similarity(f.fp, r.fp) == 1.0 && PoolFor([r], f.fp) == [r]
  {
    hide Agree, ShareBand;
    AgreeBounds(f.fp.sig, f.fp.sig);
    RatioBounds(|f.fp.sig|, |f.fp.sig|);
    AboveThreeQuartersShareABand(f.fp, r.fp);
    assert [r][..0] == [];
    assert SharingBand([r], f.fp) == SharingBand([r][..0], f.fp) + [r];
    assert SharingBand([r][..0], f.fp) == [];
  }

  // Without a positive margin a function that is the same in both corpora is accused.
  lemma SameRecordIsAccused(f: IndexedFunc, r: FuncRec, minSim: real, margin: real) returns (hits: seq<TriageHit>)
    requires A.Usable(f.fp) && r.fp == f.fp && f.fp.sig != [] && r.name.Some?
    requires minSim <= 1.0 && margin <= 0.0
    ensures IsTriage([f], [r], [r], minSim, margin, hits)
    ensures |hits| == 1 && hits[0].verdict == Vulnerable && hits[0].vulnSim == hits[0].patchedSim
  {
    hide Similarity, Better, PoolFor;
    OwnPoolIsOne(f, r);
    var best := Some(HitOf(f.fp, r));
    BetterTrichotomy(best.value, best.value);
    assert IsBest(f.fp, PoolFor([r], f.fp), best);
    var h := HitFor(f, best, best, minSim, margin);
    assert IsHit(f, [r], [r], minSim, margin, h);
    hits := [h];
    assert [f][..0] == [];
    assert Signals([f]) == [f];
    SortBySortedIsIdentity([h], ByQueue());
    assert HitsInOrder(Signals([f]), [r], [r], minSim, margin, [h]);
  }

  lemma QueueOrders()
    ensures TotalPreorder(ByQueue())
  {
  }

  // The queue is in review order and holds one hit per function with signal.
  lemma QueueIsOrdered(target: seq<IndexedFunc>, vuln: seq<FuncRec>, patched: seq<FuncRec>, minSim: real, margin: real,
                       hits: seq<TriageHit>)
    requires IsTriage(target, vuln, patched, minSim, margin, hits)
    ensures |hits| == |Signals(target)|
    ensures forall i, j :: 0 <= i < j < |hits| && hits[j].verdict == Vulnerable ==>
              hits[i].verdict == Vulnerable && hits[i].vulnSim >= hits[j].vulnSim
    ensures forall i, j :: 0 <= i < j < |hits| && hits[i].verdict == Patched ==> hits[j].verdict == Patched
    ensures forall i, j :: 0 <= i < j < |hits| && hits[i].verdict == hits[j].verdict ==>
              hits[i].vulnSim > hits[j].vulnSim || (hits[i].vulnSim == hits[j].vulnSim && hits[i].entry <= hits[j].entry)
  {
    hide IsHit;
    var hs: seq<TriageHit> :| HitsInOrder(Signals(target), vuln, patched, minSim, margin, hs) && hits == SortBy(hs, ByQueue());
    QueueOrders();
    SortBySorts(hs, ByQueue());
    forall i, j | 0 <= i < j < |hits|
      ensures hits[j].verdict == Vulnerable ==> hits[i].verdict == Vulnerable && hits[i].vulnSim >= hits[j].vulnSim
      ensures hits[i].verdict == Patched ==> hits[j].verdict == Patched
      ensures hits[i].verdict == hits[j].verdict ==>
                hits[i].vulnSim > hits[j].vulnSim || (hits[i].vulnSim == hits[j].vulnSim && hits[i].entry <= hits[j].entry)
    {
      assert ByQueue()(hits[i], hits[j]);
    }
  }

  predicate Askable(f: IndexedFunc) { f.fp.complexity >= 4 && f.fp.shingles > 0 }

  lemma {:induction false} SignalsAre(target: seq<IndexedFunc>)
    ensures forall f :: f in Signals(target) <==> f in target && Askable(f)
  {
    if target != [] {
      SignalsAre(target[..|target| - 1]);
      assert target == target[..|target| - 1] + [target[|target| - 1]];
    }
  }

  // Whoever has signal is reported, and nobody else.
  lemma QueueIsComplete(target: seq<IndexedFunc>, vuln: seq<FuncRec>, patched: seq<FuncRec>, minSim: real, margin: real,
                        hits: seq<TriageHit>)
    requires IsTriage(target, vuln, patched, minSim, margin, hits)
    ensures forall f :: f in target && Askable(f) ==> exists h :: h in hits && IsHit(f, vuln, patched, minSim, margin, h)
    ensures forall h :: h in hits ==> exists f :: f in target && Askable(f) && IsHit(f, vuln, patched, minSim, margin, h)
  {
    hide IsHit, Askable, ByQueue;
    var fs := Signals(target);
    var hs: seq<TriageHit> :| HitsInOrder(fs, vuln, patched, minSim, margin, hs) && hits == SortBy(hs, ByQueue());
    SortBySorts(hs, ByQueue());
    SignalsAre(target);
    forall f | f in target && Askable(f) ensures exists h :: h in hits && IsHit(f, vuln, patched, minSim, margin, h) {
      var i :| 0 <= i < |fs| && fs[i] == f;
      assert hs[i] in hs;
    }
    forall h | h in hits ensures exists f :: f in target && Askable(f) && IsHit(f, vuln, patched, minSim, margin, h) {
      assert h in hs;
      var i :| 0 <= i < |hs| && hs[i] == h;
      assert fs[i] in fs;
    }
  }
}
