/**
  crates/fnprint-core: the best named record for one print.
 */
module Search {
  import opened Wrappers
  import opened Sorting
  import opened Sig
  import opened Bands
  import opened Corpus
  import opened Align

  // ---------- best_in_corpus ----------

  datatype Hit = Hit(sim: real, name: string, binary: string)

  predicate Eligible(r: FuncRec) {
    r.fp.complexity >= MIN_COMPLEXITY && r.name.Some?
  }

  function HitOf(fp: Fingerprint, r: FuncRec): Hit
    requires Eligible(r)
  {
    Hit(Similarity(fp, r.fp), r.name.value, r.binary)
  }

  // More similar, then the smaller (name, binary).
  predicate Better(h: Hit, g: Hit) {
    || h.sim > g.sim
    || (h.sim == g.sim && (StrLess(h.name, g.name) || (h.name == g.name && StrLess(h.binary, g.binary))))
  }

  lemma BetterTrichotomy(h: Hit, g: Hit)
    ensures !(Better(h, g) && Better(g, h))
    ensures Better(h, g) || Better(g, h) || h == g
  {
    StrLessTotal(h.name, g.name);
    StrLessTotal(h.binary, g.binary);
    StrLessIrreflexive(h.name);
    StrLessIrreflexive(h.binary);
    if StrLess(h.name, g.name) && StrLess(g.name, h.name) { StrLessTransitive(h.name, g.name, h.name); }
    if StrLess(h.binary, g.binary) && StrLess(g.binary, h.binary) { StrLessTransitive(h.binary, g.binary, h.binary); }
  }

  lemma BetterTransitive(h: Hit, g: Hit, f: Hit)
    requires Better(h, g) && Better(g, f)
    ensures Better(h, f)
  {
    if StrLess(h.name, g.name) && StrLess(g.name, f.name) { StrLessTransitive(h.name, g.name, f.name); }
    if StrLess(h.binary, g.binary) && StrLess(g.binary, f.binary) { StrLessTransitive(h.binary, g.binary, f.binary); }
  }

  // best is what no eligible record of the pool beats; None only when there is none.
  ghost predicate IsBest(fp: Fingerprint, pool: seq<FuncRec>, best: Option<Hit>) {
    match best
    case None => forall r :: r in pool ==> !Eligible(r)
    case Some(h) =>
      && (exists r :: r in pool && Eligible(r) && HitOf(fp, r) == h)
      && (forall r :: r in pool && Eligible(r) ==> !Better(HitOf(fp, r), h))
  }

  lemma BestSnoc(fp: Fingerprint, pool: seq<FuncRec>, best: Option<Hit>, c: FuncRec)
    requires IsBest(fp, pool, best)
    ensures IsBest(fp, pool + [c],
                   if Eligible(c) && (best.None? || Better(HitOf(fp, c), best.value)) then Some(HitOf(fp, c)) else best)
  {
    hide Better, Similarity;
    assert forall r :: r in pool + [c] <==> r in pool || r == c;
    if Eligible(c) {
      var h := HitOf(fp, c);
      BetterTrichotomy(h, h);
      if best.Some? && Better(h, best.value) {
        BetterTrichotomy(h, best.value);
        forall r | r in pool && Eligible(r) ensures !Better(HitOf(fp, r), h) {
          if Better(HitOf(fp, r), h) { BetterTransitive(HitOf(fp, r), h, best.value); }
        }
      }
    }
    if best.Some? {
      var r :| r in pool && Eligible(r) && HitOf(fp, r) == best.value;
      assert r in pool + [c];
    }
  }

  // What the best hit is: the name and binary of an eligible record as similar as any; of equally
  // similar ones it has the least name, and of those the least binary.
  lemma BestIs(fp: Fingerprint, pool: seq<FuncRec>, best: Option<Hit>)
    requires IsBest(fp, pool, best)
    ensures best.None? ==> forall r :: r in pool ==> r.name.None? || r.fp.complexity < 4
    ensures best.Some? ==> exists r :: r in pool && r.fp.complexity >= 4 && r.name == Some(best.value.name)
                                       && r.binary == best.value.binary && Similarity(fp, r.fp) == best.value.sim
    ensures best.Some? ==> forall r :: r in pool && r.fp.complexity >= 4 && r.name.Some? ==> Similarity(fp, r.fp) <= best.value.sim
    ensures best.Some? ==> forall r :: r in pool && r.fp.complexity >= 4 && r.name.Some? && Similarity(fp, r.fp) == best.value.sim ==>
              !StrLess(r.name.value, best.value.name)
              && (r.name.value == best.value.name ==> !StrLess(r.binary, best.value.binary))
  {
    hide Similarity;
    if best.Some? {
      forall r | r in pool && r.fp.complexity >= 4 && r.name.Some? ensures !Better(HitOf(fp, r), best.value) {
        assert Eligible(r);
      }
    }
  }

  method BestInCorpus(fp: Fingerprint, corpus: MemCorpus, all: seq<FuncRec>) returns (best: Option<Hit>)
    requires corpus.Valid()
    ensures var cands := SharingBand(corpus.recs, fp); IsBest(fp, if cands == [] then all else cands, best)
  {
    hide Better, Similarity, Eligible, SharingBand, IsBest;
    var cands := corpus.Candidates(fp);
    var pool := if cands == [] then all else cands;
    best := None;
    NoneIsBestOfNothing(fp);
    for i := 0 to |pool|
      invariant IsBest(fp, pool[..i], best)
    {
      var c := pool[i];
      BestSnoc(fp, pool[..i], best, c);
      assert pool[..i + 1] == pool[..i] + [c];
      if !Eligible(c) {
        continue;
      }
      var h := HitOf(fp, c);
      var better := match best
        case None => true
        case Some(g) => Better(h, g);
      if better {
        best := Some(h);
      }
    }
    assert pool[..|pool|] == pool;
  }

  lemma NoneIsBestOfNothing(fp: Fingerprint)
    ensures IsBest(fp, [], None)
  {
  }

  // The best hit is one and the same however the pool is ordered.
  lemma BestIgnoresPoolOrder(fp: Fingerprint, p: seq<FuncRec>, q: seq<FuncRec>, x: Option<Hit>, y: Option<Hit>)
    requires forall r :: r in p <==> r in q
    requires IsBest(fp, p, x) && IsBest(fp, q, y)
    ensures x == y
  {
    hide Better, Similarity, Eligible;
    if x.Some? && y.Some? {
      BetterTrichotomy(x.value, y.value);
    }
  }

  // If any eligible record is more than 3/4 similar, searching the band hits gives
  // exactly the answer of searching everything.
  lemma IndexedSearchIsFullScan(fp: Fingerprint, all: seq<FuncRec>, best: Option<Hit>, close: FuncRec)
    requires close in all && Eligible(close) && Similarity(fp, close.fp) > 0.75
    ensures SharingBand(all, fp) != []
    ensures IsBest(fp, SharingBand(all, fp), best) <==> IsBest(fp, all, best)
  {
    hide Similarity, ShareBand, Eligible;
    var near := SharingBand(all, fp);
    SharingBandHolds(all, fp);
    AboveThreeQuartersShareABand(fp, close.fp);
    assert close in near;
    var h := HitOf(fp, close);
    if IsBest(fp, near, best) {
      var g := best.value;
      forall r | r in all && Eligible(r) ensures !Better(HitOf(fp, r), g) {
        if Similarity(fp, r.fp) > 0.75 {
          AboveThreeQuartersShareABand(fp, r.fp);
          assert r in near;
        } else {
          assert h.sim > HitOf(fp, r).sim;
          assert !Better(h, g);
        }
      }
    }
    if IsBest(fp, all, best) {
      var g := best.value;
      var r :| r in all && Eligible(r) && HitOf(fp, r) == g;
      assert !Better(h, g);
      assert Similarity(fp, r.fp) > 0.75;
      AboveThreeQuartersShareABand(fp, r.fp);
      assert r in near;
    }
  }

  // The method's answer, with the named records of the corpus as its fallback pool.
  lemma CloseRecordMakesSearchExact(fp: Fingerprint, recs: seq<FuncRec>, all: seq<FuncRec>, best: Option<Hit>, close: FuncRec)
    requires forall r :: r in all <==> r in recs && r.name.Some?
    requires close in all && Eligible(close) && Similarity(fp, close.fp) > 0.75
    requires IsBest(fp, if SharingBand(recs, fp) == [] then all else SharingBand(recs, fp), best)
    ensures IsBest(fp, all, best)
  {
    hide Better, Similarity, SharingBand;
    IndexedSearchIsFullScan(fp, recs, best, close);
  }
}
