/**
  From the loader to the alignment: what indexing leaves of an image meets every condition
  the results on align ask for, so the diff of two indexed builds needs none.
 */
module Builds {
  import opened Machine
  import opened Sorting
  import opened Sig
  import opened Assign
  import opened Align
  import opened AlignTheorems
  import opened Reorder
  import opened Renumber
  import opened Indexed
  import opened Report
  import opened Shards
  import G = Graph
  import Loader

  // A function list that indexing leaves of some image, whatever was found and observed there.
  ghost predicate IsBuild(fs: seq<IndexedFunc>) {
    exists job, found, seen :: LoadedJob(job, found, seen) && fs == Whole(job)
  }

  // The merged replies of any number of workers are such a list.
  lemma MergedIsBuild(job: Job, found: seq<Loader.Func>, seen: Observed, n: nat)
    requires LoadedJob(job, found, seen) && 1 <= n <= U64_MAX
    ensures IsBuild(SortBy(Gathered(Replies(job, n)), ByCanon()))
  {
    LoadedCorpusIgnoresShardCount(job, found, seen, n);
  }

  // Entries ascend, and so does every callee list; no entry and no callee stands twice.
  lemma BuildIsInOrder(fs: seq<IndexedFunc>)
    requires IsBuild(fs)
    ensures DistinctEntries(Nodes(fs)) && DistinctKeys(Nodes(fs))
    ensures CorpusOrder(Nodes(fs)) && NoRepeatedCallees(Nodes(fs))
  {
    var job, found, seen :| LoadedJob(job, found, seen) && fs == Whole(job);
    var ns := Nodes(fs);
    EntriesOfBuild(job, found, seen);
    forall i | 0 <= i < |ns| ensures Ascending(ns[i].callees) {
      CalleesOfBuild(job, found, seen, i);
    }
  }

  lemma EntriesOfBuild(job: Job, found: seq<Loader.Func>, seen: Observed)
    requires LoadedJob(job, found, seen)
    ensures forall i, j :: 0 <= i < j < |Whole(job)| ==> Whole(job)[i].entry < Whole(job)[j].entry
    ensures forall i :: 0 <= i < |Whole(job)| ==> FromJob(job, |job.funcs|, Whole(job)[i])
  {
    hide LoadedJob;
    LoadedJobIsProper(job, found, seen);
    ShardHolds(job, |job.funcs|, 0, 1);
  }

  lemma CalleesOfBuild(job: Job, found: seq<Loader.Func>, seen: Observed, i: nat)
    requires LoadedJob(job, found, seen) && i < |Whole(job)|
    ensures Ascending(Whole(job)[i].callees)
  {
    hide Loader.FinalFuncs, BestCoverage, EdgesOf, Whole;
    EntriesOfBuild(job, found, seen);
    assert FromJob(job, |job.funcs|, Whole(job)[i]);
    var m :| 0 <= m < |job.funcs| && Whole(job)[i] == job.index(job.funcs[m]);
    var f := job.funcs[m];
    assert IndexedFrom(f, seen.swept(f), seen.runs(f), job.index(f));
    EdgesHold(f.entry, seen.swept(f), seen.runs(f));
  }

  // The diff of two indexed builds: the graph score of a pair lies in [0, 1], the graph lifts a
  // pair to the threshold by the weight at most, and the first build may stand in any order.
  lemma DiffOfBuilds(fa: seq<IndexedFunc>, fb: seq<IndexedFunc>, graphWeight: real, a2: seq<Node>)
    requires IsBuild(fa) && IsBuild(fb) && multiset(a2) == multiset(Nodes(fa))
    ensures var a, b, o := Nodes(fa), Nodes(fb), MatchOpts(graphWeight);
            && (forall p :: p in Aligned(a, b, o) ==> 0.0 <= p.graph <= 1.0 && p.sim >= 0.45 - Weight(o))
            && Reported(a, b, o) == Reported(a2, b, o)
  {
    hide Aligned, IsBuild, CorpusOrder, NoRepeatedCallees, SearchedAlike, Reported;
    var a, b, o := Nodes(fa), Nodes(fb), MatchOpts(graphWeight);
    BuildIsInOrder(fa);
    BuildIsInOrder(fb);
    GraphLiftIsBounded(a, b, o);
    KeysReorder(b, b);
    SameOrderIsSearchedAlike(b);
    AlignIgnoresInputOrder(a, b, a2, b, o);
  }

  // And every graph score in the diff is the Dice coefficient under the assignment of round one; so
  // it is in an evaluation.
  lemma DiffReportsDice(fa: seq<IndexedFunc>, fb: seq<IndexedFunc>, graphWeight: real, o: Opts)
    requires IsBuild(fa) && IsBuild(fb) && graphWeight > 0.0
    requires o == MatchOpts(graphWeight) || o == EvalOpts(graphWeight)
    ensures var a, b := Nodes(fa), Nodes(fb);
            var s := SettingOf(a, b, graphWeight);
            var last := Round(s, Assigned(s, CandList(a, b, |a|))).assign;
            forall p :: p in Aligned(a, b, o) ==> p.a < |a| && p.b < |b| && p.graph == DiceUnder(s, p.a, p.b, last)
  {
    hide Aligned, IsBuild, CorpusOrder, NoRepeatedCallees, CandList, Assigned, Round, DiceUnder, SettingOf;
    BuildIsInOrder(fa);
    BuildIsInOrder(fb);
    ReportedGraphIsDice(Nodes(fa), Nodes(fb), o);
    var s := SettingOf(Nodes(fa), Nodes(fb), graphWeight);
    assert Rounds(s, Assigned(s, CandList(Nodes(fa), Nodes(fb), |fa|)), 1)
        == Round(s, Assigned(s, CandList(Nodes(fa), Nodes(fb), |fa|)));
  }

  // The diff pairs from a score of 0.45 on, an evaluation from 0.2 on; neither leaves out two
  // functions that may be paired and are that similar, unless one of them is in a better pair.
  lemma ThresholdsAre(fa: seq<IndexedFunc>, fb: seq<IndexedFunc>, graphWeight: real)
    ensures var a, b := Nodes(fa), Nodes(fb);
            && (forall p :: p in Aligned(a, b, MatchOpts(graphWeight)) ==> p.score >= 0.45)
            && (forall p :: p in Aligned(a, b, EvalOpts(graphWeight)) ==> p.score >= 0.2)
            && (forall i, j :: 0 <= i < |a| && 0 <= j < |b| && MayPair(a, b, i, j) && Similarity(a[i].fp, b[j].fp) >= 0.45 ==>
                  exists p :: p in Aligned(a, b, MatchOpts(graphWeight)) && Covered(p, i, j, Similarity(a[i].fp, b[j].fp)))
            && (forall i, j :: 0 <= i < |a| && 0 <= j < |b| && MayPair(a, b, i, j) ==>
                  exists p :: p in Aligned(a, b, EvalOpts(graphWeight)) && Covered(p, i, j, Similarity(a[i].fp, b[j].fp)))
  {
    hide Aligned, MayPair, Covered, Similarity, Nodes;
    var a, b := Nodes(fa), Nodes(fb);
    AlignedIsSound(a, b, MatchOpts(graphWeight));
    AlignedIsSound(a, b, EvalOpts(graphWeight));
    forall i, j | 0 <= i < |a| && 0 <= j < |b| && MayPair(a, b, i, j)
      ensures Similarity(a[i].fp, b[j].fp) >= 0.45 ==>
                exists p :: p in Aligned(a, b, MatchOpts(graphWeight)) && Covered(p, i, j, Similarity(a[i].fp, b[j].fp))
      ensures exists p :: p in Aligned(a, b, EvalOpts(graphWeight)) && Covered(p, i, j, Similarity(a[i].fp, b[j].fp))
    {
      ReachesFloor(a, b, i, j);
      if Similarity(a[i].fp, b[j].fp) >= 0.45 { NoPairIsLost(a, b, MatchOpts(graphWeight), i, j); }
      NoPairIsLost(a, b, EvalOpts(graphWeight), i, j);
    }
  }

  lemma ReachesFloor(a: seq<Node>, b: seq<Node>, i: nat, j: nat)
    requires i < |a| && j < |b| && MayPair(a, b, i, j)
    ensures Similarity(a[i].fp, b[j].fp) >= 0.2
  {
  }
}
