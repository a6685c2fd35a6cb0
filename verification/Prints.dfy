/**
  crates/fnprint-sig: building a fingerprint from one run or from several.
 */
module Prints {
  import opened Machine
  import opened Trace
  import opened Sorting
  import opened Counting
  import opened Sig

  const U32_MOD: nat := 0x1_0000_0000

  ghost function ShinglesOfTrace(t: EffectTrace): set<bv64> { ShinglesOf(Tokens(t.effects)) }

  ghost function AllShingles(traces: seq<EffectTrace>): set<bv64> {
    set t, x | t in traces && x in ShinglesOfTrace(t) :: x
  }

  function Complexity32(t: EffectTrace): U32 { Complexity(t.effects) % U32_MOD }

  ghost predicate IsMaxComplexity(traces: seq<EffectTrace>, c: nat) {
    && (forall t :: t in traces ==> Complexity32(t) <= c)
    && (c == 0 || exists t :: t in traces && Complexity32(t) == c)
  }

  // fp is the print of the runs: the signature of the union of their shingles.
  ghost predicate IsPrint(traces: seq<EffectTrace>, fp: Fingerprint) {
    && IsSignature(AllShingles(traces), fp.sig)
    && fp.shingles == |AllShingles(traces)| % U32_MOD
    && IsMaxComplexity(traces, fp.complexity)
    && (fp.capped <==> exists t :: t in traces && t.capped)
  }

  method MeasureComplexity(effects: seq<Effect>) returns (c: nat)
    ensures c == Complexity(effects)
  {
    c := 0;
    for i := 0 to |effects|
      invariant c == Complexity(effects[..i])
    {
      assert effects[..i + 1][..i] == effects[..i];
      c := c + Weight(effects[i]);
    }
    assert effects[..|effects|] == effects;
  }

  // What a trace is worth: three for each call or syscall, two for each write or first touch, one
  // for each read and for each return of something that came in.
  lemma {:induction false} ComplexityCounts(effects: seq<Effect>)
    ensures Complexity(effects) ==
            3 * Count(effects, (e: Effect) => e.Call? || e.Syscall?)
            + 2 * Count(effects, (e: Effect) => e.Write? || e.NewRegion?)
            + Count(effects, (e: Effect) => e.Read? || (e.Ret? && (e.rv.Input? || e.rv.InputDeriv?)))
  {
    if effects != [] { ComplexityCounts(effects[..|effects| - 1]); }
  }

  method TraceShingles(t: EffectTrace) returns (r: seq<bv64>)
    ensures Elements(r) == ShinglesOfTrace(t) && |r| == |ShinglesOfTrace(t)|
  {
    hide ShinglesOf;
    r := ShingleSet(Tokens(t.effects));
  }

  method FromTrace(t: EffectTrace) returns (fp: Fingerprint)
    ensures IsPrint([t], fp)
  {
    hide IsSignature, ShinglesOfTrace, Complexity;
    var shingles := TraceShingles(t);
    var sig := MinHash(shingles);
    var c := MeasureComplexity(t.effects);
    fp := Fingerprint(sig, |shingles| % U32_MOD, c % U32_MOD, t.capped);
    AllShinglesSnoc([], t);
    assert [] + [t] == [t];
    assert t in [t];
  }

  method FromTraces(traces: seq<EffectTrace>) returns (fp: Fingerprint)
    ensures IsPrint(traces, fp)
  {
    hide IsSignature, ShinglesOfTrace, AllShingles, IsMaxComplexity, Complexity;
    var all: seq<bv64> := [];
    var complexity: U32 := 0;
    var capped := false;
    assert traces[..0] == [];
    NoTraces();
    for i := 0 to |traces|
      invariant Elements(all) == AllShingles(traces[..i])
      invariant IsMaxComplexity(traces[..i], complexity)
      invariant capped <==> exists t :: t in traces[..i] && t.capped
    {
      var t := traces[i];
      var shingles := TraceShingles(t);
      var c := MeasureComplexity(t.effects);
      ElementsConcat(all, shingles);
      AllShinglesSnoc(traces[..i], t);
      MaxComplexitySnoc(traces[..i], t, complexity);
      assert traces[..i + 1] == traces[..i] + [t];
      all := all + shingles;
      if complexity < c % U32_MOD {
        complexity := c % U32_MOD;
      }
      capped := capped || t.capped;
    }
    assert traces[..|traces|] == traces;
    all := SortAndDedup(all);
    var sig := MinHash(all);
    fp := Fingerprint(sig, |all| % U32_MOD, complexity, capped);
  }

  lemma NoTraces()
    ensures AllShingles([]) == {} && IsMaxComplexity([], 0)
  {
  }

  lemma ElementsConcat<T>(s: seq<T>, t: seq<T>)
    ensures Elements(s + t) == Elements(s) + Elements(t)
  {
  }

  lemma AllShinglesSnoc(ts: seq<EffectTrace>, t: EffectTrace)
    ensures AllShingles(ts + [t]) == AllShingles(ts) + ShinglesOfTrace(t)
  {
    hide ShinglesOfTrace;
    assert forall u :: u in ts + [t] <==> u in ts || u == t;
    forall x | x in AllShingles(ts) + ShinglesOfTrace(t) ensures x in AllShingles(ts + [t]) {
      if x in ShinglesOfTrace(t) {
        assert t in ts + [t];
      } else {
        var u :| u in ts && x in ShinglesOfTrace(u);
        assert u in ts + [t];
      }
    }
  }

  lemma MaxComplexitySnoc(ts: seq<EffectTrace>, t: EffectTrace, c: nat)
    requires IsMaxComplexity(ts, c)
    ensures IsMaxComplexity(ts + [t], if c < Complexity32(t) then Complexity32(t) else c)
  {
    hide Complexity;
    assert forall u :: u in ts + [t] <==> u in ts || u == t;
    if c > 0 && c >= Complexity32(t) {
      var u :| u in ts && Complexity32(u) == c;
      assert u in ts + [t];
    } else {
      assert t in ts + [t];
    }
  }

  // The print is a function of the set of runs: order and repetition do not matter,
  // and one run printed alone or in a list of one prints the same.
  lemma PrintDependsOnSetOfTraces(ts: seq<EffectTrace>, us: seq<EffectTrace>, f: Fingerprint, g: Fingerprint)
    requires forall t :: t in ts <==> t in us
    requires IsPrint(ts, f) && IsPrint(us, g)
    ensures f == g
  {
    hide IsSignature, ShinglesOfTrace;
    assert AllShingles(ts) == AllShingles(us);
    SignatureIsUnique(AllShingles(ts), f.sig, g.sig);
  }

  // Adding runs to a print only moves it away from where it started.
  lemma MoreTracesMoveAway(ts: seq<EffectTrace>, us: seq<EffectTrace>, vs: seq<EffectTrace>,
                           f: Fingerprint, g: Fingerprint, h: Fingerprint)
    requires forall t :: t in ts ==> t in us
    requires forall t :: t in us ==> t in vs
    requires IsPrint(ts, f) && IsPrint(us, g) && IsPrint(vs, h)
    requires AllShingles(ts) != {}
    ensures Similarity(f, h) <= Similarity(f, g)
    ensures Similarity(f, h) <= Similarity(g, h)
  {
    hide IsSignature, ShinglesOfTrace;
    assert AllShingles(ts) <= AllShingles(us) <= AllShingles(vs);
    NestedPrints(AllShingles(ts), AllShingles(us), AllShingles(vs), f.sig, g.sig, h.sig);
  }
}
