/**
  crates/fnprint-core: the two reports read off an alignment, the name-free diff of
  two builds and the accuracy evaluation, and why their counters always add up.
 */
module Report {
  import opened Wrappers
  import opened Sorting
  import opened Counting
  import opened Sig
  import opened Assign
  import opened Align
  import opened AlignTheorems
  import opened Indexed

  const SAME_THRESH: real := 0.88

  function NodeOf(f: IndexedFunc): Node { Node(f.fp, f.entry, f.callees, f.name, "") }

  function Nodes(fs: seq<IndexedFunc>): (r: seq<Node>)
    ensures |r| == |fs|
  {
    seq(|fs|, i requires 0 <= i < |fs| => NodeOf(fs[i]))
  }

  // ---------- match_aligned ----------

  datatype Changed = Changed(name: string, similarity: real, entryA: nat, entryB: nat)

  datatype MatchReport = MatchReport(
    same: nat, changed: seq<Changed>, onlyA: seq<string>, onlyB: seq<string>, compared: nat, lowSignal: nat)

  function HexDigits(n: nat): string {
    (if n < 16 then "" else HexDigits(n / 16)) + ["0123456789abcdef"[n % 16]]
  }

  function HexDigit(c: char): nat {
    if '0' <= c <= '9' then c as int - '0' as int else if 'a' <= c <= 'f' then c as int - 'a' as int + 10 else 0
  }

  function HexValue(s: string): nat {
    if s == [] then 0 else HexValue(s[..|s| - 1]) * 16 + HexDigit(s[|s| - 1])
  }

  // A printed entry can be read back, and has no digit to spare.
  lemma {:induction false} HexReadsBack(n: nat)
    ensures HexValue(HexDigits(n)) == n
    ensures |HexDigits(n)| >= 1 && (n > 0 ==> HexDigits(n)[0] != '0')
  {
    var s := HexDigits(n);
    assert HexDigit("0123456789abcdef"[n % 16]) == n % 16;
    if n >= 16 {
      HexReadsBack(n / 16);
      assert s[..|s| - 1] == HexDigits(n / 16);
      assert s[0] == HexDigits(n / 16)[0];
    }
  }

  function Hex(n: nat): string { "0x" + HexDigits(n) }

  function Label(f: IndexedFunc): string {
    match f.name case Some(n) => n case None => Hex(f.entry)
  }

  function PairLabel(x: IndexedFunc, y: IndexedFunc): string {
    match (x.name, y.name)
    case (Some(n), Some(m)) => if n == m then n else n + " -> " + m
    case (Some(n), None) => n
    case (None, Some(m)) => m
    case (None, None) => Hex(x.entry) + " -> " + Hex(y.entry)
  }

  function ByChange(): (Changed, Changed) -> bool {
    (x: Changed, y: Changed) =>
      x.similarity < y.similarity || (x.similarity == y.similarity && !StrLess(y.name, x.name))
  }

  function StrLe(): (string, string) -> bool { (x: string, y: string) => !StrLess(y, x) }

  predicate IsSame(p: Pair) { p.sim >= SAME_THRESH }

  predicate LowSignal(f: IndexedFunc) { !Usable(f.fp) }

  // The pairs below the threshold, labelled.
  function ChangedOf(ps: seq<Pair>, a: seq<IndexedFunc>, b: seq<IndexedFunc>): seq<Changed>
    requires PairsInRange(ps, a, b)
  {
    if ps == [] then []
    else
      var p := ps[|ps| - 1];
      ChangedOf(ps[..|ps| - 1], a, b) +
      if IsSame(p) then [] else [Changed(PairLabel(a[p.a], b[p.b]), p.sim, a[p.a].entry, b[p.b].entry)]
  }

  // What the report says of a changed pair: both names if they differ, the one name there is, or
  // both entries; the prints' similarity, and where either function stands.
  ghost predicate Describes(c: Changed, p: Pair, x: IndexedFunc, y: IndexedFunc) {
    && c.similarity == p.sim && c.entryA == x.entry && c.entryB == y.entry
    && (x.name.Some? && y.name == x.name ==> c.name == x.name.value)
    && (x.name.Some? && y.name.Some? && y.name != x.name ==> c.name == x.name.value + " -> " + y.name.value)
    && (x.name.Some? && y.name.None? ==> c.name == x.name.value)
    && (x.name.None? && y.name.Some? ==> c.name == y.name.value)
    && (x.name.None? && y.name.None? ==> c.name == Hex(x.entry) + " -> " + Hex(y.entry))
  }

  // The pairs below the threshold of sameness, in order.
  function ChangedPairs(ps: seq<Pair>): seq<Pair> {
    if ps == [] then []
    else ChangedPairs(ps[..|ps| - 1]) + if ps[|ps| - 1].sim < 0.88 then [ps[|ps| - 1]] else []
  }

  // One entry for each of them.
  lemma {:induction false} ChangedAre(ps: seq<Pair>, a: seq<IndexedFunc>, b: seq<IndexedFunc>)
    requires PairsInRange(ps, a, b)
    ensures PairsInRange(ChangedPairs(ps), a, b)
    ensures |ChangedOf(ps, a, b)| == |ChangedPairs(ps)|
    ensures forall k :: 0 <= k < |ChangedPairs(ps)| ==>
              Describes(ChangedOf(ps, a, b)[k], ChangedPairs(ps)[k], a[ChangedPairs(ps)[k].a], b[ChangedPairs(ps)[k].b])
  {
    hide PairLabel, Describes;
    if ps != [] {
      var n := |ps| - 1;
      ChangedAre(ps[..n], a, b);
      LabelDescribes(ps[n], a[ps[n].a], b[ps[n].b]);
    }
  }

  lemma LabelDescribes(p: Pair, x: IndexedFunc, y: IndexedFunc)
    ensures Describes(Changed(PairLabel(x, y), p.sim, x.entry, y.entry), p, x, y)
  {
  }

  // The functions with signal among the first n that took no part in a pair.
  function Unpaired(fs: seq<IndexedFunc>, taken: set<nat>, n: nat): seq<string>
    requires n <= |fs|
  {
    if n == 0 then []
    else
      Unpaired(fs, taken, n - 1) +
      if n - 1 !in taken && Usable(fs[n - 1].fp) then [Label(fs[n - 1])] else []
  }

  // Each function with signal that nobody took is listed, by its name or else its entry.
  lemma {:induction false} UnpairedAre(fs: seq<IndexedFunc>, taken: set<nat>, n: nat)
    requires n <= |fs|
    ensures forall s :: s in Unpaired(fs, taken, n) <==>
              exists i :: 0 <= i < n && i !in taken && fs[i].fp.complexity >= 4 && fs[i].fp.shingles > 0
                          && s == if fs[i].name.Some? then fs[i].name.value else Hex(fs[i].entry)
  {
    hide Hex;
    if n > 0 { UnpairedAre(fs, taken, n - 1); }
  }

  function SidesA(ps: seq<Pair>): set<nat> { set p | p in ps :: p.a }

  function SidesB(ps: seq<Pair>): set<nat> { set p | p in ps :: p.b }

  const MATCH_THRESHOLD: real := 0.45

  function MatchOpts(graphWeight: real): Opts { Opts(MATCH_THRESHOLD, graphWeight, 2) }

  // The report that belongs to a list of accepted pairs.
  function ReportOf(ps: seq<Pair>, a: seq<IndexedFunc>, b: seq<IndexedFunc>): MatchReport
    requires PairsInRange(ps, a, b)
  {
    MatchReport(
      Count(ps, (p: Pair) => IsSame(p)),
      SortBy(ChangedOf(ps, a, b), ByChange()),
      SortBy(Unpaired(a, SidesA(ps), |a|), StrLe()),
      SortBy(Unpaired(b, SidesB(ps), |b|), StrLe()),
      |ps|,
      Count(a, (f: IndexedFunc) => LowSignal(f)))
  }

  method ReadPairs(pairs: seq<Pair>, a: seq<IndexedFunc>, b: seq<IndexedFunc>, aPaired: array<bool>, bPaired: array<bool>)
    returns (same: nat, compared: nat, changed: seq<Changed>)
    requires PairsInRange(pairs, a, b)
    requires aPaired.Length == |a| && bPaired.Length == |b| && aPaired != bPaired
    requires forall i :: 0 <= i < |a| ==> !aPaired[i]
    requires forall j :: 0 <= j < |b| ==> !bPaired[j]
    modifies aPaired, bPaired
    ensures compared == |pairs|
    ensures same == Count(pairs, (p: Pair) => IsSame(p))
    ensures changed == ChangedOf(pairs, a, b)
    ensures forall i :: 0 <= i < |a| ==> (aPaired[i] <==> i in SidesA(pairs))
    ensures forall j :: 0 <= j < |b| ==> (bPaired[j] <==> j in SidesB(pairs))
  {
    hide PairLabel, ChangedOf, Count;
    same, compared, changed := 0, 0, [];
    NothingRead(a, b);
    for k := 0 to |pairs|
      invariant compared == k
      invariant same == Count(pairs[..k], (p: Pair) => IsSame(p))
      invariant changed == ChangedOf(pairs[..k], a, b)
      invariant forall i :: 0 <= i < |a| ==> (aPaired[i] <==> i in SidesA(pairs[..k]))
      invariant forall j :: 0 <= j < |b| ==> (bPaired[j] <==> j in SidesB(pairs[..k]))
    {
      var p := pairs[k];
      assert pairs[..k + 1][..k] == pairs[..k];
      SidesSnoc(pairs[..k], p);
      PairRead(pairs[..k], p, a, b);
      assert pairs[..k + 1] == pairs[..k] + [p];
      hide SidesA, SidesB;
      aPaired[p.a] := true;
      bPaired[p.b] := true;
      compared := compared + 1;
      if IsSame(p) {
        same := same + 1;
      } else {
        changed := changed + [Changed(PairLabel(a[p.a], b[p.b]), p.sim, a[p.a].entry, b[p.b].entry)];
      }
    }
    assert pairs[..|pairs|] == pairs;
  }

  lemma NothingRead(a: seq<IndexedFunc>, b: seq<IndexedFunc>)
    ensures Count([], (p: Pair) => IsSame(p)) == 0 && ChangedOf([], a, b) == []
  {
  }

  lemma PairRead(ps: seq<Pair>, p: Pair, a: seq<IndexedFunc>, b: seq<IndexedFunc>)
    requires PairsInRange(ps, a, b) && p.a < |a| && p.b < |b|
    ensures PairsInRange(ps + [p], a, b)
    ensures Count(ps + [p], (p: Pair) => IsSame(p)) == Count(ps, (p: Pair) => IsSame(p)) + if IsSame(p) then 1 else 0
    ensures ChangedOf(ps + [p], a, b) ==
            ChangedOf(ps, a, b) +
            if IsSame(p) then [] else [Changed(PairLabel(a[p.a], b[p.b]), p.sim, a[p.a].entry, b[p.b].entry)]
  {
    hide PairLabel;
    assert (ps + [p])[..|ps|] == ps;
  }

  method CountLowSignal(a: seq<IndexedFunc>) returns (n: nat)
    ensures n == Count(a, (f: IndexedFunc) => LowSignal(f))
  {
    n := 0;
    for i := 0 to |a|
      invariant n == Count(a[..i], (f: IndexedFunc) => LowSignal(f))
    {
      assert a[..i + 1][..i] == a[..i];
      if LowSignal(a[i]) {
        n := n + 1;
      }
    }
    assert a[..|a|] == a;
  }

  // The name-free diff. Every function of both builds is accounted for once.
  method MatchAligned(a: seq<IndexedFunc>, b: seq<IndexedFunc>, graphWeight: real) returns (rep: MatchReport)
    ensures PairsInRange(Aligned(Nodes(a), Nodes(b), MatchOpts(graphWeight)), a, b)
    ensures rep == ReportOf(Aligned(Nodes(a), Nodes(b), MatchOpts(graphWeight)), a, b)
    ensures rep.compared == rep.same + |rep.changed|
    ensures |a| == rep.compared + |rep.onlyA| + rep.lowSignal
    ensures |b| == rep.compared + |rep.onlyB| + Count(b, (f: IndexedFunc) => LowSignal(f))
  {
    hide Aligned, Usable, Label, Unpaired, ChangedOf, SidesA, SidesB;
    var pairs := Align.Align(Nodes(a), Nodes(b), MatchOpts(graphWeight));
    PairsAreUsable(a, b, MatchOpts(graphWeight));
    var aPaired := new bool[|a|](_ => false);
    var bPaired := new bool[|b|](_ => false);
    var same, compared, changed := ReadPairs(pairs, a, b, aPaired, bPaired);
    var onlyA := CollectUnpaired(a, aPaired, SidesA(pairs));
    var onlyB := CollectUnpaired(b, bPaired, SidesB(pairs));
    var lowSignal := CountLowSignal(a);
    rep := MatchReport(same, SortBy(changed, ByChange()), SortBy(onlyA, StrLe()), SortBy(onlyB, StrLe()), compared, lowSignal);
    ReportBalances(pairs, a, b);
  }

  // The three sums, for any 1:1 list of pairs of functions with signal.
  lemma ReportBalances(ps: seq<Pair>, a: seq<IndexedFunc>, b: seq<IndexedFunc>)
    requires PairsInRange(ps, a, b) && OneToOnePairs(ps)
    requires forall i :: i in SidesA(ps) ==> i < |a| && Usable(a[i].fp)
    requires forall j :: j in SidesB(ps) ==> j < |b| && Usable(b[j].fp)
    ensures var rep := ReportOf(ps, a, b);
            && rep.compared == rep.same + |rep.changed|
            && |a| == rep.compared + |rep.onlyA| + rep.lowSignal
            && |b| == rep.compared + |rep.onlyB| + Count(b, (f: IndexedFunc) => LowSignal(f))
  {
    hide Unpaired, ChangedOf, SidesA, SidesB;
    LengthOfSort(ChangedOf(ps, a, b), ByChange());
    LengthOfSort(Unpaired(a, SidesA(ps), |a|), StrLe());
    LengthOfSort(Unpaired(b, SidesB(ps), |b|), StrLe());
    ChangedCount(ps, a, b);
    SidesCard(ps);
    Balance(a, SidesA(ps));
    Balance(b, SidesB(ps));
  }

  method CollectUnpaired(fs: seq<IndexedFunc>, paired: array<bool>, ghost taken: set<nat>) returns (only: seq<string>)
    requires paired.Length == |fs|
    requires forall i :: 0 <= i < |fs| ==> (paired[i] <==> i in taken)
    ensures only == Unpaired(fs, taken, |fs|)
  {
    hide Usable, Label;
    only := [];
    for i := 0 to |fs|
      invariant only == Unpaired(fs, taken, i)
    {
      if !paired[i] && Usable(fs[i].fp) {
        only := only + [Label(fs[i])];
      }
    }
  }

  lemma SidesSnoc(ps: seq<Pair>, p: Pair)
    ensures SidesA(ps + [p]) == SidesA(ps) + {p.a}
    ensures SidesB(ps + [p]) == SidesB(ps) + {p.b}
  {
    assert forall q :: q in ps + [p] <==> q in ps || q == p;
    assert p in ps + [p];
  }

  // align pairs only functions with signal.
  lemma PairsAreUsable(a: seq<IndexedFunc>, b: seq<IndexedFunc>, o: Opts)
    ensures var ps := Aligned(Nodes(a), Nodes(b), o);
            && OneToOnePairs(ps) && PairsInRange(ps, a, b)
            && (forall i :: i in SidesA(ps) ==> i < |a| && Usable(a[i].fp))
            && (forall j :: j in SidesB(ps) ==> j < |b| && Usable(b[j].fp))
  {
    hide Aligned, Usable;
    var ps := Aligned(Nodes(a), Nodes(b), o);
    AlignedIsSound(Nodes(a), Nodes(b), o);
    forall i | 0 <= i < |ps| ensures ps[i].a < |a| && ps[i].b < |b| { assert ps[i] in ps; }
  }

  lemma {:induction false} ChangedCount(ps: seq<Pair>, a: seq<IndexedFunc>, b: seq<IndexedFunc>)
    requires PairsInRange(ps, a, b)
    ensures |ps| == Count(ps, (p: Pair) => IsSame(p)) + |ChangedOf(ps, a, b)|
  {
    hide PairLabel;
    if ps != [] { ChangedCount(ps[..|ps| - 1], a, b); }
  }

  // The report in its order: the least similar change first, by name where equally similar; the
  // functions without a partner by name; and the counts of same pairs and of functions without signal.
  lemma ReportIs(ps: seq<Pair>, a: seq<IndexedFunc>, b: seq<IndexedFunc>)
    requires PairsInRange(ps, a, b)
    ensures var rep := ReportOf(ps, a, b);
            && rep.compared == |ps| && rep.same == Count(ps, (p: Pair) => p.sim >= 0.88)
            && rep.lowSignal == Count(a, (f: IndexedFunc) => f.fp.complexity < 4 || f.fp.shingles == 0)
            && multiset(rep.changed) == multiset(ChangedOf(ps, a, b))
            && multiset(rep.onlyA) == multiset(Unpaired(a, SidesA(ps), |a|))
            && multiset(rep.onlyB) == multiset(Unpaired(b, SidesB(ps), |b|))
            && ByName(rep.onlyA) && ByName(rep.onlyB)
            && forall i, j :: 0 <= i < j < |rep.changed| ==>
                 || rep.changed[i].similarity < rep.changed[j].similarity
                 || (rep.changed[i].similarity == rep.changed[j].similarity && !StrLess(rep.changed[j].name, rep.changed[i].name))
  {
    hide ChangedOf, Unpaired, SidesA, SidesB;
    ReportOrders();
    SortBySorts(ChangedOf(ps, a, b), ByChange());
    SortBySorts(Unpaired(a, SidesA(ps), |a|), StrLe());
    SortBySorts(Unpaired(b, SidesB(ps), |b|), StrLe());
    SameCounts(ps, (p: Pair) => p.sim >= 0.88, (p: Pair) => IsSame(p));
    SameCounts(a, (f: IndexedFunc) => f.fp.complexity < 4 || f.fp.shingles == 0, (f: IndexedFunc) => LowSignal(f));
    var changed := SortBy(ChangedOf(ps, a, b), ByChange());
    forall i, j | 0 <= i < j < |changed| ensures ByChange()(changed[i], changed[j]) {
    }
  }

  ghost predicate ByName(names: seq<string>) {
    forall i, j :: 0 <= i < j < |names| ==> !StrLess(names[j], names[i])
  }

  lemma SameCounts<T(!new)>(s: seq<T>, p: T -> bool, q: T -> bool)
    requires forall x :: p(x) <==> q(x)
    ensures Count(s, p) == Count(s, q)
  {
    CountAtMost(s, p, q);
    CountAtMost(s, q, p);
  }

  lemma ReportOrders()
    ensures TotalPreorder(ByChange()) && TotalPreorder(StrLe())
  {
    forall x: string, y: string, z: string | !StrLess(y, x) && !StrLess(z, y) ensures !StrLess(z, x) {
      StrOrder();
    }
    StrOrder();
  }

  // A 1:1 list has as many sides as pairs.
  lemma SidesCard(ps: seq<Pair>)
    requires OneToOnePairs(ps)
    ensures |SidesA(ps)| == |ps| == |SidesB(ps)|
  {
    var sa := seq(|ps|, i requires 0 <= i < |ps| => ps[i].a);
    var sb := seq(|ps|, i requires 0 <= i < |ps| => ps[i].b);
    NoDupCard(sa);
    NoDupCard(sb);
    forall x ensures x in SidesA(ps) <==> x in Elements(sa) {
      if x in SidesA(ps) {
        var i :| 0 <= i < |ps| && ps[i].a == x;
        assert sa[i] == x;
      }
    }
    forall x ensures x in SidesB(ps) <==> x in Elements(sb) {
      if x in SidesB(ps) {
        var i :| 0 <= i < |ps| && ps[i].b == x;
        assert sb[i] == x;
      }
    }
    assert SidesA(ps) == Elements(sa) && SidesB(ps) == Elements(sb);
  }

  ghost function Below(taken: set<nat>, n: nat): set<nat> { set i | i in taken && i < n }

  lemma BelowStep(taken: set<nat>, n: nat)
    ensures |Below(taken, n + 1)| == |Below(taken, n)| + if n in taken then 1 else 0
  {
    assert Below(taken, n + 1) == Below(taken, n) + if n in taken then {n} else {};
  }

  // Every function is paired, unpaired with signal, or without signal.
  lemma {:induction false} BalanceUpTo(fs: seq<IndexedFunc>, taken: set<nat>, n: nat)
    requires n <= |fs|
    requires forall i :: i in taken ==> i < |fs| && Usable(fs[i].fp)
    ensures n == |Below(taken, n)| + |Unpaired(fs, taken, n)| + Count(fs[..n], (f: IndexedFunc) => LowSignal(f))
  {
    hide Label;
    if n == 0 {
      assert Below(taken, 0) == {};
    } else {
      BalanceUpTo(fs, taken, n - 1);
      BelowStep(taken, n - 1);
      hide Below;
      assert fs[..n][..n - 1] == fs[..n - 1];
    }
  }

  lemma Balance(fs: seq<IndexedFunc>, taken: set<nat>)
    requires forall i :: i in taken ==> i < |fs| && Usable(fs[i].fp)
    ensures |fs| == |taken| + |Unpaired(fs, taken, |fs|)| + Count(fs, (f: IndexedFunc) => LowSignal(f))
  {
    BalanceUpTo(fs, taken, |fs|);
    assert fs[..|fs|] == fs;
    assert Below(taken, |fs|) == taken;
  }

  // ---------- eval ----------

  // What one evaluated function contributes.
  datatype Scored = Scored(rank: nat, topSim: real, topRight: bool, partner: Option<Pair>, partnerRight: bool)

  datatype EvalResult = EvalResult(
    scored: nat, rank1: nat, rrSum: real, tp: nat, fp: nat, fn: nat, ranks: seq<nat>, abstained: nat,
    alignCorrect: nat, alignPaired: nat, alignTp: nat, alignFp: nat)

  datatype Named = Named(sim: real, name: string)

  function BySim(): (Named, Named) -> bool { (x: Named, y: Named) => x.sim >= y.sim }

  predicate HasSignal(f: IndexedFunc) { Usable(f.fp) && f.name.Some? }

  // The named functions of b with their similarity to f, in b's order.
  function NamedSims(f: IndexedFunc, b: seq<IndexedFunc>): seq<Named> {
    if b == [] then []
    else
      NamedSims(f, b[..|b| - 1]) +
      if HasSignal(b[|b| - 1]) then [Named(Similarity(f.fp, b[|b| - 1].fp), b[|b| - 1].name.value)] else []
  }

  function Ranking(f: IndexedFunc, b: seq<IndexedFunc>): seq<Named> { SortBy(NamedSims(f, b), BySim()) }

  // 1-based position of the first entry of that name, 0 if there is none.
  function RankOfName(r: seq<Named>, name: string): nat {
    if r == [] then 0
    else if r[0].name == name then 1
    else
      var k := RankOfName(r[1..], name);
      if k == 0 then 0 else k + 1
  }

  // A function counts when it has signal and a namesake in b.
  predicate IsScored(f: IndexedFunc, b: seq<IndexedFunc>) {
    HasSignal(f) && RankOfName(NamedSims(f, b), f.name.value) > 0
  }

  function PartnerOfA(ps: seq<Pair>, i: nat): Option<Pair> {
    if ps == [] then None
    else if ps[|ps| - 1].a == i then Some(ps[|ps| - 1])
    else PartnerOfA(ps[..|ps| - 1], i)
  }

  function ScoreOf(f: IndexedFunc, i: nat, b: seq<IndexedFunc>, ps: seq<Pair>): Scored
    requires IsScored(f, b)
  {
    var r := Ranking(f, b);
    var name := f.name.value;
    var partner := PartnerOfA(ps, i);
    Scored(RankOfName(r, name),
           if r == [] then 0.0 else r[0].sim,
           r != [] && r[0].name == name,
           partner,
           partner.Some? && partner.value.b < |b| && b[partner.value.b].name == Some(name))
  }

  function Scores(a: seq<IndexedFunc>, b: seq<IndexedFunc>, ps: seq<Pair>): seq<Scored> {
    if a == [] then []
    else
      var n := |a| - 1;
      Scores(a[..n], b, ps) + if IsScored(a[n], b) then [ScoreOf(a[n], n, b, ps)] else []
  }

  predicate Sure(s: Scored) { s.topSim >= SAME_THRESH }

  predicate AlignSure(s: Scored) { s.partner.Some? && s.partner.value.score >= SAME_THRESH }

  function SumReciprocals(ss: seq<Scored>): real {
    if ss == [] then 0.0
    else SumReciprocals(ss[..|ss| - 1]) + if ss[|ss| - 1].rank > 0 then 1.0 / ss[|ss| - 1].rank as real else 0.0
  }

  function RanksOf(ss: seq<Scored>): (r: seq<nat>)
    ensures |r| == |ss|
  {
    seq(|ss|, i requires 0 <= i < |ss| => ss[i].rank)
  }

  function Tally(ss: seq<Scored>): EvalResult {
    EvalResult(
      |ss|,
      Count(ss, (s: Scored) => s.topRight),
      SumReciprocals(ss),
      Count(ss, (s: Scored) => Sure(s) && s.topRight),
      Count(ss, (s: Scored) => Sure(s) && !s.topRight),
      Count(ss, (s: Scored) => !Sure(s) && s.topRight),
      RanksOf(ss),
      Count(ss, (s: Scored) => !Sure(s)),
      Count(ss, (s: Scored) => s.partnerRight),
      Count(ss, (s: Scored) => s.partner.Some?),
      Count(ss, (s: Scored) => AlignSure(s) && s.partnerRight),
      Count(ss, (s: Scored) => AlignSure(s) && !s.partnerRight))
  }

  function EvalOpts(graphWeight: real): Opts { Opts(0.2, graphWeight, 2) }

  method NamedSimilarities(f: IndexedFunc, b: seq<IndexedFunc>) returns (r: seq<Named>)
    ensures r == NamedSims(f, b)
  {
    hide Similarity, HasSignal;
    r := [];
    for j := 0 to |b|
      invariant r == NamedSims(f, b[..j])
    {
      assert b[..j + 1][..j] == b[..j];
      if HasSignal(b[j]) {
        r := r + [Named(Similarity(f.fp, b[j].fp), NameOf(b[j]))];
      }
    }
    assert b[..|b|] == b;
  }

  function NameOf(f: IndexedFunc): string
    requires HasSignal(f)
  {
    f.name.value
  }

  method Eval(a: seq<IndexedFunc>, b: seq<IndexedFunc>, graphWeight: real) returns (res: EvalResult)
    ensures res == Tally(Scores(a, b, Aligned(Nodes(a), Nodes(b), EvalOpts(graphWeight))))
  {
    hide Aligned, Similarity, Usable, SortBy, NamedSims, RankOfName, PartnerOfA, Nodes, Tally;
    var pairs := Align.Align(Nodes(a), Nodes(b), EvalOpts(graphWeight));
    ghost var ss: seq<Scored> := [];
    res := EvalResult(0, 0, 0.0, 0, 0, 0, [], 0, 0, 0, 0, 0);
    NothingTallied();
    for i := 0 to |a|
      invariant ss == Scores(a[..i], b, pairs)
      invariant res == Tally(ss)
    {
      var f := a[i];
      assert a[..i + 1][..i] == a[..i];
      if !HasSignal(f) {
        continue;
      }
      var name := f.name.value;
      var ranked := NamedSimilarities(f, b);
      if RankOfName(ranked, name) == 0 {
        continue;
      }
      RankSurvivesSort(ranked, name);
      ranked := SortBy(ranked, BySim());
      ghost var s := ScoreOf(f, i, b, pairs);
      var topSim, correct := ranked[0].sim, ranked[0].name == name;
      res := res.(scored := res.scored + 1);
      if correct {
        res := res.(rank1 := res.rank1 + 1);
      }
      var pos := RankOfName(ranked, name);
      res := res.(rrSum := res.rrSum + 1.0 / pos as real, ranks := res.ranks + [pos]);
      var predictedSame := topSim >= SAME_THRESH;
      if !predictedSame {
        res := res.(abstained := res.abstained + 1);
      }
      if predictedSame && correct {
        res := res.(tp := res.tp + 1);
      } else if predictedSame {
        res := res.(fp := res.fp + 1);
      } else if correct {
        res := res.(fn := res.fn + 1);
      }
      match PartnerOfA(pairs, i) {
        case Some(p) =>
          res := res.(alignPaired := res.alignPaired + 1);
          var right := p.b < |b| && b[p.b].name == Some(name);
          if right {
            res := res.(alignCorrect := res.alignCorrect + 1);
          }
          if p.score >= SAME_THRESH {
            if right {
              res := res.(alignTp := res.alignTp + 1);
            } else {
              res := res.(alignFp := res.alignFp + 1);
            }
          }
        case None =>
      }
      TallySnoc(ss, s);
      ss := ss + [s];
    }
    assert a[..|a|] == a;
  }

  lemma NothingTallied()
    ensures Tally([]) == EvalResult(0, 0, 0.0, 0, 0, 0, [], 0, 0, 0, 0, 0)
  {
  }

  // What one more scored function adds to each counter.
  lemma TallySnoc(ss: seq<Scored>, s: Scored)
    ensures var t, u := Tally(ss), Tally(ss + [s]);
            && u.scored == t.scored + 1
            && u.rank1 == t.rank1 + (if s.topRight then 1 else 0)
            && u.rrSum == t.rrSum + (if s.rank > 0 then 1.0 / s.rank as real else 0.0)
            && u.tp == t.tp + (if Sure(s) && s.topRight then 1 else 0)
            && u.fp == t.fp + (if Sure(s) && !s.topRight then 1 else 0)
            && u.fn == t.fn + (if !Sure(s) && s.topRight then 1 else 0)
            && u.ranks == t.ranks + [s.rank]
            && u.abstained == t.abstained + (if Sure(s) then 0 else 1)
            && u.alignCorrect == t.alignCorrect + (if s.partnerRight then 1 else 0)
            && u.alignPaired == t.alignPaired + (if s.partner.Some? then 1 else 0)
            && u.alignTp == t.alignTp + (if AlignSure(s) && s.partnerRight then 1 else 0)
            && u.alignFp == t.alignFp + (if AlignSure(s) && !s.partnerRight then 1 else 0)
  {
    assert (ss + [s])[..|ss|] == ss;
  }

  lemma {:induction false} RankBounds(r: seq<Named>, name: string)
    ensures RankOfName(r, name) <= |r|
    ensures RankOfName(r, name) == 0 <==> forall i :: 0 <= i < |r| ==> r[i].name != name
    ensures RankOfName(r, name) == 1 <==> r != [] && r[0].name == name
    ensures RankOfName(r, name) > 0 ==> r[RankOfName(r, name) - 1].name == name
  {
    if r != [] {
      RankBounds(r[1..], name);
      assert forall i :: 0 < i < |r| ==> r[i] == r[1..][i - 1];
    }
  }

  lemma RankSurvivesSort(sims: seq<Named>, name: string)
    requires RankOfName(sims, name) > 0
    ensures RankOfName(SortBy(sims, BySim()), name) > 0
    ensures SortBy(sims, BySim()) != []
  {
    var t := SortBy(sims, BySim());
    SortBySorts(sims, BySim());
    RankBounds(sims, name);
    RankBounds(t, name);
    var x := sims[RankOfName(sims, name) - 1];
    assert x in t;
    var i :| 0 <= i < |t| && t[i] == x;
  }

  // Who is ranked for f: the functions of b with signal and a name, each with its similarity.
  lemma {:induction false} NamedSimsAre(f: IndexedFunc, b: seq<IndexedFunc>)
    ensures forall x :: x in NamedSims(f, b) <==>
              exists j :: 0 <= j < |b| && b[j].fp.complexity >= 4 && b[j].fp.shingles > 0 && b[j].name == Some(x.name)
                          && x.sim == Similarity(f.fp, b[j].fp)
  {
    hide Similarity;
    if b != [] {
      var n := |b| - 1;
      NamedSimsAre(f, b[..n]);
      assert forall j :: 0 <= j < n ==> b[..n][j] == b[j];
    }
  }

  lemma {:induction false} CountWithin<T>(s: seq<T>, n: nat, p: T -> bool)
    requires n <= |s|
    ensures (forall k :: n <= k < |s| ==> !p(s[k])) ==> Count(s, p) <= n
    ensures (forall k :: 0 <= k < n ==> p(s[k])) ==> Count(s, p) >= n
  {
    if s != [] {
      var m := |s| - 1;
      CountWithin(s[..m], if n <= m then n else m, p);
    }
  }

  // In a ranked list whatever is strictly more similar stands before, and all before are as similar.
  lemma PlaceInRanking(t: seq<Named>, k: nat)
    requires Sorted(t, BySim()) && k < |t|
    ensures Count(t, (x: Named) => x.sim > t[k].sim) <= k < Count(t, (x: Named) => x.sim >= t[k].sim)
    ensures forall l :: k <= l < |t| ==> t[l].sim <= t[k].sim
  {
    forall l | k <= l < |t| ensures t[l].sim <= t[k].sim { assert l == k || BySim()(t[k], t[l]); }
    forall l | 0 <= l < k + 1 ensures t[l].sim >= t[k].sim { assert l == k || BySim()(t[l], t[k]); }
    CountWithin(t, k, (x: Named) => x.sim > t[k].sim);
    CountWithin(t, k + 1, (x: Named) => x.sim >= t[k].sim);
  }

  // The rank is the place of the closest namesake among all: everybody strictly closer stands
  // before it, and nobody less close.
  lemma RankIsPlace(sims: seq<Named>, name: string) returns (best: Named)
    requires RankOfName(sims, name) > 0
    ensures best in sims && best.name == name && forall x :: x in sims && x.name == name ==> x.sim <= best.sim
    ensures Count(sims, (x: Named) => x.sim > best.sim) < RankOfName(SortBy(sims, BySim()), name)
            <= Count(sims, (x: Named) => x.sim >= best.sim)
  {
    hide Sorted, SortBy, BySim, RankOfName, Count;
    var t := SortBy(sims, BySim());
    SortBySorts(sims, BySim());
    SimOrders();
    RankSurvivesSort(sims, name);
    RankBounds(t, name);
    var r := RankOfName(t, name);
    best := t[r - 1];
    assert best in sims;
    NothingEarlier(t, name);
    PlaceInRanking(t, r - 1);
    forall x | x in sims && x.name == name ensures x.sim <= best.sim {
      var k :| 0 <= k < |t| && t[k] == x;
      assert k >= r - 1;
    }
    CountPermutes(sims, t, (x: Named) => x.sim > best.sim);
    CountPermutes(sims, t, (x: Named) => x.sim >= best.sim);
  }

  lemma SimOrders()
    ensures TotalPreorder(BySim())
  {
  }

  lemma TopIsMax(sims: seq<Named>)
    requires sims != []
    ensures var t := SortBy(sims, BySim()); t != [] && t[0] in sims && forall x :: x in sims ==> x.sim <= t[0].sim
  {
    var t := SortBy(sims, BySim());
    SimOrders();
    SortBySorts(sims, BySim());
    LengthOfSort(sims, BySim());
    forall x | x in sims ensures x.sim <= t[0].sim {
      var k :| 0 <= k < |t| && t[k] == x;
      assert k == 0 || BySim()(t[0], t[k]);
    }
    assert t[0] in sims;
  }

  lemma {:induction false} NothingEarlier(r: seq<Named>, name: string)
    ensures RankOfName(r, name) <= |r| && forall k :: 0 <= k < RankOfName(r, name) - 1 ==> r[k].name != name
  {
    if r != [] {
      NothingEarlier(r[1..], name);
      assert forall k :: 0 < k < |r| ==> r[k] == r[1..][k - 1];
    }
  }

  // What one function contributes: its namesake's place, the top similarity and whether a namesake
  // reaches it first, and the partner the alignment gave it.
  lemma ScoreIs(f: IndexedFunc, i: nat, b: seq<IndexedFunc>, ps: seq<Pair>) returns (best: Named)
    requires IsScored(f, b)
    ensures var s, sims := ScoreOf(f, i, b, ps), NamedSims(f, b);
            && best in sims && Some(best.name) == f.name
            && (forall x :: x in sims && x.name == best.name ==> x.sim <= best.sim)
            && Count(sims, (x: Named) => x.sim > best.sim) < s.rank <= Count(sims, (x: Named) => x.sim >= best.sim)
            && (exists x :: x in sims && x.sim == s.topSim) && (forall x :: x in sims ==> x.sim <= s.topSim)
            && (s.topRight <==> s.rank == 1)
            && s.partner == PartnerOfA(ps, i)
            && (s.partnerRight <==> s.partner.Some? && s.partner.value.b < |b| && b[s.partner.value.b].name == f.name)
  {
    hide NamedSims, BySim, SortBy, RankOfName, Count;
    var sims := NamedSims(f, b);
    best := RankIsPlace(sims, f.name.value);
    ScoredIsConsistent(f, i, b, ps);
    TopIsMax(sims);
  }

  // A function is evaluated when it has signal and a name that some function of b with signal has.
  lemma IsScoredIff(f: IndexedFunc, b: seq<IndexedFunc>)
    ensures IsScored(f, b) <==>
            && f.fp.complexity >= 4 && f.fp.shingles > 0 && f.name.Some?
            && exists j :: 0 <= j < |b| && b[j].fp.complexity >= 4 && b[j].fp.shingles > 0 && b[j].name == f.name
  {
    hide Similarity;
    var sims := NamedSims(f, b);
    NamedSimsAre(f, b);
    if f.name.Some? {
      RankBounds(sims, f.name.value);
      if k :| 0 <= k < |sims| && sims[k].name == f.name.value { assert sims[k] in sims; }
      if j :| 0 <= j < |b| && b[j].fp.complexity >= 4 && b[j].fp.shingles > 0 && b[j].name == f.name {
        var x := Named(Similarity(f.fp, b[j].fp), f.name.value);
        assert x in sims;
      }
    }
  }

  lemma {:induction false} ScoresAre(a: seq<IndexedFunc>, b: seq<IndexedFunc>, ps: seq<Pair>)
    ensures forall s :: s in Scores(a, b, ps) <==>
              exists i :: 0 <= i < |a| && IsScored(a[i], b) && s == ScoreOf(a[i], i, b, ps)
    ensures |Scores(a, b, ps)| == Count(a, (f: IndexedFunc) => IsScored(f, b))
  {
    hide IsScored, ScoreOf;
    if a != [] {
      var n := |a| - 1;
      ScoresAre(a[..n], b, ps);
      assert forall i :: 0 <= i < n ==> a[..n][i] == a[i];
    }
  }

  // The partner is the function's one pair, if it has one.
  lemma {:induction false} PartnerOfAIs(ps: seq<Pair>, i: nat)
    requires OneToOnePairs(ps)
    ensures forall p :: PartnerOfA(ps, i) == Some(p) <==> p in ps && p.a == i
  {
    if ps != [] {
      var n := |ps| - 1;
      PartnerOfAIs(ps[..n], i);
      assert ps == ps[..n] + [ps[n]];
      forall p | p in ps[..n] ensures p.a != ps[n].a {
        var k :| 0 <= k < n && ps[..n][k] == p;
        assert ps[k].a != ps[n].a;
      }
    }
  }

  // The counters, told by what they count: a top hit is trusted from 0.88 on, and so is a pair.
  lemma TallyIs(ss: seq<Scored>)
    ensures var res := Tally(ss);
            && res.scored == |ss| && res.rank1 == Count(ss, (s: Scored) => s.topRight)
            && res.tp == Count(ss, (s: Scored) => s.topSim >= 0.88 && s.topRight)
            && res.fp == Count(ss, (s: Scored) => s.topSim >= 0.88 && !s.topRight)
            && res.fn == Count(ss, (s: Scored) => s.topSim < 0.88 && s.topRight)
            && res.abstained == Count(ss, (s: Scored) => s.topSim < 0.88)
            && res.alignPaired == Count(ss, (s: Scored) => s.partner.Some?)
            && res.alignCorrect == Count(ss, (s: Scored) => s.partnerRight)
            && res.alignTp == Count(ss, (s: Scored) => s.partner.Some? && s.partner.value.score >= 0.88 && s.partnerRight)
            && res.alignFp == Count(ss, (s: Scored) => s.partner.Some? && s.partner.value.score >= 0.88 && !s.partnerRight)
  {
    hide Count, SumReciprocals;
    SameCounts(ss, (s: Scored) => s.topSim >= 0.88 && s.topRight, (s: Scored) => Sure(s) && s.topRight);
    SameCounts(ss, (s: Scored) => s.topSim >= 0.88 && !s.topRight, (s: Scored) => Sure(s) && !s.topRight);
    SameCounts(ss, (s: Scored) => s.topSim < 0.88 && s.topRight, (s: Scored) => !Sure(s) && s.topRight);
    SameCounts(ss, (s: Scored) => s.topSim < 0.88, (s: Scored) => !Sure(s));
    SameCounts(ss, (s: Scored) => s.partner.Some? && s.partner.value.score >= 0.88 && s.partnerRight,
               (s: Scored) => AlignSure(s) && s.partnerRight);
    SameCounts(ss, (s: Scored) => s.partner.Some? && s.partner.value.score >= 0.88 && !s.partnerRight,
               (s: Scored) => AlignSure(s) && !s.partnerRight);
  }

  // ---------- the counters balance ----------

  lemma ScoredIsConsistent(f: IndexedFunc, i: nat, b: seq<IndexedFunc>, ps: seq<Pair>)
    requires IsScored(f, b)
    ensures Sane(ScoreOf(f, i, b, ps))
  {
    RankSurvivesSort(NamedSims(f, b), f.name.value);
    RankBounds(Ranking(f, b), f.name.value);
  }

  // The rank is 1 exactly when the top hit has the right name, and only a partner can be right.
  predicate Sane(s: Scored) {
    && s.rank >= 1
    && (s.topRight <==> s.rank == 1)
    && (s.partnerRight ==> s.partner.Some?)
  }

  lemma {:induction false} ScoresAreSane(a: seq<IndexedFunc>, b: seq<IndexedFunc>, ps: seq<Pair>)
    ensures forall s :: s in Scores(a, b, ps) ==> Sane(s)
  {
    hide Sane, ScoreOf, IsScored;
    if a != [] {
      var n := |a| - 1;
      ScoresAreSane(a[..n], b, ps);
      if IsScored(a[n], b) { ScoredIsConsistent(a[n], n, b, ps); }
    }
  }

  lemma ReciprocalRange(k: nat)
    requires k >= 1
    ensures 0.0 < 1.0 / k as real <= 1.0
  {
    var r := 1.0 / k as real;
    assert r * k as real == 1.0;
    if r > 1.0 { ScaleUp(r, k as real); }
  }

  lemma ScaleUp(r: real, k: real)
    requires r > 1.0 && k >= 1.0
    ensures r * k > 1.0
  {
  }

  lemma {:induction false} ReciprocalsBetween(ss: seq<Scored>)
    requires forall s :: s in ss ==> Sane(s)
    ensures Count(ss, (s: Scored) => s.topRight) as real <= SumReciprocals(ss) <= |ss| as real
  {
    if ss != [] {
      var n := |ss| - 1;
      assert ss == ss[..n] + [ss[n]];
      assert ss[n] in ss;
      ReciprocalsBetween(ss[..n]);
      ReciprocalRange(ss[n].rank);
    }
  }

  function HitsWithin(ranks: seq<nat>, k: nat): nat { Count(ranks, (r: nat) => r <= k) }

  // recall@k
  function RecallAt(res: EvalResult, k: nat): real {
    if res.scored == 0 then 0.0 else HitsWithin(res.ranks, k) as real / res.scored as real
  }

  function Rank1Acc(res: EvalResult): real {
    if res.scored == 0 then 0.0 else res.rank1 as real / res.scored as real
  }

  lemma {:induction false} HitsAtOne(ss: seq<Scored>)
    requires forall s :: s in ss ==> Sane(s)
    ensures HitsWithin(RanksOf(ss), 1) == Count(ss, (s: Scored) => s.topRight)
  {
    if ss != [] {
      var n := |ss| - 1;
      assert ss == ss[..n] + [ss[n]];
      assert ss[n] in ss;
      HitsAtOne(ss[..n]);
      assert RanksOf(ss)[..n] == RanksOf(ss[..n]);
    }
  }

  // All counters of an evaluation hang together.
  ghost predicate Balanced(res: EvalResult) {
    && |res.ranks| == res.scored == res.tp + res.fp + res.abstained
    && res.rank1 == res.tp + res.fn == HitsWithin(res.ranks, 1)
    && res.rank1 as real <= res.rrSum <= res.scored as real
    && res.alignTp + res.alignFp <= res.alignPaired <= res.scored
    && res.alignTp <= res.alignCorrect <= res.alignPaired
  }

  lemma TallyBalances(ss: seq<Scored>)
    requires forall s :: s in ss ==> Sane(s)
    ensures Balanced(Tally(ss))
  {
    hide Sure, AlignSure, SumReciprocals, RanksOf;
    var top, sure := (s: Scored) => s.topRight, (s: Scored) => Sure(s);
    var tp, fp := (s: Scored) => Sure(s) && s.topRight, (s: Scored) => Sure(s) && !s.topRight;
    var fn, abst := (s: Scored) => !Sure(s) && s.topRight, (s: Scored) => !Sure(s);
    var all := (s: Scored) => true;
    var right, paired := (s: Scored) => s.partnerRight, (s: Scored) => s.partner.Some?;
    var atp, afp := (s: Scored) => AlignSure(s) && s.partnerRight, (s: Scored) => AlignSure(s) && !s.partnerRight;
    var asure := (s: Scored) => AlignSure(s);
    CountAll(ss, all);
    CountsAdd(ss, sure, tp, fp);
    CountsAdd(ss, all, sure, abst);
    CountsAdd(ss, top, tp, fn);
    CountsAdd(ss, asure, atp, afp);
    AlignSureMeansPaired();
    CountAtMost(ss, asure, paired);
    CountAtMost(ss, atp, right);
    CountAtMost(ss, right, paired);
    ReciprocalsBetween(ss);
    HitsAtOne(ss);
  }

  lemma AlignSureMeansPaired()
    ensures forall s :: AlignSure(s) ==> s.partner.Some?
  {
  }

  // For every pair of builds and every graph weight the evaluation's counters balance,
  // recall@1 is the rank-1 accuracy, and recall only grows with k.
  lemma EvalBalances(a: seq<IndexedFunc>, b: seq<IndexedFunc>, graphWeight: real)
    ensures var res := Tally(Scores(a, b, Aligned(Nodes(a), Nodes(b), EvalOpts(graphWeight))));
            Balanced(res) && RecallAt(res, 1) == Rank1Acc(res)
  {
    hide Aligned, Scores, Tally;
    var ps := Aligned(Nodes(a), Nodes(b), EvalOpts(graphWeight));
    ScoresAreSane(a, b, ps);
    TallyBalances(Scores(a, b, ps));
  }

  lemma RecallGrows(res: EvalResult, k: nat, l: nat)
    requires |res.ranks| == res.scored && k <= l
    ensures 0.0 <= RecallAt(res, k) <= RecallAt(res, l) <= 1.0
  {
    CountAtMost(res.ranks, (r: nat) => r <= k, (r: nat) => r <= l);
    if res.scored > 0 {
      RatioBounds(HitsWithin(res.ranks, k), res.scored);
      RatioBounds(HitsWithin(res.ranks, l), res.scored);
      RatioGrows(HitsWithin(res.ranks, k) as real, HitsWithin(res.ranks, l) as real, res.scored as real);
    }
  }

  lemma RatioGrows(x: real, y: real, n: real)
    requires x <= y && n > 0.0
    ensures x / n <= y / n
  {
  }
}
