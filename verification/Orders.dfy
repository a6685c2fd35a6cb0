/**
  When the order of a corpus can be seen: two orders give every target the same report,
  whatever the prints and the options, exactly when the searches find the same callees.
 */
module Orders {
  import opened Sorting
  import opened Wrappers
  import opened Machine
  import opened Sig
  import opened Assign
  import opened Align
  import opened AlignTheorems
  import opened Renumber
  import opened Reorder
  import opened Instances
  import opened Counting
  import G = Graph

  // ---------- the same functions with other prints ----------

  function Reprinted(b: seq<Node>, prints: G.Key -> Fingerprint): (r: seq<Node>)
    ensures |r| == |b|
  {
    seq(|b|, i requires 0 <= i < |b| => b[i].(fp := prints(G.KeysOf(b, true)[i])))
  }

  lemma ReprintedShape(b: seq<Node>, prints: G.Key -> Fingerprint)
    ensures G.KeysOf(Reprinted(b, prints), true) == G.KeysOf(b, true)
    ensures G.Callees(Reprinted(b, prints), true) == G.Callees(b, true)
    ensures DistinctKeys(b) ==> DistinctKeys(Reprinted(b, prints))
  {
    hide G.IndexBy, G.Resolve;
    var c := Reprinted(b, prints);
    assert G.KeysOf(c, true) == G.KeysOf(b, true);
    forall i | 0 <= i < |b| ensures G.Callees(c, true)[i] == G.Callees(b, true)[i] {
      assert G.CalleeKeys(c[i], true) == G.CalleeKeys(b[i], true);
    }
  }

  lemma NodeCarries(b: seq<Node>, b2: seq<Node>, prints: G.Key -> Fingerprint, n: Node)
    requires multiset(b) == multiset(b2) && n in Reprinted(b, prints)
    ensures n in Reprinted(b2, prints)
  {
    var i :| 0 <= i < |b| && Reprinted(b, prints)[i] == n;
    SameElements(b, b2);
    assert b[i] in b2;
    var j :| 0 <= j < |b2| && b2[j] == b[i];
    assert G.KeysOf(b2, true)[j] == G.KeysOf(b, true)[i];
    assert Reprinted(b2, prints)[j] == n;
  }

  lemma ReprintedReorders(b: seq<Node>, b2: seq<Node>, prints: G.Key -> Fingerprint)
    requires DistinctKeys(b) && multiset(b) == multiset(b2)
    ensures multiset(Reprinted(b, prints)) == multiset(Reprinted(b2, prints))
    ensures DistinctKeys(Reprinted(b, prints))
    ensures SearchedAlike(Reprinted(b, prints), Reprinted(b2, prints)) <==> SearchedAlike(b, b2)
  {
    var c, c2 := Reprinted(b, prints), Reprinted(b2, prints);
    DistinctReorders(b, b2);
    ReprintedShape(b, prints);
    ReprintedShape(b2, prints);
    hide Reprinted, G.Callees;
    assert NoDup(c) && NoDup(c2);
    forall n ensures n in c <==> n in c2 {
      if n in c { NodeCarries(b, b2, prints, n); }
      if n in c2 { NodeCarries(b2, b, prints, n); }
    }
    SameSetSameMultiset(c, c2);
  }

  // Every target gets the same report from both orders, whatever the prints and the options.
  ghost predicate OrderUnseen(b: seq<Node>, b2: seq<Node>) {
    forall prints: G.Key -> Fingerprint, a, o :: DistinctEntries(a) ==>
      Reported(a, Reprinted(b, prints), o) == Reported(a, Reprinted(b2, prints), o)
  }

  // ---------- prints that tell all functions apart ----------

  function Flat(v: U64): Fingerprint { Halves(v, v) }

  ghost predicate IsFlat(f: Fingerprint) { exists v: U64 :: f == Flat(v) }

  ghost predicate ToldApart(b: seq<Node>) {
    && (forall x :: 0 <= x < |b| ==> IsFlat(b[x].fp))
    && (forall x, y :: 0 <= x < y < |b| ==> b[x].fp != b[y].fp)
  }

  // A print of its own for each key.
  function OwnPrints(keys: seq<G.Key>): G.Key -> Fingerprint {
    (k: G.Key) =>
      var i := if k in G.IndexBy(keys) then G.IndexBy(keys)[k] else 0;
      Flat(if i <= U64_MAX then i else 0)
  }

  lemma FlatTellsApart(v: U64, w: U64)
    ensures Flat(v) == Flat(w) <==> v == w
  {
    assert Flat(v).sig[0] == v && Flat(w).sig[0] == w;
  }

  lemma OwnPrintsTellApart(b: seq<Node>)
    requires DistinctKeys(b) && |b| <= U64_MAX
    ensures ToldApart(Reprinted(b, OwnPrints(G.KeysOf(b, true))))
  {
    hide Flat, G.IndexBy;
    var keys := G.KeysOf(b, true);
    var c := Reprinted(b, OwnPrints(keys));
    assert NoDup(keys);
    forall x | 0 <= x < |b| ensures c[x].fp == Flat(x) && IsFlat(c[x].fp) { KeyIndex(b, true, x); }
    forall x, y | 0 <= x < y < |b| ensures c[x].fp != c[y].fp { FlatTellsApart(x, y); }
  }

  lemma ToldApartReorders(b: seq<Node>, b2: seq<Node>)
    requires ToldApart(b) && multiset(b) == multiset(b2)
    ensures ToldApart(b2)
  {
    hide IsFlat;
    SameElements(b, b2);
    assert NoDup(b);
    NoDupPermutation(b, b2);
    forall x | 0 <= x < |b2| ensures IsFlat(b2[x].fp) { assert b2[x] in b; }
    forall x, y | 0 <= x < y < |b2| ensures b2[x].fp != b2[y].fp { assert b2[x] in b && b2[y] in b; }
  }

  // ---------- a target that asks for one callee ----------

  // The print of n calling the print of m, and nothing else.
  function Asker(n: Node, m: Node): seq<Node> {
    if n == m then [Node(n.fp, 0, [0], None, "")]
    else [Node(n.fp, 0, [1], None, ""), Node(m.fp, 1, [], None, "")]
  }

  // The index of the callee in the target.
  function Asked(n: Node, m: Node): nat { if n == m then 0 else 1 }

  lemma AskerNeighbours(n: Node, m: Node)
    ensures NeighboursOf(Asker(n, m), false)[0] == G.Around([Asked(n, m)], if n == m then [0] else [])
    ensures DistinctEntries(Asker(n, m))
  {
    var a := Asker(n, m);
    CalleesResolve(a, false, 0, [Asked(n, m)]);
    if n == m {
      assert G.Callees(a, false) == [[0]];
      assert [[0]][..0] == [];
      assert G.CallersOf([[0]], 0) == [0];
    } else {
      CalleesResolve(a, false, 1, []);
      NoCallers(a, false, 0);
    }
  }

  lemma OneCandidate(a: seq<Node>, b: seq<Node>, k: nat, i: nat, z: nat)
    requires ToldApart(b) && k < |a| && i < |b| && z < |b| && a[k].fp == b[i].fp
    ensures IsCandidate(a, b, k, z) <==> z == i
    ensures Similarity(a[k].fp, b[i].fp) == 1.0
  {
    hide Similarity, IsCandidate, Halves;
    var v: U64 :| b[i].fp == Flat(v);
    var w: U64 :| b[z].fp == Flat(w);
    CandidateByHalves(a, b, k, z, v, v, w, w);
    HalvesSimilarity(v, v, v, v);
    FlatTellsApart(v, w);
    assert z != i ==> b[z].fp != b[i].fp;
  }

  lemma AskerCandidates(b: seq<Node>, i: nat, y: nat, c: Cand)
    requires ToldApart(b) && i < |b| && y < |b|
    ensures ListCand(Asker(b[i], b[y]), b, c) <==>
            c == Cand(0, i, 1.0, 0.0) || c == Cand(Asked(b[i], b[y]), y, 1.0, 0.0)
  {
    hide Similarity, InPool;
    var a := Asker(b[i], b[y]);
    if c.a < |a| && c.b < |b| {
      hide IsCandidate;
      var j := if c.a == 0 then i else y;
      assert a[c.a].fp == b[j].fp;
      OneCandidate(a, b, c.a, j, c.b);
    }
    OneCandidate(a, b, 0, i, i);
    OneCandidate(a, b, Asked(b[i], b[y]), y, y);
  }

  // Who the target's functions are paired with.
  ghost function AskerMatched(n: Node, m: Node): set<(Node, Node)> {
    var a := Asker(n, m);
    {(a[0], n), (a[Asked(n, m)], m)}
  }

  // With no choice to make, the pairing of the target is the same over every order of b.
  lemma AskerPairing(b: seq<Node>, i: nat, y: nat, ps: seq<Pair>)
    requires ToldApart(b) && i < |b| && y < |b|
    requires PairsAll(ps, Asker(b[i], b[y]), b)
    ensures var a := Asker(b[i], b[y]);
            && PartnerOf(ps, |a|)[Asked(b[i], b[y])] == Some(y)
            && Tells(PartnerOf(ps, |a|), PairedOf(ps, |b|), a, b, AskerMatched(b[i], b[y]))
  {
    hide ListCand, PartnerOf, PairedOf;
    var n, m := b[i], b[y];
    var a := Asker(n, m);
    AskerCandidates(b, i, y, Cand(0, i, 1.0, 0.0));
    AskerCandidates(b, i, y, Cand(Asked(n, m), y, 1.0, 0.0));
    assert ListCand(a, b, Cand(0, i, 1.0, 0.0)) && ListCand(a, b, Cand(Asked(n, m), y, 1.0, 0.0));
    PartnerOfHolds(ps, |a|);
    PartnerIsConsistent(ps, |a|, |b|);
  }

  // The two scores differ in the one callee that is found over b and missed over b2.
  lemma AskerScoresDiffer(b: seq<Node>, i: nat, y: nat, b2: seq<Node>, j: nat, y2: nat,
                          partner: G.Pairing, bPaired: seq<bool>, partner2: G.Pairing, bPaired2: seq<bool>)
    requires Reordered(b, b2, true) && i < |b| && y < |b| && j < |b2| && y2 < |b2|
    requires b[i] == b2[j] && b[y] == b2[y2]
    requires |partner| == |Asker(b[i], b[y])| == |partner2|
    requires Tells(partner, bPaired, Asker(b[i], b[y]), b, AskerMatched(b[i], b[y]))
    requires Tells(partner2, bPaired2, Asker(b[i], b[y]), b2, AskerMatched(b[i], b[y]))
    requires partner[Asked(b[i], b[y])] == Some(y) && partner2[Asked(b[i], b[y])] == Some(y2)
    requires G.BinarySearch(G.Callees(b, true)[i], y) && !G.BinarySearch(G.Callees(b2, true)[j], y2)
    ensures var x := NeighboursOf(Asker(b[i], b[y]), false)[0];
            G.GraphScore(x, AroundOf(b, true, i), partner, bPaired) != G.GraphScore(x, AroundOf(b2, true, j), partner2, bPaired2)
  {
    hide Tells, AskerMatched, G.Callees, G.CallersOf, FoundBy, NeighboursOf, G.CountPaired, G.BinarySearch;
    var n, m := b[i], b[y];
    var a, M, t := Asker(n, m), AskerMatched(n, m), Asked(n, m);
    var x := NeighboursOf(a, false)[0];
    AskerNeighbours(n, m);
    AroundRenumbers(b, b2, true, i, j);
    CallersFoundAlike(b, b2, i, j);
    assert Alike(x.callers, a, x.callers, a);
    CountsRenumber(x.callers, a, x.callers, a, b, b2, partner, bPaired, partner2, bPaired2, M,
                   G.CallersOf(G.Callees(b, true), i), G.CallersOf(G.Callees(b2, true), j));
    PairedAlike(G.Callees(b, true)[i], G.Callees(b2, true)[j], partner, bPaired, partner2, bPaired2, a, b, b2, M);
    OneHit(t, partner, G.Callees(b, true)[i]);
    OneHit(t, partner2, G.Callees(b2, true)[j]);
    hide G.Dice, G.Hits, G.CountPartnered;
    OneHitMore(G.Hits(x.callers, partner, G.CallersOf(G.Callees(b, true), i)),
               1 + G.CountPartnered(x.callers, partner),
               G.CountPaired(G.Callees(b, true)[i], bPaired) + G.CountPaired(G.CallersOf(G.Callees(b, true), i), bPaired));
  }

  lemma OneHit(t: nat, partner: G.Pairing, ys: seq<nat>)
    requires t < |partner| && partner[t].Some?
    ensures G.Hits([t], partner, ys) == if G.BinarySearch(ys, partner[t].value) then 1 else 0
    ensures G.CountPartnered([t], partner) == 1
  {
    hide G.BinarySearch;
    assert [t][..0] == [];
  }

  lemma PairedAlike(ys: seq<nat>, ys2: seq<nat>, partner: G.Pairing, bPaired: seq<bool>, partner2: G.Pairing,
                    bPaired2: seq<bool>, a: seq<Node>, b: seq<Node>, b2: seq<Node>, M: set<(Node, Node)>)
    requires Tells(partner, bPaired, a, b, M) && Tells(partner2, bPaired2, a, b2, M)
    requires Alike(ys, b, ys2, b2)
    ensures G.CountPaired(ys, bPaired) == G.CountPaired(ys2, bPaired2)
  {
    hide Tells, IsPartner, At;
    PairedByNode(ys, partner, bPaired, a, b, M);
    PairedByNode(ys2, partner2, bPaired2, a, b2, M);
    CountPermutes(At(ys, b), At(ys2, b2), m => IsPartner(M, m));
  }

  lemma OneHitMore(h: nat, p: nat, q: nat)
    requires p > 0
    ensures G.Dice(h + 1, p, q) != G.Dice(h, p, q)
  {
    var d := (p + q) as real;
    assert G.Dice(h + 1, p, q) * d == (2 * h + 2) as real;
    assert G.Dice(h, p, q) * d == (2 * h) as real;
  }

  // One round over the call graph, with nothing cut off.
  const ONCE: Opts := Opts(0.0, 1.0, 1)

  // The score of the asking function, as align computes it over b.
  ghost function AskerScore(b: seq<Node>, i: nat, y: nat, ps: seq<Pair>): real
    requires i < |b| && y < |b|
  {
    var a := Asker(b[i], b[y]);
    G.GraphScore(NeighboursOf(a, false)[0], AroundOf(b, true, i), PartnerOf(ps, |a|), PairedOf(ps, |b|))
  }

  lemma AskerReport(b: seq<Node>, i: nat, y: nat) returns (ps: seq<Pair>)
    requires ToldApart(b) && i < |b| && y < |b|
    ensures PairsAll(ps, Asker(b[i], b[y]), b)
    ensures var a := Asker(b[i], b[y]);
            && (exists m :: m in Reported(a, b, ONCE) && m.na == a[0])
            && (forall m :: m in Reported(a, b, ONCE) && m.na == a[0] ==> m.graph == AskerScore(b, i, y, ps))
  {
    hide Aligned, ListCand, Asker, Asked, NeighboursOf, PartnerOf, PairedOf, G.GraphScore, ToldApart, GraphOf;
    var a := Asker(b[i], b[y]);
    forall c ensures ListCand(a, b, c) <==> c == Cand(0, i, 1.0, 0.0) || c == Cand(Asked(b[i], b[y]), y, 1.0, 0.0) {
      AskerCandidates(b, i, y, c);
    }
    AskerIsForced(b, i, y);
    ps := ForcedReport(a, b, ONCE);
    var p0 := ToPair(RescoreOne(SettingOf(a, b, 1.0), Cand(0, i, 1.0, 0.0), ps), 1.0);
    AskerPair(b, i, y, ps);
    assert p0 in Aligned(a, b, ONCE);
    AlignedInRange(a, b, ONCE);
    var qs := Aligned(a, b, ONCE);
    var k :| 0 <= k < |qs| && qs[k] == p0;
    assert Reported(a, b, ONCE)[k].na == a[0];
    forall m | m in Reported(a, b, ONCE) && m.na == a[0] ensures m.graph == AskerScore(b, i, y, ps) {
      var l :| 0 <= l < |qs| && Reported(a, b, ONCE)[l] == m;
      assert qs[l] in qs;
      var c :| ListCand(a, b, c) && qs[l] == ToPair(RescoreOne(SettingOf(a, b, 1.0), c, ps), 1.0);
      SidesOfAsker(b, i, y, c);
    }
  }

  // The two candidates share no function.
  lemma SidesOfAsker(b: seq<Node>, i: nat, y: nat, c: Cand)
    requires ToldApart(b) && i < |b| && y < |b|
    requires c == Cand(0, i, 1.0, 0.0) || c == Cand(Asked(b[i], b[y]), y, 1.0, 0.0)
    ensures var a := Asker(b[i], b[y]); c.a < |a| && (a[c.a] == a[0] ==> c == Cand(0, i, 1.0, 0.0))
    ensures c.b == i ==> c == Cand(0, i, 1.0, 0.0)
  {
    assert i != y ==> b[i] != b[y];
  }

  lemma AskerIsForced(b: seq<Node>, i: nat, y: nat)
    requires ToldApart(b) && i < |b| && y < |b|
    ensures Forced(Asker(b[i], b[y]), b)
  {
    hide ListCand, Asker, ToldApart;
    var a := Asker(b[i], b[y]);
    forall c, d | ListCand(a, b, c) && ListCand(a, b, d) && Clash(c, d) ensures c == d {
      AskerCandidates(b, i, y, c);
      AskerCandidates(b, i, y, d);
      SidesOfAsker(b, i, y, c);
      SidesOfAsker(b, i, y, d);
    }
  }

  // The pair of the asking function.
  lemma AskerPair(b: seq<Node>, i: nat, y: nat, ps: seq<Pair>)
    requires ToldApart(b) && i < |b| && y < |b|
    requires PairsAll(ps, Asker(b[i], b[y]), b)
    ensures var a := Asker(b[i], b[y]);
            var c := RescoreOne(SettingOf(a, b, 1.0), Cand(0, i, 1.0, 0.0), ps);
            c == Cand(0, i, 1.0, AskerScore(b, i, y, ps)) && ToPair(c, 1.0).score == 1.0
  {
    hide NeighboursOf, PartnerOf, PairedOf, G.GraphScore, ToldApart, ListCand;
    var a := Asker(b[i], b[y]);
    NeighboursAreAround(b, true, i);
    GraphOfRange(SettingOf(a, b, 1.0), Cand(0, i, 1.0, 0.0), ps);
  }

  // ---------- the exact condition ----------

  // A callee found over b and missed over b2 makes a difference somebody can see.
  lemma MissIsSeen(b: seq<Node>, b2: seq<Node>, i: nat, j: nat, y: nat)
    requires DistinctKeys(b) && multiset(b) == multiset(b2) && |b| <= U64_MAX
    requires i < |b| && j < |b2| && y < |b| && G.KeysOf(b, true)[i] == G.KeysOf(b2, true)[j]
    requires G.BinarySearch(G.Callees(b, true)[i], y)
    requires G.KeysOf(b, true)[y] !in FoundKeys(G.Callees(b2, true)[j], b2)
    ensures exists prints: G.Key -> Fingerprint, a, o ::
              DistinctEntries(a) && Reported(a, Reprinted(b, prints), o) != Reported(a, Reprinted(b2, prints), o)
  {
    hide G.Callees, G.BinarySearch, Reprinted, OwnPrints, ToldApart, Reported, AskerScore, Asker, PairsAll, PartnerOf, PairedOf;
    var prints := OwnPrints(G.KeysOf(b, true));
    var c, c2 := Reprinted(b, prints), Reprinted(b2, prints);
    OwnPrintsTellApart(b);
    ReprintedShape(b, prints);
    ReprintedShape(b2, prints);
    ReprintedReorders(b, b2, prints);
    ToldApartReorders(c, c2);
    KeysReorder(c, c2);
    SameKeySameNode(c, c2, i, j);
    SameElements(c, c2);
    assert c[y] in c2;
    var y2: nat :| y2 < |c2| && c2[y2] == c[y];
    assert G.KeysOf(c2, true)[y2] == G.KeysOf(c, true)[y];
    assert !G.BinarySearch(G.Callees(c2, true)[j], y2);
    var a := Asker(c[i], c[y]);
    var ps := AskerReport(c, i, y);
    var ps2 := AskerReport(c2, j, y2);
    AskerPairing(c, i, y, ps);
    AskerPairing(c2, j, y2, ps2);
    AskerNeighbours(c[i], c[y]);
    ScoresOfBoth(c, i, y, c2, j, y2, ps, ps2);
    var m :| m in Reported(a, c, ONCE) && m.na == a[0];
    assert m !in Reported(a, c2, ONCE);
  }

  lemma ScoresOfBoth(b: seq<Node>, i: nat, y: nat, b2: seq<Node>, j: nat, y2: nat, ps: seq<Pair>, ps2: seq<Pair>)
    requires ToldApart(b) && ToldApart(b2) && Reordered(b, b2, true)
    requires i < |b| && y < |b| && j < |b2| && y2 < |b2| && b[i] == b2[j] && b[y] == b2[y2]
    requires PairsAll(ps, Asker(b[i], b[y]), b) && PairsAll(ps2, Asker(b2[j], b2[y2]), b2)
    requires G.BinarySearch(G.Callees(b, true)[i], y) && !G.BinarySearch(G.Callees(b2, true)[j], y2)
    ensures AskerScore(b, i, y, ps) != AskerScore(b2, j, y2, ps2)
  {
    hide ToldApart, Reordered, PairsAll, Tells, G.Callees, G.BinarySearch, G.GraphScore, NeighboursOf, AroundOf, PartnerOf,
         PairedOf, AskerMatched;
    var a := Asker(b[i], b[y]);
    AskerPairing(b, i, y, ps);
    AskerPairing(b2, j, y2, ps2);
    AskerScoresDiffer(b, i, y, b2, j, y2, PartnerOf(ps, |a|), PairedOf(ps, |b|), PartnerOf(ps2, |a|), PairedOf(ps2, |b2|));
  }

  // Nobody can see the order of a corpus exactly when the searches find the same callees; next to
  // an order in which nothing is missed, when nothing is missed in the other either.
  lemma OrderUnseenIff(b: seq<Node>, b2: seq<Node>)
    requires DistinctKeys(b) && multiset(b) == multiset(b2) && |b| <= U64_MAX
    ensures OrderUnseen(b, b2) <==> SearchedAlike(b, b2)
    ensures ListsSearchable(b) ==> (OrderUnseen(b, b2) <==> ListsSearchable(b2))
  {
    hide ListsSearchable, OrderUnseen;
    UnseenIffAlike(b, b2);
    KeysReorder(b, b2);
    if ListsSearchable(b) { SearchedAlikeIff(b, b2); }
  }

  lemma UnseenIffAlike(b: seq<Node>, b2: seq<Node>)
    requires DistinctKeys(b) && multiset(b) == multiset(b2) && |b| <= U64_MAX
    ensures OrderUnseen(b, b2) <==> SearchedAlike(b, b2)
  {
    hide DistinctKeys, DistinctEntries, Reprinted, Reported, G.Callees, FoundKeys;
    if SearchedAlike(b, b2) {
      forall prints: G.Key -> Fingerprint, a, o | DistinctEntries(a)
        ensures Reported(a, Reprinted(b, prints), o) == Reported(a, Reprinted(b2, prints), o)
      {
        ReprintedReorders(b, b2, prints);
        AlignIgnoresInputOrder(a, Reprinted(b, prints), a, Reprinted(b2, prints), o);
      }
    } else {
      var i, j :| 0 <= i < |b| && 0 <= j < |b2| && G.KeysOf(b, true)[i] == G.KeysOf(b2, true)[j]
        && FoundKeys(G.Callees(b, true)[i], b) != FoundKeys(G.Callees(b2, true)[j], b2);
      DifferenceIsSeen(b, b2, i, j);
    }
  }

  lemma DifferenceIsSeen(b: seq<Node>, b2: seq<Node>, i: nat, j: nat)
    requires DistinctKeys(b) && multiset(b) == multiset(b2) && |b| <= U64_MAX
    requires i < |b| && j < |b2| && G.KeysOf(b, true)[i] == G.KeysOf(b2, true)[j]
    requires FoundKeys(G.Callees(b, true)[i], b) != FoundKeys(G.Callees(b2, true)[j], b2)
    ensures !OrderUnseen(b, b2)
  {
    hide DistinctKeys, DistinctEntries, Reprinted, Reported, G.Callees;
    var F, F2 := FoundKeys(G.Callees(b, true)[i], b), FoundKeys(G.Callees(b2, true)[j], b2);
    DistinctReorders(b, b2);
    SameElements(b, b2);
    if k :| k in F && k !in F2 {
      var y: nat :| y < |b| && G.BinarySearch(G.Callees(b, true)[i], y) && G.KeysOf(b, true)[y] == k;
      MissIsSeen(b, b2, i, j, y);
    } else if k :| k in F2 && k !in F {
      var y: nat :| y < |b2| && G.BinarySearch(G.Callees(b2, true)[j], y) && G.KeysOf(b2, true)[y] == k;
      MissIsSeen(b2, b, j, i, y);
    } else {
      assert false;
    }
  }
}
