/**
  crates/fnprint-emu, ensure_pages: mapping a span of pages in as few regions as
  possible while a set mirrors what the engine has mapped.
 */
module Pages {
  import opened Machine
  import opened Wrappers

  const MAX_SETUP_RUNS: nat := 64

  datatype MapError = TooManyRuns | EngineRefused

  // The page addresses of [lo, hi).
  ghost function PagesIn(lo: nat, hi: nat): set<nat> {
    set p | lo <= p < hi && p % PAGE == 0
  }

  predicate Aligned(x: nat) { x % PAGE == 0 }

  function First(start: U64): nat { PageOf(start) }

  function Last(start: U64, len: U64): nat {
    PageOf(Saturate(Saturate(start + len) + (PAGE - 1)))
  }

  // The emulator's memory: its pages and the regions it was asked for, in order.
  class Engine {
    ghost var pages: set<nat>
    var regions: seq<(nat, nat)>

    // Maps a fresh region. Refuses any overlap, and may refuse for reasons of its own.
    method MemMap(lo: nat, hi: nat) returns (ok: bool)
      requires Aligned(lo) && Aligned(hi) && lo < hi
      requires Valid()
      modifies this
      ensures Valid()
      ensures ok ==> PagesIn(lo, hi) !! old(pages)
      ensures ok ==> pages == old(pages) + PagesIn(lo, hi) && regions == old(regions) + [(lo, hi)]
      ensures !ok ==> pages == old(pages) && regions == old(regions)
    {
      var refuse := *;
      if refuse || Overlaps(regions, lo, hi) {
        return false;
      }
      NoOverlapIsDisjoint(regions, lo, hi);
      AllPagesSnoc(regions, (lo, hi));
      regions := regions + [(lo, hi)];
      pages := pages + PagesIn(lo, hi);
      return true;
    }

    ghost predicate Valid()
      reads this
    {
      && pages == AllPages(regions)
      && forall i :: 0 <= i < |regions| ==> Aligned(regions[i].0) && Aligned(regions[i].1)
    }
  }

  predicate Overlaps(regions: seq<(nat, nat)>, lo: nat, hi: nat) {
    exists i :: 0 <= i < |regions| && regions[i].0 < hi && lo < regions[i].1
  }

  ghost function AllPages(regions: seq<(nat, nat)>): set<nat> {
    if regions == [] then {}
    else AllPages(regions[..|regions| - 1]) + PagesIn(regions[|regions| - 1].0, regions[|regions| - 1].1)
  }

  lemma AllPagesSnoc(regions: seq<(nat, nat)>, r: (nat, nat))
    ensures AllPages(regions + [r]) == AllPages(regions) + PagesIn(r.0, r.1)
  {
    assert (regions + [r])[..|regions|] == regions;
  }

  lemma {:induction false} NoOverlapIsDisjoint(regions: seq<(nat, nat)>, lo: nat, hi: nat)
    requires !Overlaps(regions, lo, hi)
    ensures PagesIn(lo, hi) !! AllPages(regions)
  {
    if regions != [] {
      var n := |regions| - 1;
      assert !Overlaps(regions[..n], lo, hi) by {
        forall i | 0 <= i < n ensures !(regions[..n][i].0 < hi && lo < regions[..n][i].1) {
          assert regions[..n][i] == regions[i];
        }
      }
      NoOverlapIsDisjoint(regions[..n], lo, hi);
    }
  }

  // ---------- maximal unmapped runs ----------

  // The first page from p on that is mapped, or the end.
  function RunEnd(mapped: set<nat>, p: nat, last: nat): nat
    decreases last - p
  {
    if p >= last || p in mapped then p else RunEnd(mapped, p + PAGE, last)
  }

  lemma {:induction false} RunEndStops(mapped: set<nat>, p: nat, last: nat)
    requires Aligned(p) && Aligned(last) && p <= last
    ensures var e := RunEnd(mapped, p, last);
            && p <= e <= last && Aligned(e)
            && PagesIn(p, e) !! mapped
            && (e < last ==> e in mapped)
            && (p < last && p !in mapped ==> p < e)
    decreases last - p
  {
    if p < last && p !in mapped {
      RunEndStops(mapped, p + PAGE, last);
      var e := RunEnd(mapped, p, last);
      assert PagesIn(p, e) == {p} + PagesIn(p + PAGE, e);
    }
  }

  function Runs(mapped: set<nat>, p: nat, last: nat): seq<(nat, nat)>
    decreases last - p
  {
    if p >= last then []
    else if p in mapped then Runs(mapped, p + PAGE, last)
    else
      var e := RunEnd(mapped, p + PAGE, last);
      [(p, e)] + (if e > p then Runs(mapped, e, last) else [])
  }

  // A run of free pages that stops only at mapped pages or at the edges of the span.
  ghost predicate MaximalRun(r: (nat, nat), mapped: set<nat>, first: nat, last: nat) {
    && first <= r.0 < r.1 <= last
    && Aligned(r.0) && Aligned(r.1)
    && PagesIn(r.0, r.1) !! mapped
    && (r.0 == first || r.0 - PAGE in mapped)
    && (r.1 == last || r.1 in mapped)
  }

  ghost predicate MaximalRuns(runs: seq<(nat, nat)>, mapped: set<nat>, first: nat, last: nat) {
    && (forall i :: 0 <= i < |runs| ==> MaximalRun(runs[i], mapped, first, last))
    && (forall i, j :: 0 <= i < j < |runs| ==> runs[i].1 < runs[j].0)
    && AllPages(runs) == PagesIn(first, last) - mapped
  }

  lemma {:induction false} AllPagesCons(r: (nat, nat), rest: seq<(nat, nat)>)
    ensures AllPages([r] + rest) == PagesIn(r.0, r.1) + AllPages(rest)
  {
    var s := [r] + rest;
    if rest == [] {
      assert s[..0] == [];
    } else {
      AllPagesCons(r, rest[..|rest| - 1]);
      assert s[..|s| - 1] == [r] + rest[..|rest| - 1];
    }
  }

  lemma SplitPages(lo: nat, mid: nat, hi: nat)
    requires lo <= mid <= hi
    ensures PagesIn(lo, hi) == PagesIn(lo, mid) + PagesIn(mid, hi)
  {
  }

  lemma OnePage(p: nat)
    requires Aligned(p)
    ensures PagesIn(p, p + PAGE) == {p}
  {
  }

  // A run of the rest of a span, seen from the whole span.
  lemma WidenRun(r: (nat, nat), mapped: set<nat>, p: nat, e: nat, last: nat)
    requires MaximalRun(r, mapped, e, last) && Aligned(p) && Aligned(e) && p < e
    requires e - PAGE in mapped || e in mapped
    ensures MaximalRun(r, mapped, p, last)
    ensures e in mapped ==> e < r.0
  {
    assert r.0 in PagesIn(r.0, r.1);
  }

  lemma WidenRuns(runs: seq<(nat, nat)>, mapped: set<nat>, p: nat, last: nat)
    requires Aligned(p) && p + PAGE <= last && p in mapped
    requires MaximalRuns(runs, mapped, p + PAGE, last)
    ensures MaximalRuns(runs, mapped, p, last)
  {
    hide MaximalRun;
    forall i | 0 <= i < |runs| ensures MaximalRun(runs[i], mapped, p, last) {
      WidenRun(runs[i], mapped, p, p + PAGE, last);
    }
    SplitPages(p, p + PAGE, last);
    OnePage(p);
  }

  lemma ConsRun(rest: seq<(nat, nat)>, mapped: set<nat>, p: nat, e: nat, last: nat)
    requires MaximalRun((p, e), mapped, p, last)
    requires MaximalRuns(rest, mapped, e, last)
    ensures MaximalRuns([(p, e)] + rest, mapped, p, last)
  {
    hide AllPages;
    var runs := [(p, e)] + rest;
    forall i | 0 <= i < |rest| ensures MaximalRun(rest[i], mapped, p, last) && e < rest[i].0 {
      assert MaximalRun(rest[i], mapped, e, last);
      assert e < last;
      WidenRun(rest[i], mapped, p, e, last);
    }
    AllPagesCons((p, e), rest);
    SplitPages(p, e, last);
  }

  // The runs are exactly the gaps of the mirror inside the span.
  lemma {:induction false} RunsAreMaximal(mapped: set<nat>, p: nat, last: nat)
    requires Aligned(p) && Aligned(last) && p <= last
    ensures MaximalRuns(Runs(mapped, p, last), mapped, p, last)
    decreases last - p
  {
    hide MaximalRuns;
    if p == last {
      NoRuns(mapped, p);
    } else if p in mapped {
      RunsAreMaximal(mapped, p + PAGE, last);
      WidenRuns(Runs(mapped, p + PAGE, last), mapped, p, last);
    } else {
      RunEndStops(mapped, p, last);
      var e := RunEnd(mapped, p, last);
      assert e == RunEnd(mapped, p + PAGE, last);
      RunsAreMaximal(mapped, e, last);
      ConsRun(Runs(mapped, e, last), mapped, p, e, last);
    }
  }

  lemma NoRuns(mapped: set<nat>, p: nat)
    ensures MaximalRuns([], mapped, p, p)
  {
    assert PagesIn(p, p) == {};
  }

  // A span that meets no mapped page is one run.
  lemma FreeSpanIsOneRun(mapped: set<nat>, p: nat, last: nat)
    requires Aligned(p) && Aligned(last) && p < last
    requires PagesIn(p, last) !! mapped
    ensures Runs(mapped, p, last) == [(p, last)]
  {
    assert p in PagesIn(p, last);
    RunEndStops(mapped, p, last);
    var e := RunEnd(mapped, p, last);
    assert e == RunEnd(mapped, p + PAGE, last);
    assert e < last ==> e in PagesIn(p, last);
  }

  // ---------- ensure_pages ----------

  lemma PageOfAligned(x: nat)
    ensures Aligned(PageOf(x)) && PageOf(x) <= x < PageOf(x) + PAGE
  {
  }

  // Maps what the span still lacks. On success the engine was asked for exactly the maximal
  // gaps, in order, at most 64 of them; on failure for a proper prefix of them. Either way the
  // mirror is true afterwards, nothing is unmapped, and nothing outside the span is touched.
  method EnsurePages(uc: Engine, mapped: set<nat>, start: U64, len: U64)
    returns (r: Result<(), MapError>, mirror: set<nat>)
    requires uc.Valid() && mapped == uc.pages
    modifies uc
    ensures uc.Valid() && mirror == uc.pages
    ensures old(uc.regions) <= uc.regions
    ensures var runs := Runs(mapped, First(start), Last(start, len));
            var added := uc.regions[|old(uc.regions)|..];
            && (r.Ok? ==> added == runs && |runs| <= 64)
            && (r.Err? ==> added < runs && |added| <= 64)
            && (r == Err(TooManyRuns) ==> |added| == 64)
    ensures mapped <= mirror <= mapped + PagesIn(First(start), Last(start, len))
    ensures r.Ok? ==> mirror == mapped + PagesIn(First(start), Last(start, len))
  {
    var first, last := First(start), Last(start, len);
    PageOfAligned(start);
    PageOfAligned(Saturate(Saturate(start + len) + (PAGE - 1)));
    mirror := mapped;
    ghost var before := uc.regions;
    if last <= first {
      assert PagesIn(first, last) == {};
      assert uc.regions[|before|..] == [];
      return Ok(()), mirror;
    }
    ghost var runs := Runs(mapped, first, last);
    RunsAreMaximal(mapped, first, last);
    var whole := uc.MemMap(first, last);
    if whole {
      FreeSpanIsOneRun(mapped, first, last);
      assert uc.regions[|before|..] == [(first, last)];
      mirror := AddPages(mapped, first, last);
      return Ok(()), mirror;
    }
    r, mirror := MapGaps(uc, mapped, first, last);
  }

  method AddPages(mapped: set<nat>, lo: nat, hi: nat) returns (mirror: set<nat>)
    requires Aligned(lo) && Aligned(hi) && lo <= hi
    ensures mirror == mapped + PagesIn(lo, hi)
  {
    mirror := mapped;
    var p := lo;
    assert PagesIn(lo, lo) == {};
    while p < hi
      invariant lo <= p <= hi && Aligned(p)
      invariant mirror == mapped + PagesIn(lo, p)
    {
      SplitPages(lo, p, p + PAGE);
      OnePage(p);
      mirror := mirror + {p};
      p := p + PAGE;
    }
  }

  // The page-run fallback.
  method MapGaps(uc: Engine, mapped: set<nat>, first: nat, last: nat)
    returns (r: Result<(), MapError>, mirror: set<nat>)
    requires uc.Valid() && mapped == uc.pages
    requires Aligned(first) && Aligned(last) && first < last
    modifies uc
    ensures uc.Valid() && mirror == uc.pages
    ensures old(uc.regions) <= uc.regions
    ensures var runs := Runs(mapped, first, last);
            var added := uc.regions[|old(uc.regions)|..];
            && (r.Ok? ==> added == runs && |runs| <= 64)
            && (r.Err? ==> added < runs && |added| <= 64)
            && (r == Err(TooManyRuns) ==> |added| == 64)
    ensures mapped <= mirror <= mapped + PagesIn(first, last)
    ensures r.Ok? ==> mirror == mapped + PagesIn(first, last)
  {
    hide Runs, RunEnd, PagesIn, AllPages;
    mirror := mapped;
    ghost var before := uc.regions;
    ghost var added: seq<(nat, nat)> := [];
    var runs := 0;
    var p := first;
    NoPages(first);
    while p < last
      invariant first <= p <= last && Aligned(p)
      invariant uc.Valid() && mirror == uc.pages
      invariant uc.regions == before + added && |added| == runs <= MAX_SETUP_RUNS
      invariant Runs(mapped, first, last) == added + Runs(mapped, p, last)
      invariant mirror == mapped + PagesIn(first, p)
      decreases last - p
    {
      SplitPages(first, p, last);
      if p in mirror {
        SkipMapped(mapped, mirror, first, p, last);
        p := p + PAGE;
        continue;
      }
      var runStart := p;
      p := ScanRun(mirror, mapped, first, runStart, last);
      RunAt(mapped, runStart, last);
      runs := runs + 1;
      if runs > MAX_SETUP_RUNS {
        assert uc.regions[|before|..] == added;
        return Err(TooManyRuns), mirror;
      }
      var ok := uc.MemMap(runStart, p);
      if !ok {
        assert uc.regions[|before|..] == added;
        return Err(EngineRefused), mirror;
      }
      added := added + [(runStart, p)];
      mirror := AddPages(mirror, runStart, p);
      SplitPages(first, runStart, p);
    }
    assert uc.regions[|before|..] == added;
    RunsEnd(mapped, last);
    return Ok(()), mirror;
  }

  lemma NoPages(p: nat)
    ensures PagesIn(p, p) == {}
  {
  }

  lemma RunsEnd(mapped: set<nat>, last: nat)
    ensures Runs(mapped, last, last) == []
  {
  }

  // Below p the mirror has every page; from p on it is still the old one.
  lemma SkipMapped(mapped: set<nat>, mirror: set<nat>, first: nat, p: nat, last: nat)
    requires mirror == mapped + PagesIn(first, p) && p in mirror && Aligned(p) && first <= p < last
    ensures Runs(mapped, p, last) == Runs(mapped, p + PAGE, last)
    ensures mirror == mapped + PagesIn(first, p + PAGE)
    ensures Aligned(last) ==> p + PAGE <= last
  {
    SplitPages(first, p, p + PAGE);
    OnePage(p);
  }

  lemma RunAt(mapped: set<nat>, p: nat, last: nat)
    requires Aligned(p) && Aligned(last) && p < last && p !in mapped
    ensures var e := RunEnd(mapped, p, last); Runs(mapped, p, last) == [(p, e)] + Runs(mapped, e, last)
  {
    RunEndStops(mapped, p, last);
    assert RunEnd(mapped, p, last) == RunEnd(mapped, p + PAGE, last);
  }

  method ScanRun(mirror: set<nat>, ghost mapped: set<nat>, ghost first: nat, start: nat, last: nat) returns (p: nat)
    requires Aligned(first) && Aligned(start) && Aligned(last) && first <= start < last
    requires mirror == mapped + PagesIn(first, start) && start !in mirror
    ensures p == RunEnd(mapped, start, last)
    ensures start < p <= last && Aligned(p)
  {
    p := start;
    while p < last && p !in mirror
      invariant start <= p <= last && Aligned(p)
      invariant RunEnd(mapped, start, last) == RunEnd(mapped, p, last)
      decreases last - p
    {
      assert p !in mapped;
      p := p + PAGE;
    }
  }

  // ---------- when the rounded span covers the bytes ----------

  // Every byte of the range that exists lies on a page of the rounded span, exactly when the
  // range stays out of the last page of the address space; there the saturated rounding
  // leaves the top page out, and a range inside that page has an empty span.
  lemma SpanCoversIff(start: U64, len: U64)
    requires len > 0
    ensures (forall x :: start <= x < start + len && x <= U64_MAX ==> PageOf(x) in PagesIn(First(start), Last(start, len)))
            <==> start + len <= U64_MAX + 1 - PAGE
    ensures start >= U64_MAX + 1 - PAGE ==> PagesIn(First(start), Last(start, len)) == {}
  {
    if start + len <= U64_MAX + 1 - PAGE {
      forall x | start <= x < start + len && x <= U64_MAX
        ensures PageOf(x) in PagesIn(First(start), Last(start, len))
      {
        PageOfAligned(x);
        CoversBelowTop(start, len, x);
      }
    } else {
      var x := if start + len - 1 <= U64_MAX then start + len - 1 else U64_MAX;
      assert PageOf(x) == U64_MAX + 1 - PAGE;
      assert Last(start, len) <= U64_MAX + 1 - PAGE;
      assert PageOf(x) !in PagesIn(First(start), Last(start, len));
    }
  }

  // No page is in the span without holding a byte of the range.
  lemma SpanIsTight(start: U64, len: U64, p: nat)
    requires p in PagesIn(First(start), Last(start, len)) && len > 0
    ensures exists x :: start <= x < start + len && PageOf(x) == p
  {
    PageOfAligned(start);
    PageOfAligned(Saturate(Saturate(start + len) + (PAGE - 1)));
    if p < start {
      SamePage(start, p);
    } else {
      AlignedIsOwnPage(p);
      assert p < start + len by { LastIsBelow(start, len, p); }
    }
  }

  lemma SamePage(x: nat, p: nat)
    requires Aligned(p) && PageOf(x) <= p <= x
    ensures PageOf(x) == p
  {
  }

  lemma AlignedIsOwnPage(p: nat)
    requires Aligned(p)
    ensures PageOf(p) == p
  {
  }

  lemma LastIsBelow(start: U64, len: U64, p: nat)
    requires Aligned(p) && p < Last(start, len)
    ensures p < start + len
  {
    var end := Saturate(Saturate(start + len) + (PAGE - 1));
    PageOfAligned(end);
    assert p + PAGE <= PageOf(end);
  }

  lemma CoversBelowTop(start: U64, len: U64, x: nat)
    requires start <= x < start + len <= U64_MAX + 1 - PAGE
    ensures First(start) <= PageOf(x) < Last(start, len)
  {
  }

  // ---------- the setup of a run ----------

  ghost function SpanPages(span: (U64, U64)): set<nat> { PagesIn(First(span.0), Last(span.0, span.1)) }

  ghost function PagesOf(spans: seq<(U64, U64)>): set<nat> {
    set i, p | 0 <= i < |spans| && p in SpanPages(spans[i]) :: p
  }

  // What the k-th span still lacks when its turn comes.
  ghost function RunsAt(spans: seq<(U64, U64)>, k: nat): seq<(nat, nat)>
    requires k < |spans|
  {
    Runs(PagesOf(spans[..k]), First(spans[k].0), Last(spans[k].0, spans[k].1))
  }

  // The requests for the first k spans, in order.
  ghost function Requests(spans: seq<(U64, U64)>, k: nat): seq<(nat, nat)>
    requires k <= |spans|
  {
    if k == 0 then [] else Requests(spans, k - 1) + RunsAt(spans, k - 1)
  }

  lemma PagesOfSnoc(spans: seq<(U64, U64)>, k: nat)
    requires k < |spans|
    ensures PagesOf(spans[..k + 1]) == PagesOf(spans[..k]) + SpanPages(spans[k])
  {
    var s, t := spans[..k], spans[..k + 1];
    forall p | p in PagesOf(s) + SpanPages(spans[k]) ensures p in PagesOf(t) {
      if p in SpanPages(spans[k]) {
        assert p in SpanPages(t[k]);
      } else {
        var i :| 0 <= i < k && p in SpanPages(s[i]);
        assert p in SpanPages(t[i]);
      }
    }
    forall p | p in PagesOf(t) ensures p in PagesOf(s) + SpanPages(spans[k]) {
      var i :| 0 <= i <= k && p in SpanPages(t[i]);
      if i < k { assert p in SpanPages(s[i]); }
    }
  }

  // The first k spans are mapped; the next one failed part way.
  ghost predicate StoppedAt(spans: seq<(U64, U64)>, k: nat, added: seq<(nat, nat)>, e: MapError)
    requires k < |spans|
  {
    && Requests(spans, k) <= added < Requests(spans, k) + RunsAt(spans, k)
    && (e == TooManyRuns ==> |RunsAt(spans, k)| > 64)
  }

  // The spans a run sets up one after the other. On success the engine holds exactly their
  // pages, in one region per gap met on the way; the first failure ends the setup, and it is
  // a span of more than 64 gaps or a refusal of the engine. The mirror is true either way.
  method MapAll(uc: Engine, spans: seq<(U64, U64)>) returns (r: Result<(), MapError>, mirror: set<nat>)
    requires uc.Valid() && uc.pages == {}
    modifies uc
    ensures uc.Valid() && mirror == uc.pages
    ensures r.Ok? ==> mirror == PagesOf(spans) && uc.regions == old(uc.regions) + Requests(spans, |spans|)
    ensures old(uc.regions) <= uc.regions
    ensures r.Err? ==> exists k :: 0 <= k < |spans| && StoppedAt(spans, k, uc.regions[|old(uc.regions)|..], r.error)
  {
    hide Runs, First, Last, PagesIn, PagesOf;
    mirror := {};
    ghost var before := uc.regions;
    NoSpans(spans[..0]);
    for k := 0 to |spans|
      invariant uc.Valid() && mirror == uc.pages == PagesOf(spans[..k])
      invariant uc.regions == before + Requests(spans, k)
    {
      ghost var mid := uc.regions;
      r, mirror := EnsurePages(uc, mirror, spans[k].0, spans[k].1);
      OneMoreSpan(spans, k, before, mid, uc.regions, r);
      if r.Err? {
        return r, mirror;
      }
      PagesOfSnoc(spans, k);
    }
    assert spans[..|spans|] == spans;
    r := Ok(());
  }

  lemma NoSpans(spans: seq<(U64, U64)>)
    requires spans == []
    ensures PagesOf(spans) == {}
  {
  }

  lemma OneMoreSpan(spans: seq<(U64, U64)>, k: nat, before: seq<(nat, nat)>, mid: seq<(nat, nat)>,
                    after: seq<(nat, nat)>, r: Result<(), MapError>)
    requires k < |spans| && mid == before + Requests(spans, k) && mid <= after
    requires r.Ok? ==> after[|mid|..] == RunsAt(spans, k)
    requires r.Err? ==> after[|mid|..] < RunsAt(spans, k)
    requires r == Err(TooManyRuns) ==> |after[|mid|..]| == 64
    ensures r.Ok? ==> after == before + Requests(spans, k + 1)
    ensures r.Err? ==> StoppedAt(spans, k, after[|before|..], r.error)
    ensures before <= after
  {
    hide RunsAt;
    assert after == before + (Requests(spans, k) + after[|mid|..]);
  }
}
