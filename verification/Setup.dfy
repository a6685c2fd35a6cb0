/**
  crates/fnprint-emu, the setup of a run: the segments of a loaded image, the six argument
  windows and the stack are mapped one after the other, and never come near the limits of
  the page mapper.
 */
module Setup {
  import opened Machine
  import opened Wrappers
  import opened Sorting
  import opened Pages
  import opened Loader
  import H = Hooks

  function SegmentSpan(s: Segment): (U64, U64) { (s.vaddr, Saturate(|s.bytes|)) }

  // The spans in the order of the setup.
  function Spans(segs: seq<Segment>): (r: seq<(U64, U64)>)
    ensures |r| == |segs| + H.NARGS + 1
  {
    seq(|segs|, i requires 0 <= i < |segs| => SegmentSpan(segs[i])) +
    seq(H.NARGS, k requires 0 <= k < H.NARGS => (H.ArgBase(k), H.ARG_SIZE)) +
    [(H.STACK_BASE, H.STACK_SIZE)]
  }

  // ---------- how many runs a span can have ----------

  lemma NextPage(p: nat, q: nat)
    requires Aligned(p) && Aligned(q) && p < q
    ensures Aligned(p + PAGE) && p + PAGE <= q
  {
  }

  // Between two runs stands a mapped page.
  lemma {:induction false} RunsAreFew(mapped: set<nat>, p: nat, last: nat)
    requires Aligned(p) && Aligned(last) && p <= last
    ensures |Runs(mapped, p, last)| * 2 * PAGE <= last - p + PAGE
    decreases last - p
  {
    hide Runs, RunEnd, PagesIn, Aligned;
    if p == last {
      RunsEnd(mapped, last);
    } else if p in mapped {
      NextPage(p, last);
      MappedIsSkipped(mapped, p, last);
      RunsAreFew(mapped, p + PAGE, last);
    } else {
      RunEndStops(mapped, p, last);
      RunAt(mapped, p, last);
      var e := RunEnd(mapped, p, last);
      NextPage(p, e);
      if e < last {
        NextPage(e, last);
        MappedIsSkipped(mapped, e, last);
        RunsAreFew(mapped, e + PAGE, last);
      } else {
        RunsEnd(mapped, last);
      }
    }
  }

  lemma MappedIsSkipped(mapped: set<nat>, p: nat, last: nat)
    requires p < last && p in mapped
    ensures Runs(mapped, p, last) == Runs(mapped, p + PAGE, last)
  {
  }

  lemma OneRunAtMost(mapped: set<nat>, p: nat, last: nat)
    requires Aligned(p) && Aligned(last)
    requires PagesIn(p + PAGE, last) !! mapped
    ensures |Runs(mapped, p, last)| <= 1
  {
    if p < last {
      if p in mapped {
        if p + PAGE < last {
          FreeSpanIsOneRun(mapped, p + PAGE, last);
        }
      } else {
        OnePage(p);
        SplitPages(p, p + PAGE, last);
        FreeSpanIsOneRun(mapped, p, last);
      }
    }
  }

  // A segment ends at or before the next one starts, and so do their pages, but for one
  // they may share.
  lemma EndsBeforeNext(v: U64, len: U64, w: U64)
    requires Saturate(v + len) <= w
    ensures Last(v, len) <= First(w) + PAGE
  {
    PageOfAligned(w);
    PageOfAligned(Saturate(Saturate(v + len) + (PAGE - 1)));
  }

  lemma SpanIsAligned(start: U64, len: U64)
    ensures Aligned(First(start)) && Aligned(Last(start, len))
  {
    PageOfAligned(start);
    PageOfAligned(Saturate(Saturate(start + len) + (PAGE - 1)));
  }

  // What earlier segments mapped meets a segment in its first page at most.
  lemma SegmentHasOneRun(segs: seq<Segment>, k: nat)
    requires Sorted(segs, ByVaddr()) && Clear(segs) && k < |segs|
    ensures |RunsAt(Spans(segs), k)| <= 1
  {
    hide First, Last, Clear, Runs;
    var spans := Spans(segs);
    var first, last := First(spans[k].0), Last(spans[k].0, spans[k].1);
    SpanIsAligned(spans[k].0, spans[k].1);
    forall p | p in PagesOf(spans[..k]) ensures p !in PagesIn(first + PAGE, last) {
      var i :| 0 <= i < k && p in SpanPages(spans[..k][i]);
      ClearReaches(segs, i, k);
      EndsBeforeNext(spans[i].0, spans[i].1, spans[k].0);
    }
    OneRunAtMost(PagesOf(spans[..k]), first, last);
  }

  // The most runs the k-th span of a setup can have.
  function RunLimit(segs: nat, k: nat): nat {
    if k < segs then 1 else if k < segs + H.NARGS then 4 else 32
  }

  lemma WindowSizes(segs: seq<Segment>, k: nat)
    requires |segs| <= k < |Spans(segs)|
    ensures var span := Spans(segs)[k];
            Last(span.0, span.1) - First(span.0) == PAGE * if k < |segs| + H.NARGS then 8 else 64
  {
  }

  lemma SpanRuns(segs: seq<Segment>, k: nat)
    requires Sorted(segs, ByVaddr()) && Clear(segs) && k < |Spans(segs)|
    ensures |RunsAt(Spans(segs), k)| <= RunLimit(|segs|, k) < 64
  {
    hide First, Last, Clear, Runs, Spans;
    var spans := Spans(segs);
    if k < |segs| {
      SegmentHasOneRun(segs, k);
    } else {
      SpanIsAligned(spans[k].0, spans[k].1);
      WindowSizes(segs, k);
      RunsAreFew(PagesOf(spans[..k]), First(spans[k].0), Last(spans[k].0, spans[k].1));
    }
  }

  lemma {:induction false} RequestsAreFew(segs: seq<Segment>, k: nat)
    requires Sorted(segs, ByVaddr()) && Clear(segs) && k <= |Spans(segs)|
    ensures |Requests(Spans(segs), k)| <=
            if k <= |segs| then k else if k <= |segs| + H.NARGS then |segs| + 4 * (k - |segs|) else |segs| + 56
  {
    hide Clear, RunsAt, Spans;
    if k > 0 {
      RequestsAreFew(segs, k - 1);
      SpanRuns(segs, k - 1);
    }
  }

  // Everything a run is set up with: the bytes of its segments below the last page of the address
  // space, six argument windows and the stack.
  ghost predicate Wanted(segs: seq<Segment>, x: nat) {
    || (exists i :: 0 <= i < |segs| && Occupies(segs[i], x) && EndOf(segs[i]) <= 0xFFFF_FFFF_FFFF_F000)
    || (exists k :: 0 <= k < 6 && InWindow(k, x))
    || 0x20_0000_0000 <= x < 0x20_0004_0000
  }

  predicate InWindow(k: nat, x: nat) { 0 <= x - (0x10_0000_0000 + k * 0x1_0000_0000) < 0x8000 }

  lemma SpanIsMapped(spans: seq<(U64, U64)>, i: nat, x: nat)
    requires i < |spans| && spans[i].0 <= x < spans[i].0 + spans[i].1 <= U64_MAX + 1 - PAGE
    ensures PageOf(x) in PagesOf(spans)
  {
    hide First, Last, PagesIn;
    SpanCoversIff(spans[i].0, spans[i].1);
    assert PageOf(x) in SpanPages(spans[i]);
  }

  lemma WantedIsMapped(segs: seq<Segment>, x: nat)
    requires Wanted(segs, x)
    ensures PageOf(x) in PagesOf(Spans(segs))
  {
    hide PagesOf, PageOf;
    var spans := Spans(segs);
    if i :| 0 <= i < |segs| && Occupies(segs[i], x) && EndOf(segs[i]) <= 0xFFFF_FFFF_FFFF_F000 {
      SpanIsMapped(spans, i, x);
    } else if k :| 0 <= k < 6 && InWindow(k, x) {
      assert spans[|segs| + k] == (H.ArgBase(k), H.ARG_SIZE);
      SpanIsMapped(spans, |segs| + k, x);
    } else {
      assert spans[|segs| + H.NARGS] == (H.STACK_BASE, H.STACK_SIZE);
      SpanIsMapped(spans, |segs| + H.NARGS, x);
    }
  }

  // Over segments that passed the loader's check the setup can only fail because the engine
  // refuses; it asks for one region per segment and at most 56 more.
  method SetUp(uc: Engine, segs: seq<Segment>) returns (r: Result<(), MapError>, mirror: set<nat>)
    requires uc.Valid() && uc.regions == []
    requires Sorted(segs, ByVaddr()) && Clear(segs)
    modifies uc
    ensures uc.Valid() && mirror == uc.pages
    ensures r.Ok? ==> mirror == PagesOf(Spans(segs)) && uc.regions == Requests(Spans(segs), |Spans(segs)|)
    ensures r.Ok? ==> forall x: nat :: Wanted(segs, x) ==> PageOf(x) in uc.pages
    ensures r.Err? ==> r.error == EngineRefused
    ensures |uc.regions| <= |segs| + 56
  {
    hide Sorted, Clear, Spans, RunsAt, PagesOf;
    var spans := Spans(segs);
    r, mirror := MapAll(uc, spans);
    RequestsAreFew(segs, |spans|);
    if r.Err? {
      ghost var k :| 0 <= k < |spans| && StoppedAt(spans, k, uc.regions, r.error);
      SpanRuns(segs, k);
      RequestsGrow(spans, k + 1, |spans|);
    }
    forall x: nat | Wanted(segs, x) ensures PageOf(x) in PagesOf(spans) { WantedIsMapped(segs, x); }
  }

  lemma {:induction false} RequestsGrow(spans: seq<(U64, U64)>, j: nat, k: nat)
    requires j <= k <= |spans|
    ensures |Requests(spans, j)| <= |Requests(spans, k)|
  {
    if j < k { RequestsGrow(spans, j, k - 1); }
  }

  // Whatever file was loaded, no span of its setup comes near the limit on runs, and the
  // engine is asked for few regions.
  lemma LoadedImageFits(phs: seq<Phdr>, file: seq<bv8>, k: nat)
    requires |file| <= U64_MAX && PlanError(phs, |file|).None? && Clear(Segments(phs, file))
    requires k < |Spans(Segments(phs, file))|
    ensures var segs := Segments(phs, file);
            && |RunsAt(Spans(segs), k)| <= RunLimit(|segs|, k) < 64
            && |Requests(Spans(segs), |Spans(segs)|)| <= 312
  {
    hide Segments, Clear, Spans, RunsAt, Requests, PlanError;
    LoadedSegments(phs, file);
    SpanRuns(Segments(phs, file), k);
    RequestsAreFew(Segments(phs, file), |Spans(Segments(phs, file))|);
  }
}
