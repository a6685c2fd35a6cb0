/**
  crates/fnprint-emu: what a recorder holds, told by the hook calls that led there. Every field
  is a function of the history alone: which calls were acted on, what each of them was the first
  to touch or read, and what it did.
 */
module Histories {
  import opened Machine
  import opened Trace
  import opened Counting
  import opened Hooks
  import opened RecorderTheorems
  import Sorting

  // ---------- how often ----------

  function Insns(h: seq<Event>): nat { Count(h, (e: Event) => e.Code?) }

  function VisitsTo(h: seq<Event>, x: nat): nat { Count(h, (e: Event) => e.Code? && e.x == x) }

  function Accesses(h: seq<Event>): nat { Count(h, (e: Event) => e.MemRead? || e.MemWrite?) }

  function DataFaults(h: seq<Event>): nat { Count(h, (e: Event) => e.Unmapped? && !e.fetch) }

  // ---------- which calls are acted on ----------

  // The ceiling on accesses: 64 for each instruction that may run.
  function AccessLimit(cfg: Config): nat {
    if cfg.instrCap * 64 < 0x1_0000_0000_0000_0000 then cfg.instrCap * 64 else 0xFFFF_FFFF_FFFF_FFFF
  }

  // e, coming after h, trips no cap: the visits and instructions, the effects, the accesses, the
  // pages mapped on the way.
  ghost predicate WithinCaps(env: Env, h: seq<Event>, e: Event)
    decreases |h|, 1
  {
    match e
    case Unmapped(_, fetch, _) => fetch || DataFaults(h) < 256
    case MemRead(_) => Accesses(h) + 1 < AccessLimit(env.cfg)
    case MemWrite(_, _, _) => |Told(env, h)| < env.cfg.maxEffects && Accesses(h) + 1 < AccessLimit(env.cfg)
    case Code(x, _, _) =>
      VisitsTo(h, x) < env.cfg.visitCap && Insns(h) < env.cfg.instrCap && |Told(env, h)| < env.cfg.maxEffects
  }

  // No call so far has tripped a cap.
  ghost predicate Uncapped(env: Env, h: seq<Event>)
    decreases |h|, 0
  {
    forall i :: 0 <= i < |h| ==> WithinCaps(env, h[..i], h[i])
  }

  // e is acted on: a fault on data that the engine could map, an access as long as no cap was
  // ever tripped, an instruction within its own caps.
  ghost predicate Acted(env: Env, h: seq<Event>, e: Event)
    decreases |h|, 2
  {
    && WithinCaps(env, h, e)
    && (e.Unmapped? ==> !e.fetch && e.mapOk)
    && (e.MemRead? || e.MemWrite? ==> Uncapped(env, h))
  }

  // ---------- first touches ----------

  datatype Place = ArgPlace(k: U16) | ImagePlace | PagePlace(page: nat) | StackPlace

  function PlaceOf(env: Env, x: nat): Place {
    match ClassifyAddr(env.segs, x).0
    case Arg(k) => ArgPlace(k)
    case Global => ImagePlace
    case Heapish => PagePlace(PageOf(x))
    case Stack => StackPlace
  }

  ghost predicate Touches(env: Env, h: seq<Event>, e: Event, p: Place)
    decreases |h|, 3
  {
    Acted(env, h, e) && !e.Code? && PlaceOf(env, e.x) == p
  }

  ghost predicate Touched(env: Env, h: seq<Event>, p: Place)
    decreases |h|, 0
  {
    exists i :: 0 <= i < |h| && Touches(env, h[..i], h[i], p)
  }

  // Pages outside arguments, image and stack.
  ghost function PagesTouched(env: Env, h: seq<Event>): set<nat>
    decreases |h|, 0
  {
    set i | 0 <= i < |h| && Touches(env, h[..i], h[i], PlaceOf(env, h[i].x)) && PlaceOf(env, h[i].x).PagePlace? :: PageOf(h[i].x)
  }

  // What the first touch of a place shows: an argument, the image, one more page while there are
  // few; the stack never.
  ghost function TouchShows(env: Env, h: seq<Event>, e: Event): seq<Effect>
    decreases |h|, 4
  {
    var p := PlaceOf(env, e.x);
    if !Touches(env, h, e, p) || Touched(env, h, p) then []
    else
      match p
      case ArgPlace(k) => [NewRegion(Arg(k))]
      case ImagePlace => [NewRegion(Global)]
      case PagePlace(_) => if |PagesTouched(env, h)| < env.cfg.maxHeapish then [NewRegion(Heapish)] else []
      case StackPlace => []
  }

  // ---------- reads ----------

  function ReadOf(env: Env, x: nat): Effect {
    var (region, off) := ClassifyAddr(env.segs, x);
    Read(region, BucketOff(off))
  }

  ghost predicate Reads(env: Env, h: seq<Event>, e: Event)
    decreases |h|, 3
  {
    e.MemRead? && Acted(env, h, e) && PlaceOf(env, e.x) != StackPlace
  }

  ghost function TokensRead(env: Env, h: seq<Event>): set<bv64>
    decreases |h|, 0
  {
    set i | 0 <= i < |h| && Reads(env, h[..i], h[i]) :: Token(ReadOf(env, h[i].x))
  }

  // A read outside the stack shows once per token, for the first 64 tokens.
  ghost function ReadShows(env: Env, h: seq<Event>, e: Event): seq<Effect>
    decreases |h|, 4
  {
    if Reads(env, h, e) && Token(ReadOf(env, e.x)) !in TokensRead(env, h) && |TokensRead(env, h)| < 64 then [ReadOf(env, e.x)]
    else []
  }

  // ---------- everything else ----------

  // A write outside the stack shows where and what class of value; a call the import at its
  // target, if there is one; a syscall its number; a return the class of its value; a branch
  // that there was one.
  ghost function ActShows(env: Env, h: seq<Event>, e: Event): seq<Effect>
    decreases |h|, 3
  {
    if !Acted(env, h, e) then []
    else
      match e
      case MemWrite(x, size, val) =>
        var (region, off) := ClassifyAddr(env.segs, x);
        if region == Stack then [] else [Write(region, BucketOff(off), ClassifyValue(MaskToSize(val, size)))]
      case Code(_, CallInsn(dest, _), _) =>
        [Call(if dest.Some? && dest.value in env.symbols then Sym(env.symbols[dest.value]) else Anon)]
      case Code(_, SyscallInsn(nr), _) => [Syscall(nr)]
      case Code(_, RetInsn(value), _) => [Ret(ClassifyValue(value))]
      case Code(_, BranchInsn, _) => [Branch]
      case _ => []
  }

  // The trace a history leaves.
  ghost function Told(env: Env, h: seq<Event>): seq<Effect>
    decreases |h|, 0
  {
    if h == [] then []
    else
      var g, e := h[..|h| - 1], h[|h| - 1];
      Told(env, g) + TouchShows(env, g, e) + ReadShows(env, g, e) + ActShows(env, g, e)
  }

  // ---------- the other fields ----------

  // Who was called directly: targets inside the image that are no imports.
  ghost function CalledDirectly(env: Env, h: seq<Event>): set<nat> {
    set i | 0 <= i < |h| && CallsInside(env, h[..i], h[i]) :: h[i].kind.dest.value
  }

  ghost predicate CallsInside(env: Env, h: seq<Event>, e: Event) {
    && e.Code? && e.kind.CallInsn? && e.kind.direct && e.kind.dest.Some?
    && Acted(env, h, e)
    && e.kind.dest.value !in env.symbols
    && exists k :: 0 <= k < |env.segs| && env.segs[k].0 <= e.kind.dest.value < env.segs[k].1
  }

  // The first instruction at an address of the body, if it was acted on.
  ghost predicate Covers(env: Env, h: seq<Event>, e: Event) {
    e.Code? && Acted(env, h, e) && VisitsTo(h, e.x) == 0 && env.funcLo <= e.x < env.funcHi
  }

  ghost predicate CoveredBy(env: Env, h: seq<Event>, x: nat, ilen: nat) {
    exists i :: 0 <= i < |h| && Covers(env, h[..i], h[i]) && h[i].x == x && h[i].ilen == ilen
  }

  // A key of the recorder's set of places.
  function KeyOfPlace(p: Place): nat {
    match p
    case ArgPlace(k) => ArgKey(k)
    case ImagePlace => GLOBAL_KEY
    case PagePlace(page) => page
    case StackPlace => 0
  }

  ghost predicate FieldsAre(env: Env, h: seq<Event>, s: Rec) {
    && s.effects == Told(env, h)
    && CountersAre(env, h, s)
    && PlacesAre(env, h, s)
    && s.seenReads == TokensRead(env, h)
    && s.callees == CalledDirectly(env, h)
    && CoveredAre(env, h, s)
  }

  ghost predicate CoveredAre(env: Env, h: seq<Event>, s: Rec) {
    forall x, l :: x in s.covered && s.covered[x] == l <==> CoveredBy(env, h, x, l)
  }

  ghost predicate CountersAre(env: Env, h: seq<Event>, s: Rec) {
    && s.instret == Insns(h) && s.memOpIters == Accesses(h)
    && s.mapCount == (if DataFaults(h) < 256 then DataFaults(h) else 256)
    && (forall x :: VisitsOf(s, x) == VisitsTo(h, x))
    && (s.capped <==> !Uncapped(env, h))
  }

  ghost predicate PlacesAre(env: Env, h: seq<Event>, s: Rec) {
    && (forall x :: PlaceOf(env, x) != StackPlace ==>
          (KeyOfPlace(PlaceOf(env, x)) in s.seenHeapish <==> Touched(env, h, PlaceOf(env, x))))
    && s.heapishCount == (if |PagesTouched(env, h)| < env.cfg.maxHeapish then |PagesTouched(env, h)| else env.cfg.maxHeapish)
  }

  // ---------- one more call ----------

  lemma Prefixes(h: seq<Event>, e: Event)
    ensures (h + [e])[..|h|] == h && forall i :: 0 <= i <= |h| ==> (h + [e])[..i] == h[..i]
  {
  }

  lemma UncappedSnoc(env: Env, h: seq<Event>, e: Event)
    ensures Uncapped(env, h + [e]) <==> Uncapped(env, h) && WithinCaps(env, h, e)
  {
    hide WithinCaps;
    Prefixes(h, e);
    if Uncapped(env, h + [e]) {
      forall i | 0 <= i < |h| ensures WithinCaps(env, h[..i], h[i]) { assert WithinCaps(env, (h + [e])[..i], (h + [e])[i]); }
      assert WithinCaps(env, (h + [e])[..|h|], (h + [e])[|h|]);
    }
  }

  lemma TouchedSnoc(env: Env, h: seq<Event>, e: Event, p: Place)
    ensures Touched(env, h + [e], p) <==> Touched(env, h, p) || Touches(env, h, e, p)
  {
    hide Touches;
    Prefixes(h, e);
    if Touched(env, h, p) {
      var i :| 0 <= i < |h| && Touches(env, h[..i], h[i], p);
      assert Touches(env, (h + [e])[..i], (h + [e])[i], p);
    }
    if Touches(env, h, e, p) { assert Touches(env, (h + [e])[..|h|], (h + [e])[|h|], p); }
  }

  lemma PagesSnoc(env: Env, h: seq<Event>, e: Event)
    ensures PagesTouched(env, h + [e]) ==
            PagesTouched(env, h) +
            if Touches(env, h, e, PlaceOf(env, e.x)) && PlaceOf(env, e.x).PagePlace? then {PageOf(e.x)} else {}
  {
    hide Touches, PlaceOf, PageOf;
    Prefixes(h, e);
    var g := h + [e];
    forall p | p in PagesTouched(env, h) ensures p in PagesTouched(env, g) {
      var i :| 0 <= i < |h| && Touches(env, h[..i], h[i], PlaceOf(env, h[i].x))
               && PlaceOf(env, h[i].x).PagePlace? && p == PageOf(h[i].x);
      assert Touches(env, g[..i], g[i], PlaceOf(env, g[i].x));
    }
    if Touches(env, h, e, PlaceOf(env, e.x)) { assert Touches(env, g[..|h|], g[|h|], PlaceOf(env, g[|h|].x)); }
  }

  lemma TokensSnoc(env: Env, h: seq<Event>, e: Event)
    ensures TokensRead(env, h + [e]) == TokensRead(env, h) + if Reads(env, h, e) then {Token(ReadOf(env, e.x))} else {}
  {
    hide Reads, Token, ReadOf;
    Prefixes(h, e);
    var g := h + [e];
    forall t | t in TokensRead(env, h) ensures t in TokensRead(env, g) {
      var i :| 0 <= i < |h| && Reads(env, h[..i], h[i]) && t == Token(ReadOf(env, h[i].x));
      assert Reads(env, g[..i], g[i]);
    }
    if Reads(env, h, e) { assert Reads(env, g[..|h|], g[|h|]); }
  }

  lemma CalledSnoc(env: Env, h: seq<Event>, e: Event)
    ensures CalledDirectly(env, h + [e]) == CalledDirectly(env, h) + if CallsInside(env, h, e) then {e.kind.dest.value} else {}
  {
    hide Acted;
    Prefixes(h, e);
    var g := h + [e];
    forall t | t in CalledDirectly(env, h) ensures t in CalledDirectly(env, g) {
      var i :| 0 <= i < |h| && CallsInside(env, h[..i], h[i]) && t == h[i].kind.dest.value;
      assert CallsInside(env, g[..i], g[i]);
    }
    if CallsInside(env, h, e) { assert CallsInside(env, g[..|h|], g[|h|]); }
  }

  lemma CoveredSnoc(env: Env, h: seq<Event>, e: Event, x: nat, l: nat)
    ensures CoveredBy(env, h + [e], x, l) <==> CoveredBy(env, h, x, l) || (Covers(env, h, e) && e.x == x && e.ilen == l)
  {
    hide Acted;
    Prefixes(h, e);
    var g := h + [e];
    if CoveredBy(env, h, x, l) {
      var i :| 0 <= i < |h| && Covers(env, h[..i], h[i]) && h[i].x == x && h[i].ilen == l;
      assert Covers(env, g[..i], g[i]);
    }
    if Covers(env, h, e) { assert Covers(env, g[..|h|], g[|h|]); }
  }

  lemma ToldSnoc(env: Env, h: seq<Event>, e: Event)
    ensures Told(env, h + [e]) == Told(env, h) + TouchShows(env, h, e) + ReadShows(env, h, e) + ActShows(env, h, e)
  {
    Prefixes(h, e);
  }

  lemma CountsSnoc(h: seq<Event>, e: Event, x: nat)
    ensures Insns(h + [e]) == Insns(h) + if e.Code? then 1 else 0
    ensures VisitsTo(h + [e], x) == VisitsTo(h, x) + if e.Code? && e.x == x then 1 else 0
    ensures Accesses(h + [e]) == Accesses(h) + if e.MemRead? || e.MemWrite? then 1 else 0
    ensures DataFaults(h + [e]) == DataFaults(h) + if e.Unmapped? && !e.fetch then 1 else 0
  {
    Prefixes(h, e);
  }

  // ---------- the state decides as the history does ----------

  // The state has the counters of the history, and its trace.
  ghost predicate Tracks(env: Env, h: seq<Event>, s: Rec) { s.effects == Told(env, h) && CountersAre(env, h, s) }

  predicate ActsOn(env: Env, s: Rec, e: Event) {
    match e
    case Unmapped(_, fetch, mapOk) => !fetch && s.mapCount < MAX_RUNTIME_MAPS && mapOk
    case MemRead(_) => !s.capped && s.memOpIters + 1 < MemOpCap(env.cfg)
    case MemWrite(_, _, _) => !s.capped && |s.effects| < env.cfg.maxEffects && s.memOpIters + 1 < MemOpCap(env.cfg)
    case Code(x, _, _) =>
      VisitsOf(s, x) + 1 <= env.cfg.visitCap && s.instret + 1 <= env.cfg.instrCap && |s.effects| < env.cfg.maxEffects
  }

  lemma ActedIs(env: Env, h: seq<Event>, s: Rec, e: Event)
    requires Tracks(env, h, s)
    ensures Acted(env, h, e) <==> ActsOn(env, s, e)
  {
    hide Told, Uncapped, Insns, VisitsTo, Accesses, DataFaults;
  }

  // ---------- a first touch ----------

  // No news: the stack, or a place on record.
  predicate Known(env: Env, seen: set<nat>, x: nat) {
    PlaceOf(env, x) == StackPlace || KeyOfPlace(PlaceOf(env, x)) in seen
  }

  function NewsOf(env: Env, seen: set<nat>, count: nat, x: nat): seq<Effect> {
    if Known(env, seen, x) then []
    else
      match PlaceOf(env, x)
      case ArgPlace(k) => [NewRegion(Arg(k))]
      case ImagePlace => [NewRegion(Global)]
      case PagePlace(_) => if count < env.cfg.maxHeapish then [NewRegion(Heapish)] else []
      case StackPlace => []
  }

  function SeenAfter(env: Env, seen: set<nat>, x: nat): set<nat> {
    if Known(env, seen, x) then seen else seen + {KeyOfPlace(PlaceOf(env, x))}
  }

  function CountAfter(env: Env, seen: set<nat>, count: nat, x: nat): nat {
    if Known(env, seen, x) || !PlaceOf(env, x).PagePlace? || count >= env.cfg.maxHeapish then count else count + 1
  }

  lemma NoteIs(env: Env, s: Rec, x: nat)
    ensures NoteNewRegion(env, s, x) ==
            s.(effects := s.effects + NewsOf(env, s.seenHeapish, s.heapishCount, x),
               seenHeapish := SeenAfter(env, s.seenHeapish, x),
               heapishCount := CountAfter(env, s.seenHeapish, s.heapishCount, x))
  {
    hide ClassifyAddr, PageOf, ArgKey;
    assert s.effects + [] == s.effects;
  }

  // ---------- a call, part by part ----------

  // What e, if acted on, leaves before its own effect is recorded.
  function Begun(env: Env, s: Rec, e: Event): Rec {
    match e
    case Unmapped(_, _, _) => s.(mapCount := s.mapCount + 1)
    case MemRead(_) => s.(memOpIters := s.memOpIters + 1, capped := false)
    case MemWrite(_, _, _) => s.(memOpIters := s.memOpIters + 1, capped := false)
    case Code(x, _, ilen) => Cover(env, s.(instret := s.instret + 1, visits := s.visits[x := VisitsOf(s, x) + 1]), x, ilen)
  }

  lemma StepActs(env: Env, s: Rec, e: Event)
    requires ActsOn(env, s, e)
    ensures var b := Begun(env, s, e);
            Step(env, s, e) ==
            match e
            case Unmapped(x, _, _) => NoteNewRegion(env, b, x)
            case MemRead(x) =>
              var u := NoteNewRegion(env, b, x);
              if PlaceOf(env, x) == StackPlace then u else NoteRead(u, ReadOf(env, x))
            case MemWrite(x, size, val) =>
              var u := NoteNewRegion(env, b, x);
              var (region, off) := ClassifyAddr(env.segs, x);
              if region == Stack then u else Push(u, Write(region, BucketOff(off), ClassifyValue(MaskToSize(val, size))))
            case Code(_, kind, _) => Steer(env, b, kind)
  {
    hide ClassifyAddr, ClassifyValue, BucketOff, MemOpCap, MaskToSize, NoteNewRegion, NoteRead, Steer, Cover, Push;
  }

  lemma StepRefuses(env: Env, s: Rec, e: Event)
    requires !ActsOn(env, s, e)
    ensures var t := Step(env, s, e);
            && t.effects == s.effects && t.seenHeapish == s.seenHeapish && t.heapishCount == s.heapishCount
            && t.seenReads == s.seenReads && t.callees == s.callees && t.covered == s.covered
  {
    hide ClassifyAddr, ClassifyValue, BucketOff, MemOpCap, MaskToSize, NoteNewRegion, NoteRead, Steer, Cover, Push;
  }

  // ---------- places ----------

  lemma KeysApart(env: Env, x: nat, y: nat)
    requires PlaceOf(env, x) != StackPlace && PlaceOf(env, y) != StackPlace
    requires KeyOfPlace(PlaceOf(env, x)) == KeyOfPlace(PlaceOf(env, y))
    ensures PlaceOf(env, x) == PlaceOf(env, y)
  {
    ArgOfFinds(x, 0);
    ArgOfFinds(y, 0);
  }

  lemma KnownIs(env: Env, h: seq<Event>, s: Rec, x: nat)
    requires PlacesAre(env, h, s)
    ensures Known(env, s.seenHeapish, x) <==> PlaceOf(env, x) == StackPlace || Touched(env, h, PlaceOf(env, x))
  {
    hide PlaceOf, Touched, PagesTouched;
  }

  lemma TouchIsNews(env: Env, h: seq<Event>, s: Rec, e: Event)
    requires PlacesAre(env, h, s) && Acted(env, h, e) && !e.Code?
    ensures NewsOf(env, s.seenHeapish, s.heapishCount, e.x) == TouchShows(env, h, e)
  {
    hide Acted, Touched, PagesTouched, PlaceOf;
    KnownIs(env, h, s, e.x);
  }

  lemma PageIsKnown(env: Env, h: seq<Event>, x: nat)
    requires PlaceOf(env, x).PagePlace?
    ensures PageOf(x) in PagesTouched(env, h) <==> Touched(env, h, PlaceOf(env, x))
  {
    hide ClassifyAddr, PageOf, Acted;
    if PageOf(x) in PagesTouched(env, h) {
      var i :| 0 <= i < |h| && Touches(env, h[..i], h[i], PlaceOf(env, h[i].x))
               && PlaceOf(env, h[i].x).PagePlace? && PageOf(h[i].x) == PageOf(x);
      assert Touches(env, h[..i], h[i], PlaceOf(env, x));
    }
    if Touched(env, h, PlaceOf(env, x)) {
      var i :| 0 <= i < |h| && Touches(env, h[..i], h[i], PlaceOf(env, x));
      assert PlaceOf(env, h[i].x) == PlaceOf(env, x);
    }
  }

  lemma PagesGrow(env: Env, h: seq<Event>, e: Event)
    requires Acted(env, h, e) && !e.Code?
    ensures |PagesTouched(env, h + [e])| ==
            |PagesTouched(env, h)| + if PlaceOf(env, e.x).PagePlace? && !Touched(env, h, PlaceOf(env, e.x)) then 1 else 0
  {
    hide Acted, Touched, PagesTouched, PlaceOf;
    PagesSnoc(env, h, e);
    if PlaceOf(env, e.x).PagePlace? {
      PageIsKnown(env, h, e.x);
      if Touched(env, h, PlaceOf(env, e.x)) {
        assert PagesTouched(env, h) + {PageOf(e.x)} == PagesTouched(env, h);
      }
    }
  }

  lemma PlacesTouch(env: Env, h: seq<Event>, s: Rec, e: Event, t: Rec)
    requires PlacesAre(env, h, s) && Acted(env, h, e) && !e.Code?
    requires t.seenHeapish == SeenAfter(env, s.seenHeapish, e.x)
    requires t.heapishCount == CountAfter(env, s.seenHeapish, s.heapishCount, e.x)
    ensures PlacesAre(env, h + [e], t)
  {
    hide Acted, Touched, PagesTouched, PlaceOf, KeyOfPlace, Known;
    KnownIs(env, h, s, e.x);
    PagesGrow(env, h, e);
    forall x | PlaceOf(env, x) != StackPlace
      ensures KeyOfPlace(PlaceOf(env, x)) in t.seenHeapish <==> Touched(env, h + [e], PlaceOf(env, x))
    {
      TouchedSnoc(env, h, e, PlaceOf(env, x));
      if PlaceOf(env, e.x) != StackPlace && KeyOfPlace(PlaceOf(env, x)) == KeyOfPlace(PlaceOf(env, e.x)) { KeysApart(env, x, e.x); }
    }
  }

  lemma PlacesStay(env: Env, h: seq<Event>, s: Rec, e: Event, t: Rec)
    requires PlacesAre(env, h, s) && (e.Code? || !Acted(env, h, e))
    requires t.seenHeapish == s.seenHeapish && t.heapishCount == s.heapishCount
    ensures PlacesAre(env, h + [e], t)
  {
    hide Acted, Touched, PagesTouched, PlaceOf, KeyOfPlace;
    PagesSnoc(env, h, e);
    forall x ensures Touched(env, h + [e], PlaceOf(env, x)) <==> Touched(env, h, PlaceOf(env, x)) {
      TouchedSnoc(env, h, e, PlaceOf(env, x));
    }
  }

  // ---------- the parts of one more call ----------

  lemma NoteReadIs(s: Rec, e: Effect)
    ensures NoteRead(s, e) ==
            s.(seenReads := s.seenReads + {Token(e)},
               effects := s.effects + if Token(e) !in s.seenReads && |s.seenReads| < 64 then [e] else [])
  {
    hide Token;
    if Token(e) in s.seenReads {
      assert s.seenReads + {Token(e)} == s.seenReads;
      assert s.effects + [] == s.effects;
    } else {
      assert |s.seenReads + {Token(e)}| == |s.seenReads| + 1;
      assert s.effects + [] == s.effects;
    }
  }

  lemma StepPlaces(env: Env, h: seq<Event>, s: Rec, e: Event)
    requires Tracks(env, h, s) && PlacesAre(env, h, s)
    ensures PlacesAre(env, h + [e], Step(env, s, e))
  {
    hide Tracks, PlacesAre, Acted, ActsOn, Step, NoteNewRegion, NoteRead, ReadOf, ClassifyAddr, PlaceOf,
         SeenAfter, CountAfter, NewsOf, Steer;
    ActedIs(env, h, s, e);
    if ActsOn(env, s, e) {
      StepActs(env, s, e);
      var b := Begun(env, s, e);
      NoteIs(env, b, e.x);
      BegunKeeps(env, s, e);
      if e.Code? {
        SteerKeepsPlaces(env, b, e.kind);
        PlacesStay(env, h, s, e, Step(env, s, e));
      } else {
        NoteReadIs(NoteNewRegion(env, b, e.x), ReadOf(env, e.x));
        PlacesTouch(env, h, s, e, Step(env, s, e));
      }
    } else {
      StepRefuses(env, s, e);
      PlacesStay(env, h, s, e, Step(env, s, e));
    }
  }

  lemma BegunKeeps(env: Env, s: Rec, e: Event)
    ensures var b := Begun(env, s, e);
            && b.effects == s.effects && b.seenHeapish == s.seenHeapish && b.heapishCount == s.heapishCount
            && b.seenReads == s.seenReads && b.callees == s.callees
            && (!e.Code? ==> b.covered == s.covered)
  {
    hide VisitsOf;
  }

  lemma SteerKeepsPlaces(env: Env, s: Rec, kind: Kind)
    ensures var t := Steer(env, s, kind);
            && t.seenHeapish == s.seenHeapish && t.heapishCount == s.heapishCount && t.seenReads == s.seenReads
            && t.covered == s.covered
  {
    hide ClassifyValue, InSegs, NameOf;
  }

  lemma StepReads(env: Env, h: seq<Event>, s: Rec, e: Event)
    requires Tracks(env, h, s) && s.seenReads == TokensRead(env, h)
    ensures Step(env, s, e).seenReads == TokensRead(env, h + [e])
  {
    hide Tracks, Acted, ActsOn, Step, NoteNewRegion, NoteRead, ReadOf, ClassifyAddr, PlaceOf, SeenAfter, CountAfter, NewsOf,
         Steer, TokensRead, Token;
    ActedIs(env, h, s, e);
    TokensSnoc(env, h, e);
    if ActsOn(env, s, e) {
      StepActs(env, s, e);
      var b := Begun(env, s, e);
      BegunKeeps(env, s, e);
      NoteIs(env, b, e.x);
      NoteReadIs(NoteNewRegion(env, b, e.x), ReadOf(env, e.x));
      if e.Code? { SteerKeepsPlaces(env, b, e.kind); }
    } else {
      StepRefuses(env, s, e);
    }
  }

  lemma SteerTells(env: Env, h: seq<Event>, s: Rec, e: Event)
    requires e.Code? && Acted(env, h, e)
    ensures Steer(env, s, e.kind).effects == s.effects + ActShows(env, h, e)
  {
    hide Acted, ClassifyValue, InSegs;
    assert s.effects + [] == s.effects;
  }

  lemma StepTold(env: Env, h: seq<Event>, s: Rec, e: Event)
    requires Tracks(env, h, s) && PlacesAre(env, h, s) && s.seenReads == TokensRead(env, h)
    ensures Step(env, s, e).effects == Told(env, h + [e])
  {
    hide PlacesAre, Acted, ActsOn, Step, NoteNewRegion, NoteRead, ReadOf, ClassifyAddr, SeenAfter, CountAfter, NewsOf,
         Steer, TokensRead, Token, Told, Touched, PagesTouched, CountersAre, ClassifyValue, BucketOff, MaskToSize, Begun;
    ActedIs(env, h, s, e);
    ToldSnoc(env, h, e);
    if ActsOn(env, s, e) {
      StepActs(env, s, e);
      var b := Begun(env, s, e);
      BegunKeeps(env, s, e);
      NoteIs(env, b, e.x);
      if e.Code? {
        SteerTells(env, h, b, e);
      } else {
        TouchIsNews(env, h, s, e);
        NoteReadIs(NoteNewRegion(env, b, e.x), ReadOf(env, e.x));
      }
    } else {
      StepRefuses(env, s, e);
    }
  }

  lemma SteerCalls(env: Env, h: seq<Event>, s: Rec, e: Event)
    requires e.Code? && Acted(env, h, e)
    ensures Steer(env, s, e.kind).callees == s.callees + if CallsInside(env, h, e) then {e.kind.dest.value} else {}
  {
    hide Acted, ClassifyValue;
  }

  lemma StepCallees(env: Env, h: seq<Event>, s: Rec, e: Event)
    requires Tracks(env, h, s) && s.callees == CalledDirectly(env, h)
    ensures Step(env, s, e).callees == CalledDirectly(env, h + [e])
  {
    hide Tracks, Acted, ActsOn, Step, NoteNewRegion, NoteRead, ReadOf, ClassifyAddr, PlaceOf, SeenAfter, CountAfter, NewsOf,
         CalledDirectly, Token, ClassifyValue, BucketOff, MaskToSize, Begun, Steer, CallsInside;
    ActedIs(env, h, s, e);
    CalledSnoc(env, h, e);
    CallsAreActed(env, h, e);
    if ActsOn(env, s, e) {
      StepActs(env, s, e);
      var b := Begun(env, s, e);
      BegunKeeps(env, s, e);
      NoteIs(env, b, e.x);
      if e.Code? {
        SteerCalls(env, h, b, e);
      } else {
        NoteReadIs(NoteNewRegion(env, b, e.x), ReadOf(env, e.x));
      }
    } else {
      StepRefuses(env, s, e);
    }
  }

  lemma CallsAreActed(env: Env, h: seq<Event>, e: Event)
    ensures CallsInside(env, h, e) ==> Acted(env, h, e) && e.Code? && e.kind.CallInsn? && e.kind.dest.Some?
  {
    hide Acted;
  }

  lemma VisitedOnceCovers(env: Env, h: seq<Event>, x: nat, l: nat)
    ensures CoveredBy(env, h, x, l) ==> VisitsTo(h, x) > 0
  {
    hide Acted;
    if CoveredBy(env, h, x, l) {
      var i :| 0 <= i < |h| && Covers(env, h[..i], h[i]) && h[i].x == x && h[i].ilen == l;
      VisitCounted(h, i);
    }
  }

  lemma {:induction false} VisitCounted(h: seq<Event>, i: nat)
    requires i < |h| && h[i].Code?
    ensures VisitsTo(h, h[i].x) > 0
  {
    var n := |h| - 1;
    if i < n { VisitCounted(h[..n], i); }
  }

  lemma BegunCovers(env: Env, s: Rec, e: Event)
    requires e.Code?
    ensures Begun(env, s, e).covered ==
            if VisitsOf(s, e.x) == 0 && env.funcLo <= e.x < env.funcHi then s.covered[e.x := e.ilen] else s.covered
  {
  }

  lemma StepCovered(env: Env, h: seq<Event>, s: Rec, e: Event)
    requires Tracks(env, h, s) && CoveredAre(env, h, s)
    ensures CoveredAre(env, h + [e], Step(env, s, e))
  {
    hide Acted, ActsOn, Step, NoteNewRegion, NoteRead, ReadOf, ClassifyAddr, PlaceOf, SeenAfter, CountAfter, NewsOf,
         Steer, CoveredBy, Token, Told, ClassifyValue, BucketOff, MaskToSize, Begun, VisitsTo, VisitsOf, Uncapped, Insns,
         Accesses, DataFaults;
    ActedIs(env, h, s, e);
    var t := Step(env, s, e);
    assert t.covered == if Covers(env, h, e) then s.covered[e.x := e.ilen] else s.covered by {
      if ActsOn(env, s, e) {
        StepActs(env, s, e);
        var b := Begun(env, s, e);
        BegunKeeps(env, s, e);
        NoteIs(env, b, e.x);
        NoteReadIs(NoteNewRegion(env, b, e.x), ReadOf(env, e.x));
        if e.Code? {
          SteerKeepsPlaces(env, b, e.kind);
          BegunCovers(env, s, e);
        }
      } else {
        StepRefuses(env, s, e);
      }
    }
    forall x, l ensures x in t.covered && t.covered[x] == l <==> CoveredBy(env, h + [e], x, l) {
      CoveredSnoc(env, h, e, x, l);
      VisitedOnceCovers(env, h, x, l);
    }
  }

  // The state's own view of the caps.
  predicate CapsLeft(env: Env, s: Rec, e: Event) {
    match e
    case Unmapped(_, fetch, _) => fetch || s.mapCount < 256
    case MemRead(_) => s.memOpIters + 1 < MemOpCap(env.cfg)
    case MemWrite(_, _, _) => |s.effects| < env.cfg.maxEffects && s.memOpIters + 1 < MemOpCap(env.cfg)
    case Code(x, _, _) => VisitsOf(s, x) < env.cfg.visitCap && s.instret < env.cfg.instrCap && |s.effects| < env.cfg.maxEffects
  }

  lemma CapsLeftIs(env: Env, h: seq<Event>, s: Rec, e: Event)
    requires Tracks(env, h, s)
    ensures CapsLeft(env, s, e) <==> WithinCaps(env, h, e)
  {
    hide Told, Uncapped, Insns, VisitsTo, Accesses, DataFaults, VisitsOf;
  }

  // What a call does to the counters.
  lemma CountersOfStep(env: Env, s: Rec, e: Event)
    ensures var t := Step(env, s, e);
            && t.instret == s.instret + (if e.Code? then 1 else 0)
            && t.memOpIters == s.memOpIters + (if e.MemRead? || e.MemWrite? then 1 else 0)
            && t.mapCount == s.mapCount + (if e.Unmapped? && !e.fetch && s.mapCount < 256 then 1 else 0)
            && t.visits == (if e.Code? then s.visits[e.x := VisitsOf(s, e.x) + 1] else s.visits)
            && (t.capped <==> s.capped || !CapsLeft(env, s, e))
  {
    hide NoteNewRegion, ClassifyAddr, ClassifyValue, Token, Steer, BucketOff, MaskToSize, MemOpCap, VisitsOf;
    match e
    case Unmapped(x, _, _) => NoteKeepsCounters(env, s.(mapCount := s.mapCount + 1), x);
    case MemRead(x) =>
      NoteKeepsCounters(env, s.(memOpIters := s.memOpIters + 1, capped := s.capped || s.memOpIters + 1 >= MemOpCap(env.cfg)), x);
    case MemWrite(x, _, _) =>
      NoteKeepsCounters(env, s.(memOpIters := s.memOpIters + 1,
                                capped := s.capped || |s.effects| >= env.cfg.maxEffects
                                          || s.memOpIters + 1 >= MemOpCap(env.cfg)), x);
    case Code(x, kind, ilen) => CodeCounters(env, s, x, kind, ilen);
  }

  lemma CodeCounters(env: Env, s: Rec, x: nat, kind: Kind, ilen: nat)
    ensures var t := OnCode(env, s, x, kind, ilen);
            && t.instret == s.instret + 1 && t.memOpIters == s.memOpIters && t.mapCount == s.mapCount
            && t.visits == s.visits[x := VisitsOf(s, x) + 1]
            && (t.capped <==> s.capped || !CapsLeft(env, s, Code(x, kind, ilen)))
  {
    hide Steer;
    var v := s.(instret := s.instret + 1, visits := s.visits[x := VisitsOf(s, x) + 1]);
    SteerKeepsPace(env, Cover(env, v, x, ilen), kind);
  }

  lemma StepCounters(env: Env, h: seq<Event>, s: Rec, e: Event)
    requires Tracks(env, h, s)
    ensures CountersAre(env, h + [e], Step(env, s, e))
  {
    hide Told, Insns, VisitsTo, Accesses, DataFaults, WithinCaps, CapsLeft, Uncapped, Step;
    UncappedSnoc(env, h, e);
    CapsLeftIs(env, h, s, e);
    CountsSnoc(h, e, 0);
    CountersOfStep(env, s, e);
    var t := Step(env, s, e);
    forall x ensures VisitsOf(t, x) == VisitsTo(h + [e], x) { CountsSnoc(h, e, x); }
  }

  // ---------- every history ----------

  lemma StartsEmpty(env: Env)
    ensures FieldsAre(env, [], Fresh())
  {
    hide Acted, ClassifyAddr;
  }

  // However the hooks are called, the recorder's fields tell its history: the trace is what each
  // call that was acted on shows, in order.
  lemma {:induction false} RunTells(env: Env, h: seq<Event>)
    ensures FieldsAre(env, h, Run(env, h))
  {
    hide FieldsAre, Step;
    if h == [] {
      StartsEmpty(env);
    } else {
      var n := |h| - 1;
      RunTells(env, h[..n]);
      StepTells(env, h[..n], Run(env, h[..n]), h[n]);
      assert h[..n] + [h[n]] == h;
    }
  }

  lemma StepTells(env: Env, h: seq<Event>, s: Rec, e: Event)
    requires FieldsAre(env, h, s)
    ensures FieldsAre(env, h + [e], Step(env, s, e))
  {
    hide Step, Told, CountersAre, PlacesAre, TokensRead, CalledDirectly;
    StepTold(env, h, s, e);
    StepCounters(env, h, s, e);
    StepPlaces(env, h, s, e);
    StepReads(env, h, s, e);
    StepCallees(env, h, s, e);
    StepCovered(env, h, s, e);
  }

  // ---------- what that comes to ----------

  // Effects that are neither first touches nor reads.
  function Others(s: seq<Effect>): seq<Effect> {
    if s == [] then []
    else Others(s[..|s| - 1]) + if s[|s| - 1].NewRegion? || s[|s| - 1].Read? then [] else [s[|s| - 1]]
  }

  // What the calls acted on show beside first touches and reads, one after the other.
  ghost function Acts(env: Env, h: seq<Event>): seq<Effect> {
    if h == [] then [] else Acts(env, h[..|h| - 1]) + ActShows(env, h[..|h| - 1], h[|h| - 1])
  }

  lemma {:induction false} OthersConcat(s: seq<Effect>, t: seq<Effect>)
    ensures Others(s + t) == Others(s) + Others(t)
  {
    if t == [] {
      assert s + t == s;
    } else {
      OthersConcat(s, t[..|t| - 1]);
      assert (s + t)[..|s + t| - 1] == s + t[..|t| - 1];
    }
  }

  lemma TouchShape(env: Env, h: seq<Event>, e: Event)
    ensures var s := TouchShows(env, h, e); |s| <= 1 && (s != [] ==> s[0].NewRegion?)
  {
    hide Touches, Touched, PlaceOf, PagesTouched;
  }

  lemma ReadShape(env: Env, h: seq<Event>, e: Event)
    ensures var s := ReadShows(env, h, e); |s| <= 1 && (s != [] ==> s[0].Read?)
  {
    hide Reads, TokensRead, ClassifyAddr, Token, BucketOff;
  }

  lemma ActShape(env: Env, h: seq<Event>, e: Event)
    ensures var s := ActShows(env, h, e); |s| <= 1 && (s != [] ==> !s[0].NewRegion? && !s[0].Read?)
  {
    hide Acted, ClassifyAddr, ClassifyValue, BucketOff, MaskToSize;
  }

  lemma OthersOfParts(env: Env, h: seq<Event>, e: Event)
    ensures Others(TouchShows(env, h, e)) == [] == Others(ReadShows(env, h, e))
    ensures Others(ActShows(env, h, e)) == ActShows(env, h, e)
  {
    hide TouchShows, ReadShows, ActShows, Others;
    TouchShape(env, h, e);
    ReadShape(env, h, e);
    ActShape(env, h, e);
    OthersOfFew(TouchShows(env, h, e));
    OthersOfFew(ReadShows(env, h, e));
    OthersOfFew(ActShows(env, h, e));
  }

  lemma OthersOfFew(s: seq<Effect>)
    requires |s| <= 1
    ensures Others(s) == if s == [] || s[0].NewRegion? || s[0].Read? then [] else s
  {
    if s != [] { assert s[..0] == []; }
  }

  // In the trace of any run stands, in order, one effect for each call, syscall, return and branch
  // that was acted on and for each such write outside the stack, and nothing else but first
  // touches and reads.
  lemma {:induction false} ActsAreTold(env: Env, h: seq<Event>)
    ensures Others(Run(env, h).effects) == Acts(env, h)
  {
    hide FieldsAre, ActShows, TouchShows, ReadShows, Run;
    RunTells(env, h);
    TraceIsTold(env, h);
    if h != [] {
      var n := |h| - 1;
      ActsAreTold(env, h[..n]);
      RunTells(env, h[..n]);
      TraceIsTold(env, h[..n]);
      OthersOfParts(env, h[..n], h[n]);
      var t, u, v := TouchShows(env, h[..n], h[n]), ReadShows(env, h[..n], h[n]), ActShows(env, h[..n], h[n]);
      OthersConcat(Told(env, h[..n]), t);
      OthersConcat(Told(env, h[..n]) + t, u);
      OthersConcat(Told(env, h[..n]) + t + u, v);
    }
  }

  lemma TraceIsTold(env: Env, h: seq<Event>)
    requires FieldsAre(env, h, Run(env, h))
    ensures Run(env, h).effects == Told(env, h)
  {
    hide Told, Run, CountersAre, PlacesAre, TokensRead, CalledDirectly, CoveredAre;
  }

  lemma {:induction false} ToldGrows(env: Env, h: seq<Event>, i: nat)
    requires i < |h|
    ensures forall x :: x in TouchShows(env, h[..i], h[i]) + ReadShows(env, h[..i], h[i]) + ActShows(env, h[..i], h[i]) ==>
              x in Told(env, h)
  {
    hide TouchShows, ReadShows, ActShows;
    var n := |h| - 1;
    if i < n {
      ToldGrows(env, h[..n], i);
      assert h[..n][..i] == h[..i];
    }
  }

  // Nothing that was read outside the stack is missing: while fewer than 64 tokens are on record its
  // token is in the trace.
  lemma ReadIsTold(env: Env, h: seq<Event>, i: nat)
    requires i < |h| && Reads(env, h[..i], h[i]) && |TokensRead(env, h[..i])| < 64
    ensures exists e :: e in Run(env, h).effects && e.Read? && Token(e) == Token(ReadOf(env, h[i].x))
  {
    hide Run, FieldsAre, Told, Reads, TokensRead, Token;
    RunTells(env, h);
    TraceIsTold(env, h);
    var j := FirstWithToken(env, h, Token(ReadOf(env, h[i].x)), i);
    ToldGrows(env, h, j);
    TokensShrink(env, h, j, i);
    assert ReadOf(env, h[j].x) in ReadShows(env, h[..j], h[j]);
  }

  lemma TokensShrink(env: Env, h: seq<Event>, j: nat, i: nat)
    requires j <= i <= |h|
    ensures |TokensRead(env, h[..j])| <= |TokensRead(env, h[..i])|
  {
    hide Reads, Token, ReadOf;
    var S, T := TokensRead(env, h[..j]), TokensRead(env, h[..i]);
    forall t | t in S ensures t in T {
      var k :| 0 <= k < j && Reads(env, h[..j][..k], h[..j][k]) && t == Token(ReadOf(env, h[..j][k].x));
      assert h[..j][..k] == h[..i][..k] && h[..j][k] == h[..i][k];
      assert Reads(env, h[..i][..k], h[..i][k]);
    }
    Sorting.SubsetCard(S, T);
  }

  // The first read of a token that has been read.
  lemma FirstWithToken(env: Env, h: seq<Event>, t: bv64, i: nat) returns (j: nat)
    requires i < |h| && Reads(env, h[..i], h[i]) && Token(ReadOf(env, h[i].x)) == t
    ensures j <= i && Reads(env, h[..j], h[j]) && Token(ReadOf(env, h[j].x)) == t && t !in TokensRead(env, h[..j])
    decreases i
  {
    hide Reads, Token, ReadOf;
    j := i;
    if t in TokensRead(env, h[..i]) {
      var k :| 0 <= k < i && Reads(env, h[..i][..k], h[..i][k]) && t == Token(ReadOf(env, h[..i][k].x));
      assert h[..i][..k] == h[..k] && h[..i][k] == h[k];
      j := FirstWithToken(env, h, t, k);
    }
  }

  // Nor is the first touch of an argument or of the image.
  lemma TouchIsTold(env: Env, h: seq<Event>, p: Place)
    requires Touched(env, h, p)
    ensures p.ArgPlace? ==> NewRegion(Arg(p.k)) in Run(env, h).effects
    ensures p == ImagePlace ==> NewRegion(Global) in Run(env, h).effects
  {
    hide Run, FieldsAre, Told, Touches;
    RunTells(env, h);
    TraceIsTold(env, h);
    var i :| 0 <= i < |h| && Touches(env, h[..i], h[i], p);
    var j := FirstTouch(env, h, p, i);
    TouchesAt(env, h[..j], h[j], p);
    ToldGrows(env, h, j);
  }

  lemma TouchesAt(env: Env, h: seq<Event>, e: Event, p: Place)
    requires Touches(env, h, e, p)
    ensures PlaceOf(env, e.x) == p
  {
    hide Acted, PlaceOf;
  }

  lemma FirstTouch(env: Env, h: seq<Event>, p: Place, i: nat) returns (j: nat)
    requires i < |h| && Touches(env, h[..i], h[i], p)
    ensures j <= i && Touches(env, h[..j], h[j], p) && !Touched(env, h[..j], p)
    decreases i
  {
    hide Touches;
    j := i;
    if Touched(env, h[..i], p) {
      var k :| 0 <= k < i && Touches(env, h[..i][..k], h[..i][k], p);
      assert h[..i][..k] == h[..k] && h[..i][k] == h[k];
      j := FirstTouch(env, h, p, k);
    }
  }
}
