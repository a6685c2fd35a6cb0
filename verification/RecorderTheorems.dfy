/**
  What every order of hook calls keeps: the effect list stays bounded and free of
  repeats, the counters stay true to what happened, and a run whose engine honours
  stop ends after a number of hook calls fixed by the configuration alone.
 */
module RecorderTheorems {
  import opened Machine
  import opened Trace
  import opened Counting
  import opened Hooks

  // ---------- counts of effects ----------

  function NumNew(s: seq<Effect>): nat { Count(s, (e: Effect) => e.NewRegion?) }

  function NumRead(s: seq<Effect>): nat { Count(s, (e: Effect) => e.Read?) }

  function NumOther(s: seq<Effect>): nat { Count(s, (e: Effect) => !e.NewRegion? && !e.Read?) }

  function NumOf(s: seq<Effect>, x: Effect): nat { Count(s, (e: Effect) => e == x) }

  lemma NumsSnoc(s: seq<Effect>, e: Effect)
    ensures NumNew(s + [e]) == NumNew(s) + if e.NewRegion? then 1 else 0
    ensures NumRead(s + [e]) == NumRead(s) + if e.Read? then 1 else 0
    ensures NumOther(s + [e]) == NumOther(s) + if !e.NewRegion? && !e.Read? then 1 else 0
    ensures forall x :: NumOf(s + [e], x) == NumOf(s, x) + if e == x then 1 else 0
  {
    assert (s + [e])[..|s|] == s;
  }

  lemma {:induction false} NumsPartition(s: seq<Effect>)
    ensures |s| == NumNew(s) + NumRead(s) + NumOther(s)
    ensures forall x :: NumOf(s, x) > 0 <==> x in s
  {
    if s != [] {
      var n := |s| - 1;
      NumsPartition(s[..n]);
      assert s == s[..n] + [s[n]];
      NumsSnoc(s[..n], s[n]);
    }
  }

  // ---------- the effect list ----------

  // The keys that stand for argument buffers and the image's own data.
  const KEYS: set<nat> := {0xA00, 0xA01, 0xA02, 0xA03, 0xA04, 0xA05, 0xB00}

  lemma PagesAreNotKeys(x: nat)
    ensures PageOf(x) !in KEYS
  {
    assert PageOf(x) % 0x1000 == 0;
  }

  function KeyOf(r: Region): nat {
    match r
    case Arg(k) => ArgKey(k)
    case _ => GLOBAL_KEY
  }

  // Reads are kept once per token.
  ghost predicate ReadsOnce(s: Rec) {
    && (forall i :: 0 <= i < |s.effects| && s.effects[i].Read? ==> Token(s.effects[i]) in s.seenReads)
    && (forall i, j :: 0 <= i < j < |s.effects| && s.effects[i].Read? && s.effects[j].Read? ==>
          Token(s.effects[i]) != Token(s.effects[j]))
  }

  ghost predicate RegionsOnce(env: Env, s: Rec) {
    && NumNew(s.effects) == |s.seenHeapish * KEYS| + s.heapishCount
    && s.heapishCount <= env.cfg.maxHeapish
    && NumOf(s.effects, NewRegion(Heapish)) == s.heapishCount
    && NumOf(s.effects, NewRegion(Stack)) == 0
    && NumOf(s.effects, NewRegion(Global)) == (if GLOBAL_KEY in s.seenHeapish then 1 else 0)
    && ArgsOnce(s)
  }

  // An argument buffer is reported once if it was touched, and never if it was not.
  ghost predicate ArgsOnce(s: Rec) {
    forall k: U16 :: NumOf(s.effects, NewRegion(Arg(k))) == if k < NARGS && ArgKey(k) in s.seenHeapish then 1 else 0
  }

  ghost predicate EffectsInv(env: Env, s: Rec) {
    && RegionsOnce(env, s)
    && ReadsOnce(s)
    && NumRead(s.effects) == (if |s.seenReads| <= MAX_READS then |s.seenReads| else MAX_READS)
    && NumOther(s.effects) <= env.cfg.maxEffects
  }

  // The fields the effect invariant reads.
  predicate SameEffects(s: Rec, t: Rec) {
    && s.effects == t.effects && s.seenHeapish == t.seenHeapish
    && s.seenReads == t.seenReads && s.heapishCount == t.heapishCount
  }

  lemma KeyCard(S: set<nat>, k: nat)
    requires k !in S
    ensures |(S + {k}) * KEYS| == |S * KEYS| + if k in KEYS then 1 else 0
  {
    if k in KEYS {
      assert (S + {k}) * KEYS == S * KEYS + {k};
    } else {
      assert (S + {k}) * KEYS == S * KEYS;
    }
  }

  lemma KeysBound(S: set<nat>)
    ensures |S * KEYS| <= 7
  {
    assert |KEYS - S * KEYS| == |KEYS| - |S * KEYS|;
    assert |KEYS| == 7;
  }

  lemma PushKeepsReads(s: Rec, t: Rec, e: Effect)
    requires ReadsOnce(s) && t.effects == s.effects + [e] && t.seenReads == s.seenReads && !e.Read?
    ensures ReadsOnce(t)
  {
    hide Token;
  }

  lemma NoteArgKeeps(env: Env, s: Rec, k: U16)
    requires RegionsOnce(env, s) && k < NARGS && ArgKey(k) !in s.seenHeapish
    ensures RegionsOnce(env, Push(s.(seenHeapish := s.seenHeapish + {ArgKey(k)}), NewRegion(Arg(k))))
  {
    hide NumNew, NumOf;
    NumsSnoc(s.effects, NewRegion(Arg(k)));
    KeyCard(s.seenHeapish, ArgKey(k));
    assert ArgKey(k) in KEYS;
  }

  lemma ArgKeyIsKey(k: U16)
    requires k < NARGS
    ensures ArgKey(k) in KEYS && ArgKey(k) != GLOBAL_KEY
  {
  }

  lemma GlobalIsFresh(S: set<nat>)
    requires GLOBAL_KEY !in S
    ensures |(S + {GLOBAL_KEY}) * KEYS| == |S * KEYS| + 1
    ensures forall k: U16 :: k < NARGS ==> ArgKey(k) != GLOBAL_KEY
  {
    KeyCard(S, GLOBAL_KEY);
    forall k: U16 | k < NARGS ensures ArgKey(k) != GLOBAL_KEY { ArgKeyIsKey(k); }
  }

  // A push that is no argument's, with a key that is no argument's, leaves the arguments alone.
  lemma ArgsUntouched(s: Rec, t: Rec, key: nat, r: Region)
    requires ArgsOnce(s) && !r.Arg?
    requires forall k: U16 :: k < NARGS ==> ArgKey(k) != key
    requires t.effects == s.effects || t.effects == s.effects + [NewRegion(r)]
    requires t.seenHeapish == s.seenHeapish + {key} || t.seenHeapish == s.seenHeapish
    ensures ArgsOnce(t)
  {
    hide NumOf, ArgKey;
    NumsSnoc(s.effects, NewRegion(r));
  }

  lemma NoteGlobalKeeps(env: Env, s: Rec)
    requires RegionsOnce(env, s) && GLOBAL_KEY !in s.seenHeapish
    ensures RegionsOnce(env, Push(s.(seenHeapish := s.seenHeapish + {GLOBAL_KEY}), NewRegion(Global)))
  {
    hide NumNew, NumOf, ArgsOnce, KEYS, ArgKey;
    var t := Push(s.(seenHeapish := s.seenHeapish + {GLOBAL_KEY}), NewRegion(Global));
    NumsSnoc(s.effects, NewRegion(Global));
    GlobalIsFresh(s.seenHeapish);
    GlobalLeavesArgs(s);
  }

  lemma GlobalLeavesArgs(s: Rec)
    requires ArgsOnce(s) && GLOBAL_KEY !in s.seenHeapish
    ensures ArgsOnce(Push(s.(seenHeapish := s.seenHeapish + {GLOBAL_KEY}), NewRegion(Global)))
  {
    hide ArgsOnce, KEYS, ArgKey;
    GlobalIsFresh(s.seenHeapish);
    ArgsUntouched(s, Push(s.(seenHeapish := s.seenHeapish + {GLOBAL_KEY}), NewRegion(Global)), GLOBAL_KEY, Global);
  }

  lemma PageIsFresh(S: set<nat>, x: nat)
    requires PageOf(x) !in S
    ensures PageOf(x) != GLOBAL_KEY
    ensures forall k: U16 :: k < NARGS ==> ArgKey(k) != PageOf(x)
    ensures |(S + {PageOf(x)}) * KEYS| == |S * KEYS|
  {
    KeyCard(S, PageOf(x));
    PagesAreNotKeys(x);
    forall k: U16 | k < NARGS ensures ArgKey(k) != PageOf(x) { ArgKeyIsKey(k); }
  }

  lemma NotePageKeeps(env: Env, s: Rec, x: nat)
    requires RegionsOnce(env, s) && PageOf(x) !in s.seenHeapish
    ensures RegionsOnce(env, s.(seenHeapish := s.seenHeapish + {PageOf(x)}))
  {
    hide NumNew, NumOf, PageOf, ArgsOnce, KEYS;
    PageIsFresh(s.seenHeapish, x);
    ArgsUntouched(s, s.(seenHeapish := s.seenHeapish + {PageOf(x)}), PageOf(x), Heapish);
  }

  lemma PushHeapishKeeps(env: Env, s: Rec)
    requires RegionsOnce(env, s) && s.heapishCount < env.cfg.maxHeapish
    ensures RegionsOnce(env, Push(s.(heapishCount := s.heapishCount + 1), NewRegion(Heapish)))
  {
    hide NumNew, NumOf, KEYS, ArgsOnce, PageOf;
    var t := Push(s.(heapishCount := s.heapishCount + 1), NewRegion(Heapish));
    NumsSnoc(s.effects, NewRegion(Heapish));
    PageIsFresh({}, 0);
    ArgsUntouched(s, t, PageOf(0), Heapish);
  }

  // First touches keep the invariant, whatever they touch, and are never `other` effects.
  lemma NoteKeeps(env: Env, s: Rec, x: nat)
    requires EffectsInv(env, s)
    ensures EffectsInv(env, NoteNewRegion(env, s, x))
    ensures NumOther(NoteNewRegion(env, s, x).effects) == NumOther(s.effects)
    ensures NoteNewRegion(env, s, x).seenReads == s.seenReads
  {
    hide RegionsOnce, ReadsOnce, PageOf, NumOther, NumRead;
    var t := NoteNewRegion(env, s, x);
    ArgOfFinds(x, 0);
    match ClassifyAddr(env.segs, x).0 {
      case Arg(k) =>
        if ArgKey(k) !in s.seenHeapish {
          NoteArgKeeps(env, s, k);
          PushKeepsReads(s, t, NewRegion(Arg(k)));
          NumsSnoc(s.effects, NewRegion(Arg(k)));
        }
      case Global =>
        if GLOBAL_KEY !in s.seenHeapish {
          NoteGlobalKeeps(env, s);
          PushKeepsReads(s, t, NewRegion(Global));
          NumsSnoc(s.effects, NewRegion(Global));
        }
      case Heapish =>
        if PageOf(x) !in s.seenHeapish {
          NotePageKeeps(env, s, x);
          var u := s.(seenHeapish := s.seenHeapish + {PageOf(x)});
          if s.heapishCount < env.cfg.maxHeapish {
            PushHeapishKeeps(env, u);
            PushKeepsReads(s, t, NewRegion(Heapish));
            NumsSnoc(s.effects, NewRegion(Heapish));
          } else {
            SameReads(s, t);
          }
        }
      case Stack =>
    }
  }

  lemma SameReads(s: Rec, t: Rec)
    requires ReadsOnce(s) && t.effects == s.effects && t.seenReads == s.seenReads
    ensures ReadsOnce(t)
  {
    hide Token;
  }

  lemma SameKeeps(env: Env, s: Rec, t: Rec)
    requires EffectsInv(env, s) && SameEffects(s, t)
    ensures EffectsInv(env, t)
  {
    hide Token, NumNew, NumOf, NumRead, NumOther;
  }

  // Writes, calls, syscalls, branches and returns fit as long as there was room for one.
  lemma OtherKeeps(env: Env, s: Rec, e: Effect)
    requires EffectsInv(env, s) && !e.NewRegion? && !e.Read? && NumOther(s.effects) < env.cfg.maxEffects
    ensures EffectsInv(env, Push(s, e))
  {
    hide NumNew, NumOf, NumRead, NumOther, ReadsOnce;
    NumsSnoc(s.effects, e);
    PushKeepsReads(s, Push(s, e), e);
  }

  lemma ReadKeeps(env: Env, s: Rec, e: Effect)
    requires EffectsInv(env, s) && e.Read?
    ensures EffectsInv(env, NoteRead(s, e))
  {
    hide NumNew, NumOf, NumRead, NumOther, Token;
    NumsSnoc(s.effects, e);
    var t := NoteRead(s, e);
    if Token(e) !in s.seenReads {
      assert |s.seenReads + {Token(e)}| == |s.seenReads| + 1;
    }
  }

  lemma OthersAreFew(s: seq<Effect>)
    ensures NumOther(s) <= |s|
  {
    NumsPartition(s);
  }

  lemma CodeKeeps(env: Env, s: Rec, x: nat, kind: Kind, ilen: nat)
    requires EffectsInv(env, s)
    ensures EffectsInv(env, OnCode(env, s, x, kind, ilen))
  {
    hide EffectsInv, ClassifyValue, NumOther, InSegs;
    var t := s.(instret := s.instret + 1, visits := s.visits[x := VisitsOf(s, x) + 1]);
    OthersAreFew(s.effects);
    if VisitsOf(t, x) > env.cfg.visitCap || t.instret > env.cfg.instrCap || |t.effects| >= env.cfg.maxEffects {
      SameKeeps(env, s, t.(capped := true, stopped := true));
    } else {
      var u := Cover(env, t, x, ilen);
      match kind {
        case Plain => SameKeeps(env, s, u);
        case CallInsn(dest, direct) =>
          var v := Steer(env, u, kind);
          var w := v.(effects := s.effects);
          SameKeeps(env, s, w);
          assert v == Push(w, v.effects[|s.effects|]);
          OtherKeeps(env, w, v.effects[|s.effects|]);
        case SyscallInsn(nr) =>
          SameKeeps(env, s, u.(retCtr := u.retCtr + 1));
          OtherKeeps(env, u.(retCtr := u.retCtr + 1), Syscall(nr));
        case RetInsn(value) =>
          SameKeeps(env, s, u);
          OtherKeeps(env, u, Ret(ClassifyValue(value)));
        case BranchInsn =>
          SameKeeps(env, s, u);
          OtherKeeps(env, u, Branch);
      }
    }
  }

  lemma StepKeepsEffects(env: Env, s: Rec, e: Event)
    requires EffectsInv(env, s)
    ensures EffectsInv(env, Step(env, s, e))
  {
    hide EffectsInv, OnCode, NoteNewRegion, NoteRead, NumOther, ClassifyValue, ClassifyAddr;
    match e
    case Unmapped(x, fetch, mapOk) =>
      var t := s.(mapCount := s.mapCount + 1);
      SameKeeps(env, s, t);
      NoteKeeps(env, t, x);
      SameKeeps(env, s, OnUnmapped(env, s, x, true, mapOk));
      SameKeeps(env, s, s.(capped := true, stopped := true));
      SameKeeps(env, s, t.(stopped := true));
    case MemRead(x) =>
      var t := s.(memOpIters := s.memOpIters + 1, capped := s.capped || s.memOpIters + 1 >= MemOpCap(env.cfg));
      SameKeeps(env, s, t);
      SameKeeps(env, s, t.(stopped := true));
      NoteKeeps(env, t, x);
      var (region, off) := ClassifyAddr(env.segs, x);
      ReadKeeps(env, NoteNewRegion(env, t, x), Read(region, BucketOff(off)));
    case MemWrite(x, size, val) =>
      var t := s.(memOpIters := s.memOpIters + 1,
                  capped := s.capped || |s.effects| >= env.cfg.maxEffects || s.memOpIters + 1 >= MemOpCap(env.cfg));
      SameKeeps(env, s, t);
      SameKeeps(env, s, t.(stopped := true));
      NoteKeeps(env, t, x);
      OthersAreFew(s.effects);
      var (region, off) := ClassifyAddr(env.segs, x);
      if !t.capped {
        OtherKeeps(env, NoteNewRegion(env, t, x), Write(region, BucketOff(off), ClassifyValue(MaskToSize(val, size))));
      }
    case Code(x, kind, ilen) =>
      CodeKeeps(env, s, x, kind, ilen);
  }

  // ---------- the counters ----------

  ghost function Sum(m: map<nat, nat>): nat {
    if m == map[] then 0 else var k :| k in m; m[k] + Sum(m - {k})
  }

  lemma {:induction false} SumRemove(m: map<nat, nat>, k: nat)
    requires k in m
    ensures Sum(m) == m[k] + Sum(m - {k})
    decreases m.Keys
  {
    var j :| j in m && Sum(m) == m[j] + Sum(m - {j});
    if j != k {
      SumRemove(m - {j}, k);
      SumRemove(m - {k}, j);
      assert m - {j} - {k} == m - {k} - {j};
    }
  }

  lemma SumUpdate(m: map<nat, nat>, k: nat, v: nat)
    ensures Sum(m[k := v]) == Sum(m - {k}) + v
    ensures k !in m ==> Sum(m[k := v]) == Sum(m) + v
    ensures k in m ==> Sum(m[k := v]) == Sum(m) - m[k] + v
  {
    SumRemove(m[k := v], k);
    assert m[k := v] - {k} == m - {k};
    if k in m {
      SumRemove(m, k);
    } else {
      assert m - {k} == m;
    }
  }

  ghost predicate CountersInv(env: Env, s: Rec) {
    && s.mapCount <= MAX_RUNTIME_MAPS
    && Sum(s.visits) == s.instret
    && (forall x :: x in s.visits ==> s.visits[x] >= 1)
    && s.coveredBytes == Saturate(Sum(s.covered))
    && (forall x :: x in s.covered ==> x in s.visits && env.funcLo <= x < env.funcHi)
  }

  predicate SameCounters(s: Rec, t: Rec) {
    s.mapCount == t.mapCount && s.visits == t.visits && s.instret == t.instret
    && s.coveredBytes == t.coveredBytes && s.covered == t.covered
  }

  lemma NoteKeepsCounters(env: Env, s: Rec, x: nat)
    ensures SameCounters(s, NoteNewRegion(env, s, x))
    ensures NoteNewRegion(env, s, x).memOpIters == s.memOpIters
    ensures NoteNewRegion(env, s, x).capped == s.capped && NoteNewRegion(env, s, x).stopped == s.stopped
  {
  }

  lemma VisitKeepsCounters(env: Env, s: Rec, x: nat, ilen: nat)
    requires CountersInv(env, s)
    ensures var t := s.(instret := s.instret + 1, visits := s.visits[x := VisitsOf(s, x) + 1]);
            CountersInv(env, t) && CountersInv(env, Cover(env, t, x, ilen))
  {
    hide Sum;
    SumUpdate(s.visits, x, VisitsOf(s, x) + 1);
    SumUpdate(s.covered, x, ilen);
  }

  lemma SteerKeepsPace(env: Env, s: Rec, kind: Kind)
    ensures var t := Steer(env, s, kind);
            SameCounters(s, t) && t.memOpIters == s.memOpIters && t.capped == s.capped && t.stopped == s.stopped
  {
  }

  lemma SameKeepsCounters(env: Env, s: Rec, t: Rec)
    requires CountersInv(env, s) && SameCounters(s, t)
    ensures CountersInv(env, t)
  {
    hide Sum, Saturate;
  }

  lemma StopKeepsCounters(env: Env, s: Rec)
    requires CountersInv(env, s)
    ensures CountersInv(env, s.(capped := true, stopped := true))
  {
    hide CountersInv;
    SameKeepsCounters(env, s, s.(capped := true, stopped := true));
  }

  lemma CodeKeepsCounters(env: Env, s: Rec, x: nat, kind: Kind, ilen: nat)
    requires CountersInv(env, s)
    ensures CountersInv(env, OnCode(env, s, x, kind, ilen))
  {
    hide CountersInv, Steer, Cover, SameCounters;
    VisitKeepsCounters(env, s, x, ilen);
    var t := s.(instret := s.instret + 1, visits := s.visits[x := VisitsOf(s, x) + 1]);
    var u := Cover(env, t, x, ilen);
    SteerKeepsPace(env, u, kind);
    SameKeepsCounters(env, u, Steer(env, u, kind));
    StopKeepsCounters(env, t);
  }

  lemma UnmappedKeepsCounters(env: Env, s: Rec, x: nat, fetch: bool, mapOk: bool)
    requires CountersInv(env, s)
    ensures CountersInv(env, OnUnmapped(env, s, x, fetch, mapOk))
  {
    hide Sum, NoteNewRegion;
    NoteKeepsCounters(env, s.(mapCount := s.mapCount + 1), x);
  }

  lemma StepKeepsCounters(env: Env, s: Rec, e: Event)
    requires CountersInv(env, s)
    ensures CountersInv(env, Step(env, s, e))
  {
    hide CountersInv, NoteNewRegion, ClassifyAddr, ClassifyValue, Token, OnCode, OnUnmapped, BucketOff;
    match e
    case Unmapped(x, fetch, mapOk) =>
      UnmappedKeepsCounters(env, s, x, fetch, mapOk);
    case MemRead(x) =>
      var t := s.(memOpIters := s.memOpIters + 1, capped := s.capped || s.memOpIters + 1 >= MemOpCap(env.cfg));
      NoteKeepsCounters(env, t, x);
      SameKeepsCounters(env, s, OnRead(env, s, x));
    case MemWrite(x, size, val) =>
      var t := s.(memOpIters := s.memOpIters + 1,
                  capped := s.capped || |s.effects| >= env.cfg.maxEffects || s.memOpIters + 1 >= MemOpCap(env.cfg));
      NoteKeepsCounters(env, t, x);
      SameKeepsCounters(env, s, OnWrite(env, s, x, size, val));
    case Code(x, kind, ilen) =>
      CodeKeepsCounters(env, s, x, kind, ilen);
  }

  // ---------- every order of hook calls ----------

  lemma {:induction false} RunKeeps(env: Env, events: seq<Event>)
    ensures EffectsInv(env, Run(env, events)) && CountersInv(env, Run(env, events))
  {
    hide Step, EffectsInv, CountersInv;
    if events == [] {
      StartsWell(env);
    } else {
      RunKeeps(env, events[..|events| - 1]);
      StepKeepsEffects(env, Run(env, events[..|events| - 1]), events[|events| - 1]);
      StepKeepsCounters(env, Run(env, events[..|events| - 1]), events[|events| - 1]);
    }
  }

  lemma StartsWell(env: Env)
    ensures EffectsInv(env, Fresh()) && CountersInv(env, Fresh())
  {
    hide Token;
    assert EffectsInv(env, Fresh()) by {
      assert {} * KEYS == {};
    }
  }

  // The most effects a run can record, the cap mark aside.
  function EffectLimit(cfg: Config): nat { cfg.maxEffects + MAX_READS + 7 + cfg.maxHeapish }

  // The trace is bounded by the configuration, and no argument buffer, no global touch and no
  // read token is reported twice.
  ghost predicate Bounded(env: Env, s: Rec) {
    && |s.effects| <= EffectLimit(env.cfg)
    && (forall r: Region :: r != Heapish ==> NumOf(s.effects, NewRegion(r)) <= 1)
    && ReadsOnce(s)
  }

  // However the hooks are called.
  lemma EffectsStayBounded(env: Env, events: seq<Event>)
    ensures Bounded(env, Run(env, events))
  {
    hide NumNew, NumOf, NumRead, NumOther, ReadsOnce, Run;
    var s := Run(env, events);
    RunKeeps(env, events);
    NumsPartition(s.effects);
    KeysBound(s.seenHeapish);
    forall r: Region | r != Heapish ensures NumOf(s.effects, NewRegion(r)) <= 1 {
      match r
      case Arg(k) =>
      case _ =>
    }
  }

  // ---------- runs whose engine honours stop ----------

  // No hook is called once the engine has been told to stop.
  ghost predicate Honest(env: Env, events: seq<Event>) {
    forall i :: 0 <= i < |events| ==> !Run(env, events[..i]).stopped
  }

  function OneOr(n: nat): nat { if n == 0 then 1 else n }

  // n hook calls have led to s.
  ghost predicate PaceInv(env: Env, s: Rec, n: nat) {
    && n <= s.instret + s.memOpIters + s.mapCount + (if s.stopped then 1 else 0)
    && s.instret <= env.cfg.instrCap + (if s.stopped then 1 else 0)
    && s.memOpIters <= OneOr(MemOpCap(env.cfg))
    && (s.capped ==> s.stopped)
    && (!s.stopped && s.memOpIters > 0 ==> s.memOpIters < MemOpCap(env.cfg))
    && (forall x :: x in s.visits ==> s.visits[x] <= env.cfg.visitCap + if s.stopped then 1 else 0)
  }

  lemma StepKeepsPace(env: Env, s: Rec, e: Event, n: nat)
    requires PaceInv(env, s, n) && !s.stopped
    ensures PaceInv(env, Step(env, s, e), n + 1)
  {
    hide NoteNewRegion, ClassifyAddr, ClassifyValue, Token, Steer;
    match e
    case Unmapped(x, _, _) => NoteKeepsCounters(env, s.(mapCount := s.mapCount + 1), x);
    case MemRead(x) =>
      var t := s.(memOpIters := s.memOpIters + 1, capped := s.capped || s.memOpIters + 1 >= MemOpCap(env.cfg));
      NoteKeepsCounters(env, t, x);
    case MemWrite(x, _, _) =>
      var t := s.(memOpIters := s.memOpIters + 1,
                  capped := s.capped || |s.effects| >= env.cfg.maxEffects || s.memOpIters + 1 >= MemOpCap(env.cfg));
      NoteKeepsCounters(env, t, x);
    case Code(x, kind, ilen) =>
      var t := s.(instret := s.instret + 1, visits := s.visits[x := VisitsOf(s, x) + 1]);
      SteerKeepsPace(env, Cover(env, t, x, ilen), kind);
  }

  lemma {:induction false} HonestKeepsPace(env: Env, events: seq<Event>)
    requires Honest(env, events)
    ensures PaceInv(env, Run(env, events), |events|)
  {
    hide Step;
    if events != [] {
      var n := |events| - 1;
      assert Honest(env, events[..n]) by {
        forall i | 0 <= i < n ensures !Run(env, events[..n][..i]).stopped {
          assert events[..n][..i] == events[..i];
        }
      }
      HonestKeepsPace(env, events[..n]);
      hide PaceInv;
      StepKeepsPace(env, Run(env, events[..n]), events[n], n);
    }
  }

  // At most one instruction past the cap, and a number of hook calls that is bounded by the
  // configuration, never by the clock.
  ghost predicate WithinPace(env: Env, s: Rec, calls: nat) {
    && s.instret <= env.cfg.instrCap + 1
    && s.memOpIters <= OneOr(MemOpCap(env.cfg))
    && s.mapCount <= MAX_RUNTIME_MAPS
    && (forall x :: x in s.visits ==> s.visits[x] <= env.cfg.visitCap + 1)
    && calls <= env.cfg.instrCap + 1 + OneOr(MemOpCap(env.cfg)) + MAX_RUNTIME_MAPS + 1
  }

  // A run whose engine honours stop ends.
  lemma HonestRunsEnd(env: Env, events: seq<Event>)
    requires Honest(env, events)
    ensures WithinPace(env, Run(env, events), |events|)
  {
    hide Run;
    HonestKeepsPace(env, events);
    RunKeeps(env, events);
  }

  // ---------- the end of a run ----------

  // t's effects are s's with at most one more, and that is no cap mark.
  predicate OneMore(s: Rec, t: Rec) {
    t.effects == s.effects || (|t.effects| == |s.effects| + 1 && s.effects < t.effects && t.effects[|s.effects|] != Capped)
  }

  lemma OneMoreKeeps(s: Rec, t: Rec)
    requires OneMore(s, t) && Capped !in s.effects
    ensures Capped !in t.effects
  {
    if t.effects != s.effects {
      assert t.effects == s.effects + [t.effects[|s.effects|]];
    }
  }

  lemma NoteAddsOne(env: Env, s: Rec, x: nat)
    ensures OneMore(s, NoteNewRegion(env, s, x))
  {
    hide ClassifyAddr, PageOf;
  }

  lemma SteerAddsOne(env: Env, s: Rec, kind: Kind)
    ensures OneMore(s, Steer(env, s, kind))
  {
    hide ClassifyValue, InSegs;
  }

  lemma StepAddsNoCap(env: Env, s: Rec, e: Event)
    requires Capped !in s.effects
    ensures Capped !in Step(env, s, e).effects
  {
    hide NoteNewRegion, Steer, ClassifyAddr, ClassifyValue, Token, OneMore, BucketOff;
    match e
    case Unmapped(x, _, _) =>
      var t := s.(mapCount := s.mapCount + 1);
      NoteAddsOne(env, t, x);
      OneMoreKeeps(t, NoteNewRegion(env, t, x));
    case MemRead(x) =>
      var t := s.(memOpIters := s.memOpIters + 1, capped := s.capped || s.memOpIters + 1 >= MemOpCap(env.cfg));
      NoteAddsOne(env, t, x);
      OneMoreKeeps(t, NoteNewRegion(env, t, x));
    case MemWrite(x, _, _) =>
      var t := s.(memOpIters := s.memOpIters + 1,
                  capped := s.capped || |s.effects| >= env.cfg.maxEffects || s.memOpIters + 1 >= MemOpCap(env.cfg));
      NoteAddsOne(env, t, x);
      OneMoreKeeps(t, NoteNewRegion(env, t, x));
    case Code(x, kind, ilen) =>
      var t := s.(instret := s.instret + 1, visits := s.visits[x := VisitsOf(s, x) + 1]);
      var u := Cover(env, t, x, ilen);
      SteerAddsOne(env, u, kind);
      OneMoreKeeps(u, Steer(env, u, kind));
  }

  lemma {:induction false} NoCapInside(env: Env, events: seq<Event>)
    ensures Capped !in Run(env, events).effects
  {
    hide Step;
    if events != [] {
      NoCapInside(env, events[..|events| - 1]);
      StepAddsNoCap(env, Run(env, events[..|events| - 1]), events[|events| - 1]);
    }
  }

  // The cap mark appears exactly on runs that were cut off, once, at the end; an unmarked run
  // returned cleanly, below the instruction cap, with no cap hit on the way.
  lemma CapMarksCutRuns(env: Env, events: seq<Event>, runFailed: bool, atReturn: bool)
    ensures var s := Run(env, events);
            var trace := TraceOf(env, s, runFailed, atReturn);
            && (Capped in trace <==> Cut(env, s, runFailed, atReturn))
            && (forall i :: 0 <= i < |trace| - 1 ==> trace[i] != Capped)
            && (Capped !in trace ==> !runFailed && atReturn && !s.capped && s.instret < env.cfg.instrCap)
            && |trace| <= EffectLimit(env.cfg) + 1
  {
    hide Run;
    NoCapInside(env, events);
    EffectsStayBounded(env, events);
    var s := Run(env, events);
    var trace := TraceOf(env, s, runFailed, atReturn);
    assert forall i :: 0 <= i < |s.effects| ==> trace[i] == s.effects[i];
    assert forall i :: 0 <= i < |s.effects| ==> s.effects[i] in s.effects;
  }
}
