/**
  crates/fnprint-emu: the recorder as its hooks update it in place. It remembers every hook
  call, so that what holds for all orders of calls holds for the object after each of them.
 */
module Recorder {
  import opened Machine
  import opened Trace
  import opened Hooks
  import opened RecorderTheorems
  import opened Histories

  class Recorder {
    const env: Env
    var effects: seq<Effect>
    var visits: map<nat, nat>
    var instret: nat
    var capped: bool
    var seenHeapish: set<nat>
    var seenReads: set<bv64>
    var heapishCount: nat
    var retCtr: nat
    var mapCount: nat
    var coveredBytes: nat
    var covered: map<nat, nat>
    var callees: set<nat>
    var memOpIters: nat
    var stopped: bool
    // every hook call so far
    ghost var history: seq<Event>

    function State(): Rec
      reads this
    {
      Rec(effects, visits, instret, capped, seenHeapish, seenReads, heapishCount, retCtr, mapCount,
          coveredBytes, covered, callees, memOpIters, stopped)
    }

    // The fields are what the hook calls so far have made of them.
    ghost predicate Valid()
      reads this
    {
      State() == Run(env, history)
    }

    // One more hook call is on record, and the fields tell the whole history. The trace stays
    // bounded and without repeats and the counters stay true; and as long as no hook is called
    // after a stop, the run stays short.
    twostate predicate Recorded(e: Event)
      reads this
    {
      && Valid() && history == old(history) + [e]
      && FieldsAre(env, history, State())
      && Bounded(env, State()) && CountersInv(env, State())
      && (Honest(env, old(history)) && !old(stopped) ==> Honest(env, history))
      && (Honest(env, history) ==> WithinPace(env, State(), |history|))
    }

    constructor (env: Env)
      ensures this.env == env && Valid() && history == []
    {
      this.env := env;
      effects, visits, instret, capped := [], map[], 0, false;
      seenHeapish, seenReads, heapishCount, retCtr := {}, {}, 0, 0;
      mapCount, coveredBytes, covered, callees := 0, 0, map[], {};
      memOpIters, stopped := 0, false;
      history := [];
    }

    method NoteRegion(x: nat)
      modifies this
      ensures State() == NoteNewRegion(env, old(State()), x) && history == old(history)
    {
      var (region, _) := ClassifyAddr(env.segs, x);
      match region {
        case Arg(k) =>
          if ArgKey(k) !in seenHeapish {
            seenHeapish := seenHeapish + {ArgKey(k)};
            effects := effects + [NewRegion(Arg(k))];
          }
        case Global =>
          if GLOBAL_KEY !in seenHeapish {
            seenHeapish := seenHeapish + {GLOBAL_KEY};
            effects := effects + [NewRegion(Global)];
          }
        case Heapish =>
          var page := PageOf(x);
          if page !in seenHeapish {
            seenHeapish := seenHeapish + {page};
            if heapishCount < env.cfg.maxHeapish {
              heapishCount := heapishCount + 1;
              effects := effects + [NewRegion(Heapish)];
            }
          }
        case Stack =>
      }
    }

    // The engine may map a data page; a fetch, a failed map and one page too many are refused.
    method MapPage(x: nat, fetch: bool, mapOk: bool) returns (handled: bool)
      modifies this
      ensures State() == OnUnmapped(env, old(State()), x, fetch, mapOk) && history == old(history)
      ensures handled <==> !fetch && mapOk && old(mapCount) < 256
    {
      hide NoteNewRegion;
      if fetch {
        stopped := true;
        return false;
      }
      if mapCount >= MAX_RUNTIME_MAPS {
        capped := true;
        stopped := true;
        return false;
      }
      mapCount := mapCount + 1;
      if !mapOk {
        stopped := true;
        return false;
      }
      NoteRegion(x);
      return true;
    }

    // The engine asks for a page; false refuses the access and ends the run.
    method UnmappedHook(x: nat, fetch: bool, mapOk: bool) returns (handled: bool)
      requires Valid()
      modifies this
      ensures Recorded(Unmapped(x, fetch, mapOk))
      ensures handled <==> !fetch && mapOk && old(mapCount) < 256
    {
      hide Bounded, CountersInv, Honest, WithinPace, Run, FieldsAre, OnUnmapped;
      OneMoreCall(env, history, Unmapped(x, fetch, mapOk));
      handled := MapPage(x, fetch, mapOk);
      history := history + [Unmapped(x, fetch, mapOk)];
    }

    // A read is kept once per token, and only so many tokens.
    method KeepRead(e: Effect)
      modifies this
      ensures State() == NoteRead(old(State()), e) && history == old(history)
    {
      hide Token;
      var key := ComputeToken(e);
      if key !in seenReads {
        seenReads := seenReads + {key};
        if |seenReads| <= MAX_READS {
          effects := effects + [e];
        }
      }
    }

    // A read, up to the ceiling on accesses.
    method TakeRead(x: nat)
      modifies this
      ensures State() == OnRead(env, old(State()), x) && history == old(history)
    {
      hide NoteRead, ClassifyAddr, BucketOff, NoteNewRegion;
      memOpIters := memOpIters + 1;
      if memOpIters >= MemOpCap(env.cfg) {
        capped := true;
      }
      if capped {
        stopped := true;
        return;
      }
      NoteRegion(x);
      var (region, off) := ClassifyAddr(env.segs, x);
      if region != Stack {
        KeepRead(Read(region, BucketOff(off)));
      }
    }

    method ReadHook(x: nat)
      requires Valid()
      modifies this
      ensures Recorded(MemRead(x))
    {
      hide Bounded, CountersInv, Honest, WithinPace, Run, FieldsAre, OnRead;
      OneMoreCall(env, history, MemRead(x));
      TakeRead(x);
      history := history + [MemRead(x)];
    }

    // A write, up to either ceiling; the stack is no effect.
    method TakeWrite(x: nat, size: nat, val: U64)
      modifies this
      ensures State() == OnWrite(env, old(State()), x, size, val) && history == old(history)
    {
      hide NoteNewRegion;
      memOpIters := memOpIters + 1;
      if |effects| >= env.cfg.maxEffects || memOpIters >= MemOpCap(env.cfg) {
        capped := true;
      }
      if capped {
        stopped := true;
        return;
      }
      NoteRegion(x);
      var (region, off) := ClassifyAddr(env.segs, x);
      if region == Stack {
        return;
      }
      effects := effects + [Write(region, BucketOff(off), ClassifyValue(MaskToSize(val, size)))];
    }

    method WriteHook(x: nat, size: nat, val: U64)
      requires Valid()
      modifies this
      ensures Recorded(MemWrite(x, size, val))
    {
      hide Bounded, CountersInv, Honest, WithinPace, Run, FieldsAre, OnWrite;
      OneMoreCall(env, history, MemWrite(x, size, val));
      TakeWrite(x, size, val);
      history := history + [MemWrite(x, size, val)];
    }

    // Code bytes of the body, counted on the first visit.
    method NoteCoverage(x: nat, c: nat, ilen: nat)
      requires c == VisitsOf(State(), x)
      modifies this`coveredBytes, this`covered
      ensures State() == Cover(env, old(State()), x, ilen)
    {
      if c == 1 && env.funcLo <= x < env.funcHi {
        coveredBytes := Saturate(coveredBytes + ilen);
        covered := covered[x := ilen];
      }
    }

    method CountVisit(x: nat) returns (c: nat)
      modifies this`instret, this`visits
      ensures c == VisitsOf(old(State()), x) + 1
      ensures State() == old(State()).(instret := old(instret) + 1, visits := old(visits)[x := c])
    {
      c := (if x in visits then visits[x] else 0) + 1;
      instret := instret + 1;
      visits := visits[x := c];
    }

    // An instruction: counted, then held against the caps, then covered and recorded.
    method TakeInstruction(x: nat, kind: Kind, ilen: nat)
      modifies this
      ensures State() == OnCode(env, old(State()), x, kind, ilen) && history == old(history)
    {
      hide Steer, Cover;
      var c := CountVisit(x);
      if c > env.cfg.visitCap || instret > env.cfg.instrCap || |effects| >= env.cfg.maxEffects {
        capped := true;
        stopped := true;
        return;
      }
      NoteCoverage(x, c, ilen);
      SteerBy(kind);
    }

    method CodeHook(x: nat, kind: Kind, ilen: nat)
      requires Valid()
      modifies this
      ensures Recorded(Code(x, kind, ilen))
    {
      hide Bounded, CountersInv, Honest, WithinPace, Run, FieldsAre, OnCode;
      OneMoreCall(env, history, Code(x, kind, ilen));
      TakeInstruction(x, kind, ilen);
      history := history + [Code(x, kind, ilen)];
    }

    method SteerBy(kind: Kind)
      modifies this
      ensures State() == Steer(env, old(State()), kind) && history == old(history)
    {
      hide ClassifyValue, NameOf, InSegs;
      match kind {
        case CallInsn(dest, direct) =>
          var name := NameOf(env, dest);
          if dest.Some? && direct && name.None? && InSegs(env.segs, dest.value) {
            callees := callees + {dest.value};
          }
          retCtr := retCtr + 1;
          effects := effects + [Call(match name case Some(n) => Sym(n) case None => Anon)];
        case SyscallInsn(nr) =>
          effects := effects + [Syscall(nr)];
          retCtr := retCtr + 1;
        case RetInsn(value) =>
          effects := effects + [Ret(ClassifyValue(value))];
        case BranchInsn =>
          effects := effects + [Branch];
        case Plain =>
      }
    }

    // The tail of a run: anything but a clean return under the caps is marked, once, at the end.
    // The trace and the covered body are handed over.
    method Finish(runFailed: bool, atReturn: bool) returns (trace: seq<Effect>, cut: bool, body: map<nat, nat>)
      requires Valid()
      modifies this
      ensures State() == old(State()).(effects := [], covered := map[], capped := cut) && history == old(history)
      ensures body == old(covered)
      ensures cut <==> old(capped) || old(instret) >= env.cfg.instrCap || runFailed || !atReturn
      ensures trace == Told(env, history) + (if cut then [Capped] else []) && (Capped in trace <==> cut)
      ensures forall i :: 0 <= i < |trace| - 1 ==> trace[i] != Capped
      ensures |trace| <= EffectLimit(env.cfg) + 1
      ensures Sum(body) <= U64_MAX ==> coveredBytes == Sum(body)
    {
      hide Run, Bounded, CountersInv, Told, FieldsAre;
      CapMarksCutRuns(env, history, runFailed, atReturn);
      RunTells(env, history);
      TraceIsTold(env, history);
      CoveredIsBody(env, history);
      if instret >= env.cfg.instrCap {
        capped := true;
      }
      if !capped && (runFailed || !atReturn) {
        capped := true;
      }
      trace, cut, body := effects, capped, covered;
      effects, covered := [], map[];
      if cut {
        trace := trace + [Capped];
      }
    }
  }

  lemma CoveredIsBody(env: Env, events: seq<Event>)
    ensures var s := Run(env, events); Sum(s.covered) <= U64_MAX ==> s.coveredBytes == Sum(s.covered)
  {
    hide Run, EffectsInv;
    RunKeeps(env, events);
  }

  lemma RunSnoc(env: Env, events: seq<Event>, e: Event)
    ensures Run(env, events + [e]) == Step(env, Run(env, events), e)
  {
    assert (events + [e])[..|events|] == events;
  }

  lemma HonestSnoc(env: Env, events: seq<Event>, e: Event)
    requires Honest(env, events) && !Run(env, events).stopped
    ensures Honest(env, events + [e])
  {
    forall i | 0 <= i <= |events| ensures !Run(env, (events + [e])[..i]).stopped {
      assert (events + [e])[..i] == events[..i];
      assert events[..|events|] == events;
    }
  }

  // What one more call leads to, and what it keeps.
  lemma OneMoreCall(env: Env, events: seq<Event>, e: Event)
    ensures var s := Run(env, events + [e]);
            && s == Step(env, Run(env, events), e)
            && FieldsAre(env, events + [e], s)
            && Bounded(env, s) && CountersInv(env, s)
            && (Honest(env, events) && !Run(env, events).stopped ==> Honest(env, events + [e]))
            && (Honest(env, events + [e]) ==> WithinPace(env, s, |events + [e]|))
  {
    hide Step, Bounded, CountersInv, EffectsInv, WithinPace, Run, Honest, FieldsAre;
    RunSnoc(env, events, e);
    RunTells(env, events + [e]);
    EffectsStayBounded(env, events + [e]);
    RunKeeps(env, events + [e]);
    if Honest(env, events) && !Run(env, events).stopped { HonestSnoc(env, events, e); }
    if Honest(env, events + [e]) { HonestRunsEnd(env, events + [e]); }
  }
}
