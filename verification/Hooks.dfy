/**
  crates/fnprint-emu: what the emulator's hooks do to the recorder, as functions of its
  state. The emulator is any environment: it may call the hooks in any order with any
  arguments.
 */
module Hooks {
  import opened Machine
  import opened Trace
  import opened Wrappers

  const NARGS: nat := 6
  const ARG_BASE: nat := 0x10_0000_0000
  const ARG_STRIDE: nat := 0x01_0000_0000
  const ARG_SIZE: nat := 0x8000
  const STACK_BASE: nat := 0x20_0000_0000
  const STACK_SIZE: nat := 0x4_0000
  const RSP0: nat := STACK_BASE + STACK_SIZE / 2
  const MAX_RUNTIME_MAPS: nat := 256
  const MEM_OPS_PER_INSTR_CAP: nat := 64
  const MAX_READS: nat := 64

  datatype Config = Config(instrCap: U64, visitCap: U32, maxHeapish: nat, maxEffects: nat)

  // What a run reads but never changes. `symbols` names imports only.
  datatype Env = Env(cfg: Config, segs: seq<(nat, nat)>, symbols: map<nat, Name>, funcLo: nat, funcHi: nat)

  // ---------- classification ----------

  function ArgBase(k: nat): nat { ARG_BASE + k * ARG_STRIDE }

  predicate InArg(k: nat, x: nat) { ArgBase(k) <= x < ArgBase(k) + ARG_SIZE }

  // The first argument window from k on that holds x.
  function ArgOf(x: nat, k: nat): Option<nat>
    decreases NARGS - k
  {
    if k >= NARGS then None else if InArg(k, x) then Some(k) else ArgOf(x, k + 1)
  }

  function ClassifyValue(v: U64): ValueClass {
    if v == 0 then Zero
    else
      match ArgOf(v, 0)
      case Some(k) => if k < NARGS then (if v == ArgBase(k) then Input(k) else InputDeriv(k)) else Unknown
      case None => if -4096 <= Signed(v) <= 4096 then SmallConst(Signed(v)) else BigConst
  }

  predicate InSegs(segs: seq<(nat, nat)>, x: nat) {
    exists i :: 0 <= i < |segs| && segs[i].0 <= x < segs[i].1
  }

  // Where an address lies, and how far into that region.
  function ClassifyAddr(segs: seq<(nat, nat)>, x: nat): (Region, int) {
    match ArgOf(x, 0)
    case Some(k) => if k < NARGS then (Arg(k), x - ArgBase(k)) else (Heapish, 0)
    case None =>
      if STACK_BASE <= x < STACK_BASE + STACK_SIZE then (Stack, x - RSP0)
      else if InSegs(segs, x) then (Global, 0)
      else (Heapish, x % PAGE)
  }

  lemma {:induction false} ArgOfFinds(x: nat, k: nat)
    ensures match ArgOf(x, k)
            case Some(j) => k <= j < NARGS && InArg(j, x) && forall i :: k <= i < j ==> !InArg(i, x)
            case None => forall i :: k <= i < NARGS ==> !InArg(i, x)
    decreases NARGS - k
  {
    hide InArg;
    if k < NARGS && !InArg(k, x) { ArgOfFinds(x, k + 1); }
  }

  function MaskToSize(v: U64, size: nat): U64 {
    if size == 1 then v % 0x100
    else if size == 2 then v % 0x1_0000
    else if size == 4 then v % 0x1_0000_0000
    else v
  }

  // Rounded toward zero to a multiple of 8, clamped.
  function BucketOff(off: int): (b: I32)
    ensures -2048 <= b <= 2048 && b % 8 == 0
  {
    var r := if off >= 0 then off / 8 * 8 else -(-off / 8 * 8);
    if r < -2048 then -2048 else if r > 2048 then 2048 else r
  }

  // ---------- what the classes mean ----------

  // Argument window k: 0x8000 bytes from its base.
  predicate Window(k: nat, x: int) { k < 6 && 0 <= x - (0x10_0000_0000 + k * 0x1_0000_0000) < 0x8000 }

  lemma WindowsApart(k: nat, j: nat, x: int)
    requires Window(k, x) && Window(j, x)
    ensures k == j
  {
  }

  lemma WindowIsArg(x: nat)
    ensures forall k: nat :: Window(k, x) <==> ArgOf(x, 0) == Some(k)
  {
    ArgOfFinds(x, 0);
    forall k: nat ensures Window(k, x) <==> ArgOf(x, 0) == Some(k) {
      if Window(k, x) {
        assert InArg(k, x);
        if ArgOf(x, 0).Some? { WindowsApart(k, ArgOf(x, 0).value, x); }
      }
    }
  }

  // A value is an argument's base, points into an argument, is 0, or is small by its distance from
  // 0 modulo 2^64, or is none of these.
  lemma ValueIs(v: U64)
    ensures var c := ClassifyValue(v);
            && (c == Zero <==> v == 0)
            && (forall k: U16 :: c == Input(k) <==> Window(k, v) && v == 0x10_0000_0000 + k * 0x1_0000_0000)
            && (forall k: U16 :: c == InputDeriv(k) <==> Window(k, v) && v != 0x10_0000_0000 + k * 0x1_0000_0000)
            && (c.SmallConst? <==> v != 0 && (v <= 4096 || v >= 0x1_0000_0000_0000_0000 - 4096))
            && (c.SmallConst? ==> c.v == v || c.v == v - 0x1_0000_0000_0000_0000)
            && c != Unknown
  {
    WindowIsArg(v);
    forall k: U16 | Window(k, v) ensures v > 4096 && v < 0x1_0000_0000_0000_0000 - 4096 { }
  }

  // An address lies in an argument window, on the stack, in a segment or elsewhere, and its offset
  // counts from the window's base, the stack's middle, nothing and the page.
  lemma AddressIs(segs: seq<(nat, nat)>, x: nat)
    ensures var (r, off) := ClassifyAddr(segs, x);
            var onStack := 0x20_0000_0000 <= x < 0x20_0004_0000;
            var inSegs := exists i :: 0 <= i < |segs| && segs[i].0 <= x < segs[i].1;
            && (forall k: U16 :: r == Arg(k) <==> Window(k, x))
            && (r.Arg? ==> off == x - (0x10_0000_0000 + r.k * 0x1_0000_0000))
            && (r == Stack <==> onStack) && (onStack ==> off == x - 0x20_0002_0000)
            && (r == Global <==> inSegs && !onStack && forall k: nat :: !Window(k, x)) && (r == Global ==> off == 0)
            && (r == Heapish ==> off == x % 0x1000)
  {
    WindowIsArg(x);
    forall k: nat | Window(k, x) ensures x < 0x20_0000_0000 { }
  }

  // Offsets are kept to the 8 bytes they fall in, toward 0, and no further out than 2048.
  lemma BucketIs(off: int)
    ensures var b := BucketOff(off);
            && (0 <= off <= 2048 ==> b <= off < b + 8)
            && (-2048 <= off <= 0 ==> b - 8 < off <= b)
            && (off > 2048 ==> b == 2048) && (off < -2048 ==> b == -2048)
  {
  }

  // A write is classed by the low bytes it stores.
  lemma MaskIs(v: U64, size: nat)
    ensures var m := MaskToSize(v, size);
            && (size == 1 ==> m < 0x100 && (v - m) % 0x100 == 0)
            && (size == 2 ==> m < 0x1_0000 && (v - m) % 0x1_0000 == 0)
            && (size == 4 ==> m < 0x1_0000_0000 && (v - m) % 0x1_0000_0000 == 0)
            && (size == 8 ==> m == v)
  {
  }

  // ---------- the recorder's state, and the hooks as functions of it ----------

  datatype Rec = Rec(
    effects: seq<Effect>,
    visits: map<nat, nat>,
    instret: nat,
    capped: bool,
    seenHeapish: set<nat>,
    seenReads: set<bv64>,
    heapishCount: nat,
    retCtr: nat,
    mapCount: nat,
    coveredBytes: nat,
    covered: map<nat, nat>,
    callees: set<nat>,
    memOpIters: nat,
    // the engine was told to stop, or a hook refused an access
    stopped: bool)

  function Fresh(): Rec {
    Rec([], map[], 0, false, {}, {}, 0, 0, 0, 0, map[], {}, 0, false)
  }

  function Push(s: Rec, e: Effect): Rec { s.(effects := s.effects + [e]) }

  function ArgKey(k: nat): nat { 0xA00 + k }

  const GLOBAL_KEY: nat := 0xB00

  function NoteNewRegion(env: Env, s: Rec, x: nat): Rec {
    match ClassifyAddr(env.segs, x).0
    case Arg(k) =>
      if ArgKey(k) in s.seenHeapish then s
      else Push(s.(seenHeapish := s.seenHeapish + {ArgKey(k)}), NewRegion(Arg(k)))
    case Global =>
      if GLOBAL_KEY in s.seenHeapish then s
      else Push(s.(seenHeapish := s.seenHeapish + {GLOBAL_KEY}), NewRegion(Global))
    case Heapish =>
      if PageOf(x) in s.seenHeapish then s
      else
        var t := s.(seenHeapish := s.seenHeapish + {PageOf(x)});
        if s.heapishCount < env.cfg.maxHeapish then
          Push(t.(heapishCount := s.heapishCount + 1), NewRegion(Heapish))
        else t
    case Stack => s
  }

  // An access to an unmapped page; mapOk says whether the engine could map it.
  function OnUnmapped(env: Env, s: Rec, x: nat, fetch: bool, mapOk: bool): Rec {
    if fetch then s.(stopped := true)
    else if s.mapCount >= MAX_RUNTIME_MAPS then s.(capped := true, stopped := true)
    else
      var t := s.(mapCount := s.mapCount + 1);
      if !mapOk then t.(stopped := true) else NoteNewRegion(env, t, x)
  }

  function MemOpCap(cfg: Config): nat {
    Saturate(cfg.instrCap * MEM_OPS_PER_INSTR_CAP)
  }

  function NoteRead(s: Rec, e: Effect): Rec {
    if Token(e) in s.seenReads then s
    else
      var t := s.(seenReads := s.seenReads + {Token(e)});
      if |t.seenReads| <= MAX_READS then Push(t, e) else t
  }

  function OnRead(env: Env, s: Rec, x: nat): Rec {
    var t := s.(
      memOpIters := s.memOpIters + 1,
      capped := s.capped || s.memOpIters + 1 >= MemOpCap(env.cfg));
    if t.capped then t.(stopped := true)
    else
      var u := NoteNewRegion(env, t, x);
      var (region, off) := ClassifyAddr(env.segs, x);
      if region == Stack then u else NoteRead(u, Read(region, BucketOff(off)))
  }

  function OnWrite(env: Env, s: Rec, x: nat, size: nat, val: U64): Rec {
    var t := s.(
      memOpIters := s.memOpIters + 1,
      capped := s.capped || |s.effects| >= env.cfg.maxEffects || s.memOpIters + 1 >= MemOpCap(env.cfg));
    if t.capped then t.(stopped := true)
    else
      var u := NoteNewRegion(env, t, x);
      var (region, off) := ClassifyAddr(env.segs, x);
      if region == Stack then u
      else Push(u, Write(region, BucketOff(off), ClassifyValue(MaskToSize(val, size))))
  }

  // What the decoder made of an instruction.
  datatype Kind =
    | CallInsn(dest: Option<nat>, direct: bool)
    | RetInsn(value: U64)
    | SyscallInsn(nr: U32)
    | BranchInsn
    | Plain

  function NameOf(env: Env, dest: Option<nat>): Option<Name> {
    if dest.Some? && dest.value in env.symbols then Some(env.symbols[dest.value]) else None
  }

  function Steer(env: Env, s: Rec, kind: Kind): Rec {
    match kind
    case CallInsn(dest, direct) =>
      var name := NameOf(env, dest);
      var edge := dest.Some? && direct && name.None? && InSegs(env.segs, dest.value);
      Push(s.(callees := if edge then s.callees + {dest.value} else s.callees, retCtr := s.retCtr + 1),
           Call(match name case Some(n) => Sym(n) case None => Anon))
    case SyscallInsn(nr) => Push(s.(retCtr := s.retCtr + 1), Syscall(nr))
    case RetInsn(value) => Push(s, Ret(ClassifyValue(value)))
    case BranchInsn => Push(s, Branch)
    case Plain => s
  }

  function VisitsOf(s: Rec, x: nat): nat { if x in s.visits then s.visits[x] else 0 }

  function Cover(env: Env, s: Rec, x: nat, ilen: nat): Rec {
    if VisitsOf(s, x) == 1 && env.funcLo <= x < env.funcHi then
      s.(coveredBytes := Saturate(s.coveredBytes + ilen), covered := s.covered[x := ilen])
    else s
  }

  function OnCode(env: Env, s: Rec, x: nat, kind: Kind, ilen: nat): Rec {
    var t := s.(instret := s.instret + 1, visits := s.visits[x := VisitsOf(s, x) + 1]);
    if VisitsOf(t, x) > env.cfg.visitCap || t.instret > env.cfg.instrCap || |t.effects| >= env.cfg.maxEffects then
      t.(capped := true, stopped := true)
    else Steer(env, Cover(env, t, x, ilen), kind)
  }

  datatype Event =
    | Unmapped(x: nat, fetch: bool, mapOk: bool)
    | MemRead(x: nat)
    | MemWrite(x: nat, size: nat, val: U64)
    | Code(x: nat, kind: Kind, ilen: nat)

  function Step(env: Env, s: Rec, e: Event): Rec {
    match e
    case Unmapped(x, fetch, mapOk) => OnUnmapped(env, s, x, fetch, mapOk)
    case MemRead(x) => OnRead(env, s, x)
    case MemWrite(x, size, val) => OnWrite(env, s, x, size, val)
    case Code(x, kind, ilen) => OnCode(env, s, x, kind, ilen)
  }

  // The state after a sequence of hook calls.
  function Run(env: Env, events: seq<Event>): Rec {
    if events == [] then Fresh() else Step(env, Run(env, events[..|events| - 1]), events[|events| - 1])
  }

  // ---------- the end of a run ----------

  // Was the run cut off?
  function Cut(env: Env, s: Rec, runFailed: bool, atReturn: bool): bool {
    s.capped || s.instret >= env.cfg.instrCap || runFailed || !atReturn
  }

  function TraceOf(env: Env, s: Rec, runFailed: bool, atReturn: bool): seq<Effect> {
    s.effects + if Cut(env, s, runFailed, atReturn) then [Capped] else []
  }
}
