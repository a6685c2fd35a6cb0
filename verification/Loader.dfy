/**
  crates/fnprint-loader: planning and copying the PT_LOAD segments (System V gABI,
  chapter 5, "Program Header"), the overlap check, code lookup, and the final
  function list.
 */
module Loader {
  import opened Machine
  import opened Wrappers
  import opened Sorting

  const MAX_SEG_MEM: nat := 0x4000_0000
  const MAX_TOTAL_MEM: nat := 0x8000_0000
  const MAX_LOAD_SEGS: nat := 256

  datatype Phdr = Phdr(load: bool, offset: U64, filesz: U64, vaddr: U64, memsz: U64, exec: bool, write: bool)

  datatype Plan = Plan(start: nat, end: nat, memsz: U64, vaddr: U64, exec: bool, write: bool)

  datatype Segment = Segment(vaddr: U64, bytes: seq<bv8>, exec: bool, write: bool)

  datatype LoadError = SegTooBig | VaddrOverflow | TotalTooBig | TooManySegs | NoLoad | Overlap

  function Min(x: nat, y: nat): nat { if x < y then x else y }

  // ---------- first pass: planning ----------

  // The part of the file a header copies, clamped to the file.
  function PlanOf(ph: Phdr, fileLen: U64): (p: Plan)
    ensures p.start <= p.end <= fileLen
  {
    var start := Min(ph.offset, fileLen);
    var end := Min(Saturate(start + ph.filesz), fileLen);
    Plan(start, end, ph.memsz, ph.vaddr, ph.exec, ph.write)
  }

  function AllocLen(p: Plan): nat
    requires p.start <= p.end
  {
    if p.end - p.start < p.memsz then p.memsz else p.end - p.start
  }

  function PlansOf(phs: seq<Phdr>, fileLen: U64): seq<Plan> {
    if phs == [] then []
    else
      PlansOf(phs[..|phs| - 1], fileLen) +
      if phs[|phs| - 1].load then [PlanOf(phs[|phs| - 1], fileLen)] else []
  }

  function TotalOf(phs: seq<Phdr>, fileLen: U64): nat {
    if phs == [] then 0
    else
      TotalOf(phs[..|phs| - 1], fileLen) +
      if phs[|phs| - 1].load then AllocLen(PlanOf(phs[|phs| - 1], fileLen)) else 0
  }

  // What the next header trips, given what came before it.
  function HeaderError(before: seq<Phdr>, ph: Phdr, fileLen: U64): Option<LoadError> {
    if !ph.load then None
    else if ph.memsz > MAX_SEG_MEM then Some(SegTooBig)
    else if ph.vaddr + ph.memsz > U64_MAX then Some(VaddrOverflow)
    else if TotalOf(before, fileLen) + AllocLen(PlanOf(ph, fileLen)) > MAX_TOTAL_MEM then Some(TotalTooBig)
    else if |PlansOf(before, fileLen)| + 1 > MAX_LOAD_SEGS then Some(TooManySegs)
    else None
  }

  // The error of the first bad header.
  function PlanError(phs: seq<Phdr>, fileLen: U64): Option<LoadError> {
    if phs == [] then None
    else
      var earlier := PlanError(phs[..|phs| - 1], fileLen);
      if earlier.Some? then earlier else HeaderError(phs[..|phs| - 1], phs[|phs| - 1], fileLen)
  }

  method PlanSegments(phs: seq<Phdr>, fileLen: U64) returns (r: Result<seq<Plan>, LoadError>)
    ensures match PlanError(phs, fileLen)
            case Some(e) => r == Err(e)
            case None => r == if PlansOf(phs, fileLen) == [] then Err(NoLoad) else Ok(PlansOf(phs, fileLen))
  {
    var plans: seq<Plan> := [];
    var total: U64 := 0;
    for i := 0 to |phs|
      invariant PlanError(phs[..i], fileLen) == None
      invariant plans == PlansOf(phs[..i], fileLen)
      invariant total == TotalOf(phs[..i], fileLen) <= MAX_TOTAL_MEM
    {
      var ph := phs[i];
      assert phs[..i + 1][..i] == phs[..i];
      ErrorsStay(phs, fileLen, i + 1);
      if !ph.load {
        continue;
      }
      if ph.memsz > MAX_SEG_MEM {
        return Err(SegTooBig);
      }
      if ph.vaddr + ph.memsz > U64_MAX {
        return Err(VaddrOverflow);
      }
      var plan := PlanOf(ph, fileLen);
      total := Saturate(total + AllocLen(plan));
      if total > MAX_TOTAL_MEM {
        return Err(TotalTooBig);
      }
      plans := plans + [plan];
      if |plans| > MAX_LOAD_SEGS {
        return Err(TooManySegs);
      }
    }
    assert phs[..|phs|] == phs;
    if plans == [] {
      return Err(NoLoad);
    }
    return Ok(plans);
  }

  lemma {:induction false} ErrorsStay(phs: seq<Phdr>, fileLen: U64, i: nat)
    requires i <= |phs|
    ensures PlanError(phs[..i], fileLen).Some? ==> PlanError(phs, fileLen) == PlanError(phs[..i], fileLen)
    decreases |phs|
  {
    hide HeaderError;
    if i == |phs| {
      assert phs[..i] == phs;
    } else {
      ErrorsStay(phs[..|phs| - 1], fileLen, i);
      assert phs[..|phs| - 1][..i] == phs[..i];
    }
  }

  // Header by header and in total, what a loadable file satisfies.
  ghost predicate Sound(phs: seq<Phdr>, fileLen: U64) {
    && (forall i :: 0 <= i < |phs| && phs[i].load ==>
          phs[i].memsz <= 0x4000_0000 && phs[i].vaddr + phs[i].memsz <= U64_MAX)
    && TotalOf(phs, fileLen) <= 0x8000_0000
    && |PlansOf(phs, fileLen)| <= 256
  }

  // The running checks of the first pass amount to these limits on the whole file.
  lemma {:induction false} PlansSucceedIffSound(phs: seq<Phdr>, fileLen: U64)
    ensures PlanError(phs, fileLen).None? <==> Sound(phs, fileLen)
  {
    if phs != [] {
      var n := |phs| - 1;
      PlansSucceedIffSound(phs[..n], fileLen);
      assert forall i :: 0 <= i < n ==> phs[..n][i] == phs[i];
      assert phs[n] == phs[|phs| - 1];
    }
  }

  // ---------- second pass: copying ----------

  function Zeros(n: nat): (z: seq<bv8>)
    ensures |z| == n
  {
    seq(n, _ => 0)
  }

  function CopyOf(p: Plan, file: seq<bv8>): (s: Segment)
    requires p.start <= p.end <= |file|
    ensures |s.bytes| == AllocLen(p)
  {
    var data := file[p.start..p.end];
    Segment(p.vaddr, data + Zeros(if p.memsz > |data| then p.memsz - |data| else 0), p.exec, p.write)
  }

  predicate Fits(plans: seq<Plan>, n: nat) {
    forall i :: 0 <= i < |plans| ==> plans[i].start <= plans[i].end <= n
  }

  function Copies(plans: seq<Plan>, file: seq<bv8>): (r: seq<Segment>)
    requires Fits(plans, |file|)
    ensures |r| == |plans|
  {
    seq(|plans|, i requires 0 <= i < |plans| => CopyOf(plans[i], file))
  }

  lemma {:induction false} PlansFit(phs: seq<Phdr>, fileLen: U64)
    ensures Fits(PlansOf(phs, fileLen), fileLen)
  {
    if phs != [] { PlansFit(phs[..|phs| - 1], fileLen); }
  }

  function ByVaddr(): (Segment, Segment) -> bool { (x: Segment, y: Segment) => x.vaddr <= y.vaddr }

  function EndOf(s: Segment): nat { s.vaddr + |s.bytes| }

  // The check on neighbours of the sorted list.
  predicate Clear(segs: seq<Segment>) {
    forall i :: 0 <= i < |segs| - 1 ==> segs[i + 1].vaddr >= Saturate(EndOf(segs[i]))
  }

  function Segments(phs: seq<Phdr>, file: seq<bv8>): seq<Segment>
    requires |file| <= U64_MAX
  {
    PlansFit(phs, |file|);
    SortBy(Copies(PlansOf(phs, |file|), file), ByVaddr())
  }

  method LoadSegments(phs: seq<Phdr>, file: seq<bv8>) returns (r: Result<seq<Segment>, LoadError>)
    requires |file| <= U64_MAX
    ensures match PlanError(phs, |file|)
            case Some(e) => r == Err(e)
            case None =>
              r == if Segments(phs, file) == [] then Err(NoLoad)
                   else if Clear(Segments(phs, file)) then Ok(Segments(phs, file))
                   else Err(Overlap)
  {
    hide PlanError, SortBy;
    var planned := PlanSegments(phs, |file|);
    PlansFit(phs, |file|);
    LengthOfSort(Copies(PlansOf(phs, |file|), file), ByVaddr());
    match planned
    case Err(e) => return Err(e);
    case Ok(plans) =>
      var segs: seq<Segment> := [];
      for i := 0 to |plans|
        invariant segs == Copies(plans[..i], file)
      {
        var p := plans[i];
        var data := file[p.start..p.end];
        if p.memsz > |data| {
          data := data + Zeros(p.memsz - |data|);
        }
        segs := segs + [Segment(p.vaddr, data, p.exec, p.write)];
        assert CopyOf(p, file).bytes == data;
        assert segs == Copies(plans[..i + 1], file);
      }
      assert plans[..|plans|] == plans;
      segs := SortBy(segs, ByVaddr());
      for i := 0 to |segs| - 1
        invariant forall k :: 0 <= k < i ==> segs[k + 1].vaddr >= Saturate(EndOf(segs[k]))
      {
        if segs[i + 1].vaddr < Saturate(EndOf(segs[i])) {
          return Err(Overlap);
        }
      }
      return Ok(segs);
  }

  // ---------- what a successful load holds ----------

  function BytesOf(segs: seq<Segment>): nat {
    if segs == [] then 0 else |segs[0].bytes| + BytesOf(segs[1..])
  }

  lemma {:induction false} BytesOfConcat(s: seq<Segment>, t: seq<Segment>)
    ensures BytesOf(s + t) == BytesOf(s) + BytesOf(t)
  {
    if s == [] {
      assert s + t == t;
    } else {
      BytesOfConcat(s[1..], t);
      assert (s + t)[1..] == s[1..] + t;
    }
  }

  lemma {:induction false} BytesOfInsert(x: Segment, s: seq<Segment>, le: (Segment, Segment) -> bool)
    ensures BytesOf(Insert(x, s, le)) == |x.bytes| + BytesOf(s)
  {
    if s != [] {
      BytesOfInsert(x, s[1..], le);
      assert ([x] + s)[1..] == s;
      assert ([s[0]] + Insert(x, s[1..], le))[1..] == Insert(x, s[1..], le);
    }
  }

  lemma {:induction false} BytesOfSort(s: seq<Segment>, le: (Segment, Segment) -> bool)
    ensures BytesOf(SortBy(s, le)) == BytesOf(s)
  {
    if s != [] {
      BytesOfSort(s[1..], le);
      BytesOfInsert(s[0], SortBy(s[1..], le), le);
    }
  }

  lemma {:induction false} BytesOfCopies(phs: seq<Phdr>, file: seq<bv8>)
    requires |file| <= U64_MAX && Fits(PlansOf(phs, |file|), |file|)
    ensures BytesOf(Copies(PlansOf(phs, |file|), file)) == TotalOf(phs, |file|)
  {
    hide CopyOf;
    if phs != [] {
      var n := |phs| - 1;
      PlansFit(phs[..n], |file|);
      BytesOfCopies(phs[..n], file);
      var cs := Copies(PlansOf(phs, |file|), file);
      var ds := Copies(PlansOf(phs[..n], |file|), file);
      if phs[n].load {
        var c := CopyOf(PlanOf(phs[n], |file|), file);
        assert cs == ds + [c];
        BytesOfConcat(ds, [c]);
        assert BytesOf([c]) == |c.bytes|;
      } else {
        assert cs == ds;
      }
    }
  }

  predicate Occupies(s: Segment, x: nat) { s.vaddr <= x < EndOf(s) }

  // Two ranges share no byte.
  ghost predicate Apart(s: Segment, t: Segment) {
    forall x :: !(Occupies(s, x) && Occupies(t, x))
  }

  ghost predicate PairwiseApart(segs: seq<Segment>) {
    forall i, j :: 0 <= i < j < |segs| ==> Apart(segs[i], segs[j])
  }

  // A segment runs past the end of the address space with a nonempty one behind it.
  ghost predicate ClashAtTop(segs: seq<Segment>) {
    exists i, j :: 0 <= i < j < |segs| && EndOf(segs[i]) > U64_MAX && segs[j].bytes != []
  }

  lemma {:induction false} ClearReaches(segs: seq<Segment>, i: nat, j: nat)
    requires Sorted(segs, ByVaddr()) && Clear(segs) && i < j < |segs|
    ensures segs[j].vaddr >= Saturate(EndOf(segs[i]))
    decreases j - i
  {
    if i + 1 < j {
      assert ByVaddr()(segs[i + 1], segs[j]);
    }
  }

  // The neighbour check makes all ranges disjoint, unless a saturated end hides a clash at
  // the very top of the address space.
  lemma ClearMeansApartIff(segs: seq<Segment>)
    requires Sorted(segs, ByVaddr()) && Clear(segs)
    ensures PairwiseApart(segs) <==> !ClashAtTop(segs)
  {
    forall i, j | 0 <= i < j < |segs|
      ensures Apart(segs[i], segs[j]) <==> EndOf(segs[i]) <= U64_MAX || segs[j].bytes == []
    {
      ClearReaches(segs, i, j);
      assert ByVaddr()(segs[i], segs[j]);
      if EndOf(segs[i]) > U64_MAX && segs[j].bytes != [] {
        var x := segs[j].vaddr;
        assert Occupies(segs[i], x) && Occupies(segs[j], x);
      }
    }
  }

  // An empty segment starts below the end of the one before it.
  ghost predicate EmptyInside(segs: seq<Segment>) {
    exists i :: 0 <= i < |segs| - 1 && segs[i + 1].bytes == [] && segs[i + 1].vaddr < Saturate(EndOf(segs[i]))
  }

  // Of the disjoint lists the neighbour check accepts all but those with an empty segment inside
  // another: no byte is shared there, and the file is refused.
  lemma DisjointIsClearIff(segs: seq<Segment>)
    requires Sorted(segs, ByVaddr()) && PairwiseApart(segs)
    ensures Clear(segs) <==> !EmptyInside(segs)
  {
    forall i | 0 <= i < |segs| - 1 && segs[i + 1].bytes != []
      ensures segs[i + 1].vaddr >= Saturate(EndOf(segs[i]))
    {
      assert ByVaddr()(segs[i], segs[i + 1]);
      assert Apart(segs[i], segs[i + 1]);
      assert !(Occupies(segs[i], segs[i + 1].vaddr) && Occupies(segs[i + 1], segs[i + 1].vaddr));
    }
  }

  // The file size of a well-formed header does not exceed its memory size (gABI).
  predicate FilesWithinMemory(phs: seq<Phdr>) {
    forall i :: 0 <= i < |phs| && phs[i].load ==> phs[i].filesz <= phs[i].memsz
  }

  lemma {:induction false} CopiesStayBelowTop(phs: seq<Phdr>, file: seq<bv8>)
    requires |file| <= U64_MAX && Fits(PlansOf(phs, |file|), |file|)
    requires Sound(phs, |file|) && FilesWithinMemory(phs)
    ensures forall s :: s in Copies(PlansOf(phs, |file|), file) ==> EndOf(s) <= U64_MAX
  {
    hide CopyOf;
    if phs != [] {
      var n := |phs| - 1;
      PlansFit(phs[..n], |file|);
      assert Sound(phs[..n], |file|) && FilesWithinMemory(phs[..n]) by {
        assert forall i :: 0 <= i < n ==> phs[..n][i] == phs[i];
      }
      CopiesStayBelowTop(phs[..n], file);
      var ds := Copies(PlansOf(phs[..n], |file|), file);
      if phs[n].load {
        var c := CopyOf(PlanOf(phs[n], |file|), file);
        assert Copies(PlansOf(phs, |file|), file) == ds + [c];
        VaddrOfCopy(PlanOf(phs[n], |file|), file);
      } else {
        assert Copies(PlansOf(phs, |file|), file) == ds;
      }
    }
  }

  lemma VaddrOfCopy(p: Plan, file: seq<bv8>)
    requires p.start <= p.end <= |file|
    ensures CopyOf(p, file).vaddr == p.vaddr
  {
  }

  // A successful load holds exactly the bytes the first pass counted, within the limits; its
  // segments are in address order and, in a well-formed file, pairwise disjoint.
  lemma LoadedSegments(phs: seq<Phdr>, file: seq<bv8>)
    requires |file| <= U64_MAX && PlanError(phs, |file|).None? && Clear(Segments(phs, file))
    ensures var segs := Segments(phs, file);
            && BytesOf(segs) == TotalOf(phs, |file|) <= 0x8000_0000
            && |segs| <= 256
            && Sorted(segs, ByVaddr())
            && (PairwiseApart(segs) <==> !ClashAtTop(segs))
            && (FilesWithinMemory(phs) ==> PairwiseApart(segs))
  {
    hide PlanError, CopyOf, SortBy, PairwiseApart, Sound;
    PlansFit(phs, |file|);
    var copies := Copies(PlansOf(phs, |file|), file);
    var segs := Segments(phs, file);
    PlansSucceedIffSound(phs, |file|);
    BytesOfCopies(phs, file);
    BytesOfSort(copies, ByVaddr());
    SortBySorts(copies, ByVaddr());
    assert TotalPreorder(ByVaddr());
    ClearMeansApartIff(segs);
    SoundLimits(phs, |file|);
    if FilesWithinMemory(phs) {
      CopiesStayBelowTop(phs, file);
      forall i | 0 <= i < |segs| ensures EndOf(segs[i]) <= U64_MAX { assert segs[i] in copies; }
    }
  }

  lemma SoundLimits(phs: seq<Phdr>, fileLen: U64)
    requires Sound(phs, fileLen)
    ensures TotalOf(phs, fileLen) <= 0x8000_0000 && |PlansOf(phs, fileLen)| <= 256
  {
  }

  function TwoHeaders(): seq<Phdr> {
    [Phdr(true, 0, 2, U64_MAX - 1, 0, true, false), Phdr(true, 0, 1, U64_MAX, 0, true, false)]
  }

  lemma TwoHeadersPlan()
    ensures PlanError(TwoHeaders(), 2).None?
    ensures PlansOf(TwoHeaders(), 2) == [Plan(0, 2, 0, U64_MAX - 1, true, false), Plan(0, 1, 0, U64_MAX, true, false)]
  {
    var p, q := TwoHeaders()[0], TwoHeaders()[1];
    assert TwoHeaders()[..1] == [p] && [p][..0] == [];
    assert PlansOf([p], 2) == [PlanOf(p, 2)] && TotalOf([p], 2) == 2;
    assert PlanError([p], 2).None?;
  }

  // Two headers with no memory size of their own slip past the check: both segments hold the
  // last byte of the address space.
  lemma TopClashLoads()
    ensures exists phs, file: seq<bv8> ::
              |file| <= U64_MAX && PlanError(phs, |file|).None?
              && Clear(Segments(phs, file)) && !PairwiseApart(Segments(phs, file))
  {
    hide PlanError, PlansOf, TwoHeaders, PairwiseApart;
    var file: seq<bv8> := [1, 2];
    TwoHeadersPlan();
    PlansFit(TwoHeaders(), 2);
    var plans := PlansOf(TwoHeaders(), 2);
    var s, t := CopyOf(plans[0], file), CopyOf(plans[1], file);
    assert Copies(plans, file) == [s, t];
    assert EndOf(s) == U64_MAX + 1 && t.vaddr == U64_MAX && |t.bytes| == 1;
    hide CopyOf;
    SortBySortedIsIdentity([s, t], ByVaddr());
    var segs := Segments(TwoHeaders(), file);
    assert segs == [s, t];
    assert Clear(segs);
    assert segs[0] == s && segs[1] == t && EndOf(segs[0]) > U64_MAX && segs[1].bytes != [];
    ClearMeansApartIff(segs);
  }

  // ---------- code_at ----------

  predicate Holds(s: Segment, vaddr: U64, len: nat) {
    s.vaddr <= vaddr && vaddr - s.vaddr + len <= |s.bytes|
  }

  function SliceOf(s: Segment, vaddr: U64, len: nat): seq<bv8>
    requires Holds(s, vaddr, len)
  {
    s.bytes[vaddr - s.vaddr..vaddr - s.vaddr + len]
  }

  // The bytes at vaddr, from the first segment that holds all of them.
  ghost predicate IsCodeAt(segs: seq<Segment>, vaddr: U64, len: nat, r: Option<seq<bv8>>) {
    match r
    case None => forall i :: 0 <= i < |segs| ==> !Holds(segs[i], vaddr, len)
    case Some(b) =>
      exists i :: 0 <= i < |segs| && Holds(segs[i], vaddr, len) && b == SliceOf(segs[i], vaddr, len)
                  && forall k :: 0 <= k < i ==> !Holds(segs[k], vaddr, len)
  }

  method CodeAt(segs: seq<Segment>, vaddr: U64, len: U64) returns (r: Option<seq<bv8>>)
    requires forall i :: 0 <= i < |segs| ==> |segs[i].bytes| <= U64_MAX
    ensures IsCodeAt(segs, vaddr, len, r)
  {
    for i := 0 to |segs|
      invariant forall k :: 0 <= k < i ==> !Holds(segs[k], vaddr, len)
    {
      var s := segs[i];
      if vaddr < s.vaddr {
        continue;
      }
      var off := vaddr - s.vaddr;
      if off + len > U64_MAX || off + len > |s.bytes| {
        continue;
      }
      return Some(s.bytes[off..off + len]);
    }
    return None;
  }

  // Over disjoint segments a nonempty lookup finds the one segment that holds the bytes,
  // whatever the order of the list.
  lemma CodeAtIgnoresOrder(s: seq<Segment>, t: seq<Segment>, vaddr: U64, len: nat, x: Option<seq<bv8>>, y: Option<seq<bv8>>)
    requires len >= 1 && PairwiseApart(s)
    requires multiset(s) == multiset(t)
    requires IsCodeAt(s, vaddr, len, x) && IsCodeAt(t, vaddr, len, y)
    ensures x == y
    ensures x.None? <==> forall i :: 0 <= i < |s| ==> !Holds(s[i], vaddr, len)
  {
    SameElements(s, t);
    assert forall j :: 0 <= j < |t| ==> t[j] in s;
    if x.Some? {
      var i :| 0 <= i < |s| && Holds(s[i], vaddr, len) && x == Some(SliceOf(s[i], vaddr, len));
      assert s[i] in t;
      if y.Some? {
        var j :| 0 <= j < |t| && Holds(t[j], vaddr, len) && y == Some(SliceOf(t[j], vaddr, len));
        assert t[j] in s;
        var k :| 0 <= k < |s| && s[k] == t[j];
        OneHolder(s, i, k, vaddr, len);
      }
    }
  }

  lemma NotBoth(s: seq<Segment>, i: nat, k: nat, vaddr: U64, len: nat)
    requires len >= 1 && PairwiseApart(s) && i < k < |s|
    ensures !(Holds(s[i], vaddr, len) && Holds(s[k], vaddr, len))
  {
    assert Apart(s[i], s[k]);
    assert !(Occupies(s[i], vaddr) && Occupies(s[k], vaddr));
  }

  lemma OneHolder(s: seq<Segment>, i: nat, k: nat, vaddr: U64, len: nat)
    requires len >= 1 && PairwiseApart(s) && i < |s| && k < |s|
    requires Holds(s[i], vaddr, len) && Holds(s[k], vaddr, len)
    ensures i == k
  {
    if i < k {
      NotBoth(s, i, k, vaddr, len);
    } else if k < i {
      NotBoth(s, k, i, vaddr, len);
    }
  }

  // ---------- the function list ----------

  datatype FuncSource = Symtab | DynSym | EhFrame

  datatype Func = Func(name: Option<string>, entry: nat, size: nat, source: FuncSource)

  // By entry, named ones first.
  function ByEntry(): (Func, Func) -> bool {
    (x: Func, y: Func) => x.entry < y.entry || (x.entry == y.entry && (x.name.Some? || !y.name.Some?))
  }

  function EntryOf(): Func -> nat { (f: Func) => f.entry }

  // `sort_by` then `dedup_by_key`.
  function FinalFuncs(found: seq<Func>): seq<Func> {
    DedupBy(SortBy(found, ByEntry()), EntryOf())
  }

  ghost predicate EntriesAscend(fs: seq<Func>) {
    forall i, j :: 0 <= i < j < |fs| ==> fs[i].entry < fs[j].entry
  }

  lemma ByEntryOrders()
    ensures TotalPreorder(ByEntry())
    ensures StrictOrder(NatLt())
  {
  }

  lemma {:induction false} FirstOfTies(s: seq<Func>, i: nat)
    requires i < |s|
    requires forall j :: 0 <= j < i ==> !(ByEntry()(s[i], s[j]) && ByEntry()(s[j], s[i]))
    ensures Ties(s[i], s, ByEntry()) != [] && Ties(s[i], s, ByEntry())[0] == s[i]
  {
    if i > 0 {
      assert s[1..][i - 1] == s[i];
      assert forall j :: 0 <= j < i - 1 ==> s[1..][j] == s[j + 1];
      FirstOfTies(s[1..], i - 1);
    }
  }

  // One function per discovered entry, entries strictly ascending; it has a name if any
  // function found there had one, and among equals it is the one discovered first.
  lemma FinalFuncsHold(found: seq<Func>)
    ensures EntriesAscend(FinalFuncs(found))
    ensures forall f :: f in found ==> exists g :: g in FinalFuncs(found) && g.entry == f.entry
    ensures forall g :: g in FinalFuncs(found) ==>
              && g in found
              && (forall f :: f in found && f.entry == g.entry && f.name.Some? ==> g.name.Some?)
              && Ties(g, found, ByEntry()) != [] && Ties(g, found, ByEntry())[0] == g
  {
    var t := SortBy(found, ByEntry());
    var r := FinalFuncs(found);
    ByEntryOrders();
    SortBySorts(found, ByEntry());
    assert Grouped(t, EntryOf(), NatLt()) by {
      forall i, j | 0 <= i < j < |t| ensures t[i].entry == t[j].entry || t[i].entry < t[j].entry {
        assert ByEntry()(t[i], t[j]);
      }
    }
    DedupByAscends(t, EntryOf(), NatLt());
    forall i, j | 0 <= i < j < |r| ensures r[i].entry < r[j].entry {
      assert NatLt()(EntryOf()(r[i]), EntryOf()(r[j]));
    }
    forall f | f in found ensures exists g :: g in r && g.entry == f.entry {
      var i := FirstWithEntry(t, f.entry);
      DedupByKeepsFirst(t, EntryOf(), NatLt(), i);
    }
    forall g | g in r
      ensures g in found
      ensures forall f :: f in found && f.entry == g.entry && f.name.Some? ==> g.name.Some?
      ensures Ties(g, found, ByEntry()) != [] && Ties(g, found, ByEntry())[0] == g
    {
      DedupBySubset(t, EntryOf());
      KeptIsFirst(found, g);
    }
  }

  lemma FirstWithEntry(t: seq<Func>, e: nat) returns (i: nat)
    requires exists f :: f in t && f.entry == e
    ensures FirstOfKey(t, EntryOf(), i) && t[i].entry == e
  {
    i := 0;
    while t[i].entry != e
      invariant i < |t|
      invariant exists k :: i <= k < |t| && t[k].entry == e
      invariant forall j :: 0 <= j < i ==> t[j].entry != e
      decreases |t| - i
    {
      i := i + 1;
    }
  }

  lemma KeptIsFirst(found: seq<Func>, g: Func)
    requires g in FinalFuncs(found)
    ensures forall f :: f in found && f.entry == g.entry && f.name.Some? ==> g.name.Some?
    ensures Ties(g, found, ByEntry()) != [] && Ties(g, found, ByEntry())[0] == g
  {
    var t := SortBy(found, ByEntry());
    ByEntryOrders();
    SortBySorts(found, ByEntry());
    DedupBySubset(t, EntryOf());
    assert Grouped(t, EntryOf(), NatLt()) by {
      forall i, j | 0 <= i < j < |t| ensures t[i].entry == t[j].entry || t[i].entry < t[j].entry {
        assert ByEntry()(t[i], t[j]);
      }
    }
    var i := FirstWithEntry(t, g.entry);
    DedupByKeepsFirst(t, EntryOf(), NatLt(), i);
    DedupByAscends(t, EntryOf(), NatLt());
    SameKeySameElement(FinalFuncs(found), t[i], g);
    forall f | f in found && f.entry == g.entry && f.name.Some? ensures g.name.Some? {
      var k :| 0 <= k < |t| && t[k] == f;
      assert i == k || ByEntry()(t[i], t[k]);
    }
    FirstOfTies(t, i);
    SortByIsStable(g, found, ByEntry());
  }

  lemma SameKeySameElement(r: seq<Func>, f: Func, g: Func)
    requires KeysAscend(r, EntryOf(), NatLt()) && f in r && g in r && f.entry == g.entry
    ensures f == g
  {
    var i :| 0 <= i < |r| && r[i] == f;
    var j :| 0 <= j < |r| && r[j] == g;
    forall x, y | 0 <= x < y < |r| ensures r[x].entry < r[y].entry {
      assert NatLt()(EntryOf()(r[x]), EntryOf()(r[y]));
    }
  }
}
