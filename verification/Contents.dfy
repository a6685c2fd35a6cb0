/**
  What a loaded image holds: every loadable header's window of the file at its own address,
  zero-filled to its memory size, and what a failed load complains about.
 */
module Contents {
  import opened Machine
  import opened Wrappers
  import opened Sorting
  import opened Counting
  import opened Loader

  // Byte k of the window a header describes: the file's own while the file has it, 0 after.
  function ImageByte(ph: Phdr, file: seq<bv8>, k: nat): bv8 {
    if k < ph.filesz && ph.offset + k < |file| then file[ph.offset + k] else 0
  }

  // The header asks for byte k, or the file has one for it.
  predicate InWindow(ph: Phdr, fileLen: nat, k: nat) { k < ph.memsz || (k < ph.filesz && ph.offset + k < fileLen) }

  // s is the window of header ph, byte for byte.
  ghost predicate IsWindow(ph: Phdr, file: seq<bv8>, s: Segment) {
    && s.vaddr == ph.vaddr && s.exec == ph.exec && s.write == ph.write
    && (forall k: nat :: InWindow(ph, |file|, k) <==> k < |s.bytes|)
    && (forall k :: 0 <= k < |s.bytes| ==> s.bytes[k] == ImageByte(ph, file, k))
  }

  lemma CopyIsWindow(ph: Phdr, file: seq<bv8>)
    requires |file| <= U64_MAX
    ensures IsWindow(ph, file, CopyOf(PlanOf(ph, |file|), file))
  {
    var p := PlanOf(ph, |file|);
    var s := CopyOf(p, file);
    forall k: nat ensures InWindow(ph, |file|, k) <==> k < |s.bytes| {
    }
    forall k | 0 <= k < |s.bytes| ensures s.bytes[k] == ImageByte(ph, file, k) {
    }
  }

  // Which copy belongs to which header.
  lemma {:induction false} CopiesAreWindows(phs: seq<Phdr>, file: seq<bv8>)
    requires |file| <= U64_MAX && Fits(PlansOf(phs, |file|), |file|)
    ensures |Copies(PlansOf(phs, |file|), file)| == Count(phs, (ph: Phdr) => ph.load)
    ensures forall s :: s in Copies(PlansOf(phs, |file|), file) <==>
              exists i :: 0 <= i < |phs| && phs[i].load && s == CopyOf(PlanOf(phs[i], |file|), file)
  {
    hide CopyOf;
    if phs != [] {
      var n := |phs| - 1;
      PlansFit(phs[..n], |file|);
      CopiesAreWindows(phs[..n], file);
      var cs, ds := Copies(PlansOf(phs, |file|), file), Copies(PlansOf(phs[..n], |file|), file);
      assert forall i :: 0 <= i < n ==> phs[..n][i] == phs[i];
      if phs[n].load {
        assert cs == ds + [CopyOf(PlanOf(phs[n], |file|), file)];
      } else {
        assert cs == ds;
      }
    }
  }

  // One segment per loadable header, each the window of one of them, and all are there.
  lemma SegmentsAreWindows(phs: seq<Phdr>, file: seq<bv8>)
    requires |file| <= U64_MAX
    ensures |Segments(phs, file)| == Count(phs, (ph: Phdr) => ph.load)
    ensures forall i :: 0 <= i < |phs| && phs[i].load ==> exists s :: s in Segments(phs, file) && IsWindow(phs[i], file, s)
    ensures forall s :: s in Segments(phs, file) ==> exists i :: 0 <= i < |phs| && phs[i].load && IsWindow(phs[i], file, s)
  {
    hide CopyOf, IsWindow, SortBy;
    PlansFit(phs, |file|);
    var copies := Copies(PlansOf(phs, |file|), file);
    CopiesAreWindows(phs, file);
    SortBySorts(copies, ByVaddr());
    LengthOfSort(copies, ByVaddr());
    forall i | 0 <= i < |phs| && phs[i].load
      ensures CopyOf(PlanOf(phs[i], |file|), file) in copies && IsWindow(phs[i], file, CopyOf(PlanOf(phs[i], |file|), file))
    {
      CopyIsWindow(phs[i], file);
    }
  }

  lemma HolderAnswers(segs: seq<Segment>, s: Segment, vaddr: U64, n: nat, r: Option<seq<bv8>>)
    requires PairwiseApart(segs) && s in segs && n >= 1 && Holds(s, vaddr, n)
    requires IsCodeAt(segs, vaddr, n, r)
    ensures r == Some(SliceOf(s, vaddr, n))
  {
    hide PairwiseApart, SliceOf;
    var x :| 0 <= x < |segs| && segs[x] == s;
    var y :| 0 <= y < |segs| && Holds(segs[y], vaddr, n) && r == Some(SliceOf(segs[y], vaddr, n));
    OneHolder(segs, x, y, vaddr, n);
  }

  lemma WindowHolds(ph: Phdr, file: seq<bv8>, s: Segment, k: nat, n: nat)
    requires IsWindow(ph, file, s) && n >= 1 && k + n <= ph.memsz && ph.vaddr + k <= U64_MAX
    ensures k + n <= |s.bytes| && Holds(s, ph.vaddr + k, n)
  {
    assert InWindow(ph, |file|, k + n - 1);
  }

  lemma LoadedApart(phs: seq<Phdr>, file: seq<bv8>)
    requires |file| <= U64_MAX && PlanError(phs, |file|).None? && Clear(Segments(phs, file)) && FilesWithinMemory(phs)
    ensures PairwiseApart(Segments(phs, file))
  {
    hide *;
    LoadedSegments(phs, file);
  }

  lemma WindowOf(phs: seq<Phdr>, file: seq<bv8>, i: nat) returns (s: Segment)
    requires |file| <= U64_MAX && i < |phs| && phs[i].load
    ensures s in Segments(phs, file) && IsWindow(phs[i], file, s)
  {
    hide Segments, IsWindow;
    SegmentsAreWindows(phs, file);
    s :| s in Segments(phs, file) && IsWindow(phs[i], file, s);
  }

  // In a well-formed file that loads, the code at an address is the image's bytes there.
  lemma CodeIsTheFiles(phs: seq<Phdr>, file: seq<bv8>, i: nat, k: nat, n: nat, r: Option<seq<bv8>>)
    requires |file| <= U64_MAX && PlanError(phs, |file|).None? && Clear(Segments(phs, file))
    requires FilesWithinMemory(phs) && i < |phs| && phs[i].load
    requires n >= 1 && k + n <= phs[i].memsz && phs[i].vaddr + k <= U64_MAX
    requires IsCodeAt(Segments(phs, file), phs[i].vaddr + k, n, r)
    ensures r == Some(seq(n, m requires 0 <= m < n => ImageByte(phs[i], file, k + m)))
  {
    hide *;
    LoadedApart(phs, file);
    var s := WindowOf(phs, file, i);
    WindowHolds(phs[i], file, s, k, n);
    HolderAnswers(Segments(phs, file), s, phs[i].vaddr + k, n, r);
    SliceOfWindow(phs[i], file, s, k, n);
  }

  lemma SliceOfWindow(ph: Phdr, file: seq<bv8>, s: Segment, k: nat, n: nat)
    requires IsWindow(ph, file, s) && k + n <= |s.bytes| && ph.vaddr + k <= U64_MAX
    ensures SliceOf(s, ph.vaddr + k, n) == seq(n, m requires 0 <= m < n => ImageByte(ph, file, k + m))
  {
    hide ImageByte;
  }

  // ---------- what a refused file has done ----------

  // Header i breaks this limit, and nothing before it breaks any.
  ghost predicate Breaks(phs: seq<Phdr>, fileLen: U64, i: nat, e: LoadError)
    requires i < |phs|
  {
    && phs[i].load && Sound(phs[..i], fileLen)
    && match e
       case SegTooBig => phs[i].memsz > 0x4000_0000
       case VaddrOverflow => phs[i].memsz <= 0x4000_0000 && phs[i].vaddr + phs[i].memsz > U64_MAX
       case TotalTooBig =>
         phs[i].memsz <= 0x4000_0000 && phs[i].vaddr + phs[i].memsz <= U64_MAX && TotalOf(phs[..i + 1], fileLen) > 0x8000_0000
       case TooManySegs =>
         phs[i].memsz <= 0x4000_0000 && phs[i].vaddr + phs[i].memsz <= U64_MAX && TotalOf(phs[..i + 1], fileLen) <= 0x8000_0000
         && |PlansOf(phs[..i + 1], fileLen)| > 256
       case _ => false
  }

  lemma {:induction false} RefusalNamesHeader(phs: seq<Phdr>, fileLen: U64)
    requires PlanError(phs, fileLen).Some?
    ensures exists i :: 0 <= i < |phs| && Breaks(phs, fileLen, i, PlanError(phs, fileLen).value)
  {
    hide PlansOf, TotalOf, Sound;
    var n := |phs| - 1;
    var e := PlanError(phs, fileLen).value;
    if PlanError(phs[..n], fileLen).Some? {
      RefusalNamesHeader(phs[..n], fileLen);
      var i :| 0 <= i < n && Breaks(phs[..n], fileLen, i, e);
      assert phs[..n][..i] == phs[..i] && phs[..n][..i + 1] == phs[..i + 1];
      assert Breaks(phs, fileLen, i, e);
    } else {
      PlansSucceedIffSound(phs[..n], fileLen);
      LastBreaks(phs, fileLen);
    }
  }

  lemma LastBreaks(phs: seq<Phdr>, fileLen: U64)
    requires phs != [] && Sound(phs[..|phs| - 1], fileLen) && PlanError(phs[..|phs| - 1], fileLen).None?
    requires PlanError(phs, fileLen).Some?
    ensures Breaks(phs, fileLen, |phs| - 1, PlanError(phs, fileLen).value)
  {
    hide Sound;
    assert phs[..|phs|] == phs;
    assert phs[..|phs|][..|phs| - 1] == phs[..|phs| - 1];
  }
}
