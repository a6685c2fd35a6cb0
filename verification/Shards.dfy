/**
  Splitting one index over worker processes and merging it back (index_bytes_shard in
  fnprint-core; parse_shard, clamp_shards_for_input, run_workers_sharded in the CLI):
  the corpus is the same for every number of shards.
 */
module Shards {
  import opened Wrappers
  import opened Sorting
  import opened Machine
  import opened Trace
  import opened Sig
  import opened Prints
  import opened Indexed
  import Loader

  const MAX_AGGREGATE_INPUT: nat := 0x8000_0000

  // ---------- the shard spec ----------

  function DigitChar(d: nat): char
    requires d < 10
  {
    "0123456789"[d]
  }

  function Show(n: nat): string {
    (if n < 10 then "" else Show(n / 10)) + [DigitChar(n % 10)]
  }

  function DigitOf(c: char): Option<nat> {
    if '0' <= c <= '9' then Some(c as int - '0' as int) else None
  }

  function ParseDigits(s: string): Option<nat> {
    if s == [] then Some(0)
    else
      match (ParseDigits(s[..|s| - 1]), DigitOf(s[|s| - 1]))
      case (Some(v), Some(d)) => if v * 10 + d <= U64_MAX then Some(v * 10 + d) else None
      case _ => None
  }

  // `str::parse::<usize>`: an optional plus, digits, no overflow.
  function ParseUsize(s: string): Option<nat> {
    var t := if s != [] && s[0] == '+' then s[1..] else s;
    if t == [] then None else ParseDigits(t)
  }

  function Split(s: string, sep: char): (parts: seq<string>)
    ensures |parts| >= 1
  {
    if s == [] then [""]
    else
      var rest := Split(s[1..], sep);
      if s[0] == sep then [""] + rest else [[s[0]] + rest[0]] + rest[1..]
  }

  // "idx/count", or the whole binary when absent or malformed.
  function ParseShard(spec: Option<string>): (nat, nat) {
    match spec
    case None => (0, 1)
    case Some(s) =>
      var parts := Split(s, '/');
      var idx := ParseUsize(parts[0]);
      var cnt := if |parts| > 1 then ParseUsize(parts[1]) else None;
      match (idx, cnt)
      case (Some(i), Some(c)) => if c >= 1 && i < c then (i, c) else (0, 1)
      case _ => (0, 1)
  }

  predicate NoSlash(s: string) { forall i :: 0 <= i < |s| ==> s[i] != '/' }

  lemma {:induction false} SplitPlain(s: string)
    requires NoSlash(s)
    ensures Split(s, '/') == [s]
  {
    if s != [] {
      SplitPlain(s[1..]);
      assert s == [s[0]] + s[1..];
    }
  }

  lemma {:induction false} SplitAtSlash(s: string, t: string)
    requires NoSlash(s) && NoSlash(t)
    ensures Split(s + "/" + t, '/') == [s, t]
  {
    var u := s + "/" + t;
    if s == [] {
      assert u[1..] == t;
      SplitPlain(t);
    } else {
      SplitAtSlash(s[1..], t);
      assert u[1..] == s[1..] + "/" + t;
      assert s == [s[0]] + s[1..];
    }
  }

  lemma DigitRoundTrip(d: nat)
    requires d < 10
    ensures DigitOf(DigitChar(d)) == Some(d)
    ensures DigitChar(d) != '/' && DigitChar(d) != '+'
  {
  }

  lemma {:induction false} ShowParses(n: nat)
    requires n <= U64_MAX
    ensures ParseDigits(Show(n)) == Some(n)
    ensures NoSlash(Show(n)) && Show(n) != [] && Show(n)[0] != '+'
  {
    DigitRoundTrip(n % 10);
    var head := if n < 10 then "" else Show(n / 10);
    if n >= 10 { ShowParses(n / 10); }
    var s := Show(n);
    assert s[..|s| - 1] == head && s[|s| - 1] == DigitChar(n % 10);
    assert ParseDigits(head) == Some(n / 10);
  }

  // A worker reads back the spec the parent printed.
  lemma ShardSpecRoundTrip(i: nat, n: nat)
    requires i < n <= U64_MAX
    ensures ParseShard(Some(Show(i) + "/" + Show(n))) == (i, n)
  {
    hide Show, ParseDigits, Split;
    ShowParses(i);
    ShowParses(n);
    SplitAtSlash(Show(i), Show(n));
  }

  // Whatever the spec, the worker gets a shard that exists.
  lemma ShardSpecIsValid(spec: Option<string>)
    ensures ParseShard(spec).0 < ParseShard(spec).1
  {
    hide Split, ParseUsize;
  }

  // ---------- how many shards ----------

  function Clamp(requested: nat, inputLen: nat): nat {
    if inputLen == 0 then requested
    else
      var byMem := if MAX_AGGREGATE_INPUT / inputLen > 1 then MAX_AGGREGATE_INPUT / inputLen else 1;
      if requested < byMem then requested else byMem
  }

  lemma DivisionBound(k: nat, len: nat)
    requires len > 0
    ensures k * len <= MAX_AGGREGATE_INPUT <==> k <= MAX_AGGREGATE_INPUT / len
  {
    var q := MAX_AGGREGATE_INPUT / len;
    assert q * len <= MAX_AGGREGATE_INPUT < (q + 1) * len;
    if k <= q { ProductGrows(k, q, len); } else { ProductGrows(q + 1, k, len); }
  }

  lemma ProductGrows(j: nat, k: nat, len: nat)
    requires j <= k
    ensures j * len <= k * len
  {
  }

  // The clamp grants the most shards that were asked for and fit the memory budget, and never
  // less than one.
  lemma ClampIsLargest(requested: nat, inputLen: nat, k: nat)
    requires requested >= 1
    ensures 1 <= Clamp(requested, inputLen) <= requested
    ensures Clamp(requested, inputLen) == 1 || Clamp(requested, inputLen) * inputLen <= 0x8000_0000
    ensures k <= requested && k * inputLen <= 0x8000_0000 ==> k <= Clamp(requested, inputLen)
  {
    if inputLen > 0 {
      DivisionBound(k, inputLen);
      DivisionBound(Clamp(requested, inputLen), inputLen);
    }
  }

  // ---------- one shard ----------

  // The work for one function is a function of that function: `index` fingerprints it, `keep`
  // tells whether it has code.
  datatype Job = Job(funcs: seq<Loader.Func>, keep: Loader.Func -> bool, index: Loader.Func -> IndexedFunc)

  // The shard of a position in the loader's list.
  function Owner(position: nat, n: nat): (i: nat)
    requires n > 0
    ensures i < n
  {
    position % n
  }

  // The functions at positions i, i + n, ... of the first k, indexed.
  function Shard(job: Job, k: nat, i: nat, n: nat): seq<IndexedFunc>
    requires k <= |job.funcs| && n > 0
  {
    if k == 0 then []
    else
      var f := job.funcs[k - 1];
      Shard(job, k - 1, i, n) + if Owner(k - 1, n) == i && job.keep(f) then [job.index(f)] else []
  }

  // `index_bytes_shard` with its clamps.
  function IndexShard(job: Job, idx: nat, count: nat): seq<IndexedFunc> {
    var n := if count > 1 then count else 1;
    var i := if idx < n - 1 then idx else n - 1;
    Shard(job, |job.funcs|, i, n)
  }

  function Whole(job: Job): seq<IndexedFunc> { IndexShard(job, 0, 1) }

  // ---------- the merge ----------

  datatype Reply =
    | IndexOk(funcs: seq<IndexedFunc>)
    | WorkerErr(msg: string)
    | WrongKind
    | Lost(msg: string)
    | Panicked

  function SourceStr(s: Loader.FuncSource): string {
    match s
    case Symtab => "symtab"
    case DynSym => "dynsym"
    case EhFrame => "eh_frame"
  }

  // None before Some.
  predicate NameLess(x: Option<string>, y: Option<string>) {
    y.Some? && (x.None? || StrLess(x.value, y.value))
  }

  predicate CanonLess(x: IndexedFunc, y: IndexedFunc) {
    || x.entry < y.entry
    || (x.entry == y.entry
        && (NameLess(x.name, y.name)
            || (x.name == y.name && StrLess(SourceStr(x.source), SourceStr(y.source)))))
  }

  // Entry, then name, then source.
  function ByCanon(): (IndexedFunc, IndexedFunc) -> bool {
    (x: IndexedFunc, y: IndexedFunc) => !CanonLess(y, x)
  }

  function Sanitized(c: Coverage): Coverage {
    match c
    case Finite(v) => if v < 0.0 then Finite(0.0) else if v > 1.0 then Finite(1.0) else c
    case NotFinite => Finite(1.0)
  }

  function SanitizeAll(fs: seq<IndexedFunc>): (r: seq<IndexedFunc>)
    ensures |r| == |fs|
  {
    seq(|fs|, i requires 0 <= i < |fs| => fs[i].(coverage := Sanitized(fs[i].coverage)))
  }

  predicate ValidPrints(fs: seq<IndexedFunc>) {
    forall i :: 0 <= i < |fs| ==> |fs[i].fp.sig| == SIG_LEN
  }

  predicate GoodReply(r: Reply) { r.IndexOk? && ValidPrints(r.funcs) }

  datatype MergeError = BadSignature | FromWorker(msg: string) | Wrong | SpawnFailed(msg: string) | ThreadPanicked

  function ErrorOf(r: Reply): MergeError
    requires !GoodReply(r)
  {
    match r
    case IndexOk(_) => BadSignature
    case WorkerErr(m) => FromWorker(m)
    case WrongKind => Wrong
    case Lost(m) => SpawnFailed(m)
    case Panicked => ThreadPanicked
  }

  // All functions of the good replies, in shard order.
  function Gathered(replies: seq<Reply>): seq<IndexedFunc> {
    if replies == [] then []
    else
      Gathered(replies[..|replies| - 1]) +
      if GoodReply(replies[|replies| - 1]) then SanitizeAll(replies[|replies| - 1].funcs) else []
  }

  // Any failed shard fails the whole index with the first failure; no partial corpus.
  method Merge(replies: seq<Reply>) returns (r: Result<seq<IndexedFunc>, MergeError>)
    ensures r.Ok? <==> forall i :: 0 <= i < |replies| ==> GoodReply(replies[i])
    ensures r.Ok? ==> r.value == SortBy(Gathered(replies), ByCanon())
    ensures r.Err? ==> exists i :: 0 <= i < |replies| && !GoodReply(replies[i]) && r.error == ErrorOf(replies[i])
                                   && forall k :: 0 <= k < i ==> GoodReply(replies[k])
  {
    hide ValidPrints;
    var all: seq<IndexedFunc> := [];
    var firstErr: Option<MergeError> := None;
    for i := 0 to |replies|
      invariant all == Gathered(replies[..i])
      invariant firstErr.None? <==> forall k :: 0 <= k < i ==> GoodReply(replies[k])
      invariant firstErr.Some? ==> exists j :: 0 <= j < i && !GoodReply(replies[j]) && firstErr.value == ErrorOf(replies[j])
                                               && forall k :: 0 <= k < j ==> GoodReply(replies[k])
    {
      var reply := replies[i];
      assert replies[..i + 1][..i] == replies[..i];
      if GoodReply(reply) {
        all := all + SanitizeAll(reply.funcs);
      } else if firstErr.None? {
        firstErr := Some(ErrorOf(reply));
      }
    }
    assert replies[..|replies|] == replies;
    if firstErr.Some? {
      return Err(firstErr.value);
    }
    return Ok(SortBy(all, ByCanon()));
  }

  // Whatever the workers reply, what is merged has full signatures and coverages in [0, 1]; a
  // coverage that was neither above 1, below 0 nor not a number is the worker's own.
  lemma MergedIsClean(replies: seq<Reply>)
    ensures forall g :: g in SortBy(Gathered(replies), ByCanon()) ==>
              |g.fp.sig| == 128 && g.coverage.Finite? && 0.0 <= g.coverage.value <= 1.0
    ensures forall g :: g in SortBy(Gathered(replies), ByCanon()) <==> exists i :: 0 <= i < |replies| && Delivered(replies[i], g)
  {
    hide Delivered, ByCanon;
    SortBySorts(Gathered(replies), ByCanon());
    GatheredIs(replies);
    forall i, g | 0 <= i < |replies| && Delivered(replies[i], g)
      ensures |g.fp.sig| == 128 && g.coverage.Finite? && 0.0 <= g.coverage.value <= 1.0
    {
      DeliveredIsClean(replies[i], g);
    }
  }

  // The reply is good, and g is one of its functions, its coverage made a number in [0, 1].
  ghost predicate Delivered(r: Reply, g: IndexedFunc) {
    && r.IndexOk? && (forall f :: f in r.funcs ==> |f.fp.sig| == 128)
    && exists f :: f in r.funcs && g == f.(coverage := g.coverage) && Clean(f.coverage, g.coverage)
  }

  predicate Clean(c: Coverage, d: Coverage) {
    && d.Finite? && 0.0 <= d.value <= 1.0
    && (c.NotFinite? ==> d.value == 1.0)
    && (c.Finite? && c.value <= 0.0 ==> d.value == 0.0)
    && (c.Finite? && c.value >= 1.0 ==> d.value == 1.0)
    && (c.Finite? && 0.0 <= c.value <= 1.0 ==> d == c)
  }

  lemma DeliveredIsClean(r: Reply, g: IndexedFunc)
    requires Delivered(r, g)
    ensures |g.fp.sig| == 128 && g.coverage.Finite? && 0.0 <= g.coverage.value <= 1.0
  {
  }

  lemma GoodReplyDelivers(r: Reply, g: IndexedFunc)
    ensures Delivered(r, g) <==> GoodReply(r) && g in SanitizeAll(r.funcs)
  {
    if GoodReply(r) && g in SanitizeAll(r.funcs) {
      var i :| 0 <= i < |r.funcs| && SanitizeAll(r.funcs)[i] == g;
      assert r.funcs[i] in r.funcs && Clean(r.funcs[i].coverage, g.coverage);
    }
    if Delivered(r, g) {
      assert forall i :: 0 <= i < |r.funcs| ==> r.funcs[i] in r.funcs;
      var f :| f in r.funcs && g == f.(coverage := g.coverage) && Clean(f.coverage, g.coverage);
      var i :| 0 <= i < |r.funcs| && r.funcs[i] == f;
      assert SanitizeAll(r.funcs)[i] == g;
    }
  }

  lemma {:induction false} GatheredIs(replies: seq<Reply>)
    ensures forall g :: g in Gathered(replies) <==> exists i :: 0 <= i < |replies| && Delivered(replies[i], g)
  {
    hide Delivered, ValidPrints, SanitizeAll;
    if replies != [] {
      var n := |replies| - 1;
      GatheredIs(replies[..n]);
      assert forall i :: 0 <= i < n ==> replies[..n][i] == replies[i];
      forall g ensures Delivered(replies[n], g) <==> GoodReply(replies[n]) && g in SanitizeAll(replies[n].funcs) {
        GoodReplyDelivers(replies[n], g);
      }
    }
  }

  // ---------- every shard count gives the same corpus ----------

  // A job over the loader's list whose prints are well formed.
  ghost predicate Proper(job: Job) {
    && Loader.EntriesAscend(job.funcs)
    && (forall f :: job.index(f).entry == f.entry)
    && (forall f :: |job.index(f).fp.sig| == SIG_LEN)
    && (forall f :: Sanitized(job.index(f).coverage) == job.index(f).coverage)
  }

  lemma CanonTotal(x: IndexedFunc, y: IndexedFunc)
    ensures !(CanonLess(x, y) && CanonLess(y, x))
    ensures !CanonLess(x, x)
  {
    StrOrder();
  }

  lemma CanonTransitive(x: IndexedFunc, y: IndexedFunc, z: IndexedFunc)
    requires !CanonLess(y, x) && !CanonLess(z, y)
    ensures !CanonLess(z, x)
  {
    StrLessTotal(SourceStr(x.source), SourceStr(y.source));
    StrLessTotal(SourceStr(y.source), SourceStr(z.source));
    StrLessTotal(SourceStr(x.source), SourceStr(z.source));
    StrOrder();
  }

  lemma ByCanonOrders()
    ensures TotalPreorder(ByCanon())
  {
    hide CanonLess;
    forall x, y ensures ByCanon()(x, y) || ByCanon()(y, x) { CanonTotal(x, y); }
    forall x, y, z | ByCanon()(x, y) && ByCanon()(y, z) ensures ByCanon()(x, z) { CanonTransitive(x, y, z); }
  }

  // The shards 0 .. j - 1 of the first k functions, one after the other.
  ghost function ShardsTo(job: Job, k: nat, j: nat, n: nat): seq<IndexedFunc>
    requires k <= |job.funcs| && n > 0
  {
    if j == 0 then [] else ShardsTo(job, k, j - 1, n) + Shard(job, k, j - 1, n)
  }

  ghost function KeptIf(job: Job, k: nat, mine: bool): multiset<IndexedFunc>
    requires 0 < k <= |job.funcs|
  {
    if mine && job.keep(job.funcs[k - 1]) then multiset{job.index(job.funcs[k - 1])} else multiset{}
  }

  lemma ShardStep(job: Job, k: nat, i: nat, n: nat)
    requires 0 < k <= |job.funcs| && n > 0
    ensures multiset(Shard(job, k, i, n)) == multiset(Shard(job, k - 1, i, n)) + KeptIf(job, k, Owner(k - 1, n) == i)
  {
    hide Owner;
  }

  lemma KeptIfSplits(job: Job, k: nat, j: nat, n: nat)
    requires 0 < k <= |job.funcs| && n > 0 && j > 0
    ensures KeptIf(job, k, Owner(k - 1, n) < j - 1) + KeptIf(job, k, Owner(k - 1, n) == j - 1) ==
            KeptIf(job, k, Owner(k - 1, n) < j)
  {
    hide Owner;
  }

  lemma NoneKept(job: Job, k: nat)
    requires 0 < k <= |job.funcs|
    ensures KeptIf(job, k, false) == multiset{}
  {
  }

  lemma OneMoreShard(job: Job, k: nat, j: nat, n: nat)
    requires k <= |job.funcs| && n > 0 && j > 0
    ensures multiset(ShardsTo(job, k, j, n)) == multiset(ShardsTo(job, k, j - 1, n)) + multiset(Shard(job, k, j - 1, n))
  {
    hide Shard;
  }

  lemma NoShards(job: Job, k: nat, n: nat)
    requires k <= |job.funcs| && n > 0
    ensures ShardsTo(job, k, 0, n) == []
  {
  }

  lemma Regroup<T>(A: multiset<T>, B: multiset<T>, C: multiset<T>, D: multiset<T>)
    ensures (A + B) + (C + D) == (A + C) + (B + D)
  {
  }

  // Each kept function goes to exactly the shard of its position.
  lemma {:induction false} OneMoreFunction(job: Job, k: nat, j: nat, n: nat)
    requires 0 < k <= |job.funcs| && n > 0 && j <= n
    ensures multiset(ShardsTo(job, k, j, n)) == multiset(ShardsTo(job, k - 1, j, n)) + KeptIf(job, k, Owner(k - 1, n) < j)
  {
    hide Owner, Shard, KeptIf, ShardsTo;
    if j > 0 {
      OneMoreFunction(job, k, j - 1, n);
      ShardStep(job, k, j - 1, n);
      KeptIfSplits(job, k, j, n);
      OneMoreShard(job, k, j, n);
      OneMoreShard(job, k - 1, j, n);
      Regroup(multiset(ShardsTo(job, k - 1, j - 1, n)), KeptIf(job, k, Owner(k - 1, n) < j - 1),
              multiset(Shard(job, k - 1, j - 1, n)), KeptIf(job, k, Owner(k - 1, n) == j - 1));
    } else {
      NoneKept(job, k);
      NoShards(job, k, n);
      NoShards(job, k - 1, n);
    }
  }

  // All shards together hold what the single process indexes.
  lemma {:induction false} ShardsHoldEverything(job: Job, k: nat, n: nat)
    requires k <= |job.funcs| && n > 0
    ensures multiset(ShardsTo(job, k, n, n)) == multiset(Shard(job, k, 0, 1))
  {
    hide Owner, Shard, ShardsTo, KeptIf;
    if k == 0 {
      NothingToShard(job, n, n);
    } else {
      ShardsHoldEverything(job, k - 1, n);
      OneMoreFunction(job, k, n, n);
      ShardStep(job, k, 0, 1);
      assert Owner(k - 1, n) < n && Owner(k - 1, 1) == 0;
      calc {
        multiset(ShardsTo(job, k, n, n));
        multiset(ShardsTo(job, k - 1, n, n)) + KeptIf(job, k, true);
        multiset(Shard(job, k - 1, 0, 1)) + KeptIf(job, k, true);
        multiset(Shard(job, k, 0, 1));
      }
    }
  }

  lemma {:induction false} NothingToShard(job: Job, j: nat, n: nat)
    requires n > 0
    ensures ShardsTo(job, 0, j, n) == [] == Shard(job, 0, 0, 1)
  {
    if j > 0 { NothingToShard(job, j - 1, n); }
  }

  ghost predicate FromJob(job: Job, k: nat, g: IndexedFunc)
    requires k <= |job.funcs|
  {
    exists m :: 0 <= m < k && g == job.index(job.funcs[m])
  }

  lemma {:induction false} ShardHolds(job: Job, k: nat, i: nat, n: nat)
    requires k <= |job.funcs| && n > 0 && Proper(job)
    ensures forall x, y :: 0 <= x < y < |Shard(job, k, i, n)| ==> Shard(job, k, i, n)[x].entry < Shard(job, k, i, n)[y].entry
    ensures forall x :: 0 <= x < |Shard(job, k, i, n)| ==> FromJob(job, k, Shard(job, k, i, n)[x])
  {
    hide Owner;
    if k > 0 {
      ShardHolds(job, k - 1, i, n);
      var r := Shard(job, k - 1, i, n);
      forall x | 0 <= x < |r| ensures r[x].entry < job.funcs[k - 1].entry && FromJob(job, k, r[x]) {
        assert FromJob(job, k - 1, r[x]);
        var m :| 0 <= m < k - 1 && r[x] == job.index(job.funcs[m]);
        assert job.funcs[m].entry < job.funcs[k - 1].entry;
      }
      assert FromJob(job, k, job.index(job.funcs[k - 1]));
    }
  }

  // A shard holds the kept functions at its positions, and no others.
  lemma {:induction false} ShardIs(job: Job, k: nat, i: nat, n: nat, g: IndexedFunc)
    requires k <= |job.funcs| && n > 0
    ensures g in Shard(job, k, i, n) <==>
            exists m :: 0 <= m < k && m % n == i && job.keep(job.funcs[m]) && g == job.index(job.funcs[m])
  {
    if k > 0 { ShardIs(job, k - 1, i, n, g); }
  }

  lemma WholeIs(job: Job, g: IndexedFunc)
    ensures g in Whole(job) <==> exists f :: f in job.funcs && job.keep(f) && g == job.index(f)
  {
    var k := |job.funcs|;
    ShardIs(job, k, 0, 1, g);
    if m :| 0 <= m < k && m % 1 == 0 && job.keep(job.funcs[m]) && g == job.index(job.funcs[m]) {
      assert job.funcs[m] in job.funcs;
    }
    if f :| f in job.funcs && job.keep(f) && g == job.index(f) {
      var m :| 0 <= m < k && job.funcs[m] == f;
      assert m % 1 == 0;
    }
  }

  lemma WholeIsCanonical(job: Job)
    requires Proper(job)
    ensures Sorted(Whole(job), ByCanon()) && Strict(Whole(job), ByCanon())
  {
    var w := Whole(job);
    ShardHolds(job, |job.funcs|, 0, 1);
    forall x, y | x in w && y in w && ByCanon()(x, y) && ByCanon()(y, x) ensures x == y {
      var i :| 0 <= i < |w| && w[i] == x;
      var j :| 0 <= j < |w| && w[j] == y;
      assert x.entry == y.entry;
    }
  }

  // What the workers of an n-shard run reply, each from the spec string it was handed.
  function Replies(job: Job, n: nat): (r: seq<Reply>)
    ensures |r| == n
  {
    seq(n, i requires 0 <= i < n =>
      var spec := ParseShard(Some(Show(i) + "/" + Show(n)));
      IndexOk(IndexShard(job, spec.0, spec.1)))
  }

  lemma RepliesAreGood(job: Job, n: nat, i: nat)
    requires Proper(job) && i < n <= U64_MAX
    ensures Replies(job, n)[i] == IndexOk(Shard(job, |job.funcs|, i, n))
    ensures GoodReply(Replies(job, n)[i])
    ensures SanitizeAll(Shard(job, |job.funcs|, i, n)) == Shard(job, |job.funcs|, i, n)
  {
    hide ParseShard, Show;
    ShardSpecRoundTrip(i, n);
    var s := Shard(job, |job.funcs|, i, n);
    ShardHolds(job, |job.funcs|, i, n);
    forall x | 0 <= x < |s| ensures |s[x].fp.sig| == SIG_LEN && Sanitized(s[x].coverage) == s[x].coverage {
      assert FromJob(job, |job.funcs|, s[x]);
    }
  }

  lemma {:induction false} GatheredShards(job: Job, n: nat, j: nat)
    requires Proper(job) && j <= n <= U64_MAX && n > 0
    ensures Gathered(Replies(job, n)[..j]) == ShardsTo(job, |job.funcs|, j, n)
  {
    hide Replies, Shard, GoodReply, SanitizeAll;
    if j > 0 {
      GatheredShards(job, n, j - 1);
      RepliesAreGood(job, n, j - 1);
      assert Replies(job, n)[..j][..j - 1] == Replies(job, n)[..j - 1];
    }
  }

  // However many workers share the work, merging their replies gives back the list one
  // process would have produced, element for element.
  lemma ShardCountNeverChangesTheCorpus(job: Job, n: nat)
    requires Proper(job) && 1 <= n <= U64_MAX
    ensures forall i :: 0 <= i < n ==> GoodReply(Replies(job, n)[i])
    ensures SortBy(Gathered(Replies(job, n)), ByCanon()) == Whole(job)
  {
    hide Proper, Replies, GoodReply, ByCanon, Gathered;
    forall i | 0 <= i < n ensures GoodReply(Replies(job, n)[i]) { RepliesAreGood(job, n, i); }
    GatheredShards(job, n, n);
    assert Replies(job, n)[..n] == Replies(job, n);
    ShardsHoldEverything(job, |job.funcs|, n);
    WholeIsCanonical(job);
    ByCanonOrders();
    SortByPermutation(Whole(job), Gathered(Replies(job, n)), ByCanon());
    SortBySortedIsIdentity(Whole(job), ByCanon());
  }

  // ---------- the corpus of a loaded image ----------

  // The best coverage any run reached.
  function BestCoverage(traces: seq<EffectTrace>): real {
    if traces == [] then 0.0
    else
      var c := BestCoverage(traces[..|traces| - 1]);
      if c < traces[|traces| - 1].coverage then traces[|traces| - 1].coverage else c
  }

  // Every target some run called.
  function CalledBy(traces: seq<EffectTrace>): seq<nat> {
    if traces == [] then [] else CalledBy(traces[..|traces| - 1]) + traces[|traces| - 1].callees
  }

  function Without(xs: seq<nat>, x: nat): seq<nat> {
    if xs == [] then []
    else Without(xs[..|xs| - 1], x) + if xs[|xs| - 1] == x then [] else [xs[|xs| - 1]]
  }

  // The call-graph edges of the function at `entry`: `swept` is what the static sweep and the
  // names of local functions add to what its runs called.
  function EdgesOf(entry: nat, swept: seq<nat>, traces: seq<EffectTrace>): seq<nat> {
    SortDedup(Without(swept + CalledBy(traces), entry), NatLe())
  }

  lemma {:induction false} WithoutHolds(xs: seq<nat>, x: nat)
    ensures forall y :: y in Without(xs, x) <==> y in xs && y != x
  {
    if xs != [] {
      var n := |xs| - 1;
      WithoutHolds(xs[..n], x);
      assert xs == xs[..n] + [xs[n]];
    }
  }

  lemma {:induction false} CalledByHolds(traces: seq<EffectTrace>)
    ensures forall y :: y in CalledBy(traces) <==> exists t :: t in traces && y in t.callees
  {
    if traces != [] {
      var n := |traces| - 1;
      CalledByHolds(traces[..n]);
      assert traces == traces[..n] + [traces[n]];
    }
  }

  // An edge list names, once each and ascending, whoever the sweep or a run saw called, except
  // the function itself.
  lemma EdgesHold(entry: nat, swept: seq<nat>, traces: seq<EffectTrace>)
    ensures Ascending(EdgesOf(entry, swept, traces))
    ensures forall y :: y in EdgesOf(entry, swept, traces) <==>
              y != entry && (y in swept || exists t :: t in traces && y in t.callees)
  {
    SortDedupNat(Without(swept + CalledBy(traces), entry));
    WithoutHolds(swept + CalledBy(traces), entry);
    CalledByHolds(traces);
  }

  // What indexing makes of one function, its sweep and its runs; the recorder clamps each run's
  // coverage.
  ghost predicate IndexedFrom(f: Loader.Func, swept: seq<nat>, traces: seq<EffectTrace>, g: IndexedFunc) {
    && g.name == f.name && g.entry == f.entry && g.source == f.source
    && IsPrint(traces, g.fp)
    && g.coverage == Finite(BestCoverage(traces))
    && g.callees == EdgesOf(f.entry, swept, traces)
    && forall t :: t in traces ==> 0.0 <= t.coverage <= 1.0
  }

  // The image, and what was observed of each function in it: its sweep and its runs.
  datatype Observed = Observed(
    segs: seq<Loader.Segment>, swept: Loader.Func -> seq<nat>, runs: Loader.Func -> seq<EffectTrace>)

  // The function has a body, and the image has code at its entry.
  ghost predicate HasCode(segs: seq<Loader.Segment>, f: Loader.Func) {
    f.size > 0 && exists i :: 0 <= i < |segs| && Loader.Occupies(segs[i], f.entry)
  }

  // The job over what the loader found in an image, with these observations of each function.
  ghost predicate LoadedJob(job: Job, found: seq<Loader.Func>, seen: Observed) {
    && job.funcs == Loader.FinalFuncs(found)
    && (forall f :: job.keep(f) <==> HasCode(seen.segs, f))
    && (forall f :: IndexedFrom(f, seen.swept(f), seen.runs(f), job.index(f)))
  }

  lemma {:induction false} BestCoverageIsMax(traces: seq<EffectTrace>)
    ensures forall t :: t in traces ==> t.coverage <= BestCoverage(traces)
    ensures BestCoverage(traces) == 0.0 || exists t :: t in traces && t.coverage == BestCoverage(traces)
  {
    if traces != [] {
      var n := |traces| - 1;
      BestCoverageIsMax(traces[..n]);
      assert traces == traces[..n] + [traces[n]];
    }
  }

  lemma {:induction false} BestCoverageIsClamped(traces: seq<EffectTrace>)
    requires forall t :: t in traces ==> 0.0 <= t.coverage <= 1.0
    ensures 0.0 <= BestCoverage(traces) <= 1.0
  {
    if traces != [] {
      assert traces[|traces| - 1] in traces;
      BestCoverageIsClamped(traces[..|traces| - 1]);
    }
  }

  lemma LoadedJobIsProper(job: Job, found: seq<Loader.Func>, seen: Observed)
    requires LoadedJob(job, found, seen)
    ensures Proper(job)
  {
    hide Loader.FinalFuncs, BestCoverage, EdgesOf;
    Loader.FinalFuncsHold(found);
    forall f
      ensures job.index(f).entry == f.entry && |job.index(f).fp.sig| == SIG_LEN
      ensures Sanitized(job.index(f).coverage) == job.index(f).coverage
    {
      assert IndexedFrom(f, seen.swept(f), seen.runs(f), job.index(f));
      BestCoverageIsClamped(seen.runs(f));
    }
  }

  // Whatever discovery found, in whatever order, and whatever the runs recorded: the corpus of
  // an image is the same for every number of shards, and holds each entry once, ascending.
  lemma LoadedCorpusIgnoresShardCount(job: Job, found: seq<Loader.Func>, seen: Observed, n: nat)
    requires LoadedJob(job, found, seen) && 1 <= n <= U64_MAX
    ensures forall i :: 0 <= i < n ==> GoodReply(Replies(job, n)[i])
    ensures SortBy(Gathered(Replies(job, n)), ByCanon()) == Whole(job)
    ensures forall i, j :: 0 <= i < j < |Whole(job)| ==> Whole(job)[i].entry < Whole(job)[j].entry
  {
    hide LoadedJob, Replies, Gathered, GoodReply, ByCanon;
    LoadedJobIsProper(job, found, seen);
    ShardCountNeverChangesTheCorpus(job, n);
    ShardHolds(job, |job.funcs|, 0, 1);
  }
}
