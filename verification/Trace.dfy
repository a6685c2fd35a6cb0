/**
  crates/fnprint-trace: effects, the bytes that are hashed for each of them, and
  the hasher that turns those bytes into a token.
 */
module Trace {
  import F = Fnv
  import opened Machine
  import opened Wrappers

  // A symbol name, as the UTF-8 bytes that are hashed.
  type Name = seq<bv8>

  datatype Region = Arg(k: U16) | Stack | Global | Heapish

  datatype ValueClass =
    | Input(k: U16)
    | InputDeriv(k: U16)
    | Zero
    | SmallConst(v: I64)
    | BigConst
    | Unknown

  datatype CallTarget = Sym(name: Name) | Anon

  datatype Effect =
    | Write(region: Region, off: I32, val: ValueClass)
    | Read(region: Region, off: I32)
    | NewRegion(region: Region)
    | Call(target: CallTarget)
    | Syscall(n: U32)
    | Branch
    | Ret(rv: ValueClass)
    | Capped

  // What one run of a function left behind.
  datatype EffectTrace = EffectTrace(
    effects: seq<Effect>,
    instret: nat,
    capped: bool,
    coverage: real,
    callees: seq<nat>)

  // ---------- the encoding ----------

  function LeBytes(n: nat, count: nat): (r: seq<bv8>)
    ensures |r| == count
  {
    if count == 0 then [] else [(n % 256) as bv8] + LeBytes(n / 256, count - 1)
  }

  function FromLe(bytes: seq<bv8>): nat {
    if bytes == [] then 0 else (bytes[0] as int) + 256 * FromLe(bytes[1..])
  }

  function Pow256(count: nat): nat {
    if count == 0 then 1 else 256 * Pow256(count - 1)
  }

  lemma ByteRoundTrip(n: nat)
    requires n < 256
    ensures (n as bv8) as int == n
  {
    assert n % 256 == n;
  }

  lemma {:induction false} LeRoundTrip(n: nat, count: nat)
    requires n < Pow256(count)
    ensures FromLe(LeBytes(n, count)) == n
  {
    if count > 0 {
      ByteRoundTrip(n % 256);
      LeRoundTrip(n / 256, count - 1);
      assert LeBytes(n, count)[1..] == LeBytes(n / 256, count - 1);
    }
  }

  function U64Bytes(n: U64): (r: seq<bv8>)
    ensures |r| == 8
  {
    LeBytes(n, 8)
  }

  lemma Pow256Of8()
    ensures Pow256(8) == 0x1_0000_0000_0000_0000
  {
    assert Pow256(2) == 0x1_0000;
    assert Pow256(4) == 0x1_0000_0000;
    assert Pow256(6) == 0x1_0000_0000_0000;
  }

  lemma U64RoundTrip(n: U64)
    ensures FromLe(U64Bytes(n)) == n
  {
    Pow256Of8();
    LeRoundTrip(n, 8);
  }

  // `v as i64 as u64`
  function TwosComplement(v: I64): U64 {
    if v >= 0 then v else v + 0x1_0000_0000_0000_0000
  }

  function Signed(n: U64): I64 {
    if n < 0x8000_0000_0000_0000 then n else n - 0x1_0000_0000_0000_0000
  }

  function RegionBytes(r: Region): seq<bv8> {
    match r
    case Arg(k) => [10] + U64Bytes(k)
    case Stack => [11]
    case Global => [13]
    case Heapish => [12]
  }

  function ValueBytes(v: ValueClass): seq<bv8> {
    match v
    case Input(k) => [20] + U64Bytes(k)
    case InputDeriv(k) => [21] + U64Bytes(k)
    case Zero => [22]
    case SmallConst(c) => [23] + U64Bytes(TwosComplement(c))
    case BigConst => [24]
    case Unknown => [25]
  }

  function Bytes(e: Effect): seq<bv8> {
    match e
    case Write(r, off, v) => [1] + RegionBytes(r) + U64Bytes(TwosComplement(off)) + ValueBytes(v)
    case Read(r, off) => [8] + RegionBytes(r) + U64Bytes(TwosComplement(off))
    case NewRegion(r) => [2] + RegionBytes(r)
    case Call(Sym(s)) => [3, 1] + s
    case Call(Anon) => [3, 2]
    case Syscall(n) => [4] + U64Bytes(n)
    case Branch => [5]
    case Ret(v) => [6] + ValueBytes(v)
    case Capped => [7]
  }

  function Token(e: Effect): bv64 {
    F.Fold(F.OFFSET, Bytes(e))
  }

  // ---------- reading the bytes back ----------

  function TakeU64(s: seq<bv8>): Option<(nat, seq<bv8>)> {
    if |s| < 8 then None else Some((FromLe(s[..8]), s[8..]))
  }

  function TakeRegion(s: seq<bv8>): Option<(Region, seq<bv8>)> {
    if s == [] then None
    else if s[0] == 10 then
      match TakeU64(s[1..])
      case Some((k, rest)) => if k < 0x1_0000 then Some((Arg(k), rest)) else None
      case None => None
    else if s[0] == 11 then Some((Stack, s[1..]))
    else if s[0] == 13 then Some((Global, s[1..]))
    else if s[0] == 12 then Some((Heapish, s[1..]))
    else None
  }

  function TakeOff(s: seq<bv8>): Option<(I32, seq<bv8>)> {
    match TakeU64(s)
    case None => None
    case Some((n, rest)) =>
      if n >= 0x1_0000_0000_0000_0000 then None
      else if -0x8000_0000 <= Signed(n) < 0x8000_0000 then Some((Signed(n), rest))
      else None
  }

  function TakeValue(s: seq<bv8>): Option<ValueClass> {
    if s == [] then None
    else if s[0] == 22 then Some(Zero)
    else if s[0] == 24 then Some(BigConst)
    else if s[0] == 25 then Some(Unknown)
    else
      match TakeU64(s[1..])
      case None => None
      case Some((n, _)) =>
        if s[0] == 20 && n < 0x1_0000 then Some(Input(n))
        else if s[0] == 21 && n < 0x1_0000 then Some(InputDeriv(n))
        else if s[0] == 23 && n < 0x1_0000_0000_0000_0000 then Some(SmallConst(Signed(n)))
        else None
  }

  function Parse(s: seq<bv8>): Option<Effect> {
    if s == [] then None
    else if s[0] == 1 || s[0] == 8 then
      match TakeRegion(s[1..])
      case None => None
      case Some((r, t)) =>
        match TakeOff(t) {
          case None => None
          case Some((off, u)) =>
            if s[0] == 8 then Some(Read(r, off))
            else
              match TakeValue(u)
              case Some(v) => Some(Write(r, off, v))
              case None => None
        }
    else if s[0] == 2 then
      match TakeRegion(s[1..])
      case Some((r, _)) => Some(NewRegion(r))
      case None => None
    else if s[0] == 3 then
      if |s| < 2 then None
      else if s[1] == 1 then Some(Call(Sym(s[2..])))
      else Some(Call(Anon))
    else if s[0] == 4 then
      match TakeU64(s[1..])
      case Some((n, _)) => if n < 0x1_0000_0000 then Some(Syscall(n)) else None
      case None => None
    else if s[0] == 5 then Some(Branch)
    else if s[0] == 6 then
      match TakeValue(s[1..])
      case Some(v) => Some(Ret(v))
      case None => None
    else Some(Capped)
  }

  lemma TakeU64Reads(n: U64, rest: seq<bv8>)
    ensures TakeU64(U64Bytes(n) + rest) == Some((n, rest))
  {
    U64RoundTrip(n);
    assert (U64Bytes(n) + rest)[..8] == U64Bytes(n);
    assert (U64Bytes(n) + rest)[8..] == rest;
  }

  lemma TakeRegionReads(r: Region, rest: seq<bv8>)
    ensures TakeRegion(RegionBytes(r) + rest) == Some((r, rest))
  {
    hide U64Bytes, FromLe;
    var s := RegionBytes(r) + rest;
    if r.Arg? {
      TakeU64Reads(r.k, rest);
      assert s[1..] == U64Bytes(r.k) + rest;
    } else {
      assert s[1..] == rest;
    }
  }

  lemma TakeOffReads(off: I32, rest: seq<bv8>)
    ensures TakeOff(U64Bytes(TwosComplement(off)) + rest) == Some((off, rest))
  {
    TakeU64Reads(TwosComplement(off), rest);
  }

  lemma TakeValueReads(v: ValueClass)
    ensures TakeValue(ValueBytes(v)) == Some(v)
  {
    hide U64Bytes, FromLe;
    var s := ValueBytes(v);
    var n := match v
      case Input(k) => k
      case InputDeriv(k) => k
      case SmallConst(c) => TwosComplement(c)
      case _ => 0;
    if |s| > 1 {
      TakeU64Reads(n, []);
      assert s[1..] == U64Bytes(n) + [];
    }
  }

  // The hashed bytes determine the effect: the encoding can be read back.
  lemma BytesRoundTrip(e: Effect)
    ensures Parse(Bytes(e)) == Some(e)
  {
    hide U64Bytes, RegionBytes, ValueBytes, TakeRegion, TakeOff, TakeValue, TakeU64;
    var s := Bytes(e);
    match e
    case Write(r, off, v) =>
      var o := U64Bytes(TwosComplement(off));
      assert s[1..] == RegionBytes(r) + (o + ValueBytes(v));
      TakeRegionReads(r, o + ValueBytes(v));
      TakeOffReads(off, ValueBytes(v));
      TakeValueReads(v);
    case Read(r, off) =>
      var o := U64Bytes(TwosComplement(off));
      assert s[1..] == RegionBytes(r) + o && o == o + [];
      TakeRegionReads(r, o);
      TakeOffReads(off, []);
    case NewRegion(r) =>
      assert s[1..] == RegionBytes(r) + [];
      TakeRegionReads(r, []);
    case Call(t) =>
      if t.Sym? { assert s[2..] == t.name; }
    case Syscall(n) =>
      assert s[1..] == U64Bytes(n) + [];
      TakeU64Reads(n, []);
    case Ret(v) =>
      assert s[1..] == ValueBytes(v);
      TakeValueReads(v);
    case _ =>
  }

  // Different effects whose encodings line up and differ in one byte get different tokens.
  lemma TokensKeepOneByteApart(e: Effect, f: Effect, k: nat)
    requires |Bytes(e)| == |Bytes(f)| && k < |Bytes(e)|
    requires e != f
    requires forall i :: 0 <= i < |Bytes(e)| && i != k ==> Bytes(e)[i] == Bytes(f)[i]
    ensures Token(e) != Token(f)
  {
    if Bytes(e)[k] == Bytes(f)[k] {
      assert Bytes(e) == Bytes(f);
      BytesRoundTrip(e);
      BytesRoundTrip(f);
    } else {
      F.OneByteNeverCollides(F.OFFSET, Bytes(e), Bytes(f), k);
    }
  }

  // ---------- the hasher ----------

  class Hasher {
    var h: bv64
    // everything hashed so far
    ghost var fed: seq<bv8>

    ghost predicate Valid()
      reads this
    {
      h == F.Fold(F.OFFSET, fed)
    }

    constructor ()
      ensures Valid() && fed == []
    {
      h := F.OFFSET;
      fed := [];
    }

    method Byte(b: bv8)
      requires Valid()
      modifies this
      ensures Valid() && fed == old(fed) + [b]
    {
      F.FoldOne(h, b);
      F.FoldAppend(F.OFFSET, fed, [b]);
      h := F.Step(h, b);
      fed := fed + [b];
    }

    method Feed(bytes: seq<bv8>)
      requires Valid()
      modifies this
      ensures Valid() && fed == old(fed) + bytes
    {
      for i := 0 to |bytes|
        invariant Valid() && fed == old(fed) + bytes[..i]
      {
        assert bytes[..i + 1] == bytes[..i] + [bytes[i]];
        Byte(bytes[i]);
      }
      assert bytes[..|bytes|] == bytes;
    }

    method U64(v: U64)
      requires Valid()
      modifies this
      ensures Valid() && fed == old(fed) + U64Bytes(v)
    {
      Feed(U64Bytes(v));
    }

    method HashRegion(r: Region)
      requires Valid()
      modifies this
      ensures Valid() && fed == old(fed) + RegionBytes(r)
    {
      hide F.Fold, U64Bytes;
      match r
      case Arg(k) =>
        Byte(10);
        U64(k);
      case Stack => Byte(11);
      case Global => Byte(13);
      case Heapish => Byte(12);
    }

    method HashValue(v: ValueClass)
      requires Valid()
      modifies this
      ensures Valid() && fed == old(fed) + ValueBytes(v)
    {
      hide F.Fold, U64Bytes;
      match v
      case Input(k) =>
        Byte(20);
        U64(k);
      case InputDeriv(k) =>
        Byte(21);
        U64(k);
      case Zero => Byte(22);
      case SmallConst(c) =>
        Byte(23);
        U64(TwosComplement(c));
      case BigConst => Byte(24);
      case Unknown => Byte(25);
    }
  }

  method ComputeToken(e: Effect) returns (t: bv64)
    ensures t == Token(e)
  {
    hide F.Fold, U64Bytes, RegionBytes, ValueBytes, TwosComplement;
    var g := new Hasher();
    match e {
      case Write(r, off, v) =>
        g.Byte(1);
        g.HashRegion(r);
        g.U64(TwosComplement(off));
        g.HashValue(v);
        assert g.fed == [1] + RegionBytes(r) + U64Bytes(TwosComplement(off)) + ValueBytes(v);
      case Read(r, off) =>
        g.Byte(8);
        g.HashRegion(r);
        g.U64(TwosComplement(off));
        assert g.fed == [8] + RegionBytes(r) + U64Bytes(TwosComplement(off));
      case NewRegion(r) =>
        g.Byte(2);
        g.HashRegion(r);
      case Call(target) =>
        g.Byte(3);
        match target {
          case Sym(s) =>
            g.Byte(1);
            g.Feed(s);
          case Anon =>
            g.Byte(2);
        }
      case Syscall(n) =>
        g.Byte(4);
        g.U64(n);
      case Branch => g.Byte(5);
      case Ret(v) =>
        g.Byte(6);
        g.HashValue(v);
      case Capped => g.Byte(7);
    }
    assert g.fed == Bytes(e);
    t := g.h;
  }

  // ---------- complexity ----------

  function Weight(e: Effect): nat {
    match e
    case Call(_) => 3
    case Syscall(_) => 3
    case Write(_, _, _) => 2
    case NewRegion(_) => 2
    case Read(_, _) => 1
    case Ret(Input(_)) => 1
    case Ret(InputDeriv(_)) => 1
    case _ => 0
  }

  function Complexity(effects: seq<Effect>): nat {
    if effects == [] then 0 else Complexity(effects[..|effects| - 1]) + Weight(effects[|effects| - 1])
  }

  function Tokens(effects: seq<Effect>): (r: seq<bv64>)
    ensures |r| == |effects|
  {
    seq(|effects|, i requires 0 <= i < |effects| => Token(effects[i]))
  }
}
