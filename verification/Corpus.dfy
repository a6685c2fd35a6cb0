/**
  crates/fnprint-db: the fingerprint store as an abstract table, its band index
  over any history of writes, and the in-memory corpus rebuilt from its rows.
 */
module Corpus {
  import opened Machine
  import opened Trace
  import opened Wrappers
  import opened Sorting
  import opened Sig
  import opened Bands
  import opened BandIndex

  const SIG_BYTES: nat := 1024
  const MAX_TEXT: nat := 0x10_0000
  const MAX_ROWS: nat := 2_000_000
  const MAX_TOTAL_BYTES: nat := 0x1000_0000
  const MAX_CALLEES: nat := 4096

  datatype FuncRec = FuncRec(
    id: nat, binary: string, name: Option<string>, entry: U64, source: string,
    fp: Fingerprint, callees: seq<U64>)

  // What a caller hands over to be stored.
  datatype Print = Print(name: Option<string>, entry: U64, source: string, fp: Fingerprint, callees: seq<U64>)

  // A row of `funcs`; the signature and the callees are blobs.
  datatype Row = Row(
    id: nat, binary: string, name: Option<string>, entry: U64, source: string,
    complexity: U32, shingles: U32, capped: bool, sig: seq<bv8>, callees: seq<bv8>)

  // A row of `bands`.
  datatype BandRow = BandRow(band: nat, key: bv64, id: nat)

  // ---------- blobs ----------

  lemma {:induction false} FromLeBound(bytes: seq<bv8>)
    ensures FromLe(bytes) < Pow256(|bytes|)
  {
    if bytes != [] { FromLeBound(bytes[1..]); }
  }

  function ReadWord(bytes: seq<bv8>): U64
    requires |bytes| == 8
  {
    FromLeBound(bytes);
    Pow256Of8();
    FromLe(bytes)
  }

  // Whole 8-byte words; a ragged tail is dropped.
  function DecodeSig(bytes: seq<bv8>): seq<U64> {
    if |bytes| < 8 then [] else [ReadWord(bytes[..8])] + DecodeSig(bytes[8..])
  }

  method EncodeSig(sig: seq<U64>) returns (v: seq<bv8>)
    ensures v == SlotsBytes(sig)
  {
    hide U64Bytes;
    v := [];
    for i := 0 to |sig|
      invariant v == SlotsBytes(sig[..i])
    {
      assert sig[..i + 1][..i] == sig[..i];
      v := v + U64Bytes(sig[i]);
    }
    assert sig[..|sig|] == sig;
  }

  method Decode(bytes: seq<bv8>) returns (out: seq<U64>)
    ensures out == DecodeSig(bytes)
  {
    hide ReadWord;
    out := [];
    var i := 0;
    while i + 8 <= |bytes|
      invariant i <= |bytes|
      invariant DecodeSig(bytes) == out + DecodeSig(bytes[i..])
    {
      DecodeStep(bytes, i, out);
      out := out + [ReadWord(bytes[i..i + 8])];
      i := i + 8;
    }
    assert DecodeSig(bytes[i..]) == [];
  }

  lemma DecodeStep(bytes: seq<bv8>, i: nat, out: seq<U64>)
    requires i + 8 <= |bytes|
    ensures out + DecodeSig(bytes[i..]) == out + [ReadWord(bytes[i..i + 8])] + DecodeSig(bytes[i + 8..])
  {
    hide ReadWord;
    var rest := bytes[i..];
    assert rest[..8] == bytes[i..i + 8] && rest[8..] == bytes[i + 8..];
  }

  // Reading a stored signature gives it back, and its blob has 8 bytes per word.
  lemma {:induction false} BlobRoundTrip(sig: seq<U64>)
    ensures DecodeSig(SlotsBytes(sig)) == sig
    ensures |SlotsBytes(sig)| == 8 * |sig|
  {
    hide U64Bytes, FromLe;
    if sig != [] {
      var rest := sig[1..];
      BlobRoundTrip(rest);
      assert sig == [sig[0]] + rest;
      SlotsBytesCons(sig[0], rest);
      var bytes := U64Bytes(sig[0]) + SlotsBytes(rest);
      assert bytes[..8] == U64Bytes(sig[0]) && bytes[8..] == SlotsBytes(rest);
      U64RoundTrip(sig[0]);
    }
  }

  // ---------- rows ----------

  function StoreRow(id: nat, binary: string, p: Print): Row {
    Row(id, binary, p.name, p.entry, p.source, p.fp.complexity, p.fp.shingles, p.fp.capped,
        SlotsBytes(p.fp.sig),
        SlotsBytes(if |p.callees| <= MAX_CALLEES then p.callees else p.callees[..MAX_CALLEES]))
  }

  function ToRec(r: Row): FuncRec {
    var cb := if |r.callees| <= MAX_CALLEES * 8 then r.callees else r.callees[..MAX_CALLEES * 8];
    FuncRec(r.id, r.binary, r.name, r.entry, r.source,
            Fingerprint(DecodeSig(r.sig), r.shingles, r.complexity, r.capped),
            DecodeSig(cb))
  }

  // A stored print reads back unchanged, its callees cut at the cap.
  lemma RowRoundTrip(id: nat, binary: string, p: Print)
    ensures ToRec(StoreRow(id, binary, p)) ==
            FuncRec(id, binary, p.name, p.entry, p.source, p.fp,
                    if |p.callees| <= 4096 then p.callees else p.callees[..4096])
  {
    hide SlotsBytes, DecodeSig;
    BlobRoundTrip(p.fp.sig);
    BlobRoundTrip(if |p.callees| <= MAX_CALLEES then p.callees else p.callees[..MAX_CALLEES]);
  }

  // UTF-8 length.
  function OctetLength(s: string): nat {
    if s == [] then 0
    else
      OctetLength(s[..|s| - 1]) +
      (var c := s[|s| - 1] as int; if c < 0x80 then 1 else if c < 0x800 then 2 else if c < 0x1_0000 then 3 else 4)
  }

  function NameLength(name: Option<string>): nat {
    match name case Some(n) => OctetLength(n) case None => 0
  }

  // The guard every read of a row carries: a full signature and sane texts.
  predicate Readable(r: Row) {
    && |r.sig| == SIG_BYTES
    && OctetLength(r.binary) <= MAX_TEXT
    && NameLength(r.name) <= MAX_TEXT
    && OctetLength(r.source) <= MAX_TEXT
  }

  function KeysOfRow(r: Row): seq<bv64> { Keys(ToRec(r).fp) }

  function RecBytes(r: FuncRec): nat {
    SIG_BYTES + OctetLength(r.binary) + NameLength(r.name) + OctetLength(r.source) + 8 * |r.callees|
  }

  // ---------- the tables and their writes ----------

  datatype Tables = Tables(rows: seq<Row>, bands: seq<BandRow>)

  function NextId(rows: seq<Row>): nat {
    if rows == [] then 1
    else
      var n := NextId(rows[..|rows| - 1]);
      if rows[|rows| - 1].id >= n then rows[|rows| - 1].id + 1 else n
  }

  function BandRows(keys: seq<bv64>, id: nat, count: nat): seq<BandRow>
    requires count <= |keys|
  {
    seq(count, k requires 0 <= k < count => BandRow(k, keys[k], id))
  }

  // One `insert`, when only the first `stmts` of its statements go through.
  function Inserted(t: Tables, binary: string, p: Print, stmts: nat): Tables {
    if stmts == 0 then t
    else
      var id := NextId(t.rows);
      var keys := Keys(p.fp);
      Tables(t.rows + [StoreRow(id, binary, p)],
             t.bands + BandRows(keys, id, if stmts - 1 < |keys| then stmts - 1 else |keys|))
  }

  function StmtsOf(p: Print): nat { 1 + |Keys(p.fp)| }

  function InsertedAll(t: Tables, binary: string, ps: seq<Print>): Tables {
    if ps == [] then t
    else Inserted(InsertedAll(t, binary, ps[..|ps| - 1]), binary, ps[|ps| - 1], StmtsOf(ps[|ps| - 1]))
  }

  // All statements of a batch, with its BEGIN and COMMIT.
  function StmtsOfAll(ps: seq<Print>): nat {
    if ps == [] then 2 else StmtsOfAll(ps[..|ps| - 1]) + StmtsOf(ps[|ps| - 1])
  }

  // A write, with the number of SQL statements that succeed before one fails.
  datatype Op =
    | InsertOne(binary: string, p: Print, stmts: nat)
    | InsertBatch(binary: string, ps: seq<Print>, stmts: nat)

  function Apply(t: Tables, op: Op): Tables {
    match op
    case InsertOne(binary, p, stmts) => Inserted(t, binary, p, stmts)
    case InsertBatch(binary, ps, stmts) => if stmts >= StmtsOfAll(ps) then InsertedAll(t, binary, ps) else t
  }

  function History(ops: seq<Op>): Tables {
    if ops == [] then Tables([], []) else Apply(History(ops[..|ops| - 1]), ops[|ops| - 1])
  }

  // ---------- reads ----------

  datatype ReadError = TooManyRows | TooManyBytes

  // The rows a read lets through, decoded, in table order.
  function ReadableRecs(rows: seq<Row>): seq<FuncRec> {
    if rows == [] then []
    else
      ReadableRecs(rows[..|rows| - 1]) +
      if Readable(rows[|rows| - 1]) then [ToRec(rows[|rows| - 1])] else []
  }

  function TotalBytes(recs: seq<FuncRec>): nat {
    if recs == [] then 0 else TotalBytes(recs[..|recs| - 1]) + RecBytes(recs[|recs| - 1])
  }

  // What a read lets through has a full signature, texts of at most 1 MiB each and at most 4096
  // callees, however the database was made.
  lemma RecordsAreSane(rows: seq<Row>, x: FuncRec)
    requires x in ReadableRecs(rows)
    ensures |x.fp.sig| == 128 && |x.callees| <= 4096
    ensures OctetLength(x.binary) <= 0x10_0000 && OctetLength(x.source) <= 0x10_0000
    ensures x.name.Some? ==> OctetLength(x.name.value) <= 0x10_0000
  {
    hide OctetLength, DecodeSig;
    ReadableRecsHold(rows);
    var r :| r in rows && Readable(r) && x == ToRec(r);
    WordsIn(r.sig);
    WordsIn(if |r.callees| <= MAX_CALLEES * 8 then r.callees else r.callees[..MAX_CALLEES * 8]);
  }

  // What a read lets through, row by row: a signature blob of 1024 bytes and texts within 1 MiB.
  lemma RecordsAre(rows: seq<Row>, x: FuncRec)
    ensures x in ReadableRecs(rows) <==>
            exists r :: r in rows && x == ToRec(r) && |r.sig| == 1024
                        && OctetLength(r.binary) <= 0x10_0000 && OctetLength(r.source) <= 0x10_0000
                        && (r.name.Some? ==> OctetLength(r.name.value) <= 0x10_0000)
  {
    hide OctetLength, ToRec;
    ReadableRecsHold(rows);
  }

  lemma {:induction false} WordsIn(bytes: seq<bv8>)
    ensures |DecodeSig(bytes)| == |bytes| / 8
  {
    hide ReadWord;
    if |bytes| >= 8 { WordsIn(bytes[8..]); }
  }

  // r is the row of p, under an id of its own.
  ghost predicate Stores(r: Row, binary: string, p: Print) {
    ToRec(r) == FuncRec(r.id, binary, p.name, p.entry, p.source, p.fp,
                        if |p.callees| <= 4096 then p.callees else p.callees[..4096])
  }

  // Behind the first n rows stand those of ps, in order, under ids that only grow.
  ghost predicate StoresAll(rows: seq<Row>, n: nat, binary: string, ps: seq<Print>) {
    && |rows| == n + |ps|
    && (forall k :: 0 <= k < |ps| ==> Stores(rows[n + k], binary, ps[k]))
    && (forall i, j :: n <= i < |rows| && 0 <= j < i ==> rows[j].id < rows[i].id)
  }

  lemma StoresOneMore(rows: seq<Row>, n: nat, binary: string, ps: seq<Print>, r: Row, p: Print)
    requires StoresAll(rows, n, binary, ps) && Stores(r, binary, p)
    requires forall j :: 0 <= j < |rows| ==> rows[j].id < r.id
    ensures StoresAll(rows + [r], n, binary, ps + [p])
  {
    hide Stores;
  }

  // A batch that goes through stores every print behind what was there.
  lemma {:induction false} BatchIsStored(t: Tables, binary: string, ps: seq<Print>)
    ensures var u := InsertedAll(t, binary, ps); t.rows <= u.rows && StoresAll(u.rows, |t.rows|, binary, ps)
  {
    hide Stores, StoreRow, Keys, StoresAll, Inserted, StmtsOf;
    if ps == [] {
      NothingStored(t.rows, binary);
    } else {
      var n := |ps| - 1;
      BatchIsStored(t, binary, ps[..n]);
      var v := InsertedAll(t, binary, ps[..n]);
      var u := Inserted(v, binary, ps[n], StmtsOf(ps[n]));
      assert StmtsOf(ps[n]) > 0 by { StmtsArePositive(ps[n]); }
      InsertStores(v, binary, ps[n], StmtsOf(ps[n]));
      StoresOneMore(v.rows, |t.rows|, binary, ps[..n], u.rows[|v.rows|], ps[n]);
      assert ps == ps[..n] + [ps[n]] && u.rows == v.rows + [u.rows[|v.rows|]];
    }
  }

  lemma StmtsArePositive(p: Print)
    ensures StmtsOf(p) > 0
  {
  }

  lemma NothingStored(rows: seq<Row>, binary: string)
    ensures StoresAll(rows, |rows|, binary, [])
  {
  }

  lemma InsertStores(t: Tables, binary: string, p: Print, stmts: nat)
    requires stmts > 0
    ensures var u := Inserted(t, binary, p, stmts);
            && |u.rows| == |t.rows| + 1 && t.rows <= u.rows && Stores(u.rows[|t.rows|], binary, p)
            && forall j :: 0 <= j < |t.rows| ==> t.rows[j].id < u.rows[|t.rows|].id
  {
    hide StoreRow, ToRec, Keys;
    RowRoundTrip(NextId(t.rows), binary, p);
    IdOfStored(NextId(t.rows), binary, p);
    NextIdIsFresh(t.rows);
  }

  lemma {:induction false} ReadableRecsGrow(rows: seq<Row>, i: nat)
    requires i <= |rows|
    ensures |ReadableRecs(rows[..i])| <= |ReadableRecs(rows)|
    ensures TotalBytes(ReadableRecs(rows[..i])) <= TotalBytes(ReadableRecs(rows))
    decreases |rows|
  {
    hide Readable, ToRec, RecBytes;
    if i == |rows| {
      assert rows[..i] == rows;
    } else {
      var n := |rows| - 1;
      ReadableRecsGrow(rows[..n], i);
      assert rows[..n][..i] == rows[..i];
      var p := ReadableRecs(rows[..n]);
      if Readable(rows[n]) {
        assert (p + [ToRec(rows[n])])[..|p|] == p;
      } else {
        assert p + [] == p;
      }
    }
  }

  // The SELECT by id, with its guards.
  function FindReadable(rows: seq<Row>, id: nat): Option<FuncRec> {
    if rows == [] then None
    else if rows[|rows| - 1].id == id && Readable(rows[|rows| - 1]) then Some(ToRec(rows[|rows| - 1]))
    else FindReadable(rows[..|rows| - 1], id)
  }

  ghost predicate UniqueIds(rows: seq<Row>) {
    forall i, j :: 0 <= i < j < |rows| ==> rows[i].id != rows[j].id
  }

  lemma {:induction false} FindReadableFinds(rows: seq<Row>, id: nat)
    requires UniqueIds(rows)
    ensures forall x :: FindReadable(rows, id) == Some(x) <==>
              exists r :: r in rows && r.id == id && Readable(r) && x == ToRec(r)
  {
    hide Readable, ToRec;
    if rows != [] {
      var n := |rows| - 1;
      FindReadableFinds(rows[..n], id);
      assert rows == rows[..n] + [rows[n]];
      assert forall r :: r in rows[..n] ==> r.id != rows[n].id;
    }
  }

  // The print has a band in common with the row, according to the bands table.
  ghost predicate Banded(t: Tables, fp: Fingerprint, id: nat) {
    exists e :: e in t.bands && e.id == id && e.band < |Keys(fp)| && Keys(fp)[e.band] == e.key
  }

  ghost function DbCandidates(t: Tables, fp: Fingerprint): set<FuncRec> {
    set r | r in t.rows && Readable(r) && Banded(t, fp, r.id) :: ToRec(r)
  }

  // The ids filed under one band key.
  function IdsAt(bands: seq<BandRow>, band: nat, key: bv64): set<nat> {
    set e | e in bands && e.band == band && e.key == key :: e.id
  }

  class Db {
    var rows: seq<Row>
    var bands: seq<BandRow>

    function State(): Tables
      reads this
    {
      Tables(rows, bands)
    }

    constructor ()
      ensures State() == History([])
    {
      rows, bands := [], [];
    }

    method Insert(binary: string, p: Print, stmts: nat) returns (id: Option<nat>)
      modifies this
      ensures State() == Apply(old(State()), InsertOne(binary, p, stmts))
      ensures id == if stmts >= StmtsOf(p) then Some(NextId(old(rows))) else None
    {
      hide Keys, SlotsBytes;
      if stmts == 0 {
        return None;
      }
      var callees := if |p.callees| <= MAX_CALLEES then p.callees else p.callees[..MAX_CALLEES];
      var sig := EncodeSig(p.fp.sig);
      var blob := EncodeSig(callees);
      var rowid := NextId(rows);
      var row := Row(rowid, binary, p.name, p.entry, p.source, p.fp.complexity, p.fp.shingles, p.fp.capped, sig, blob);
      assert row == StoreRow(rowid, binary, p);
      hide StoreRow;
      rows := rows + [row];
      var keys := BandKeys(p.fp.sig, BAND_ROWS);
      KeysOfPrint(p.fp);
      for band := 0 to |keys|
        invariant rows == old(rows) + [row]
        invariant band <= stmts - 1
        invariant bands == old(bands) + BandRows(keys, rowid, band)
      {
        if stmts - 1 == band {
          return None;
        }
        bands := bands + [BandRow(band, keys[band], rowid)];
      }
      return Some(rowid);
    }

    // One transaction: everything or nothing.
    method InsertAll(binary: string, ps: seq<Print>, stmts: nat) returns (count: Option<nat>)
      modifies this
      ensures State() == Apply(old(State()), InsertBatch(binary, ps, stmts))
      ensures count == if stmts >= StmtsOfAll(ps) then Some(|ps|) else None
    {
      hide StmtsOf, Inserted;
      ghost var before := State();
      var savedRows, savedBands := rows, bands;
      StmtsGrow(ps, 0);
      assert ps[..0] == [];
      if stmts == 0 {
        return None;
      }
      var left := stmts - 1;
      for i := 0 to |ps|
        invariant State() == InsertedAll(before, binary, ps[..i])
        invariant left >= 0 && left + StmtsOfAll(ps[..i]) == stmts + 1
      {
        assert ps[..i + 1][..i] == ps[..i];
        EnoughIsEnough(State(), binary, ps[i], left);
        var id := Insert(binary, ps[i], left);
        if id == None {
          StmtsGrow(ps, i + 1);
          rows, bands := savedRows, savedBands;
          return None;
        }
        left := left - StmtsOf(ps[i]);
      }
      assert ps[..|ps|] == ps;
      if left == 0 {
        rows, bands := savedRows, savedBands;
        return None;
      }
      return Some(|ps|);
    }

    // Every readable row, unless the table is too big to be honest.
    method All() returns (r: Result<seq<FuncRec>, ReadError>)
      ensures r.Ok? <==> |ReadableRecs(rows)| <= 2_000_000 && TotalBytes(ReadableRecs(rows)) <= 0x1000_0000
      ensures r.Ok? ==> r.value == ReadableRecs(rows)
      ensures r == Err(TooManyRows) ==> |ReadableRecs(rows)| > 2_000_000
      ensures r == Err(TooManyBytes) ==> TotalBytes(ReadableRecs(rows)) > 0x1000_0000
    {
      hide Readable, ToRec, RecBytes;
      var out: seq<FuncRec> := [];
      var total := 0;
      for i := 0 to |rows|
        invariant out == ReadableRecs(rows[..i])
        invariant total == TotalBytes(out)
        invariant |out| <= MAX_ROWS && total <= MAX_TOTAL_BYTES
      {
        assert rows[..i + 1][..i] == rows[..i];
        ReadableRecsGrow(rows, i + 1);
        if Readable(rows[i]) {
          var rec := ToRec(rows[i]);
          assert ReadableRecs(rows[..i + 1]) == out + [rec];
          assert (out + [rec])[..|out|] == out;
          if |out| >= MAX_ROWS {
            return Err(TooManyRows);
          }
          total := total + RecBytes(rec);
          if total > MAX_TOTAL_BYTES {
            return Err(TooManyBytes);
          }
          out := out + [rec];
        }
      }
      assert rows[..|rows|] == rows;
      return Ok(out);
    }

    method CollectIds(fp: Fingerprint) returns (ids: set<nat>)
      ensures forall id :: id in ids <==> Banded(State(), fp, id)
    {
      hide Keys;
      var keys := BandKeys(fp.sig, BAND_ROWS);
      KeysOfPrint(fp);
      ids := {};
      for band := 0 to |keys|
        invariant forall id :: id in ids <==>
                    exists e :: e in bands && e.id == id && e.band < band && keys[e.band] == e.key
      {
        ids := ids + IdsAt(bands, band, keys[band]);
      }
    }

    // The readable rows filed under any band key of fp, each once, in no particular order.
    method Candidates(fp: Fingerprint) returns (out: seq<FuncRec>)
      requires UniqueIds(rows)
      ensures Elements(out) == DbCandidates(State(), fp)
      ensures NoDup(out)
    {
      hide Banded, FindReadable, UniqueIds, Readable, ToRec;
      var ids := CollectIds(fp);
      ghost var all := ids;
      out := [];
      ghost var done: set<nat> := {};
      while ids != {}
        invariant ids + done == all && ids !! done
        invariant forall x :: x in out <==> x.id in done && FindReadable(rows, x.id) == Some(x)
        invariant NoDup(out)
        decreases |ids|
      {
        var id :| id in ids;
        ids := ids - {id};
        FindKeepsId(rows, id);
        match FindReadable(rows, id) {
          case Some(rec) =>
            assert rec !in out;
            out := out + [rec];
          case None =>
        }
        done := done + {id};
      }
      forall x ensures x in Elements(out) <==> x in DbCandidates(State(), fp) {
        FoundIsCandidate(State(), fp, x);
      }
    }
  }

  lemma {:induction false} FindKeepsId(rows: seq<Row>, id: nat)
    ensures FindReadable(rows, id).Some? ==> FindReadable(rows, id).value.id == id
  {
    if rows != [] { FindKeepsId(rows[..|rows| - 1], id); }
  }

  lemma FoundIsCandidate(t: Tables, fp: Fingerprint, x: FuncRec)
    requires UniqueIds(t.rows)
    ensures Banded(t, fp, x.id) && FindReadable(t.rows, x.id) == Some(x) <==> x in DbCandidates(t, fp)
  {
    hide Banded, FindReadable, UniqueIds, Readable, ToRec;
    FindReadableFinds(t.rows, x.id);
    forall r | r in t.rows ensures ToRec(r).id == r.id { ToRecKeepsId(r); }
  }

  lemma ToRecKeepsId(r: Row)
    ensures ToRec(r).id == r.id
  {
  }

  lemma EnoughIsEnough(t: Tables, binary: string, p: Print, stmts: nat)
    ensures stmts >= StmtsOf(p) ==> Inserted(t, binary, p, stmts) == Inserted(t, binary, p, StmtsOf(p))
  {
    hide Keys, StoreRow;
  }

  lemma {:induction false} StmtsGrow(ps: seq<Print>, i: nat)
    requires i <= |ps|
    ensures 2 <= StmtsOfAll(ps[..i]) <= StmtsOfAll(ps)
    decreases |ps|
  {
    if i == |ps| {
      assert ps[..i] == ps;
      if i > 0 { StmtsGrow(ps[..i - 1], i - 1); }
    } else {
      StmtsGrow(ps[..|ps| - 1], i);
      assert ps[..|ps| - 1][..i] == ps[..i];
    }
  }

  // ---------- the band index follows the rows ----------

  ghost predicate FiledFor(rows: seq<Row>, e: BandRow) {
    exists r :: r in rows && r.id == e.id && e.band < |KeysOfRow(r)| && KeysOfRow(r)[e.band] == e.key
  }

  // The bands table is exactly the image of the rows' keys.
  ghost predicate IndexExact(t: Tables) {
    forall e :: e in t.bands <==> FiledFor(t.rows, e)
  }

  // Ids are unique, and the table holds no band of a row that does not exist.
  ghost predicate Wellformed(t: Tables) {
    && UniqueIds(t.rows)
    && (forall e :: e in t.bands ==> FiledFor(t.rows, e))
  }

  lemma {:induction false} NextIdIsFresh(rows: seq<Row>)
    ensures forall i :: 0 <= i < |rows| ==> rows[i].id < NextId(rows)
  {
    if rows != [] { NextIdIsFresh(rows[..|rows| - 1]); }
  }

  lemma KeysOfStored(id: nat, binary: string, p: Print)
    ensures KeysOfRow(StoreRow(id, binary, p)) == Keys(p.fp)
  {
    hide Keys, StoreRow;
    RowRoundTrip(id, binary, p);
  }

  lemma FiledForSnoc(rows: seq<Row>, r: Row, e: BandRow)
    ensures FiledFor(rows + [r], e) <==>
            FiledFor(rows, e) || (r.id == e.id && e.band < |KeysOfRow(r)| && KeysOfRow(r)[e.band] == e.key)
  {
    hide KeysOfRow;
    assert r in rows + [r];
    if FiledFor(rows, e) {
      var q :| q in rows && q.id == e.id && e.band < |KeysOfRow(q)| && KeysOfRow(q)[e.band] == e.key;
      assert q in rows + [r];
    }
  }

  // Did the write stop between a row and the last of its bands?
  predicate Torn(op: Op) {
    op.InsertOne? && 1 <= op.stmts < StmtsOf(op.p)
  }

  // What one insert adds to the tables, entry by entry.
  lemma InsertAdds(t: Tables, binary: string, p: Print, stmts: nat, e: BandRow)
    requires Wellformed(t) && stmts > 0
    ensures var u := Inserted(t, binary, p, stmts);
            var id, keys := NextId(t.rows), Keys(p.fp);
            && (FiledFor(u.rows, e) <==> FiledFor(t.rows, e) || (e.id == id && e.band < |keys| && keys[e.band] == e.key))
            && (e in u.bands <==> e in t.bands || (e.id == id && e.band < |keys| && e.band < stmts - 1 && keys[e.band] == e.key))
            && (FiledFor(t.rows, e) ==> e.id < id)
  {
    hide Keys, KeysOfRow, StoreRow;
    var id, keys := NextId(t.rows), Keys(p.fp);
    var r := StoreRow(id, binary, p);
    IdOfStored(id, binary, p);
    KeysOfStored(id, binary, p);
    NextIdIsFresh(t.rows);
    FiledForSnoc(t.rows, r, e);
    var news := BandRows(keys, id, if stmts - 1 < |keys| then stmts - 1 else |keys|);
    if e.id == id && e.band < |news| && keys[e.band] == e.key { assert news[e.band] == e; }
  }

  lemma InsertKeepsIds(t: Tables, binary: string, p: Print, stmts: nat)
    requires UniqueIds(t.rows)
    ensures UniqueIds(Inserted(t, binary, p, stmts).rows)
  {
    hide Keys, StoreRow;
    NextIdIsFresh(t.rows);
    IdOfStored(NextId(t.rows), binary, p);
  }

  // One insert: well-formedness always survives; exactness survives unless it is torn,
  // and a torn insert destroys it.
  lemma InsertKeepsIndex(t: Tables, binary: string, p: Print, stmts: nat)
    requires Wellformed(t)
    ensures Wellformed(Inserted(t, binary, p, stmts))
    ensures IndexExact(Inserted(t, binary, p, stmts)) <==> IndexExact(t) && (stmts == 0 || stmts >= StmtsOf(p))
  {
    hide Keys, FiledFor, UniqueIds;
    if stmts > 0 {
      var id, keys, u := NextId(t.rows), Keys(p.fp), Inserted(t, binary, p, stmts);
      hide Inserted;
      InsertKeepsIds(t, binary, p, stmts);
      forall e
        ensures FiledFor(u.rows, e) <==> FiledFor(t.rows, e) || (e.id == id && e.band < |keys| && keys[e.band] == e.key)
        ensures e in u.bands <==> e in t.bands || (e.id == id && e.band < |keys| && e.band < stmts - 1 && keys[e.band] == e.key)
        ensures FiledFor(t.rows, e) ==> e.id < id
      {
        InsertAdds(t, binary, p, stmts, e);
      }
      if stmts - 1 < |keys| {
        var lost := BandRow(stmts - 1, keys[stmts - 1], id);
        assert FiledFor(u.rows, lost) && lost !in u.bands;
      }
      if !IndexExact(t) {
        var e :| !(e in t.bands <==> FiledFor(t.rows, e));
        assert !(e in u.bands <==> FiledFor(u.rows, e));
      }
    }
  }

  lemma IdOfStored(id: nat, binary: string, p: Print)
    ensures StoreRow(id, binary, p).id == id
  {
  }

  lemma {:induction false} BatchKeepsIndex(t: Tables, binary: string, ps: seq<Print>)
    requires Wellformed(t)
    ensures Wellformed(InsertedAll(t, binary, ps))
    ensures IndexExact(InsertedAll(t, binary, ps)) <==> IndexExact(t)
  {
    hide Inserted, StmtsOf, Wellformed, IndexExact;
    if ps != [] {
      BatchKeepsIndex(t, binary, ps[..|ps| - 1]);
      InsertKeepsIndex(InsertedAll(t, binary, ps[..|ps| - 1]), binary, ps[|ps| - 1], StmtsOf(ps[|ps| - 1]));
    }
  }

  // Over every history of inserts and committed or rolled-back batches, the band index is
  // the exact image of the rows if and only if no stand-alone insert stopped half way.
  lemma {:induction false} IndexExactIff(ops: seq<Op>)
    ensures Wellformed(History(ops))
    ensures IndexExact(History(ops)) <==> forall i :: 0 <= i < |ops| ==> !Torn(ops[i])
  {
    hide Inserted, InsertedAll, StmtsOf, Wellformed, IndexExact;
    if ops == [] {
      EmptyIsExact();
    } else {
      var n := |ops| - 1;
      IndexExactIff(ops[..n]);
      var t := History(ops[..n]);
      match ops[n] {
        case InsertOne(binary, p, stmts) => InsertKeepsIndex(t, binary, p, stmts);
        case InsertBatch(binary, ps, stmts) => BatchKeepsIndex(t, binary, ps);
      }
      assert forall i :: 0 <= i < n ==> ops[..n][i] == ops[i];
    }
  }

  lemma EmptyIsExact()
    ensures Wellformed(Tables([], [])) && IndexExact(Tables([], []))
  {
  }

  // ---------- the in-memory corpus ----------

  // The records that share a band with fp, in index order.
  function SharingBand(recs: seq<FuncRec>, fp: Fingerprint): seq<FuncRec> {
    if recs == [] then []
    else
      SharingBand(recs[..|recs| - 1], fp) +
      if ShareBand(fp, recs[|recs| - 1].fp) then [recs[|recs| - 1]] else []
  }

  lemma {:induction false} SharingBandHolds(recs: seq<FuncRec>, fp: Fingerprint)
    ensures forall r :: r in SharingBand(recs, fp) <==> r in recs && ShareBand(fp, r.fp)
  {
    hide ShareBand;
    if recs != [] {
      SharingBandHolds(recs[..|recs| - 1], fp);
      assert recs == recs[..|recs| - 1] + [recs[|recs| - 1]];
    }
  }

  class MemCorpus {
    var recs: seq<FuncRec>
    var bands: Index

    ghost predicate Valid()
      reads this
    {
      FiledRecs(bands, recs, |recs|)
    }

    constructor FromRecords(rs: seq<FuncRec>)
      ensures Valid() && recs == rs
    {
      var idx: Index := map[];
      for i := 0 to |rs|
        invariant FiledRecs(idx, rs, i)
      {
        hide Keys;
        var keys := BandKeys(rs[i].fp.sig, BAND_ROWS);
        KeysOfPrint(rs[i].fp);
        idx := AddPrint(idx, keys, i);
      }
      recs := rs;
      bands := idx;
    }

    method Candidates(fp: Fingerprint) returns (out: seq<FuncRec>)
      requires Valid()
      ensures out == SharingBand(recs, fp)
    {
      hide Keys, ShareBand, FiledRecs;
      var keys := BandKeys(fp.sig, BAND_ROWS);
      KeysOfPrint(fp);
      var found := Collect(bands, keys);
      var idxs := SortDedup(found, NatLe());
      SortDedupNat(found);
      forall x: nat ensures x in idxs <==> x < |recs| && ShareBand(fp, recs[x].fp) {
        FiledMeansShared(bands, recs, fp, x);
      }
      PickedIsSharing(recs, fp, idxs);
      var rs := recs;
      out := seq(|idxs|, k requires 0 <= k < |idxs| && idxs[k] < |rs| => rs[idxs[k]]);
      assert out == Picked(recs, idxs);
    }
  }

  ghost predicate FiledRecs(bands: Index, recs: seq<FuncRec>, i: nat)
    requires i <= |recs|
  {
    forall k: nat, h, x: nat :: Has(bands, k, h, x) <==>
      x < i && k < |Keys(recs[x].fp)| && Keys(recs[x].fp)[k] == h
  }

  lemma FiledMeansShared(bands: Index, recs: seq<FuncRec>, fp: Fingerprint, x: nat)
    requires FiledRecs(bands, recs, |recs|)
    ensures Meets(bands, Keys(fp), x) <==> x < |recs| && ShareBand(fp, recs[x].fp)
  {
    hide Keys;
    if Meets(bands, Keys(fp), x) {
      var k :| 0 <= k < |Keys(fp)| && Has(bands, k, Keys(fp)[k], x);
    }
    if x < |recs| && ShareBand(fp, recs[x].fp) {
      var k :| 0 <= k < |Keys(fp)| && k < |Keys(recs[x].fp)| && Keys(fp)[k] == Keys(recs[x].fp)[k];
      assert Has(bands, k, Keys(fp)[k], x);
    }
  }

  ghost function Picked(recs: seq<FuncRec>, idxs: seq<nat>): seq<FuncRec>
    requires forall k :: 0 <= k < |idxs| ==> idxs[k] < |recs|
  {
    seq(|idxs|, k requires 0 <= k < |idxs| => recs[idxs[k]])
  }

  // The indices of the records that share a band.
  ghost function SharingIdx(recs: seq<FuncRec>, fp: Fingerprint, n: nat): seq<nat>
    requires n <= |recs|
  {
    if n == 0 then []
    else SharingIdx(recs, fp, n - 1) + if ShareBand(fp, recs[n - 1].fp) then [n - 1] else []
  }

  lemma {:induction false} SharingIdxHolds(recs: seq<FuncRec>, fp: Fingerprint, n: nat)
    requires n <= |recs|
    ensures Ascending(SharingIdx(recs, fp, n))
    ensures forall x: nat :: x in SharingIdx(recs, fp, n) <==> x < n && ShareBand(fp, recs[x].fp)
    ensures forall k :: 0 <= k < |SharingIdx(recs, fp, n)| ==> SharingIdx(recs, fp, n)[k] < |recs|
  {
    hide ShareBand;
    if n > 0 {
      SharingIdxHolds(recs, fp, n - 1);
      var p := SharingIdx(recs, fp, n - 1);
      assert forall k :: 0 <= k < |p| ==> p[k] in p;
    }
  }

  lemma {:induction false} SharingIdxPicks(recs: seq<FuncRec>, fp: Fingerprint, n: nat)
    requires n <= |recs|
    ensures forall k :: 0 <= k < |SharingIdx(recs, fp, n)| ==> SharingIdx(recs, fp, n)[k] < |recs|
    ensures Picked(recs, SharingIdx(recs, fp, n)) == SharingBand(recs[..n], fp)
  {
    hide ShareBand, Ascending;
    SharingIdxHolds(recs, fp, n);
    if n > 0 {
      SharingIdxPicks(recs, fp, n - 1);
      var p, q := SharingIdx(recs, fp, n - 1), SharingIdx(recs, fp, n);
      assert recs[..n][..n - 1] == recs[..n - 1];
      assert Picked(recs, q) == Picked(recs, p) + if ShareBand(fp, recs[n - 1].fp) then [recs[n - 1]] else [];
    }
  }

  lemma PickedIsSharing(recs: seq<FuncRec>, fp: Fingerprint, idxs: seq<nat>)
    requires Ascending(idxs)
    requires forall x: nat :: x in idxs <==> x < |recs| && ShareBand(fp, recs[x].fp)
    ensures forall k :: 0 <= k < |idxs| ==> idxs[k] < |recs|
    ensures Picked(recs, idxs) == SharingBand(recs, fp)
  {
    hide ShareBand;
    SharingIdxHolds(recs, fp, |recs|);
    SharingIdxPicks(recs, fp, |recs|);
    AscendingUnique(idxs, SharingIdx(recs, fp, |recs|));
    assert recs[..|recs|] == recs;
  }

  // ---------- both corpora find the same rows ----------

  lemma {:induction false} ReadableRecsHold(rows: seq<Row>)
    ensures forall x :: x in ReadableRecs(rows) <==> exists r :: r in rows && Readable(r) && x == ToRec(r)
  {
    hide Readable, ToRec;
    if rows != [] {
      ReadableRecsHold(rows[..|rows| - 1]);
      assert rows == rows[..|rows| - 1] + [rows[|rows| - 1]];
    }
  }

  lemma BandedMeansShared(t: Tables, fp: Fingerprint, r: Row)
    requires Wellformed(t) && IndexExact(t) && r in t.rows
    ensures Banded(t, fp, r.id) <==> ShareBand(fp, ToRec(r).fp)
  {
    hide Keys, ToRec;
    if Banded(t, fp, r.id) {
      var e :| e in t.bands && e.id == r.id && e.band < |Keys(fp)| && Keys(fp)[e.band] == e.key;
      assert FiledFor(t.rows, e);
      var q :| q in t.rows && q.id == e.id && e.band < |KeysOfRow(q)| && KeysOfRow(q)[e.band] == e.key;
      assert q == r;
    }
    if ShareBand(fp, ToRec(r).fp) {
      var k :| 0 <= k < |Keys(fp)| && k < |KeysOfRow(r)| && Keys(fp)[k] == KeysOfRow(r)[k];
      var e := BandRow(k, Keys(fp)[k], r.id);
      assert FiledFor(t.rows, e);
    }
  }

  // With an exact index the sqlite lookup and the lookup in the corpus rebuilt from the
  // same rows return the same records: the readable ones that share a band.
  lemma CandidatesAgree(t: Tables, fp: Fingerprint)
    requires Wellformed(t) && IndexExact(t)
    ensures DbCandidates(t, fp) == Elements(SharingBand(ReadableRecs(t.rows), fp))
  {
    hide Readable, ToRec, ShareBand, Banded;
    ReadableRecsHold(t.rows);
    SharingBandHolds(ReadableRecs(t.rows), fp);
    forall x ensures x in DbCandidates(t, fp) <==> x in SharingBand(ReadableRecs(t.rows), fp) {
      if x in DbCandidates(t, fp) {
        var r :| r in t.rows && Readable(r) && Banded(t, fp, r.id) && ToRec(r) == x;
        BandedMeansShared(t, fp, r);
      }
      if x in SharingBand(ReadableRecs(t.rows), fp) {
        var r :| r in t.rows && Readable(r) && x == ToRec(r);
        BandedMeansShared(t, fp, r);
      }
    }
  }
}
