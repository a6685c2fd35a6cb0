/**
  crates/fnprint-sig, band_keys: the signature cut into bands, one hash per band,
  and which pairs are sure to share a band.
 */
module Bands {
  import F = Fnv
  import opened Machine
  import opened Trace
  import opened Sig

  // rows per band in every index (fnprint-db)
  const BAND_ROWS: nat := 4

  // `sig.chunks(r)`
  function Chunks(sig: seq<U64>, r: nat): seq<seq<U64>>
    requires r > 0
  {
    if sig == [] then []
    else if |sig| <= r then [sig]
    else [sig[..r]] + Chunks(sig[r..], r)
  }

  function SlotsBytes(vals: seq<U64>): seq<bv8> {
    if vals == [] then [] else SlotsBytes(vals[..|vals| - 1]) + U64Bytes(vals[|vals| - 1])
  }

  function BandKey(band: seq<U64>): bv64 {
    F.Fold(F.OFFSET, SlotsBytes(band))
  }

  function KeysOf(chunks: seq<seq<U64>>): (k: seq<bv64>)
    ensures |k| == |chunks|
  {
    seq(|chunks|, i requires 0 <= i < |chunks| => BandKey(chunks[i]))
  }

  function Keys(fp: Fingerprint): seq<bv64> {
    KeysOf(Chunks(fp.sig, BAND_ROWS))
  }

  lemma KeysOfPrint(fp: Fingerprint)
    ensures KeysOf(Chunks(fp.sig, BAND_ROWS)) == Keys(fp)
  {
  }

  method BandKeys(sig: seq<U64>, rows: nat) returns (out: seq<bv64>)
    ensures out == KeysOf(Chunks(sig, if rows > 0 then rows else 1))
  {
    hide U64Bytes, F.Step;
    var r := if rows > 0 then rows else 1;
    var chunks := Chunks(sig, r);
    out := [];
    for k := 0 to |chunks|
      invariant out == KeysOf(chunks[..k])
    {
      var band := chunks[k];
      var h := F.OFFSET;
      for j := 0 to |band|
        invariant h == BandKey(band[..j])
      {
        var bytes := U64Bytes(band[j]);
        ghost var h0 := h;
        for i := 0 to 8
          invariant h == F.Fold(h0, bytes[..i])
        {
          assert bytes[..i + 1][..i] == bytes[..i];
          h := F.Step(h, bytes[i]);
        }
        assert bytes[..8] == bytes;
        assert band[..j + 1][..j] == band[..j];
        F.FoldAppend(F.OFFSET, SlotsBytes(band[..j]), bytes);
      }
      assert band[..|band|] == band;
      out := out + [h];
      assert out == KeysOf(chunks[..k + 1]);
    }
    assert chunks[..|chunks|] == chunks;
  }

  // The two prints have the same key in some band.
  predicate ShareBand(f: Fingerprint, g: Fingerprint) {
    exists k :: 0 <= k < |Keys(f)| && k < |Keys(g)| && Keys(f)[k] == Keys(g)[k]
  }

  lemma {:induction false} AgreeSplits(s: seq<U64>, t: seq<U64>, r: nat)
    requires |s| == |t| && r <= |s|
    ensures Agree(s, t) == Agree(s[..r], t[..r]) + Agree(s[r..], t[r..])
  {
    var n := |s| - 1;
    if r == |s| {
      assert s[..r] == s && t[..r] == t && s[r..] == [] && t[r..] == [];
    } else {
      AgreeSplits(s[..n], t[..n], r);
      assert s[..n][..r] == s[..r] && t[..n][..r] == t[..r];
      assert s[..n][r..] == s[r..][..n - r] && t[..n][r..] == t[r..][..n - r];
    }
  }

  // One band per r slots, rounded up.
  lemma {:induction false} ChunkCount(s: seq<U64>, t: seq<U64>)
    requires |s| == |t|
    ensures |Chunks(s, BAND_ROWS)| == |Chunks(t, BAND_ROWS)| == (|s| + BAND_ROWS - 1) / BAND_ROWS
  {
    if |s| > BAND_ROWS {
      ChunkCount(s[BAND_ROWS..], t[BAND_ROWS..]);
    }
  }

  // Pigeonhole: with fewer disagreements than bands, some band has none.
  lemma {:induction false} SomeBandAgrees(s: seq<U64>, t: seq<U64>, r: nat) returns (k: nat)
    requires r > 0 && |s| == |t|
    requires |s| - Agree(s, t) < |Chunks(s, r)|
    ensures k < |Chunks(s, r)| && k < |Chunks(t, r)| && Chunks(s, r)[k] == Chunks(t, r)[k]
  {
    AgreeBounds(s, t);
    if |s| <= r {
      k := 0;
    } else {
      AgreeSplits(s, t, r);
      AgreeBounds(s[..r], t[..r]);
      if s[..r] == t[..r] {
        k := 0;
      } else {
        k := SomeBandAgrees(s[r..], t[r..], r);
        k := k + 1;
      }
    }
  }

  lemma ScaleKeepsOrder(p: real, q: real, n: real)
    requires p > q && n > 0.0
    ensures p * n > q * n
  {
  }

  lemma RatioAbove(e: nat, n: nat)
    requires n > 0 && e as real / n as real > 0.75
    ensures 4 * e > 3 * n
  {
    var q := e as real / n as real;
    ScaleKeepsOrder(q, 0.75, n as real);
    assert q * n as real == e as real;
  }

  // A band index loses no pair above similarity 3/4, whatever the signature length.
  lemma AboveThreeQuartersShareABand(f: Fingerprint, g: Fingerprint)
    requires Similarity(f, g) > 0.75
    ensures ShareBand(f, g)
  {
    hide Agree, BandKey;
    var s, t := f.sig, g.sig;
    RatioAbove(Agree(s, t), |s|);
    ChunkCount(s, t);
    var k := SomeBandAgrees(s, t, BAND_ROWS);
    assert Keys(f)[k] == Keys(g)[k];
  }

  // ---------- the bound cannot be lowered ----------

  function Plain(n: nat): (r: seq<U64>)
    ensures |r| == 4 * n
  {
    if n == 0 then [] else [0, 0, 0, 0] + Plain(n - 1)
  }

  function Marked(n: nat): (r: seq<U64>)
    ensures |r| == 4 * n
  {
    if n == 0 then [] else [1, 0, 0, 0] + Marked(n - 1)
  }

  lemma AgreeInOneBand()
    ensures Agree([0, 0, 0, 0], [1, 0, 0, 0]) == 3
  {
    assert Agree([0], [1]) == 0;
    assert [0, 0, 0, 0][..3] == [0, 0, 0] && [0, 0, 0][..2] == [0, 0] && [0, 0][..1] == [0];
    assert [1, 0, 0, 0][..3] == [1, 0, 0] && [1, 0, 0][..2] == [1, 0] && [1, 0][..1] == [1];
  }

  lemma {:induction false} SlotsBytesCons(v: U64, rest: seq<U64>)
    ensures SlotsBytes([v] + rest) == U64Bytes(v) + SlotsBytes(rest)
  {
    hide U64Bytes;
    var s := [v] + rest;
    if rest == [] {
      assert s[..0] == [];
    } else {
      var n := |rest| - 1;
      SlotsBytesCons(v, rest[..n]);
      assert s[..|s| - 1] == [v] + rest[..n];
    }
  }

  // Numbers with the same upper bytes differ in their lowest byte alone.
  lemma LowestByteAlone(m: U64, n: U64)
    requires m / 256 == n / 256 && m != n
    ensures U64Bytes(m)[0] != U64Bytes(n)[0]
    ensures forall i :: 1 <= i < 8 ==> U64Bytes(m)[i] == U64Bytes(n)[i]
  {
    ByteRoundTrip(m % 256);
    ByteRoundTrip(n % 256);
    var tail := LeBytes(m / 256, 7);
    assert U64Bytes(m) == [(m % 256) as bv8] + tail;
    assert U64Bytes(n) == [(n % 256) as bv8] + tail;
  }

  lemma KeysOfOneBandDiffer()
    ensures BandKey([0, 0, 0, 0]) != BandKey([1, 0, 0, 0])
  {
    hide U64Bytes, SlotsBytes;
    var rest: seq<U64> := [0, 0, 0];
    var z, o := U64Bytes(0), U64Bytes(1);
    assert [0, 0, 0, 0] == [0] + rest && [1, 0, 0, 0] == [1] + rest;
    SlotsBytesCons(0, rest);
    SlotsBytesCons(1, rest);
    F.FoldAppend(F.OFFSET, z, SlotsBytes(rest));
    F.FoldAppend(F.OFFSET, o, SlotsBytes(rest));
    LowestByteAlone(0, 1);
    F.OneByteNeverCollides(F.OFFSET, z, o, 0);
    if BandKey([0] + rest) == BandKey([1] + rest) {
      F.FoldInjectiveInState(F.Fold(F.OFFSET, z), F.Fold(F.OFFSET, o), SlotsBytes(rest));
    }
  }

  lemma MarkedStep(n: nat)
    requires n > 0
    ensures Plain(n)[..4] == [0, 0, 0, 0] && Plain(n)[4..] == Plain(n - 1)
    ensures Marked(n)[..4] == [1, 0, 0, 0] && Marked(n)[4..] == Marked(n - 1)
  {
  }

  lemma {:induction false} MarkedAgrees(n: nat)
    ensures Agree(Plain(n), Marked(n)) == 3 * n
  {
    if n > 0 {
      MarkedAgrees(n - 1);
      MarkedStep(n);
      AgreeSplits(Plain(n), Marked(n), 4);
      AgreeInOneBand();
    }
  }

  lemma {:induction false} NoBandAgrees(n: nat)
    ensures |Chunks(Plain(n), BAND_ROWS)| == n == |Chunks(Marked(n), BAND_ROWS)|
    ensures forall k :: 0 <= k < n ==>
              BandKey(Chunks(Plain(n), BAND_ROWS)[k]) != BandKey(Chunks(Marked(n), BAND_ROWS)[k])
  {
    hide BandKey;
    if n > 0 {
      NoBandAgrees(n - 1);
      MarkedStep(n);
      KeysOfOneBandDiffer();
      var s, t := Plain(n), Marked(n);
      if n > 1 {
        assert Chunks(s, BAND_ROWS) == [s[..4]] + Chunks(s[4..], BAND_ROWS);
        assert Chunks(t, BAND_ROWS) == [t[..4]] + Chunks(t[4..], BAND_ROWS);
      } else {
        assert s[..4] == s && t[..4] == t;
      }
    }
  }

  // Two full-length prints at similarity exactly 3/4 that no band brings together.
  lemma ThreeQuartersIsTight()
    ensures exists f: Fingerprint, g: Fingerprint ::
              |f.sig| == SIG_LEN && |g.sig| == SIG_LEN && Similarity(f, g) == 0.75 && !ShareBand(f, g)
  {
    hide Agree, BandKey, Plain, Marked, Chunks;
    MarkedAgrees(32);
    NoBandAgrees(32);
    var f := Fingerprint(Plain(32), 1, 4, false);
    var g := Fingerprint(Marked(32), 1, 4, false);
    assert Similarity(f, g) == 96 as real / 128 as real;
    assert !ShareBand(f, g);
  }
}
