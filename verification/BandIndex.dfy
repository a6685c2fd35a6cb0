/**
  The LSH index every candidate search uses: (band, key) to the ids filed there,
  in align.rs and in fnprint-db's MemCorpus alike.
 */
module BandIndex {
  type Index = map<(nat, bv64), seq<nat>>

  ghost predicate Has(idx: Index, band: nat, key: bv64, id: nat) {
    (band, key) in idx && id in idx[(band, key)]
  }

  // id is filed under one of these keys, each in its own band.
  ghost predicate Meets(idx: Index, keys: seq<bv64>, id: nat) {
    exists k :: 0 <= k < |keys| && Has(idx, k, keys[k], id)
  }

  method AddPrint(idx: Index, keys: seq<bv64>, id: nat) returns (r: Index)
    ensures forall k: nat, h, x: nat :: Has(r, k, h, x) <==> Has(idx, k, h, x) || (x == id && k < |keys| && keys[k] == h)
  {
    r := idx;
    for band := 0 to |keys|
      invariant forall k: nat, h, x: nat ::
                  Has(r, k, h, x) <==> Has(idx, k, h, x) || (x == id && k < band && keys[k] == h)
    {
      var at: (nat, bv64) := (band, keys[band]);
      var filed := if at in r then r[at] else [];
      ghost var before := r;
      r := r[at := filed + [id]];
      forall k: nat, h, x: nat
        ensures Has(r, k, h, x) <==> Has(before, k, h, x) || (x == id && k == band && keys[band] == h)
      {
      }
    }
  }

  method Collect(idx: Index, keys: seq<bv64>) returns (seen: seq<nat>)
    ensures forall x: nat :: x in seen <==> Meets(idx, keys, x)
  {
    seen := [];
    for band := 0 to |keys|
      invariant forall x: nat :: x in seen <==> exists k :: 0 <= k < band && Has(idx, k, keys[k], x)
    {
      if (band, keys[band]) in idx {
        seen := seen + idx[(band, keys[band])];
      }
    }
  }
}
