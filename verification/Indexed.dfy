/** crates/fnprint-core, IndexedFunc: one fingerprinted function of a binary. */
module Indexed {
  import opened Wrappers
  import opened Sig
  import Loader

  // A worker's float: a number, or not one.
  datatype Coverage = Finite(value: real) | NotFinite

  datatype IndexedFunc = IndexedFunc(
    name: Option<string>, entry: nat, source: Loader.FuncSource, fp: Fingerprint, coverage: Coverage, callees: seq<nat>)
}
