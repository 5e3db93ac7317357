/** What the parity code assumes of its Reed-Solomon library, as a contract on an abstract codec. */
module ErasureCode {
  import opened Basics

  /** `encode` gives the parity shards; `reconstruct` gives all shards back, or fails. */
  datatype Codec = Codec(
    encode: (nat, nat, seq<Bytes>) -> seq<Bytes>,
    reconstruct: (nat, nat, seq<Option<Bytes>>) -> Option<seq<Bytes>>)

  /** `ParityGeometry::validate`. */
  predicate ValidGeometry(k: nat, m: nat) {
    k >= 1 && m >= 1 && k + m <= 256
  }

  predicate AreShards(shards: seq<Bytes>, count: nat, size: nat) {
    |shards| == count && forall i :: 0 <= i < count ==> |shards[i]| == size
  }

  function Missing(shards: seq<Option<Bytes>>): nat {
    if shards == [] then 0 else (if shards[0].None? then 1 else 0) + Missing(shards[1..])
  }

  /** Every shard that is there is the code word's. */
  predicate Agrees(shards: seq<Option<Bytes>>, code: seq<Bytes>) {
    |shards| == |code| && forall i :: 0 <= i < |code| && shards[i].Some? ==> shards[i].value == code[i]
  }

  ghost predicate Corrects(codec: Codec, k: nat, m: nat, size: nat, data: seq<Bytes>) {
    var code := data + codec.encode(k, m, data);
    && AreShards(code, k + m, size)
    && forall shards :: Agrees(shards, code) && Missing(shards) <= m ==> codec.reconstruct(k, m, shards) == Some(code)
  }

  /** Up to `m` missing shards of any code word are recovered exactly; shards are not empty. */
  ghost predicate IsErasureCode(codec: Codec) {
    forall k: nat, m: nat, size: nat, data | ValidGeometry(k, m) && size >= 1 && AreShards(data, k, size) ::
      Corrects(codec, k, m, size, data)
  }
}
