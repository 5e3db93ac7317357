/**
 * A systematic Reed-Solomon code over the 256-element field meets the contract:
 * shard i holds, column by column, the value at point i of the polynomial of
 * degree below k through the data shards.
 */
module ReedSolomon {
  import opened Basics
  import opened ErasureCode
  import opened GF256
  import opened Interpolation

  function Points(n: nat): (points: seq<Element>)
    requires n <= 256
    ensures |points| == n && forall i :: 0 <= i < n ==> points[i] == i
  {
    seq(n, i requires 0 <= i < n => i)
  }

  /** Byte `b` of the shards numbered `points`. */
  function Column(shards: seq<Bytes>, b: nat): (column: seq<Element>)
    requires forall i :: 0 <= i < |shards| ==> b < |shards[i]|
    ensures |column| == |shards| && forall i :: 0 <= i < |shards| ==> column[i] == shards[i][b] as nat
  {
    seq(|shards|, i requires 0 <= i < |shards| => shards[i][b] as nat)
  }

  /** The shard at `point` of the code word whose shards at `xs` are `known`. */
  function ShardAt(xs: seq<Element>, known: seq<Bytes>, size: nat, point: Element): (shard: Bytes)
    requires |xs| == |known| && AreShards(known, |xs|, size)
    ensures |shard| == size
  {
    seq(size, b requires 0 <= b < size => Eval(Interpolate(xs, Column(known, b)), point) as byte)
  }

  function ShardSize(shards: seq<Bytes>): nat {
    if shards == [] then 0 else |shards[0]|
  }

  /** The shards numbered from `from` up to `to`. */
  function ShardsBetween(xs: seq<Element>, known: seq<Bytes>, size: nat, from: nat, end: nat): (shards: seq<Bytes>)
    requires |xs| == |known| && AreShards(known, |xs|, size) && from <= end <= 256
    ensures AreShards(shards, end - from, size)
    ensures forall i :: from <= i < end ==> shards[i - from] == ShardAt(xs, known, size, i)
    decreases end - from
  {
    if from == end then []
    else [ShardAt(xs, known, size, from)] + ShardsBetween(xs, known, size, from + 1, end)
  }

  function Encode(k: nat, m: nat, data: seq<Bytes>): seq<Bytes> {
    var size := ShardSize(data);
    if ValidGeometry(k, m) && AreShards(data, k, size) then ShardsBetween(Points(k), data, size, k, k + m) else []
  }

  /** The numbers of the shards that are there, in order, counting from `base`. */
  function Present(shards: seq<Option<Bytes>>, base: nat): (xs: seq<nat>)
    ensures |xs| + Missing(shards) == |shards|
    ensures forall i :: 0 <= i < |xs| ==> base <= xs[i] < base + |shards| && shards[xs[i] - base].Some?
    ensures forall i, j :: 0 <= i < j < |xs| ==> xs[i] < xs[j]
  {
    if shards == [] then []
    else if shards[0].Some? then [base] + Present(shards[1..], base + 1)
    else Present(shards[1..], base + 1)
  }

  function Reconstruct(k: nat, m: nat, shards: seq<Option<Bytes>>): Option<seq<Bytes>> {
    var xs := Present(shards, 0);
    if !ValidGeometry(k, m) || |shards| != k + m || |xs| < k then None
    else
      var known := seq(k, i requires 0 <= i < k => shards[xs[i]].value);
      var size := ShardSize(known);
      if AreShards(known, k, size) then
        var points: seq<Element> := seq(k, i requires 0 <= i < k => xs[i]);
        Some(ShardsBetween(points, known, size, 0, k + m))
      else None
  }

  const LIBRARY: Codec := Codec(
    (k: nat, m: nat, data: seq<Bytes>) => Encode(k, m, data),
    (k: nat, m: nat, shards: seq<Option<Bytes>>) => Reconstruct(k, m, shards))

  lemma EncodedShards(k: nat, m: nat, size: nat, data: seq<Bytes>)
    requires ValidGeometry(k, m) && AreShards(data, k, size)
    ensures AreShards(Encode(k, m, data), m, size)
    ensures forall j :: 0 <= j < m ==> Encode(k, m, data)[j] == ShardAt(Points(k), data, size, k + j)
    ensures AreShards(data + Encode(k, m, data), k + m, size)
  {
    assert ShardSize(data) == size;
  }

  /** Every shard of a code word is the data polynomial's value at its number. */
  lemma CodeWordAt(k: nat, m: nat, size: nat, data: seq<Bytes>, i: nat, b: nat)
    requires ValidGeometry(k, m) && AreShards(data, k, size) && i < k + m && b < size
    ensures var code := data + Encode(k, m, data);
            && |code| == k + m && |code[i]| == size
            && code[i][b] as nat == Eval(Interpolate(Points(k), Column(data, b)), i)
  {
    EncodedShards(k, m, size, data);
    var parity := Encode(k, m, data);
    var code := data + parity;
    if i < k {
      assert code[i] == data[i];
      DataAt(k, size, data, i, b);
    } else {
      assert code[i] == parity[i - k];
      ParityAt(k, m, size, data, i - k, b);
    }
  }

  lemma DataAt(k: nat, size: nat, data: seq<Bytes>, i: nat, b: nat)
    requires k <= 256 && AreShards(data, k, size) && i < k && b < size
    ensures data[i][b] as nat == Eval(Interpolate(Points(k), Column(data, b)), i)
  {
    InterpolateThrough(Points(k), Column(data, b), i);
  }

  lemma ParityAt(k: nat, m: nat, size: nat, data: seq<Bytes>, j: nat, b: nat)
    requires ValidGeometry(k, m) && AreShards(data, k, size) && j < m && b < size
    ensures |Encode(k, m, data)| == m && |Encode(k, m, data)[j]| == size
    ensures Encode(k, m, data)[j][b] as nat == Eval(Interpolate(Points(k), Column(data, b)), k + j)
  {
    EncodedShards(k, m, size, data);
  }

  /** Any k shards of the code word determine every byte of it. */
  lemma AnyShardsDetermine(k: nat, m: nat, size: nat, data: seq<Bytes>, code: seq<Bytes>, xs: seq<Element>, known: seq<Bytes>,
                           i: nat, b: nat)
    requires ValidGeometry(k, m) && AreShards(data, k, size) && AreShards(known, k, size) && i < k + m && b < size
    requires code == data + Encode(k, m, data) && AreShards(code, k + m, size)
    requires |xs| == k && NoDuplicates(xs) && forall t :: 0 <= t < k ==> xs[t] < k + m && known[t] == code[xs[t]]
    ensures Eval(Interpolate(xs, Column(known, b)), i) == code[i][b] as nat
  {
    var p := Interpolate(Points(k), Column(data, b));
    KnownValues(k, m, size, data, code, xs, known, b);
    ColumnDetermined(p, xs, Column(known, b), i);
    KnownValue(k, m, size, data, code, i, code[i], b);
  }

  lemma KnownValues(k: nat, m: nat, size: nat, data: seq<Bytes>, code: seq<Bytes>, xs: seq<Element>, known: seq<Bytes>, b: nat)
    requires ValidGeometry(k, m) && AreShards(data, k, size) && AreShards(known, k, size) && b < size
    requires code == data + Encode(k, m, data) && AreShards(code, k + m, size)
    requires |xs| == k && forall t :: 0 <= t < k ==> xs[t] < k + m && known[t] == code[xs[t]]
    ensures forall t :: 0 <= t < k ==> Eval(Interpolate(Points(k), Column(data, b)), xs[t]) == Column(known, b)[t]
  {
    forall t | 0 <= t < k ensures Eval(Interpolate(Points(k), Column(data, b)), xs[t]) == Column(known, b)[t] {
      KnownValue(k, m, size, data, code, xs[t], known[t], b);
    }
  }

  lemma KnownValue(k: nat, m: nat, size: nat, data: seq<Bytes>, code: seq<Bytes>, x: Element, shard: Bytes, b: nat)
    requires ValidGeometry(k, m) && AreShards(data, k, size) && x < k + m && b < size
    requires code == data + Encode(k, m, data) && AreShards(code, k + m, size) && shard == code[x]
    ensures Eval(Interpolate(Points(k), Column(data, b)), x) == shard[b] as nat
  {
    CodeWordAt(k, m, size, data, x, b);
  }

  lemma ShardDetermined(k: nat, m: nat, size: nat, data: seq<Bytes>, code: seq<Bytes>, xs: seq<Element>, known: seq<Bytes>, i: nat)
    requires ValidGeometry(k, m) && AreShards(data, k, size) && AreShards(known, k, size) && i < k + m
    requires code == data + Encode(k, m, data) && AreShards(code, k + m, size)
    requires |xs| == k && NoDuplicates(xs) && forall t :: 0 <= t < k ==> xs[t] < k + m && known[t] == code[xs[t]]
    ensures ShardAt(xs, known, size, i) == code[i]
  {
    forall b | 0 <= b < size ensures ShardAt(xs, known, size, i)[b] == code[i][b] {
      AnyShardsDetermine(k, m, size, data, code, xs, known, i, b);
    }
  }

  /** The polynomial through k values of p, at k points, is p. */
  lemma ColumnDetermined(p: Poly, xs: seq<Element>, ys: seq<Element>, x: Element)
    requires |p| == |xs| == |ys| && NoDuplicates(xs)
    requires forall t :: 0 <= t < |xs| ==> Eval(p, xs[t]) == ys[t]
    ensures Eval(Interpolate(xs, ys), x) == Eval(p, x)
  {
    forall t | 0 <= t < |xs| ensures Eval(p, xs[t]) == Eval(Interpolate(xs, ys), xs[t]) {
      InterpolateThrough(xs, ys, t);
    }
    Uniqueness(p, Interpolate(xs, ys), xs, x);
  }

  lemma LibraryCorrects(k: nat, m: nat, size: nat, data: seq<Bytes>)
    requires ValidGeometry(k, m) && AreShards(data, k, size)
    ensures Corrects(LIBRARY, k, m, size, data)
  {
    var code := data + Encode(k, m, data);
    EncodedShards(k, m, size, data);
    forall shards | Agrees(shards, code) && Missing(shards) <= m
      ensures LIBRARY.reconstruct(k, m, shards) == Some(code) {
      ReconstructsCode(k, m, size, data, shards);
    }
  }

  lemma ReconstructsCode(k: nat, m: nat, size: nat, data: seq<Bytes>, shards: seq<Option<Bytes>>)
    requires ValidGeometry(k, m) && AreShards(data, k, size)
    requires AreShards(data + Encode(k, m, data), k + m, size)
    requires Agrees(shards, data + Encode(k, m, data)) && Missing(shards) <= m
    ensures Reconstruct(k, m, shards) == Some(data + Encode(k, m, data))
  {
    var code := data + Encode(k, m, data);
    var xs := Present(shards, 0);
    var known := seq(k, i requires 0 <= i < k => shards[xs[i]].value);
    var points: seq<Element> := seq(k, i requires 0 <= i < k => xs[i]);
    assert AreShards(known, k, size) && ShardSize(known) == size;
    forall i | 0 <= i < k + m ensures ShardAt(points, known, size, i) == code[i] {
      ShardDetermined(k, m, size, data, code, points, known, i);
    }
    assert Reconstruct(k, m, shards).value == code;
  }

  /** The contract on the library is inhabited. */
  lemma LibraryIsErasureCode()
    ensures IsErasureCode(LIBRARY)
  {
    forall k: nat, m: nat, size: nat, data | ValidGeometry(k, m) && AreShards(data, k, size)
      ensures Corrects(LIBRARY, k, m, size, data) {
      LibraryCorrects(k, m, size, data);
    }
  }
}
