/**
 * Pack repair from the `.par` sibling: the object layout, the writer it must
 * stay compatible with, the CRC-marked erasures and the repair itself.
 * The checksum is a parameter, and so is the Reed-Solomon codec.
 */
module Parity {
  import opened Basics
  import opened ErasureCode

  type Word = x: nat | x < 0x1_0000_0000

  type Checksum = Bytes -> Word

  const PAR_MAGIC: Bytes := [0x42, 0x4B, 0x50, 0x52]
  const PAR_VERSION: nat := 1
  const PAR_HEADER_LEN: nat := 46
  const ID_LEN: nat := 16

  /** A `.par` object that does not check out, too many corrupt shards, or a codec failure. */
  datatype ParityError = Malformed | IntegrityMismatch(budget: nat, corrupt: nat) | CodecError

  datatype ParFile = ParFile(k: nat, m: nat, shardSize: nat, packLen: nat, crcs: seq<nat>, parity: seq<Bytes>)

  datatype RepairOutcome = RepairOutcome(bytes: Bytes, repaired: bool, erasures: nat)

  // ---- big-endian integers -----------------------------------------------------

  function Pow256(width: nat): nat {
    if width == 0 then 1 else 256 * Pow256(width - 1)
  }

  function ToBigEndian(n: nat, width: nat): (b: Bytes)
    ensures |b| == width
  {
    if width == 0 then [] else ToBigEndian(n / 256, width - 1) + [(n % 256) as byte]
  }

  function FromBigEndian(b: Bytes): nat {
    if b == [] then 0 else FromBigEndian(b[..|b| - 1]) * 256 + b[|b| - 1] as nat
  }

  lemma {:induction false} BigEndianRoundTrip(n: nat, width: nat)
    requires n < Pow256(width)
    ensures FromBigEndian(ToBigEndian(n, width)) == n
  {
    if width > 0 {
      BigEndianRoundTrip(n / 256, width - 1);
      var b := ToBigEndian(n, width);
      assert b[..|b| - 1] == ToBigEndian(n / 256, width - 1);
    }
  }

  lemma Widths()
    ensures Pow256(2) == 0x1_0000 && Pow256(4) == 0x1_0000_0000 && Pow256(8) == 0x1_0000_0000_0000_0000
  {
    assert Pow256(4) == 256 * (256 * Pow256(2));
    assert Pow256(6) == 256 * (256 * Pow256(4));
    assert Pow256(8) == 256 * (256 * Pow256(6));
  }

  // ---- shards ------------------------------------------------------------------------

  /** The byte at `at` of the pack continued with zeros. */
  function ByteAt(pack: Bytes, at: nat): byte {
    if at < |pack| then pack[at] else 0
  }

  /** `len` bytes of the zero-padded pack. */
  function Window(pack: Bytes, from: nat, len: nat): (w: Bytes)
    ensures |w| == len && forall x :: 0 <= x < len ==> w[x] == ByteAt(pack, from + x)
  {
    seq(len, x requires 0 <= x < len => ByteAt(pack, from + x))
  }

  /** Shards `i` to `k` of the pack cut into pieces of `size`. */
  function ShardsFrom(pack: Bytes, i: nat, k: nat, size: nat): (shards: seq<Bytes>)
    requires i <= k
    ensures AreShards(shards, k - i, size)
    ensures forall j :: i <= j < k ==> shards[j - i] == Window(pack, j * size, size)
    decreases k - i
  {
    if i == k then [] else [Window(pack, i * size, size)] + ShardsFrom(pack, i + 1, k, size)
  }

  function DataShards(pack: Bytes, k: nat, size: nat): seq<Bytes> {
    ShardsFrom(pack, 0, k, size)
  }

  /** One zero-padded piece. */
  method CutShard(pack: Bytes, start: nat, size: nat) returns (shard: Bytes)
    ensures shard == Window(pack, start, size)
  {
    shard := Zeros(size);
    if start < |pack| {
      var end := Min(start + size, |pack|);
      shard := pack[start..end] + shard[end - start..];
    }
  }

  /** `split_data_shards`. */
  method SplitDataShards(pack: Bytes, k: nat, size: nat) returns (shards: seq<Bytes>)
    ensures shards == DataShards(pack, k, size)
  {
    shards := [];
    for i := 0 to k
      invariant |shards| == i
      invariant forall j :: 0 <= j < i ==> shards[j] == Window(pack, j * size, size)
    {
      var shard := CutShard(pack, i * size, size);
      shards := shards + [shard];
    }
    forall j | 0 <= j < k ensures shards[j] == DataShards(pack, k, size)[j] {
      assert DataShards(pack, k, size)[j - 0] == Window(pack, j * size, size);
    }
  }

  lemma WindowSplit(pack: Bytes, from: nat, a: nat, b: nat)
    ensures Window(pack, from, a) + Window(pack, from + a, b) == Window(pack, from, a + b)
  {
  }

  /** The shards side by side are the zero-padded pack. */
  lemma {:induction false} FlattenShards(pack: Bytes, i: nat, k: nat, size: nat)
    requires i <= k
    ensures Flatten(ShardsFrom(pack, i, k, size)) == Window(pack, i * size, (k - i) * size)
    decreases k - i
  {
    if i < k {
      FlattenShards(pack, i + 1, k, size);
      var shards := ShardsFrom(pack, i, k, size);
      assert shards[0] == Window(pack, i * size, size);
      assert shards[1..] == ShardsFrom(pack, i + 1, k, size);
      NextStart(i, size);
      OneLess(k - i, size);
      JoinedWindows(pack, shards, i * size, size, (k - i - 1) * size);
    } else {
      OneLess(0, size);
    }
  }

  lemma NextStart(i: nat, size: nat)
    ensures (i + 1) * size == i * size + size && i * size >= 0
  {
  }

  lemma JoinedWindows(pack: Bytes, shards: seq<Bytes>, from: nat, a: nat, b: nat)
    requires |shards| > 0 && shards[0] == Window(pack, from, a) && Flatten(shards[1..]) == Window(pack, from + a, b)
    ensures Flatten(shards) == Window(pack, from, a + b)
  {
    WindowSplit(pack, from, a, b);
  }

  lemma WindowOfWhole(pack: Bytes, total: nat)
    requires |pack| <= total
    ensures Window(pack, 0, total)[..|pack|] == pack
  {
  }

  // ---- the writer's side -------------------------------------------------------------

  lemma CeilDiv(a: nat, k: nat)
    requires k >= 1
    ensures a <= k * ((a + k - 1) / k)
    ensures (a + k - 1) / k <= a
  {
    var q, r := (a + k - 1) / k, (a + k - 1) % k;
    assert a + k - 1 == k * q + r;
    if q > a {
      Product(k, q, a);
    }
  }

  lemma Product(k: nat, q: nat, a: nat)
    requires k >= 1 && q >= a + 1
    ensures k * q >= a + k
  {
    Grows(k, a + 1, q);
    Distributes(k, a, 1);
    AtLeast(k, a);
  }

  lemma Grows(k: nat, x: nat, y: nat)
    requires x <= y
    ensures k * x <= k * y
  {
  }

  lemma AtLeast(k: nat, a: nat)
    requires k >= 1
    ensures k * a >= a
  {
  }

  lemma Distributes(k: int, x: int, y: int)
    ensures k * (x + y) == k * x + k * y
  {
  }

  /** `pack_len.div_ceil(k).max(1)`. */
  function ShardSizeFor(packLen: nat, k: nat): (size: nat)
    requires k >= 1
    ensures size >= 1 && packLen <= k * size && size <= Max(packLen, 1)
  {
    CeilDiv(packLen, k);
    Max((packLen + k - 1) / k, 1)
  }

  function Header(id: Bytes, k: nat, m: nat, shardSize: nat, packLen: nat): (h: Bytes)
    ensures |h| == |id| + 26
  {
    PAR_MAGIC + ToBigEndian(PAR_VERSION, 2) + id + ToBigEndian(k, 2) + ToBigEndian(m, 2)
    + ToBigEndian(shardSize, 8) + ToBigEndian(packLen, 8)
  }

  function CrcTable(crcs: seq<nat>): (t: Bytes)
    ensures |t| == 4 * |crcs|
  {
    if crcs == [] then [] else ToBigEndian(crcs[0], 4) + CrcTable(crcs[1..])
  }

  function CrcsOf(crc: Checksum, shards: seq<Bytes>): (crcs: seq<nat>)
    ensures |crcs| == |shards| && forall i :: 0 <= i < |shards| ==> crcs[i] == crc(shards[i])
  {
    seq(|shards|, i requires 0 <= i < |shards| => crc(shards[i]))
  }

  /** All shards of a pack: data, then parity. */
  function CodeWord(codec: Codec, pack: Bytes, k: nat, m: nat): seq<Bytes>
    requires ValidGeometry(k, m)
  {
    var data := DataShards(pack, k, ShardSizeFor(|pack|, k));
    data + codec.encode(k, m, data)
  }

  /** Everything before the parity shards: header, its checksum, and the checksum table. */
  function Preamble(crc: Checksum, id: Bytes, packLen: nat, k: nat, m: nat, size: nat, code: seq<Bytes>): Bytes {
    var h := Header(id, k, m, size, packLen);
    h + ToBigEndian(crc(h), 4) + CrcTable(CrcsOf(crc, code))
  }

  /** The `.par` object of a pack, as the writer lays it out. */
  function EncodeParity(codec: Codec, crc: Checksum, pack: Bytes, id: Bytes, k: nat, m: nat): Result<Bytes, string> {
    if !ValidGeometry(k, m) then Err("invalid geometry")
    else
      var code := CodeWord(codec, pack, k, m);
      Ok(Preamble(crc, id, |pack|, k, m, ShardSizeFor(|pack|, k), code)
         + Flatten(if k <= |code| then code[k..] else []))
  }

  // ---- reading a `.par` object -----------------------------------------------------------

  /** The stored checksum table. */
  function StoredCrcs(par: Bytes, n: nat): (crcs: seq<nat>)
    requires |par| >= PAR_HEADER_LEN + 4 * n
    ensures |crcs| == n
    ensures forall i :: 0 <= i < n ==> crcs[i] == FromBigEndian(par[PAR_HEADER_LEN + 4 * i..PAR_HEADER_LEN + 4 * i + 4])
  {
    seq(n, i requires 0 <= i < n => FromBigEndian(par[PAR_HEADER_LEN + 4 * i..PAR_HEADER_LEN + 4 * i + 4]))
  }

  lemma OneLess(m: nat, size: nat)
    ensures m > 0 ==> m * size == size + (m - 1) * size
    ensures m * size >= 0
  {
  }

  /** The stored parity shards, one after another from `at`. */
  function StoredParity(par: Bytes, at: nat, m: nat, size: nat): (parity: seq<Bytes>)
    requires at + m * size <= |par|
    ensures AreShards(parity, m, size)
    decreases m
  {
    OneLess(m, size);
    if m == 0 then [] else
      OneLess(m - 1, size);
      [par[at..at + size]] + StoredParity(par, at + size, m - 1, size)
  }

  function Geometry(par: Bytes): (nat, nat, nat, nat)
    requires |par| >= PAR_HEADER_LEN
  {
    (FromBigEndian(par[22..24]), FromBigEndian(par[24..26]), FromBigEndian(par[26..34]), FromBigEndian(par[34..42]))
  }

  /** What the checks before the table amount to. */
  predicate HeaderAccepted(crc: Checksum, par: Bytes, id: Bytes) {
    && |par| >= PAR_HEADER_LEN
    && par[0..4] == PAR_MAGIC
    && FromBigEndian(par[4..6]) == PAR_VERSION
    && crc(par[0..42]) == FromBigEndian(par[42..46])
    && par[6..22] == id
    && var (k, m, size, _) := Geometry(par);
       ValidGeometry(k, m) && size > 0 && |par| >= PAR_HEADER_LEN + (k + m) * 4 + m * size
  }

  /** Table and parity behind a header with these fields. */
  function ReadBody(par: Bytes, k: nat, m: nat, size: nat, packLen: nat): ParFile
    requires |par| >= PAR_HEADER_LEN + (k + m) * 4 + m * size
  {
    OneLess(m, size);
    ParFile(k, m, size, packLen, StoredCrcs(par, k + m), StoredParity(par, PAR_HEADER_LEN + (k + m) * 4, m, size))
  }

  /** Every field, read off an accepted object. */
  function ReadPar(par: Bytes): ParFile
    requires |par| >= PAR_HEADER_LEN
    requires var (k, m, size, _) := Geometry(par); |par| >= PAR_HEADER_LEN + (k + m) * 4 + m * size
  {
    var g := Geometry(par);
    ReadBody(par, g.0, g.1, g.2, g.3)
  }

  /** `parse_par`: accepts exactly the objects whose header checks out, and reads off every field. */
  method ParsePar(crc: Checksum, par: Bytes, id: Bytes) returns (r: Result<ParFile, ParityError>)
    ensures r == if HeaderAccepted(crc, par, id) then Ok(ReadPar(par)) else Err(Malformed)
  {
    if |par| < PAR_HEADER_LEN {
      return Err(Malformed);
    }
    if par[0..4] != PAR_MAGIC {
      return Err(Malformed);
    }
    if FromBigEndian(par[4..6]) != PAR_VERSION {
      return Err(Malformed);
    }
    if crc(par[0..42]) != FromBigEndian(par[42..46]) {
      return Err(Malformed);
    }
    if par[6..22] != id {
      return Err(Malformed);
    }
    var k := FromBigEndian(par[22..24]);
    var m := FromBigEndian(par[24..26]);
    var size := FromBigEndian(par[26..34]);
    var packLen := FromBigEndian(par[34..42]);
    if k == 0 || m == 0 || k + m > 256 || size == 0 {
      return Err(Malformed);
    }
    OneLess(m, size);
    if |par| < PAR_HEADER_LEN + (k + m) * 4 + m * size {
      return Err(Malformed);
    }
    var file := ReadFields(par, k, m, size, packLen);
    r := Ok(file);
  }

  /** Table and parity, one field after another. */
  method ReadFields(par: Bytes, k: nat, m: nat, size: nat, packLen: nat) returns (file: ParFile)
    requires |par| >= PAR_HEADER_LEN + (k + m) * 4 + m * size && m * size >= 0
    ensures file == ReadBody(par, k, m, size, packLen)
  {
    var crcs := ReadTable(par, k + m);
    var parity := ReadParity(par, PAR_HEADER_LEN + (k + m) * 4, m, size);
    file := ParFile(k, m, size, packLen, crcs, parity);
  }

  method ReadTable(par: Bytes, n: nat) returns (crcs: seq<nat>)
    requires |par| >= PAR_HEADER_LEN + 4 * n
    ensures crcs == StoredCrcs(par, n)
  {
    crcs := [];
    var off := PAR_HEADER_LEN;
    for i := 0 to n
      invariant off == PAR_HEADER_LEN + 4 * i && |crcs| == i
      invariant forall j :: 0 <= j < i ==> crcs[j] == FromBigEndian(par[PAR_HEADER_LEN + 4 * j..PAR_HEADER_LEN + 4 * j + 4])
    {
      crcs := crcs + [FromBigEndian(par[off..off + 4])];
      off := off + 4;
    }
  }

  method ReadParity(par: Bytes, at: nat, m: nat, size: nat) returns (parity: seq<Bytes>)
    requires at + m * size <= |par|
    ensures parity == StoredParity(par, at, m, size)
  {
    parity := [];
    var off: nat := at;
    var left: nat := m;
    while left > 0
      invariant left <= m && off + left * size <= |par|
      invariant parity + StoredParity(par, off, left, size) == StoredParity(par, at, m, size)
    {
      OneLess(left, size);
      OneLess(left - 1, size);
      parity := parity + [par[off..off + size]];
      off := off + size;
      left := left - 1;
    }
  }

  // ---- the repair ------------------------------------------------------------------------------

  /** A shard whose checksum differs from the stored one is an erasure. */
  function Marked(crc: Checksum, shards: seq<Bytes>, crcs: seq<nat>): (marked: seq<Option<Bytes>>)
    requires |shards| <= |crcs|
    ensures |marked| == |shards|
    ensures forall i :: 0 <= i < |shards| ==> marked[i] == if crc(shards[i]) == crcs[i] then Some(shards[i]) else None
  {
    seq(|shards|, i requires 0 <= i < |shards| => if crc(shards[i]) == crcs[i] then Some(shards[i]) else None)
  }

  /** All shards as stored: cut from the pack, then the parity. */
  function SeenShards(pack: Bytes, file: ParFile): seq<Bytes> {
    DataShards(pack, file.k, file.shardSize) + file.parity
  }

  function Truncated(bytes: Bytes, len: nat): Bytes {
    if len <= |bytes| then bytes[..len] else bytes
  }

  /** What the repair answers, as a function of the two stored objects. */
  function Repaired(codec: Codec, crc: Checksum, pack: Bytes, par: Bytes, id: Bytes): Result<RepairOutcome, ParityError> {
    if !HeaderAccepted(crc, par, id) then Err(Malformed)
    else
      var file := ReadPar(par);
      var shards := Marked(crc, SeenShards(pack, file), file.crcs);
      var erasures := Missing(shards);
      if erasures == 0 then Ok(RepairOutcome(pack, false, 0))
      else if erasures > file.m then Err(IntegrityMismatch(file.m, erasures))
      else match codec.reconstruct(file.k, file.m, shards)
        case None => Err(CodecError)
        case Some(code) =>
          Ok(RepairOutcome(Truncated(Flatten(if file.k <= |code| then code[..file.k] else code), file.packLen), true, erasures))
  }

  lemma {:induction false} MissingSnoc(shards: seq<Option<Bytes>>, last: Option<Bytes>)
    ensures Missing(shards + [last]) == Missing(shards) + (if last.None? then 1 else 0)
  {
    if shards == [] {
      assert [last][1..] == [] && shards + [last] == [last];
    } else {
      MissingSnoc(shards[1..], last);
      assert (shards + [last])[1..] == shards[1..] + [last];
    }
  }

  lemma {:induction false} MissingAppend(a: seq<Option<Bytes>>, b: seq<Option<Bytes>>)
    ensures Missing(a + b) == Missing(a) + Missing(b)
  {
    if a == [] {
      assert a + b == b;
    } else {
      MissingAppend(a[1..], b);
      assert (a + b)[1..] == a[1..] + b;
    }
  }

  lemma MarkedAppend(crc: Checksum, a: seq<Bytes>, b: seq<Bytes>, crcs: seq<nat>)
    requires |crcs| == |a| + |b|
    ensures Marked(crc, a + b, crcs) == Marked(crc, a, crcs[..|a|]) + Marked(crc, b, crcs[|a|..])
  {
  }

  /** One of the two marking loops of `repair_pack`; `crcs` are the table entries of these shards. */
  method MarkErasures(crc: Checksum, shards: seq<Bytes>, crcs: seq<nat>) returns (marked: seq<Option<Bytes>>, erasures: nat)
    requires |crcs| == |shards|
    ensures marked == Marked(crc, shards, crcs) && erasures == Missing(marked)
  {
    marked := [];
    erasures := 0;
    for i := 0 to |shards|
      invariant erasures == Missing(marked) && marked == Marked(crc, shards, crcs)[..i]
    {
      var next := None;
      if crc(shards[i]) == crcs[i] {
        next := Some(shards[i]);
      } else {
        erasures := erasures + 1;
      }
      MissingSnoc(marked, next);
      marked := marked + [next];
    }
  }

  /** `repair_pack`. */
  method RepairPack(codec: Codec, crc: Checksum, pack: Bytes, par: Bytes, id: Bytes)
    returns (r: Result<RepairOutcome, ParityError>)
    ensures r == Repaired(codec, crc, pack, par, id)
  {
    var parsed := ParsePar(crc, par, id);
    if parsed.Err? {
      return Err(parsed.error);
    }
    var file := parsed.value;
    var dataShards := SplitDataShards(pack, file.k, file.shardSize);
    var data, dataErasures := MarkErasures(crc, dataShards, file.crcs[..file.k]);
    var parity, parityErasures := MarkErasures(crc, file.parity, file.crcs[file.k..]);
    var shards := data + parity;
    var erasures := dataErasures + parityErasures;
    MissingAppend(data, parity);
    MarkedAppend(crc, dataShards, file.parity, file.crcs);
    if erasures == 0 {
      return Ok(RepairOutcome(pack, false, 0));
    }
    if erasures > file.m {
      return Err(IntegrityMismatch(file.m, erasures));
    }
    var code := codec.reconstruct(file.k, file.m, shards);
    if code.None? {
      return Err(CodecError);
    }
    var repaired := Flatten(if file.k <= |code.value| then code.value[..file.k] else code.value);
    r := Ok(RepairOutcome(Truncated(repaired, file.packLen), true, erasures));
  }
}
