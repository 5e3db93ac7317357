/**
 * One small pack in storage, damaged in two ways that its parity undoes: a byte
 * changed in place, and the end cut off.  Both are cases the restore does not
 * always get to repair.
 */
module RepairExamples {
  import opened Basics
  import opened ChunkFetch
  import opened PackPath
  import opened Parity
  import opened RepairTheorems
  import opened RestoreFile
  import PackObject
  import ReedSolomon

  /** The last byte of a sealed text, and the first of a compressed one. */
  const TAG: byte := 42
  const FRAME: byte := 1

  function Unsealed(ciphertext: Bytes): Option<Bytes> {
    if ciphertext != [] && ciphertext[|ciphertext| - 1] == TAG then Some(ciphertext[..|ciphertext| - 1]) else None
  }

  function Inflated(b: Bytes): Option<Bytes> {
    if b != [] && b[0] == FRAME then Some(b[1..]) else None
  }

  /** A cipher that only adds a tag, a compressor that only adds a frame, and a chunk that is its own identity. */
  const PLAIN_CRYPTO := Crypto((_, _, ciphertext) => Unsealed(ciphertext), (b: Bytes) => Inflated(b), (b: Bytes) => b)

  const PLAIN_SEALER := Sealer((_, _, b) => b + [TAG], (b: Bytes) => [FRAME] + b)

  /** The contract of writer and reader can be met, with a compressor that changes everything. */
  lemma PlainOpens(c: Crypto, w: Sealer)
    requires c == PLAIN_CRYPTO && w == PLAIN_SEALER
    ensures Opens(c, w) && CollisionFree(c) && forall x :: w.deflate(x) != x
  {
    forall id, nonce, x | |nonce| == NONCE_LEN ensures c.open(id, nonce, w.seal(id, nonce, x)) == Some(x) {
      assert (x + [TAG])[..|x|] == x;
    }
    forall x ensures c.inflate(w.deflate(x)) == Some(x) && w.deflate(x) != x {
      assert ([FRAME] + x)[1..] == x;
      assert |w.deflate(x)| == |x| + 1;
    }
  }

  predicate OnlyZeros(b: Bytes) {
    forall i :: 0 <= i < |b| ==> b[i] == 0
  }

  /** Tells zeros from anything else, which is all these examples need. */
  const ZERO_CHECK: Checksum := (b: Bytes) => if OnlyZeros(b) then 0 else 1

  const ID := Zeros(16)

  const TOOLS := Tools(PLAIN_CRYPTO, ReedSolomon.LIBRARY, ZERO_CHECK, (_) => Some(ID))

  /** A nonce of zeros and one byte of content as sealed, four bytes into the pack. */
  const PACK: Bytes := Zeros(16) + [FRAME, 7, TAG]

  const CHUNK: Bytes := [7]

  const STEM := "a"

  const PATH := STEM + PACK_SUFFIX

  /** The chunk of that pack, the writer's parity of it, and what storage holds in its place. */
  datatype Example = Example(tools: Tools, pack: Bytes, k: nat, m: nat, path: string, chunk: Bytes, offset: nat, size: nat,
                             par: Bytes, bad: Bytes)

  /** One data shard and one parity shard, and the pack replaced by `n` zeros. */
  ghost predicate ZeroedTo(e: Example, n: nat) {
    && e == Example(TOOLS, PACK, 1, 1, PATH, CHUNK, 0, 15, e.par, Zeros(n))
    && EncodeParity(ReedSolomon.LIBRARY, ZERO_CHECK, e.pack, ID, e.k, e.m) == Ok(e.par)
  }

  function Holding(e: Example, ranges: PackObject.RangeMode): Storage {
    Storage(map[PATH := e.bad, STEM + PAR_SUFFIX := e.par], {}, ranges)
  }

  /** The examples are there. */
  lemma ExampleOf(n: nat) returns (e: Example)
    ensures ZeroedTo(e, n)
  {
    var pack, k, m := PACK, 1, 1;
    var par := EncodeParity(ReedSolomon.LIBRARY, ZERO_CHECK, pack, ID, k, m).value;
    e := Example(TOOLS, pack, k, m, PATH, CHUNK, 0, 15, par, Zeros(n));
  }

  lemma PathsApart()
    ensures PATH != STEM + PAR_SUFFIX
    ensures ParSiblingPath(TOOLS.parseUuid, PATH) == Some(STEM + PAR_SUFFIX) && PackIdFromPath(TOOLS.parseUuid, PATH) == Some(ID)
  {
    assert |PATH| == 6 && |STEM + PAR_SUFFIX| == 5;
    SiblingOf(TOOLS.parseUuid, "", STEM, PACK_SUFFIX, ID);
    assert "" + STEM + PACK_SUFFIX == PATH && "" + STEM + PAR_SUFFIX == STEM + PAR_SUFFIX;
  }

  /** Any replacement of the pack by zeros, shorter or not, is undone by the repair. */
  lemma ZerosAreUndone(e: Example, n: nat)
    requires ZeroedTo(e, n) && n <= 19
    ensures Repaired(e.tools.codec, e.tools.crc, e.bad, e.par, ID) == Ok(RepairOutcome(e.pack, true, 1))
  {
    ReedSolomon.LibraryIsErasureCode();
    SizeOfOne(|e.pack|, e.k);
    WindowsDiffer(e.pack, e.bad, 19);
    OneShardIsUndone(ReedSolomon.LIBRARY, ZERO_CHECK, e.pack, ID, e.k, e.m, e.bad, 0);
  }

  lemma SizeOfOne(len: nat, k: nat)
    requires k == 1 && len >= 1
    ensures ShardSizeFor(len, k) == len
  {
  }

  lemma WindowsDiffer(pack: Bytes, bad: Bytes, size: nat)
    requires pack == PACK && size == 19 && OnlyZeros(bad)
    ensures ZERO_CHECK(ShardOf(bad, 0, size)) != ZERO_CHECK(ShardOf(pack, 0, size))
  {
    assert 0 * size == 0;
    assert Window(pack, 0, size)[17] == 7;
  }

  function Fetch(e: Example, ranges: PackObject.RangeMode): Result<Bytes, FetchError> {
    FetchChunkRanged(e.tools, Holding(e, ranges), e.path, e.offset, e.size, e.chunk)
  }

  lemma RepairReads(e: Example, n: nat, ranges: PackObject.RangeMode)
    requires ZeroedTo(e, n) && n <= 19
    ensures Get(Holding(e, ranges), e.path) == Ok(e.bad)
    ensures RepairAndDecode(e.tools, Holding(e, ranges), e.path, e.offset, e.size, e.chunk) == Ok(e.chunk)
  {
    PathsApart();
    ZerosAreUndone(e, n);
    RepairedSlice(e.tools, Holding(e, ranges), e.path, ID, e.bad, e.par, RepairOutcome(e.pack, true, 1), e.offset, e.size, e.chunk);
    PackDecodes(e.tools.crypto, e.pack[4..19], e.chunk);
  }

  lemma PackDecodes(c: Crypto, encrypted: Bytes, chunk: Bytes)
    requires c == PLAIN_CRYPTO && chunk == CHUNK && encrypted == PACK[4..19]
    ensures Decode(c, encrypted, chunk) == Ok(chunk)
  {
    PlainOpens(c, PLAIN_SEALER);
    SealedDecodes(c, PLAIN_SEALER, Zeros(12), chunk);
    assert encrypted == SealedChunk(c, PLAIN_SEALER, Zeros(12), chunk);
  }

  /** Zeros never decode as the chunk. */
  lemma ZerosDoNotDecode(c: Crypto, zeros: Bytes, chunk: Bytes)
    requires c == PLAIN_CRYPTO && chunk == CHUNK && OnlyZeros(zeros)
    ensures Decode(c, zeros, chunk) == if |zeros| < 12 then Err(TooShort) else Err(NotAuthentic)
  {
    if |zeros| >= 12 {
      var rest := zeros[12..];
      assert rest != [] ==> rest[|rest| - 1] == zeros[|zeros| - 1] == 0;
    }
  }

  /** Wherever a range of zeros is served, it does not decode. */
  lemma ServedZeros(c: Crypto, s: Storage, path: string, bad: Bytes, from: nat, to: nat, chunk: Bytes) returns (served: Bytes)
    requires c == PLAIN_CRYPTO && chunk == CHUNK && OnlyZeros(bad) && Get(s, path) == Ok(bad)
    requires PackObject.RangeServed(s.ranges, |bad|, from, to)
    ensures GetRange(s, path, from, to) == Ok(served) && served == bad[Min(from, |bad|)..Min(to, |bad|)]
    ensures Decode(c, served, chunk) == if |served| < 12 then Err(TooShort) else Err(NotAuthentic)
  {
    served := bad[Min(from, |bad|)..Min(to, |bad|)];
    ZerosDoNotDecode(c, served, chunk);
  }

  /** There the repair answers. */
  lemma ReadByRepair(t: Tools, s: Storage, path: string, bad: Bytes, offset: nat, size: nat, chunk: Bytes)
    requires t.crypto == PLAIN_CRYPTO && chunk == CHUNK && OnlyZeros(bad) && Get(s, path) == Ok(bad)
    requires PackObject.RangeServed(s.ranges, |bad|, offset + 4, offset + 4 + size)
    requires RepairAndDecode(t, s, path, offset, size, chunk) == Ok(chunk)
    ensures FetchChunkRanged(t, s, path, offset, size, chunk) == Ok(chunk)
  {
    var served := ServedZeros(t.crypto, s, path, bad, offset + 4, offset + 4 + size, chunk);
    RepairAnswers(t, s, path, offset, size, chunk, served, chunk);
  }

  lemma ServedIsRepaired(e: Example, n: nat, ranges: PackObject.RangeMode)
    requires ZeroedTo(e, n) && n <= 19 && PackObject.RangeServed(ranges, |e.bad|, e.offset + 4, e.offset + 4 + e.size)
    ensures Fetch(e, ranges) == Ok(e.chunk)
  {
    RepairReads(e, n, ranges);
    ReadByRepair(e.tools, Holding(e, ranges), e.path, e.bad, e.offset, e.size, e.chunk);
  }

  /**
   * A pack that lost its last byte: the repair would read the chunk, and does
   * where ranges are served short, but storage that refuses a range past the end
   * fails the fetch before it.
   */
  lemma CutOffIsLost() returns (e: Example)
    ensures ZeroedTo(e, 18)
    ensures RepairAndDecode(e.tools, Holding(e, PackObject.Strict), e.path, e.offset, e.size, e.chunk) == Ok(e.chunk)
    ensures Fetch(e, PackObject.Strict) == Err(BadRange)
    ensures Fetch(e, PackObject.CutAtEnd) == Ok(e.chunk) && Fetch(e, PackObject.Clipped) == Ok(e.chunk)
  {
    e := ExampleOf(18);
    RepairReads(e, 18, PackObject.Strict);
    RangeRefused(e.tools, Holding(e, PackObject.Strict), e.path, e.bad, e.offset, e.size, e.chunk);
    ServedIsRepaired(e, 18, PackObject.CutAtEnd);
    ServedIsRepaired(e, 18, PackObject.Clipped);
  }

  /** Where a full restore finds the chunk, or a restore of this one file. */
  function Finding(e: Example, worker: bool): Sources {
    Sources(e.tools, Holding(e, PackObject.Strict), Some((_) => Some(PackObject.Location(e.path, e.offset, e.size))), {}, (_) => "", worker)
  }

  /** A byte changed in place: the single-file restore repairs it, a worker of a full restore reports an error. */
  lemma WorkerFailsOnRepairable() returns (e: Example)
    ensures ZeroedTo(e, 19)
    ensures ReadChunk(Finding(e, false), {}, e.chunk, Calm) == Ok(e.chunk)
    ensures ReadChunk(Finding(e, true), {}, e.chunk, Calm) == Err(NotAuthentic)
  {
    e := ExampleOf(19);
    ServedIsRepaired(e, 19, PackObject.Strict);
    SingleAsks(e);
    RepairReads(e, 19, PackObject.Strict);
    WorkerSeesZeros(Finding(e, true), PackObject.Location(e.path, e.offset, e.size), e.bad, e.chunk);
  }

  lemma SingleAsks(e: Example)
    ensures ReadChunk(Finding(e, false), {}, e.chunk, Calm) == Fetch(e, PackObject.Strict)
  {
  }

  lemma WorkerSeesZeros(src: Sources, loc: PackObject.Location, bad: Bytes, chunk: Bytes)
    requires src.worker && src.multi == {} && src.tools.crypto == PLAIN_CRYPTO && chunk == CHUNK && OnlyZeros(bad)
    requires Located(src, chunk) == Some(loc) && Get(src.storage, loc.pack) == Ok(bad)
    requires loc.offset + 4 + loc.size <= |bad| && loc.size >= 12
    ensures ReadChunk(src, {}, chunk, Calm) == Err(NotAuthentic)
  {
    var served := ServedZeros(src.tools.crypto, src.storage, loc.pack, bad, loc.offset + 4, loc.offset + 4 + loc.size, chunk);
  }
}
