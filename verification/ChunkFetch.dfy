/**
 * Fetching one chunk: decryption with its identity check, the ranged fetch and
 * its repair path.  The cipher, the decompressor, the keyed identity and the
 * UUID parser are parameters, and so is what storage does with a range that
 * ends past its object.
 */
module ChunkFetch {
  import opened Basics
  import opened ErasureCode
  import opened Parity
  import opened PackPath
  import opened RepairTheorems
  import PackObject

  type ChunkId = PackObject.ChunkId
  type RangeMode = PackObject.RangeMode

  /** `open` is the authenticated decryption of nonce and ciphertext with the chunk id as associated data. */
  datatype Crypto = Crypto(
    open: (ChunkId, Bytes, Bytes) -> Option<Bytes>,
    inflate: Bytes -> Option<Bytes>,
    keyedId: Bytes -> ChunkId)

  datatype FetchError =
    | NoObject(path: string) | Unreachable(path: string) | BadRange
    | TooShort | NotAuthentic | NotInflatable | WrongId
    | NotAPack | NoParity | Unrepairable(reason: ParityError) | Overrun
    | SkippedPack(pack: string) | Cancelled | DiskError

  /** Stored objects, the paths whose requests fail for a reason other than absence, and the way with ranges. */
  datatype Storage = Storage(objects: map<string, Bytes>, down: set<string>, ranges: RangeMode)

  datatype Tools = Tools(crypto: Crypto, codec: Codec, crc: Checksum, parseUuid: string -> Option<Bytes>)

  function Get(s: Storage, path: string): Result<Bytes, FetchError> {
    if path in s.down then Err(Unreachable(path))
    else if path !in s.objects then Err(NoObject(path))
    else Ok(s.objects[path])
  }

  function GetRange(s: Storage, path: string, from: nat, to: nat): Result<Bytes, FetchError> {
    match Get(s, path)
    case Err(e) => Err(e)
    case Ok(obj) =>
      match PackObject.GetRange(s.ranges, obj, from, to)
      case Err(_) => Err(BadRange)
      case Ok(bytes) => Ok(bytes)
  }

  // ---- decrypt, decompress, check ------------------------------------------------

  const NONCE_LEN: nat := 12

  /** `decrypt_and_decompress`. */
  function Decode(c: Crypto, encrypted: Bytes, id: ChunkId): Result<Bytes, FetchError> {
    if |encrypted| < NONCE_LEN then Err(TooShort)
    else match c.open(id, encrypted[..NONCE_LEN], encrypted[NONCE_LEN..])
      case None => Err(NotAuthentic)
      case Some(compressed) =>
        match c.inflate(compressed)
        case None => Err(NotInflatable)
        case Some(plain) => if c.keyedId(plain) != id then Err(WrongId) else Ok(plain)
  }

  /** The writer's side: `deflate` compresses, `seal` encrypts under the chunk id and a nonce. */
  datatype Sealer = Sealer(seal: (ChunkId, Bytes, Bytes) -> Bytes, deflate: Bytes -> Bytes)

  /** The reader undoes what the writer does. */
  ghost predicate Opens(c: Crypto, w: Sealer) {
    && (forall id, nonce, x :: |nonce| == NONCE_LEN ==> c.open(id, nonce, w.seal(id, nonce, x)) == Some(x))
    && (forall x :: c.inflate(w.deflate(x)) == Some(x))
  }

  /** A chunk as written: the nonce, and the compressed plaintext sealed under its identity. */
  function SealedChunk(c: Crypto, w: Sealer, nonce: Bytes, plain: Bytes): Bytes {
    nonce + w.seal(c.keyedId(plain), nonce, w.deflate(plain))
  }

  /** What was written decodes: every plaintext comes back from its sealed chunk. */
  lemma SealedDecodes(c: Crypto, w: Sealer, nonce: Bytes, plain: Bytes)
    requires Opens(c, w) && |nonce| == NONCE_LEN
    ensures Decode(c, SealedChunk(c, w, nonce, plain), c.keyedId(plain)) == Ok(plain)
  {
    var sealed := w.seal(c.keyedId(plain), nonce, w.deflate(plain));
    assert (nonce + sealed)[..NONCE_LEN] == nonce && (nonce + sealed)[NONCE_LEN..] == sealed;
  }

  /** The keyed identity tells plaintexts apart. */
  ghost predicate CollisionFree(c: Crypto) {
    forall x, y :: c.keyedId(x) == c.keyedId(y) ==> x == y
  }

  /** Whatever bytes are offered for a chunk, the only plaintext ever accepted is the one the id was made from. */
  lemma OnlyTheOriginalDecodes(c: Crypto, encrypted: Bytes, plain: Bytes)
    requires CollisionFree(c)
    ensures Decode(c, encrypted, c.keyedId(plain)).Ok? ==> Decode(c, encrypted, c.keyedId(plain)) == Ok(plain)
  {
  }

  // ---- fetch, and repair on a failed decode ---------------------------------------------

  /** The ciphertext of a chunk inside (repaired) pack bytes. */
  function SliceAndDecode(c: Crypto, bytes: Bytes, offset: nat, size: nat, id: ChunkId): Result<Bytes, FetchError> {
    var from := offset + 4;
    var to := from + size;
    if to > |bytes| then Err(Overrun) else Decode(c, bytes[from..to], id)
  }

  /** `repair_and_decrypt_chunk`. */
  function RepairAndDecode(t: Tools, s: Storage, pack: string, offset: nat, size: nat, id: ChunkId): Result<Bytes, FetchError> {
    var parPath, packId := ParSiblingPath(t.parseUuid, pack), PackIdFromPath(t.parseUuid, pack);
    if parPath.None? || packId.None? then Err(NotAPack)
    else
      var par := Get(s, parPath.value);
      if par.Err? then Err(NoParity)
      else
        var data := Get(s, pack);
        if data.Err? then Err(data.error)
        else match Repaired(t.codec, t.crc, data.value, par.value, packId.value)
          case Err(e) => Err(Unrepairable(e))
          case Ok(outcome) => SliceAndDecode(t.crypto, outcome.bytes, offset, size, id)
  }

  /** `fetch_chunk_ranged`. */
  function FetchChunkRanged(t: Tools, s: Storage, pack: string, offset: nat, size: nat, id: ChunkId): Result<Bytes, FetchError> {
    match GetRange(s, pack, offset + 4, offset + 4 + size)
    case Err(e) => Err(e)
    case Ok(encrypted) =>
      var first := Decode(t.crypto, encrypted, id);
      if first.Ok? then first
      else
        var second := RepairAndDecode(t, s, pack, offset, size, id);
        if second.Ok? then second else first
  }

  /** `fetch_chunk_from_pack`: the whole pack, its own index, the entry at the offset. */
  function FetchChunkFromPack(t: Tools, cbor: PackObject.Cbor, s: Storage, pack: string, offset: nat, id: ChunkId): Result<Bytes, FetchError> {
    match Get(s, pack)
    case Err(e) => Err(e)
    case Ok(data) =>
      match PackObject.ReadPackIndex(cbor, data)
      case Err(_) => Err(NotAPack)
      case Ok(read) =>
        match EntryAt(read.1, offset)
        case None => Err(BadRange)
        case Some(entry) =>
          match PackObject.ExtractChunk(data, entry)
          case Err(_) => Err(Overrun)
          case Ok(encrypted) => Decode(t.crypto, encrypted, id)
  }

  /** The first entry at an offset. */
  function EntryAt(index: seq<PackObject.PackIndexEntry>, offset: nat): Option<PackObject.PackIndexEntry> {
    if index == [] then None
    else if index[0].offset == offset then Some(index[0])
    else EntryAt(index[1..], offset)
  }

  /** Every fetch, repaired or not, gives the original plaintext or an error. */
  lemma FetchIsAuthentic(t: Tools, s: Storage, pack: string, offset: nat, size: nat, plain: Bytes)
    requires CollisionFree(t.crypto)
    ensures var r := FetchChunkRanged(t, s, pack, offset, size, t.crypto.keyedId(plain)); r.Ok? ==> r.value == plain
    ensures forall cbor :: var r := FetchChunkFromPack(t, cbor, s, pack, offset, t.crypto.keyedId(plain)); r.Ok? ==> r.value == plain
  {
  }

  /**
   * A failed fetch reports what is wrong with the archive, never what went
   * wrong with the recovery attempt: its error is that of the range request or
   * that of decoding the stored bytes.
   */
  lemma ReportsTheFirstError(t: Tools, s: Storage, pack: string, offset: nat, size: nat, id: ChunkId)
    ensures var stored := GetRange(s, pack, offset + 4, offset + 4 + size);
            var r := FetchChunkRanged(t, s, pack, offset, size, id);
            r.Err? ==> if stored.Err? then r == Err(stored.error) else r == Decode(t.crypto, stored.value, id)
  {
  }

  /** Where the stored bytes do not decode, the repair answers if it can. */
  lemma RepairAnswers(t: Tools, s: Storage, pack: string, offset: nat, size: nat, id: ChunkId, encrypted: Bytes, plain: Bytes)
    requires GetRange(s, pack, offset + 4, offset + 4 + size) == Ok(encrypted) && Decode(t.crypto, encrypted, id).Err?
    requires RepairAndDecode(t, s, pack, offset, size, id) == Ok(plain)
    ensures FetchChunkRanged(t, s, pack, offset, size, id) == Ok(plain)
  {
  }

  /** The objects behind a damaged pack: the pack as found and its sibling, both reachable. */
  ghost predicate Stored(t: Tools, s: Storage, pack: string, packId: Bytes, bad: Bytes, par: Bytes) {
    && PackIdFromPath(t.parseUuid, pack) == Some(packId)
    && Get(s, pack) == Ok(bad)
    && ParSiblingPath(t.parseUuid, pack).Some?
    && Get(s, ParSiblingPath(t.parseUuid, pack).value) == Ok(par)
  }

  lemma RepairedSlice(t: Tools, s: Storage, path: string, packId: Bytes, bad: Bytes, par: Bytes,
                      fixed: RepairOutcome, offset: nat, size: nat, id: ChunkId)
    requires Stored(t, s, path, packId, bad, par)
    requires Repaired(t.codec, t.crc, bad, par, packId) == Ok(fixed)
    ensures RepairAndDecode(t, s, path, offset, size, id) == SliceAndDecode(t.crypto, fixed.bytes, offset, size, id)
  {
  }

  /** On one padded grid, a slice inside both is the same bytes. */
  lemma SameSlice(a: Bytes, b: Bytes, from: nat, to: nat)
    requires from <= to <= |a| && to <= |b|
    requires forall x :: 0 <= x < to ==> ByteAt(a, x) == ByteAt(b, x)
    ensures a[from..to] == b[from..to]
  {
    forall i | 0 <= i < to - from ensures a[from..to][i] == b[from..to][i] {
      assert ByteAt(a, from + i) == ByteAt(b, from + i);
    }
  }

  /** No proper beginning of the ciphertext decodes, as with any authenticated cipher. */
  ghost predicate RefusesTruncation(c: Crypto, encrypted: Bytes, id: ChunkId) {
    forall n :: 0 <= n < |encrypted| ==> Decode(c, encrypted[..n], id).Err?
  }

  /**
   * Reading a chunk of a damaged pack through its parity, the chunk as it was
   * written and at most m shards erased: it comes back exactly when storage
   * serves its range and, where the range ends past the stored object, some
   * shard shows as erased.  A pack cut short before the chunk's end is so lost
   * to the repair where storage refuses such ranges, and where only zeros were
   * cut off.
   */
  lemma DamagedChunkReadsIff(t: Tools, w: Sealer, s: Storage, path: string, pack: Bytes, packId: Bytes, k: nat, m: nat,
                             bad: Bytes, par: Bytes, offset: nat, size: nat, nonce: Bytes, plain: Bytes)
    requires CollisionFree(t.crypto) && Opens(t.crypto, w) && |nonce| == NONCE_LEN
    requires Stored(t, s, path, packId, bad, par)
    requires Damaged(t.codec, t.crc, pack, packId, k, m, bad, par)
    requires Erased(t.crc, bad, par, k, m, ShardSizeFor(|pack|, k)) <= m
    requires offset + 4 + size <= |pack|
    requires pack[offset + 4..offset + 4 + size] == SealedChunk(t.crypto, w, nonce, plain)
    requires RefusesTruncation(t.crypto, SealedChunk(t.crypto, w, nonce, plain), t.crypto.keyedId(plain))
    ensures FetchChunkRanged(t, s, path, offset, size, t.crypto.keyedId(plain)) == Ok(plain) <==>
            PackObject.RangeServed(s.ranges, |bad|, offset + 4, offset + 4 + size)
            && (offset + 4 + size <= |bad| || Erased(t.crc, bad, par, k, m, ShardSizeFor(|pack|, k)) > 0)
  {
    SealedDecodes(t.crypto, w, nonce, plain);
    DecodableReadsIff(t, s, path, pack, packId, k, m, bad, par, offset, size, plain);
  }

  /** The same for whatever decodes. */
  lemma DecodableReadsIff(t: Tools, s: Storage, path: string, pack: Bytes, packId: Bytes, k: nat, m: nat,
                          bad: Bytes, par: Bytes, offset: nat, size: nat, plain: Bytes)
    requires CollisionFree(t.crypto)
    requires Stored(t, s, path, packId, bad, par)
    requires Damaged(t.codec, t.crc, pack, packId, k, m, bad, par)
    requires Erased(t.crc, bad, par, k, m, ShardSizeFor(|pack|, k)) <= m
    requires offset + 4 + size <= |pack|
    requires Decode(t.crypto, pack[offset + 4..offset + 4 + size], t.crypto.keyedId(plain)) == Ok(plain)
    requires RefusesTruncation(t.crypto, pack[offset + 4..offset + 4 + size], t.crypto.keyedId(plain))
    ensures FetchChunkRanged(t, s, path, offset, size, t.crypto.keyedId(plain)) == Ok(plain) <==>
            PackObject.RangeServed(s.ranges, |bad|, offset + 4, offset + 4 + size)
            && (offset + 4 + size <= |bad| || Erased(t.crc, bad, par, k, m, ShardSizeFor(|pack|, k)) > 0)
  {
    if !PackObject.RangeServed(s.ranges, |bad|, offset + 4, offset + 4 + size) {
      RangeRefused(t, s, path, bad, offset, size, t.crypto.keyedId(plain));
    } else if Erased(t.crc, bad, par, k, m, ShardSizeFor(|pack|, k)) > 0 {
      ReadUndone(t, s, path, pack, packId, k, m, bad, par, offset, size, plain);
    } else if offset + 4 + size <= |bad| {
      ReadIntact(t, s, path, pack, packId, k, m, bad, par, offset, size, plain);
    } else {
      CutOffStays(t, s, path, pack, packId, k, m, bad, par, offset, size, plain);
    }
  }

  /** In bounds nothing depends on how storage treats ranges: up to m erased shards never hide a chunk. */
  lemma ReadThroughParity(t: Tools, s: Storage, path: string, pack: Bytes, packId: Bytes, k: nat, m: nat,
                          bad: Bytes, par: Bytes, offset: nat, size: nat, plain: Bytes)
    requires CollisionFree(t.crypto)
    requires Stored(t, s, path, packId, bad, par)
    requires Damaged(t.codec, t.crc, pack, packId, k, m, bad, par)
    requires Erased(t.crc, bad, par, k, m, ShardSizeFor(|pack|, k)) <= m
    requires offset + 4 + size <= |pack| && offset + 4 + size <= |bad|
    requires Decode(t.crypto, pack[offset + 4..offset + 4 + size], t.crypto.keyedId(plain)) == Ok(plain)
    ensures FetchChunkRanged(t, s, path, offset, size, t.crypto.keyedId(plain)) == Ok(plain)
  {
    if Erased(t.crc, bad, par, k, m, ShardSizeFor(|pack|, k)) > 0 {
      ReadUndone(t, s, path, pack, packId, k, m, bad, par, offset, size, plain);
    } else {
      ReadIntact(t, s, path, pack, packId, k, m, bad, par, offset, size, plain);
    }
  }

  lemma RangeRefused(t: Tools, s: Storage, path: string, bad: Bytes, offset: nat, size: nat, id: ChunkId)
    requires Get(s, path) == Ok(bad) && !PackObject.RangeServed(s.ranges, |bad|, offset + 4, offset + 4 + size)
    ensures FetchChunkRanged(t, s, path, offset, size, id) == Err(BadRange)
  {
  }

  predicate RepairGives(t: Tools, bad: Bytes, par: Bytes, id: Bytes, fixed: RepairOutcome) {
    Repaired(t.codec, t.crc, bad, par, id) == Ok(fixed)
  }

  /** The repair of the pack with this id answers `fixed`. */
  ghost predicate Answers(t: Tools, bad: Bytes, par: Bytes, packId: Bytes, fixed: RepairOutcome) {
    forall id :: id == packId ==> RepairGives(t, bad, par, id, fixed)
  }

  // Some shards erased, not too many: the pack is rebuilt.

  lemma ReadUndone(t: Tools, s: Storage, path: string, pack: Bytes, packId: Bytes, k: nat, m: nat,
                   bad: Bytes, par: Bytes, offset: nat, size: nat, plain: Bytes)
    requires CollisionFree(t.crypto)
    requires Stored(t, s, path, packId, bad, par)
    requires Damaged(t.codec, t.crc, pack, packId, k, m, bad, par)
    requires 1 <= Erased(t.crc, bad, par, k, m, ShardSizeFor(|pack|, k)) <= m
    requires offset + 4 + size <= |pack| && PackObject.RangeServed(s.ranges, |bad|, offset + 4, offset + 4 + size)
    requires Decode(t.crypto, pack[offset + 4..offset + 4 + size], t.crypto.keyedId(plain)) == Ok(plain)
    ensures FetchChunkRanged(t, s, path, offset, size, t.crypto.keyedId(plain)) == Ok(plain)
  {
    var d := DamageIsUndone(t, pack, packId, k, m, bad, par);
    UndoneIsRead(t, s, path, pack, packId, bad, par, RepairOutcome(pack, true, d), offset, size, plain);
  }

  lemma DamageIsUndone(t: Tools, pack: Bytes, packId: Bytes, k: nat, m: nat, bad: Bytes, par: Bytes) returns (d: nat)
    requires Damaged(t.codec, t.crc, pack, packId, k, m, bad, par)
    requires 1 <= Erased(t.crc, bad, par, k, m, ShardSizeFor(|pack|, k)) <= m
    ensures Answers(t, bad, par, packId, RepairOutcome(pack, true, d))
  {
    d := Erased(t.crc, bad, par, k, m, ShardSizeFor(|pack|, k));
    RepairRoundTrip(t.codec, t.crc, pack, packId, k, m, bad, par);
  }

  lemma UndoneIsRead(t: Tools, s: Storage, path: string, pack: Bytes, packId: Bytes, bad: Bytes, par: Bytes, fixed: RepairOutcome,
                     offset: nat, size: nat, plain: Bytes)
    requires CollisionFree(t.crypto) && Stored(t, s, path, packId, bad, par)
    requires Answers(t, bad, par, packId, fixed) && fixed.bytes == pack
    requires offset + 4 + size <= |pack| && PackObject.RangeServed(s.ranges, |bad|, offset + 4, offset + 4 + size)
    requires Decode(t.crypto, pack[offset + 4..offset + 4 + size], t.crypto.keyedId(plain)) == Ok(plain)
    ensures RepairAndDecode(t, s, path, offset, size, t.crypto.keyedId(plain)) == Ok(plain)
    ensures FetchChunkRanged(t, s, path, offset, size, t.crypto.keyedId(plain)) == Ok(plain)
  {
    assert RepairGives(t, bad, par, packId, fixed);
    RepairedSlice(t, s, path, packId, bad, par, fixed, offset, size, t.crypto.keyedId(plain));
    OnlyTheOriginalDecodes(t.crypto, GetRange(s, path, offset + 4, offset + 4 + size).value, plain);
  }

  // No shard erased: the stored bytes agree with the pack on the padded grid, and stay as they are.

  /** Equal where the second one, continued with zeros, has bytes. */
  ghost predicate OnGrid(bad: Bytes, pack: Bytes) {
    forall x :: 0 <= x < |pack| ==> ByteAt(bad, x) == ByteAt(pack, x)
  }

  lemma NoDamageSeen(t: Tools, pack: Bytes, packId: Bytes, k: nat, m: nat, bad: Bytes, par: Bytes)
    requires Damaged(t.codec, t.crc, pack, packId, k, m, bad, par)
    requires Erased(t.crc, bad, par, k, m, ShardSizeFor(|pack|, k)) == 0
    ensures Answers(t, bad, par, packId, RepairOutcome(bad, false, 0)) && OnGrid(bad, pack)
  {
    RepairRoundTrip(t.codec, t.crc, pack, packId, k, m, bad, par);
    RepairedIffRepairable(t.codec, t.crc, pack, packId, k, m, bad, par);
    assert |pack| <= k * ShardSizeFor(|pack|, k);
  }

  lemma ReadIntact(t: Tools, s: Storage, path: string, pack: Bytes, packId: Bytes, k: nat, m: nat,
                   bad: Bytes, par: Bytes, offset: nat, size: nat, plain: Bytes)
    requires Stored(t, s, path, packId, bad, par)
    requires Damaged(t.codec, t.crc, pack, packId, k, m, bad, par)
    requires Erased(t.crc, bad, par, k, m, ShardSizeFor(|pack|, k)) == 0
    requires offset + 4 + size <= |pack| && offset + 4 + size <= |bad|
    requires Decode(t.crypto, pack[offset + 4..offset + 4 + size], t.crypto.keyedId(plain)) == Ok(plain)
    ensures FetchChunkRanged(t, s, path, offset, size, t.crypto.keyedId(plain)) == Ok(plain)
  {
    NoDamageSeen(t, pack, packId, k, m, bad, par);
    InBoundsRead(t, s, path, pack, bad, offset, size, t.crypto.keyedId(plain), plain);
  }

  lemma InBoundsRead(t: Tools, s: Storage, path: string, pack: Bytes, bad: Bytes, offset: nat, size: nat, id: ChunkId, plain: Bytes)
    requires Get(s, path) == Ok(bad) && OnGrid(bad, pack)
    requires offset + 4 + size <= |bad| && offset + 4 + size <= |pack|
    requires Decode(t.crypto, pack[offset + 4..offset + 4 + size], id) == Ok(plain)
    ensures FetchChunkRanged(t, s, path, offset, size, id) == Ok(plain)
  {
    SameSlice(bad, pack, offset + 4, offset + 4 + size);
    RangeInside(s, path, bad, offset + 4, offset + 4 + size);
    ReadAtOnce(t, s, path, offset, size, id, bad[offset + 4..offset + 4 + size], plain);
  }

  lemma RangeInside(s: Storage, path: string, bad: Bytes, from: nat, to: nat)
    requires Get(s, path) == Ok(bad) && from <= to <= |bad|
    ensures GetRange(s, path, from, to) == Ok(bad[from..to])
  {
  }

  /** Where the stored bytes decode nothing else is asked for. */
  lemma ReadAtOnce(t: Tools, s: Storage, path: string, offset: nat, size: nat, id: ChunkId, encrypted: Bytes, plain: Bytes)
    requires GetRange(s, path, offset + 4, offset + 4 + size) == Ok(encrypted) && Decode(t.crypto, encrypted, id) == Ok(plain)
    ensures FetchChunkRanged(t, s, path, offset, size, id) == Ok(plain)
  {
  }

  lemma CutOffStays(t: Tools, s: Storage, path: string, pack: Bytes, packId: Bytes, k: nat, m: nat,
                    bad: Bytes, par: Bytes, offset: nat, size: nat, plain: Bytes)
    requires Stored(t, s, path, packId, bad, par)
    requires Damaged(t.codec, t.crc, pack, packId, k, m, bad, par)
    requires Erased(t.crc, bad, par, k, m, ShardSizeFor(|pack|, k)) == 0
    requires |bad| < offset + 4 + size <= |pack| && PackObject.RangeServed(s.ranges, |bad|, offset + 4, offset + 4 + size)
    requires Decode(t.crypto, pack[offset + 4..offset + 4 + size], t.crypto.keyedId(plain)).Ok?
    requires RefusesTruncation(t.crypto, pack[offset + 4..offset + 4 + size], t.crypto.keyedId(plain))
    ensures FetchChunkRanged(t, s, path, offset, size, t.crypto.keyedId(plain)).Err?
  {
    NoDamageSeen(t, pack, packId, k, m, bad, par);
    CutOffFails(t, s, path, pack, packId, bad, par, offset, size, t.crypto.keyedId(plain));
  }

  lemma CutOffFails(t: Tools, s: Storage, path: string, pack: Bytes, packId: Bytes, bad: Bytes, par: Bytes,
                    offset: nat, size: nat, id: ChunkId)
    requires Stored(t, s, path, packId, bad, par) && Answers(t, bad, par, packId, RepairOutcome(bad, false, 0)) && OnGrid(bad, pack)
    requires |bad| < offset + 4 + size <= |pack| && PackObject.RangeServed(s.ranges, |bad|, offset + 4, offset + 4 + size)
    requires Decode(t.crypto, pack[offset + 4..offset + 4 + size], id).Ok?
    requires RefusesTruncation(t.crypto, pack[offset + 4..offset + 4 + size], id)
    ensures FetchChunkRanged(t, s, path, offset, size, id).Err?
  {
    ShortRange(s, path, bad, pack, offset + 4, offset + 4 + size);
    UnrepairedFails(t, s, path, packId, bad, par, offset, size, id,
                    pack[offset + 4..offset + 4 + size][..SaturatingSub(|bad|, offset + 4)]);
  }

  /** A range served short is the beginning of the pack's own slice. */
  lemma ShortRange(s: Storage, path: string, bad: Bytes, pack: Bytes, from: nat, to: nat)
    requires Get(s, path) == Ok(bad) && OnGrid(bad, pack) && from <= to <= |pack| && |bad| < to
    requires PackObject.RangeServed(s.ranges, |bad|, from, to)
    ensures SaturatingSub(|bad|, from) <= to - from && (from < to ==> SaturatingSub(|bad|, from) < to - from)
    ensures GetRange(s, path, from, to) == Ok(pack[from..to][..SaturatingSub(|bad|, from)])
  {
    var short := bad[Min(from, |bad|)..Min(to, |bad|)];
    var n := SaturatingSub(|bad|, from);
    assert |short| == n;
    forall i | 0 <= i < n ensures short[i] == pack[from..to][..n][i] {
      assert ByteAt(bad, from + i) == ByteAt(pack, from + i);
    }
    assert short == pack[from..to][..n];
  }

  lemma UnrepairedFails(t: Tools, s: Storage, path: string, packId: Bytes, bad: Bytes, par: Bytes, offset: nat, size: nat, id: ChunkId,
                        short: Bytes)
    requires Stored(t, s, path, packId, bad, par) && Answers(t, bad, par, packId, RepairOutcome(bad, false, 0))
    requires |bad| < offset + 4 + size && GetRange(s, path, offset + 4, offset + 4 + size) == Ok(short)
    requires Decode(t.crypto, short, id).Err?
    ensures FetchChunkRanged(t, s, path, offset, size, id).Err?
  {
    assert RepairGives(t, bad, par, packId, RepairOutcome(bad, false, 0));
    RepairedSlice(t, s, path, packId, bad, par, RepairOutcome(bad, false, 0), offset, size, id);
  }

  /** Beyond the budget the repair adds nothing: the fetch answers as plain decoding does. */
  lemma BeyondTheBudget(t: Tools, s: Storage, path: string, pack: Bytes, packId: Bytes, k: nat, m: nat,
                        bad: Bytes, par: Bytes, offset: nat, size: nat, id: ChunkId)
    requires Stored(t, s, path, packId, bad, par)
    requires Damaged(t.codec, t.crc, pack, packId, k, m, bad, par)
    requires Erased(t.crc, bad, par, k, m, ShardSizeFor(|pack|, k)) > m
    ensures var stored := GetRange(s, path, offset + 4, offset + 4 + size);
            FetchChunkRanged(t, s, path, offset, size, id) ==
              if stored.Err? then Err(stored.error) else Decode(t.crypto, stored.value, id)
  {
    RepairRoundTrip(t.codec, t.crc, pack, packId, k, m, bad, par);
  }
}
