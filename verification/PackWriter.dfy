/**
 * The writer's side of a pack, as its layout is documented, and that both ways
 * of reading its index, and the slices the index points at, give back what was
 * written.  The CBOR encoder is a parameter with its contract.
 */
module PackWriter {
  import opened Basics
  import opened PackObject
  import opened PackPath

  // ---- little-endian numbers, digit by digit ----------------------------------------------

  function Power256(i: nat): (p: nat)
    ensures p > 0
  {
    if i == 0 then 1 else 256 * Power256(i - 1)
  }

  /** Digit `i` of a number to the base 256. */
  function DigitAt(n: nat, i: nat): byte {
    (n / Power256(i) % 256) as byte
  }

  function LittleEndianBytes(n: nat, width: nat): (b: Bytes)
    ensures |b| == width
  {
    seq(width, i requires 0 <= i < width => DigitAt(n, i))
  }

  lemma Quotient(n: nat, d: nat, q: nat, r: nat)
    requires n == q * d + r && r < d
    ensures n / d == q
  {
    if n / d < q {
      Gap(n / d, q, d);
    } else if n / d > q {
      Gap(q, n / d, d);
    }
  }

  lemma {:induction false} Gap(a: nat, b: nat, d: nat)
    requires a < b
    ensures a * d + d <= b * d
  {
    OneMore(b - 1, d);
    if a < b - 1 {
      Gap(a, b - 1, d);
    }
  }

  lemma OneMore(n: nat, d: nat)
    ensures (n + 1) * d == n * d + d
  {
  }

  lemma DigitShift(n: nat, i: nat)
    ensures n / Power256(i + 1) == n / 256 / Power256(i)
  {
    var p := Power256(i);
    var q, r := n / 256 / p, n / 256 % p;
    var low := n % 256;
    assert n == 256 * (q * p + r) + low;
    Distribute(q, p, r);
    Quotient(n, 256 * p, q, 256 * r + low);
  }

  lemma Distribute(q: nat, p: nat, r: nat)
    requires r < p
    ensures 256 * (q * p + r) == q * (256 * p) + 256 * r
    ensures 256 * r + 255 < 256 * p
  {
  }

  /** The reader's number is the one whose digits the writer wrote. */
  lemma {:induction false} LittleEndianRoundTrip(n: nat, width: nat)
    requires n < Power256(width)
    ensures LittleEndian(LittleEndianBytes(n, width)) == n
  {
    if width > 0 {
      var b := LittleEndianBytes(n, width);
      forall i | 0 <= i < width - 1 ensures b[1..][i] == LittleEndianBytes(n / 256, width - 1)[i] {
        DigitShift(n, i);
      }
      assert b[1..] == LittleEndianBytes(n / 256, width - 1);
      LittleEndianRoundTrip(n / 256, width - 1);
      assert Power256(0) == 1;
    }
  }

  // ---- the layout --------------------------------------------------------------------------------

  /** One chunk of a pack, as encrypted. */
  datatype PackedChunk = PackedChunk(id: ChunkId, encrypted: Bytes)

  datatype Contents = Contents(packId: Bytes, chunks: seq<PackedChunk>)

  type Encoder = seq<PackIndexEntry> -> Bytes

  function Header(packId: Bytes): Bytes {
    PACK_MAGIC + [0, 1] + packId
  }

  function LengthPrefixed(encrypted: Bytes): Bytes {
    LittleEndianBytes(|encrypted|, 4) + encrypted
  }

  /** The chunks one after another, each behind its length. */
  function Body(chunks: seq<PackedChunk>): Bytes {
    if chunks == [] then [] else LengthPrefixed(chunks[0].encrypted) + Body(chunks[1..])
  }

  /** Their index: each chunk starts where the one before ends. */
  function Entries(chunks: seq<PackedChunk>, at: nat): (entries: seq<PackIndexEntry>)
    ensures |entries| == |chunks|
  {
    if chunks == [] then []
    else [PackIndexEntry(chunks[0].id, at, |chunks[0].encrypted|)] + Entries(chunks[1..], at + 4 + |chunks[0].encrypted|)
  }

  function Pack(encode: Encoder, c: Contents): Bytes {
    Header(c.packId) + Body(c.chunks) + encode(Entries(c.chunks, HEADER_LEN)) + LittleEndianBytes(HEADER_LEN + |Body(c.chunks)|, 8)
  }

  /** The decoder undoes the encoder, which always writes something. */
  ghost predicate Decodes(cbor: Cbor, encode: Encoder) {
    forall es :: encode(es) != [] && cbor(encode(es)) == Some(es)
  }

  /** A pack whose id and size fit their fields. */
  predicate Writable(c: Contents) {
    |c.packId| == 16 && HEADER_LEN + |Body(c.chunks)| < Power256(8)
  }

  lemma Parts(h: Bytes, b: Bytes, x: Bytes, t: Bytes)
    requires |h| == HEADER_LEN && |t| == 8
    ensures var p := h + b + x + t;
            && |p| == HEADER_LEN + |b| + |x| + 8 && p[|p| - 8..] == t && p[HEADER_LEN + |b|..|p| - 8] == x
            && p[..HEADER_LEN] == h && p[HEADER_LEN..HEADER_LEN + |b|] == b
  {
  }

  lemma HeaderReads(packId: Bytes, p: Bytes)
    requires |packId| == 16 && |p| >= HEADER_LEN && p[..HEADER_LEN] == Header(packId)
    ensures HeaderOk(p) && p[6..22] == packId
  {
    var h := Header(packId);
    assert p[0..4] == h[0..4] && p[4] == h[4] && p[5] == h[5];
    assert p[6..22] == h[6..22];
  }

  /** Both readers find the index that was written. */
  lemma WrittenIndexReads(mode: RangeMode, cbor: Cbor, encode: Encoder, c: Contents)
    requires Writable(c) && Decodes(cbor, encode)
    ensures ReadPackIndex(cbor, Pack(encode, c)) == Ok((c.packId, Entries(c.chunks, HEADER_LEN)))
    ensures IndexByRanges(mode, cbor, Pack(encode, c)) == Some(Entries(c.chunks, HEADER_LEN))
  {
    var index := encode(Entries(c.chunks, HEADER_LEN));
    assert index != [] && cbor(index) == Some(Entries(c.chunks, HEADER_LEN));
    var footer := HEADER_LEN + |Body(c.chunks)|;
    LittleEndianRoundTrip(footer, 8);
    PartsRead(mode, cbor, c.packId, Body(c.chunks), index, LittleEndianBytes(footer, 8));
  }

  lemma PartsRead(mode: RangeMode, cbor: Cbor, packId: Bytes, b: Bytes, x: Bytes, t: Bytes)
    requires |packId| == 16 && |t| == 8 && LittleEndian(t) == HEADER_LEN + |b| && x != [] && cbor(x).Some?
    ensures var p := Header(packId) + b + x + t;
            ReadPackIndex(cbor, p) == Ok((packId, cbor(x).value)) && IndexByRanges(mode, cbor, p) == cbor(x)
  {
    var p := Header(packId) + b + x + t;
    Parts(Header(packId), b, x, t);
    HeaderReads(packId, p);
    IndexOf(mode, cbor, p, HEADER_LEN + |b|, packId, x);
  }

  lemma IndexOf(mode: RangeMode, cbor: Cbor, p: Bytes, footer: nat, packId: Bytes, index: Bytes)
    requires |p| >= 30 && HeaderOk(p) && p[6..22] == packId && footer < |p| - 8
    requires LittleEndian(p[|p| - 8..]) == footer && p[footer..|p| - 8] == index && cbor(index).Some?
    ensures ReadPackIndex(cbor, p) == Ok((packId, cbor(index).value)) && IndexByRanges(mode, cbor, p) == cbor(index)
  {
    RangesAgreeWithWholeRead(mode, cbor, p, cbor(index).value);
  }

  /** The entry has the id and the size of the chunk, and at its place, behind a length, are the chunk's bytes. */
  predicate PointsAt(e: PackIndexEntry, at: nat, body: Bytes, chunk: PackedChunk) {
    && e.chunkId == chunk.id && e.size == |chunk.encrypted| && e.offset >= at
    && e.offset - at + 4 + e.size <= |body| && body[e.offset - at + 4..e.offset - at + 4 + e.size] == chunk.encrypted
  }

  /** Each entry points at the bytes of its chunk. */
  lemma {:induction false} EntryPoints(chunks: seq<PackedChunk>, at: nat, j: nat)
    requires j < |chunks|
    ensures PointsAt(Entries(chunks, at)[j], at, Body(chunks), chunks[j])
  {
    var lead, rest := LengthPrefixed(chunks[0].encrypted), Body(chunks[1..]);
    if j == 0 {
      FirstPoints(chunks[0], at, rest);
    } else {
      EntryPoints(chunks[1..], at + |lead|, j - 1);
      LaterPoints(Entries(chunks[1..], at + |lead|)[j - 1], at, lead, rest, chunks[j]);
    }
  }

  lemma FirstPoints(chunk: PackedChunk, at: nat, rest: Bytes)
    ensures PointsAt(PackIndexEntry(chunk.id, at, |chunk.encrypted|), at, LengthPrefixed(chunk.encrypted) + rest, chunk)
  {
    var size := LittleEndianBytes(|chunk.encrypted|, 4);
    SliceBehind(size, chunk.encrypted + rest, 0, |chunk.encrypted|);
    Associative(size, chunk.encrypted, rest);
  }

  lemma LaterPoints(e: PackIndexEntry, at: nat, lead: Bytes, rest: Bytes, chunk: PackedChunk)
    requires PointsAt(e, at + |lead|, rest, chunk)
    ensures PointsAt(e, at, lead + rest, chunk)
  {
    SliceBehind(lead, rest, e.offset - at - |lead| + 4, e.size);
  }

  lemma SliceBehind(lead: Bytes, rest: Bytes, from: nat, len: nat)
    requires from + len <= |rest|
    ensures (lead + rest)[|lead| + from..|lead| + from + len] == rest[from..from + len]
  {
  }

  lemma SliceInside(p: Bytes, at: nat, part: Bytes, from: nat, len: nat)
    requires at + |part| <= |p| && p[at..at + |part|] == part && from + len <= |part|
    ensures p[at + from..at + from + len] == part[from..from + len]
  {
    var u, v := p[at + from..at + from + len], part[from..from + len];
    forall i | 0 <= i < len ensures u[i] == v[i] {
      assert p[at..at + |part|][from + i] == p[at + from + i];
    }
    assert u == v;
  }

  /** Later entries start later. */
  lemma {:induction false} EntriesAscend(chunks: seq<PackedChunk>, at: nat, i: nat, j: nat)
    requires i < j < |chunks|
    ensures Entries(chunks, at)[i].offset < Entries(chunks, at)[j].offset
  {
    if i == 0 {
      EntryPoints(chunks[1..], at + 4 + |chunks[0].encrypted|, j - 1);
    } else {
      EntriesAscend(chunks[1..], at + 4 + |chunks[0].encrypted|, i - 1, j - 1);
    }
  }

  /** The bytes at a place of the pack. */
  predicate HoldsAt(data: Bytes, offset: nat, encrypted: Bytes) {
    offset + 4 + |encrypted| <= |data| && data[offset + 4..offset + 4 + |encrypted|] == encrypted
  }

  /** In the written pack each entry's slice is the written chunk, whichever way it is cut out. */
  lemma WrittenChunkSlices(mode: RangeMode, encode: Encoder, c: Contents, j: nat)
    requires |c.packId| == 16 && j < |c.chunks|
    ensures var e, p := Entries(c.chunks, HEADER_LEN)[j], Pack(encode, c);
            && e.chunkId == c.chunks[j].id && e.size == |c.chunks[j].encrypted| && HoldsAt(p, e.offset, c.chunks[j].encrypted)
            && ExtractChunk(p, e) == CachedSlice(p, e.offset, e.size) == Ok(c.chunks[j].encrypted)
            && GetRange(mode, p, e.offset + 4, e.offset + 4 + e.size) == Ok(c.chunks[j].encrypted)
  {
    var e, p, b := Entries(c.chunks, HEADER_LEN)[j], Pack(encode, c), Body(c.chunks);
    EntryPoints(c.chunks, HEADER_LEN, j);
    Parts(Header(c.packId), b, encode(Entries(c.chunks, HEADER_LEN)), LittleEndianBytes(HEADER_LEN + |b|, 8));
    SliceInside(p, HEADER_LEN, b, e.offset - HEADER_LEN + 4, e.size);
    HeldIsCut(mode, p, e, c.chunks[j].encrypted);
  }

  lemma HeldIsCut(mode: RangeMode, p: Bytes, e: PackIndexEntry, encrypted: Bytes)
    requires HoldsAt(p, e.offset, encrypted) && e.size == |encrypted|
    ensures ExtractChunk(p, e) == CachedSlice(p, e.offset, e.size) == Ok(encrypted)
    ensures GetRange(mode, p, e.offset + 4, e.offset + 4 + e.size) == Ok(encrypted)
  {
    SlicesAgree(mode, p, e);
  }

  // ---- a store of written packs ----------------------------------------------------------------------

  /** Every listed path is a readable pack object and holds its pack as written. */
  ghost predicate Archived(scan: Scan, encode: Encoder, contents: map<string, Contents>, listing: seq<string>) {
    Decodes(scan.cbor, encode) && forall p :: p in listing ==> PackArchived(scan, encode, contents, p)
  }

  ghost predicate PackArchived(scan: Scan, encode: Encoder, contents: map<string, Contents>, p: string) {
    && p in contents && Writable(contents[p]) && IsPackObjectPath(scan.parseUuid, p)
    && p in scan.store && p !in scan.unreadable && scan.store[p] == Pack(encode, contents[p])
  }

  /** Chunk `id` is in the pack, at the place of its entry. */
  ghost predicate ChunkAt(contents: map<string, Contents>, id: ChunkId, loc: Location, j: nat) {
    && loc.pack in contents && j < |contents[loc.pack].chunks| && contents[loc.pack].chunks[j].id == id
    && Entries(contents[loc.pack].chunks, HEADER_LEN)[j] == PackIndexEntry(id, loc.offset, loc.size)
  }

  ghost predicate Packed(contents: map<string, Contents>, listing: seq<string>, id: ChunkId) {
    exists p, j: nat :: p in listing && p in contents && j < |contents[p].chunks| && contents[p].chunks[j].id == id
  }

  lemma ArchivedIndex(scan: Scan, encode: Encoder, contents: map<string, Contents>, p: string)
    requires Decodes(scan.cbor, encode) && PackArchived(scan, encode, contents, p)
    ensures ReadableIndex(scan, p) == Entries(contents[p].chunks, HEADER_LEN)
  {
    WrittenIndexReads(scan.mode, scan.cbor, encode, contents[p]);
  }

  /** The pack map of an archive locates exactly the chunks that were packed, each at a place that holds it. */
  lemma ArchiveLocated(scan: Scan, encode: Encoder, contents: map<string, Contents>, listing: seq<string>, m: PackMap, id: ChunkId)
    requires Archived(scan, encode, contents, listing) && Located(scan, listing, m)
    ensures id in m <==> Packed(contents, listing, id)
    ensures id in m ==> m[id].pack in listing && exists j: nat :: ChunkAt(contents, id, m[id], j)
  {
    if id in m {
      var i: nat, j: nat :| IndexedAt(scan, listing, i, j, id, m[id]);
      ArchivedIndex(scan, encode, contents, listing[i]);
      EntryPoints(contents[listing[i]].chunks, HEADER_LEN, j);
      assert ChunkAt(contents, id, m[id], j);
    }
    if Packed(contents, listing, id) {
      var p, j: nat :| p in listing && p in contents && j < |contents[p].chunks| && contents[p].chunks[j].id == id;
      var h: nat :| h < |listing| && listing[h] == p;
      ArchivedIndex(scan, encode, contents, p);
      EntryPoints(contents[p].chunks, HEADER_LEN, j);
      assert id !in m ==> NotIndexed(scan, listing[h], id);
      assert ReadableIndex(scan, p)[j].chunkId == id;
    }
  }
}
