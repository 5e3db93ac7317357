/**
 * From the writer to the restored file: an intact archive of packs, sealed chunk
 * by chunk, its map built by the scan, and every file of it restored.
 */
module Archive {
  import opened Basics
  import opened ChunkFetch
  import opened PackWriter
  import opened Reconstruct
  import opened RestoreFile
  import PackObject

  /** What the scan of the storage sees. */
  function ScanOf(t: Tools, cbor: PackObject.Cbor, s: Storage): PackObject.Scan {
    PackObject.Scan(s.objects, s.down, s.ranges, cbor, t.parseUuid)
  }

  ghost predicate IsSealed(c: Crypto, w: Sealer, chunk: PackedChunk, nonce: Bytes, plain: Bytes) {
    |nonce| == NONCE_LEN && chunk.id == c.keyedId(plain) && chunk.encrypted == SealedChunk(c, w, nonce, plain)
  }

  /** The chunk was sealed by the writer, under some nonce. */
  ghost predicate WrittenChunk(c: Crypto, w: Sealer, chunk: PackedChunk) {
    exists nonce, plain :: IsSealed(c, w, chunk, nonce, plain)
  }

  /** Everything listed is a written pack of sealed chunks, and can be had. */
  ghost predicate Intact(t: Tools, w: Sealer, cbor: PackObject.Cbor, encode: Encoder, s: Storage,
                         contents: map<string, Contents>, listing: seq<string>) {
    && Archived(ScanOf(t, cbor, s), encode, contents, listing)
    && forall p, j :: p in listing && p in contents && 0 <= j < |contents[p].chunks| ==> WrittenChunk(t.crypto, w, contents[p].chunks[j])
  }

  /** The located bytes are the chunk as sealed. */
  ghost predicate HeldSealed(t: Tools, w: Sealer, s: Storage, loc: PackObject.Location, plain: Bytes) {
    exists nonce ::
      && |nonce| == NONCE_LEN && Get(s, loc.pack).Ok? && loc.size == |SealedChunk(t.crypto, w, nonce, plain)|
      && HoldsAt(Get(s, loc.pack).value, loc.offset, SealedChunk(t.crypto, w, nonce, plain))
  }

  lemma LocatedIsSealed(t: Tools, w: Sealer, cbor: PackObject.Cbor, encode: Encoder, s: Storage,
                        contents: map<string, Contents>, listing: seq<string>, loc: PackObject.Location, j: nat, plain: Bytes)
    requires CollisionFree(t.crypto) && Intact(t, w, cbor, encode, s, contents, listing)
    requires loc.pack in listing && ChunkAt(contents, t.crypto.keyedId(plain), loc, j)
    ensures HeldSealed(t, w, s, loc, plain)
  {
    var c := contents[loc.pack];
    assert PackArchived(ScanOf(t, cbor, s), encode, contents, loc.pack);
    assert WrittenChunk(t.crypto, w, c.chunks[j]);
    var nonce, p :| IsSealed(t.crypto, w, c.chunks[j], nonce, p);
    assert p == plain;
    WrittenChunkSlices(s.ranges, encode, c, j);
  }

  /** Such a chunk is read by a range, from the whole pack, and as a worker or a single-file restore does. */
  lemma HeldIsRead(t: Tools, w: Sealer, s: Storage, src: Sources, loc: PackObject.Location, plain: Bytes)
    requires Opens(t.crypto, w) && HeldSealed(t, w, s, loc, plain) && src.tools == t && src.storage == s
    ensures FetchChunkRanged(t, s, loc.pack, loc.offset, loc.size, t.crypto.keyedId(plain)) == Ok(plain)
    ensures ReadLocated(src, loc, t.crypto.keyedId(plain)) == Ok(plain)
  {
    var nonce :|
      && |nonce| == NONCE_LEN && Get(s, loc.pack).Ok? && loc.size == |SealedChunk(t.crypto, w, nonce, plain)|
      && HoldsAt(Get(s, loc.pack).value, loc.offset, SealedChunk(t.crypto, w, nonce, plain));
    SealedDecodes(t.crypto, w, nonce, plain);
    HeldIsCut(s.ranges, Get(s, loc.pack).value, PackObject.PackIndexEntry(t.crypto.keyedId(plain), loc.offset, loc.size),
              SealedChunk(t.crypto, w, nonce, plain));
  }

  lemma {:induction false} FirstAt(index: seq<PackObject.PackIndexEntry>, j: nat)
    requires j < |index| && forall i :: 0 <= i < j ==> index[i].offset != index[j].offset
    ensures EntryAt(index, index[j].offset) == Some(index[j])
  {
    if j > 0 {
      assert index[0].offset != index[j].offset;
      assert forall i :: 0 <= i < j - 1 ==> index[1..][i] == index[i + 1];
      FirstAt(index[1..], j - 1);
    }
  }

  /** And by the pack's own index, without the map. */
  lemma ReadByOwnIndex(t: Tools, w: Sealer, cbor: PackObject.Cbor, encode: Encoder, s: Storage,
                       contents: map<string, Contents>, loc: PackObject.Location, j: nat, plain: Bytes)
    requires Opens(t.crypto, w) && Decodes(cbor, encode)
    requires PackArchived(ScanOf(t, cbor, s), encode, contents, loc.pack) && ChunkAt(contents, t.crypto.keyedId(plain), loc, j)
    requires HeldSealed(t, w, s, loc, plain)
    ensures FetchChunkFromPack(t, cbor, s, loc.pack, loc.offset, t.crypto.keyedId(plain)) == Ok(plain)
  {
    var c, id := contents[loc.pack], t.crypto.keyedId(plain);
    var entries := Entries(c.chunks, PackObject.HEADER_LEN);
    WrittenIndexReads(s.ranges, cbor, encode, c);
    forall i | 0 <= i < j ensures entries[i].offset != entries[j].offset {
      EntriesAscend(c.chunks, PackObject.HEADER_LEN, i, j);
    }
    FirstAt(entries, j);
    var nonce :|
      && |nonce| == NONCE_LEN && Get(s, loc.pack).Ok? && loc.size == |SealedChunk(t.crypto, w, nonce, plain)|
      && HoldsAt(Get(s, loc.pack).value, loc.offset, SealedChunk(t.crypto, w, nonce, plain));
    SealedDecodes(t.crypto, w, nonce, plain);
    HeldIsCut(s.ranges, Get(s, loc.pack).value, entries[j], SealedChunk(t.crypto, w, nonce, plain));
  }

  /**
   * Every chunk of an intact archive is found and read: the map built from the
   * listing locates exactly the packed chunks, and each comes back with its
   * plaintext by the ranged fetch, the whole pack, and the pack's own index.
   */
  lemma PackedChunkReads(t: Tools, w: Sealer, cbor: PackObject.Cbor, encode: Encoder, s: Storage, contents: map<string, Contents>,
                         listing: seq<string>, m: PackObject.PackMap, src: Sources, plain: Bytes)
    requires CollisionFree(t.crypto) && Opens(t.crypto, w) && Intact(t, w, cbor, encode, s, contents, listing)
    requires PackObject.Located(ScanOf(t, cbor, s), listing, m) && src.tools == t && src.storage == s
    ensures var id := t.crypto.keyedId(plain);
            && (id in m <==> Packed(contents, listing, id))
            && (id in m ==>
                  && m[id].pack in listing && ReadLocated(src, m[id], id) == Ok(plain)
                  && FetchChunkRanged(t, s, m[id].pack, m[id].offset, m[id].size, id) == Ok(plain)
                  && FetchChunkFromPack(t, cbor, s, m[id].pack, m[id].offset, id) == Ok(plain))
  {
    var id := t.crypto.keyedId(plain);
    ArchiveLocated(ScanOf(t, cbor, s), encode, contents, listing, m, id);
    if id in m {
      var j: nat :| ChunkAt(contents, id, m[id], j);
      LocatedIsSealed(t, w, cbor, encode, s, contents, listing, m[id], j, plain);
      HeldIsRead(t, w, s, src, m[id], plain);
      ReadByOwnIndex(t, w, cbor, encode, s, contents, m[id], j, plain);
    }
  }

  // ---- whole files -----------------------------------------------------------------------------

  /** The restore resolves chunks by the map. */
  ghost predicate ResolvesBy(src: Sources, m: PackObject.PackMap) {
    src.resolve.Some? && forall id :: src.resolve.value(id) == if id in m then Some(m[id]) else None
  }

  /** The chunk is in a pack, or is stored as its own object. */
  ghost predicate KeptSomewhere(src: Sources, w: Sealer, m: PackObject.PackMap, plain: Bytes) {
    var id := src.tools.crypto.keyedId(plain);
    id in m || (exists nonce :: |nonce| == NONCE_LEN && Get(src.storage, src.chunkPath(id)) == Ok(SealedChunk(src.tools.crypto, w, nonce, plain)))
  }

  /** No worker takes a listed pack for missing. */
  predicate NoneMissing(listing: seq<string>, missing: set<string>, moments: seq<Moment>) {
    (forall p :: p in listing ==> p !in missing) && forall i, p :: 0 <= i < |moments| && p in listing ==> p !in moments[i].found
  }

  lemma {:induction false} NoneKnown(listing: seq<string>, missing: set<string>, moments: seq<Moment>, i: nat, p: string)
    requires NoneMissing(listing, missing, moments) && i < |moments| && p in listing
    ensures p !in KnownAt(missing, moments, i)
  {
    if i > 0 {
      NoneKnown(listing, missing, moments, i - 1, p);
    }
  }

  lemma LocatedIsRead(src: Sources, missing: set<string>, loc: PackObject.Location, id: ChunkId, plain: Bytes)
    requires Located(src, id) == Some(loc) && loc.pack !in missing && ReadLocated(src, loc, id) == Ok(plain)
    requires FetchChunkRanged(src.tools, src.storage, loc.pack, loc.offset, loc.size, id) == Ok(plain)
    ensures ReadChunk(src, missing, id, Calm) == Ok(plain)
  {
  }

  lemma KeptIsRead(w: Sealer, cbor: PackObject.Cbor, encode: Encoder, contents: map<string, Contents>, listing: seq<string>,
                   m: PackObject.PackMap, src: Sources, missing: set<string>, plain: Bytes)
    requires CollisionFree(src.tools.crypto) && Opens(src.tools.crypto, w)
    requires Intact(src.tools, w, cbor, encode, src.storage, contents, listing)
    requires PackObject.Located(ScanOf(src.tools, cbor, src.storage), listing, m) && ResolvesBy(src, m)
    requires KeptSomewhere(src, w, m, plain) && forall p :: p in listing ==> p !in missing
    ensures ReadChunk(src, missing, src.tools.crypto.keyedId(plain), Calm) == Ok(plain)
  {
    var id := src.tools.crypto.keyedId(plain);
    PackedChunkReads(src.tools, w, cbor, encode, src.storage, contents, listing, m, src, plain);
    if id in m {
      LocatedIsRead(src, missing, m[id], id, plain);
    } else {
      var nonce :| |nonce| == NONCE_LEN && Get(src.storage, src.chunkPath(id)) == Ok(SealedChunk(src.tools.crypto, w, nonce, plain));
      OwnObjectReadsIff(src, w, missing, nonce, plain);
    }
  }

  /**
   * What a backup is for: from an intact archive, each file whose chunks were
   * written is restored with exactly its content, by a worker or alone, sparse or
   * dense, in whatever order its chunks are recorded and whichever packs are
   * read whole.
   */
  lemma ArchiveRestores(w: Sealer, cbor: PackObject.Cbor, encode: Encoder, contents: map<string, Contents>, listing: seq<string>,
                        m: PackObject.PackMap, src: Sources, refs: seq<ChunkRef>, io: Io, prior: Option<Bytes>, missing: set<string>,
                        sparse: bool, tiling: seq<ChunkRef>, plains: seq<Bytes>, total: nat)
    requires CollisionFree(src.tools.crypto) && Opens(src.tools.crypto, w)
    requires Intact(src.tools, w, cbor, encode, src.storage, contents, listing)
    requires PackObject.Located(ScanOf(src.tools, cbor, src.storage), listing, m) && ResolvesBy(src, m)
    requires RecordsOf(src.tools.crypto.keyedId, tiling, plains) && Tiling(tiling, 0, total) && multiset(refs) == multiset(tiling)
    requires forall i :: 0 <= i < |plains| ==> KeptSomewhere(src, w, m, plains[i])
    requires io.created && io.finished && |io.moments| == |SortByOffset(refs)| && NoneMissing(listing, missing, io.moments)
    requires forall i :: 0 <= i < |io.moments| ==> io.moments[i].weather == Calm
    ensures var o := Restored(src, refs, io, prior, missing, sparse);
            o.error.None? && o.disk == Some(Flatten(plains))
  {
    SortFindsTiling(refs, tiling, total);
    forall i | 0 <= i < |tiling| ensures CanRead(src, missing, io.moments, tiling, i) {
      forall p | p in listing ensures p !in KnownAt(missing, io.moments, i) {
        NoneKnown(listing, missing, io.moments, i, p);
      }
      KeptIsRead(w, cbor, encode, contents, listing, m, src, KnownAt(missing, io.moments, i), plains[i]);
    }
    FileRestoredIff(src, refs, io, prior, missing, sparse, tiling, plains, total);
  }
}
