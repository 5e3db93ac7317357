/**
 * Reading pack objects: the resilient whole-pack download, the footer index
 * and the chunk slices.
 */
module PackObject {
  import opened Basics
  import opened PackPath

  // ---- the resilient download ------------------------------------------------

  const RANGE_BYTES: nat := 16 * 1024 * 1024

  /**
   * How the backend answers one download: a request is served when its error is
   * `None`; a cancellation noticed by a request is one more error.
   */
  datatype Backend = Backend(
    concurrencyHint: Option<nat>, cancelled: bool, sizeError: Option<string>,
    getError: Option<string>, rangeErrors: seq<Option<string>>)

  datatype Span = Span(from: nat, to: nat)

  /** In order, non-empty, at most 16 MiB each, and together exactly [0, total). */
  ghost predicate Tiles(spans: seq<Span>, total: nat) {
    && (forall i :: 0 <= i < |spans| ==> spans[i].from < spans[i].to <= spans[i].from + RANGE_BYTES)
    && (forall i :: 0 < i < |spans| ==> spans[i].from == spans[i - 1].to)
    && (if spans == [] then total == 0 else spans[0].from == 0 && spans[|spans| - 1].to == total)
  }

  lemma TilesSnoc(spans: seq<Span>, offset: nat, end: nat)
    requires Tiles(spans, offset) && offset < end <= offset + RANGE_BYTES
    ensures Tiles(spans + [Span(offset, end)], end)
  {
    var more := spans + [Span(offset, end)];
    assert forall i :: 0 <= i < |spans| ==> more[i] == spans[i];
    assert more[|spans|] == Span(offset, end);
  }

  method PlanSpans(total: nat) returns (spans: seq<Span>)
    ensures Tiles(spans, total)
    ensures |spans| == (total + RANGE_BYTES - 1) / RANGE_BYTES
  {
    spans := [];
    var offset := 0;
    while offset < total
      invariant offset <= total && Tiles(spans, offset)
      invariant offset <= |spans| * RANGE_BYTES < offset + RANGE_BYTES
      invariant offset < total ==> offset == |spans| * RANGE_BYTES
    {
      var end := Min(offset + RANGE_BYTES, total);
      TilesSnoc(spans, offset, end);
      spans := spans + [Span(offset, end)];
      offset := end;
    }
    CeilDiv(|spans|, total);
  }

  lemma CeilDiv(n: nat, total: nat)
    requires total <= n * RANGE_BYTES < total + RANGE_BYTES
    ensures n == (total + RANGE_BYTES - 1) / RANGE_BYTES
  {
  }

  lemma {:induction false} SpansInside(spans: seq<Span>, total: nat, i: nat)
    requires Tiles(spans, total) && i < |spans|
    ensures spans[i].to <= total
    decreases |spans| - i
  {
    if i + 1 < |spans| {
      SpansInside(spans, total, i + 1);
    }
  }

  /** Whether the download asks for ranges rather than for the whole object. */
  predicate Ranged(obj: Bytes, env: Backend) {
    env.concurrencyHint.Some? && env.sizeError.None? && |obj| > RANGE_BYTES
  }

  /** Exactly the requests that the download makes are served. */
  predicate Served(obj: Bytes, env: Backend) {
    && (env.concurrencyHint.Some? ==> !env.cancelled)
    && if Ranged(obj, env)
       then forall i :: 0 <= i < |env.rangeErrors| ==> env.rangeErrors[i].None?
       else env.getError.None?
  }

  /** `download_pack_resilient`: whichever way it fetches, success means the stored object. */
  method DownloadPackResilient(obj: Bytes, env: Backend) returns (r: Result<Bytes, string>)
    requires |env.rangeErrors| == (|obj| + RANGE_BYTES - 1) / RANGE_BYTES
    ensures r.Ok? <==> Served(obj, env)
    ensures r.Ok? ==> r.value == obj
  {
    if env.concurrencyHint.None? {
      return Get(obj, env.getError);
    }
    if env.cancelled {
      return Err("cancelled");
    }
    if env.sizeError.Some? {
      return Get(obj, env.getError);
    }
    var total := |obj|;
    if total <= RANGE_BYTES {
      return Get(obj, env.getError);
    }
    var spans := PlanSpans(total);
    var out: Bytes := [];
    for i := 0 to |spans|
      invariant forall j :: 0 <= j < i ==> env.rangeErrors[j].None?
      invariant if i == 0 then out == [] else spans[i - 1].to <= total && out == obj[..spans[i - 1].to]
    {
      SpansInside(spans, total, i);
      if env.rangeErrors[i].Some? {
        return Err(env.rangeErrors[i].value);
      }
      out := out + obj[spans[i].from..spans[i].to];
    }
    r := Ok(out);
  }

  function Get(obj: Bytes, error: Option<string>): Result<Bytes, string> {
    if error.Some? then Err(error.value) else Ok(obj)
  }

  /**
   * What a backend does with a range that ends past the object: refuse it (a
   * local or SMB file read exactly), cut its end as HTTP does, refusing only a
   * start past the end (section 14.1.2 of RFC 9110), or clip it altogether
   * (SFTP, and WebDAV servers that send the whole body).
   */
  datatype RangeMode = Strict | CutAtEnd | Clipped

  predicate RangeServed(mode: RangeMode, len: nat, from: nat, to: nat) {
    from <= to && (to <= len || mode.Clipped? || (mode.CutAtEnd? && from < len))
  }

  /** A range request against a stored object. */
  function GetRange(mode: RangeMode, obj: Bytes, from: nat, to: nat): Result<Bytes, string> {
    if RangeServed(mode, |obj|, from, to) then Ok(obj[Min(from, |obj|)..Min(to, |obj|)]) else Err("range not satisfiable")
  }

  // ---- the footer index ---------------------------------------------------------

  const PACK_MAGIC: Bytes := [0x42, 0x4B, 0x50, 0x4B]
  const PACK_VERSION: nat := 1
  const HEADER_LEN: nat := 22

  type ChunkId = Bytes

  datatype PackIndexEntry = PackIndexEntry(chunkId: ChunkId, offset: nat, size: nat)

  /** The CBOR decoder of the index, a parameter: any partial function of the footer bytes. */
  type Cbor = Bytes -> Option<seq<PackIndexEntry>>

  function LittleEndian(b: Bytes): nat {
    if b == [] then 0 else b[0] as nat + 256 * LittleEndian(b[1..])
  }

  function BigEndian16(hi: byte, lo: byte): nat {
    hi as nat * 256 + lo as nat
  }

  function ReadPackIndex(cbor: Cbor, data: Bytes): Result<(Bytes, seq<PackIndexEntry>), string> {
    if |data| < HEADER_LEN + 8 then Err("pack too short")
    else if data[0..4] != PACK_MAGIC then Err("bad pack magic")
    else if BigEndian16(data[4], data[5]) != PACK_VERSION then Err("unsupported pack version")
    else
      var trailerStart := |data| - 8;
      var footerOffset := LittleEndian(data[trailerStart..]);
      if footerOffset > trailerStart then Err("pack footer offset exceeds data length")
      else match cbor(data[footerOffset..trailerStart])
        case None => Err("pack index CBOR decode")
        case Some(index) => Ok((data[6..22], index))
  }

  function ParsePackFooterOffset(last8: Bytes): Result<nat, string> {
    if |last8| != 8 then Err("expected 8 bytes") else Ok(LittleEndian(last8))
  }

  /** The index as `build_pack_map_from_storage` reads it: two range requests, `None` to skip the pack. */
  function IndexByRanges(mode: RangeMode, cbor: Cbor, obj: Bytes): Option<seq<PackIndexEntry>> {
    var size := |obj|;
    if size < 30 then None
    else match GetRange(mode, obj, size - 8, size)
      case Err(_) => None
      case Ok(last8) =>
        match ParsePackFooterOffset(last8)
        case Err(_) => None
        case Ok(footerOffset) =>
          if footerOffset >= size - 8 then None
          else match GetRange(mode, obj, footerOffset, size - 8)
            case Err(_) => None
            case Ok(bytes) => cbor(bytes)
  }

  predicate HeaderOk(data: Bytes) {
    |data| >= 6 && data[0..4] == PACK_MAGIC && BigEndian16(data[4], data[5]) == PACK_VERSION
  }

  predicate EmptyFooter(data: Bytes) {
    |data| >= 8 && LittleEndian(data[|data| - 8..]) == |data| - 8
  }

  /**
   * The two-range read agrees with reading the whole pack: it yields an index
   * exactly when the whole-pack reader would but for the header, which it never
   * looks at, and except for a footer of zero bytes, which it refuses.
   */
  lemma RangesAgreeWithWholeRead(mode: RangeMode, cbor: Cbor, data: Bytes, index: seq<PackIndexEntry>)
    ensures !EmptyFooter(data) && |data| >= 30 ==>
              ((exists id :: ReadPackIndex(cbor, data) == Ok((id, index))) <==>
               HeaderOk(data) && IndexByRanges(mode, cbor, data) == Some(index))
    ensures EmptyFooter(data) || |data| < 30 ==> IndexByRanges(mode, cbor, data) == None
  {
    if |data| >= 30 {
      var t := |data| - 8;
      var footerOffset := LittleEndian(data[t..]);
      assert data[t..|data|] == data[t..] && |data[t..]| == 8;
      assert GetRange(mode, data, t, |data|) == Ok(data[t..]);
      assert ParsePackFooterOffset(data[t..]) == Ok(footerOffset);
      if footerOffset < t {
        assert GetRange(mode, data, footerOffset, t) == Ok(data[footerOffset..t]);
        assert IndexByRanges(mode, cbor, data) == cbor(data[footerOffset..t]);
        if HeaderOk(data) && cbor(data[footerOffset..t]) == Some(index) {
          assert ReadPackIndex(cbor, data) == Ok((data[6..22], index));
        }
      }
    }
  }

  // ---- chunk slices ----------------------------------------------------------------

  function ExtractChunk(data: Bytes, entry: PackIndexEntry): Result<Bytes, string> {
    var start := entry.offset;
    var end := start + 4 + entry.size;
    if end > |data| then Err("chunk entry extends beyond pack") else Ok(data[start + 4..end])
  }

  /** The slice taken from a cached pack. */
  function CachedSlice(data: Bytes, offset: nat, encSize: nat): Result<Bytes, string> {
    var from := offset + 4;
    var to := from + encSize;
    if to > |data| then Err("chunk overruns pack") else Ok(data[from..to])
  }

  /**
   * The three ways of cutting one chunk out of a pack give the same bytes where
   * the chunk lies inside it.  Past the end the slice and the extraction fail,
   * and a range does not when the backend serves it short.
   */
  lemma SlicesAgree(mode: RangeMode, data: Bytes, e: PackIndexEntry)
    ensures ExtractChunk(data, e).Ok? <==> e.offset + 4 + e.size <= |data|
    ensures CachedSlice(data, e.offset, e.size).Ok? <==> ExtractChunk(data, e).Ok?
    ensures ExtractChunk(data, e).Ok? ==>
              CachedSlice(data, e.offset, e.size) == ExtractChunk(data, e) ==
              GetRange(mode, data, e.offset + 4, e.offset + 4 + e.size)
    ensures var range := GetRange(mode, data, e.offset + 4, e.offset + 4 + e.size);
            ExtractChunk(data, e).Err? && range.Ok? ==> mode != Strict && (e.size > 0 ==> |range.value| < e.size)
  {
  }

  // ---- the pack map -----------------------------------------------------------------

  datatype Location = Location(pack: string, offset: nat, size: nat)

  type PackMap = map<ChunkId, Location>

  /** What the scan sees: the stored objects, the packs whose requests fail, the backend's way with ranges, the decoder. */
  datatype Scan = Scan(store: map<string, Bytes>, unreadable: set<string>, mode: RangeMode, cbor: Cbor, parseUuid: string -> Option<Bytes>)

  /** The index of a listed pack object, if its two ranges could be read; other names are passed over. */
  function ReadableIndex(scan: Scan, pack: string): seq<PackIndexEntry> {
    if IsPackObjectPath(scan.parseUuid, pack) && pack in scan.store && pack !in scan.unreadable
       && IndexByRanges(scan.mode, scan.cbor, scan.store[pack]).Some?
    then IndexByRanges(scan.mode, scan.cbor, scan.store[pack]).value else []
  }

  /** Position `j` of the index of the pack listed at `i` puts chunk `id` at `loc`. */
  predicate IndexedAt(scan: Scan, packs: seq<string>, i: nat, j: nat, id: ChunkId, loc: Location) {
    && i < |packs| && loc.pack == packs[i]
    && j < |ReadableIndex(scan, packs[i])| && ReadableIndex(scan, packs[i])[j] == PackIndexEntry(id, loc.offset, loc.size)
  }

  /** The last of all entries for chunk `id`: no later one in the same index, none in a later pack. */
  ghost predicate LastIndexed(scan: Scan, packs: seq<string>, id: ChunkId, loc: Location) {
    exists i: nat, j: nat ::
      && IndexedAt(scan, packs, i, j, id, loc)
      && (forall k: nat :: j < k < |ReadableIndex(scan, packs[i])| ==> ReadableIndex(scan, packs[i])[k].chunkId != id)
      && (forall h: nat :: i < h < |packs| ==> NotIndexed(scan, packs[h], id))
  }

  /** The pack's index does not mention the chunk. */
  ghost predicate NotIndexed(scan: Scan, pack: string, id: ChunkId) {
    forall k :: 0 <= k < |ReadableIndex(scan, pack)| ==> ReadableIndex(scan, pack)[k].chunkId != id
  }

  /** The map after inserting a pack's entries in order. */
  function WithEntries(m: PackMap, pack: string, entries: seq<PackIndexEntry>): PackMap {
    if entries == [] then m
    else WithEntries(m, pack, entries[..|entries| - 1])
           [entries[|entries| - 1].chunkId := Location(pack, entries[|entries| - 1].offset, entries[|entries| - 1].size)]
  }

  /** Where the entries put chunk `id`: the last one that names it decides, else the map from before. */
  lemma {:induction false} WithEntriesAt(m: PackMap, pack: string, entries: seq<PackIndexEntry>, id: ChunkId) returns (j: int)
    ensures -1 <= j < |entries|
    ensures forall k :: j < k < |entries| ==> entries[k].chunkId != id
    ensures j >= 0 ==> entries[j].chunkId == id && id in WithEntries(m, pack, entries)
                       && WithEntries(m, pack, entries)[id] == Location(pack, entries[j].offset, entries[j].size)
    ensures j < 0 ==> (id in WithEntries(m, pack, entries) <==> id in m)
                      && (id in m ==> WithEntries(m, pack, entries)[id] == m[id])
  {
    if entries == [] {
      j := -1;
    } else if entries[|entries| - 1].chunkId == id {
      j := |entries| - 1;
    } else {
      j := WithEntriesAt(m, pack, entries[..|entries| - 1], id);
    }
  }

  /** The map locates exactly the indexed chunks, each where its last entry puts it. */
  ghost predicate Located(scan: Scan, packs: seq<string>, m: PackMap) {
    && (forall id :: id in m ==> LastIndexed(scan, packs, id, m[id]))
    && (forall id, h: nat :: h < |packs| && id !in m ==> NotIndexed(scan, packs[h], id))
  }

  /**
   * `build_pack_map_from_storage`: a failed listing is an error.  Otherwise a
   * chunk is located exactly when a readable pack object of the listing indexes
   * it, and where the last such entry says.  Other names and packs that cannot
   * be read are skipped.
   */
  method BuildPackMap(scan: Scan, listing: Result<seq<string>, string>) returns (r: Result<PackMap, string>)
    ensures r.Ok? <==> listing.Ok?
    ensures r.Ok? ==> Located(scan, listing.value, r.value)
  {
    if listing.Err? {
      return Err(listing.error);
    }
    var packs := listing.value;
    var m: PackMap := map[];
    for i := 0 to |packs|
      invariant LocatedTo(scan, packs, i, m)
    {
      NextLocated(scan, packs, i, m);
      m := InsertAll(m, packs[i], ReadableIndex(scan, packs[i]));
    }
    AllLocated(scan, packs, m);
    r := Ok(m);
  }

  ghost predicate LocatedTo(scan: Scan, packs: seq<string>, i: nat, m: PackMap) {
    i <= |packs| && Located(scan, packs[..i], m)
  }

  lemma NextLocated(scan: Scan, packs: seq<string>, i: nat, m: PackMap)
    requires LocatedTo(scan, packs, i, m) && i < |packs|
    ensures LocatedTo(scan, packs, i + 1, WithEntries(m, packs[i], ReadableIndex(scan, packs[i])))
  {
    LocatedStep(scan, packs[..i], m, packs[i]);
    assert packs[..i + 1] == packs[..i] + [packs[i]];
  }

  lemma AllLocated(scan: Scan, packs: seq<string>, m: PackMap)
    requires LocatedTo(scan, packs, |packs|, m)
    ensures Located(scan, packs, m)
  {
    assert packs[..|packs|] == packs;
  }

  lemma LocatedStep(scan: Scan, packs: seq<string>, m: PackMap, pack: string)
    requires Located(scan, packs, m)
    ensures Located(scan, packs + [pack], WithEntries(m, pack, ReadableIndex(scan, pack)))
  {
    var entries := ReadableIndex(scan, pack);
    var more, m' := packs + [pack], WithEntries(m, pack, entries);
    forall id | id in m' ensures LastIndexed(scan, more, id, m'[id]) {
      var j := WithEntriesAt(m, pack, entries, id);
      if j >= 0 {
        assert IndexedAt(scan, more, |packs|, j, id, m'[id]);
      } else {
        StillLast(scan, packs, pack, id, m[id]);
      }
    }
    forall id, h: nat | h < |more| && id !in m' ensures NotIndexed(scan, more[h], id) {
      var j := WithEntriesAt(m, pack, entries, id);
      if h < |packs| {
        assert more[h] == packs[h] && NotIndexed(scan, packs[h], id);
      }
    }
  }

  lemma StillLast(scan: Scan, packs: seq<string>, pack: string, id: ChunkId, loc: Location)
    requires LastIndexed(scan, packs, id, loc) && NotIndexed(scan, pack, id)
    ensures LastIndexed(scan, packs + [pack], id, loc)
  {
    var more := packs + [pack];
    var i: nat, j: nat :|
      && IndexedAt(scan, packs, i, j, id, loc)
      && (forall k: nat :: j < k < |ReadableIndex(scan, packs[i])| ==> ReadableIndex(scan, packs[i])[k].chunkId != id)
      && (forall h: nat :: i < h < |packs| ==> NotIndexed(scan, packs[h], id));
    assert more[i] == packs[i] && IndexedAt(scan, more, i, j, id, loc);
    forall h: nat | i < h < |more| ensures NotIndexed(scan, more[h], id) {
      if h < |packs| {
        assert more[h] == packs[h];
      }
    }
  }

  method InsertAll(m: PackMap, pack: string, entries: seq<PackIndexEntry>) returns (r: PackMap)
    ensures r == WithEntries(m, pack, entries)
  {
    r := m;
    for i := 0 to |entries|
      invariant r == WithEntries(m, pack, entries[..i])
    {
      assert entries[..i + 1][..i] == entries[..i];
      r := r[entries[i].chunkId := Location(pack, entries[i].offset, entries[i].size)];
    }
    assert entries[..|entries|] == entries;
  }
}
