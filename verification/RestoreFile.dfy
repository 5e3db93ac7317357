/**
 * One file restored: each chunk read by whichever route applies, every plaintext
 * written in offset order, the partial file removed on any error.  Covers the
 * workers of a full restore and the single-file restore, which differ in the
 * route only.
 */
module RestoreFile {
  import opened Basics
  import opened ChunkFetch
  import opened Parity
  import opened Reconstruct
  import opened RepairTheorems
  import PackObject
  import SingleFlight

  // ---- reading one chunk -----------------------------------------------------------

  /**
   * Where chunks come from.  `worker` tells a worker of a full restore, which
   * reads located packs itself, from the single-file restore, which goes
   * through `fetch_chunk`.  A pack in `multi` is read whole through the shared
   * cache, whose successful answers are the stored bytes.
   */
  datatype Sources = Sources(
    tools: Tools, storage: Storage, resolve: Option<ChunkId -> Option<PackObject.Location>>,
    multi: set<string>, chunkPath: ChunkId -> string, worker: bool)

  /** What befalls one chunk: a cancellation seen before it, a failed request, a failed write. */
  datatype Weather = Calm | CancelSeen | NetworkDown | DiskFull

  /** That, and the packs that other workers have found missing since the chunk before. */
  datatype Moment = Moment(weather: Weather, found: set<string>)

  const QUIET := Moment(Calm, {})

  function Located(src: Sources, id: ChunkId): Option<PackObject.Location> {
    if src.resolve.None? then None else src.resolve.value(id)
  }

  /** An individual chunk object. */
  function ReadObject(src: Sources, id: ChunkId): Result<Bytes, FetchError> {
    match Get(src.storage, src.chunkPath(id))
    case Err(e) => Err(e)
    case Ok(encrypted) => Decode(src.tools.crypto, encrypted, id)
  }

  /** A chunk inside a pack, by the whole pack or by a range. */
  function ReadLocated(src: Sources, loc: PackObject.Location, id: ChunkId): Result<Bytes, FetchError> {
    if loc.pack in src.multi then
      match Get(src.storage, loc.pack)
      case Err(e) => Err(e)
      case Ok(data) => SliceAndDecode(src.tools.crypto, data, loc.offset, loc.size, id)
    else
      match GetRange(src.storage, loc.pack, loc.offset + 4, loc.offset + 4 + loc.size)
      case Err(e) => Err(e)
      case Ok(encrypted) => Decode(src.tools.crypto, encrypted, id)
  }

  function ReadChunk(src: Sources, missing: set<string>, id: ChunkId, w: Weather): Result<Bytes, FetchError> {
    if w.CancelSeen? then Err(Cancelled)
    else match Located(src, id)
      case None => if w.NetworkDown? then Err(Unreachable(src.chunkPath(id))) else ReadObject(src, id)
      case Some(loc) =>
        if src.worker && loc.pack in missing then Err(SkippedPack(loc.pack))
        else if w.NetworkDown? then Err(Unreachable(loc.pack))
        else if src.worker then ReadLocated(src, loc, id)
        else FetchChunkRanged(src.tools, src.storage, loc.pack, loc.offset, loc.size, id)
  }

  /** A worker that finds a located pack missing records it for the others. */
  function MissingAfter(src: Sources, missing: set<string>, id: ChunkId, w: Weather): set<string> {
    var r := ReadChunk(src, missing, id, w);
    if src.worker && Located(src, id).Some? && r.Err? && r.error.NoObject? then missing + {Located(src, id).value.pack} else missing
  }

  /** A read by any route gives the plaintext the id was made from, or an error. */
  lemma ReadIsAuthentic(src: Sources, missing: set<string>, w: Weather, plain: Bytes)
    requires CollisionFree(src.tools.crypto)
    ensures var r := ReadChunk(src, missing, src.tools.crypto.keyedId(plain), w); r.Ok? ==> r.value == plain
  {
    var id := src.tools.crypto.keyedId(plain);
    if !src.worker && Located(src, id).Some? {
      var loc := Located(src, id).value;
      FetchIsAuthentic(src.tools, src.storage, loc.pack, loc.offset, loc.size, plain);
    }
  }

  /** A chunk that no index locates and that is stored as its own object, as written, is read exactly when the object can be had. */
  lemma OwnObjectReadsIff(src: Sources, w: Sealer, missing: set<string>, nonce: Bytes, plain: Bytes)
    requires Opens(src.tools.crypto, w) && |nonce| == NONCE_LEN && Located(src, src.tools.crypto.keyedId(plain)).None?
    requires var path := src.chunkPath(src.tools.crypto.keyedId(plain));
             path in src.storage.objects ==> src.storage.objects[path] == SealedChunk(src.tools.crypto, w, nonce, plain)
    ensures var path := src.chunkPath(src.tools.crypto.keyedId(plain));
            ReadChunk(src, missing, src.tools.crypto.keyedId(plain), Calm) == Ok(plain) <==>
            path in src.storage.objects && path !in src.storage.down
  {
    SealedDecodes(src.tools.crypto, w, nonce, plain);
  }

  /** The chunk's place lies inside the stored pack. */
  predicate Inside(src: Sources, loc: PackObject.Location) {
    loc.pack in src.storage.objects && loc.offset + 4 + loc.size <= |src.storage.objects[loc.pack]|
  }

  /** Inside its pack a chunk reads the same whole or by range; past the end only a range may still answer. */
  lemma LocatedRoutes(src: Sources, loc: PackObject.Location, id: ChunkId)
    ensures var whole, range := ReadLocated(src.(multi := {loc.pack}), loc, id), ReadLocated(src.(multi := {}), loc, id);
            && (Inside(src, loc) ==> whole == range)
            && (whole.Ok? <==> Inside(src, loc) && range.Ok?)
            && (whole.Err? && whole.error.NoObject? <==> range.Err? && range.error.NoObject?)
            && (src.storage.ranges.Strict? ==> (whole.Ok? <==> range.Ok?))
  {
    if loc.pack in src.storage.objects {
      PackObject.SlicesAgree(src.storage.ranges, src.storage.objects[loc.pack], PackObject.PackIndexEntry(id, loc.offset, loc.size));
    }
  }

  lemma OneRoute(src: Sources, loc: PackObject.Location, id: ChunkId)
    ensures ReadLocated(src, loc, id) ==
            if loc.pack in src.multi then ReadLocated(src.(multi := {loc.pack}), loc, id) else ReadLocated(src.(multi := {}), loc, id)
  {
  }

  /**
   * Which packs are read whole does not decide what a chunk inside its pack
   * reads as, what is recorded as missing, nor, where storage refuses ranges
   * past the end, what can be read at all.
   */
  lemma RoutesAgree(src: Sources, multi: set<string>, missing: set<string>, id: ChunkId, w: Weather)
    ensures var other := src.(multi := multi);
            var here, there := ReadChunk(src, missing, id, w), ReadChunk(other, missing, id, w);
            && (Located(src, id).None? || Inside(src, Located(src, id).value) ==> here == there)
            && (src.storage.ranges.Strict? ==> (here.Ok? <==> there.Ok?))
            && MissingAfter(src, missing, id, w) == MissingAfter(other, missing, id, w)
  {
    if Located(src, id).Some? {
      var loc := Located(src, id).value;
      LocatedRoutes(src, loc, id);
      OneRoute(src, loc, id);
      OneRoute(src.(multi := multi), loc, id);
    }
  }

  /**
   * The shared cache is transparent: in every state that any interleaving of
   * any number of workers reaches, with any capacity and any evictions, a pack
   * answered by the cache yields the chunk exactly when it lies inside the
   * stored object and a range of that object yields it, and then the same bytes.
   */
  lemma CacheIsTransparent(src: Sources, s: SingleFlight.System, w: nat, loc: PackObject.Location, id: ChunkId)
    requires SingleFlight.Reachable(src.storage.objects, s) && loc.pack !in src.storage.down
    requires w < |s.workers| && s.workers[w].Done? && s.workers[w].path == loc.pack && s.workers[w].answer.Ok?
    ensures var cached := SliceAndDecode(src.tools.crypto, s.workers[w].answer.value, loc.offset, loc.size, id);
            && cached == ReadLocated(src.(multi := {loc.pack}), loc, id)
            && (cached.Ok? <==> Inside(src, loc) && ReadLocated(src.(multi := {}), loc, id).Ok?)
            && (Inside(src, loc) ==> cached == ReadLocated(src.(multi := {}), loc, id))
  {
    SingleFlight.AnswersAreStoredBytes(src.storage.objects, s, w, loc.pack);
    CachedIsWhole(src, s.workers[w].answer.value, loc, id);
    LocatedRoutes(src, loc, id);
  }

  lemma CachedIsWhole(src: Sources, data: Bytes, loc: PackObject.Location, id: ChunkId)
    requires Get(src.storage, loc.pack) == Ok(data)
    ensures SliceAndDecode(src.tools.crypto, data, loc.offset, loc.size, id) == ReadLocated(src.(multi := {loc.pack}), loc, id)
  {
  }

  // ---- the loop ----------------------------------------------------------------------

  /** The shared set of missing packs is looked up anew before each chunk. */
  function Run(src: Sources, refs: seq<ChunkRef>, moments: seq<Moment>, missing: set<string>, f: FileState, sparse: bool)
    : (Result<FileState, FetchError>, set<string>)
    requires |moments| == |refs|
  {
    if refs == [] then (Ok(f), missing)
    else
      var known, w := missing + moments[0].found, moments[0].weather;
      var read, known' := ReadChunk(src, known, refs[0].id, w), MissingAfter(src, known, refs[0].id, w);
      if read.Err? then (Err(read.error), known')
      else if w.DiskFull? then (Err(DiskError), known')
      else Run(src, refs[1..], moments[1..], known', ChunkWritten(f, refs[0].offset, read.value, sparse), sparse)
  }

  /** Whether the file can be created, what befalls each chunk, and whether the final resize and flush succeed. */
  datatype Io = Io(created: bool, moments: seq<Moment>, finished: bool)

  datatype FileOutcome = FileOutcome(error: Option<FetchError>, disk: Option<Bytes>, missing: set<string>)

  function Finished(f: FileState, refs: seq<ChunkRef>, sparse: bool): FileState {
    if sparse then Resized(f, MaxEnd(refs)) else f
  }

  /** What restoring one file answers, leaves at the destination and records as missing. */
  function Restored(src: Sources, refs: seq<ChunkRef>, io: Io, prior: Option<Bytes>, missing: set<string>, sparse: bool): FileOutcome
    requires |io.moments| == |SortByOffset(refs)|
  {
    if !io.created then FileOutcome(Some(DiskError), prior, missing)
    else
      var sorted := SortByOffset(refs);
      var run := Run(src, sorted, io.moments, missing, EMPTY_FILE, sparse);
      if run.0.Err? then FileOutcome(Some(run.0.error), None, run.1)
      else if !io.finished then FileOutcome(Some(DiskError), None, run.1)
      else FileOutcome(None, Some(Finished(run.0.value, sorted, sparse).data), run.1)
  }

  /** `write_file_with_pack_cache` and `restore_chunks`. */
  method WriteFile(src: Sources, refs: seq<ChunkRef>, io: Io, prior: Option<Bytes>, missing: set<string>, sparse: bool)
    returns (outcome: FileOutcome)
    requires |io.moments| == |SortByOffset(refs)|
    ensures outcome == Restored(src, refs, io, prior, missing, sparse)
  {
    var sorted := SortByOffset(refs);
    var totalLen := MaxEnd(sorted);
    if !io.created {
      return FileOutcome(Some(DiskError), prior, missing);
    }
    var file := new OutputFile();
    var error, known := WriteChunks(src, sorted, io.moments, missing, file, sparse);
    if error.Some? {
      return FileOutcome(error, None, known);
    }
    if sparse {
      file.SetLen(totalLen);
    }
    if !io.finished {
      return FileOutcome(Some(DiskError), None, known);
    }
    outcome := FileOutcome(None, Some(file.data), known);
  }

  /** The loop over the chunks. */
  method WriteChunks(src: Sources, sorted: seq<ChunkRef>, moments: seq<Moment>, missing: set<string>, file: OutputFile, sparse: bool)
    returns (error: Option<FetchError>, known: set<string>)
    requires |moments| == |sorted|
    modifies file
    ensures var run := Run(src, sorted, moments, missing, old(file.State()), sparse);
            && known == run.1
            && (if error.Some? then run.0 == Err(error.value) else run.0 == Ok(file.State()))
  {
    known := missing;
    ghost var result := Run(src, sorted, moments, missing, file.State(), sparse);
    var i := 0;
    assert sorted[0..] == sorted && moments[0..] == moments;
    while i < |sorted|
      invariant 0 <= i <= |sorted|
      invariant RunFrom(src, sorted, moments, i, known, file.State(), sparse) == result
    {
      RunStep(src, sorted, moments, i, known, file.State(), sparse);
      var w := moments[i].weather;
      known := known + moments[i].found;
      var read := ReadChunk(src, known, sorted[i].id, w);
      known := MissingAfter(src, known, sorted[i].id, w);
      if read.Err? {
        return Some(read.error), known;
      }
      if w.DiskFull? {
        return Some(DiskError), known;
      }
      WriteChunkMaybeSparse(file, sorted[i].offset, read.value, sparse);
      i := i + 1;
    }
    error := None;
  }

  /** The run from chunk `i` on. */
  function RunFrom(src: Sources, refs: seq<ChunkRef>, moments: seq<Moment>, i: nat, missing: set<string>, f: FileState, sparse: bool)
    : (Result<FileState, FetchError>, set<string>)
    requires |moments| == |refs| && i <= |refs|
  {
    Run(src, refs[i..], moments[i..], missing, f, sparse)
  }

  lemma RunStep(src: Sources, refs: seq<ChunkRef>, moments: seq<Moment>, i: nat, missing: set<string>, f: FileState, sparse: bool)
    requires |moments| == |refs| && i < |refs|
    ensures var known, w := missing + moments[i].found, moments[i].weather;
            var read, known' := ReadChunk(src, known, refs[i].id, w), MissingAfter(src, known, refs[i].id, w);
            RunFrom(src, refs, moments, i, missing, f, sparse) ==
              if read.Err? then (Err(read.error), known')
              else if w.DiskFull? then (Err(DiskError), known')
              else RunFrom(src, refs, moments, i + 1, known', ChunkWritten(f, refs[i].offset, read.value, sparse), sparse)
  {
    assert refs[i..][1..] == refs[i + 1..] && moments[i..][1..] == moments[i + 1..];
  }

  // ---- what is written ---------------------------------------------------------------

  /** The recorded identities and sizes are those of the plaintexts. */
  ghost predicate RecordsOf(keyedId: Bytes -> ChunkId, refs: seq<ChunkRef>, plains: seq<Bytes>) {
    |refs| == |plains| && forall i :: 0 <= i < |refs| ==> refs[i].id == keyedId(plains[i]) && refs[i].size == |plains[i]|
  }

  /** All plaintexts written in order. */
  function AllWritten(f: FileState, refs: seq<ChunkRef>, plains: seq<Bytes>, sparse: bool): FileState
    requires |refs| == |plains|
    decreases |refs|
  {
    if refs == [] then f
    else AllWritten(ChunkWritten(f, refs[0].offset, plains[0], sparse), refs[1..], plains[1..], sparse)
  }

  /** A run that ends well has written exactly the recorded plaintexts. */
  lemma {:induction false} RunWrites(src: Sources, refs: seq<ChunkRef>, moments: seq<Moment>, missing: set<string>,
                                     f: FileState, sparse: bool, plains: seq<Bytes>)
    requires |moments| == |refs| && CollisionFree(src.tools.crypto) && RecordsOf(src.tools.crypto.keyedId, refs, plains)
    ensures var r := Run(src, refs, moments, missing, f, sparse).0;
            r.Ok? ==> r.value == AllWritten(f, refs, plains, sparse)
  {
    if refs != [] {
      var known, w := missing + moments[0].found, moments[0].weather;
      ReadIsAuthentic(src, known, w, plains[0]);
      RecordsOfTail(src.tools.crypto.keyedId, refs, plains);
      RunWrites(src, refs[1..], moments[1..], MissingAfter(src, known, refs[0].id, w),
                ChunkWritten(f, refs[0].offset, plains[0], sparse), sparse, plains[1..]);
    }
  }

  lemma RecordsOfTail(keyedId: Bytes -> ChunkId, refs: seq<ChunkRef>, plains: seq<Bytes>)
    requires RecordsOf(keyedId, refs, plains) && refs != []
    ensures RecordsOf(keyedId, refs[1..], plains[1..])
  {
  }

  /** The file so far stands for `content`: bytes not yet written at its end are zeros. */
  predicate StandsFor(f: FileState, content: Bytes, sparse: bool) {
    && |f.data| <= |content| && f.data + Zeros(|content| - |f.data|) == content
    && (!sparse ==> f.cursor == |f.data| && f.data == content)
  }

  lemma ZeroChunk(data: Bytes, content: Bytes, plain: Bytes)
    requires |data| <= |content| && data + Zeros(|content| - |data|) == content && AllZero(plain)
    ensures data + Zeros(|content| + |plain| - |data|) == content + plain
  {
    assert plain == Zeros(|plain|);
    assert Zeros(|content| + |plain| - |data|) == Zeros(|content| - |data|) + Zeros(|plain|);
    Associative(data, Zeros(|content| - |data|), Zeros(|plain|));
  }

  lemma OverlayAtEnd(data: Bytes, content: Bytes, plain: Bytes)
    requires |data| <= |content| && data + Zeros(|content| - |data|) == content
    ensures plain != [] ==> Overlay(data, |content|, plain) == content + plain
  {
    if plain != [] && |data| == |content| {
      assert Zeros(0) == [] && data + Zeros(0) == data;
      assert data[..|content|] == data;
    } else if plain != [] {
      assert content[..|content|] == content;
    }
  }

  /** The next chunk in its place extends what the file stands for. */
  lemma ChunkExtends(f: FileState, content: Bytes, plain: Bytes, sparse: bool)
    requires StandsFor(f, content, sparse) && plain != []
    ensures StandsFor(ChunkWritten(f, |content|, plain, sparse), content + plain, sparse)
  {
    if sparse && AllZero(plain) {
      ZeroChunk(f.data, content, plain);
    } else {
      OverlayAtEnd(f.data, content, plain);
      assert Zeros(0) == [] && (content + plain) + Zeros(0) == content + plain;
    }
  }

  lemma {:induction false} TilingStandsFor(f: FileState, content: Bytes, refs: seq<ChunkRef>, plains: seq<Bytes>, to: nat, sparse: bool)
    requires Tiling(refs, |content|, to) && |refs| == |plains| && forall i :: 0 <= i < |refs| ==> refs[i].size == |plains[i]|
    requires StandsFor(f, content, sparse)
    ensures StandsFor(AllWritten(f, refs, plains, sparse), content + Flatten(plains), sparse)
    ensures |content + Flatten(plains)| == to
    decreases |refs|
  {
    if refs == [] {
      assert content + Flatten(plains) == content;
    } else {
      ChunkExtends(f, content, plains[0], sparse);
      TilingStandsFor(ChunkWritten(f, |content|, plains[0], sparse), content + plains[0], refs[1..], plains[1..], to, sparse);
      Associative(content, plains[0], Flatten(plains[1..]));
    }
  }

  lemma ResizeFills(f: FileState, content: Bytes, sparse: bool)
    requires StandsFor(f, content, sparse)
    ensures Resized(f, |content|).data == content
    ensures !sparse ==> f.data == content
  {
    if |f.data| == |content| {
      assert Zeros(0) == [] && f.data + Zeros(0) == f.data;
    }
  }

  /** Over a tiling, dense or sparse, the finished file is the concatenation. */
  lemma TilingFinishes(refs: seq<ChunkRef>, plains: seq<Bytes>, total: nat, sparse: bool)
    requires Tiling(refs, 0, total) && |refs| == |plains| && forall i :: 0 <= i < |refs| ==> refs[i].size == |plains[i]|
    ensures Finished(AllWritten(EMPTY_FILE, refs, plains, sparse), refs, sparse).data == Flatten(plains)
  {
    assert StandsFor(EMPTY_FILE, [], sparse);
    TilingStandsFor(EMPTY_FILE, [], refs, plains, total, sparse);
    assert [] + Flatten(plains) == Flatten(plains);
    TilingEnd(refs, 0, total);
    ResizeFills(AllWritten(EMPTY_FILE, refs, plains, sparse), Flatten(plains), sparse);
  }

  // ---- the main results -------------------------------------------------------------------

  /**
   * Output independence: whatever the sparse flag, the order the refs are
   * listed in, the route of each chunk, the set of whole-pack reads, damage,
   * cancellation and failures, the destination ends as the concatenation of the
   * recorded plaintexts or, after an error, as no file at all.
   */
  lemma OutputIndependence(src: Sources, refs: seq<ChunkRef>, io: Io, prior: Option<Bytes>, missing: set<string>, sparse: bool,
                           tiling: seq<ChunkRef>, plains: seq<Bytes>, total: nat)
    requires CollisionFree(src.tools.crypto) && RecordsOf(src.tools.crypto.keyedId, tiling, plains)
    requires Tiling(tiling, 0, total) && multiset(refs) == multiset(tiling)
    requires io.created && |io.moments| == |SortByOffset(refs)|
    ensures var o := Restored(src, refs, io, prior, missing, sparse);
            o.disk == if o.error.None? then Some(Flatten(plains)) else None
  {
    SortFindsTiling(refs, tiling, total);
    RunWrites(src, tiling, io.moments, missing, EMPTY_FILE, sparse, plains);
    TilingFinishes(tiling, plains, total, sparse);
  }

  /** The packs that other workers have found missing when chunk `i` is read. */
  function KnownAt(missing: set<string>, moments: seq<Moment>, i: nat): set<string>
    requires i < |moments|
  {
    (if i == 0 then missing else KnownAt(missing, moments, i - 1)) + moments[i].found
  }

  lemma {:induction false} KnownLater(missing: set<string>, moments: seq<Moment>, i: nat)
    requires 0 < i < |moments|
    ensures KnownAt(missing, moments, i) == KnownAt(missing + moments[0].found, moments[1..], i - 1)
  {
    if i > 1 {
      KnownLater(missing, moments, i - 1);
    } else {
      assert KnownAt(missing, moments, 0) == missing + moments[0].found;
    }
  }

  lemma {:induction false} TilingPrefix(refs: seq<ChunkRef>, from: nat, to: nat, k: nat) returns (mid: nat)
    requires Tiling(refs, from, to) && k <= |refs|
    ensures Tiling(refs[..k], from, mid)
  {
    if k == 0 {
      mid := from;
    } else {
      mid := TilingPrefix(refs[1..], from + refs[0].size, to, k - 1);
      assert refs[..k][1..] == refs[1..][..k - 1];
    }
  }

  /**
   * A file that is not finished: after any number of its chunks, dense or
   * sparse, what is on disk is a beginning of the recorded content.
   */
  lemma SoFarIsPrefix(src: Sources, tiling: seq<ChunkRef>, plains: seq<Bytes>, total: nat, k: nat, moments: seq<Moment>,
                      missing: set<string>, sparse: bool)
    requires CollisionFree(src.tools.crypto) && RecordsOf(src.tools.crypto.keyedId, tiling, plains)
    requires Tiling(tiling, 0, total) && k <= |tiling| && |moments| == k
    ensures var r := Run(src, tiling[..k], moments, missing, EMPTY_FILE, sparse).0;
            r.Ok? ==> r.value.data <= Flatten(plains)
  {
    var mid := TilingPrefix(tiling, 0, total, k);
    RunWrites(src, tiling[..k], moments, missing, EMPTY_FILE, sparse, plains[..k]);
    assert StandsFor(EMPTY_FILE, [], sparse);
    TilingStandsFor(EMPTY_FILE, [], tiling[..k], plains[..k], mid, sparse);
    assert [] + Flatten(plains[..k]) == Flatten(plains[..k]);
    assert plains == plains[..k] + plains[k..];
    FlattenAppend(plains[..k], plains[k..]);
  }

  predicate CanRead(src: Sources, missing: set<string>, moments: seq<Moment>, refs: seq<ChunkRef>, i: nat)
    requires i < |moments| == |refs|
  {
    ReadChunk(src, KnownAt(missing, moments, i), refs[i].id, Calm).Ok?
  }

  /** Every chunk can be read at first try, by the time its turn comes. */
  ghost predicate Readable(src: Sources, missing: set<string>, moments: seq<Moment>, refs: seq<ChunkRef>)
    requires |moments| == |refs|
  {
    forall i :: 0 <= i < |refs| ==> CanRead(src, missing, moments, refs, i)
  }

  lemma ReadableTail(src: Sources, missing: set<string>, moments: seq<Moment>, refs: seq<ChunkRef>)
    requires |moments| == |refs| > 0
    ensures Readable(src, missing, moments, refs) <==>
            ReadChunk(src, missing + moments[0].found, refs[0].id, Calm).Ok?
            && Readable(src, missing + moments[0].found, moments[1..], refs[1..])
  {
    var known := missing + moments[0].found;
    forall i | 0 < i < |refs|
      ensures CanRead(src, missing, moments, refs, i) <==> CanRead(src, known, moments[1..], refs[1..], i - 1) {
      KnownLater(missing, moments, i);
    }
    assert KnownAt(missing, moments, 0) == known;
    if Readable(src, known, moments[1..], refs[1..]) && CanRead(src, missing, moments, refs, 0) {
      forall i | 0 <= i < |refs| ensures CanRead(src, missing, moments, refs, i) {
        assert i > 0 ==> CanRead(src, known, moments[1..], refs[1..], i - 1);
      }
    }
    if Readable(src, missing, moments, refs) {
      forall i | 0 <= i < |refs| - 1 ensures CanRead(src, known, moments[1..], refs[1..], i) {
        assert CanRead(src, missing, moments, refs, i + 1);
      }
    }
  }

  ghost predicate AllCalm(moments: seq<Moment>) {
    forall i :: 0 <= i < |moments| ==> moments[i].weather == Calm
  }

  lemma {:induction false} CalmRun(src: Sources, refs: seq<ChunkRef>, moments: seq<Moment>, missing: set<string>, f: FileState, sparse: bool)
    requires |moments| == |refs|
    ensures Run(src, refs, moments, missing, f, sparse).0.Ok? <==> AllCalm(moments) && Readable(src, missing, moments, refs)
  {
    if refs != [] {
      var known, w := missing + moments[0].found, moments[0].weather;
      ReadableTail(src, missing, moments, refs);
      assert AllCalm(moments) <==> w == Calm && AllCalm(moments[1..]) by {
        assert forall i :: 0 < i < |moments| ==> moments[i] == moments[1..][i - 1];
      }
      var read := ReadChunk(src, known, refs[0].id, w);
      if read.Ok? && !w.DiskFull? {
        CalmRun(src, refs[1..], moments[1..], MissingAfter(src, known, refs[0].id, w),
                ChunkWritten(f, refs[0].offset, read.value, sparse), sparse);
      }
    }
  }

  /**
   * A file is restored exactly when it can be created and flushed, nothing
   * befalls any chunk, and each one can be read when its turn comes, from a pack
   * that no other worker has found missing by then; and then with the recorded
   * content.
   */
  lemma FileRestoredIff(src: Sources, refs: seq<ChunkRef>, io: Io, prior: Option<Bytes>, missing: set<string>, sparse: bool,
                        tiling: seq<ChunkRef>, plains: seq<Bytes>, total: nat)
    requires CollisionFree(src.tools.crypto) && RecordsOf(src.tools.crypto.keyedId, tiling, plains)
    requires Tiling(tiling, 0, total) && multiset(refs) == multiset(tiling) && |io.moments| == |SortByOffset(refs)|
    ensures var o := Restored(src, refs, io, prior, missing, sparse);
            && (o.error.None? <==>
                  io.created && io.finished && AllCalm(io.moments) && Readable(src, missing, io.moments, SortByOffset(refs)))
            && (o.error.None? ==> o.disk == Some(Flatten(plains)))
            && (!io.created ==> o.disk == prior)
  {
    SortFindsTiling(refs, tiling, total);
    CalmRun(src, tiling, io.moments, missing, EMPTY_FILE, sparse);
    if io.created {
      OutputIndependence(src, refs, io, prior, missing, sparse, tiling, plains, total);
    }
  }

  /** The chunks before `i` are written without trouble. */
  ghost predicate FineBefore(src: Sources, refs: seq<ChunkRef>, moments: seq<Moment>, missing: set<string>, i: nat)
    requires i <= |moments| == |refs|
  {
    forall j :: 0 <= j < i ==> moments[j].weather == Calm && CanRead(src, missing, moments, refs, j)
  }

  /** What goes wrong with chunk `i`: its read, or the write of what was read. */
  ghost predicate GoesWrong(src: Sources, refs: seq<ChunkRef>, moments: seq<Moment>, missing: set<string>, i: nat, e: FetchError)
    requires i < |moments| == |refs|
  {
    var read := ReadChunk(src, KnownAt(missing, moments, i), refs[i].id, moments[i].weather);
    if read.Err? then e == read.error else moments[i].weather.DiskFull? && e == DiskError
  }

  /** It is the first thing that goes wrong. */
  ghost predicate TroubleAt(src: Sources, refs: seq<ChunkRef>, moments: seq<Moment>, missing: set<string>, i: nat, e: FetchError)
    requires |moments| == |refs|
  {
    i < |refs| && FineBefore(src, refs, moments, missing, i) && GoesWrong(src, refs, moments, missing, i, e)
  }

  lemma TroubleTail(src: Sources, refs: seq<ChunkRef>, moments: seq<Moment>, missing: set<string>, i: nat, e: FetchError)
    requires |moments| == |refs| && 0 < i < |refs|
    ensures TroubleAt(src, refs, moments, missing, i, e) <==>
            moments[0].weather == Calm && CanRead(src, missing, moments, refs, 0)
            && TroubleAt(src, refs[1..], moments[1..], missing + moments[0].found, i - 1, e)
  {
    var known := missing + moments[0].found;
    KnownLater(missing, moments, i);
    forall j | 0 < j < |refs|
      ensures CanRead(src, missing, moments, refs, j) <==> CanRead(src, known, moments[1..], refs[1..], j - 1) {
      KnownLater(missing, moments, j);
    }
    if FineBefore(src, refs, moments, missing, i) {
      forall j | 0 <= j < i - 1 ensures moments[1..][j].weather == Calm && CanRead(src, known, moments[1..], refs[1..], j) {
        assert moments[j + 1].weather == Calm && CanRead(src, missing, moments, refs, j + 1);
      }
    }
    if moments[0].weather == Calm && CanRead(src, missing, moments, refs, 0) && FineBefore(src, refs[1..], moments[1..], known, i - 1) {
      forall j | 0 <= j < i ensures moments[j].weather == Calm && CanRead(src, missing, moments, refs, j) {
        if j > 0 {
          assert moments[1..][j - 1].weather == Calm && CanRead(src, known, moments[1..], refs[1..], j - 1);
        }
      }
    }
  }

  /** The first thing that goes wrong decides how a file fails. */
  lemma {:induction false} FailsWithIff(src: Sources, refs: seq<ChunkRef>, moments: seq<Moment>, missing: set<string>, f: FileState, sparse: bool,
                                        e: FetchError)
    requires |moments| == |refs|
    ensures Run(src, refs, moments, missing, f, sparse).0 == Err(e) <==> exists i: nat :: TroubleAt(src, refs, moments, missing, i, e)
  {
    if refs != [] {
      var known, w := missing + moments[0].found, moments[0].weather;
      var read := ReadChunk(src, known, refs[0].id, w);
      assert KnownAt(missing, moments, 0) == known;
      forall i: nat | 0 < i < |refs|
        ensures TroubleAt(src, refs, moments, missing, i, e) <==>
                w == Calm && read.Ok? && TroubleAt(src, refs[1..], moments[1..], known, i - 1, e) {
        TroubleTail(src, refs, moments, missing, i, e);
      }
      if read.Ok? && !w.DiskFull? {
        FailsWithIff(src, refs[1..], moments[1..], known, ChunkWritten(f, refs[0].offset, read.value, sparse), sparse, e);
        if i: nat :| TroubleAt(src, refs[1..], moments[1..], known, i, e) {
          assert TroubleAt(src, refs, moments, missing, i + 1, e);
        }
      } else if GoesWrong(src, refs, moments, missing, 0, e) {
        assert TroubleAt(src, refs, moments, missing, 0, e);
      }
    }
  }

  /** The object a chunk is read from. */
  function Wanted(src: Sources, id: ChunkId): string {
    if Located(src, id).Some? then Located(src, id).value.pack else src.chunkPath(id)
  }

  /** A worker leaves out a chunk whose pack is known to be missing. */
  predicate LeftOut(src: Sources, missing: set<string>, id: ChunkId) {
    src.worker && Located(src, id).Some? && Wanted(src, id) in missing
  }

  /** What the answer to a request for an object says of the object. */
  ghost predicate Tells(s: Storage, path: string, r: Result<Bytes, FetchError>) {
    && (r == Err(Unreachable(path)) <==> path in s.down)
    && (r == Err(NoObject(path)) <==> path !in s.down && path !in s.objects)
    && (r.Err? ==> !r.error.Cancelled? && !r.error.SkippedPack?)
  }

  lemma ObjectTells(src: Sources, id: ChunkId)
    ensures Tells(src.storage, src.chunkPath(id), ReadObject(src, id))
  {
  }

  lemma LocatedTells(src: Sources, loc: PackObject.Location, id: ChunkId)
    ensures Tells(src.storage, loc.pack, ReadLocated(src, loc, id))
  {
  }

  lemma FetchTells(src: Sources, loc: PackObject.Location, id: ChunkId)
    ensures Tells(src.storage, loc.pack, FetchChunkRanged(src.tools, src.storage, loc.pack, loc.offset, loc.size, id))
  {
    ReportsTheFirstError(src.tools, src.storage, loc.pack, loc.offset, loc.size, id);
  }

  /** Each error means what it says: cancelled, left out, not reachable, not there. */
  lemma ErrorsMean(src: Sources, missing: set<string>, id: ChunkId, w: Weather)
    ensures var r, path := ReadChunk(src, missing, id, w), Wanted(src, id);
            && (r == Err(Cancelled) <==> w.CancelSeen?)
            && (r == Err(SkippedPack(path)) <==> !w.CancelSeen? && LeftOut(src, missing, id))
            && (r == Err(Unreachable(path)) <==>
                  !w.CancelSeen? && !LeftOut(src, missing, id) && (w.NetworkDown? || path in src.storage.down))
            && (r == Err(NoObject(path)) <==>
                  (w.Calm? || w.DiskFull?) && !LeftOut(src, missing, id)
                  && path !in src.storage.down && path !in src.storage.objects)
  {
    if Located(src, id).Some? {
      LocatedTells(src, Located(src, id).value, id);
      FetchTells(src, Located(src, id).value, id);
    } else {
      ObjectTells(src, id);
    }
  }

  /** Every chunk that an index locates lies inside its pack. */
  ghost predicate AllInside(src: Sources, refs: seq<ChunkRef>) {
    forall i :: 0 <= i < |refs| && Located(src, refs[i].id).Some? ==> Inside(src, Located(src, refs[i].id).value)
  }

  lemma {:induction false} RunRoutes(src: Sources, multi: set<string>, refs: seq<ChunkRef>, moments: seq<Moment>,
                                     missing: set<string>, f: FileState, sparse: bool)
    requires |moments| == |refs| && AllInside(src, refs)
    ensures Run(src, refs, moments, missing, f, sparse) == Run(src.(multi := multi), refs, moments, missing, f, sparse)
  {
    if refs != [] {
      var known, w := missing + moments[0].found, moments[0].weather;
      RoutesAgree(src, multi, known, refs[0].id, w);
      var read := ReadChunk(src, known, refs[0].id, w);
      if read.Ok? {
        RunRoutes(src, multi, refs[1..], moments[1..], MissingAfter(src, known, refs[0].id, w),
                  ChunkWritten(f, refs[0].offset, read.value, sparse), sparse);
      }
    }
  }

  /**
   * The classification of packs is an optimisation only: with every chunk inside
   * its pack, which packs are read whole changes nothing, neither the error, nor
   * the file, nor what is recorded as missing.
   */
  lemma WholeReadsIrrelevant(src: Sources, multi: set<string>, refs: seq<ChunkRef>, io: Io, prior: Option<Bytes>,
                             missing: set<string>, sparse: bool)
    requires |io.moments| == |SortByOffset(refs)| && AllInside(src, refs)
    ensures Restored(src, refs, io, prior, missing, sparse) == Restored(src.(multi := multi), refs, io, prior, missing, sparse)
  {
    var sorted := SortByOffset(refs);
    SortedPermutation(refs);
    assert AllInside(src, sorted) by {
      assert forall i :: 0 <= i < |sorted| ==> sorted[i] in multiset(sorted);
    }
    RunRoutes(src, multi, sorted, io.moments, missing, EMPTY_FILE, sparse);
  }

  // ---- dense and sparse off the tiling --------------------------------------------------------

  /** In order and without overlap from `from` on, gaps allowed. */
  ghost predicate Disjoint(refs: seq<ChunkRef>, from: nat) {
    refs != [] ==> refs[0].offset >= from && refs[0].size > 0 && Disjoint(refs[1..], refs[0].offset + refs[0].size)
  }

  function SumSizes(refs: seq<ChunkRef>): nat {
    if refs == [] then 0 else refs[0].size + SumSizes(refs[1..])
  }

  lemma {:induction false} NoGapIsTiling(refs: seq<ChunkRef>, from: nat)
    requires Disjoint(refs, from)
    ensures refs != [] ==> from + SumSizes(refs) <= MaxEnd(refs)
    ensures Tiling(refs, from, from + SumSizes(refs)) <==> refs == [] || MaxEnd(refs) == from + SumSizes(refs)
  {
    if refs != [] {
      NoGapIsTiling(refs[1..], refs[0].offset + refs[0].size);
      if refs[0].offset == from && MaxEnd(refs) == from + SumSizes(refs) {
        assert refs[1..] == [] || MaxEnd(refs[1..]) == MaxEnd(refs);
      }
      if Tiling(refs, from, from + SumSizes(refs)) {
        TilingEnd(refs, from, from + SumSizes(refs));
      }
    }
  }

  /** Dense writes ignore the offsets. */
  lemma {:induction false} DenseLength(f: FileState, refs: seq<ChunkRef>, plains: seq<Bytes>)
    requires |refs| == |plains| && forall i :: 0 <= i < |refs| ==> refs[i].size == |plains[i]|
    requires f.cursor == |f.data|
    ensures |AllWritten(f, refs, plains, false).data| == |f.data| + SumSizes(refs)
    decreases |refs|
  {
    if refs != [] {
      DenseLength(ChunkWritten(f, refs[0].offset, plains[0], false), refs[1..], plains[1..]);
    }
  }

  /**
   * Off the tiling the two modes part: for refs in order without overlap, the
   * sparse file equals the dense one exactly when the refs leave no gap.
   */
  lemma DenseIsSparseIff(refs: seq<ChunkRef>, plains: seq<Bytes>)
    requires Disjoint(refs, 0) && |refs| == |plains| && forall i :: 0 <= i < |refs| ==> refs[i].size == |plains[i]|
    ensures Finished(AllWritten(EMPTY_FILE, refs, plains, false), refs, false).data ==
            Finished(AllWritten(EMPTY_FILE, refs, plains, true), refs, true).data
            <==> Tiling(refs, 0, MaxEnd(refs))
  {
    NoGapIsTiling(refs, 0);
    DenseLength(EMPTY_FILE, refs, plains);
    if Tiling(refs, 0, MaxEnd(refs)) {
      TilingFinishes(refs, plains, MaxEnd(refs), false);
      TilingFinishes(refs, plains, MaxEnd(refs), true);
    }
  }

  // ---- missing packs and damage ----------------------------------------------------------------

  /** Only packs that storage does not hold are ever recorded as missing, where the other workers do the same. */
  lemma {:induction false} MissingAreAbsent(src: Sources, refs: seq<ChunkRef>, moments: seq<Moment>, missing: set<string>,
                                            f: FileState, sparse: bool)
    requires |moments| == |refs| && missing !! src.storage.objects.Keys
    requires forall i :: 0 <= i < |moments| ==> moments[i].found !! src.storage.objects.Keys
    ensures var (r, missing') := Run(src, refs, moments, missing, f, sparse);
            && missing <= missing' && missing' !! src.storage.objects.Keys
            && (r.Err? && r.error.SkippedPack? ==> r.error.pack !in src.storage.objects)
  {
    if refs != [] {
      var known, w := missing + moments[0].found, moments[0].weather;
      var read := ReadChunk(src, known, refs[0].id, w);
      MissingAfterAbsent(src, known, refs[0].id, w);
      if read.Ok? {
        MissingAreAbsent(src, refs[1..], moments[1..], known, ChunkWritten(f, refs[0].offset, read.value, sparse), sparse);
      }
    }
  }

  /** What a worker finds absent: the pack an index names, or the object of a chunk that no index locates. */
  lemma AbsentObject(src: Sources, missing: set<string>, id: ChunkId, w: Weather, path: string)
    requires src.worker && ReadChunk(src, missing, id, w) == Err(NoObject(path))
    ensures path == if Located(src, id).Some? then Located(src, id).value.pack else src.chunkPath(id)
    ensures path !in src.storage.objects
  {
  }

  ghost predicate OwnObject(src: Sources, refs: seq<ChunkRef>, path: string) {
    exists i :: 0 <= i < |refs| && Located(src, refs[i].id).None? && src.chunkPath(refs[i].id) == path
  }

  /** A worker that fails on an absent pack has recorded it for the others. */
  lemma {:induction false} MissingIsRecorded(src: Sources, refs: seq<ChunkRef>, moments: seq<Moment>, missing: set<string>,
                                             f: FileState, sparse: bool, path: string)
    requires |moments| == |refs| && src.worker && Run(src, refs, moments, missing, f, sparse).0 == Err(NoObject(path))
    ensures path in Run(src, refs, moments, missing, f, sparse).1 || OwnObject(src, refs, path)
  {
    if refs != [] {
      var known, w := missing + moments[0].found, moments[0].weather;
      var read := ReadChunk(src, known, refs[0].id, w);
      if read.Err? {
        AbsentObject(src, known, refs[0].id, w, path);
      } else {
        MissingIsRecorded(src, refs[1..], moments[1..], MissingAfter(src, known, refs[0].id, w),
                          ChunkWritten(f, refs[0].offset, read.value, sparse), sparse, path);
        if OwnObject(src, refs[1..], path) {
          var i :| 0 <= i < |refs[1..]| && Located(src, refs[1..][i].id).None? && src.chunkPath(refs[1..][i].id) == path;
          assert refs[i + 1] == refs[1..][i];
        }
      }
    }
  }

  lemma MissingAfterAbsent(src: Sources, missing: set<string>, id: ChunkId, w: Weather)
    requires missing !! src.storage.objects.Keys
    ensures var read, missing' := ReadChunk(src, missing, id, w), MissingAfter(src, missing, id, w);
            && missing <= missing' && missing' !! src.storage.objects.Keys
            && (read.Ok? ==> missing' == missing)
            && (read.Err? && read.error.SkippedPack? ==> read.error.pack !in src.storage.objects)
  {
    if Located(src, id).Some? {
      WorkerErrors(src, Located(src, id).value, id);
      SingleErrors(src, Located(src, id).value, id);
    }
  }

  lemma WorkerErrors(src: Sources, loc: PackObject.Location, id: ChunkId)
    ensures var r := ReadLocated(src, loc, id);
            r.Err? ==> !r.error.SkippedPack? && (r.error.NoObject? ==> loc.pack !in src.storage.objects)
  {
  }

  lemma SingleErrors(src: Sources, loc: PackObject.Location, id: ChunkId)
    ensures var r := FetchChunkRanged(src.tools, src.storage, loc.pack, loc.offset, loc.size, id);
            r.Err? ==> !r.error.SkippedPack?
  {
    ReportsTheFirstError(src.tools, src.storage, loc.pack, loc.offset, loc.size, id);
  }

  /**
   * The parity is reached by the single-file restore only.  With at most m
   * shards of its pack erased, a chunk inside the stored object always comes
   * back from the single-file restore, and from a worker exactly when the very
   * bytes stored for it still decode.
   */
  lemma WorkerNeverRepairs(src: Sources, missing: set<string>, loc: PackObject.Location, pack: Bytes, packId: Bytes,
                           k: nat, m: nat, bad: Bytes, par: Bytes, plain: Bytes)
    requires CollisionFree(src.tools.crypto)
    requires Located(src, src.tools.crypto.keyedId(plain)) == Some(loc) && loc.pack !in missing
    requires Stored(src.tools, src.storage, loc.pack, packId, bad, par)
    requires Damaged(src.tools.codec, src.tools.crc, pack, packId, k, m, bad, par)
    requires Erased(src.tools.crc, bad, par, k, m, ShardSizeFor(|pack|, k)) <= m
    requires loc.offset + 4 + loc.size <= |pack| && loc.offset + 4 + loc.size <= |bad|
    requires Decode(src.tools.crypto, pack[loc.offset + 4..loc.offset + 4 + loc.size], src.tools.crypto.keyedId(plain)) == Ok(plain)
    ensures ReadChunk(src.(worker := false), missing, src.tools.crypto.keyedId(plain), Calm) == Ok(plain)
    ensures ReadChunk(src.(worker := true), missing, src.tools.crypto.keyedId(plain), Calm) == Ok(plain) <==>
            Decode(src.tools.crypto, bad[loc.offset + 4..loc.offset + 4 + loc.size], src.tools.crypto.keyedId(plain)).Ok?
  {
    SingleReads(src, missing, loc, pack, packId, k, m, bad, par, plain);
    WorkerReads(src, missing, loc, bad, plain);
  }

  lemma SingleReads(src: Sources, missing: set<string>, loc: PackObject.Location, pack: Bytes, packId: Bytes,
                    k: nat, m: nat, bad: Bytes, par: Bytes, plain: Bytes)
    requires CollisionFree(src.tools.crypto)
    requires Located(src, src.tools.crypto.keyedId(plain)) == Some(loc)
    requires Stored(src.tools, src.storage, loc.pack, packId, bad, par)
    requires Damaged(src.tools.codec, src.tools.crc, pack, packId, k, m, bad, par)
    requires Erased(src.tools.crc, bad, par, k, m, ShardSizeFor(|pack|, k)) <= m
    requires loc.offset + 4 + loc.size <= |pack| && loc.offset + 4 + loc.size <= |bad|
    requires Decode(src.tools.crypto, pack[loc.offset + 4..loc.offset + 4 + loc.size], src.tools.crypto.keyedId(plain)) == Ok(plain)
    ensures ReadChunk(src.(worker := false), missing, src.tools.crypto.keyedId(plain), Calm) == Ok(plain)
  {
    FetchedThroughParity(src, loc, pack, packId, k, m, bad, par, plain);
    SingleRoute(src, missing, loc, plain);
  }

  predicate FetchGives(src: Sources, loc: PackObject.Location, id: ChunkId, plain: Bytes) {
    FetchChunkRanged(src.tools, src.storage, loc.pack, loc.offset, loc.size, id) == Ok(plain)
  }

  /** The ranged fetch of the chunk made from `plain` gives it back. */
  ghost predicate Fetched(src: Sources, loc: PackObject.Location, plain: Bytes) {
    forall id :: id == src.tools.crypto.keyedId(plain) ==> FetchGives(src, loc, id, plain)
  }

  lemma FetchedThroughParity(src: Sources, loc: PackObject.Location, pack: Bytes, packId: Bytes,
                             k: nat, m: nat, bad: Bytes, par: Bytes, plain: Bytes)
    requires CollisionFree(src.tools.crypto)
    requires Stored(src.tools, src.storage, loc.pack, packId, bad, par)
    requires Damaged(src.tools.codec, src.tools.crc, pack, packId, k, m, bad, par)
    requires Erased(src.tools.crc, bad, par, k, m, ShardSizeFor(|pack|, k)) <= m
    requires loc.offset + 4 + loc.size <= |pack| && loc.offset + 4 + loc.size <= |bad|
    requires Decode(src.tools.crypto, pack[loc.offset + 4..loc.offset + 4 + loc.size], src.tools.crypto.keyedId(plain)) == Ok(plain)
    ensures Fetched(src, loc, plain)
  {
    ReadThroughParity(src.tools, src.storage, loc.pack, pack, packId, k, m, bad, par, loc.offset, loc.size, plain);
  }

  lemma SingleRoute(src: Sources, missing: set<string>, loc: PackObject.Location, plain: Bytes)
    requires Located(src, src.tools.crypto.keyedId(plain)) == Some(loc) && Fetched(src, loc, plain)
    ensures ReadChunk(src.(worker := false), missing, src.tools.crypto.keyedId(plain), Calm) == Ok(plain)
  {
    assert FetchGives(src, loc, src.tools.crypto.keyedId(plain), plain);
  }

  /** A worker decodes the stored bytes as they are. */
  lemma WorkerReads(src: Sources, missing: set<string>, loc: PackObject.Location, bad: Bytes, plain: Bytes)
    requires CollisionFree(src.tools.crypto)
    requires Located(src, src.tools.crypto.keyedId(plain)) == Some(loc) && loc.pack !in missing
    requires Get(src.storage, loc.pack) == Ok(bad) && loc.offset + 4 + loc.size <= |bad|
    ensures ReadChunk(src.(worker := true), missing, src.tools.crypto.keyedId(plain), Calm) == Ok(plain) <==>
            Decode(src.tools.crypto, bad[loc.offset + 4..loc.offset + 4 + loc.size], src.tools.crypto.keyedId(plain)).Ok?
  {
    var id := src.tools.crypto.keyedId(plain);
    OnlyTheOriginalDecodes(src.tools.crypto, bad[loc.offset + 4..loc.offset + 4 + loc.size], plain);
    assert PackObject.GetRange(src.storage.ranges, bad, loc.offset + 4, loc.offset + 4 + loc.size) ==
           Ok(bad[loc.offset + 4..loc.offset + 4 + loc.size]);
    assert ReadLocated(src, loc, id) == Decode(src.tools.crypto, bad[loc.offset + 4..loc.offset + 4 + loc.size], id);
  }
}
