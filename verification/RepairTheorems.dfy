/** What a repair gives back when the `.par` object is the writer's. */
module RepairTheorems {
  import opened Basics
  import opened ErasureCode
  import opened Parity
  import ReedSolomon

  // ---- the layout round trip -------------------------------------------------------

  /** The sizes that fit the fields of the header. */
  predicate Encodable(pack: Bytes, id: Bytes, k: nat, m: nat) {
    ValidGeometry(k, m) && |id| == ID_LEN && |pack| < 0x1_0000_0000_0000_0000
  }

  lemma HeaderFields(id: Bytes, k: nat, m: nat, size: nat, packLen: nat)
    requires |id| == ID_LEN
    ensures var h := Header(id, k, m, size, packLen);
            && |h| == 42 && h[0..4] == PAR_MAGIC && h[4..6] == ToBigEndian(PAR_VERSION, 2) && h[6..22] == id
            && h[22..24] == ToBigEndian(k, 2) && h[24..26] == ToBigEndian(m, 2)
            && h[26..34] == ToBigEndian(size, 8) && h[34..42] == ToBigEndian(packLen, 8)
  {
    FieldSlices(PAR_MAGIC, ToBigEndian(PAR_VERSION, 2), id, ToBigEndian(k, 2), ToBigEndian(m, 2),
                ToBigEndian(size, 8), ToBigEndian(packLen, 8));
  }

  lemma FieldSlices(a: Bytes, b: Bytes, c: Bytes, d: Bytes, e: Bytes, f: Bytes, g: Bytes)
    requires |a| == 4 && |b| == 2 && |c| == 16 && |d| == 2 && |e| == 2 && |f| == 8 && |g| == 8
    ensures var h := a + b + c + d + e + f + g;
            h[0..4] == a && h[4..6] == b && h[6..22] == c && h[22..24] == d && h[24..26] == e && h[26..34] == f && h[34..42] == g
  {
  }

  lemma {:induction false} CrcTableAt(crcs: seq<nat>, i: nat)
    requires i < |crcs|
    ensures CrcTable(crcs)[4 * i..4 * i + 4] == ToBigEndian(crcs[i], 4)
  {
    if i > 0 {
      CrcTableAt(crcs[1..], i - 1);
      assert CrcTable(crcs)[4..] == CrcTable(crcs[1..]);
      SliceOfSlice(CrcTable(crcs), 4, 4 * |crcs|, 4 * (i - 1), 4 * (i - 1) + 4);
      assert CrcTable(crcs)[4..4 * |crcs|] == CrcTable(crcs)[4..];
    }
  }

  lemma SubSlice(whole: Bytes, prefix: Bytes, a: nat, b: nat)
    requires a <= b <= |prefix| <= |whole| && whole[..|prefix|] == prefix
    ensures whole[a..b] == prefix[a..b]
  {
    forall i | 0 <= i < b - a ensures whole[a..b][i] == prefix[a..b][i] {
      assert whole[a + i] == whole[..|prefix|][a + i];
    }
  }

  /** An object that starts with the writer's header is accepted, with the writer's fields. */
  lemma HeaderReadsBack(crc: Checksum, par: Bytes, id: Bytes, k: nat, m: nat, size: nat, packLen: nat)
    requires ValidGeometry(k, m) && |id| == ID_LEN
    requires 0 < size < 0x1_0000_0000_0000_0000 && packLen < 0x1_0000_0000_0000_0000
    requires |par| >= PAR_HEADER_LEN + (k + m) * 4 + m * size
    requires |par| >= PAR_HEADER_LEN
    requires var h := Header(id, k, m, size, packLen); par[..PAR_HEADER_LEN] == h + ToBigEndian(crc(h), 4)
    ensures HeaderAccepted(crc, par, id)
    ensures Geometry(par) == (k, m, size, packLen)
  {
    OneLess(m, size);
    var h := Header(id, k, m, size, packLen);
    HeaderFields(id, k, m, size, packLen);
    HeaderParts(h, ToBigEndian(crc(h), 4), par);
    Widths();
    BigEndianRoundTrip(PAR_VERSION, 2);
    BigEndianRoundTrip(crc(h), 4);
    BigEndianRoundTrip(k, 2);
    BigEndianRoundTrip(m, 2);
    BigEndianRoundTrip(size, 8);
    BigEndianRoundTrip(packLen, 8);
  }

  /** The writer's checksum table reads back. */
  lemma TableReadsBack(crc: Checksum, par: Bytes, code: seq<Bytes>)
    requires |par| >= PAR_HEADER_LEN + 4 * |code|
    requires par[PAR_HEADER_LEN..PAR_HEADER_LEN + 4 * |code|] == CrcTable(CrcsOf(crc, code))
    ensures StoredCrcs(par, |code|) == CrcsOf(crc, code)
  {
    var table := CrcTable(CrcsOf(crc, code));
    forall i | 0 <= i < |code| ensures StoredCrcs(par, |code|)[i] == CrcsOf(crc, code)[i] {
      SliceOfSlice(par, PAR_HEADER_LEN, PAR_HEADER_LEN + 4 * |code|, 4 * i, 4 * i + 4);
      CrcTableAt(CrcsOf(crc, code), i);
      WordReadsBack(crc(code[i]));
    }
  }

  lemma WordReadsBack(w: Word)
    ensures FromBigEndian(ToBigEndian(w, 4)) == w
  {
    Widths();
    BigEndianRoundTrip(w, 4);
  }

  lemma SliceOfSlice(b: Bytes, from: nat, end: nat, x: nat, y: nat)
    requires from <= end <= |b| && x <= y <= end - from
    ensures b[from..end][x..y] == b[from + x..from + y]
  {
    var u, v := b[from..end][x..y], b[from + x..from + y];
    forall i | 0 <= i < |u| ensures u[i] == v[i] {
      assert u[i] == b[from..end][x + i];
    }
  }

  lemma HeaderParts(h: Bytes, sum: Bytes, par: Bytes)
    requires |h| == 42 && |sum| == 4 && |par| >= 46 && par[..46] == h + sum
    ensures par[0..42] == h && par[42..46] == sum
    ensures forall a, b | 0 <= a <= b <= 42 :: par[a..b] == h[a..b]
  {
    forall a, b | 0 <= a <= b <= 42 ensures par[a..b] == h[a..b] {
      SubSlice(par, h + sum, a, b);
      SubSlice(h + sum, h, a, b);
    }
    SubSlice(par, h + sum, 42, 46);
  }

  // ---- how much damage --------------------------------------------------------------

  /** How many shards differ. */
  function Differing(seen: seq<Bytes>, good: seq<Bytes>): nat
    requires |seen| == |good|
  {
    if seen == [] then 0 else (if seen[0] != good[0] then 1 else 0) + Differing(seen[1..], good[1..])
  }

  lemma {:induction false} MissingIsDiffering(marked: seq<Option<Bytes>>, seen: seq<Bytes>, good: seq<Bytes>)
    requires |marked| == |seen| == |good|
    requires forall i :: 0 <= i < |marked| ==> (marked[i].None? <==> seen[i] != good[i])
    ensures Missing(marked) == Differing(seen, good)
  {
    if marked != [] {
      assert forall i :: 0 < i < |marked| ==> marked[i] == marked[1..][i - 1] && seen[i] == seen[1..][i - 1] && good[i] == good[1..][i - 1];
      MissingIsDiffering(marked[1..], seen[1..], good[1..]);
    }
  }

  lemma {:induction false} NoneDiffer(seen: seq<Bytes>, good: seq<Bytes>)
    requires |seen| == |good|
    ensures Differing(seen, good) == 0 <==> seen == good
  {
    if seen != [] {
      NoneDiffer(seen[1..], good[1..]);
      assert seen == [seen[0]] + seen[1..] && good == [good[0]] + good[1..];
    }
  }

  /** A shard that matches its stored checksum is the original shard. */
  ghost predicate ChecksumsTell(crc: Checksum, seen: seq<Bytes>, stored: seq<nat>, good: seq<Bytes>) {
    |seen| == |stored| == |good| && forall i :: 0 <= i < |good| && crc(seen[i]) == stored[i] ==> seen[i] == good[i]
  }

  /** The header is as written, and the parity area is all there. */
  ghost predicate KeptHeader(codec: Codec, crc: Checksum, pack: Bytes, id: Bytes, k: nat, m: nat, par: Bytes) {
    var written := EncodeParity(codec, crc, pack, id, k, m);
    && written.Ok? && |written.value| >= PAR_HEADER_LEN && |par| >= PAR_HEADER_LEN
    && par[..PAR_HEADER_LEN] == written.value[..PAR_HEADER_LEN]
    && k >= 1 && |par| >= PAR_HEADER_LEN + (k + m) * 4 + m * ShardSizeFor(|pack|, k)
  }

  /**
   * The situation of a repair: the `.par` object kept its header (a damaged one
   * is refused) while any byte of the pack, its length, any table entry and any
   * parity byte may have changed; no changed shard passes for an intact one.
   */
  ghost predicate Damaged(codec: Codec, crc: Checksum, pack: Bytes, id: Bytes, k: nat, m: nat, bad: Bytes, par: Bytes) {
    && IsErasureCode(codec) && Encodable(pack, id, k, m)
    && KeptHeader(codec, crc, pack, id, k, m, par)
    && ChecksumsTell(crc, Seen(bad, par, k, m, ShardSizeFor(|pack|, k)), Table(par, k, m, ShardSizeFor(|pack|, k)),
                     CodeWord(codec, pack, k, m))
  }

  /** The checksum table as found in storage. */
  function Table(par: Bytes, k: nat, m: nat, size: nat): (crcs: seq<nat>)
    requires |par| >= PAR_HEADER_LEN + (k + m) * 4 + m * size
    ensures |crcs| == k + m
  {
    OneLess(m, size);
    StoredCrcs(par, k + m)
  }

  /** The number of shards that do not match their stored checksum. */
  function Erased(crc: Checksum, bad: Bytes, par: Bytes, k: nat, m: nat, size: nat): nat
    requires |par| >= PAR_HEADER_LEN + (k + m) * 4 + m * size
  {
    Missing(Marked(crc, Seen(bad, par, k, m, size), Table(par, k, m, size)))
  }

  /** The shards as found in storage. */
  function Seen(bad: Bytes, par: Bytes, k: nat, m: nat, size: nat): (seen: seq<Bytes>)
    requires |par| >= PAR_HEADER_LEN + (k + m) * 4 + m * size
    ensures |seen| == k + m
  {
    OneLess(m, size);
    DataShards(bad, k, size) + StoredParity(par, PAR_HEADER_LEN + (k + m) * 4, m, size)
  }

  /** The code word of a pack is made of shards of one size, and encoding is the contract's. */
  lemma CodeWordShards(codec: Codec, pack: Bytes, k: nat, m: nat)
    requires IsErasureCode(codec) && ValidGeometry(k, m)
    ensures AreShards(CodeWord(codec, pack, k, m), k + m, ShardSizeFor(|pack|, k))
    ensures forall shards :: Agrees(shards, CodeWord(codec, pack, k, m)) && Missing(shards) <= m ==>
              codec.reconstruct(k, m, shards) == Some(CodeWord(codec, pack, k, m))
  {
    var size := ShardSizeFor(|pack|, k);
    assert Corrects(codec, k, m, size, DataShards(pack, k, size));
  }

  lemma PreambleLength(crc: Checksum, id: Bytes, packLen: nat, k: nat, m: nat, size: nat, code: seq<Bytes>)
    requires |id| == ID_LEN && |code| == k + m
    ensures |Preamble(crc, id, packLen, k, m, size, code)| == PAR_HEADER_LEN + 4 * (k + m)
  {
  }

  /** A damaged pair is still parsed, with the writer's geometry. */
  lemma DamagedIsAccepted(codec: Codec, crc: Checksum, pack: Bytes, id: Bytes, k: nat, m: nat, bad: Bytes, par: Bytes)
    requires Damaged(codec, crc, pack, id, k, m, bad, par)
    ensures HeaderAccepted(crc, par, id)
    ensures Geometry(par) == (k, m, ShardSizeFor(|pack|, k), |pack|)
  {
    var size, code := ShardSizeFor(|pack|, k), CodeWord(codec, pack, k, m);
    CodeWordShards(codec, pack, k, m);
    var h := Header(id, k, m, size, |pack|);
    var written := EncodeParity(codec, crc, pack, id, k, m).value;
    assert written[..PAR_HEADER_LEN] == h + ToBigEndian(crc(h), 4);
    HeaderReadsBack(crc, par, id, k, m, size, |pack|);
  }

  /** With an intact table and a checksum that tells changed shards, the erasures are the changed shards. */
  lemma ErasuresAreChanges(crc: Checksum, seen: seq<Bytes>, good: seq<Bytes>)
    requires |seen| == |good|
    requires forall i :: 0 <= i < |good| && seen[i] != good[i] ==> crc(seen[i]) != crc(good[i])
    ensures ChecksumsTell(crc, seen, CrcsOf(crc, good), good)
    ensures Missing(Marked(crc, seen, CrcsOf(crc, good))) == Differing(seen, good)
  {
    MissingIsDiffering(Marked(crc, seen, CrcsOf(crc, good)), seen, good);
  }

  /** No erasure means that every shard is the original. */
  lemma {:induction false} NoneErased(crc: Checksum, seen: seq<Bytes>, stored: seq<nat>, good: seq<Bytes>)
    requires ChecksumsTell(crc, seen, stored, good) && Missing(Marked(crc, seen, stored)) == 0
    ensures seen == good
  {
    MissingIsNone(Marked(crc, seen, stored));
    forall i | 0 <= i < |good| ensures seen[i] == good[i] {
      assert Marked(crc, seen, stored)[i].Some?;
    }
  }

  lemma {:induction false} MissingIsNone(shards: seq<Option<Bytes>>)
    ensures Missing(shards) == 0 <==> forall i :: 0 <= i < |shards| ==> shards[i].Some?
  {
    if shards != [] {
      MissingIsNone(shards[1..]);
      assert shards == [shards[0]] + shards[1..];
    }
  }

  /** Joining the data shards and cutting to the recorded length gives the pack. */
  lemma JoinedIsPack(codec: Codec, pack: Bytes, k: nat, m: nat)
    requires ValidGeometry(k, m)
    ensures |CodeWord(codec, pack, k, m)| >= k
    ensures Truncated(Flatten(CodeWord(codec, pack, k, m)[..k]), |pack|) == pack
  {
    var size := ShardSizeFor(|pack|, k);
    var data := DataShards(pack, k, size);
    assert CodeWord(codec, pack, k, m)[..k] == data;
    FlattenShards(pack, 0, k, size);
    assert 0 * size == 0 && (k - 0) * size == k * size;
    WindowOfWhole(pack, k * size);
  }

  // ---- the repair round trip ------------------------------------------------------------

  /**
   * Repair, by the number d of erasures: none, and the input comes back
   * unchanged; up to m, and the original pack comes back byte for byte with d
   * erasures reported; more than m, and it is refused.
   */
  lemma RepairRoundTrip(codec: Codec, crc: Checksum, pack: Bytes, id: Bytes, k: nat, m: nat, bad: Bytes, par: Bytes)
    requires Damaged(codec, crc, pack, id, k, m, bad, par)
    ensures var d := Erased(crc, bad, par, k, m, ShardSizeFor(|pack|, k));
            Repaired(codec, crc, bad, par, id) ==
              if d == 0 then Ok(RepairOutcome(bad, false, 0))
              else if d <= m then Ok(RepairOutcome(pack, true, d))
              else Err(IntegrityMismatch(m, d))
  {
    var good, size := CodeWord(codec, pack, k, m), ShardSizeFor(|pack|, k);
    DamagedIsAccepted(codec, crc, pack, id, k, m, bad, par);
    CodeWordShards(codec, pack, k, m);
    JoinedIsPack(codec, pack, k, m);
    RepairDecision(codec, crc, pack, id, k, m, size, good, bad, par);
  }

  /** The decision of the repair once the `.par` object has been read. */
  lemma RepairDecision(codec: Codec, crc: Checksum, pack: Bytes, id: Bytes, k: nat, m: nat, size: nat, good: seq<Bytes>,
                       bad: Bytes, par: Bytes)
    requires HeaderAccepted(crc, par, id) && Geometry(par) == (k, m, size, |pack|)
    requires |good| == k + m
    requires ChecksumsTell(crc, Seen(bad, par, k, m, size), Table(par, k, m, size), good)
    requires forall shards :: Agrees(shards, good) && Missing(shards) <= m ==> codec.reconstruct(k, m, shards) == Some(good)
    requires Truncated(Flatten(good[..k]), |pack|) == pack
    ensures var d := Erased(crc, bad, par, k, m, size);
            Repaired(codec, crc, bad, par, id) ==
              if d == 0 then Ok(RepairOutcome(bad, false, 0))
              else if d <= m then Ok(RepairOutcome(pack, true, d))
              else Err(IntegrityMismatch(m, d))
  {
    OneLess(m, size);
    ReadParFields(par, k, m, size, |pack|);
    var file := ReadBody(par, k, m, size, |pack|);
    var marked := Marked(crc, Seen(bad, par, k, m, size), Table(par, k, m, size));
    BodyShards(bad, par, k, m, size, |pack|);
    DecidedByErasures(codec, crc, bad, par, id, file, marked);
    MarkedAgree(crc, Seen(bad, par, k, m, size), Table(par, k, m, size), good);
  }

  lemma BodyShards(bad: Bytes, par: Bytes, k: nat, m: nat, size: nat, packLen: nat)
    requires |par| >= PAR_HEADER_LEN + (k + m) * 4 + m * size
    ensures var file := ReadBody(par, k, m, size, packLen);
            && file.k == k && file.m == m && file.packLen == packLen
            && SeenShards(bad, file) == Seen(bad, par, k, m, size) && file.crcs == Table(par, k, m, size)
  {
    OneLess(m, size);
  }

  lemma MarkedAgree(crc: Checksum, seen: seq<Bytes>, stored: seq<nat>, good: seq<Bytes>)
    requires ChecksumsTell(crc, seen, stored, good)
    ensures Agrees(Marked(crc, seen, stored), good)
  {
  }

  lemma DecidedByErasures(codec: Codec, crc: Checksum, bad: Bytes, par: Bytes, id: Bytes, file: ParFile, marked: seq<Option<Bytes>>)
    requires HeaderAccepted(crc, par, id) && ReadPar(par) == file
    requires |SeenShards(bad, file)| <= |file.crcs| && marked == Marked(crc, SeenShards(bad, file), file.crcs)
    ensures var d := Missing(marked);
            Repaired(codec, crc, bad, par, id) ==
              if d == 0 then Ok(RepairOutcome(bad, false, 0))
              else if d > file.m then Err(IntegrityMismatch(file.m, d))
              else match codec.reconstruct(file.k, file.m, marked)
                case None => Err(CodecError)
                case Some(code) =>
                  Ok(RepairOutcome(Truncated(Flatten(if file.k <= |code| then code[..file.k] else code), file.packLen), true, d))
  {
  }

  lemma ReadParFields(par: Bytes, k: nat, m: nat, size: nat, packLen: nat)
    requires |par| >= PAR_HEADER_LEN && Geometry(par) == (k, m, size, packLen)
    requires |par| >= PAR_HEADER_LEN + (k + m) * 4 + m * size
    ensures ReadPar(par) == ReadBody(par, k, m, size, packLen)
  {
    var g := Geometry(par);
    SameBody(par, g, k, m, size, packLen);
  }

  lemma SameBody(par: Bytes, g: (nat, nat, nat, nat), k: nat, m: nat, size: nat, packLen: nat)
    requires g == (k, m, size, packLen) && |par| >= PAR_HEADER_LEN + (k + m) * 4 + m * size
    ensures |par| >= PAR_HEADER_LEN + (g.0 + g.1) * 4 + g.1 * g.2
    ensures ReadBody(par, g.0, g.1, g.2, g.3) == ReadBody(par, k, m, size, packLen)
  {
  }

  lemma SameGridSameBytes(a: Bytes, b: Bytes, k: nat, size: nat)
    requires |b| <= k * size
    requires DataShards(a, k, size) == DataShards(b, k, size)
    ensures forall x :: 0 <= x < k * size ==> ByteAt(a, x) == ByteAt(b, x)
    ensures a == b <==> |a| == |b|
  {
    FlattenShards(a, 0, k, size);
    FlattenShards(b, 0, k, size);
    assert 0 * size == 0 && (k - 0) * size == k * size;
    forall x | 0 <= x < k * size ensures ByteAt(a, x) == ByteAt(b, x) {
      assert Window(a, 0, k * size)[x] == Window(b, 0, k * size)[x];
    }
    if |a| == |b| {
      forall x | 0 <= x < |a| ensures a[x] == b[x] {
        assert ByteAt(a, x) == ByteAt(b, x);
      }
    }
  }

  /**
   * Exactly when the answer is the original pack: some but not too many
   * erasures, or none and the right length.  With no erasure the input agrees
   * with the pack on the whole zero-padded grid.
   */
  lemma RepairedIffRepairable(codec: Codec, crc: Checksum, pack: Bytes, id: Bytes, k: nat, m: nat, bad: Bytes, par: Bytes)
    requires Damaged(codec, crc, pack, id, k, m, bad, par)
    ensures var size := ShardSizeFor(|pack|, k);
            var d := Erased(crc, bad, par, k, m, size);
            var r := Repaired(codec, crc, bad, par, id);
            && (r.Ok? && r.value.bytes == pack <==> (1 <= d <= m || (d == 0 && |bad| == |pack|)))
            && (d == 0 ==> forall x :: 0 <= x < k * size ==> ByteAt(bad, x) == ByteAt(pack, x))
  {
    var size, good := ShardSizeFor(|pack|, k), CodeWord(codec, pack, k, m);
    RepairRoundTrip(codec, crc, pack, id, k, m, bad, par);
    if Erased(crc, bad, par, k, m, size) == 0 {
      var seen := Seen(bad, par, k, m, size);
      NoneErased(crc, seen, Table(par, k, m, size), good);
      assert seen[..k] == DataShards(bad, k, size) && good[..k] == DataShards(pack, k, size);
      SameGridSameBytes(bad, pack, k, size);
    }
  }

  /**
   * The same in terms of what changed, with an intact table and a checksum that
   * tells every changed shard: up to m changed data or parity shards are undone.
   */
  lemma ChangedShardsAreUndone(codec: Codec, crc: Checksum, pack: Bytes, id: Bytes, k: nat, m: nat, bad: Bytes, par: Bytes)
    requires IsErasureCode(codec) && Encodable(pack, id, k, m) && KeptHeader(codec, crc, pack, id, k, m, par)
    requires var size, good := ShardSizeFor(|pack|, k), CodeWord(codec, pack, k, m);
             var seen := Seen(bad, par, k, m, size);
             && |good| == k + m && Table(par, k, m, size) == CrcsOf(crc, good)
             && forall i :: 0 <= i < |good| && seen[i] != good[i] ==> crc(seen[i]) != crc(good[i])
    ensures var d := Differing(Seen(bad, par, k, m, ShardSizeFor(|pack|, k)), CodeWord(codec, pack, k, m));
            Repaired(codec, crc, bad, par, id) ==
              if d == 0 then Ok(RepairOutcome(bad, false, 0))
              else if d <= m then Ok(RepairOutcome(pack, true, d))
              else Err(IntegrityMismatch(m, d))
  {
    ErasuresAreChanges(crc, Seen(bad, par, k, m, ShardSizeFor(|pack|, k)), CodeWord(codec, pack, k, m));
    RepairRoundTrip(codec, crc, pack, id, k, m, bad, par);
  }

  /**
   * A pack that lost a trailing zero byte is not repaired: no shard changed, so
   * the shortened input is returned as it is.
   */
  lemma LostTrailingZero(codec: Codec, crc: Checksum, pack: Bytes, id: Bytes, k: nat, m: nat)
    requires IsErasureCode(codec) && Encodable(pack, id, k, m) && |pack| > 0 && pack[|pack| - 1] == 0
    ensures var bad := pack[..|pack| - 1];
            var par := EncodeParity(codec, crc, pack, id, k, m).value;
            Damaged(codec, crc, pack, id, k, m, bad, par)
            && Repaired(codec, crc, bad, par, id) == Ok(RepairOutcome(bad, false, 0)) && bad != pack
  {
    UnchangedIsUnrepaired(codec, crc, pack, id, k, m, pack[..|pack| - 1]);
  }

  lemma UnchangedIsUnrepaired(codec: Codec, crc: Checksum, pack: Bytes, id: Bytes, k: nat, m: nat, bad: Bytes)
    requires IsErasureCode(codec) && Encodable(pack, id, k, m)
    requires forall x: nat :: ByteAt(bad, x) == ByteAt(pack, x)
    ensures EncodeParity(codec, crc, pack, id, k, m).Ok?
    ensures Damaged(codec, crc, pack, id, k, m, bad, EncodeParity(codec, crc, pack, id, k, m).value)
    ensures Repaired(codec, crc, bad, EncodeParity(codec, crc, pack, id, k, m).value, id) == Ok(RepairOutcome(bad, false, 0))
  {
    var good := CodeWord(codec, pack, k, m);
    AsWritten(codec, crc, pack, id, k, m);
    UnchangedGrid(codec, crc, pack, id, k, m, bad);
    NoneDiffer(good, good);
    ErasuresAreChanges(crc, good, good);
    RepairRoundTrip(codec, crc, pack, id, k, m, bad, EncodeParity(codec, crc, pack, id, k, m).value);
  }

  /** An input equal to the pack on the padded grid, with the intact `.par`, shows no change. */
  lemma UnchangedGrid(codec: Codec, crc: Checksum, pack: Bytes, id: Bytes, k: nat, m: nat, bad: Bytes)
    requires IsErasureCode(codec) && Encodable(pack, id, k, m)
    requires forall x: nat :: ByteAt(bad, x) == ByteAt(pack, x)
    ensures EncodeParity(codec, crc, pack, id, k, m).Ok?
    ensures KeptHeader(codec, crc, pack, id, k, m, EncodeParity(codec, crc, pack, id, k, m).value)
    ensures Seen(bad, EncodeParity(codec, crc, pack, id, k, m).value, k, m, ShardSizeFor(|pack|, k)) == CodeWord(codec, pack, k, m)
  {
    AsWritten(codec, crc, pack, id, k, m);
    var size, good := ShardSizeFor(|pack|, k), CodeWord(codec, pack, k, m);
    SameShards(bad, pack, 0, k, size);
    assert good[..k] == DataShards(pack, k, size);
    SeenIs(bad, EncodeParity(codec, crc, pack, id, k, m).value, k, m, size, good);
  }

  lemma SeenIs(bad: Bytes, par: Bytes, k: nat, m: nat, size: nat, good: seq<Bytes>)
    requires |par| >= PAR_HEADER_LEN + (k + m) * 4 + m * size && m * size >= 0
    requires |good| == k + m && DataShards(bad, k, size) == good[..k]
    requires StoredParity(par, PAR_HEADER_LEN + (k + m) * 4, m, size) == good[k..]
    ensures Seen(bad, par, k, m, size) == good
  {
  }

  lemma {:induction false} SameShards(a: Bytes, b: Bytes, i: nat, k: nat, size: nat)
    requires i <= k && forall x: nat :: ByteAt(a, x) == ByteAt(b, x)
    ensures ShardsFrom(a, i, k, size) == ShardsFrom(b, i, k, size)
    decreases k - i
  {
    if i < k {
      SameShards(a, b, i + 1, k, size);
      assert Window(a, i * size, size) == Window(b, i * size, size);
    }
  }

  /** The writer's object has its own header, its own table and its own parity. */
  lemma AsWritten(codec: Codec, crc: Checksum, pack: Bytes, id: Bytes, k: nat, m: nat)
    requires IsErasureCode(codec) && Encodable(pack, id, k, m)
    ensures EncodeParity(codec, crc, pack, id, k, m).Ok?
    ensures var par := EncodeParity(codec, crc, pack, id, k, m).value;
            var size := ShardSizeFor(|pack|, k);
            && KeptHeader(codec, crc, pack, id, k, m, par) && m * size >= 0
            && |CodeWord(codec, pack, k, m)| == k + m
            && Table(par, k, m, size) == CrcsOf(crc, CodeWord(codec, pack, k, m))
            && StoredParity(par, PAR_HEADER_LEN + (k + m) * 4, m, size) == CodeWord(codec, pack, k, m)[k..]
  {
    var size, code := ShardSizeFor(|pack|, k), CodeWord(codec, pack, k, m);
    CodeWordShards(codec, pack, k, m);
    LaidOut(crc, id, |pack|, k, m, size, code);
  }

  lemma LaidOut(crc: Checksum, id: Bytes, packLen: nat, k: nat, m: nat, size: nat, code: seq<Bytes>)
    requires |id| == ID_LEN && AreShards(code, k + m, size)
    ensures var par := Preamble(crc, id, packLen, k, m, size, code) + Flatten(code[k..]);
            && |par| >= PAR_HEADER_LEN + (k + m) * 4 + m * size && m * size >= 0
            && StoredCrcs(par, k + m) == CrcsOf(crc, code)
            && StoredParity(par, PAR_HEADER_LEN + (k + m) * 4, m, size) == code[k..]
  {
    var pre := Preamble(crc, id, packLen, k, m, size, code);
    PreambleLength(crc, id, packLen, k, m, size, code);
    BodyLaidOut(pre, k, m, size, code);
    PreambleTable(crc, id, packLen, k, m, size, code, pre + Flatten(code[k..]));
  }

  /** Behind a header and table of the right length. */
  lemma BodyLaidOut(pre: Bytes, k: nat, m: nat, size: nat, code: seq<Bytes>)
    requires |pre| == PAR_HEADER_LEN + 4 * (k + m) && AreShards(code, k + m, size)
    ensures var par := pre + Flatten(code[k..]);
            && |par| >= PAR_HEADER_LEN + (k + m) * 4 + m * size && m * size >= 0
            && StoredParity(par, PAR_HEADER_LEN + (k + m) * 4, m, size) == code[k..]
  {
    ParityPart(code, k, m, size);
    ParityLaidOut(pre, code[k..], m, size);
  }

  lemma ParityPart(code: seq<Bytes>, k: nat, m: nat, size: nat)
    requires AreShards(code, k + m, size)
    ensures AreShards(code[k..], m, size)
  {
  }

  lemma ParityLaidOut(pre: Bytes, parity: seq<Bytes>, m: nat, size: nat)
    requires AreShards(parity, m, size)
    ensures m * size >= 0 && |pre + Flatten(parity)| == |pre| + m * size
    ensures StoredParity(pre + Flatten(parity), |pre|, m, size) == parity
  {
    OneLess(m, size);
    FlattenLength(parity, m, size);
    var par := pre + Flatten(parity);
    assert par[|pre|..|pre| + m * size] == Flatten(parity);
    StoredIsWritten(par, |pre|, parity, m, size);
  }

  lemma PreambleTable(crc: Checksum, id: Bytes, packLen: nat, k: nat, m: nat, size: nat, code: seq<Bytes>, par: Bytes)
    requires |id| == ID_LEN && |code| == k + m
    requires |par| >= PAR_HEADER_LEN + 4 * (k + m) && Preamble(crc, id, packLen, k, m, size, code) <= par
    ensures StoredCrcs(par, k + m) == CrcsOf(crc, code)
  {
    var pre := Preamble(crc, id, packLen, k, m, size, code);
    PreambleLength(crc, id, packLen, k, m, size, code);
    assert pre[PAR_HEADER_LEN..] == CrcTable(CrcsOf(crc, code));
    SubSlice(par, pre, PAR_HEADER_LEN, |pre|);
    TableReadsBack(crc, par, code);
  }

  lemma {:induction false} FlattenLength(parity: seq<Bytes>, m: nat, size: nat)
    requires AreShards(parity, m, size)
    ensures |Flatten(parity)| == m * size
  {
    if m > 0 {
      FlattenLength(parity[1..], m - 1, size);
      OneLess(m, size);
    }
  }

  /** The parity area, as written, reads back shard by shard. */
  lemma {:induction false} StoredIsWritten(par: Bytes, at: nat, parity: seq<Bytes>, m: nat, size: nat)
    requires AreShards(parity, m, size)
    requires at + m * size <= |par| && par[at..at + m * size] == Flatten(parity)
    ensures StoredParity(par, at, m, size) == parity
    decreases m
  {
    if m > 0 {
      var rest := parity[1..];
      OneLess(m, size);
      OneLess(m - 1, size);
      FlattenLength(rest, m - 1, size);
      assert par[at..at + size] == parity[0] by {
        assert par[at..at + size] == par[at..at + m * size][..size];
      }
      assert par[at + size..at + size + (m - 1) * size] == Flatten(rest) by {
        assert par[at + size..at + size + (m - 1) * size] == par[at..at + m * size][size..];
      }
      StoredIsWritten(par, at + size, rest, m - 1, size);
      assert parity == [parity[0]] + rest;
    }
  }

  lemma {:induction false} DifferOnce(seen: seq<Bytes>, good: seq<Bytes>, i: nat)
    requires |seen| == |good| && i < |good|
    requires forall j :: 0 <= j < |good| ==> (seen[j] != good[j] <==> j == i)
    ensures Differing(seen, good) == 1
  {
    if i == 0 {
      NoneDiffer(seen[1..], good[1..]);
      assert seen[1..] == good[1..];
    } else {
      DifferOnce(seen[1..], good[1..], i - 1);
    }
  }

  function ShardOf(bytes: Bytes, j: nat, size: nat): Bytes {
    Window(bytes, j * size, size)
  }

  /** The first `k` shards are the same but for shard `i`. */
  ghost predicate SameBut(pack: Bytes, bad: Bytes, k: nat, size: nat, i: nat) {
    forall j :: 0 <= j < k && j != i ==> ShardOf(bad, j, size) == ShardOf(pack, j, size)
  }

  /** One damaged data shard, any bytes of it, with the writer's intact `.par`: the pack comes back. */
  lemma OneShardIsUndone(codec: Codec, crc: Checksum, pack: Bytes, id: Bytes, k: nat, m: nat, bad: Bytes, i: nat)
    requires IsErasureCode(codec) && Encodable(pack, id, k, m) && i < k
    requires SameBut(pack, bad, k, ShardSizeFor(|pack|, k), i)
    requires crc(ShardOf(bad, i, ShardSizeFor(|pack|, k))) != crc(ShardOf(pack, i, ShardSizeFor(|pack|, k)))
    ensures EncodeParity(codec, crc, pack, id, k, m).Ok?
    ensures Repaired(codec, crc, bad, EncodeParity(codec, crc, pack, id, k, m).value, id) == Ok(RepairOutcome(pack, true, 1))
  {
    AsWritten(codec, crc, pack, id, k, m);
    var par, size := EncodeParity(codec, crc, pack, id, k, m).value, ShardSizeFor(|pack|, k);
    var good := CodeWord(codec, pack, k, m);
    assert good[..k] == DataShards(pack, k, size);
    SeenWithTheParity(bad, par, k, m, size, good);
    OneShardSeen(codec, crc, pack, id, k, m, bad, i, par, size, Seen(bad, par, k, m, size), good);
  }

  /** What is seen beside an intact parity. */
  lemma SeenWithTheParity(bad: Bytes, par: Bytes, k: nat, m: nat, size: nat, good: seq<Bytes>)
    requires |par| >= PAR_HEADER_LEN + (k + m) * 4 + m * size && m * size >= 0 && |good| == k + m
    requires StoredParity(par, PAR_HEADER_LEN + (k + m) * 4, m, size) == good[k..]
    ensures Seen(bad, par, k, m, size)[..k] == DataShards(bad, k, size) && Seen(bad, par, k, m, size)[k..] == good[k..]
  {
    assert Seen(bad, par, k, m, size) == DataShards(bad, k, size) + good[k..];
  }

  lemma OneShardSeen(codec: Codec, crc: Checksum, pack: Bytes, id: Bytes, k: nat, m: nat, bad: Bytes, i: nat,
                     par: Bytes, size: nat, seen: seq<Bytes>, good: seq<Bytes>)
    requires IsErasureCode(codec) && Encodable(pack, id, k, m) && KeptHeader(codec, crc, pack, id, k, m, par)
    requires size == ShardSizeFor(|pack|, k) && good == CodeWord(codec, pack, k, m) && seen == Seen(bad, par, k, m, size)
    requires i < k && |good| == k + m && Table(par, k, m, size) == CrcsOf(crc, good)
    requires seen[..k] == DataShards(bad, k, size) && good[..k] == DataShards(pack, k, size) && seen[k..] == good[k..]
    requires SameBut(pack, bad, k, size, i) && crc(ShardOf(bad, i, size)) != crc(ShardOf(pack, i, size))
    ensures Repaired(codec, crc, bad, par, id) == Ok(RepairOutcome(pack, true, 1))
  {
    OneChanged(pack, bad, k, size, seen, good, i);
    DifferOnce(seen, good, i);
    ChangedShardsAreUndone(codec, crc, pack, id, k, m, bad, par);
  }

  lemma OneChanged(pack: Bytes, bad: Bytes, k: nat, size: nat, seen: seq<Bytes>, good: seq<Bytes>, i: nat)
    requires i < k <= |good| == |seen| && seen[..k] == DataShards(bad, k, size) && good[..k] == DataShards(pack, k, size)
    requires seen[k..] == good[k..]
    requires ShardOf(bad, i, size) != ShardOf(pack, i, size) && SameBut(pack, bad, k, size, i)
    ensures forall j :: 0 <= j < |good| ==> (seen[j] != good[j] <==> j == i)
    ensures seen[i] == ShardOf(bad, i, size) && good[i] == ShardOf(pack, i, size)
  {
    forall j | 0 <= j < |good| ensures seen[j] != good[j] <==> j == i {
      if j < k {
        DataShardAt(bad, k, size, seen, j);
        DataShardAt(pack, k, size, good, j);
      } else {
        assert seen[j] == seen[k..][j - k] && good[j] == good[k..][j - k];
      }
    }
    DataShardAt(bad, k, size, seen, i);
    DataShardAt(pack, k, size, good, i);
  }

  lemma DataShardAt(bytes: Bytes, k: nat, size: nat, shards: seq<Bytes>, j: nat)
    requires j < k <= |shards| && shards[..k] == DataShards(bytes, k, size)
    ensures shards[j] == ShardOf(bytes, j, size)
  {
    assert shards[j] == shards[..k][j];
    assert DataShards(bytes, k, size)[j - 0] == Window(bytes, j * size, size);
  }

  /** With the Reed-Solomon code of ReedSolomon.dfy nothing about the codec is left to assume. */
  lemma LibraryRepairs(crc: Checksum, pack: Bytes, id: Bytes, k: nat, m: nat, bad: Bytes, par: Bytes)
    requires Encodable(pack, id, k, m) && KeptHeader(ReedSolomon.LIBRARY, crc, pack, id, k, m, par)
    requires ChecksumsTell(crc, Seen(bad, par, k, m, ShardSizeFor(|pack|, k)), Table(par, k, m, ShardSizeFor(|pack|, k)),
                           CodeWord(ReedSolomon.LIBRARY, pack, k, m))
    ensures var d := Erased(crc, bad, par, k, m, ShardSizeFor(|pack|, k));
            1 <= d <= m ==> Repaired(ReedSolomon.LIBRARY, crc, bad, par, id) == Ok(RepairOutcome(pack, true, d))
  {
    ReedSolomon.LibraryIsErasureCode();
    RepairRoundTrip(ReedSolomon.LIBRARY, crc, pack, id, k, m, bad, par);
  }

  // ---- objects that are refused -------------------------------------------------------------

  /** The stored header checksum is the written one, and tells every changed header. */
  ghost predicate HeaderTold(crc: Checksum, written: Bytes, par: Bytes) {
    && |par| >= PAR_HEADER_LEN && |written| >= PAR_HEADER_LEN && par[42..46] == written[42..46]
    && (crc(par[0..42]) == crc(written[0..42]) ==> par[0..42] == written[0..42])
  }

  /**
   * Which objects are taken for a pack's parity: with a checksum that tells
   * changed headers, exactly those with the writer's very header, under the id of
   * that pack and of no other, that are long enough for what it announces.
   */
  lemma AcceptedIff(codec: Codec, crc: Checksum, pack: Bytes, id: Bytes, k: nat, m: nat, par: Bytes, asked: Bytes)
    requires IsErasureCode(codec) && Encodable(pack, id, k, m)
    requires EncodeParity(codec, crc, pack, id, k, m).Ok? && HeaderTold(crc, EncodeParity(codec, crc, pack, id, k, m).value, par)
    ensures HeaderAccepted(crc, par, asked) <==>
            && par[..PAR_HEADER_LEN] == EncodeParity(codec, crc, pack, id, k, m).value[..PAR_HEADER_LEN]
            && asked == id && |par| >= PAR_HEADER_LEN + (k + m) * 4 + m * ShardSizeFor(|pack|, k)
  {
    var written := EncodeParity(codec, crc, pack, id, k, m).value;
    var size, h := ShardSizeFor(|pack|, k), Header(id, k, m, ShardSizeFor(|pack|, k), |pack|);
    CodeWordShards(codec, pack, k, m);
    assert written[..PAR_HEADER_LEN] == h + ToBigEndian(crc(h), 4);
    HeaderFields(id, k, m, size, |pack|);
    HeaderParts(h, ToBigEndian(crc(h), 4), written);
    AcceptedHeader(crc, par, asked, id, k, m, size, |pack|);
  }

  lemma AcceptedHeader(crc: Checksum, par: Bytes, asked: Bytes, id: Bytes, k: nat, m: nat, size: nat, packLen: nat)
    requires ValidGeometry(k, m) && |id| == ID_LEN && |par| >= PAR_HEADER_LEN
    requires 0 < size < 0x1_0000_0000_0000_0000 && packLen < 0x1_0000_0000_0000_0000
    requires var h := Header(id, k, m, size, packLen);
             par[42..46] == ToBigEndian(crc(h), 4) && (crc(par[0..42]) == crc(h) ==> par[0..42] == h)
    ensures var h := Header(id, k, m, size, packLen);
            HeaderAccepted(crc, par, asked) <==>
            par[..PAR_HEADER_LEN] == h + ToBigEndian(crc(h), 4) && asked == id && |par| >= PAR_HEADER_LEN + (k + m) * 4 + m * size
  {
    var h := Header(id, k, m, size, packLen);
    HeaderFields(id, k, m, size, packLen);
    WordReadsBack(crc(h));
    assert par[..PAR_HEADER_LEN] == par[0..42] + par[42..46];
    if par[0..42] == h {
      HeaderParts(h, ToBigEndian(crc(h), 4), par);
      FieldsReadBack(par, h, id, k, m, size, packLen);
      if |par| >= PAR_HEADER_LEN + (k + m) * 4 + m * size {
        HeaderReadsBack(crc, par, id, k, m, size, packLen);
      }
    }
  }

  lemma FieldsReadBack(par: Bytes, h: Bytes, id: Bytes, k: nat, m: nat, size: nat, packLen: nat)
    requires ValidGeometry(k, m) && |id| == ID_LEN && h == Header(id, k, m, size, packLen) && |h| == 42
    requires size < 0x1_0000_0000_0000_0000 && packLen < 0x1_0000_0000_0000_0000
    requires |par| >= PAR_HEADER_LEN && forall a, b | 0 <= a <= b <= 42 :: par[a..b] == h[a..b]
    ensures par[6..22] == id && Geometry(par) == (k, m, size, packLen)
  {
    HeaderFields(id, k, m, size, packLen);
    Widths();
    BigEndianRoundTrip(k, 2);
    BigEndianRoundTrip(m, 2);
    BigEndianRoundTrip(size, 8);
    BigEndianRoundTrip(packLen, 8);
  }
}
