/**
 * Writing one file from its chunks: the output file as bytes and a cursor, the
 * sparse and dense chunk writes, the route each chunk is read by, and the loop
 * over the chunks in offset order.
 */
module Reconstruct {
  import opened Basics
  import opened ChunkFetch
  import PackObject

  // ---- the output file -----------------------------------------------------------

  datatype FileState = FileState(data: Bytes, cursor: nat)

  const EMPTY_FILE := FileState([], 0)

  /** Content after writing at a position: past the end the gap is zero-filled; writing nothing changes nothing. */
  function Overlay(data: Bytes, at: nat, bytes: Bytes): Bytes {
    if bytes == [] then data
    else
      var base := if |data| < at then data + Zeros(at - |data|) else data;
      base[..at] + bytes + (if at + |bytes| <= |base| then base[at + |bytes|..] else [])
  }

  function Written(f: FileState, bytes: Bytes): FileState {
    FileState(Overlay(f.data, f.cursor, bytes), f.cursor + |bytes|)
  }

  /** `set_len`: cut, or extended with zeros; the cursor stays. */
  function Resized(f: FileState, len: nat): FileState {
    f.(data := if len <= |f.data| then f.data[..len] else f.data + Zeros(len - |f.data|))
  }

  class OutputFile {
    var data: Bytes
    var cursor: nat

    function State(): FileState
      reads this
    {
      FileState(data, cursor)
    }

    constructor ()
      ensures State() == EMPTY_FILE
    {
      data, cursor := [], 0;
    }

    method Seek(offset: nat)
      modifies this
      ensures State() == old(State()).(cursor := offset)
    {
      cursor := offset;
    }

    method WriteAll(bytes: Bytes)
      modifies this
      ensures State() == Written(old(State()), bytes)
    {
      data := Overlay(data, cursor, bytes);
      cursor := cursor + |bytes|;
    }

    method SetLen(len: nat)
      modifies this
      ensures State() == Resized(old(State()), len)
    {
      data := if len <= |data| then data[..len] else data + Zeros(len - |data|);
    }
  }

  predicate AllZero(bytes: Bytes) {
    forall i :: 0 <= i < |bytes| ==> bytes[i] == 0
  }

  /** One chunk's plaintext put into the file. */
  function ChunkWritten(f: FileState, offset: nat, plain: Bytes, sparse: bool): FileState {
    if sparse && plain != [] && AllZero(plain) then f
    else if sparse then Written(f.(cursor := offset), plain)
    else Written(f, plain)
  }

  /** `write_chunk_maybe_sparse`. */
  method WriteChunkMaybeSparse(file: OutputFile, offset: nat, plain: Bytes, sparse: bool)
    modifies file
    ensures file.State() == ChunkWritten(old(file.State()), offset, plain, sparse)
  {
    if sparse {
      if plain != [] && AllZero(plain) {
        return;
      }
      file.Seek(offset);
    }
    file.WriteAll(plain);
  }

  // ---- chunk references in offset order -----------------------------------------------

  datatype ChunkRef = ChunkRef(id: ChunkId, offset: nat, size: nat)

  /** Stable insertion by offset. */
  function Insert(r: ChunkRef, sorted: seq<ChunkRef>): seq<ChunkRef> {
    if sorted == [] || r.offset < sorted[0].offset then [r] + sorted
    else [sorted[0]] + Insert(r, sorted[1..])
  }

  /** `sort_by_key` on the plaintext offset, a stable sort. */
  function SortByOffset(refs: seq<ChunkRef>): (sorted: seq<ChunkRef>) {
    if refs == [] then [] else Insert(refs[|refs| - 1], SortByOffset(refs[..|refs| - 1]))
  }

  predicate Ordered(refs: seq<ChunkRef>) {
    forall i, j :: 0 <= i < j < |refs| ==> refs[i].offset <= refs[j].offset
  }

  lemma {:induction false} InsertKeepsOrder(r: ChunkRef, sorted: seq<ChunkRef>)
    requires Ordered(sorted)
    ensures Ordered(Insert(r, sorted))
    ensures multiset(Insert(r, sorted)) == multiset(sorted) + multiset{r}
  {
    if sorted == [] {
    } else if r.offset < sorted[0].offset {
      OrderedFront(r, sorted);
    } else {
      var more := Insert(r, sorted[1..]);
      InsertKeepsOrder(r, sorted[1..]);
      TailMultiset(sorted);
      OrderedCons(sorted[0], sorted[1..], r, more);
      FrontMultiset(sorted[0], more);
    }
  }

  lemma OrderedFront(r: ChunkRef, sorted: seq<ChunkRef>)
    requires Ordered(sorted) && sorted != [] && r.offset < sorted[0].offset
    ensures Ordered([r] + sorted) && multiset([r] + sorted) == multiset(sorted) + multiset{r}
  {
    assert forall j :: 0 < j < |sorted| ==> sorted[0].offset <= sorted[j].offset;
  }

  lemma FrontMultiset(head: ChunkRef, more: seq<ChunkRef>)
    ensures multiset([head] + more) == multiset{head} + multiset(more)
  {
  }

  lemma OrderedCons(head: ChunkRef, rest: seq<ChunkRef>, r: ChunkRef, more: seq<ChunkRef>)
    requires multiset(more) == multiset(rest) + multiset{r} && Ordered(more)
    requires head.offset <= r.offset && forall x :: x in rest ==> head.offset <= x.offset
    ensures Ordered([head] + more)
  {
    forall j | 0 <= j < |more| ensures head.offset <= more[j].offset {
      assert more[j] in multiset(more);
      assert more[j] == r || more[j] in rest;
    }
  }

  lemma {:induction false} SortedPermutation(refs: seq<ChunkRef>)
    ensures Ordered(SortByOffset(refs))
    ensures multiset(SortByOffset(refs)) == multiset(refs)
  {
    if refs != [] {
      var init, last := refs[..|refs| - 1], refs[|refs| - 1];
      SortedPermutation(init);
      InsertKeepsOrder(last, SortByOffset(init));
      assert refs == init + [last];
    }
  }

  /** The refs cover [from, to) in order, each at least one byte. */
  ghost predicate Tiling(refs: seq<ChunkRef>, from: nat, to: nat) {
    if refs == [] then from == to
    else refs[0].offset == from && refs[0].size > 0 && Tiling(refs[1..], from + refs[0].size, to)
  }

  lemma {:induction false} TilingOffsets(refs: seq<ChunkRef>, from: nat, to: nat)
    requires Tiling(refs, from, to)
    ensures from <= to
    ensures forall i :: 0 <= i < |refs| ==> from <= refs[i].offset < refs[i].offset + refs[i].size <= to
    ensures forall i, j :: 0 <= i < j < |refs| ==> refs[i].offset < refs[j].offset
  {
    if refs != [] {
      TilingOffsets(refs[1..], from + refs[0].size, to);
      assert forall i :: 0 < i < |refs| ==> refs[i] == refs[1..][i - 1];
    }
  }

  /** Two orderings of the same refs, one strict, are the same. */
  lemma {:induction false} OneOrdering(a: seq<ChunkRef>, b: seq<ChunkRef>)
    requires multiset(a) == multiset(b) && Ordered(a)
    requires forall i, j :: 0 <= i < j < |b| ==> b[i].offset < b[j].offset
    ensures a == b
  {
    SameCount(a, b);
    if b != [] {
      SameHead(a, b);
      TailMultiset(a);
      TailMultiset(b);
      OneOrdering(a[1..], b[1..]);
    }
  }

  lemma TailMultiset(a: seq<ChunkRef>)
    requires a != []
    ensures a == [a[0]] + a[1..] && multiset(a[1..]) == multiset(a) - multiset{a[0]}
  {
    assert a == [a[0]] + a[1..];
  }

  lemma SameCount(a: seq<ChunkRef>, b: seq<ChunkRef>)
    requires multiset(a) == multiset(b)
    ensures |a| == |b|
  {
    assert |multiset(a)| == |a| && |multiset(b)| == |b|;
  }

  lemma SameHead(a: seq<ChunkRef>, b: seq<ChunkRef>)
    requires multiset(a) == multiset(b) && Ordered(a) && |a| == |b| > 0
    requires forall i, j :: 0 <= i < j < |b| ==> b[i].offset < b[j].offset
    ensures a[0] == b[0]
  {
    assert b[0] in multiset(a) && a[0] in multiset(b);
    var i :| 0 <= i < |a| && a[i] == b[0];
    var j :| 0 <= j < |b| && b[j] == a[0];
    assert a[0].offset <= a[i].offset;
  }

  /** Sorting any ordering of a tiling gives the tiling. */
  lemma SortFindsTiling(refs: seq<ChunkRef>, tiling: seq<ChunkRef>, total: nat)
    requires Tiling(tiling, 0, total) && multiset(refs) == multiset(tiling)
    ensures SortByOffset(refs) == tiling
  {
    SortedPermutation(refs);
    TilingOffsets(tiling, 0, total);
    OneOrdering(SortByOffset(refs), tiling);
  }

  /** The logical length: the highest chunk end. */
  function MaxEnd(refs: seq<ChunkRef>): nat {
    if refs == [] then 0 else Max(refs[0].offset + refs[0].size, MaxEnd(refs[1..]))
  }

  lemma {:induction false} TilingEnd(refs: seq<ChunkRef>, from: nat, to: nat)
    requires Tiling(refs, from, to)
    ensures MaxEnd(refs) == if refs == [] then 0 else to
  {
    if refs != [] {
      TilingEnd(refs[1..], from + refs[0].size, to);
      TilingOffsets(refs[1..], from + refs[0].size, to);
    }
  }
}
