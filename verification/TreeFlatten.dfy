/**
 * The manifest tree flattened twice, for the restore and for the file browser,
 * and both against one reference: walking the tree by names.  Paths use '/'.
 */
module TreeFlatten {
  import opened Basics
  import opened Reconstruct

  datatype NodeType = Directory | File | Symlink

  datatype FileEntry = FileEntry(size: nat, mtimeNs: nat, mode: nat, chunks: seq<ChunkRef>, symlinkTarget: Option<string>)

  datatype TreeNode = TreeNode(name: string, nodeType: NodeType, entry: Option<FileEntry>, children: seq<TreeNode>)

  datatype CollectedFile = CollectedFile(path: string, chunks: seq<ChunkRef>, mtimeNs: nat, symlinkTarget: Option<string>, mode: nat)

  datatype SnapshotEntry = SnapshotEntry(path: string, size: nat, mtimeNs: nat, isDir: bool, isSymlink: bool)

  // ---- content chunks ---------------------------------------------------------------

  function ContentChunks(chunks: seq<ChunkRef>): seq<ChunkRef> {
    if chunks == [] then []
    else (if chunks[0].size > 0 then [chunks[0]] else []) + ContentChunks(chunks[1..])
  }

  /** Consecutive chunks, empty ones allowed. */
  ghost predicate Consecutive(chunks: seq<ChunkRef>, from: nat, to: nat) {
    if chunks == [] then from == to
    else (chunks[0].size > 0 ==> chunks[0].offset == from) && Consecutive(chunks[1..], from + chunks[0].size, to)
  }

  /** Dropping phantom chunks leaves a tiling of the same bytes: an empty file keeps no chunk at all. */
  lemma {:induction false} ContentChunksTile(chunks: seq<ChunkRef>, from: nat, to: nat)
    requires Consecutive(chunks, from, to)
    ensures Tiling(ContentChunks(chunks), from, to)
    ensures ContentChunks(chunks) == [] <==> from == to
  {
    if chunks != [] {
      ContentChunksTile(chunks[1..], from + chunks[0].size, to);
      var kept := ContentChunks(chunks);
      if chunks[0].size > 0 {
        assert kept[0] == chunks[0] && kept[1..] == ContentChunks(chunks[1..]);
        TilingOffsets(kept[1..], from + chunks[0].size, to);
      } else {
        assert kept == ContentChunks(chunks[1..]);
      }
    }
  }

  /** Exactly the chunks with bytes are kept, each as it was and as often. */
  lemma {:induction false} ContentChunksKeep(chunks: seq<ChunkRef>, r: ChunkRef)
    ensures multiset(ContentChunks(chunks))[r] == if r.size > 0 then multiset(chunks)[r] else 0
  {
    if chunks != [] {
      ContentChunksKeep(chunks[1..], r);
      assert chunks == [chunks[0]] + chunks[1..];
    }
  }

  // ---- the two traversals ----------------------------------------------------------------

  predicate Transparent(name: string) {
    name == "" || name == "/"
  }

  /** `PathBuf::join` of a relative or absolute name. */
  function Join(prefix: string, name: string): string {
    if name != [] && name[0] == '/' then name
    else if prefix == [] || prefix[|prefix| - 1] == '/' then prefix + name
    else prefix + ['/'] + name
  }

  function FilePath(prefix: string, name: string): string {
    if Transparent(name) then prefix else Join(prefix, name)
  }

  function EntryPath(prefix: string, name: string): string {
    if Transparent(name) then prefix else if prefix == [] then name else prefix + ['/'] + name
  }

  function Collected(path: string, entry: FileEntry): CollectedFile {
    CollectedFile(path, ContentChunks(entry.chunks), entry.mtimeNs, entry.symlinkTarget, entry.mode)
  }

  function Files(node: TreeNode, prefix: string): seq<CollectedFile>
    decreases node
  {
    var path := FilePath(prefix, node.name);
    if node.nodeType.Directory? then FilesOf(node.children, path)
    else if node.entry.Some? then [Collected(path, node.entry.value)]
    else []
  }

  function FilesOf(children: seq<TreeNode>, path: string): seq<CollectedFile>
    decreases children
  {
    if children == [] then [] else Files(children[0], path) + FilesOf(children[1..], path)
  }

  lemma FilesOfStep(children: seq<TreeNode>, path: string, i: nat, out: seq<CollectedFile>)
    requires i < |children|
    ensures out + FilesOf(children[i..], path) == out + Files(children[i], path) + FilesOf(children[i + 1..], path)
  {
    assert children[i..][1..] == children[i + 1..];
    Associative(out, Files(children[i], path), FilesOf(children[i + 1..], path));
  }

  /** `collect_files`, pushing into the caller's list. */
  method CollectFiles(node: TreeNode, prefix: string, out: seq<CollectedFile>) returns (result: seq<CollectedFile>)
    ensures result == out + Files(node, prefix)
    decreases node
  {
    result := out;
    var path := FilePath(prefix, node.name);
    match node.nodeType
    case Directory =>
      var i := 0;
      while i < |node.children|
        invariant 0 <= i <= |node.children|
        invariant result + FilesOf(node.children[i..], path) == out + FilesOf(node.children, path)
      {
        FilesOfStep(node.children, path, i, result);
        result := CollectFiles(node.children[i], path, result);
        i := i + 1;
      }
    case _ =>
      if node.entry.Some? {
        result := result + [Collected(path, node.entry.value)];
      }
  }

  function EntryOf(path: string, node: TreeNode): SnapshotEntry {
    var size := if node.nodeType.File? && node.entry.Some? then node.entry.value.size else 0;
    var mtime := if !node.nodeType.Directory? && node.entry.Some? then node.entry.value.mtimeNs else 0;
    SnapshotEntry(path, size, mtime, node.nodeType.Directory?, node.nodeType.Symlink?)
  }

  function Entries(node: TreeNode, prefix: string): seq<SnapshotEntry>
    decreases node
  {
    var path := EntryPath(prefix, node.name);
    if node.nodeType.Directory? then
      (if path != [] then [EntryOf(path, node)] else []) + EntriesOf(node.children, path)
    else [EntryOf(path, node)]
  }

  function EntriesOf(children: seq<TreeNode>, path: string): seq<SnapshotEntry>
    decreases children
  {
    if children == [] then [] else Entries(children[0], path) + EntriesOf(children[1..], path)
  }

  lemma EntriesOfStep(children: seq<TreeNode>, path: string, i: nat, out: seq<SnapshotEntry>)
    requires i < |children|
    ensures out + EntriesOf(children[i..], path) == out + Entries(children[i], path) + EntriesOf(children[i + 1..], path)
  {
    assert children[i..][1..] == children[i + 1..];
    Associative(out, Entries(children[i], path), EntriesOf(children[i + 1..], path));
  }

  /** `collect_file_entries`. */
  method CollectFileEntries(node: TreeNode, prefix: string, out: seq<SnapshotEntry>) returns (result: seq<SnapshotEntry>)
    ensures result == out + Entries(node, prefix)
    decreases node
  {
    result := out;
    var path := EntryPath(prefix, node.name);
    match node.nodeType
    case Directory =>
      if path != [] {
        result := result + [SnapshotEntry(path, 0, 0, true, false)];
      }
      ghost var listed := result;
      var i := 0;
      while i < |node.children|
        invariant 0 <= i <= |node.children|
        invariant result + EntriesOf(node.children[i..], path) == listed + EntriesOf(node.children, path)
      {
        EntriesOfStep(node.children, path, i, result);
        result := CollectFileEntries(node.children[i], path, result);
        i := i + 1;
      }
      assert result == listed + EntriesOf(node.children, path);
      Associative(out, if path != [] then [EntryOf(path, node)] else [], EntriesOf(node.children, path));
    case File =>
      var size, mtime := 0, 0;
      if node.entry.Some? {
        size, mtime := node.entry.value.size, node.entry.value.mtimeNs;
      }
      result := result + [SnapshotEntry(path, size, mtime, false, false)];
    case Symlink =>
      var mtime := if node.entry.Some? then node.entry.value.mtimeNs else 0;
      result := result + [SnapshotEntry(path, 0, mtime, false, true)];
  }

  // ---- the reference: walking by names ---------------------------------------------------------

  predicate ProperName(name: string) {
    name != [] && forall i :: 0 <= i < |name| ==> name[i] != '/'
  }

  /** Siblings have distinct, non-empty names without separators, all the way down. */
  ghost predicate WellNamed(node: TreeNode)
    decreases node
  {
    node.nodeType.Directory? ==> WellNamedAll(node.children)
  }

  ghost predicate WellNamedAll(children: seq<TreeNode>)
    decreases children
  {
    children != [] ==>
      && ProperName(children[0].name) && WellNamed(children[0])
      && (forall i :: 0 < i < |children| ==> children[i].name != children[0].name)
      && WellNamedAll(children[1..])
  }

  function Child(children: seq<TreeNode>, name: string): Option<TreeNode> {
    if children == [] then None
    else if children[0].name == name then Some(children[0])
    else Child(children[1..], name)
  }

  /** The node reached by following names from a directory to its children. */
  function Find(node: TreeNode, names: seq<string>): Option<TreeNode>
    decreases |names|
  {
    if names == [] then Some(node)
    else if !node.nodeType.Directory? then None
    else match Child(node.children, names[0])
      case None => None
      case Some(child) => Find(child, names[1..])
  }

  function Under(path: string, name: string): string {
    if path == [] then name else path + ['/'] + name
  }

  /** The names joined with '/' below a base. */
  function PathOf(base: string, names: seq<string>): string
    decreases |names|
  {
    if names == [] then base else PathOf(Under(base, names[0]), names[1..])
  }

  datatype Item = Item(path: string, node: TreeNode)

  /** Every node with its path, parents first. */
  function Listing(node: TreeNode, path: string): seq<Item>
    decreases node
  {
    [Item(path, node)] + (if node.nodeType.Directory? then ListingOf(node.children, path) else [])
  }

  function ListingOf(children: seq<TreeNode>, path: string): seq<Item>
    decreases children
  {
    if children == [] then [] else Listing(children[0], Under(path, children[0].name)) + ListingOf(children[1..], path)
  }

  // ---- both traversals follow the listing ---------------------------------------------------------

  function ShownOne(x: Item): seq<SnapshotEntry> {
    if x.path == [] && x.node.nodeType.Directory? then [] else [EntryOf(x.path, x.node)]
  }

  function Shown(items: seq<Item>): seq<SnapshotEntry> {
    if items == [] then [] else ShownOne(items[0]) + Shown(items[1..])
  }

  function GatheredOne(x: Item): seq<CollectedFile> {
    if !x.node.nodeType.Directory? && x.node.entry.Some? then [Collected(x.path, x.node.entry.value)] else []
  }

  function Gathered(items: seq<Item>): seq<CollectedFile> {
    if items == [] then [] else GatheredOne(items[0]) + Gathered(items[1..])
  }

  lemma {:induction false} ShownAppend(a: seq<Item>, b: seq<Item>)
    ensures Shown(a + b) == Shown(a) + Shown(b)
  {
    if a == [] {
      assert a + b == b;
    } else {
      ShownAppend(a[1..], b);
      assert (a + b)[1..] == a[1..] + b && (a + b)[0] == a[0];
      Associative(ShownOne(a[0]), Shown(a[1..]), Shown(b));
    }
  }

  lemma {:induction false} GatheredAppend(a: seq<Item>, b: seq<Item>)
    ensures Gathered(a + b) == Gathered(a) + Gathered(b)
  {
    if a == [] {
      assert a + b == b;
    } else {
      GatheredAppend(a[1..], b);
      assert (a + b)[1..] == a[1..] + b && (a + b)[0] == a[0];
      Associative(GatheredOne(a[0]), Gathered(a[1..]), Gathered(b));
    }
  }

  lemma ProperIsOpaque(name: string)
    requires ProperName(name)
    ensures !Transparent(name)
  {
    assert name[0] != "/"[0];
  }

  lemma {:induction false} EntriesFollow(node: TreeNode, prefix: string)
    requires WellNamed(node)
    ensures Entries(node, prefix) == Shown(Listing(node, EntryPath(prefix, node.name)))
    decreases node
  {
    var path := EntryPath(prefix, node.name);
    if node.nodeType.Directory? {
      EntriesOfFollow(node.children, path);
      assert Listing(node, path)[1..] == ListingOf(node.children, path);
    } else {
      assert Listing(node, path) == [Item(path, node)];
    }
  }

  lemma {:induction false} EntriesOfFollow(children: seq<TreeNode>, path: string)
    requires WellNamedAll(children)
    ensures EntriesOf(children, path) == Shown(ListingOf(children, path))
    decreases children
  {
    if children != [] {
      ProperIsOpaque(children[0].name);
      EntriesFollow(children[0], path);
      EntriesOfFollow(children[1..], path);
      ShownAppend(Listing(children[0], Under(path, children[0].name)), ListingOf(children[1..], path));
    }
  }

  /** Not ending in a separator, as every path below the root is. */
  predicate Clean(path: string) {
    path == [] || path[|path| - 1] != '/'
  }

  lemma JoinIsUnder(path: string, name: string)
    requires Clean(path) && ProperName(name)
    ensures Join(path, name) == Under(path, name) && Clean(Under(path, name))
  {
  }

  lemma {:induction false} FilesFollow(node: TreeNode, prefix: string, path: string)
    requires WellNamed(node) && FilePath(prefix, node.name) == path && Clean(path)
    ensures Files(node, prefix) == Gathered(Listing(node, path))
    decreases node
  {
    if node.nodeType.Directory? {
      FilesOfFollow(node.children, path);
      assert Listing(node, path)[1..] == ListingOf(node.children, path);
    } else {
      assert Listing(node, path) == [Item(path, node)];
    }
  }

  lemma {:induction false} FilesOfFollow(children: seq<TreeNode>, path: string)
    requires WellNamedAll(children) && Clean(path)
    ensures FilesOf(children, path) == Gathered(ListingOf(children, path))
    decreases children
  {
    if children != [] {
      var below := Under(path, children[0].name);
      ProperIsOpaque(children[0].name);
      JoinIsUnder(path, children[0].name);
      FilesFollow(children[0], path, below);
      FilesOfFollow(children[1..], path);
      GatheredAppend(Listing(children[0], below), ListingOf(children[1..], path));
    }
  }

  // ---- the listing is the tree -----------------------------------------------------------------------

  /** `item` is what following some names from `node` reaches. */
  ghost predicate Reached(node: TreeNode, base: string, item: Item) {
    exists names :: Find(node, names) == Some(item.node) && PathOf(base, names) == item.path
  }

  lemma {:induction false} ChildFound(children: seq<TreeNode>, i: nat)
    requires WellNamedAll(children) && i < |children|
    ensures Child(children, children[i].name) == Some(children[i])
  {
    if i > 0 {
      ChildFound(children[1..], i - 1);
    }
  }

  lemma {:induction false} FoundChild(children: seq<TreeNode>, name: string) returns (i: nat)
    requires Child(children, name).Some?
    ensures i < |children| && children[i] == Child(children, name).value && children[i].name == name
  {
    if children[0].name == name {
      i := 0;
    } else {
      i := FoundChild(children[1..], name);
      i := i + 1;
    }
  }

  lemma WellNamedChild(children: seq<TreeNode>, i: nat)
    requires WellNamedAll(children) && i < |children|
    ensures WellNamed(children[i]) && ProperName(children[i].name)
  {
    if i > 0 {
      WellNamedChild(children[1..], i - 1);
    }
  }

  lemma {:induction false} ListingOfAt(children: seq<TreeNode>, path: string, i: nat, item: Item)
    requires i < |children| && item in Listing(children[i], Under(path, children[i].name))
    ensures item in ListingOf(children, path)
  {
    if i > 0 {
      ListingOfAt(children[1..], path, i - 1, item);
    }
  }

  lemma {:induction false} ListingOfSource(children: seq<TreeNode>, path: string, item: Item) returns (i: nat)
    requires item in ListingOf(children, path)
    ensures i < |children| && item in Listing(children[i], Under(path, children[i].name))
  {
    if item in Listing(children[0], Under(path, children[0].name)) {
      i := 0;
    } else {
      i := ListingOfSource(children[1..], path, item);
      i := i + 1;
    }
  }

  lemma {:induction false} FoundIsListed(node: TreeNode, base: string, names: seq<string>)
    requires Find(node, names).Some?
    ensures Item(PathOf(base, names), Find(node, names).value) in Listing(node, base)
    decreases |names|
  {
    if names != [] {
      var i := FoundChild(node.children, names[0]);
      FoundIsListed(node.children[i], Under(base, names[0]), names[1..]);
      ListingOfAt(node.children, base, i, Item(PathOf(base, names), Find(node, names).value));
    }
  }

  lemma {:induction false} ListedIsFound(node: TreeNode, base: string, item: Item) returns (names: seq<string>)
    requires WellNamed(node) && item in Listing(node, base)
    ensures Find(node, names) == Some(item.node) && PathOf(base, names) == item.path
    ensures forall k :: 0 <= k < |names| ==> ProperName(names[k])
    decreases node
  {
    if item == Item(base, node) {
      names := [];
    } else {
      var i := ListingOfSource(node.children, base, item);
      var child := node.children[i];
      WellNamedChild(node.children, i);
      ChildFound(node.children, i);
      var rest := ListedIsFound(child, Under(base, child.name), item);
      names := [child.name] + rest;
      assert names[1..] == rest;
    }
  }

  /** The listing holds exactly the nodes that names reach, each under its joined names. */
  lemma ListedIff(node: TreeNode, base: string, item: Item)
    requires WellNamed(node)
    ensures item in Listing(node, base) <==> Reached(node, base, item)
  {
    if item in Listing(node, base) {
      var names := ListedIsFound(node, base, item);
    }
    if names :| Find(node, names) == Some(item.node) && PathOf(base, names) == item.path {
      FoundIsListed(node, base, names);
    }
  }

  /** All ancestors of a found node are directories, found under the shorter paths. */
  lemma {:induction false} AncestorsFound(node: TreeNode, names: seq<string>, k: nat)
    requires Find(node, names).Some? && k < |names|
    ensures Find(node, names[..k]).Some? && Find(node, names[..k]).value.nodeType.Directory?
    decreases k
  {
    if k > 0 {
      var child := Child(node.children, names[0]).value;
      AncestorsFound(child, names[1..], k - 1);
      assert names[..k][0] == names[0] && names[..k][1..] == names[1..][..k - 1];
    }
  }

  // ---- distinct paths ------------------------------------------------------------------------------------

  /** `path` itself, or something below it. */
  predicate AtOrBelow(path: string, top: string) {
    path == top || (|top| < |path| && path[..|top|] == top && path[|top|] == '/')
  }

  lemma BelowUnder(path: string, base: string, name: string)
    requires AtOrBelow(path, Under(base, name)) && ProperName(name) && base != []
    ensures AtOrBelow(path, base) && path != base
  {
    var top := Under(base, name);
    assert top[..|base|] == base && top[|base|] == '/';
    assert path[..|top|] == top;
    assert path[..|base|] == path[..|top|][..|base|];
    assert path[|base|] == path[..|top|][|base|];
  }

  lemma {:induction false} ListingBelow(node: TreeNode, base: string, item: Item)
    requires WellNamed(node) && item in Listing(node, base) && base != []
    ensures AtOrBelow(item.path, base)
    decreases node
  {
    if item != Item(base, node) {
      var i := ListingOfSource(node.children, base, item);
      WellNamedChild(node.children, i);
      ListingBelow(node.children[i], Under(base, node.children[i].name), item);
      BelowUnder(item.path, base, node.children[i].name);
    }
  }

  /** Nothing lies under two siblings. */
  lemma SiblingsApart(path: string, base: string, a: string, b: string)
    requires ProperName(a) && ProperName(b) && AtOrBelow(path, Under(base, a)) && AtOrBelow(path, Under(base, b))
    ensures a == b
  {
    NotLonger(path, base, a, b);
    NotLonger(path, base, b, a);
    var lead := if base == [] then 0 else |base| + 1;
    forall i | 0 <= i < |a| ensures a[i] == b[i] {
      NameInPath(path, base, a, lead, i);
      NameInPath(path, base, b, lead, i);
    }
  }

  /** Where a name stands in the paths at or under it. */
  lemma NameInPath(path: string, base: string, name: string, lead: nat, i: nat)
    requires AtOrBelow(path, Under(base, name)) && lead == (if base == [] then 0 else |base| + 1) && i < |name|
    ensures lead + i < |path| && path[lead + i] == name[i]
  {
    var top := Under(base, name);
    assert top[lead + i] == name[i];
    assert path[..|top|] == top;
    assert path[lead + i] == path[..|top|][lead + i];
  }

  lemma NotLonger(path: string, base: string, a: string, b: string)
    requires ProperName(b) && AtOrBelow(path, Under(base, a)) && AtOrBelow(path, Under(base, b))
    ensures |b| <= |a|
  {
    if |a| < |b| {
      var lead := if base == [] then 0 else |base| + 1;
      NameInPath(path, base, b, lead, |a|);
      assert false;
    }
  }

  ghost predicate DistinctPaths(items: seq<Item>) {
    forall i, j :: 0 <= i < j < |items| ==> items[i].path != items[j].path
  }

  lemma DistinctAppend(a: seq<Item>, b: seq<Item>)
    requires DistinctPaths(a) && DistinctPaths(b)
    requires forall x, y :: x in a && y in b ==> x.path != y.path
    ensures DistinctPaths(a + b)
  {
    forall i, j | 0 <= i < j < |a + b| ensures (a + b)[i].path != (a + b)[j].path {
      if i < |a| <= j {
        assert (a + b)[i] in a && (a + b)[j] in b;
      }
    }
  }

  lemma {:induction false} ListingDistinct(node: TreeNode, base: string)
    requires WellNamed(node)
    ensures DistinctPaths(Listing(node, base))
    decreases node
  {
    if node.nodeType.Directory? {
      ListingOfDistinct(node.children, base);
      forall y | y in ListingOf(node.children, base) ensures y.path != base {
        NotTheBase(node.children, base, y);
      }
      DistinctAppend([Item(base, node)], ListingOf(node.children, base));
    }
  }

  lemma NotTheBase(children: seq<TreeNode>, base: string, item: Item)
    requires WellNamedAll(children) && item in ListingOf(children, base)
    ensures item.path != base
  {
    var i := ListingOfSource(children, base, item);
    WellNamedChild(children, i);
    ListingBelow(children[i], Under(base, children[i].name), item);
    if base != [] {
      BelowUnder(item.path, base, children[i].name);
    }
  }

  lemma {:induction false} ListingOfDistinct(children: seq<TreeNode>, base: string)
    requires WellNamedAll(children)
    ensures DistinctPaths(ListingOf(children, base))
    decreases children
  {
    if children != [] {
      var first := Under(base, children[0].name);
      ListingDistinct(children[0], first);
      ListingOfDistinct(children[1..], base);
      forall x, y | x in Listing(children[0], first) && y in ListingOf(children[1..], base) ensures x.path != y.path {
        var i := ListingOfSource(children[1..], base, y);
        WellNamedChild(children[1..], i);
        ListingBelow(children[0], first, x);
        ListingBelow(children[1..][i], Under(base, children[1..][i].name), y);
        if x.path == y.path {
          SiblingsApart(x.path, base, children[0].name, children[1..][i].name);
        }
      }
      DistinctAppend(Listing(children[0], first), ListingOf(children[1..], base));
    }
  }

  // ---- the main results ------------------------------------------------------------------------------------

  predicate IsContent(node: TreeNode) {
    !node.nodeType.Directory? && node.entry.Some?
  }

  lemma {:induction false} GatheredContent(items: seq<Item>, f: CollectedFile)
    ensures f in Gathered(items) <==> exists x :: x in items && IsContent(x.node) && f == Collected(x.path, x.node.entry.value)
  {
    if items != [] {
      GatheredContent(items[1..], f);
      assert items == [items[0]] + items[1..];
    }
  }

  lemma {:induction false} ShownContent(items: seq<Item>, e: SnapshotEntry)
    ensures e in Shown(items) <==>
            exists x :: x in items && !(x.path == [] && x.node.nodeType.Directory?) && e == EntryOf(x.path, x.node)
  {
    if items != [] {
      ShownContent(items[1..], e);
      assert items == [items[0]] + items[1..];
    }
  }

  lemma {:induction false} GatheredDistinct(items: seq<Item>)
    requires DistinctPaths(items)
    ensures forall i, j :: 0 <= i < j < |Gathered(items)| ==> Gathered(items)[i].path != Gathered(items)[j].path
  {
    if items != [] {
      var rest := Gathered(items[1..]);
      assert DistinctPaths(items[1..]) by {
        assert forall i :: 0 <= i < |items| - 1 ==> items[1..][i] == items[i + 1];
      }
      GatheredDistinct(items[1..]);
      forall f | f in rest ensures f.path != items[0].path {
        GatheredContent(items[1..], f);
        var x :| x in items[1..] && IsContent(x.node) && f == Collected(x.path, x.node.entry.value);
        var j :| 0 <= j < |items[1..]| && items[1..][j] == x;
        assert items[j + 1] == x;
      }
      assert forall j :: 0 <= j < |rest| ==> rest[j] in rest;
    }
  }

  /** The path of the root: nothing, or its own name. */
  function RootPath(root: TreeNode): string {
    EntryPath([], root.name)
  }

  lemma RootFollows(root: TreeNode)
    requires WellNamed(root) && (Transparent(root.name) || ProperName(root.name))
    ensures Files(root, []) == Gathered(Listing(root, RootPath(root)))
    ensures Entries(root, []) == Shown(Listing(root, RootPath(root)))
  {
    if !Transparent(root.name) {
      JoinIsUnder([], root.name);
    }
    FilesFollow(root, [], RootPath(root));
    EntriesFollow(root, []);
  }

  /** What a collected file keeps of its entry: the chunks that have bytes, the times, the mode, and where a link points. */
  predicate Carries(f: CollectedFile, entry: FileEntry) {
    && f.chunks == ContentChunks(entry.chunks) && f.symlinkTarget == entry.symlinkTarget
    && f.mtimeNs == entry.mtimeNs && f.mode == entry.mode
  }

  /** Some names lead from the root to file or symlink content, collected as `f`. */
  ghost predicate LeadTo(root: TreeNode, names: seq<string>, f: CollectedFile) {
    var found := Find(root, names);
    && found.Some? && IsContent(found.value) && f.path == PathOf(RootPath(root), names)
    && Carries(f, found.value.entry.value)
  }

  /**
   * Each file or symlink with an entry is collected exactly once, under the
   * names that lead to it, and nothing else is collected.
   */
  lemma FilesAreTheTree(root: TreeNode, f: CollectedFile)
    requires WellNamed(root) && (Transparent(root.name) || ProperName(root.name))
    ensures f in Files(root, []) <==> exists names :: LeadTo(root, names, f)
    ensures forall i, j :: 0 <= i < j < |Files(root, [])| ==> Files(root, [])[i].path != Files(root, [])[j].path
  {
    var base := RootPath(root);
    var items := Listing(root, base);
    RootFollows(root);
    ListingDistinct(root, base);
    GatheredDistinct(items);
    GatheredContent(items, f);
    if x :| x in items && IsContent(x.node) && f == Collected(x.path, x.node.entry.value) {
      var names := ListedIsFound(root, base, x);
      assert LeadTo(root, names, f);
    }
    if names :| LeadTo(root, names, f) {
      FoundIsListed(root, base, names);
    }
  }

  /**
   * Every collected file is listed for the browser under the same path, as a
   * non-directory, together with each of its ancestor directories.
   */
  lemma FilesAreBrowsable(root: TreeNode, f: CollectedFile) returns (names: seq<string>)
    requires WellNamed(root) && (Transparent(root.name) || ProperName(root.name)) && f in Files(root, [])
    ensures LeadTo(root, names, f)
    ensures exists e :: e in Entries(root, []) && e.path == f.path && !e.isDir
    ensures forall k :: 0 <= k < |names| && PathOf(RootPath(root), names[..k]) != [] ==>
              SnapshotEntry(PathOf(RootPath(root), names[..k]), 0, 0, true, false) in Entries(root, [])
  {
    FilesAreTheTree(root, f);
    names :| LeadTo(root, names, f);
    RootFollows(root);
    BrowsableNode(root, names);
    forall k | 0 <= k < |names| && PathOf(RootPath(root), names[..k]) != []
      ensures SnapshotEntry(PathOf(RootPath(root), names[..k]), 0, 0, true, false) in Entries(root, []) {
      AncestorsFound(root, names, k);
      BrowsableNode(root, names[..k]);
    }
  }

  lemma BrowsableNode(root: TreeNode, names: seq<string>)
    requires Find(root, names).Some?
    ensures var node, path := Find(root, names).value, PathOf(RootPath(root), names);
            path != [] || !node.nodeType.Directory? ==> EntryOf(path, node) in Shown(Listing(root, RootPath(root)))
  {
    FoundIsListed(root, RootPath(root), names);
    var x := Item(PathOf(RootPath(root), names), Find(root, names).value);
    ShownContent(Listing(root, RootPath(root)), EntryOf(x.path, x.node));
  }

  /** The browser's list is the tree as well: each entry is a node that names reach, and each path appears once. */
  lemma EntriesAreTheTree(root: TreeNode, e: SnapshotEntry)
    requires WellNamed(root) && (Transparent(root.name) || ProperName(root.name))
    ensures e in Entries(root, []) <==>
            exists x :: Reached(root, RootPath(root), x) && !(x.path == [] && x.node.nodeType.Directory?) && e == EntryOf(x.path, x.node)
    ensures forall x, y :: Reached(root, RootPath(root), x) && Reached(root, RootPath(root), y) && x.path == y.path ==> x == y
  {
    var items := Listing(root, RootPath(root));
    RootFollows(root);
    ShownContent(items, e);
    ListingDistinct(root, RootPath(root));
    ReachedIsListed(root, RootPath(root));
  }

  lemma ReachedIsListed(node: TreeNode, base: string)
    requires WellNamed(node)
    ensures forall x :: x in Listing(node, base) <==> Reached(node, base, x)
  {
    forall x ensures x in Listing(node, base) <==> Reached(node, base, x) {
      ListedIff(node, base, x);
    }
  }
}
