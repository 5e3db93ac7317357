/** Paths of pack objects, their ids and their parity siblings; the UUID parser is a parameter. */
module PackPath {
  import opened Basics

  const PACK_SUFFIX: string := ".pack"
  const PAR_SUFFIX: string := ".par"

  /** What follows the last '/'. */
  function LastSegment(path: string): string {
    if path == [] || path[|path| - 1] == '/' then []
    else LastSegment(path[..|path| - 1]) + [path[|path| - 1]]
  }

  /** A suffix without separators that goes back to the last one. */
  lemma {:induction false} LastSegmentSpec(path: string) returns (dir: string)
    ensures path == dir + LastSegment(path) && IsDirPrefix(dir)
    ensures forall i :: 0 <= i < |LastSegment(path)| ==> LastSegment(path)[i] != '/'
    decreases |path|
  {
    if |path| == 0 || path[|path| - 1] == '/' {
      dir := path;
    } else {
      dir := LastSegmentSpec(path[..|path| - 1]);
      JoinSnoc(dir, LastSegment(path[..|path| - 1]), path[|path| - 1]);
      assert path == path[..|path| - 1] + [path[|path| - 1]];
    }
  }

  lemma JoinSnoc(a: string, b: string, c: char)
    ensures a + (b + [c]) == a + b + [c]
  {
  }

  function StripSuffix(s: string, suffix: string): Option<string> {
    if |suffix| <= |s| && s[|s| - |suffix|..] == suffix then Some(s[..|s| - |suffix|]) else None
  }

  /** `pack_id_from_path`. */
  function PackIdFromPath(parseUuid: string -> Option<Bytes>, path: string): Option<Bytes> {
    match StripSuffix(LastSegment(path), PACK_SUFFIX)
    case None => None
    case Some(stem) => parseUuid(stem)
  }

  /** `is_pack_object_path`. */
  predicate IsPackObjectPath(parseUuid: string -> Option<Bytes>, path: string) {
    PackIdFromPath(parseUuid, path).Some?
  }

  /** `par_sibling_path`. */
  function ParSiblingPath(parseUuid: string -> Option<Bytes>, path: string): Option<string> {
    match StripSuffix(LastSegment(path), PACK_SUFFIX)
    case None => None
    case Some(stem) =>
      if parseUuid(stem).None? then None
      else match StripSuffix(path, PACK_SUFFIX)
        case None => None
        case Some(base) => Some(base + PAR_SUFFIX)
  }

  /** A directory prefix: empty, or ending in a separator. */
  predicate IsDirPrefix(dir: string) {
    dir == [] || dir[|dir| - 1] == '/'
  }

  lemma {:induction false} LastSegmentOf(dir: string, name: string)
    requires LastSegment(dir) == [] && forall i :: 0 <= i < |name| ==> name[i] != '/'
    ensures LastSegment(dir + name) == name
    decreases |name|
  {
    if |name| == 0 {
      assert dir + name == dir;
    } else {
      LastSegmentOf(dir, name[..|name| - 1]);
      NameSnoc(dir, name[..|name| - 1], name[|name| - 1]);
      assert name[..|name| - 1] + [name[|name| - 1]] == name;
    }
  }

  lemma NameSnoc(dir: string, init: string, last: char)
    requires LastSegment(dir + init) == init && last != '/'
    ensures LastSegment(dir + (init + [last])) == init + [last]
  {
    assert dir + (init + [last]) == dir + init + [last];
    LastSegmentSnoc(dir + init, last);
  }

  lemma LastSegmentSnoc(path: string, c: char)
    requires c != '/'
    ensures LastSegment(path + [c]) == LastSegment(path) + [c]
  {
    assert (path + [c])[..|path|] == path;
  }

  lemma SuffixCut(a: string, b: string)
    ensures StripSuffix(a + b, b) == Some(a)
  {
    assert (a + b)[|a + b| - |b|..] == b && (a + b)[..|a + b| - |b|] == a;
  }

  /** A pack path: a directory prefix, a UUID and ".pack". */
  ghost predicate NamesPack(parseUuid: string -> Option<Bytes>, path: string, dir: string, stem: string, id: Bytes) {
    IsDirPrefix(dir) && '/' !in stem && path == dir + stem + PACK_SUFFIX && parseUuid(stem) == Some(id)
  }

  /**
   * A path has a parity sibling and a pack id exactly when it is a directory
   * prefix, a UUID and ".pack".  The id is that UUID and the sibling differs in
   * the suffix only, whichever of the layouts, flat or nested, the prefix is.
   */
  lemma SiblingIff(parseUuid: string -> Option<Bytes>, path: string, id: Bytes)
    ensures (ParSiblingPath(parseUuid, path).Some? && PackIdFromPath(parseUuid, path) == Some(id)) <==>
            (exists dir, stem :: NamesPack(parseUuid, path, dir, stem, id))
    ensures forall dir, stem :: NamesPack(parseUuid, path, dir, stem, id) ==>
              ParSiblingPath(parseUuid, path) == Some(dir + stem + PAR_SUFFIX)
  {
    if ParSiblingPath(parseUuid, path).Some? && PackIdFromPath(parseUuid, path) == Some(id) {
      var dir, stem := SplitPath(parseUuid, path, id);
    }
    forall dir, stem | NamesPack(parseUuid, path, dir, stem, id)
      ensures ParSiblingPath(parseUuid, path) == Some(dir + stem + PAR_SUFFIX) && PackIdFromPath(parseUuid, path) == Some(id) {
      SiblingOf(parseUuid, dir, stem, PACK_SUFFIX, id);
    }
  }

  lemma SplitPath(parseUuid: string -> Option<Bytes>, path: string, id: Bytes) returns (dir: string, stem: string)
    requires PackIdFromPath(parseUuid, path) == Some(id)
    ensures NamesPack(parseUuid, path, dir, stem, id)
  {
    var name := LastSegment(path);
    dir := LastSegmentSpec(path);
    stem := name[..|name| - |PACK_SUFFIX|];
    Rejoin(path, dir, name, stem, PACK_SUFFIX);
  }

  lemma Rejoin(path: string, dir: string, name: string, stem: string, suffix: string)
    requires path == dir + name && forall i :: 0 <= i < |name| ==> name[i] != '/'
    requires |suffix| <= |name| && stem == name[..|name| - |suffix|] && name[|name| - |suffix|..] == suffix
    ensures path == dir + stem + suffix
    ensures '/' !in stem
  {
    assert name == stem + suffix;
  }

  lemma SiblingOf(parseUuid: string -> Option<Bytes>, dir: string, stem: string, suffix: string, id: Bytes)
    requires IsDirPrefix(dir) && '/' !in stem && '/' !in suffix && suffix == PACK_SUFFIX && parseUuid(stem) == Some(id)
    ensures ParSiblingPath(parseUuid, dir + stem + suffix) == Some(dir + stem + PAR_SUFFIX)
    ensures PackIdFromPath(parseUuid, dir + stem + suffix) == Some(id)
  {
    LastSegmentOf(dir, stem + suffix);
    assert dir + stem + suffix == dir + (stem + suffix);
    SuffixCut(stem, suffix);
    SuffixCut(dir + stem, suffix);
  }
}
