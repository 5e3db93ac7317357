/**
 * Where a file of the snapshot lands under a chosen folder, as the recovery app
 * resolves it: without source prefixes to strip.
 */
module Destinations {
  function TrimSeparators(p: string): string {
    if p != [] && (p[0] == '/' || p[0] == '\\') then TrimSeparators(p[1..]) else p
  }

  /** `path_to_relative`. */
  function PathToRelative(p: string): string {
    if |p| >= 3 && p[1] == ':' then TrimSeparators(p[2..]) else TrimSeparators(p)
  }

  function Replaced(p: string, from: char, other: char): string {
    seq(|p|, i requires 0 <= i < |p| => if p[i] == from then other else p[i])
  }

  function TrimSlashes(p: string): string {
    if p != [] && p[0] == '/' then TrimSlashes(p[1..]) else p
  }

  predicate IsLetter(c: char) {
    'a' <= c <= 'z' || 'A' <= c <= 'Z'
  }

  function UpperCase(c: char): char
    requires IsLetter(c)
  {
    if 'a' <= c <= 'z' then c - 'a' + 'A' else c
  }

  /** A drive becomes a folder of its letter. */
  function DriveAsFolder(s: string): string {
    if |s| >= 2 && IsLetter(s[0]) && s[1] == ':' then
      [UpperCase(s[0]), '/'] + (if |s| >= 3 && s[2] == '/' then s[3..] else s[2..])
    else s
  }

  /** `sanitize_cross_platform_subpath`. */
  function Sanitized(p: string): string {
    Replaced(DriveAsFolder(TrimSlashes(Replaced(p, '\\', '/'))), ':', '_')
  }

  /** The destination below the chosen folder. */
  function RelativeDestination(p: string): string {
    Sanitized(PathToRelative(p))
  }

  /**
   * The drive never matters: files of the same path on any two drives land on
   * one destination.  The drive folders of the sanitising step are not reached,
   * since the letter is dropped before it.
   */
  lemma DriveIsDropped(x: char, y: char, rest: string)
    ensures RelativeDestination([x, ':', '/'] + rest) == RelativeDestination([y, ':', '/'] + rest)
  {
    assert ([x, ':', '/'] + rest)[2..] == ['/'] + rest && ([y, ':', '/'] + rest)[2..] == ['/'] + rest;
  }

  /** Neither a leading separator nor a drive. */
  predicate IsBare(p: string) {
    p != [] ==> p[0] != '/' && p[0] != '\\' && !(|p| >= 2 && IsLetter(p[0]) && p[1] == ':')
  }

  /** The sanitising step changes separators and colons only. */
  lemma SanitizedAt(p: string, i: nat)
    requires IsBare(p) && i < |p|
    ensures |Sanitized(p)| == |p|
    ensures Sanitized(p)[i] == if p[i] == '\\' then '/' else if p[i] == ':' then '_' else p[i]
  {
    var s := Replaced(p, '\\', '/');
    assert TrimSlashes(s) == s && DriveAsFolder(s) == s;
  }

  /** Characters that are written alike. */
  predicate WrittenAlike(a: char, b: char) {
    a == b || (a in {'/', '\\'} && b in {'/', '\\'}) || (a in {':', '_'} && b in {':', '_'})
  }

  /** Two such paths meet exactly when they differ in separators, or in colons against underscores, only. */
  lemma SanitizedMeetIff(a: string, b: string)
    requires IsBare(a) && IsBare(b)
    ensures Sanitized(a) == Sanitized(b) <==> |a| == |b| && forall i :: 0 <= i < |a| ==> WrittenAlike(a[i], b[i])
  {
    SanitizedLength(a);
    SanitizedLength(b);
    forall i | 0 <= i < |a| && i < |b| ensures Sanitized(a)[i] == Sanitized(b)[i] <==> WrittenAlike(a[i], b[i]) {
      SanitizedAt(a, i);
      SanitizedAt(b, i);
    }
  }

  lemma SanitizedLength(p: string)
    requires IsBare(p)
    ensures |Sanitized(p)| == |p|
  {
    if p == [] {
      assert Replaced(p, '\\', '/') == [];
    } else {
      SanitizedAt(p, 0);
    }
  }

  /** A lower-case letter for an upper-case one. */
  function LowerCase(c: char): char
    requires 'A' <= c <= 'Z'
  {
    c - 'A' + 'a'
  }

  /**
   * By itself the sanitising step does what it promises: a drive, in either
   * case, becomes the folder of its letter, so drives stay apart.
   */
  lemma DrivesAreFolders(x: char, y: char, rest: string)
    requires 'A' <= x <= 'Z' && 'A' <= y <= 'Z' && IsPlain(rest)
    ensures Sanitized([x, ':', '/'] + rest) == [x, '/'] + rest == Sanitized([LowerCase(x), ':', '/'] + rest)
    ensures Sanitized([x, ':'] + rest) == [x, '/'] + rest
    ensures Sanitized([x, ':', '/'] + rest) == Sanitized([y, ':', '/'] + rest) <==> x == y
  {
    DriveFolder(x, x, rest);
    DriveFolder(LowerCase(x), x, rest);
    DriveFolder(y, y, rest);
    BareDrive(x, rest);
    assert ([x, '/'] + rest)[0] == x && ([y, '/'] + rest)[0] == y;
  }

  lemma BareDrive(x: char, rest: string)
    requires 'A' <= x <= 'Z' && IsPlain(rest)
    ensures Sanitized([x, ':'] + rest) == [x, '/'] + rest
  {
    var p := [x, ':'] + rest;
    assert Replaced(p, '\\', '/') == p && TrimSlashes(p) == p;
    assert p[2..] == rest && (rest != [] ==> p[2] == rest[0]);
    var d := [x, '/'] + rest;
    assert DriveAsFolder(p) == d;
    assert Replaced(d, ':', '_') == d;
  }

  lemma DriveFolder(letter: char, folder: char, rest: string)
    requires IsLetter(letter) && folder == UpperCase(letter) && IsPlain(rest) && folder != ':'
    ensures Sanitized([letter, ':', '/'] + rest) == [folder, '/'] + rest
  {
    var p := [letter, ':', '/'] + rest;
    assert Replaced(p, '\\', '/') == p && TrimSlashes(p) == p;
    assert p[3..] == rest;
    var d := [folder, '/'] + rest;
    assert DriveAsFolder(p) == d;
    assert Replaced(d, ':', '_') == d;
  }

  /** A path with '/' only, no colon and no leading separator. */
  predicate IsPlain(p: string) {
    (forall i :: 0 <= i < |p| ==> p[i] != '\\' && p[i] != ':') && (p != [] ==> p[0] != '/')
  }

  lemma {:induction false} TrimmedFront(p: string)
    ensures TrimSlashes(p) != [] ==> TrimSlashes(p)[0] != '/'
    ensures (forall i :: 0 <= i < |p| ==> p[i] != '\\') ==> forall i :: 0 <= i < |TrimSlashes(p)| ==> TrimSlashes(p)[i] != '\\'
  {
    if p != [] && p[0] == '/' {
      TrimmedFront(p[1..]);
    }
  }

  lemma FolderFront(s: string)
    requires s != [] ==> s[0] != '/'
    requires forall i :: 0 <= i < |s| ==> s[i] != '\\'
    ensures var d := DriveAsFolder(s); (d != [] ==> d[0] != '/') && forall i :: 0 <= i < |d| ==> d[i] != '\\'
  {
  }

  /**
   * Every destination is relative, with '/' only and no colon; and a path keeps
   * its name exactly when it is such a path, so only others can be moved onto
   * the place of another file.
   */
  lemma KeptIffPlain(p: string)
    ensures IsPlain(RelativeDestination(p))
    ensures RelativeDestination(p) == p <==> IsPlain(p)
  {
    var slashed := Replaced(PathToRelative(p), '\\', '/');
    TrimmedFront(slashed);
    FolderFront(TrimSlashes(slashed));
    if IsPlain(p) {
      assert PathToRelative(p) == p;
      assert Replaced(p, '\\', '/') == p && TrimSlashes(p) == p && DriveAsFolder(p) == p && Replaced(p, ':', '_') == p;
    }
  }

  /** A plain path behind a drive. */
  predicate IsDrivePath(p: string) {
    |p| >= 3 && p[1] == ':' && p[2] == '/' && IsPlain(p[3..])
  }

  predicate IsRegular(p: string) {
    IsPlain(p) || IsDrivePath(p)
  }

  function WithoutDrive(p: string): string {
    if IsDrivePath(p) then p[3..] else p
  }

  /** A plain path, behind a drive or not, loses exactly its drive. */
  lemma RegularDestination(p: string)
    requires IsRegular(p)
    ensures RelativeDestination(p) == WithoutDrive(p)
  {
    if IsDrivePath(p) {
      var rest := p[3..];
      KeptIffPlain(rest);
      assert p[2..][1..] == rest;
      assert TrimSeparators(p[2..]) == rest && PathToRelative(rest) == rest;
    } else {
      KeptIffPlain(p);
    }
  }

  /** Below one folder two such paths meet exactly when they are the same without their drives. */
  lemma RegularMeetIff(folder: string, a: string, b: string)
    requires IsRegular(a) && IsRegular(b)
    ensures folder + RelativeDestination(a) == folder + RelativeDestination(b) <==> WithoutDrive(a) == WithoutDrive(b)
  {
    RegularDestination(a);
    RegularDestination(b);
    assert (folder + WithoutDrive(a))[|folder|..] == WithoutDrive(a) && (folder + WithoutDrive(b))[|folder|..] == WithoutDrive(b);
  }

  lemma OneDrive(a: string, b: string)
    requires a != b && IsDrivePath(a) && IsDrivePath(b) && a[0] == b[0]
    ensures WithoutDrive(a) != WithoutDrive(b)
  {
    assert a == [a[0], ':', '/'] + a[3..] && b == [b[0], ':', '/'] + b[3..];
  }

  // ---- below the folder ------------------------------------------------------------------------

  /** The components of a path. */
  function Parts(p: string): (parts: seq<string>)
    ensures parts != []
  {
    if p == [] then [[]]
    else if p[0] == '/' then [[]] + Parts(p[1..])
    else
      var rest := Parts(p[1..]);
      [[p[0]] + rest[0]] + rest[1..]
  }

  predicate IsHere(part: string) {
    part == [] || part == "."
  }

  /** Where one component leads from the directory with the given names. */
  function Entered(at: seq<string>, part: string): seq<string> {
    if IsHere(part) then at
    else if part == ".." then (if at == [] then [] else at[..|at| - 1])
    else at + [part]
  }

  /** Where the components lead. */
  function Walk(at: seq<string>, parts: seq<string>): seq<string>
    decreases |parts|
  {
    if parts == [] then at else Walk(Entered(at, parts[0]), parts[1..])
  }

  /** Ordinary names lead down, one directory each. */
  lemma {:induction false} WalkNames(at: seq<string>, names: seq<string>)
    requires forall k :: 0 <= k < |names| ==> names[k] != "" && names[k] != "." && names[k] != ".."
    ensures Walk(at, names) == at + names
    decreases |names|
  {
    if names != [] {
      WalkNames(at + [names[0]], names[1..]);
      assert at + names == (at + [names[0]]) + names[1..];
    }
  }

  /** Following the components from `at` never leaves the folder. */
  predicate StaysBelow(folder: seq<string>, at: seq<string>, parts: seq<string>)
    decreases |parts|
  {
    folder <= at && (parts != [] ==> StaysBelow(folder, Entered(at, parts[0]), parts[1..]))
  }

  /** No component goes up from the depth it is met at. */
  predicate NeverAbove(depth: nat, parts: seq<string>)
    decreases |parts|
  {
    parts == []
    || (if IsHere(parts[0]) then NeverAbove(depth, parts[1..])
        else if parts[0] == ".." then depth > 0 && NeverAbove(depth - 1, parts[1..])
        else NeverAbove(depth + 1, parts[1..]))
  }

  /** From a folder and below it, the way stays there exactly when it never goes up from the folder itself. */
  lemma {:induction false} StaysBelowIff(folder: seq<string>, at: seq<string>, parts: seq<string>)
    requires folder != [] && folder <= at
    ensures StaysBelow(folder, at, parts) <==> NeverAbove(|at| - |folder|, parts)
    decreases |parts|
  {
    if parts != [] {
      var next := Entered(at, parts[0]);
      if folder <= next {
        StaysBelowIff(folder, next, parts[1..]);
      } else {
        assert parts[0] == ".." && |at| == |folder|;
      }
    }
  }

  /** So it does where no component goes up. */
  lemma {:induction false} NoUpNeverAbove(depth: nat, parts: seq<string>)
    requires ".." !in parts
    ensures NeverAbove(depth, parts)
    decreases |parts|
  {
    if parts != [] {
      NoUpNeverAbove(if IsHere(parts[0]) then depth else depth + 1, parts[1..]);
    }
  }
}
