/**
 * Destinations by name: where the files of a snapshot's tree land, when two of
 * them meet, and that they stay below the chosen folder.
 */
module TreeDestinations {
  import opened Basics
  import opened Destinations
  import opened RestoreRun
  import opened WholeRestore
  import SharedDestination
  import TreeFlatten

  // ---- plans below one folder ----------------------------------------------------------------

  /** The app's custom target: every file goes below one folder. */
  predicate Below(c: Config, folder: string) {
    forall w :: 0 <= w < |c.tasks| && c.tasks[w].dest.Some? ==>
      c.tasks[w].dest.value == folder + RelativeDestination(c.tasks[w].name)
  }

  ghost predicate RegularNames(c: Config) {
    forall w :: 0 <= w < |c.tasks| ==> IsRegular(c.tasks[w].name)
  }

  /** No file has the path of another task but for the drive. */
  ghost predicate DrivesApart(p: Plan) {
    forall v: nat, w: nat :: v != w && IsFileTask(p, w) && v < |p.jobs| && Spawnable(p.config, v) ==>
      WithoutDrive(p.config.tasks[v].name) != WithoutDrive(p.config.tasks[w].name)
  }

  lemma SameDestinationIff(p: Plan, folder: string, v: nat, w: nat)
    requires Below(p.config, folder) && RegularNames(p.config) && Spawnable(p.config, v) && Spawnable(p.config, w)
    ensures SameDestination(p, v, w) <==>
            WithoutDrive(p.config.tasks[v].name) == WithoutDrive(p.config.tasks[w].name)
  {
    RegularMeetIff(folder, p.config.tasks[v].name, p.config.tasks[w].name);
  }

  /** The names decide: destinations are apart exactly when no file has the path of another task but for the drive. */
  lemma ApartIff(p: Plan, folder: string)
    requires SoundPlan(p) && Below(p.config, folder) && RegularNames(p.config)
    ensures Apart(p) <==> DrivesApart(p)
  {
    forall v: nat, w: nat | IsFileTask(p, w) && v < |p.jobs| && Spawnable(p.config, v)
      ensures SameDestination(p, v, w) <==>
              WithoutDrive(p.config.tasks[v].name) == WithoutDrive(p.config.tasks[w].name) {
      SameDestinationIff(p, folder, v, w);
    }
  }

  ghost predicate OnDrive(c: Config, x: char) {
    forall w :: 0 <= w < |c.tasks| ==> IsDrivePath(c.tasks[w].name) && c.tasks[w].name[0] == x
  }

  /** All on one volume: no drives, or the same one everywhere. */
  ghost predicate OneVolume(c: Config) {
    (forall w :: 0 <= w < |c.tasks| ==> IsPlain(c.tasks[w].name)) || exists x :: OnDrive(c, x)
  }

  /** On one volume nothing is lost. */
  lemma OneVolumeIsApart(p: Plan, folder: string)
    requires SoundPlan(p) && Below(p.config, folder) && OneVolume(p.config)
    ensures Apart(p)
  {
    forall v: nat, w: nat | v != w && v < |p.jobs| && w < |p.jobs|
      ensures WithoutDrive(p.config.tasks[v].name) != WithoutDrive(p.config.tasks[w].name) {
      NamesDiffer(p.config, v, w);
      if !IsPlain(p.config.tasks[v].name) || !IsPlain(p.config.tasks[w].name) {
        OneDrive(p.config.tasks[v].name, p.config.tasks[w].name);
      }
    }
    ApartIff(p, folder);
  }

  lemma NamesDiffer(c: Config, v: nat, w: nat)
    requires DistinctNames(c) && v != w && v < |c.tasks| && w < |c.tasks|
    ensures c.tasks[v].name != c.tasks[w].name
  {
  }

  // ---- the names of a tree -------------------------------------------------------------------------

  predicate PlainName(name: string) {
    forall i :: 0 <= i < |name| ==> name[i] != ':' && name[i] != '\\'
  }

  predicate IsDrive(name: string) {
    |name| == 2 && name[1] == ':'
  }

  /** The names that lead to a file, the root's own among them where it has one. */
  function FullNames(root: TreeFlatten.TreeNode, names: seq<string>): seq<string> {
    if TreeFlatten.Transparent(root.name) then names else [root.name] + names
  }

  /** Nothing but a drive at the top has a colon or a backslash in its name, and what the drive holds is below it. */
  predicate OnVolumes(names: seq<string>) {
    && (forall k :: 0 < k < |names| ==> PlainName(names[k]))
    && (names != [] ==> PlainName(names[0]) || (IsDrive(names[0]) && |names| > 1))
  }

  /** All files of a snapshot lie on volumes: below a drive, or below the root itself. */
  ghost predicate Volumes(root: TreeFlatten.TreeNode) {
    forall names, f :: TreeFlatten.LeadTo(root, names, f) ==> OnVolumes(FullNames(root, names))
  }

  predicate ProperNames(names: seq<string>) {
    forall k :: 0 <= k < |names| ==> TreeFlatten.ProperName(names[k])
  }

  /** The names joined. */
  function Joined(names: seq<string>): string {
    if names == [] then [] else if |names| == 1 then names[0] else names[0] + ['/'] + Joined(names[1..])
  }

  lemma {:induction false} PathIsJoined(base: string, names: seq<string>)
    requires base != []
    ensures TreeFlatten.PathOf(base, names) == if names == [] then base else base + ['/'] + Joined(names)
    decreases |names|
  {
    if names != [] {
      var below := base + ['/'] + names[0];
      PathIsJoined(below, names[1..]);
      if |names| > 1 {
        assert below + ['/'] + Joined(names[1..]) == base + ['/'] + (names[0] + ['/'] + Joined(names[1..]));
      }
    }
  }

  lemma TreePath(root: TreeFlatten.TreeNode, names: seq<string>)
    requires ProperNames(FullNames(root, names))
    ensures TreeFlatten.PathOf(TreeFlatten.RootPath(root), names) == Joined(FullNames(root, names))
  {
    var full := FullNames(root, names);
    if !TreeFlatten.Transparent(root.name) {
      PathIsJoined(root.name, names);
      assert full[1..] == names;
    } else if names != [] {
      PathIsJoined(names[0], names[1..]);
    }
  }

  lemma {:induction false} JoinedIsPlain(names: seq<string>)
    requires ProperNames(names) && forall k :: 0 <= k < |names| ==> PlainName(names[k])
    ensures IsPlain(Joined(names))
  {
    if |names| > 1 {
      JoinedIsPlain(names[1..]);
    }
  }

  /** A file on its volume, without the drive. */
  function OnVolume(names: seq<string>): seq<string> {
    if names != [] && IsDrive(names[0]) then names[1..] else names
  }

  lemma VolumePath(names: seq<string>)
    requires ProperNames(names) && OnVolumes(names)
    ensures IsRegular(Joined(names)) && WithoutDrive(Joined(names)) == Joined(OnVolume(names))
  {
    JoinedIsPlain(OnVolume(names));
    if names != [] && IsDrive(names[0]) {
      assert Joined(names)[3..] == Joined(names[1..]);
    }
  }

  lemma {:induction false} PartsOfName(name: string, rest: string)
    requires forall i :: 0 <= i < |name| ==> name[i] != '/'
    ensures Parts(name + ['/'] + rest) == [name] + Parts(rest)
    ensures Parts(name) == [name]
  {
    if name != [] {
      PartsOfName(name[1..], rest);
      assert (name + ['/'] + rest)[1..] == name[1..] + ['/'] + rest;
      assert [name[0]] + name[1..] == name;
    } else {
      assert ([] + ['/'] + rest)[1..] == rest;
    }
  }

  lemma {:induction false} PartsOfJoined(names: seq<string>)
    requires ProperNames(names) && names != []
    ensures Parts(Joined(names)) == names
  {
    if |names| > 1 {
      PartsOfJoined(names[1..]);
      PartsOfName(names[0], Joined(names[1..]));
    } else {
      PartsOfName(names[0], []);
    }
  }

  // ---- the main results ------------------------------------------------------------------------------

  lemma {:induction false} FoundNamesProper(node: TreeFlatten.TreeNode, names: seq<string>)
    requires TreeFlatten.WellNamed(node) && TreeFlatten.Find(node, names).Some?
    ensures ProperNames(names)
    decreases |names|
  {
    if names != [] {
      var i := TreeFlatten.FoundChild(node.children, names[0]);
      TreeFlatten.WellNamedChild(node.children, i);
      FoundNamesProper(node.children[i], names[1..]);
      assert forall k :: 0 < k < |names| ==> names[k] == names[1..][k - 1];
    }
  }

  ghost predicate GoodTree(root: TreeFlatten.TreeNode) {
    && TreeFlatten.WellNamed(root) && (TreeFlatten.Transparent(root.name) || TreeFlatten.ProperName(root.name))
    && Volumes(root)
  }

  /**
   * Where a file of the tree lands: below the chosen folder under the very names
   * that lead to it, but for the drive; and the way there stays below the folder
   * exactly when those names never go up from it, as when no name is "..".  With
   * ordinary names it ends at the folder's path with the names behind it.
   */
  lemma FileDestination(root: TreeFlatten.TreeNode, f: TreeFlatten.CollectedFile, folder: seq<string>) returns (names: seq<string>)
    requires GoodTree(root) && f in TreeFlatten.Files(root, []) && folder != []
    ensures TreeFlatten.LeadTo(root, names, f) && IsRegular(f.path)
    ensures RelativeDestination(f.path) == Joined(OnVolume(FullNames(root, names)))
    ensures StaysBelow(folder, folder, Parts(RelativeDestination(f.path))) <==> NeverAbove(0, OnVolume(FullNames(root, names)))
    ensures ".." !in OnVolume(FullNames(root, names)) ==> StaysBelow(folder, folder, Parts(RelativeDestination(f.path)))
    ensures ".." !in OnVolume(FullNames(root, names)) && "." !in OnVolume(FullNames(root, names)) ==>
              Walk(folder, Parts(RelativeDestination(f.path))) == folder + OnVolume(FullNames(root, names))
  {
    TreeFlatten.FilesAreTheTree(root, f);
    names :| TreeFlatten.LeadTo(root, names, f);
    FoundNamesProper(root, names);
    TreePath(root, names);
    NamesDestination(FullNames(root, names), f.path, folder);
  }

  lemma NamesDestination(names: seq<string>, path: string, folder: seq<string>)
    requires ProperNames(names) && OnVolumes(names) && path == Joined(names) && folder != []
    ensures IsRegular(path) && RelativeDestination(path) == Joined(OnVolume(names))
    ensures StaysBelow(folder, folder, Parts(RelativeDestination(path))) <==> NeverAbove(0, OnVolume(names))
    ensures ".." !in OnVolume(names) ==> NeverAbove(0, OnVolume(names))
    ensures ".." !in OnVolume(names) && "." !in OnVolume(names) ==>
              Walk(folder, Parts(RelativeDestination(path))) == folder + OnVolume(names)
  {
    VolumePath(names);
    RegularDestination(path);
    JoinedStaysBelowIff(folder, OnVolume(names));
  }

  lemma JoinedStaysBelowIff(folder: seq<string>, names: seq<string>)
    requires ProperNames(names) && folder != []
    ensures StaysBelow(folder, folder, Parts(Joined(names))) <==> NeverAbove(0, names)
    ensures ".." !in names ==> NeverAbove(0, names)
    ensures ".." !in names && "." !in names ==> Walk(folder, Parts(Joined(names))) == folder + names
  {
    if ".." !in names && "." !in names {
      WalkNames(folder, names);
    }
    if ".." !in names {
      NoUpNeverAbove(0, names);
    }
    StaysBelowIff(folder, folder, Parts(Joined(names)));
    if names != [] {
      PartsOfJoined(names);
    } else {
      var nothing := Parts(Joined(names));
      assert nothing == [[]] && nothing[1..] == [];
      assert Walk(folder, nothing) == folder;
    }
  }

  ghost predicate HasFile(root: TreeFlatten.TreeNode, path: string) {
    exists f :: f in TreeFlatten.Files(root, []) && f.path == path
  }

  /** Every task is for a file of the tree, under its path. */
  ghost predicate FromTree(c: Config, root: TreeFlatten.TreeNode) {
    forall w :: 0 <= w < |c.tasks| ==> HasFile(root, c.tasks[w].name)
  }

  lemma TreeNamesRegular(c: Config, root: TreeFlatten.TreeNode)
    requires GoodTree(root) && FromTree(c, root)
    ensures RegularNames(c)
  {
    forall w | 0 <= w < |c.tasks| ensures IsRegular(c.tasks[w].name) {
      assert HasFile(root, c.tasks[w].name);
      var f :| f in TreeFlatten.Files(root, []) && f.path == c.tasks[w].name;
      var names := FileDestination(root, f, ["folder"]);
    }
  }

  /**
   * When restoring a snapshot's tree below one folder is safe: in every state of
   * every run each completed file is on disk with its recorded content, exactly
   * when no file has the path of another task but for the drive.
   */
  lemma TreeRestoreIsRightIff(p: Plan, root: TreeFlatten.TreeNode, folder: string)
    requires SoundPlan(p) && SharedDestination.AllRestorable(p) && Below(p.config, folder)
    requires GoodTree(root) && FromTree(p.config, root)
    ensures (forall st, w: nat :: IsStory(p, st) && IsCompleted(p, st.now, w) ==> Right(p, st.disk, w)) <==> DrivesApart(p)
    ensures OneVolume(p.config) ==> DrivesApart(p)
  {
    TreeNamesRegular(p.config, root);
    ApartIff(p, folder);
    SharedDestination.CompletedRightIff(p);
    if OneVolume(p.config) {
      OneVolumeIsApart(p, folder);
    }
  }
}
