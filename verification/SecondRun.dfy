/**
 * An interrupted restore and the next one over the same folder: what the first
 * leaves, what the second passes over because something is there, and when its
 * success means that every file is right.
 */
module SecondRun {
  import opened Basics
  import opened ChunkFetch
  import opened Reconstruct
  import opened RestoreFile
  import opened RestoreRun
  import opened RestoreRunSafety
  import opened WholeRestore
  import RestoreRunResults
  import SharedDestination

  // ---- the first run -----------------------------------------------------------------------------

  /** Nothing was carried over, and nothing is there where the run is to write. */
  ghost predicate FirstRun(p: Plan) {
    p.config.resumed == {} && forall w: nat :: Spawnable(p.config, w) ==> p.config.tasks[w].dest.value !in p.found
  }

  /** A worker that was still running when the run stopped breaks off. */
  ghost predicate BrokenAt(p: Plan, s: State, w: nat, left: Disk) {
    && w < |s.status| == |p.jobs| && s.status[w].Running? && Spawnable(p.config, w)
    && var dest := p.config.tasks[w].dest.value;
       dest in left ==> PartOf(p.jobs[w], left[dest])
  }

  ghost predicate BrokenTo(p: Plan, s: State, dest: string, left: Disk) {
    exists w: nat :: BrokenAt(p, s, w, left) && p.config.tasks[w].dest.value == dest
  }

  /** What is on disk when the run stops, cancelled, at its end, or with the app closed at any moment. */
  ghost predicate Leaves(p: Plan, st: Story, left: Disk) {
    forall dest :: SameAt(st.disk, left, dest) || BrokenTo(p, st.now, dest, left)
  }

  predicate EndedInPanic(st: Status) {
    HasEnded(st) && st.outcome.Panicked?
  }

  /** A file that is not finished is there in part at most, and only behind a panic. */
  ghost predicate UnfinishedInPart(p: Plan, s: State, disk: Disk) {
    && |s.status| == |p.jobs|
    && forall w: nat :: IsFileTask(p, w) && !EndedDone(s.status[w]) && p.config.tasks[w].dest.value in disk ==>
         EndedInPanic(s.status[w]) && PartOf(p.jobs[w], disk[p.config.tasks[w].dest.value])
  }

  lemma FailedIsRemoved(p: Plan, job: Job, dest: string, disk: Disk, disk': Disk)
    requires job.Content? && Writes(p, job, dest, false, disk, disk')
    ensures dest !in disk'
  {
    var io: Io, prior: Option<Bytes>, missing: set<string> :| WrittenUnder(p, job, dest, false, disk, disk', io, prior, missing);
  }

  lemma EndKeepsUnfinished(p: Plan, s: State, a: Action, s': State, disk: Disk, disk': Disk, w: nat)
    requires UnfinishedInPart(p, s, disk) && Ends(a, s, s') && DiskStep(p, a, disk, disk')
    requires IsFileTask(p, w) && EndsAt(p, a, p.config.tasks[w].dest.value) && a.w == w
    requires !EndedDone(s'.status[w]) && p.config.tasks[w].dest.value in disk'
    ensures EndedInPanic(s'.status[w]) && PartOf(p.jobs[w], disk'[p.config.tasks[w].dest.value])
  {
    var dest := p.config.tasks[w].dest.value;
    assert dest !in disk;
    if a.WorkerEnd? {
      FailedIsRemoved(p, p.jobs[w], dest, disk, disk');
    }
  }

  lemma StepKeepsUnfinished(p: Plan, s: State, a: Action, s': State, disk: Disk, disk': Disk)
    requires Apart(p) && UnfinishedInPart(p, s, disk) && Ends(a, s, s') && DiskStep(p, a, disk, disk')
    ensures UnfinishedInPart(p, s', disk')
  {
    forall w: nat | IsFileTask(p, w) && !EndedDone(s'.status[w]) && p.config.tasks[w].dest.value in disk'
      ensures EndedInPanic(s'.status[w]) && PartOf(p.jobs[w], disk'[p.config.tasks[w].dest.value]) {
      var dest := p.config.tasks[w].dest.value;
      if EndsAt(p, a, dest) {
        assert a.w != w ==> SameDestination(p, a.w, w);
        EndKeepsUnfinished(p, s, a, s', disk, disk', w);
      } else {
        OthersUntouched(p, a, disk, disk', dest);
      }
    }
  }

  lemma {:induction false} StoryKeepsUnfinished(p: Plan, st: Story)
    requires SoundPlan(p) && Apart(p) && FirstRun(p) && IsStory(p, st)
    ensures UnfinishedInPart(p, st.now, st.disk)
  {
    if st.Next? {
      StoryKeepsUnfinished(p, st.before);
      StoryRuns(p, st.before);
      EndsOnce(p.config, st.before.now, st.action, st.now);
      StepKeepsUnfinished(p, st.before.now, st.action, st.now, st.before.disk, st.disk);
    }
  }

  /** Whatever a stopped first run leaves at a file's place is a beginning of that file. */
  lemma LeftIsPart(p: Plan, st: Story, left: Disk, w: nat)
    requires SoundPlan(p) && Apart(p) && FirstRun(p) && IsStory(p, st) && Leaves(p, st, left)
    requires IsFileTask(p, w) && p.config.tasks[w].dest.value in left
    ensures PartOf(p.jobs[w], left[p.config.tasks[w].dest.value])
  {
    var dest := p.config.tasks[w].dest.value;
    if SameAt(st.disk, left, dest) {
      StoryKeepsUnfinished(p, st);
      StoryHolds(p, st);
      if EndedDone(st.now.status[w]) {
        assert NoFailureAt(p, st.now, w);
        assert Right(p, st.disk, w);
      }
    } else {
      var v: nat :| BrokenAt(p, st.now, v, left) && p.config.tasks[v].dest.value == dest;
      assert v != w ==> SameDestination(p, v, w);
    }
  }

  lemma {:induction false} FlattenTotal(tiling: seq<ChunkRef>, plains: seq<Bytes>, from: nat, to: nat)
    requires Tiling(tiling, from, to) && |tiling| == |plains| && forall i :: 0 <= i < |tiling| ==> tiling[i].size == |plains[i]|
    ensures from + |Flatten(plains)| == to
    decreases |tiling|
  {
    if tiling != [] {
      FlattenTotal(tiling[1..], plains[1..], from + tiling[0].size, to);
    }
  }

  /** So it is the file itself exactly when it has the recorded size. */
  lemma LeftIsRightIff(p: Plan, st: Story, left: Disk, w: nat)
    requires SoundPlan(p) && Apart(p) && FirstRun(p) && IsStory(p, st) && Leaves(p, st, left)
    requires IsFileTask(p, w) && p.config.tasks[w].dest.value in left
    ensures Right(p, left, w) <==> |left[p.config.tasks[w].dest.value]| == p.jobs[w].total
  {
    LeftIsPart(p, st, left, w);
    var job := p.jobs[w];
    assert SoundJob(p, job);
    FlattenTotal(job.tiling, job.plains, 0, job.total);
    SamePart(left[p.config.tasks[w].dest.value], Flatten(job.plains));
  }

  lemma SamePart(part: Bytes, all: Bytes)
    requires part <= all
    ensures part == all <==> |part| == |all|
  {
  }

  // ---- the second run ------------------------------------------------------------------------------

  function StatOf(disk: Disk): string -> RestoreRunResults.Stat {
    (dest: string) => if dest in disk then RestoreRunResults.RegularFile(|disk[dest]|) else RestoreRunResults.NotFound
  }

  /**
   * The next run of the app, which never overwrites: a file that is there has no
   * destination any more, and a name of the checkpoint is kept when verified.
   */
  ghost predicate NextRun(p: Plan, left: Disk, q: Plan) {
    && q.jobs == p.jobs && q.found == left && |q.config.tasks| == |p.config.tasks|
    && (forall w :: 0 <= w < |p.config.tasks| ==> q.config.tasks[w].name == p.config.tasks[w].name)
    && (forall w :: 0 <= w < |p.config.tasks| ==> q.config.tasks[w].dest.None? || q.config.tasks[w].dest == p.config.tasks[w].dest)
    && (forall w: nat :: IsFileTask(p, w) ==>
          q.config.tasks[w].dest == if p.config.tasks[w].dest.value in left then None else p.config.tasks[w].dest)
    && (forall t :: t in q.config.tasks && t.name in q.config.resumed ==> RestoreRunResults.Trusted(t, StatOf(left)))
  }

  /** A first run that stopped anywhere, and a second one over what it left that ended in success. */
  ghost predicate TwoRuns(p: Plan, st: Story, left: Disk, q: Plan, st2: Story) {
    && SoundPlan(p) && Apart(p) && FirstRun(p) && IsStory(p, st) && Leaves(p, st, left)
    && SoundPlan(q) && NextRun(p, left, q) && IsStory(q, st2) && Succeeded(st2)
  }

  lemma StillSpawnable(p: Plan, left: Disk, q: Plan, w: nat)
    requires FirstRun(p) && NextRun(p, left, q) && |p.jobs| == |p.config.tasks| && Spawnable(q.config, w)
    ensures Spawnable(p.config, w) && q.config.tasks[w].dest == p.config.tasks[w].dest
  {
  }

  lemma StillApart(p: Plan, left: Disk, q: Plan)
    requires SoundPlan(p) && Apart(p) && FirstRun(p) && SoundPlan(q) && NextRun(p, left, q)
    ensures Apart(q)
  {
    forall v: nat, w: nat | v != w && IsFileTask(q, w) && v < |q.jobs| ensures !SameDestination(q, v, w) {
      if SameDestination(q, v, w) {
        StillSpawnable(p, left, q, v);
        StillSpawnable(p, left, q, w);
        assert SameDestination(p, v, w);
      }
    }
  }

  /** A destination that no task of the plan has is left alone. */
  lemma {:induction false} NeverTouched(q: Plan, st: Story, dest: string)
    requires IsStory(q, st)
    requires forall v: nat :: v < |q.jobs| && Spawnable(q.config, v) ==> q.config.tasks[v].dest.value != dest
    ensures SameAt(q.found, st.disk, dest)
  {
    if st.Next? {
      NeverTouched(q, st.before, dest);
      OthersUntouched(q, st.action, st.before.disk, st.disk, dest);
    }
  }

  /** What is there is passed over, and stays. */
  lemma PassedOver(p: Plan, left: Disk, q: Plan, st2: Story, w: nat)
    requires SoundPlan(p) && Apart(p) && FirstRun(p) && NextRun(p, left, q) && IsStory(q, st2)
    requires IsFileTask(p, w) && p.config.tasks[w].dest.value in left
    ensures SameAt(left, st2.disk, p.config.tasks[w].dest.value)
  {
    var dest := p.config.tasks[w].dest.value;
    forall v: nat | v < |q.jobs| && Spawnable(q.config, v) ensures q.config.tasks[v].dest.value != dest {
      StillSpawnable(p, left, q, v);
      assert v != w ==> !SameDestination(p, v, w);
    }
    NeverTouched(q, st2, dest);
  }

  /** What is not there is written. */
  lemma WrittenNow(p: Plan, left: Disk, q: Plan, st2: Story, w: nat)
    requires SoundPlan(p) && Apart(p) && FirstRun(p) && SoundPlan(q) && NextRun(p, left, q) && IsStory(q, st2) && Succeeded(st2)
    requires IsFileTask(p, w) && p.config.tasks[w].dest.value !in left
    ensures Right(p, st2.disk, w)
  {
    StillApart(p, left, q);
    assert q.config.tasks[w] in q.config.tasks;
    assert IsFileTask(q, w);
    SuccessIsRight(q, st2, w);
  }

  ghost predicate AllRight(p: Plan, disk: Disk) {
    forall w: nat :: IsFileTask(p, w) ==> Right(p, disk, w)
  }

  /** Each file found has its recorded size. */
  ghost predicate SizesAgree(p: Plan, left: Disk) {
    forall w: nat :: IsFileTask(p, w) && p.config.tasks[w].dest.value in left ==>
      |left[p.config.tasks[w].dest.value]| == p.jobs[w].total
  }

  /**
   * When the success of the second run means that the restore is complete: every
   * file is on disk with its recorded content exactly when each file that the
   * first run left had its recorded size.
   */
  lemma SecondSuccessIsRightIff(p: Plan, st: Story, left: Disk, q: Plan, st2: Story)
    requires TwoRuns(p, st, left, q, st2)
    ensures AllRight(p, st2.disk) <==> SizesAgree(p, left)
  {
    forall w: nat | IsFileTask(p, w)
      ensures Right(p, st2.disk, w) <==>
              (p.config.tasks[w].dest.value in left ==> |left[p.config.tasks[w].dest.value]| == p.jobs[w].total) {
      if p.config.tasks[w].dest.value in left {
        PassedOver(p, left, q, st2, w);
        LeftIsRightIff(p, st, left, w);
      } else {
        WrittenNow(p, left, q, st2, w);
      }
    }
  }

  // ---- files that stay partial ----------------------------------------------------------------------

  function LeftAlone(t: Task, left: Disk): Task {
    if t.dest.Some? && t.dest.value in left then t.(dest := None) else t
  }

  /** The next run without a checkpoint. */
  function Resumed(p: Plan, left: Disk): Plan {
    p.(config := Config(seq(|p.config.tasks|, w requires 0 <= w < |p.config.tasks| => LeftAlone(p.config.tasks[w], left)), {}),
       found := left)
  }

  lemma NextPlan(p: Plan, left: Disk)
    requires SoundPlan(p) && SharedDestination.AllRestorable(p)
    ensures SoundPlan(Resumed(p, left)) && SharedDestination.AllRestorable(Resumed(p, left)) && NextRun(p, left, Resumed(p, left))
  {
    var q := Resumed(p, left);
    forall w | 0 <= w < |q.jobs| ensures SoundJob(q, q.jobs[w]) && SharedDestination.Restorable(q, q.jobs[w]) {
      assert SoundJob(p, p.jobs[w]) && SharedDestination.Restorable(p, p.jobs[w]);
      StillRestorable(p, q, p.jobs[w]);
    }
  }

  lemma StillRestorable(p: Plan, q: Plan, job: Job)
    requires SharedDestination.Restorable(p, job) && q.src == p.src && q.sparse == p.sparse
    ensures SharedDestination.Restorable(q, job)
  {
    if job.Content? {
      var io: Io, prior: Option<Bytes>, missing: set<string> :| SharedDestination.Succeeds(p, job, io, prior, missing);
      assert SharedDestination.Succeeds(q, job, io, prior, missing);
    }
  }

  /** The file of `w` was just created when the run stopped. */
  lemma JustCreated(p: Plan, st: Story, w: nat) returns (left: Disk)
    requires IsFileTask(p, w) && |st.now.status| == |p.jobs| && st.now.status[w].Running?
    ensures Leaves(p, st, left) && p.config.tasks[w].dest.value in left && left[p.config.tasks[w].dest.value] == []
  {
    left := st.disk[p.config.tasks[w].dest.value := []];
    assert BrokenAt(p, st.now, w, left);
  }

  lemma GoesOn(p: Plan, st: Story, left: Disk) returns (q: Plan, st2: Story)
    requires SoundPlan(p) && SharedDestination.AllRestorable(p) && Apart(p) && FirstRun(p) && IsStory(p, st) && Leaves(p, st, left)
    ensures TwoRuns(p, st, left, q, st2)
  {
    NextPlan(p, left);
    q := Resumed(p, left);
    st2 := SharedDestination.AllGoesWell(q);
  }

  /** Such a file stays empty, and the next run is a success. */
  lemma StaysEmpty(p: Plan, st: Story, w: nat) returns (left: Disk, q: Plan, st2: Story)
    requires SoundPlan(p) && SharedDestination.AllRestorable(p) && Apart(p) && FirstRun(p) && IsStory(p, st)
    requires IsFileTask(p, w) && p.jobs[w].total > 0 && |st.now.status| == |p.jobs| && st.now.status[w].Running?
    ensures TwoRuns(p, st, left, q, st2) && !AllRight(p, st2.disk)
  {
    left := JustCreated(p, st, w);
    q, st2 := GoesOn(p, st, left);
    SecondSuccessIsRightIff(p, st, left, q, st2);
    assert !SizesAgree(p, left);
  }

  /**
   * A cancellation while files are spawned: the one just created stays empty,
   * the next run passes it over, and reports success.
   */
  lemma PartialIsKept(p: Plan, w: nat) returns (st: Story, left: Disk, q: Plan, st2: Story)
    requires SoundPlan(p) && SharedDestination.AllRestorable(p) && Apart(p) && FirstRun(p)
    requires IsFileTask(p, w) && p.jobs[w].total > 0 && w + 1 < |p.jobs|
    ensures TwoRuns(p, st, left, q, st2) && st.now.phase == Over(CancelledRun) && !AllRight(p, st2.disk)
  {
    st := SharedDestination.SpawnedTo(p, w + 1);
    assert SharedDestination.AsDispatched(p.config, st.now.status[w], w);
    st := SharedDestination.Go(p, st, UserCancel, st.now.(cancel := true, touched := true, paused := false), st.disk);
    st := SharedDestination.Go(p, st, CheckSpawn, CancelledExit(st.now), st.disk);
    left, q, st2 := StaysEmpty(p, st, w);
  }

  /**
   * Passing over whatever is there is safe for empty files only: over every way
   * a first run can stop, each successful second run leaves all files right
   * exactly when no file has content.
   */
  lemma PassingOverIsSafeIff(p: Plan)
    requires SoundPlan(p) && SharedDestination.AllRestorable(p) && Apart(p) && FirstRun(p)
    ensures (forall st, left, q, st2 :: TwoRuns(p, st, left, q, st2) ==> AllRight(p, st2.disk)) <==>
            (forall w: nat :: IsFileTask(p, w) ==> p.jobs[w].total == 0)
  {
    if forall w: nat :: IsFileTask(p, w) ==> p.jobs[w].total == 0 {
      forall st, left, q, st2 | TwoRuns(p, st, left, q, st2) ensures AllRight(p, st2.disk) {
        EmptyAreRight(p, st, left);
        SecondSuccessIsRightIff(p, st, left, q, st2);
      }
    } else {
      var w: nat :| IsFileTask(p, w) && p.jobs[w].total > 0;
      var st := SharedDestination.AllSpawned(p);
      assert SharedDestination.AsDispatched(p.config, st.now.status[w], w);
      var left, q, st2 := StaysEmpty(p, st, w);
    }
  }

  lemma EmptyAreRight(p: Plan, st: Story, left: Disk)
    requires SoundPlan(p) && Apart(p) && FirstRun(p) && IsStory(p, st) && Leaves(p, st, left)
    requires forall w: nat :: IsFileTask(p, w) ==> p.jobs[w].total == 0
    ensures SizesAgree(p, left)
  {
    forall w: nat | IsFileTask(p, w) && p.config.tasks[w].dest.value in left
      ensures |left[p.config.tasks[w].dest.value]| == p.jobs[w].total {
      LeftIsPart(p, st, left, w);
      assert SoundJob(p, p.jobs[w]);
      FlattenTotal(p.jobs[w].tiling, p.jobs[w].plains, 0, p.jobs[w].total);
    }
  }
}
