/**
 * A restore run together with the files its workers write: what is on disk when
 * a name is completed, checkpointed, or when the run reports success, and what
 * that takes of the destinations.
 */
module WholeRestore {
  import opened Basics
  import opened ChunkFetch
  import opened Reconstruct
  import opened RestoreFile
  import opened RestoreRun
  import opened RestoreRunSafety
  import opened RestoreRunResults

  /** A task's work: a symlink, or chunks whose recorded plaintexts tile the file. */
  datatype Job = Link | Content(refs: seq<ChunkRef>, tiling: seq<ChunkRef>, plains: seq<Bytes>, total: nat)

  /** The regular files at their destinations. */
  type Disk = map<string, Bytes>

  /** `found` is what is on disk when the run starts. */
  datatype Plan = Plan(config: Config, jobs: seq<Job>, src: Sources, sparse: bool, found: Disk)

  ghost predicate SoundJob(p: Plan, job: Job) {
    job.Content? ==>
      && Tiling(job.tiling, 0, job.total) && multiset(job.refs) == multiset(job.tiling)
      && RecordsOf(p.src.tools.crypto.keyedId, job.tiling, job.plains)
  }

  ghost predicate SoundPlan(p: Plan) {
    && DistinctNames(p.config) && |p.jobs| == |p.config.tasks| && CollisionFree(p.src.tools.crypto)
    && forall w :: 0 <= w < |p.jobs| ==> SoundJob(p, p.jobs[w])
  }

  /** The task is neither carried over nor left alone. */
  predicate Spawnable(c: Config, w: nat) {
    w < |c.tasks| && c.tasks[w].name !in c.resumed && c.tasks[w].dest.Some?
  }

  predicate IsFileTask(p: Plan, w: nat) {
    w < |p.jobs| && p.jobs[w].Content? && Spawnable(p.config, w)
  }

  predicate SameDestination(p: Plan, v: nat, w: nat) {
    Spawnable(p.config, v) && Spawnable(p.config, w) && p.config.tasks[v].dest == p.config.tasks[w].dest
  }

  /** One way the writing of a file may go. */
  ghost predicate WrittenUnder(p: Plan, job: Job, dest: string, done: bool, disk: Disk, disk': Disk,
                               io: Io, prior: Option<Bytes>, missing: set<string>)
    requires job.Content?
  {
    && io.created && |io.moments| == |SortByOffset(job.refs)|
    && var outcome := Restored(p.src, job.refs, io, prior, missing, p.sparse);
       && done == outcome.error.None?
       && disk' == if outcome.disk.Some? then disk[dest := outcome.disk.value] else disk - {dest}
  }

  ghost predicate Writes(p: Plan, job: Job, dest: string, done: bool, disk: Disk, disk': Disk)
    requires job.Content?
  {
    exists io: Io, prior: Option<Bytes>, missing: set<string> :: WrittenUnder(p, job, dest, done, disk, disk', io, prior, missing)
  }

  /** As far as writing the job may have come; RestoreFile.SoFarIsPrefix is why. */
  predicate PartOf(job: Job, bytes: Bytes) {
    job.Content? && bytes <= Flatten(job.plains)
  }

  /** What a worker that breaks off may leave: nothing touched, nothing there, or part of its file. */
  ghost predicate BreaksOff(job: Job, dest: string, disk: Disk, disk': Disk) {
    disk' == disk || disk' == disk - {dest} || exists bytes :: PartOf(job, bytes) && disk' == disk[dest := bytes]
  }

  /** The action ends the worker of a task with this destination. */
  predicate EndsAt(p: Plan, a: Action, dest: string) {
    (a.WorkerEnd? || a.WorkerPanic?) && a.w < |p.jobs| && Spawnable(p.config, a.w) && p.config.tasks[a.w].dest.value == dest
  }

  /**
   * A worker's end leaves what writing its file leaves, under some fortune and
   * with some packs known to be missing; a symlink takes the place of what was
   * there.  A worker that does not end well may also have touched nothing, and
   * one that panics breaks off wherever it was.
   */
  ghost predicate DiskStep(p: Plan, a: Action, disk: Disk, disk': Disk) {
    if a.WorkerEnd? && a.w < |p.jobs| && Spawnable(p.config, a.w) then
      var dest := p.config.tasks[a.w].dest.value;
      || (!a.outcome.Done? && disk' == disk)
      || if p.jobs[a.w].Link? then disk' == disk - {dest} else Writes(p, p.jobs[a.w], dest, a.outcome.Done?, disk, disk')
    else if a.WorkerPanic? && a.w < |p.jobs| && Spawnable(p.config, a.w) then
      BreaksOff(p.jobs[a.w], p.config.tasks[a.w].dest.value, disk, disk')
    else disk' == disk
  }

  /** A run with its disk, latest step outermost. */
  datatype Story = Begin(now: State, disk: Disk) | Next(before: Story, action: Action, now: State, disk: Disk)

  ghost predicate IsStory(p: Plan, st: Story) {
    match st
    case Begin(now, disk) => now == Initial(p.config) && disk == p.found
    case Next(before, action, now, disk) =>
      IsStory(p, before) && Step(p.config, before.now, action, now) && DiskStep(p, action, before.disk, disk)
  }

  /** The file of task `w` is on disk with exactly its recorded content. */
  ghost predicate Right(p: Plan, disk: Disk, w: nat)
    requires IsFileTask(p, w)
  {
    var dest := p.config.tasks[w].dest.value;
    dest in disk && disk[dest] == Flatten(p.jobs[w].plains)
  }

  // ---- destinations -------------------------------------------------------------------------

  /** No file shares its destination with any other task. */
  ghost predicate Apart(p: Plan) {
    forall v: nat, w: nat :: v != w && IsFileTask(p, w) && v < |p.jobs| ==> !SameDestination(p, v, w)
  }

  /** Files only share a destination with files of the same content. */
  ghost predicate Agreeing(p: Plan) {
    forall v: nat, w: nat :: v != w && IsFileTask(p, w) && v < |p.jobs| && SameDestination(p, v, w) ==>
      p.jobs[v].Content? && Flatten(p.jobs[v].plains) == Flatten(p.jobs[w].plains)
  }

  // ---- what every run keeps ---------------------------------------------------------------------

  predicate EndedDone(st: Status) {
    HasEnded(st) && st.outcome.Done?
  }

  /** Nothing failed so far at the destination of `w`. */
  ghost predicate NoFailureAt(p: Plan, s: State, w: nat) {
    forall v: nat :: v < |s.status| && HasEnded(s.status[v]) && SameDestination(p, v, w) ==> EndedDone(s.status[v])
  }

  /** A worker that ended well left its file's content, if no other failed at that place. */
  ghost predicate WrittenRight(p: Plan, s: State, disk: Disk) {
    && |s.status| == |p.jobs|
    && forall w: nat :: w < |p.jobs| && EndedDone(s.status[w]) && IsFileTask(p, w) && NoFailureAt(p, s, w) ==> Right(p, disk, w)
  }

  lemma FileWrites(p: Plan, w: nat, disk: Disk, disk': Disk)
    requires SoundPlan(p) && IsFileTask(p, w) && Writes(p, p.jobs[w], p.config.tasks[w].dest.value, true, disk, disk')
    ensures disk' == disk[p.config.tasks[w].dest.value := Flatten(p.jobs[w].plains)]
  {
    var job, dest := p.jobs[w], p.config.tasks[w].dest.value;
    assert SoundJob(p, job);
    var io: Io, prior: Option<Bytes>, missing: set<string> :| WrittenUnder(p, job, dest, true, disk, disk', io, prior, missing);
    OutputIndependence(p.src, job.refs, io, prior, missing, p.sparse, job.tiling, job.plains, job.total);
  }

  predicate SameAt(disk: Disk, disk': Disk, dest: string) {
    (dest in disk <==> dest in disk') && (dest in disk ==> disk'[dest] == disk[dest])
  }

  lemma OthersUntouched(p: Plan, a: Action, disk: Disk, disk': Disk, dest: string)
    requires DiskStep(p, a, disk, disk') && !EndsAt(p, a, dest)
    ensures SameAt(disk, disk', dest)
  {
    if a.WorkerEnd? && a.w < |p.jobs| && Spawnable(p.config, a.w) && disk' != disk && p.jobs[a.w].Content? {
      var io: Io, prior: Option<Bytes>, missing: set<string> :|
        WrittenUnder(p, p.jobs[a.w], p.config.tasks[a.w].dest.value, a.outcome.Done?, disk, disk', io, prior, missing);
    }
  }

  /** Ends last, only workers' ends add to them, and joining keeps the outcome. */
  lemma EndsOnce(c: Config, s: State, a: Action, s': State)
    requires PhaseSound(c, s) && Step(c, s, a, s')
    ensures Ends(a, s, s')
  {
    StepShape(c, s, a, s');
    if Quiet(s, s') {
      NoEndQuietly(c, s, a, s');
    } else {
      var v: nat :| MovesOne(c, s, v, s');
      if a.WorkerEnd? || a.WorkerPanic? {
        WorkerShape(c, s, a, s');
        EndOf(c, s, a, s');
      } else if s.status[v].Running? && s'.status[v].outcome.Done? {
        DoneByWorkerEnd(c, s, a, s', v);
      }
      MovedEnds(c, s, v, a, s');
    }
  }

  lemma NoEndQuietly(c: Config, s: State, a: Action, s': State)
    requires Step(c, s, a, s') && Quiet(s, s')
    ensures !a.WorkerEnd? && !a.WorkerPanic?
  {
  }

  lemma EndOf(c: Config, s: State, a: Action, s': State)
    requires Step(c, s, a, s') && (a.WorkerEnd? || a.WorkerPanic?)
    ensures EndedNow(a, s, s')
  {
  }

  lemma MovedEnds(c: Config, s: State, v: nat, a: Action, s': State)
    requires MovesOne(c, s, v, s') && EndedNow(a, s, s')
    requires !a.WorkerEnd? && s.status[v].Running? ==> !s'.status[v].outcome.Done?
    ensures Ends(a, s, s')
  {
  }

  lemma DoneByWorkerEnd(c: Config, s: State, a: Action, s': State, v: nat)
    requires Step(c, s, a, s') && v < |s.status| == |s'.status| && s.status[v].Running? && s'.status[v] == Finished(Done, true)
    ensures a.WorkerEnd? && a.w == v
  {
    if a.Process? && !s.paused {
      ProcessMoves(c, s, s.phase.w);
    }
  }

  /** The worker whose end the action is has ended with its outcome. */
  ghost predicate EndedNow(a: Action, s: State, s': State) {
    && |s'.status| == |s.status|
    && (a.WorkerEnd? ==> a.w < |s.status| && s.status[a.w].Running? && s'.status[a.w] == Finished(a.outcome, true))
    && (a.WorkerPanic? ==> a.w < |s.status| && s.status[a.w].Running? && s'.status[a.w] == Finished(Panicked, false))
  }

  /** What the ends of a step amount to. */
  ghost predicate Ends(a: Action, s: State, s': State) {
    && EndedNow(a, s, s')
    && (forall w :: 0 <= w < |s.status| && HasEnded(s.status[w]) ==> HasEnded(s'.status[w]) && s'.status[w].outcome == s.status[w].outcome)
    && (forall w :: 0 <= w < |s.status| && EndedDone(s'.status[w]) && !(a.WorkerEnd? && a.w == w) ==> EndedDone(s.status[w]))
  }

  lemma WrittenKept(p: Plan, s: State, a: Action, s': State, disk: Disk, disk': Disk)
    requires SoundPlan(p) && Agreeing(p) && WrittenRight(p, s, disk) && Ends(a, s, s') && DiskStep(p, a, disk, disk')
    ensures WrittenRight(p, s', disk')
  {
    forall w: nat | w < |p.jobs| && EndedDone(s'.status[w]) && IsFileTask(p, w) && NoFailureAt(p, s', w) ensures Right(p, disk', w) {
      StillRight(p, s, a, s', disk, disk', w);
    }
  }

  lemma StillRight(p: Plan, s: State, a: Action, s': State, disk: Disk, disk': Disk, w: nat)
    requires SoundPlan(p) && Agreeing(p) && WrittenRight(p, s, disk) && Ends(a, s, s') && DiskStep(p, a, disk, disk')
    requires IsFileTask(p, w) && EndedDone(s'.status[w]) && NoFailureAt(p, s', w)
    ensures Right(p, disk', w)
  {
    if EndsAt(p, a, p.config.tasks[w].dest.value) {
      assert SameDestination(p, a.w, w) && EndedDone(s'.status[a.w]);
      assert IsFileTask(p, a.w);
      FileWrites(p, a.w, disk, disk');
    } else {
      OthersUntouched(p, a, disk, disk', p.config.tasks[w].dest.value);
      assert NoFailureAt(p, s, w);
    }
  }

  lemma {:induction false} StoryRuns(p: Plan, st: Story)
    requires SoundPlan(p) && IsStory(p, st)
    ensures Reachable(p.config, st.now) && Inv(p.config, st.now)
  {
    match st
    case Begin(now, disk) =>
      InitialInv(p.config);
      var s := Start(p.config);
    case Next(before, action, now, disk) =>
      StoryRuns(p, before);
      StepInv(p.config, before.now, action, now);
      var s := After(p.config, before.now, action, now);
  }

  lemma {:induction false} StoryHolds(p: Plan, st: Story)
    requires SoundPlan(p) && Agreeing(p) && IsStory(p, st)
    ensures WrittenRight(p, st.now, st.disk)
  {
    if st.Next? {
      StoryHolds(p, st.before);
      StoryRuns(p, st.before);
      EndsOnce(p.config, st.before.now, st.action, st.now);
      WrittenKept(p, st.before.now, st.action, st.now, st.before.disk, st.disk);
    }
  }

  // ---- sufficient ------------------------------------------------------------------------------

  /** The task's file is completed: it was not carried over and its name is in the set. */
  predicate IsCompleted(p: Plan, s: State, w: nat) {
    IsFileTask(p, w) && p.config.tasks[w].name in s.completed
  }

  lemma CompletedEnded(p: Plan, st: Story, w: nat)
    requires SoundPlan(p) && IsStory(p, st) && IsCompleted(p, st.now, w)
    ensures |st.now.status| == |p.jobs| && EndedDone(st.now.status[w])
  {
    StoryRuns(p, st);
    var v :| 0 <= v < |st.now.status| && JoinedDone(st.now.status[v]) && p.config.tasks[v].name == p.config.tasks[w].name;
    OneName(p.config, v, w);
  }

  lemma OneName(c: Config, v: int, w: int)
    requires DistinctNames(c) && 0 <= v < |c.tasks| && 0 <= w < |c.tasks| && c.tasks[v].name == c.tasks[w].name
    ensures v == w
  {
  }

  /**
   * With destinations of their own, every completed file, in every state of
   * every run, cancelled or not, is on disk with exactly its recorded content.
   */
  lemma CompletedFilesAreRight(p: Plan, st: Story, w: nat)
    requires SoundPlan(p) && Apart(p) && IsStory(p, st) && IsCompleted(p, st.now, w)
    ensures Right(p, st.disk, w)
  {
    CompletedEnded(p, st, w);
    StoryHolds(p, st);
    assert NoFailureAt(p, st.now, w);
  }

  /** A run that ended in success, with the channel untouched and no worker panicked. */
  ghost predicate Succeeded(st: Story) {
    st.now.phase == Over(AllRestored) && Undisturbed(st.now)
  }

  /** Where files share destinations with equal files at most, success leaves every file that is not passed over right. */
  lemma SuccessIsRight(p: Plan, st: Story, w: nat)
    requires SoundPlan(p) && Agreeing(p) && IsStory(p, st) && Succeeded(st) && IsFileTask(p, w)
    ensures Right(p, st.disk, w)
  {
    StoryRuns(p, st);
    StoryHolds(p, st);
    AccountingBalances(p.config, st.now);
    UndisturbedSuccessIff(p.config, st.now);
    assert EndedDone(st.now.status[w]);
    assert NoFailureAt(p, st.now, w);
  }
}
