/**
 * What happens when tasks share a destination: the runs that lose a file, the
 * exact conditions under which no run does, and two drives of one snapshot.
 */
module SharedDestination {
  import opened Basics
  import opened ChunkFetch
  import opened Reconstruct
  import opened RestoreFile
  import opened RestoreRun
  import opened RestoreRunSafety
  import RestoreRunResults
  import opened WholeRestore
  import Destinations
  import PackObject
  import RepairExamples

  // ---- building runs --------------------------------------------------------------------------

  /** The file can be restored: under some fortune its writing succeeds. */
  ghost predicate Restorable(p: Plan, job: Job) {
    job.Content? ==>
      exists io: Io, prior: Option<Bytes>, missing: set<string> :: Succeeds(p, job, io, prior, missing)
  }

  ghost predicate Succeeds(p: Plan, job: Job, io: Io, prior: Option<Bytes>, missing: set<string>)
    requires job.Content?
  {
    && io.created && |io.moments| == |SortByOffset(job.refs)|
    && Restored(p.src, job.refs, io, prior, missing, p.sparse).error.None?
  }

  ghost predicate AllRestorable(p: Plan) {
    forall w :: 0 <= w < |p.jobs| ==> Restorable(p, p.jobs[w])
  }

  lemma Go(p: Plan, st: Story, a: Action, s': State, disk': Disk) returns (next: Story)
    requires IsStory(p, st) && Step(p.config, st.now, a, s') && DiskStep(p, a, st.disk, disk')
    ensures IsStory(p, next) && next.now == s' && next.disk == disk'
  {
    next := Next(st, a, s', disk');
  }

  /** Nothing disturbs the run, and nothing has failed. */
  predicate Smooth(s: State) {
    !s.cancel && !s.paused && !s.touched && s.errors == [] && s.skipped == 0
  }

  predicate AsDispatched(c: Config, st: Status, w: nat) {
    if Spawnable(c, w) then st == Running else st == Passed
  }

  lemma SpawnedTo(p: Plan, k: nat) returns (st: Story)
    requires SoundPlan(p) && k <= |p.jobs|
    ensures IsStory(p, st) && Smooth(st.now) && st.now.phase == SpawnHead(k) && |st.now.status| == |p.jobs|
    ensures st.now.completed == p.config.resumed
    ensures forall w :: 0 <= w < k ==> AsDispatched(p.config, st.now.status[w], w)
    ensures forall w :: k <= w < |p.jobs| ==> st.now.status[w] == Unreached
  {
    if k == 0 {
      st := Begin(Initial(p.config), p.found);
    } else {
      var before := SpawnedTo(p, k - 1);
      st := SpawnsOne(p, before, k - 1);
    }
  }

  lemma SpawnsOne(p: Plan, st: Story, k: nat) returns (next: Story)
    requires SoundPlan(p) && k < |p.jobs| && IsStory(p, st) && Smooth(st.now) && st.now.phase == SpawnHead(k)
    requires |st.now.status| == |p.jobs| && st.now.completed == p.config.resumed
    ensures IsStory(p, next) && Smooth(next.now) && next.now.phase == SpawnHead(k + 1) && next.now.completed == p.config.resumed
    ensures |next.now.status| == |p.jobs| && AsDispatched(p.config, next.now.status[k], k)
    ensures forall w :: 0 <= w < |p.jobs| && w != k ==> next.now.status[w] == st.now.status[w]
  {
    next := Go(p, st, CheckSpawn, st.now.(phase := SpawnGate(k)), st.disk);
    next := Go(p, next, Spawn, Dispatched(p.config, next.now, k), st.disk);
  }

  /** Every task dispatched, before the drain. */
  lemma AllSpawned(p: Plan) returns (st: Story)
    requires SoundPlan(p)
    ensures IsStory(p, st) && Smooth(st.now) && st.now.phase == DrainHead && |st.now.status| == |p.jobs|
    ensures forall w :: 0 <= w < |p.jobs| ==> AsDispatched(p.config, st.now.status[w], w)
  {
    st := SpawnedTo(p, |p.jobs|);
    st := Go(p, st, CheckSpawn, st.now.(phase := DrainHead), st.disk);
  }

  /** What a task that ends well leaves on disk. */
  function LeftBy(p: Plan, w: nat, disk: Disk): Disk
    requires w < |p.jobs| && Spawnable(p.config, w)
  {
    var dest := p.config.tasks[w].dest.value;
    if p.jobs[w].Link? then disk - {dest} else disk[dest := Flatten(p.jobs[w].plains)]
  }

  lemma CanWrite(p: Plan, w: nat, disk: Disk)
    requires SoundPlan(p) && AllRestorable(p) && IsFileTask(p, w)
    ensures Writes(p, p.jobs[w], p.config.tasks[w].dest.value, true, disk, LeftBy(p, w, disk))
  {
    var job, dest := p.jobs[w], p.config.tasks[w].dest.value;
    assert SoundJob(p, job) && Restorable(p, job);
    var io: Io, prior: Option<Bytes>, missing: set<string> :| Succeeds(p, job, io, prior, missing);
    OutputIndependence(p.src, job.refs, io, prior, missing, p.sparse, job.tiling, job.plains, job.total);
    assert WrittenUnder(p, job, dest, true, disk, LeftBy(p, w, disk), io, prior, missing);
  }

  /** A flush that fails leaves no file. */
  lemma CanFail(p: Plan, w: nat, disk: Disk)
    requires IsFileTask(p, w)
    ensures Writes(p, p.jobs[w], p.config.tasks[w].dest.value, false, disk, disk - {p.config.tasks[w].dest.value})
  {
    var job, dest := p.jobs[w], p.config.tasks[w].dest.value;
    var io := Io(true, seq(|SortByOffset(job.refs)|, _ => QUIET), false);
    assert WrittenUnder(p, job, dest, false, disk, disk - {dest}, io, None, {});
  }

  lemma EndsWell(p: Plan, st: Story, w: nat) returns (next: Story)
    requires SoundPlan(p) && AllRestorable(p) && IsStory(p, st) && w < |p.jobs| == |st.now.status| && Spawnable(p.config, w)
    requires !st.now.phase.Over? && st.now.status[w].Running?
    ensures IsStory(p, next) && next.now == Ended(p.config, st.now, w, Done, {}) && next.disk == LeftBy(p, w, st.disk)
  {
    if p.jobs[w].Content? {
      CanWrite(p, w, st.disk);
    }
    next := Go(p, st, WorkerEnd(w, Done, {}), Ended(p.config, st.now, w, Done, {}), LeftBy(p, w, st.disk));
  }

  lemma EndsBadly(p: Plan, st: Story, w: nat) returns (next: Story)
    requires SoundPlan(p) && IsStory(p, st) && w < |p.jobs| == |st.now.status| && Spawnable(p.config, w)
    requires !st.now.phase.Over? && st.now.status[w].Running?
    ensures IsStory(p, next) && next.now.completed == st.now.completed
    ensures next.disk == st.disk - {p.config.tasks[w].dest.value}
  {
    var o := Failed(OtherError("flush"));
    if p.jobs[w].Content? {
      CanFail(p, w, st.disk);
    }
    next := Go(p, st, WorkerEnd(w, o, {}), Ended(p.config, st.now, w, o, {}), st.disk - {p.config.tasks[w].dest.value});
  }

  lemma DrainsOne(p: Plan, st: Story, w: nat) returns (next: Story)
    requires SoundPlan(p) && IsStory(p, st) && Smooth(st.now) && st.now.phase == DrainHead && w < |p.jobs| == |st.now.status|
    requires st.now.status[w] == Finished(Done, true)
    ensures IsStory(p, next) && Smooth(next.now) && next.now.phase == DrainHead && next.disk == st.disk
    ensures next.now.status == st.now.status[w := Joined(Done, true)]
    ensures next.now.completed == st.now.completed + {p.config.tasks[w].name}
  {
    next := Go(p, st, Join(w), st.now.(phase := DrainCheck(w)), st.disk);
    next := Go(p, next, CheckDrain, next.now.(phase := DrainGate(w)), st.disk);
    next := Go(p, next, Process, Processed(p.config, next.now, w), st.disk);
  }

  // ---- a completed file that another task takes away ------------------------------------------

  /** Two tasks on one destination: the file of the first is completed, and then the second takes it away. */
  lemma TakenAway(p: Plan, v: nat, w: nat) returns (st: Story)
    requires SoundPlan(p) && AllRestorable(p) && v != w && v < |p.jobs| && IsFileTask(p, w) && SameDestination(p, v, w)
    ensures IsStory(p, st) && IsCompleted(p, st.now, w) && !Right(p, st.disk, w)
  {
    st := AllSpawned(p);
    assert AsDispatched(p.config, st.now.status[w], w) && AsDispatched(p.config, st.now.status[v], v);
    st := EndsWell(p, st, w);
    st := DrainsOne(p, st, w);
    st := EndsBadly(p, st, v);
  }

  /**
   * When completed files are safe: in every state of every run each one is on
   * disk with its recorded content, exactly when no file shares its destination
   * with another task, whatever that task holds.
   */
  lemma CompletedRightIff(p: Plan)
    requires SoundPlan(p) && AllRestorable(p)
    ensures (forall st, w: nat :: IsStory(p, st) && IsCompleted(p, st.now, w) ==> Right(p, st.disk, w)) <==> Apart(p)
  {
    if Apart(p) {
      forall st, w: nat | IsStory(p, st) && IsCompleted(p, st.now, w) ensures Right(p, st.disk, w) {
        CompletedFilesAreRight(p, st, w);
      }
    } else {
      var v: nat, w: nat :| v != w && IsFileTask(p, w) && v < |p.jobs| && SameDestination(p, v, w);
      var st := TakenAway(p, v, w);
    }
  }

  // ---- a successful run that lost a file ----------------------------------------------------------

  predicate AsFinished(c: Config, st: Status, w: nat) {
    if Spawnable(c, w) then st == Finished(Done, true) else st == Passed
  }

  /** All tasks below `k` but `last` have ended well. */
  lemma EndedTo(p: Plan, last: nat, k: nat) returns (st: Story)
    requires SoundPlan(p) && AllRestorable(p) && k <= |p.jobs|
    ensures IsStory(p, st) && Smooth(st.now) && st.now.phase == DrainHead && |st.now.status| == |p.jobs|
    ensures forall w :: 0 <= w < k && w != last ==> AsFinished(p.config, st.now.status[w], w)
    ensures forall w :: 0 <= w < |p.jobs| && (w >= k || w == last) ==> AsDispatched(p.config, st.now.status[w], w)
  {
    if k == 0 {
      st := AllSpawned(p);
    } else {
      st := EndedTo(p, last, k - 1);
      if k - 1 != last {
        st := EndsNext(p, st, k - 1);
      }
    }
  }

  lemma EndsNext(p: Plan, st: Story, k: nat) returns (next: Story)
    requires SoundPlan(p) && AllRestorable(p) && k < |p.jobs| == |st.now.status|
    requires IsStory(p, st) && Smooth(st.now) && st.now.phase == DrainHead && AsDispatched(p.config, st.now.status[k], k)
    ensures IsStory(p, next) && Smooth(next.now) && next.now.phase == DrainHead
    ensures |next.now.status| == |p.jobs| && AsFinished(p.config, next.now.status[k], k)
    ensures forall w :: 0 <= w < |p.jobs| && w != k ==> next.now.status[w] == st.now.status[w]
  {
    next := st;
    if Spawnable(p.config, k) {
      next := EndsWell(p, st, k);
    }
  }

  lemma AllEnded(p: Plan, last: nat) returns (st: Story)
    requires SoundPlan(p) && AllRestorable(p) && last < |p.jobs| && Spawnable(p.config, last)
    ensures IsStory(p, st) && Smooth(st.now) && st.now.phase == DrainHead && |st.now.status| == |p.jobs|
    ensures forall w :: 0 <= w < |p.jobs| ==> AsFinished(p.config, st.now.status[w], w)
    ensures exists disk :: st.disk == LeftBy(p, last, disk)
  {
    var before := EndedTo(p, last, |p.jobs|);
    assert AsDispatched(p.config, before.now.status[last], last);
    st := EndsWell(p, before, last);
  }

  predicate AsDrained(c: Config, st: Status, w: nat) {
    if Spawnable(c, w) then st == Joined(Done, true) else st == Passed
  }

  lemma DrainedTo(p: Plan, start: Story, k: nat) returns (st: Story)
    requires SoundPlan(p) && k <= |p.jobs|
    requires IsStory(p, start) && Smooth(start.now) && start.now.phase == DrainHead && |start.now.status| == |p.jobs|
    requires forall w :: 0 <= w < |p.jobs| ==> AsFinished(p.config, start.now.status[w], w)
    ensures IsStory(p, st) && Smooth(st.now) && st.now.phase == DrainHead && |st.now.status| == |p.jobs| && st.disk == start.disk
    ensures forall w :: 0 <= w < k ==> AsDrained(p.config, st.now.status[w], w)
    ensures forall w :: k <= w < |p.jobs| ==> AsFinished(p.config, st.now.status[w], w)
  {
    if k == 0 {
      st := start;
    } else {
      var before := DrainedTo(p, start, k - 1);
      st := DrainsNext(p, before, k - 1);
    }
  }

  lemma DrainsNext(p: Plan, st: Story, k: nat) returns (next: Story)
    requires SoundPlan(p) && k < |p.jobs| == |st.now.status|
    requires IsStory(p, st) && Smooth(st.now) && st.now.phase == DrainHead && AsFinished(p.config, st.now.status[k], k)
    ensures IsStory(p, next) && Smooth(next.now) && next.now.phase == DrainHead && next.disk == st.disk
    ensures |next.now.status| == |p.jobs| && AsDrained(p.config, next.now.status[k], k)
    ensures forall w :: 0 <= w < |p.jobs| && w != k ==> next.now.status[w] == st.now.status[w]
  {
    next := st;
    if Spawnable(p.config, k) {
      next := DrainsOne(p, st, k);
    }
  }

  lemma Concludes(p: Plan, st: Story) returns (next: Story)
    requires SoundPlan(p) && IsStory(p, st) && Smooth(st.now) && st.now.phase == DrainHead && |st.now.status| == |p.jobs|
    requires forall w :: 0 <= w < |p.jobs| ==> AsDrained(p.config, st.now.status[w], w)
    ensures IsStory(p, next) && Succeeded(next) && next.disk == st.disk
  {
    assert forall w :: 0 <= w < |p.jobs| ==> AsDrained(p.config, st.now.status[w], w) && !st.now.status[w].Running? && !st.now.status[w].Finished?;
    next := Go(p, st, Complete, Concluded(st.now), st.disk);
    assert next.now.status == st.now.status;
  }

  /** A run that ends in success in which the task `last` wrote last. */
  lemma WrittenLast(p: Plan, last: nat) returns (st: Story)
    requires SoundPlan(p) && AllRestorable(p) && last < |p.jobs| && Spawnable(p.config, last)
    ensures IsStory(p, st) && Succeeded(st) && exists disk :: st.disk == LeftBy(p, last, disk)
  {
    st := AllEnded(p, last);
    st := DrainedTo(p, st, |p.jobs|);
    st := Concludes(p, st);
  }

  /** A run in which every worker ends well. */
  lemma AllGoesWell(p: Plan) returns (st: Story)
    requires SoundPlan(p) && AllRestorable(p)
    ensures IsStory(p, st) && Succeeded(st)
  {
    st := EndedTo(p, |p.jobs|, |p.jobs|);
    st := DrainedTo(p, st, |p.jobs|);
    st := Concludes(p, st);
  }

  /**
   * When success means that nothing is lost: in every successful run each file
   * that is not passed over is on disk with its recorded content, exactly when
   * no file shares its destination with a link or with different content.
   */
  lemma SuccessRightIff(p: Plan)
    requires SoundPlan(p) && AllRestorable(p)
    ensures (forall st, w: nat :: IsStory(p, st) && Succeeded(st) && IsFileTask(p, w) ==> Right(p, st.disk, w)) <==> Agreeing(p)
  {
    if Agreeing(p) {
      forall st, w: nat | IsStory(p, st) && Succeeded(st) && IsFileTask(p, w) ensures Right(p, st.disk, w) {
        SuccessIsRight(p, st, w);
      }
    } else {
      var v: nat, w: nat :| v != w && IsFileTask(p, w) && v < |p.jobs| && SameDestination(p, v, w)
        && !(p.jobs[v].Content? && Flatten(p.jobs[v].plains) == Flatten(p.jobs[w].plains));
      var st := WrittenLast(p, v);
      assert !Right(p, st.disk, w);
    }
  }

  // ---- two drives of one snapshot --------------------------------------------------------------------

  /** A file of one byte, which is its own chunk. */
  function OneByte(b: byte): Job {
    var ref := ChunkRef([b], 0, 1);
    Content([ref], [ref], [[b]], 1)
  }

  function SealedByte(b: byte): Bytes {
    SealedChunk(RepairExamples.PLAIN_CRYPTO, RepairExamples.PLAIN_SEALER, Zeros(12), [b])
  }

  /** An object for each of two such chunks. */
  function TwoChunks(x: byte, y: byte): Sources {
    Sources(RepairExamples.TOOLS, Storage(map["x" := SealedByte(x), "y" := SealedByte(y)], {}, PackObject.Strict),
            None, {}, (id: ChunkId) => if id == [x] then "x" else "y", true)
  }

  function TaskOn(name: string): Task {
    Task(name, 1, Some("restored/" + Destinations.RelativeDestination(name)))
  }

  /** Two files, restored below one folder. */
  function TwoFiles(c: string, d: string, x: byte, y: byte): Plan {
    Plan(Config([TaskOn(c), TaskOn(d)], {}), [OneByte(x), OneByte(y)], TwoChunks(x, y), false, map[])
  }

  lemma OneByteIsSound(p: Plan, b: byte)
    requires p.src.tools.crypto == RepairExamples.PLAIN_CRYPTO
    ensures SoundJob(p, OneByte(b)) && Flatten(OneByte(b).plains) == [b]
  {
    var job := OneByte(b);
    assert job.tiling[1..] == [] && job.plains[1..] == [];
    assert Tiling(job.tiling[1..], 1, 1);
  }

  lemma OneByteRestores(p: Plan, b: byte)
    requires p.src.tools.crypto == RepairExamples.PLAIN_CRYPTO && CollisionFree(p.src.tools.crypto)
    requires ReadChunk(p.src, {}, [b], Calm) == Ok([b])
    ensures Restorable(p, OneByte(b))
  {
    var job := OneByte(b);
    OneByteIsSound(p, b);
    SortFindsTiling(job.refs, job.tiling, 1);
    var io := Io(true, [QUIET], true);
    FileRestoredIff(p.src, job.refs, io, None, {}, p.sparse, job.tiling, job.plains, 1);
    assert Succeeds(p, job, io, None, {});
  }

  lemma TwoFilesSound(p: Plan, c: string, d: string, x: byte, y: byte)
    requires p == TwoFiles(c, d, x, y) && c != d && x != y
    ensures SoundPlan(p) && AllRestorable(p)
  {
    TwoChunksRead(p.src, x, y);
    TwoJobs(p, x, y);
  }

  lemma TwoJobs(p: Plan, x: byte, y: byte)
    requires DistinctNames(p.config) && |p.config.tasks| == 2 && p.jobs == [OneByte(x), OneByte(y)]
    requires p.src.tools.crypto == RepairExamples.PLAIN_CRYPTO && CollisionFree(p.src.tools.crypto)
    requires ReadChunk(p.src, {}, [x], Calm) == Ok([x]) && ReadChunk(p.src, {}, [y], Calm) == Ok([y])
    ensures SoundPlan(p) && AllRestorable(p)
  {
    OneByteIsSound(p, x);
    OneByteIsSound(p, y);
    OneByteRestores(p, x);
    OneByteRestores(p, y);
    BothAre(p, p.jobs[0], p.jobs[1]);
  }

  lemma BothAre(p: Plan, a: Job, b: Job)
    requires DistinctNames(p.config) && CollisionFree(p.src.tools.crypto) && |p.config.tasks| == 2 && p.jobs == [a, b]
    requires SoundJob(p, a) && SoundJob(p, b) && Restorable(p, a) && Restorable(p, b)
    ensures SoundPlan(p) && AllRestorable(p)
  {
    forall w | 0 <= w < |p.jobs| ensures p.jobs[w] == a || p.jobs[w] == b {
      if w != 0 {
        assert w == 1;
      }
    }
  }

  lemma TwoChunksRead(src: Sources, x: byte, y: byte)
    requires src == TwoChunks(x, y) && x != y
    ensures src.tools.crypto == RepairExamples.PLAIN_CRYPTO && CollisionFree(src.tools.crypto)
    ensures ReadChunk(src, {}, [x], Calm) == Ok([x]) && ReadChunk(src, {}, [y], Calm) == Ok([y])
  {
    assert [x][0] != [y][0];
    ObjectReads(src, RepairExamples.PLAIN_SEALER, x, "x");
    ObjectReads(src, RepairExamples.PLAIN_SEALER, y, "y");
  }

  lemma ObjectReads(src: Sources, w: Sealer, b: byte, path: string)
    requires src.tools.crypto == RepairExamples.PLAIN_CRYPTO && w == RepairExamples.PLAIN_SEALER && src.resolve.None?
    requires src.chunkPath([b]) == path && Get(src.storage, path) == Ok(SealedByte(b))
    ensures CollisionFree(src.tools.crypto) && ReadChunk(src, {}, [b], Calm) == Ok([b])
  {
    RepairExamples.PlainOpens(src.tools.crypto, w);
    OwnObjectReadsIff(src, w, {}, Zeros(12), [b]);
  }

  /**
   * The same path on two drives, with different content: the run reports
   * success, both files are counted as restored, and the first one is gone.
   */
  lemma TwoDrivesOneFile(p: Plan, c: char, d: char, rest: string, x: byte, y: byte) returns (st: Story)
    requires c != d && x != y && p == TwoFiles([c, ':', '/'] + rest, [d, ':', '/'] + rest, x, y)
    ensures SoundPlan(p) && IsStory(p, st) && Succeeded(st)
    ensures IsFileTask(p, 0) && IsFileTask(p, 1) && !Right(p, st.disk, 0)
    ensures forall w :: 0 <= w < 2 && w < |st.now.status| ==> EndedDone(st.now.status[w])
  {
    TwoDrivesMeet(p, c, d, rest, x, y);
    OneByteIsSound(p, x);
    OneByteIsSound(p, y);
    st := WrittenLast(p, 1);
    LastWins(p, st, x, y);
    UndisturbedSuccess(p, st);
  }

  lemma TwoDrivesMeet(p: Plan, c: char, d: char, rest: string, x: byte, y: byte)
    requires c != d && x != y && p == TwoFiles([c, ':', '/'] + rest, [d, ':', '/'] + rest, x, y)
    ensures SoundPlan(p) && AllRestorable(p) && p.src.tools.crypto == RepairExamples.PLAIN_CRYPTO
    ensures |p.jobs| == 2 && p.jobs[0] == OneByte(x) && p.jobs[1] == OneByte(y)
    ensures IsFileTask(p, 0) && IsFileTask(p, 1) && SameDestination(p, 0, 1)
  {
    var first, second := [c, ':', '/'] + rest, [d, ':', '/'] + rest;
    assert first[0] == c && second[0] == d;
    Destinations.DriveIsDropped(c, d, rest);
    TwoFilesSound(p, first, second, x, y);
  }

  lemma LastWins(p: Plan, st: Story, x: byte, y: byte)
    requires |p.jobs| == 2 && p.jobs[0] == OneByte(x) && p.jobs[1] == OneByte(y) && x != y
    requires IsFileTask(p, 0) && IsFileTask(p, 1) && SameDestination(p, 0, 1) && exists disk :: st.disk == LeftBy(p, 1, disk)
    requires Flatten(OneByte(x).plains) == [x] && Flatten(OneByte(y).plains) == [y]
    ensures !Right(p, st.disk, 0)
  {
    assert [x][0] != [y][0];
  }

  lemma UndisturbedSuccess(p: Plan, st: Story)
    requires SoundPlan(p) && IsStory(p, st) && Succeeded(st)
    ensures |st.now.status| == |p.jobs|
    ensures forall w :: 0 <= w < |p.jobs| && Spawnable(p.config, w) ==> EndedDone(st.now.status[w])
  {
    StoryRuns(p, st);
    RestoreRunResults.AccountingBalances(p.config, st.now);
    RestoreRunResults.UndisturbedSuccessIff(p.config, st.now);
  }
}
