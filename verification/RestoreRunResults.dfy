/** What a whole restore run guarantees: accounting, result, checkpoint discipline, resume. */
module RestoreRunResults {
  import opened Basics
  import opened RestoreRun
  import opened RestoreRunSafety

  // ---- accounting ----------------------------------------------------------------------------

  predicate Anything(st: Status) {
    true
  }

  predicate Uncounted(st: Status) {
    !IsCounted(st)
  }

  predicate JoinedOtherwise(st: Status) {
    st.Joined? && (st.outcome.Panicked? || st.outcome == Failed(CancelledError))
  }

  predicate JoinedTrouble(st: Status) {
    JoinedFailure(st) || JoinedSkip(st)
  }

  /**
   * Progress is conserved in every reachable state, whatever was cancelled or
   * panicked: done plus not yet counted is the total, for files and for bytes.
   */
  lemma ProgressConserved(c: Config, s: State)
    requires DistinctNames(c) && Reachable(c, s)
    ensures |s.status| == |c.tasks|
    ensures s.filesDone + Total(Ones(|c.tasks|), s.status, Uncounted) == |c.tasks|
    ensures s.bytesDone + Total(Sizes(c.tasks), s.status, Uncounted) == Sum(Sizes(c.tasks))
  {
    ReachableInv(c, s);
    CountedOrNot(c.tasks, s.status);
  }

  lemma CountedOrNot(tasks: seq<Task>, status: seq<Status>)
    requires |status| == |tasks|
    ensures Total(Ones(|tasks|), status, IsCounted) + Total(Ones(|tasks|), status, Uncounted) == |tasks|
    ensures Total(Sizes(tasks), status, IsCounted) + Total(Sizes(tasks), status, Uncounted) == Sum(Sizes(tasks))
  {
    TotalSplit(Ones(|tasks|), status, IsCounted, Uncounted, Anything);
    TotalSplit(Sizes(tasks), status, IsCounted, Uncounted, Anything);
    TotalAll(Ones(|tasks|), status, Anything);
    TotalAll(Sizes(tasks), status, Anything);
    SumOnes(|tasks|);
  }

  /** The cancel channel was left alone and no worker panicked. */
  ghost predicate Undisturbed(s: State) {
    !s.touched && forall w :: 0 <= w < |s.status| && HasEnded(s.status[w]) ==> !s.status[w].outcome.Panicked?
  }

  /**
   * Accounting of an undisturbed run: the counters end equal to their totals,
   * and the spawned files are exactly divided among completed, errors and
   * skipped, also after the reclassification.
   */
  lemma AccountingBalances(c: Config, s: State)
    requires DistinctNames(c) && Reachable(c, s) && s.phase.Over? && Undisturbed(s)
    ensures !s.phase.result.CancelledRun?
    ensures s.filesDone == |c.tasks| && s.bytesDone == Sum(Sizes(c.tasks)) && |s.status| == |c.tasks|
    ensures Total(Ones(|c.tasks|), s.status, JoinedDone) + |s.errors| + s.skipped == Total(Ones(|c.tasks|), s.status, WasSpawned)
    ensures |s.errors| + s.skipped == s.errorsSoFar + s.skippedSoFar
    ensures forall w :: 0 <= w < |s.status| ==> s.status[w].Passed? || JoinedDone(s.status[w]) || JoinedTrouble(s.status[w])
  {
    ReachableInv(c, s);
    var ones := Ones(|c.tasks|);
    AllSettled(c, s);
    TotalAll(ones, s.status, IsCounted);
    TotalAll(Sizes(c.tasks), s.status, IsCounted);
    SumOnes(|c.tasks|);
    TroubleSplits(ones, s.status);
    TotalSplit(ones, s.status, JoinedDone, JoinedTrouble, WasSpawned);
  }

  lemma AllSettled(c: Config, s: State)
    requires StatusSound(c, s) && TerminalSound(c, s) && s.phase.Over? && Undisturbed(s)
    ensures !s.phase.result.CancelledRun?
    ensures forall w :: 0 <= w < |s.status| ==> s.status[w].Passed? || JoinedDone(s.status[w]) || JoinedTrouble(s.status[w])
    ensures forall w :: 0 <= w < |s.status| ==> IsCounted(s.status[w])
  {
    assert RanToTheEnd(c, s);
    forall w | 0 <= w < |s.status|
      ensures s.status[w].Passed? || JoinedDone(s.status[w]) || JoinedTrouble(s.status[w])
      ensures IsCounted(s.status[w]) {
      assert s.status[w].Passed? || s.status[w].Joined?;
    }
  }

  lemma TroubleSplits(weights: seq<nat>, status: seq<Status>)
    requires |weights| == |status| && forall w :: 0 <= w < |status| ==> status[w].Passed? || status[w].Joined?
    ensures Total(weights, status, JoinedTrouble) == Total(weights, status, JoinedFailure) + Total(weights, status, JoinedSkip)
    ensures Total(weights, status, JoinedTrouble) == Total(weights, status, EndedInFailure) + Total(weights, status, EndedInSkip)
  {
    TotalSplit(weights, status, JoinedFailure, JoinedSkip, JoinedTrouble);
    TotalSplit(weights, status, EndedInFailure, EndedInSkip, JoinedTrouble);
  }

  lemma {:induction false} TotalZeroIff(n: nat, status: seq<Status>, p: Status -> bool)
    requires |status| == n
    ensures Total(Ones(n), status, p) == 0 <==> forall i :: 0 <= i < n ==> !p(status[i])
  {
    if n > 0 {
      assert Ones(n)[1..] == Ones(n - 1);
      TotalZeroIff(n - 1, status[1..], p);
      assert status == [status[0]] + status[1..];
    }
  }

  /**
   * When a run reports success: every spawned file was written, except that a
   * worker that panicked or ended as cancelled counts for nothing.
   */
  lemma SuccessIff(c: Config, s: State)
    requires DistinctNames(c) && Reachable(c, s) && s.phase.Over? && !s.phase.result.CancelledRun?
    ensures s.phase.result.AllRestored? <==>
            forall w :: 0 <= w < |s.status| && WasSpawned(s.status[w]) ==> JoinedDone(s.status[w]) || JoinedOtherwise(s.status[w])
    ensures s.cleared <==> !s.phase.result.FailedRun?
  {
    ReachableInv(c, s);
    assert RanToTheEnd(c, s);
    TotalZeroIff(|s.status|, s.status, JoinedFailure);
    TotalZeroIff(|s.status|, s.status, JoinedSkip);
  }

  /**
   * The errors a run reports are those of its workers, and none of them is due
   * to a pack known to be missing: those were counted as skipped.
   */
  lemma ReportedErrors(c: Config, s: State, e: RestoreError)
    requires DistinctNames(c) && Reachable(c, s) && s.phase.Over? && s.phase.result.FailedRun? && e in s.phase.result.errors
    ensures !Mentions(e, s.missing)
    ensures exists w :: 0 <= w < |s.status| && JoinedFailure(s.status[w]) && s.status[w].outcome.error == e
  {
    ReachableInv(c, s);
    assert RanToTheEnd(c, s);
  }

  /** Undisturbed, success means that every spawned file was written. */
  lemma UndisturbedSuccessIff(c: Config, s: State)
    requires DistinctNames(c) && Reachable(c, s) && s.phase.Over? && Undisturbed(s)
    ensures s.phase.result.AllRestored? <==> forall w :: 0 <= w < |s.status| && WasSpawned(s.status[w]) ==> JoinedDone(s.status[w])
  {
    AccountingBalances(c, s);
    SuccessIff(c, s);
  }

  // ---- the checkpoint --------------------------------------------------------------------------

  /**
   * In every reachable state before the end: the saved and the pending names
   * are the completed ones, without overlap; the batch is short; only flushed
   * or carried-over names were saved; and while tasks are spawned nothing is
   * pending, so the flushes in that loop never happen.
   */
  lemma CheckpointDiscipline(c: Config, s: State)
    requires DistinctNames(c) && Reachable(c, s) && !s.phase.Over?
    ensures Base(c, s) + Names(s.pending) == s.completed && Base(c, s) !! Names(s.pending)
    ensures |s.pending| == s.checkpointPending < BATCH
    ensures Base(c, s) <= c.resumed + s.flushed
    ensures Spawning(s.phase) ==> s.pending == [] && s.saved.None?
  {
    ReachableInv(c, s);
  }

  lemma {:induction false} NamesSize(names: seq<string>)
    requires NoDuplicates(names)
    ensures |Names(names)| == |names|
  {
    if names != [] {
      var init, last := names[..|names| - 1], names[|names| - 1];
      NamesSize(init);
      assert names == init + [last];
      assert Names(names) == Names(init) + {last};
    }
  }

  lemma ProcessedFlushed(c: Config, s: State, w: nat)
    requires w < |c.tasks| == |s.status| && s.status[w].Finished?
    ensures Processed(c, s, w).flushed ==
            if s.status[w].outcome.Done? && s.checkpointPending + 1 >= BATCH then s.flushed + Names(s.pending + [c.tasks[w].name])
            else s.flushed
  {
  }

  /** The name is new to a batch that is as sound as the checkpoint discipline has it. */
  lemma BatchIsNew(c: Config, s: State, name: string)
    requires CheckpointSound(c, s) && name !in s.completed
    ensures NoDuplicates(s.pending) && |s.pending| == s.checkpointPending < BATCH && name !in s.pending
    ensures name !in s.flushed && s.flushed !! Names(s.pending)
  {
    assert name in s.pending ==> name in Names(s.pending);
  }

  /** A full batch of new names. */
  lemma BatchFlushed(c: Config, s: State, w: nat)
    requires CheckpointSound(c, s) && w < |c.tasks| == |s.status| && s.status[w].Finished?
    requires c.tasks[w].name !in s.completed && |s.flushed| % 100 == 0
    ensures |Processed(c, s, w).flushed| % 100 == 0
  {
    BatchIsNew(c, s, c.tasks[w].name);
    ProcessedFlushed(c, s, w);
    if s.checkpointPending + 1 >= BATCH {
      FullBatch(s.pending, c.tasks[w].name, s.flushed);
    }
  }

  lemma FullBatch(pending: seq<string>, name: string, flushed: set<string>)
    requires NoDuplicates(pending) && |pending| == 99 && name !in pending && name !in flushed && flushed !! Names(pending)
    ensures |flushed + Names(pending + [name])| == |flushed| + 100
  {
    var batch := pending + [name];
    NamesSize(batch);
    NamesSnoc(pending, name);
    assert flushed !! Names(batch);
  }

  lemma {:induction false} RunFlushed(c: Config, tr: Trace)
    requires DistinctNames(c) && IsRun(c, tr) && Origin(tr) == Initial(c) && !tr.now.phase.Over?
    ensures |tr.now.flushed| % 100 == 0
  {
    if tr.Then? {
      var s := tr.before.now;
      RunFlushed(c, tr.before);
      InitialInv(c);
      RunInv(c, tr.before);
      StepFlushed(c, s, tr.action, tr.now);
    }
  }

  lemma StepFlushed(c: Config, s: State, a: Action, s': State)
    requires DistinctNames(c) && StatusSound(c, s) && CompletedSound(c, s) && PhaseSound(c, s) && CheckpointSound(c, s)
    requires Step(c, s, a, s') && !s'.phase.Over? && |s.flushed| % 100 == 0
    ensures |s'.flushed| % 100 == 0
  {
    if a.Process? && !s.paused {
      FinishedIsNew(c, s, s.phase.w);
      BatchFlushed(c, s, s.phase.w);
    } else {
      CheckpointAlone(c, s, a, s');
    }
  }

  /** Files are flushed and saved a hundred at a time: before the end of a run every flushed name belongs to a full batch. */
  lemma FlushedInHundreds(c: Config, s: State)
    requires DistinctNames(c) && Reachable(c, s) && !s.phase.Over?
    ensures |s.flushed| % 100 == 0 && |s.pending| < 100
  {
    ReachableInv(c, s);
    var tr :| IsRun(c, tr) && Origin(tr) == Initial(c) && tr.now == s;
    RunFlushed(c, tr);
  }

  /** Only written files are ever saved. */
  lemma CompletedAreWritten(c: Config, s: State, n: string)
    requires DistinctNames(c) && Reachable(c, s)
    ensures n in s.completed <==>
            n in c.resumed || exists w :: 0 <= w < |s.status| && w < |c.tasks| && JoinedDone(s.status[w]) && c.tasks[w].name == n
  {
    ReachableInv(c, s);
  }

  /**
   * After any step, every saved name was carried over or flushed, unless the
   * step is the unpaused cancelled exit with names still pending: exactly then
   * names are saved whose files were not flushed.
   */
  lemma SavesAreFlushedIff(c: Config, s: State, a: Action, s': State)
    requires DistinctNames(c) && Reachable(c, s) && Step(c, s, a, s')
    ensures Base(c, s') <= c.resumed + s'.flushed <==> !(a.CheckDrain? && s.cancel && s.checkpointPending > 0)
  {
    ReachableInv(c, s);
    if a.CheckDrain? && s.cancel && s.checkpointPending > 0 {
      UnflushedIsPending(c, s);
    } else if s'.phase.Over? && a.Complete? {
      StepTerminal(c, s, a, s');
    } else if s'.phase.Over? {
      ExitIsFlushed(c, s, a, s');
    } else {
      StepCheckpoint(c, s, a, s');
    }
  }

  lemma UnflushedIsPending(c: Config, s: State)
    requires CheckpointSound(c, s) && s.checkpointPending > 0
    ensures !(Base(c, UnflushedExit(s)) <= c.resumed + UnflushedExit(s).flushed)
  {
    var n := s.pending[0];
    assert n in Names(s.pending) && n in s.completed && n !in s.flushed && n !in c.resumed;
  }

  lemma ExitIsFlushed(c: Config, s: State, a: Action, s': State)
    requires CheckpointSound(c, s) && PhaseSound(c, s) && Step(c, s, a, s') && s'.phase.Over? && !a.Complete?
    requires !(a.CheckDrain? && s.cancel && s.checkpointPending > 0)
    ensures Base(c, s') <= c.resumed + s'.flushed
  {
    if a.Process? && !s.paused {
      ProcessMoves(c, s, s.phase.w);
    }
    if s.checkpointPending > 0 {
      FlushKeeps(c, s);
    }
  }

  /**
   * The end forgets nothing: whichever way a run leaves, cancelled or not, the
   * checkpoint last written stands for every completed name, and it is only
   * written for new ones.
   */
  lemma EndForgetsNothing(c: Config, s: State, a: Action, s': State)
    requires DistinctNames(c) && Reachable(c, s) && Step(c, s, a, s') && s'.phase.Over?
    ensures Base(c, s') == s'.completed == s.completed && s'.pending == []
    ensures s.checkpointPending == 0 ==> s'.saved == s.saved && s'.flushed == s.flushed
  {
    ReachableInv(c, s);
    ReachableUncleared(c, s);
    if a.Process? && !s.paused {
      ProcessMoves(c, s, s.phase.w);
    }
    if s.checkpointPending > 0 {
      FlushKeeps(c, s);
    } else {
      assert Names([]) == {};
    }
  }

  lemma StepUncleared(c: Config, s: State, a: Action, s': State)
    requires PhaseSound(c, s) && !s.cleared && Step(c, s, a, s')
    ensures s'.cleared ==> a.Complete? && s'.phase.Over? && !s'.phase.result.CancelledRun? && !s'.phase.result.FailedRun?
  {
    if a.Process? && !s.paused {
      ProcessMoves(c, s, s.phase.w);
    }
  }

  lemma {:induction false} RunUncleared(c: Config, tr: Trace)
    requires DistinctNames(c) && IsRun(c, tr) && Origin(tr) == Initial(c)
    ensures tr.now.cleared ==> tr.now.phase.Over? && !tr.now.phase.result.CancelledRun? && !tr.now.phase.result.FailedRun?
  {
    if tr.Then? {
      RunUncleared(c, tr.before);
      InitialInv(c);
      RunInv(c, tr.before);
      StepUncleared(c, tr.before.now, tr.action, tr.now);
    }
  }

  lemma ReachableUncleared(c: Config, s: State)
    requires DistinctNames(c) && Reachable(c, s)
    ensures s.cleared ==> s.phase.Over? && !s.phase.result.CancelledRun? && !s.phase.result.FailedRun?
  {
    var tr :| IsRun(c, tr) && Origin(tr) == Initial(c) && tr.now == s;
    RunUncleared(c, tr);
  }

  /** The checkpoint is only cleared by a run that ended without being cancelled or failing, and then always. */
  lemma ClearedIff(c: Config, s: State)
    requires DistinctNames(c) && Reachable(c, s)
    ensures s.cleared <==> s.phase.Over? && !s.phase.result.CancelledRun? && !s.phase.result.FailedRun?
  {
    ReachableUncleared(c, s);
    if s.phase.Over? && !s.phase.result.CancelledRun? {
      SuccessIff(c, s);
    }
  }

  // ---- verify on resume ---------------------------------------------------------------------------

  datatype Stat = RegularFile(len: nat) | NotAFile | NotFound | StatFailed

  /** A checkpoint row is believed when there is nothing to write or the file is there with its size. */
  predicate Trusted(t: Task, stat: string -> Stat) {
    t.dest.None? || stat(t.dest.value) == RegularFile(t.bytes)
  }

  /** Verify-on-resume: a loaded name is kept exactly when every task of that name is trusted. */
  method VerifyOnResume(tasks: seq<Task>, loaded: set<string>, stat: string -> Stat) returns (kept: set<string>)
    ensures forall n :: n in kept <==> n in loaded && forall t :: t in tasks && t.name == n ==> Trusted(t, stat)
  {
    kept := loaded;
    if kept == {} {
      return;
    }
    var bad: seq<string> := [];
    for i := 0 to |tasks|
      invariant forall n :: n in bad <==> n in loaded && exists j :: 0 <= j < i && tasks[j].name == n && !Trusted(tasks[j], stat)
    {
      var t := tasks[i];
      if t.name in loaded && t.dest.Some? {
        match stat(t.dest.value)
        case RegularFile(len) =>
          if len != t.bytes {
            bad := bad + [t.name];
          }
        case NotAFile => bad := bad + [t.name];
        case NotFound => bad := bad + [t.name];
        case StatFailed => bad := bad + [t.name];
      }
    }
    for i := 0 to |bad|
      invariant kept == loaded - Names(bad[..i])
    {
      NamesSnoc(bad[..i], bad[i]);
      assert bad[..i + 1] == bad[..i] + [bad[i]];
      kept := kept - {bad[i]};
    }
    assert bad[..|bad|] == bad;
  }

  /**
   * With the names that verification kept, a task is passed over only when it
   * has nothing to write or its file is there with the recorded size, and every
   * task that verification distrusts is spawned.
   */
  lemma PassedOverIsPresent(c: Config, s: State, loaded: set<string>, stat: string -> Stat, w: nat)
    requires DistinctNames(c) && Reachable(c, s) && w < |c.tasks| == |s.status|
    requires forall n :: n in c.resumed <==> n in loaded && forall t :: t in c.tasks && t.name == n ==> Trusted(t, stat)
    ensures s.status[w].Passed? ==> Trusted(c.tasks[w], stat)
    ensures WasSpawned(s.status[w]) ==> c.tasks[w].dest.Some? && (c.tasks[w].name in loaded ==> !Trusted(c.tasks[w], stat))
  {
    ReachableInv(c, s);
    if WasSpawned(s.status[w]) && c.tasks[w].name in loaded {
      var t :| t in c.tasks && t.name == c.tasks[w].name && !Trusted(t, stat);
      var j :| 0 <= j < |c.tasks| && c.tasks[j] == t;
      assert j == w;
    }
  }

  // ---- runs that end otherwise ----------------------------------------------------------------------

  lemma After(c: Config, s: State, a: Action, s': State) returns (next: State)
    requires Reachable(c, s) && Step(c, s, a, s')
    ensures next == s' && Reachable(c, next)
  {
    next := s';
    var tr :| IsRun(c, tr) && Origin(tr) == Initial(c) && tr.now == s;
    assert IsRun(c, Then(tr, a, s')) && Origin(Then(tr, a, s')) == Initial(c);
  }

  lemma Start(c: Config) returns (s: State)
    ensures s == Initial(c) && Reachable(c, s)
  {
    s := Initial(c);
    assert IsRun(c, First(s)) && Origin(First(s)) == s;
  }

  /** The spawn loop over the next task. */
  lemma SpawnsNext(c: Config, s: State) returns (next: State)
    requires Reachable(c, s) && s.phase.SpawnHead? && s.phase.i < |c.tasks| == |s.status| && !s.cancel && !s.paused
    ensures next == Dispatched(c, s.(phase := SpawnGate(s.phase.i)), s.phase.i) && Reachable(c, next)
  {
    next := After(c, s, CheckSpawn, s.(phase := SpawnGate(s.phase.i)));
    next := After(c, next, Spawn, Dispatched(c, next, next.phase.i));
  }

  /** The drain loop over a finished worker, undisturbed. */
  lemma Drains(c: Config, s: State, w: nat) returns (next: State)
    requires Reachable(c, s) && s.phase.DrainHead? && w < |s.status| == |c.tasks| && s.status[w].Finished? && !s.cancel && !s.paused
    ensures next == Processed(c, s.(phase := DrainGate(w)), w) && Reachable(c, next)
  {
    next := After(c, s, Join(w), s.(phase := DrainCheck(w)));
    next := After(c, next, CheckDrain, next.(phase := DrainGate(w)));
    next := After(c, next, Process, Processed(c, next, w));
  }

  /**
   * A panic is swallowed: a run whose only worker panicked reports success and
   * clears the checkpoint, with the file not written and the counter short.
   */
  lemma PanicIsSwallowed(c: Config) returns (s: State)
    requires |c.tasks| == 1 && c.tasks[0].dest.Some? && c.tasks[0].name !in c.resumed
    ensures Reachable(c, s) && s.phase == Over(AllRestored) && s.cleared
    ensures c.tasks[0].name !in s.completed && s.filesDone == 0
  {
    s := Start(c);
    s := SpawnsNext(c, s);
    s := After(c, s, WorkerPanic(0), s.(status := s.status[0 := Finished(Panicked, false)]));
    s := After(c, s, CheckSpawn, s.(phase := DrainHead));
    s := Drains(c, s, 0);
    s := After(c, s, Complete, Concluded(s));
  }

  /**
   * So is a worker that ends as cancelled because the channel lost its sender,
   * with no cancellation asked for.
   */
  lemma LostSenderIsSwallowed(c: Config) returns (s: State)
    requires |c.tasks| == 1 && c.tasks[0].dest.Some? && c.tasks[0].name !in c.resumed
    ensures Reachable(c, s) && s.phase == Over(AllRestored) && s.cleared && !s.cancel
    ensures c.tasks[0].name !in s.completed
  {
    s := Start(c);
    s := SpawnsNext(c, s);
    s := After(c, s, SenderLost, s.(touched := true));
    s := After(c, s, WorkerEnd(0, Failed(CancelledError), {}), Ended(c, s, 0, Failed(CancelledError), {}));
    s := After(c, s, CheckSpawn, s.(phase := DrainHead));
    s := Drains(c, s, 0);
    s := After(c, s, Complete, Concluded(s));
  }

  /** Two tasks, both spawned and written, before the drain. */
  lemma BothWritten(c: Config) returns (s: State)
    requires |c.tasks| == 2 && c.tasks[0].dest.Some? && c.tasks[1].dest.Some? && DistinctNames(c) && c.resumed == {}
    ensures Reachable(c, s) && s.phase == DrainHead && s.status == [Finished(Done, true), Finished(Done, true)]
    ensures s.completed == {} && s.pending == [] && s.checkpointPending == 0 && s.saved == None && s.flushed == {}
    ensures !s.cancel && !s.paused
  {
    s := Start(c);
    s := SpawnsNext(c, s);
    s := SpawnsNext(c, s);
    assert s.status == [Running, Running];
    s := After(c, s, WorkerEnd(0, Done, {}), Ended(c, s, 0, Done, {}));
    s := After(c, s, WorkerEnd(1, Done, {}), Ended(c, s, 1, Done, {}));
    s := After(c, s, CheckSpawn, s.(phase := DrainHead));
  }

  /** The first of them drained into the batch. */
  lemma FirstDrained(c: Config) returns (s: State)
    requires |c.tasks| == 2 && c.tasks[0].dest.Some? && c.tasks[1].dest.Some? && DistinctNames(c) && c.resumed == {}
    ensures Reachable(c, s) && s.phase == DrainHead && |s.status| == 2 && s.status[1] == Finished(Done, true)
    ensures s.completed == {c.tasks[0].name} && s.checkpointPending == 1 && s.flushed == {}
  {
    s := BothWritten(c);
    s := Drains(c, s, 0);
  }

  /** A cancellation before the second is drained: the first is saved without its flush. */
  lemma SavedBeforeFlush(c: Config) returns (s: State)
    requires |c.tasks| == 2 && c.tasks[0].dest.Some? && c.tasks[1].dest.Some? && DistinctNames(c) && c.resumed == {}
    ensures Reachable(c, s) && s.phase == Over(CancelledRun)
    ensures s.saved == Some({c.tasks[0].name}) && s.flushed == {}
  {
    s := FirstDrained(c);
    s := After(c, s, Join(1), s.(phase := DrainCheck(1)));
    s := After(c, s, UserCancel, s.(cancel := true, touched := true, paused := false));
    s := After(c, s, CheckDrain, UnflushedExit(s));
  }

  // ---- pause and cancel ----------------------------------------------------------------------------

  /** The user neither resumes nor cancels. */
  ghost predicate LeftAlone(tr: Trace) {
    tr.Then? ==> LeftAlone(tr.before) && !tr.action.UserResume? && !tr.action.UserCancel?
  }

  /** No task is started and no result taken: workers that ran may have ended, and that is all. */
  predicate OnlyEnds(status: seq<Status>, status': seq<Status>) {
    |status'| == |status| && forall w :: 0 <= w < |status| ==> status'[w] == status[w] || (status[w].Running? && status'[w].Finished?)
  }

  /**
   * A paused run spawns nothing and drains nothing until it is resumed or
   * cancelled; it can only come to its end when nothing was left to do.
   */
  lemma {:induction false} PausedHolds(c: Config, tr: Trace)
    requires DistinctNames(c) && IsRun(c, tr) && LeftAlone(tr) && Inv(c, Origin(tr))
    requires Origin(tr).paused && !Origin(tr).cancel && !Origin(tr).phase.Over?
    ensures tr.now.paused && !tr.now.cancel
    ensures OnlyEnds(Origin(tr).status, tr.now.status) && tr.now.completed == Origin(tr).completed
    ensures if tr.now.phase.Over?
            then forall w :: 0 <= w < |Origin(tr).status| ==> Origin(tr).status[w].Passed? || Origin(tr).status[w].Joined?
            else tr.now.pending == Origin(tr).pending && tr.now.saved == Origin(tr).saved && tr.now.errors == Origin(tr).errors
  {
    if tr.Then? {
      PausedHolds(c, tr.before);
      RunInv(c, tr.before);
      PausedStep(c, tr.before.now, tr.action, tr.now);
    }
  }

  /** A pause holds the run as long as the user leaves it. */
  lemma PauseHolds(c: Config, s: State, s': State, tr: Trace)
    requires DistinctNames(c) && Inv(c, s) && !s.cancel && Step(c, s, UserPause, s')
    requires IsRun(c, tr) && Origin(tr) == s' && LeftAlone(tr)
    ensures OnlyEnds(s.status, tr.now.status) && tr.now.completed == s.completed
    ensures !tr.now.phase.Over? ==> tr.now.pending == s.pending && tr.now.saved == s.saved && tr.now.errors == s.errors
  {
    StepInv(c, s, UserPause, s');
    PausedHolds(c, tr);
  }

  /** The gate of either loop: closed while paused, left by a cancelled run, else passed with one task moved. */
  lemma Gates(c: Config, s: State, a: Action, s': State)
    requires DistinctNames(c) && Reachable(c, s) && (a.Spawn? || a.Process?) && Step(c, s, a, s')
    ensures s.paused && !s.cancel ==> s' == s
    ensures s.paused && s.cancel ==> s'.phase == Over(CancelledRun) && s'.status == s.status
    ensures !s.paused ==> s'.phase == (if a.Spawn? then SpawnHead(s.phase.i + 1) else DrainHead) && s'.status != s.status
  {
    ReachableInv(c, s);
    if a.Spawn? && !s.paused {
      assert s'.status[s.phase.i] != s.status[s.phase.i];
    }
    if a.Process? && !s.paused {
      ProcessMoves(c, s, s.phase.w);
    }
  }

  /** A resumption opens the gate: the run goes on from where it waits. */
  lemma ResumeGoesOn(c: Config, s: State, s': State, a: Action, s2: State)
    requires DistinctNames(c) && Reachable(c, s) && Step(c, s, UserResume, s') && (a.Spawn? || a.Process?) && Step(c, s', a, s2)
    ensures s2.phase == (if a.Spawn? then SpawnHead(s.phase.i + 1) else DrainHead) && s2.status != s.status
  {
    var next := After(c, s, UserResume, s');
    Gates(c, s', a, s2);
  }

  lemma PausedStep(c: Config, s: State, a: Action, s': State)
    requires Inv(c, s) && Step(c, s, a, s') && !a.UserResume? && !a.UserCancel? && s.paused && !s.cancel
    ensures s'.paused && !s'.cancel && OnlyEnds(s.status, s'.status) && s'.completed == s.completed
    ensures if s'.phase.Over? then forall w :: 0 <= w < |s.status| ==> s.status[w].Passed? || s.status[w].Joined?
            else s'.pending == s.pending && s'.saved == s.saved && s'.errors == s.errors
  {
  }

  /** At the head of one of the two loops, or between a join and its check. */
  predicate BeforeCheck(p: Phase) {
    p.SpawnHead? || p.DrainHead? || p.DrainCheck?
  }

  /**
   * Once a cancellation is in before the check of a loop, no further task is
   * started and no further result taken, and the run ends as cancelled unless
   * all tasks had been dealt with.
   */
  lemma {:induction false} CancelStops(c: Config, tr: Trace)
    requires DistinctNames(c) && IsRun(c, tr) && Inv(c, Origin(tr)) && Origin(tr).cancel && BeforeCheck(Origin(tr).phase)
    ensures tr.now.cancel && (BeforeCheck(tr.now.phase) || tr.now.phase.Over?)
    ensures OnlyEnds(Origin(tr).status, tr.now.status) && tr.now.completed == Origin(tr).completed
    ensures tr.now.phase.Over? && !tr.now.phase.result.CancelledRun? ==>
              forall w :: 0 <= w < |Origin(tr).status| ==> Origin(tr).status[w].Passed? || Origin(tr).status[w].Joined?
  {
    if tr.Then? {
      CancelStops(c, tr.before);
      RunInv(c, tr.before);
      CancelledStep(c, tr.before.now, tr.action, tr.now);
    }
  }

  lemma CancelledStep(c: Config, s: State, a: Action, s': State)
    requires Inv(c, s) && Step(c, s, a, s') && s.cancel && BeforeCheck(s.phase)
    ensures s'.cancel && (BeforeCheck(s'.phase) || s'.phase.Over?)
    ensures OnlyEnds(s.status, s'.status) && s'.completed == s.completed
    ensures s'.phase.Over? && !s'.phase.result.CancelledRun? ==>
              forall w :: 0 <= w < |s.status| ==> s.status[w].Passed? || s.status[w].Joined?
  {
    if ByWorker(a) {
      CancelledWorkers(c, s, a, s');
    }
  }

  lemma CancelledWorkers(c: Config, s: State, a: Action, s': State)
    requires Step(c, s, a, s') && ByWorker(a)
    ensures s'.cancel == s.cancel && s'.phase == s.phase && OnlyEnds(s.status, s'.status) && s'.completed == s.completed
  {
  }
}
