/** What every step of a restore run keeps, and what holds when the run is over. */
module RestoreRunSafety {
  import opened Basics
  import opened RestoreRun

  // ---- the shape of a step -------------------------------------------------------------------

  function One(b: bool): nat {
    if b then 1 else 0
  }

  /** No task moves. */
  predicate Quiet(s: State, s': State) {
    && s'.status == s.status && s'.completed == s.completed
    && s'.filesDone == s.filesDone && s'.bytesDone == s.bytesDone
    && s'.errorsSoFar == s.errorsSoFar && s'.skippedSoFar == s.skippedSoFar
    && (!s'.phase.Over? ==> s'.errors == s.errors && s'.skipped == s.skipped)
  }

  /** The only ways a status ever changes. */
  predicate Moves(was: Status, st: Status) {
    || (was.Unreached? && (st.Passed? || st.Running?))
    || (was.Running? && st.Finished?
        && ((st.counted <==> !st.outcome.Panicked?) || st == Finished(Failed(CancelledError), false)))
    || (was.Finished? && st == Joined(was.outcome, was.counted))
  }

  predicate CountersMove(t: Task, s: State, s': State, was: Status, st: Status) {
    && s'.filesDone + One(IsCounted(was)) == s.filesDone + One(IsCounted(st))
    && s'.bytesDone + (if IsCounted(was) then t.bytes else 0) == s.bytesDone + (if IsCounted(st) then t.bytes else 0)
    && s'.errorsSoFar + One(EndedInFailure(was)) == s.errorsSoFar + One(EndedInFailure(st))
    && s'.skippedSoFar + One(EndedInSkip(was)) == s.skippedSoFar + One(EndedInSkip(st))
  }

  predicate TalliesMove(s: State, s': State, was: Status, st: Status) {
    && s'.errors == s.errors + (if JoinedFailure(st) then [st.outcome.error] else [])
    && s'.skipped + One(JoinedSkip(was)) == s.skipped + One(JoinedSkip(st))
  }

  /** Exactly the task `w` moves. */
  predicate MovesOne(c: Config, s: State, w: nat, s': State) {
    && w < |s.status| == |c.tasks| == |s'.status|
    && s'.status == s.status[w := s'.status[w]] && Moves(s.status[w], s'.status[w])
    && CountersMove(c.tasks[w], s, s', s.status[w], s'.status[w])
    && TalliesMove(s, s', s.status[w], s'.status[w])
    && s'.completed == (if JoinedDone(s'.status[w]) then s.completed + {c.tasks[w].name} else s.completed)
    && (s'.status[w].Passed? ==> c.tasks[w].name in s.completed || c.tasks[w].dest.None?)
    && (s'.status[w].Running? ==> c.tasks[w].name !in s.completed && c.tasks[w].dest.Some?)
    && (s'.status[w].Finished? && s'.status[w].outcome == Failed(CancelledError) ==> s.cancel || s.touched)
  }

  lemma PassedMoves(c: Config, s: State)
    requires s.phase.SpawnGate? && s.phase.i < |c.tasks| == |s.status| && s.status[s.phase.i].Unreached?
    requires c.tasks[s.phase.i].name in s.completed || c.tasks[s.phase.i].dest.None?
    ensures MovesOne(c, s, s.phase.i, Dispatched(c, s, s.phase.i))
  {
    assert Dispatched(c, s, s.phase.i).status[s.phase.i] == Passed;
  }

  lemma RunningMoves(c: Config, s: State)
    requires s.phase.SpawnGate? && s.phase.i < |c.tasks| == |s.status| && s.status[s.phase.i].Unreached?
    requires c.tasks[s.phase.i].name !in s.completed && c.tasks[s.phase.i].dest.Some?
    ensures MovesOne(c, s, s.phase.i, Dispatched(c, s, s.phase.i))
  {
    assert Dispatched(c, s, s.phase.i).status[s.phase.i] == Running;
  }

  lemma SpawnMoves(c: Config, s: State)
    requires s.phase.SpawnGate? && s.phase.i < |c.tasks| == |s.status| && s.status[s.phase.i].Unreached?
    ensures MovesOne(c, s, s.phase.i, Dispatched(c, s, s.phase.i))
  {
    if c.tasks[s.phase.i].name in s.completed || c.tasks[s.phase.i].dest.None? {
      PassedMoves(c, s);
    } else {
      RunningMoves(c, s);
    }
  }

  lemma EndMoves(c: Config, s: State, w: nat, o: Outcome, found: set<string>)
    requires w < |c.tasks| == |s.status| && s.status[w].Running? && !o.Panicked? && (o == Failed(CancelledError) ==> s.touched)
    ensures MovesOne(c, s, w, Ended(c, s, w, o, found))
  {
  }

  lemma DoneMoves(c: Config, s: State, w: nat)
    requires w < |c.tasks| == |s.status| && s.status[w].Finished? && s.status[w].outcome.Done?
    ensures MovesOne(c, s, w, Processed(c, s, w)) && Processed(c, s, w).phase.DrainHead?
    ensures Processed(c, s, w).cancel == s.cancel && Processed(c, s, w).touched == s.touched
  {
    DoneFields(c, s, w);
    assert Processed(c, s, w).status[w] == Joined(Done, s.status[w].counted);
  }

  lemma DoneFields(c: Config, s: State, w: nat)
    requires w < |c.tasks| == |s.status| && s.status[w].Finished? && s.status[w].outcome.Done?
    ensures var s' := Processed(c, s, w);
            && s'.phase.DrainHead? && s'.cancel == s.cancel && s'.touched == s.touched
            && s'.status == s.status[w := Joined(Done, s.status[w].counted)]
            && s'.errors == s.errors && s'.skipped == s.skipped && s'.completed == s.completed + {c.tasks[w].name}
            && s'.filesDone == s.filesDone && s'.bytesDone == s.bytesDone
            && s'.errorsSoFar == s.errorsSoFar && s'.skippedSoFar == s.skippedSoFar
  {
  }

  lemma FailedMoves(c: Config, s: State, w: nat)
    requires w < |c.tasks| == |s.status| && s.status[w].Finished? && !s.status[w].outcome.Done?
    ensures MovesOne(c, s, w, Processed(c, s, w)) && Processed(c, s, w).phase.DrainHead?
    ensures Processed(c, s, w).cancel == s.cancel && Processed(c, s, w).touched == s.touched
  {
    var o := s.status[w].outcome;
    var s' := Processed(c, s, w);
    assert s'.status == s.status[w := Joined(o, s.status[w].counted)] && s'.status[w] == Joined(o, s.status[w].counted);
    assert IsSkipped(o) ==> !IsFailure(o);
    assert s'.completed == s.completed;
    assert s'.errors == s.errors + (if IsFailure(o) then [o.error] else []);
    assert s'.skipped == s.skipped + One(IsSkipped(o));
  }

  lemma ProcessMoves(c: Config, s: State, w: nat)
    requires w < |c.tasks| == |s.status| && s.status[w].Finished?
    ensures MovesOne(c, s, w, Processed(c, s, w)) && Processed(c, s, w).phase.DrainHead?
    ensures Processed(c, s, w).cancel == s.cancel && Processed(c, s, w).touched == s.touched
  {
    if s.status[w].outcome.Done? {
      DoneMoves(c, s, w);
    } else {
      FailedMoves(c, s, w);
    }
  }

  /** Ends without accounting: a cancellation seen by the worker, or a panic. */
  lemma UncountedMoves(c: Config, s: State, w: nat, o: Outcome)
    requires w < |c.tasks| == |s.status| && s.status[w].Running?
    requires o.Panicked? || (o == Failed(CancelledError) && s.cancel)
    ensures MovesOne(c, s, w, s.(status := s.status[w := Finished(o, false)]))
  {
  }

  predicate Movers(a: Action) {
    a.Spawn? || a.WorkerQuit? || a.WorkerEnd? || a.WorkerPanic? || a.Process?
  }

  predicate ByWorker(a: Action) {
    a.WorkerQuit? || a.WorkerEnd? || a.WorkerPanic?
  }

  lemma WorkerShape(c: Config, s: State, a: Action, s': State)
    requires Step(c, s, a, s') && ByWorker(a)
    ensures MovesOne(c, s, a.w, s')
  {
    match a
    case WorkerQuit(w) => UncountedMoves(c, s, w, Failed(CancelledError));
    case WorkerPanic(w) => UncountedMoves(c, s, w, Panicked);
    case WorkerEnd(w, o, found) => EndMoves(c, s, w, o, found);
  }

  lemma QuietShape(c: Config, s: State, a: Action, s': State)
    requires Step(c, s, a, s') && (!Movers(a) || s'.phase.Over? || s' == s)
    ensures ByWorker(a) || Quiet(s, s') || (a.Process? && !s.paused)
  {
  }

  /** Every step moves one task or none. */
  lemma StepShape(c: Config, s: State, a: Action, s': State)
    requires PhaseSound(c, s) && Step(c, s, a, s')
    ensures Quiet(s, s') || exists w: nat :: MovesOne(c, s, w, s')
  {
    if ByWorker(a) {
      WorkerShape(c, s, a, s');
    } else if a.Spawn? && !s.paused {
      SpawnMoves(c, s);
    } else if a.Process? && !s.paused {
      ProcessMoves(c, s, s.phase.w);
    } else {
      QuietShape(c, s, a, s');
    }
  }

  // ---- counters, tallies, completed names -----------------------------------------------------

  lemma CountersKept(c: Config, s: State, w: nat, s': State)
    requires CountersSound(c.tasks, s) && MovesOne(c, s, w, s')
    ensures CountersSound(c.tasks, s')
  {
    TotalUpdate(Ones(|c.tasks|), s.status, IsCounted, w, s'.status[w]);
    TotalUpdate(Sizes(c.tasks), s.status, IsCounted, w, s'.status[w]);
    TotalUpdate(Ones(|c.tasks|), s.status, EndedInFailure, w, s'.status[w]);
    TotalUpdate(Ones(|c.tasks|), s.status, EndedInSkip, w, s'.status[w]);
  }

  lemma TalliesKept(c: Config, s: State, w: nat, s': State)
    requires TalliesSound(s) && MovesOne(c, s, w, s')
    ensures TalliesSound(s')
  {
    TotalUpdate(Ones(|s.status|), s.status, JoinedFailure, w, s'.status[w]);
    TotalUpdate(Ones(|s.status|), s.status, JoinedSkip, w, s'.status[w]);
    RealErrorsKept(c, s, w, s');
  }

  lemma RealErrorsKept(c: Config, s: State, w: nat, s': State)
    requires ErrorsAreReal(s) && MovesOne(c, s, w, s')
    ensures ErrorsAreReal(s')
  {
    forall e | e in s'.errors
      ensures exists v :: 0 <= v < |s'.status| && JoinedFailure(s'.status[v]) && s'.status[v].outcome.error == e {
      if e in s.errors {
        var v :| 0 <= v < |s.status| && JoinedFailure(s.status[v]) && s.status[v].outcome.error == e;
        assert v != w && s'.status[v] == s.status[v];
      } else {
        assert JoinedFailure(s'.status[w]) && s'.status[w].outcome.error == e;
      }
    }
  }

  lemma CompletedKept(c: Config, s: State, w: nat, s': State)
    requires CompletedSound(c, s) && MovesOne(c, s, w, s')
    ensures CompletedSound(c, s')
  {
    forall n | n in s'.completed && n !in c.resumed
      ensures exists v :: 0 <= v < |s'.status| && JoinedDone(s'.status[v]) && c.tasks[v].name == n {
      if n in s.completed {
        var v :| 0 <= v < |s.status| && JoinedDone(s.status[v]) && c.tasks[v].name == n;
        assert v != w && s'.status[v] == s.status[v];
      } else {
        assert JoinedDone(s'.status[w]) && c.tasks[w].name == n;
      }
    }
  }

  /** Cancellation always touches the channel, and a touch is never taken back. */
  lemma StepTouch(c: Config, s: State, a: Action, s': State)
    requires PhaseSound(c, s) && Step(c, s, a, s') && (s.cancel ==> s.touched)
    ensures (s'.cancel ==> s'.touched) && (s.touched ==> s'.touched)
  {
    if a.Process? && !s.paused {
      ProcessMoves(c, s, s.phase.w);
    }
  }

  lemma StatusKept(c: Config, s: State, w: nat, s': State)
    requires StatusSound(c, s) && MovesOne(c, s, w, s') && (s'.cancel ==> s'.touched) && (s.touched ==> s'.touched)
    requires s.status[w].Unreached? ==> s.completed == c.resumed
    ensures StatusSound(c, s')
  {
  }

  // ---- phases -----------------------------------------------------------------------------------

  lemma PhaseOfWorker(c: Config, s: State, w: nat, st: Status, s': State)
    requires PhaseSound(c, s) && w < |s.status| && s.status[w].Running? && st.Finished? && s'.status == s.status[w := st]
    requires s'.phase == s.phase && s'.completed == s.completed && s'.pending == s.pending
    requires s'.checkpointPending == s.checkpointPending && s'.saved == s.saved
    ensures PhaseSound(c, s')
  {
  }

  lemma PhaseOfSpawn(c: Config, s: State)
    requires PhaseSound(c, s) && s.phase.SpawnGate?
    ensures PhaseSound(c, Dispatched(c, s, s.phase.i))
  {
  }

  lemma PhaseOfProcess(c: Config, s: State)
    requires PhaseSound(c, s) && s.phase.DrainGate?
    ensures PhaseSound(c, Processed(c, s, s.phase.w))
  {
    ProcessMoves(c, s, s.phase.w);
  }

  lemma PhaseSame(c: Config, s: State, s': State)
    requires PhaseSound(c, s) && s'.phase == s.phase && s'.status == s.status && s'.completed == s.completed
    requires s'.pending == s.pending && s'.checkpointPending == s.checkpointPending && s'.saved == s.saved
    ensures PhaseSound(c, s')
  {
  }

  /** The pause and cancel steps. */
  predicate ByUser(a: Action) {
    a.UserCancel? || a.UserPause? || a.UserResume? || a.SenderLost?
  }

  /** Steps of the main task that move no task. */
  lemma PhaseOfQuiet(c: Config, s: State, a: Action, s': State)
    requires PhaseSound(c, s) && Step(c, s, a, s') && !Movers(a) && !ByUser(a)
    ensures PhaseSound(c, s')
  {
  }

  lemma PhaseOfWorkers(c: Config, s: State, a: Action, s': State)
    requires PhaseSound(c, s) && Step(c, s, a, s') && ByWorker(a)
    ensures PhaseSound(c, s')
  {
    PhaseOfWorker(c, s, a.w, s'.status[a.w], s');
  }

  lemma StepPhase(c: Config, s: State, a: Action, s': State)
    requires PhaseSound(c, s) && Step(c, s, a, s')
    ensures PhaseSound(c, s')
  {
    if ByUser(a) {
      PhaseSame(c, s, s');
    } else if !Movers(a) {
      PhaseOfQuiet(c, s, a, s');
    } else if ByWorker(a) {
      PhaseOfWorkers(c, s, a, s');
    } else if !s.paused {
      if a.Spawn? {
        PhaseOfSpawn(c, s);
      } else {
        PhaseOfProcess(c, s);
      }
    }
  }

  /** A task is only dispatched while the completed set is what was carried over. */
  lemma DispatchedEarly(c: Config, s: State, a: Action, s': State, w: nat)
    requires PhaseSound(c, s) && Step(c, s, a, s') && MovesOne(c, s, w, s') && s.status[w].Unreached?
    ensures s.completed == c.resumed
  {
  }

  // ---- the checkpoint ------------------------------------------------------------------------

  /** Flushing keeps the discipline and empties the batch. */
  lemma FlushKeeps(c: Config, s: State)
    requires Base(c, s) + Names(s.pending) == s.completed
    requires Base(c, s) <= c.resumed + s.flushed && s.flushed <= s.completed && c.resumed <= Base(c, s)
    ensures CheckpointSound(c, Flushed(s).(checkpointPending := 0))
    ensures Base(c, Flushed(s)) == s.completed && s.completed <= c.resumed + Flushed(s).flushed
  {
    assert Names([]) == {};
  }

  lemma NamesSnoc(names: seq<string>, n: string)
    ensures Names(names + [n]) == Names(names) + {n}
  {
    forall x | x in Names(names) + {n} ensures x in names + [n] {
      if x == n {
        assert (names + [n])[|names|] == n;
      }
    }
  }

  /** One more completed name joins the batch. */
  lemma Batched(c: Config, s: State, n: string)
    requires CheckpointSound(c, s) && n !in s.completed
    ensures var s' := s.(pending := s.pending + [n], completed := s.completed + {n}, checkpointPending := s.checkpointPending + 1);
            && Base(c, s') + Names(s'.pending) == s'.completed && Base(c, s') !! Names(s'.pending)
            && NoDuplicates(s'.pending) && |s'.pending| == s'.checkpointPending <= BATCH
            && s'.flushed !! Names(s'.pending) && s'.flushed <= s'.completed
            && Base(c, s') <= c.resumed + s'.flushed && c.resumed <= Base(c, s')
  {
    NamesSnoc(s.pending, n);
    assert n !in Names(s.pending);
  }

  lemma DoneCheckpoint(c: Config, s: State, w: nat)
    requires CheckpointSound(c, s) && w < |c.tasks| == |s.status| && s.status[w].Finished? && c.tasks[w].name !in s.completed
    requires s.status[w].outcome.Done?
    ensures CheckpointSound(c, Processed(c, s, w))
  {
    var n := c.tasks[w].name;
    Batched(c, s, n);
    var s1 := s.(phase := DrainHead, status := s.status[w := Joined(Done, s.status[w].counted)],
                 pending := s.pending + [n], completed := s.completed + {n}, checkpointPending := s.checkpointPending + 1);
    if s1.checkpointPending >= BATCH {
      FlushKeeps(c, s1);
      assert Processed(c, s, w) == Flushed(s1).(checkpointPending := 0);
    } else {
      assert Processed(c, s, w) == s1;
    }
  }

  lemma ProcessCheckpoint(c: Config, s: State, w: nat)
    requires CheckpointSound(c, s) && w < |c.tasks| == |s.status| && s.status[w].Finished? && c.tasks[w].name !in s.completed
    ensures CheckpointSound(c, Processed(c, s, w))
  {
    if s.status[w].outcome.Done? {
      DoneCheckpoint(c, s, w);
    } else {
      CheckpointSame(c, s, Processed(c, s, w));
    }
  }

  lemma DifferentNames(c: Config, v: nat, w: nat)
    requires DistinctNames(c) && v < |c.tasks| && w < |c.tasks| && v != w
    ensures c.tasks[v].name != c.tasks[w].name
  {
  }

  /** A finished worker's name is new: its task was not carried over, and names are distinct. */
  lemma FinishedIsNew(c: Config, s: State, w: nat)
    requires DistinctNames(c) && StatusSound(c, s) && CompletedSound(c, s) && w < |s.status| && s.status[w].Finished?
    ensures c.tasks[w].name !in s.completed
  {
    assert WasSpawned(s.status[w]);
    forall v | 0 <= v < |s.status| && JoinedDone(s.status[v]) ensures c.tasks[v].name != c.tasks[w].name {
      DifferentNames(c, v, w);
    }
  }

  /** A step that leaves the checkpoint fields alone. */
  lemma CheckpointSame(c: Config, s: State, s': State)
    requires CheckpointSound(c, s)
    requires SameCheckpoint(s, s')
    ensures CheckpointSound(c, s')
  {
  }

  lemma StepCheckpoint(c: Config, s: State, a: Action, s': State)
    requires DistinctNames(c) && StatusSound(c, s) && CompletedSound(c, s) && PhaseSound(c, s)
    requires CheckpointSound(c, s) && Step(c, s, a, s') && !s'.phase.Over?
    ensures CheckpointSound(c, s')
  {
    if a.Process? && !s.paused {
      FinishedIsNew(c, s, s.phase.w);
      ProcessCheckpoint(c, s, s.phase.w);
    } else {
      CheckpointAlone(c, s, a, s');
      CheckpointSame(c, s, s');
    }
  }

  predicate SameCheckpoint(s: State, s': State) {
    && s'.completed == s.completed && s'.pending == s.pending && s'.checkpointPending == s.checkpointPending
    && s'.saved == s.saved && s'.flushed == s.flushed
  }

  /** Before the end only the drain loop touches the checkpoint. */
  lemma CheckpointAlone(c: Config, s: State, a: Action, s': State)
    requires Step(c, s, a, s') && !s'.phase.Over? && !(a.Process? && !s.paused)
    ensures SameCheckpoint(s, s')
  {
    if a.CheckSpawn? || a.Spawn? {
      SpawningAlone(c, s, a, s');
    }
  }

  lemma SpawningAlone(c: Config, s: State, a: Action, s': State)
    requires Step(c, s, a, s') && !s'.phase.Over? && (a.CheckSpawn? || a.Spawn?)
    ensures SameCheckpoint(s, s')
  {
  }

  // ---- the end of a run ------------------------------------------------------------------------

  /** What holds when a run ended by itself; a cancelled one was cancelled. */
  ghost predicate TerminalSound(c: Config, s: State) {
    s.phase.Over? ==> if s.phase.result.CancelledRun? then s.cancel else RanToTheEnd(c, s)
  }

  ghost predicate RanToTheEnd(c: Config, s: State)
    requires s.phase.Over?
  {
    && |s.status| == |c.tasks|
    && (forall w :: 0 <= w < |s.status| ==> s.status[w].Passed? || s.status[w].Joined?)
    && |s.errors| + s.skipped == Total(Ones(|s.status|), s.status, JoinedFailure) + Total(Ones(|s.status|), s.status, JoinedSkip)
    && (s.phase.result.AllRestored? <==> s.errors == [] && s.skipped == 0)
    && (s.phase.result.Incomplete? <==> s.errors == [] && s.skipped > 0)
    && (s.cleared <==> s.errors == [])
    && (s.phase.result.FailedRun? ==> s.phase.result.errors == s.errors)
    && (s.phase.result.Incomplete? ==> s.phase.result.skipped == s.skipped)
    && ErrorsAreReal(s) && (forall e :: e in s.errors ==> !Mentions(e, s.missing))
    && s.pending == [] && Base(c, s) == s.completed && s.completed <= c.resumed + s.flushed
  }

  lemma ConcludedTerminal(c: Config, s: State)
    requires TalliesSound(s) && CheckpointSound(c, s) && |s.status| == |c.tasks|
    requires forall w :: 0 <= w < |s.status| ==> s.status[w].Passed? || s.status[w].Joined?
    ensures TerminalSound(c, Concluded(s))
  {
    KeptContent(s.errors, s.missing);
    if s.checkpointPending > 0 {
      FlushKeeps(c, s);
    } else {
      assert Names([]) == {};
    }
  }

  lemma StepTerminal(c: Config, s: State, a: Action, s': State)
    requires TalliesSound(s) && PhaseSound(c, s) && CheckpointSound(c, s) && Step(c, s, a, s')
    ensures TerminalSound(c, s')
  {
    if a.Complete? {
      ConcludedTerminal(c, s);
    } else {
      OnlyCompleteConcludes(c, s, a, s');
    }
  }

  /** Every other way to stop is a cancelled run. */
  lemma OnlyCompleteConcludes(c: Config, s: State, a: Action, s': State)
    requires PhaseSound(c, s) && Step(c, s, a, s') && !a.Complete?
    ensures s'.phase.Over? ==> s'.phase.result.CancelledRun? && s'.cancel
  {
    if a.Process? && !s.paused {
      ProcessMoves(c, s, s.phase.w);
    }
  }

  ghost predicate Inv(c: Config, s: State) {
    && CountersSound(c.tasks, s) && CompletedSound(c, s) && StatusSound(c, s) && PhaseSound(c, s)
    && (!s.phase.Over? ==> TalliesSound(s) && CheckpointSound(c, s))
    && TerminalSound(c, s)
  }

  lemma InitialInv(c: Config)
    ensures Inv(c, Initial(c))
  {
    var s := Initial(c);
    TotalNone(Ones(|c.tasks|), s.status, IsCounted);
    TotalNone(Sizes(c.tasks), s.status, IsCounted);
    TotalNone(Ones(|c.tasks|), s.status, EndedInFailure);
    TotalNone(Ones(|c.tasks|), s.status, EndedInSkip);
    TotalNone(Ones(|c.tasks|), s.status, JoinedFailure);
    TotalNone(Ones(|c.tasks|), s.status, JoinedSkip);
    assert Names([]) == {};
  }

  /** What follows from the shape of a step alone. */
  lemma ShapeKeeps(c: Config, s: State, s': State)
    requires CountersSound(c.tasks, s) && CompletedSound(c, s) && StatusSound(c, s) && (!s'.phase.Over? ==> TalliesSound(s))
    requires Quiet(s, s') || exists w: nat :: MovesOne(c, s, w, s')
    requires (s'.cancel ==> s'.touched) && (s.touched ==> s'.touched)
    requires forall w: nat :: MovesOne(c, s, w, s') && s.status[w].Unreached? ==> s.completed == c.resumed
    ensures CountersSound(c.tasks, s') && CompletedSound(c, s') && StatusSound(c, s') && (!s'.phase.Over? ==> TalliesSound(s'))
  {
    if !Quiet(s, s') {
      var w: nat :| MovesOne(c, s, w, s');
      CountersKept(c, s, w, s');
      CompletedKept(c, s, w, s');
      StatusKept(c, s, w, s');
      if !s'.phase.Over? {
        TalliesKept(c, s, w, s');
      }
    }
  }

  lemma StepInv(c: Config, s: State, a: Action, s': State)
    requires DistinctNames(c) && Inv(c, s) && Step(c, s, a, s')
    ensures Inv(c, s')
  {
    assert PhaseSound(c, s') by {
      StepPhase(c, s, a, s');
    }
    assert TerminalSound(c, s') by {
      StepTerminal(c, s, a, s');
    }
    assert !s'.phase.Over? ==> CheckpointSound(c, s') by {
      if !s'.phase.Over? {
        StepCheckpoint(c, s, a, s');
      }
    }
    StepTouch(c, s, a, s');
    StepShape(c, s, a, s');
    forall w: nat | MovesOne(c, s, w, s') && s.status[w].Unreached? ensures s.completed == c.resumed {
      DispatchedEarly(c, s, a, s', w);
    }
    ShapeKeeps(c, s, s');
  }

  // ---- runs -----------------------------------------------------------------------------------------

  /** A run, latest step outermost. */
  datatype Trace = First(now: State) | Then(before: Trace, action: Action, now: State)

  function Origin(tr: Trace): State {
    if tr.First? then tr.now else Origin(tr.before)
  }

  ghost predicate IsRun(c: Config, tr: Trace) {
    tr.Then? ==> IsRun(c, tr.before) && Step(c, tr.before.now, tr.action, tr.now)
  }

  ghost predicate Reachable(c: Config, s: State) {
    exists tr :: IsRun(c, tr) && Origin(tr) == Initial(c) && tr.now == s
  }

  lemma {:induction false} RunInv(c: Config, tr: Trace)
    requires DistinctNames(c) && IsRun(c, tr) && Inv(c, Origin(tr))
    ensures Inv(c, tr.now)
  {
    if tr.Then? {
      RunInv(c, tr.before);
      StepInv(c, tr.before.now, tr.action, tr.now);
    }
  }

  lemma ReachableInv(c: Config, s: State)
    requires DistinctNames(c) && Reachable(c, s)
    ensures Inv(c, s)
  {
    var tr :| IsRun(c, tr) && Origin(tr) == Initial(c) && tr.now == s;
    InitialInv(c);
    RunInv(c, tr);
  }
}
