/**
 * One run of `restore_all` as a state machine: the spawn loop, the file workers,
 * the drain loop with its checkpoint batches, the user's pause and cancel, and
 * the final aggregation.  Every interleaving of these is a run.
 */
module RestoreRun {
  import opened Basics

  const BATCH: nat := 100

  const SKIPPED_PREFIX: string := "[skipped:missing-pack] "

  /** A file to restore; no destination means that it is present and left alone. */
  datatype Task = Task(name: string, bytes: nat, dest: Option<string>)

  datatype Config = Config(tasks: seq<Task>, resumed: set<string>)

  datatype RestoreError = StorageError(msg: string) | CancelledError | OtherError(msg: string)

  datatype Outcome = Done | Failed(error: RestoreError) | Panicked

  /** How a worker ended, and whether it went through the accounting at its end. */
  datatype Status = Unreached | Passed | Running | Finished(outcome: Outcome, counted: bool) | Joined(outcome: Outcome, counted: bool)

  datatype RunResult = AllRestored | Incomplete(skipped: nat) | FailedRun(errors: seq<RestoreError>) | CancelledRun

  datatype Phase = SpawnHead(i: nat) | SpawnGate(i: nat) | DrainHead | DrainCheck(w: nat) | DrainGate(w: nat) | Over(result: RunResult)

  /**
   * `saved` is what was last handed to the checkpoint file, `flushed` the names
   * whose files went through a batch fsync; `touched` says that the cancel
   * channel was sent to or lost its sender.
   */
  datatype State = State(
    phase: Phase, status: seq<Status>,
    filesDone: nat, bytesDone: nat, errorsSoFar: nat, skippedSoFar: nat,
    completed: set<string>, pending: seq<string>, checkpointPending: nat,
    saved: Option<set<string>>, flushed: set<string>, cleared: bool,
    errors: seq<RestoreError>, skipped: nat, missing: set<string>,
    cancel: bool, touched: bool, paused: bool)

  datatype Action =
    | CheckSpawn | Spawn
    | WorkerQuit(w: nat) | WorkerEnd(w: nat, outcome: Outcome, found: set<string>) | WorkerPanic(w: nat)
    | Join(w: nat) | CheckDrain | Process | Complete
    | UserCancel | UserPause | UserResume | SenderLost

  function Initial(c: Config): State {
    State(SpawnHead(0), seq(|c.tasks|, _ => Unreached), 0, 0, 0, 0, c.resumed, [], 0, None, {}, false, [], 0, {},
          false, false, false)
  }

  predicate IsSkip(e: RestoreError) {
    e.StorageError? && SKIPPED_PREFIX <= e.msg
  }

  predicate IsFailure(o: Outcome) {
    o.Failed? && !o.error.CancelledError? && !IsSkip(o.error)
  }

  predicate IsSkipped(o: Outcome) {
    o.Failed? && IsSkip(o.error)
  }

  predicate Contains(text: string, part: string) {
    part <= text || (text != [] && Contains(text[1..], part))
  }

  /** An error that names a pack known to be missing. */
  predicate Mentions(e: RestoreError, missing: set<string>) {
    e.StorageError? && exists p :: p in missing && Contains(e.msg, p)
  }

  function Kept(errors: seq<RestoreError>, missing: set<string>): seq<RestoreError> {
    if errors == [] then []
    else
      var e := errors[|errors| - 1];
      Kept(errors[..|errors| - 1], missing) + (if Mentions(e, missing) then [] else [e])
  }

  /** The reclassification after the drain: each error is kept or becomes one more skip. */
  method Reclassify(errors: seq<RestoreError>, missing: set<string>, skipped: nat)
    returns (kept: seq<RestoreError>, skipped': nat)
    ensures kept == Kept(errors, missing)
    ensures |kept| + skipped' == |errors| + skipped
  {
    kept, skipped' := [], skipped;
    for i := 0 to |errors|
      invariant kept == Kept(errors[..i], missing) && |kept| + skipped' == i + skipped
    {
      assert errors[..i + 1][..i] == errors[..i];
      if Mentions(errors[i], missing) {
        skipped' := skipped' + 1;
      } else {
        kept := kept + [errors[i]];
      }
    }
    assert errors[..|errors|] == errors;
  }

  lemma {:induction false} KeptContent(errors: seq<RestoreError>, missing: set<string>)
    ensures |Kept(errors, missing)| <= |errors|
    ensures forall e :: e in Kept(errors, missing) <==> e in errors && !Mentions(e, missing)
  {
    if errors != [] {
      var init, last := errors[..|errors| - 1], errors[|errors| - 1];
      KeptContent(init, missing);
      assert errors == init + [last];
    }
  }

  function Names(names: seq<string>): set<string> {
    set n | n in names
  }

  /** fsync of the pending batch, then the checkpoint. */
  function Flushed(s: State): State {
    s.(flushed := s.flushed + Names(s.pending), saved := Some(s.completed), pending := [])
  }

  /** The exits that flush before they leave. */
  function CancelledExit(s: State): State {
    (if s.checkpointPending > 0 then Flushed(s) else s).(phase := Over(CancelledRun))
  }

  /** The unpaused exit of the drain loop: the checkpoint is saved without the fsync. */
  function UnflushedExit(s: State): State {
    (if s.checkpointPending > 0 then s.(saved := Some(s.completed), pending := []) else s).(phase := Over(CancelledRun))
  }

  function Counted(s: State, bytes: nat): State {
    s.(filesDone := s.filesDone + 1, bytesDone := s.bytesDone + bytes)
  }

  /** What the spawn loop does with one task. */
  function Dispatched(c: Config, s: State, i: nat): State
    requires i < |c.tasks| == |s.status|
  {
    var t := c.tasks[i];
    (if t.name in s.completed || t.dest.None?
     then Counted(s, t.bytes).(status := s.status[i := Passed])
     else s.(status := s.status[i := Running])).(phase := SpawnHead(i + 1))
  }

  /** What a worker's accounting does. */
  function Ended(c: Config, s: State, w: nat, o: Outcome, found: set<string>): State
    requires w < |c.tasks| == |s.status|
  {
    Counted(s, c.tasks[w].bytes).(
      status := s.status[w := Finished(o, true)],
      missing := s.missing + found,
      errorsSoFar := s.errorsSoFar + (if IsFailure(o) then 1 else 0),
      skippedSoFar := s.skippedSoFar + (if IsSkipped(o) then 1 else 0))
  }

  /** What the drain loop does with one joined worker. */
  function Processed(c: Config, s: State, w: nat): State
    requires w < |c.tasks| == |s.status| && s.status[w].Finished?
  {
    var o := s.status[w].outcome;
    var s0 := s.(phase := DrainHead, status := s.status[w := Joined(o, s.status[w].counted)]);
    if o.Done? then
      var s1 := s0.(pending := s.pending + [c.tasks[w].name], completed := s.completed + {c.tasks[w].name},
                    checkpointPending := s.checkpointPending + 1);
      if s1.checkpointPending >= BATCH then Flushed(s1).(checkpointPending := 0) else s1
    else if IsSkipped(o) then s0.(skipped := s.skipped + 1)
    else if IsFailure(o) then s0.(errors := s.errors + [o.error])
    else s0
  }

  /** The last flush, the reclassification and the result. */
  function Concluded(s: State): State {
    var s0 := if s.checkpointPending > 0 then Flushed(s) else s;
    var kept := Kept(s.errors, s.missing);
    var skipped := SaturatingSub(s.skipped + |s.errors|, |kept|);
    s0.(errors := kept, skipped := skipped,
        cleared := kept == [],
        phase := Over(if kept == [] && skipped == 0 then AllRestored
                      else if kept == [] then Incomplete(skipped)
                      else FailedRun(kept)))
  }

  ghost predicate Step(c: Config, s: State, a: Action, s': State) {
    && !s.phase.Over? && |s.status| == |c.tasks|
    && match a
       case CheckSpawn =>
         s.phase.SpawnHead? && s.phase.i <= |c.tasks| &&
         s' == (if s.phase.i == |c.tasks| then s.(phase := DrainHead)
                else if s.cancel then CancelledExit(s)
                else s.(phase := SpawnGate(s.phase.i)))
       case Spawn =>
         s.phase.SpawnGate? && s.phase.i < |c.tasks| &&
         s' == (if !s.paused then Dispatched(c, s, s.phase.i) else if s.cancel then CancelledExit(s) else s)
       case WorkerQuit(w) =>
         w < |s.status| && s.status[w].Running? && s.cancel &&
         s' == s.(status := s.status[w := Finished(Failed(CancelledError), false)])
       case WorkerEnd(w, o, found) =>
         w < |s.status| && s.status[w].Running? && !o.Panicked? && (o == Failed(CancelledError) ==> s.touched) &&
         s' == Ended(c, s, w, o, found)
       case WorkerPanic(w) =>
         w < |s.status| && s.status[w].Running? && s' == s.(status := s.status[w := Finished(Panicked, false)])
       case Join(w) =>
         s.phase.DrainHead? && w < |s.status| && s.status[w].Finished? && s' == s.(phase := DrainCheck(w))
       case CheckDrain =>
         s.phase.DrainCheck? && s' == (if s.cancel then UnflushedExit(s) else s.(phase := DrainGate(s.phase.w)))
       case Process =>
         s.phase.DrainGate? && s.phase.w < |s.status| && s.status[s.phase.w].Finished? &&
         s' == (if !s.paused then Processed(c, s, s.phase.w) else if s.cancel then CancelledExit(s) else s)
       case Complete =>
         s.phase.DrainHead? && (forall w :: 0 <= w < |s.status| ==> !s.status[w].Running? && !s.status[w].Finished?) &&
         s' == Concluded(s)
       case UserCancel => s' == s.(cancel := true, touched := true, paused := false)
       case UserPause => s' == s.(paused := true)
       case UserResume => s' == s.(paused := false)
       case SenderLost => s' == s.(touched := true)
  }

  // ---- sums over the tasks ------------------------------------------------------------

  /** The weights of the tasks whose status satisfies `p`. */
  function Total(weights: seq<nat>, status: seq<Status>, p: Status -> bool): nat
    requires |weights| == |status|
  {
    if status == [] then 0 else (if p(status[0]) then weights[0] else 0) + Total(weights[1..], status[1..], p)
  }

  lemma {:induction false} TotalUpdate(weights: seq<nat>, status: seq<Status>, p: Status -> bool, w: nat, st: Status)
    requires |weights| == |status| && w < |status|
    ensures Total(weights, status[w := st], p) + (if p(status[w]) then weights[w] else 0) ==
            Total(weights, status, p) + (if p(st) then weights[w] else 0)
  {
    if w > 0 {
      TotalUpdate(weights[1..], status[1..], p, w - 1, st);
      assert status[w := st][1..] == status[1..][w - 1 := st];
    } else {
      assert status[w := st][1..] == status[1..];
    }
  }

  lemma {:induction false} TotalNone(weights: seq<nat>, status: seq<Status>, p: Status -> bool)
    requires |weights| == |status| && forall i :: 0 <= i < |status| ==> !p(status[i])
    ensures Total(weights, status, p) == 0
  {
    if status != [] {
      TotalNone(weights[1..], status[1..], p);
    }
  }

  /** Two classes that split a third. */
  lemma {:induction false} TotalSplit(weights: seq<nat>, status: seq<Status>, p: Status -> bool, q: Status -> bool, r: Status -> bool)
    requires |weights| == |status|
    requires forall i :: 0 <= i < |status| ==> !(p(status[i]) && q(status[i])) && (r(status[i]) <==> p(status[i]) || q(status[i]))
    ensures Total(weights, status, r) == Total(weights, status, p) + Total(weights, status, q)
  {
    if status != [] {
      assert forall i :: 0 < i < |status| ==> status[i] == status[1..][i - 1];
      TotalSplit(weights[1..], status[1..], p, q, r);
    }
  }

  function Ones(n: nat): (ones: seq<nat>)
    ensures |ones| == n && forall i :: 0 <= i < n ==> ones[i] == 1
  {
    seq(n, _ => 1)
  }

  function Sizes(tasks: seq<Task>): (sizes: seq<nat>)
    ensures |sizes| == |tasks| && forall i :: 0 <= i < |tasks| ==> sizes[i] == tasks[i].bytes
  {
    seq(|tasks|, i requires 0 <= i < |tasks| => tasks[i].bytes)
  }

  function Sum(weights: seq<nat>): nat {
    if weights == [] then 0 else weights[0] + Sum(weights[1..])
  }

  lemma {:induction false} TotalAll(weights: seq<nat>, status: seq<Status>, p: Status -> bool)
    requires |weights| == |status| && forall i :: 0 <= i < |status| ==> p(status[i])
    ensures Total(weights, status, p) == Sum(weights)
  {
    if status != [] {
      TotalAll(weights[1..], status[1..], p);
    }
  }

  lemma {:induction false} SumOnes(n: nat)
    ensures Sum(Ones(n)) == n
  {
    if n > 0 {
      SumOnes(n - 1);
      assert Ones(n)[1..] == Ones(n - 1);
    }
  }

  // ---- the invariant ---------------------------------------------------------------------

  predicate HasEnded(st: Status) {
    st.Finished? || st.Joined?
  }

  predicate WasSpawned(st: Status) {
    st.Running? || HasEnded(st)
  }

  predicate IsCounted(st: Status) {
    st.Passed? || (HasEnded(st) && st.counted)
  }

  predicate EndedInFailure(st: Status) {
    HasEnded(st) && IsFailure(st.outcome)
  }

  predicate EndedInSkip(st: Status) {
    HasEnded(st) && IsSkipped(st.outcome)
  }

  predicate JoinedFailure(st: Status) {
    st.Joined? && IsFailure(st.outcome)
  }

  predicate JoinedSkip(st: Status) {
    st.Joined? && IsSkipped(st.outcome)
  }

  predicate JoinedDone(st: Status) {
    st.Joined? && st.outcome.Done?
  }

  ghost predicate DistinctNames(c: Config) {
    forall i, j :: 0 <= i < j < |c.tasks| ==> c.tasks[i].name != c.tasks[j].name
  }

  /** The four progress counters agree with what the tasks went through. */
  ghost predicate CountersSound(tasks: seq<Task>, s: State) {
    && |s.status| == |tasks|
    && s.filesDone == Total(Ones(|tasks|), s.status, IsCounted)
    && s.bytesDone == Total(Sizes(tasks), s.status, IsCounted)
    && s.errorsSoFar == Total(Ones(|tasks|), s.status, EndedInFailure)
    && s.skippedSoFar == Total(Ones(|tasks|), s.status, EndedInSkip)
  }

  /** The drain loop's tallies agree with the workers it joined. */
  ghost predicate TalliesSound(s: State) {
    && |s.errors| == Total(Ones(|s.status|), s.status, JoinedFailure)
    && s.skipped == Total(Ones(|s.status|), s.status, JoinedSkip)
    && ErrorsAreReal(s)
  }

  /** Each listed error is that of a joined worker. */
  ghost predicate ErrorsAreReal(s: State) {
    forall e :: e in s.errors ==> exists w :: 0 <= w < |s.status| && JoinedFailure(s.status[w]) && s.status[w].outcome.error == e
  }

  ghost predicate CompletedSound(c: Config, s: State) {
    && |s.status| == |c.tasks|
    && (forall n :: n in s.completed ==> n in c.resumed || exists w :: 0 <= w < |s.status| && JoinedDone(s.status[w]) && c.tasks[w].name == n)
    && c.resumed <= s.completed
    && (forall w :: 0 <= w < |s.status| && JoinedDone(s.status[w]) ==> c.tasks[w].name in s.completed)
  }

  /** What each status says about its task, and when a worker may end without accounting. */
  ghost predicate StatusSound(c: Config, s: State) {
    && |s.status| == |c.tasks| && (s.cancel ==> s.touched)
    && (forall w :: 0 <= w < |s.status| && s.status[w].Passed? ==> c.tasks[w].name in c.resumed || c.tasks[w].dest.None?)
    && (forall w :: 0 <= w < |s.status| && WasSpawned(s.status[w]) ==> c.tasks[w].name !in c.resumed && c.tasks[w].dest.Some?)
    && (forall w :: 0 <= w < |s.status| && HasEnded(s.status[w]) ==>
          (s.status[w].counted <==> !s.status[w].outcome.Panicked?)
          || (s.status[w] == Finished(Failed(CancelledError), false) || s.status[w] == Joined(Failed(CancelledError), false)))
    && (forall w :: 0 <= w < |s.status| && HasEnded(s.status[w]) && s.status[w].outcome == Failed(CancelledError) ==> s.touched)
  }

  predicate Spawning(p: Phase) {
    p.SpawnHead? || p.SpawnGate?
  }

  /** Nothing is drained while tasks are spawned, and everything is spawned before the drain. */
  ghost predicate PhaseSound(c: Config, s: State) {
    && |s.status| == |c.tasks|
    && (Spawning(s.phase) ==>
          && s.phase.i <= |c.tasks| && (s.phase.SpawnGate? ==> s.phase.i < |c.tasks|)
          && s.completed == c.resumed && s.pending == [] && s.checkpointPending == 0 && s.saved.None?
          && (forall w :: 0 <= w < |s.status| ==> !s.status[w].Joined? && (s.status[w].Unreached? <==> w >= s.phase.i)))
    && (s.phase.DrainHead? || s.phase.DrainCheck? || s.phase.DrainGate? ==>
          forall w :: 0 <= w < |s.status| ==> !s.status[w].Unreached?)
    && (s.phase.DrainCheck? || s.phase.DrainGate? ==> s.phase.w < |s.status| && s.status[s.phase.w].Finished?)
  }

  /** The names the checkpoint stands for: those last saved, or those carried over. */
  function Base(c: Config, s: State): set<string> {
    if s.saved.Some? then s.saved.value else c.resumed
  }

  /** Saved and pending names together are the completed ones, the batch is short, and only flushed names are saved. */
  ghost predicate CheckpointSound(c: Config, s: State) {
    && Base(c, s) + Names(s.pending) == s.completed && Base(c, s) !! Names(s.pending)
    && NoDuplicates(s.pending) && |s.pending| == s.checkpointPending < BATCH
    && Base(c, s) <= c.resumed + s.flushed
    && s.flushed !! Names(s.pending) && s.flushed <= s.completed
    && c.resumed <= Base(c, s)
  }
}
