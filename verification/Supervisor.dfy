/**
 * The shared session of the recovery app around its restores: the restore task,
 * its progress task and its supervisor, and the pause, resume and cancel
 * commands, each writing the session under its lock.
 */
module Supervisor {
  import opened Basics

  datatype Status = Running | Complete | Error | Cancelled

  datatype Detail = NoDetail | EngineFailed | StoppedUnexpectedly | NoResultReported

  datatype View = View(status: Status, filesDone: nat, detail: Detail, paused: bool)

  /** The senders are those of the restore with the given number. */
  datatype Session = Session(progress: Option<View>, cancelTx: Option<nat>, pauseTx: Option<nat>, paused: bool)

  datatype EngineResult = Restored | WasCancelled | Failed

  /** A late panic comes after the task has written the given status. */
  datatype End = ScanFailed | Finalised(result: EngineResult) | Panicked | PanickedLate(status: Status)

  datatype TaskState = Scanning | Engine | Returned(result: EngineResult) | Finished(end: End)

  /** `cancelSeen` and `pauseSeen` are the last values sent on the two channels. */
  datatype Restore = Restore(task: TaskState, progressAlive: bool, supervised: bool, cancelSeen: bool, pauseSeen: bool)

  datatype App = App(session: Session, restores: seq<Restore>)

  datatype Action =
    | Start
    | ScanFails(r: nat) | ScanSucceeds(r: nat) | Return(r: nat, result: EngineResult) | Finalise(r: nat)
    | Panic(r: nat) | PanicInFinalise(r: nat) | PanicAfterStatus(r: nat) | PanicAfterScan(r: nat)
    | Progress(r: nat, filesDone: nat) | ProgressEnds(r: nat)
    | Supervise(r: nat)
    | Pause | Resume | Cancel

  const IDLE := App(Session(None, None, None, false), [])

  predicate IsTerminal(st: Status) {
    !st.Running?
  }

  predicate Terminal(s: Session) {
    s.progress.Some? && IsTerminal(s.progress.value.status)
  }

  /** The view a terminal status is attached to when there is none. */
  const BLANK_VIEW := View(Error, 0, NoDetail, false)

  function ViewOr(s: Session, blank: View): View {
    if s.progress.Some? then s.progress.value else blank
  }

  function WithoutSenders(s: Session): Session {
    s.(cancelTx := None, pauseTx := None, paused := false)
  }

  function StatusOf(result: EngineResult): Status {
    match result
    case Restored => Complete
    case WasCancelled => Cancelled
    case Failed => Error
  }

  /** The end of the restore task. */
  function FinalSession(s: Session, result: EngineResult): Session {
    var v := ViewOr(s, BLANK_VIEW);
    var v' := match result
      case Restored => v.(status := Complete, paused := false)
      case WasCancelled => v.(status := Cancelled, detail := NoDetail, paused := false)
      case Failed => v.(status := Error, detail := EngineFailed, paused := false);
    WithoutSenders(s).(progress := Some(v'))
  }

  /** The end of the restore task as far as a panic behind the status lets it come. */
  function BrokenSession(s: Session, result: EngineResult): Session {
    var v := ViewOr(s, BLANK_VIEW);
    WithoutSenders(s).(progress := Some(v.(status := StatusOf(result), paused := if result.Restored? then false else v.paused)))
  }

  predicate IsPanic(end: End) {
    end.Panicked? || end.PanickedLate?
  }

  /** What the supervisor does when the task is gone. */
  function SupervisedSession(s: Session, panicked: bool): Session {
    if Terminal(s) then WithoutSenders(s)
    else
      var v := ViewOr(s, BLANK_VIEW);
      WithoutSenders(s).(progress :=
          Some(v.(status := Error, detail := if panicked then StoppedUnexpectedly else NoResultReported, paused := false)))
  }

  function SetTask(a: App, r: nat, task: TaskState): App
    requires r < |a.restores|
  {
    a.(restores := a.restores[r := a.restores[r].(task := task)])
  }

  function ViewPaused(s: Session, paused: bool): Session {
    s.(paused := paused, progress := if s.progress.Some? then Some(s.progress.value.(paused := paused)) else None)
  }

  function SendPause(restores: seq<Restore>, tx: Option<nat>, paused: bool): seq<Restore> {
    if tx.Some? && tx.value < |restores| then restores[tx.value := restores[tx.value].(pauseSeen := paused)] else restores
  }

  function SendCancel(restores: seq<Restore>, tx: Option<nat>): seq<Restore> {
    if tx.Some? && tx.value < |restores| then restores[tx.value := restores[tx.value].(cancelSeen := true)] else restores
  }

  ghost predicate Step(a: App, act: Action, a': App) {
    match act
    case Start =>
      a' == App(Session(Some(View(Running, 0, NoDetail, false)), Some(|a.restores|), Some(|a.restores|), false),
                a.restores + [Restore(Scanning, false, false, false, false)])
    case ScanFails(r) =>
      r < |a.restores| && a.restores[r].task.Scanning? &&
      a' == SetTask(a, r, Finished(ScanFailed)).(
          session := if a.session.progress.Some?
                     then a.session.(progress := Some(a.session.progress.value.(status := Error, detail := EngineFailed)))
                     else a.session)
    case ScanSucceeds(r) =>
      r < |a.restores| && a.restores[r].task.Scanning? &&
      a' == a.(restores := a.restores[r := a.restores[r].(task := Engine, progressAlive := true)])
    case Return(r, result) =>
      r < |a.restores| && a.restores[r].task.Engine? && a' == SetTask(a, r, Returned(result))
    case Finalise(r) =>
      r < |a.restores| && a.restores[r].task.Returned? &&
      a' == SetTask(a, r, Finished(Finalised(a.restores[r].task.result))).(
          session := FinalSession(a.session, a.restores[r].task.result))
    case Panic(r) =>
      r < |a.restores| && !a.restores[r].task.Finished? && a' == SetTask(a, r, Finished(Panicked))
    case PanicInFinalise(r) =>
      r < |a.restores| && a.restores[r].task.Returned? &&
      a' == SetTask(a, r, Finished(Panicked)).(session := WithoutSenders(a.session))
    case PanicAfterStatus(r) =>
      r < |a.restores| && a.restores[r].task.Returned? &&
      a' == SetTask(a, r, Finished(PanickedLate(StatusOf(a.restores[r].task.result)))).(
          session := BrokenSession(a.session, a.restores[r].task.result))
    case PanicAfterScan(r) =>
      r < |a.restores| && a.restores[r].task.Scanning? && a.session.progress.Some? &&
      a' == SetTask(a, r, Finished(PanickedLate(Error))).(
          session := a.session.(progress := Some(a.session.progress.value.(status := Error))))
    case Progress(r, n) =>
      r < |a.restores| && a.restores[r].progressAlive &&
      a' == a.(session := if a.session.progress.Some?
                          then a.session.(progress := Some(a.session.progress.value.(filesDone := n))) else a.session)
    case ProgressEnds(r) =>
      r < |a.restores| && a.restores[r].progressAlive &&
      a' == a.(restores := a.restores[r := a.restores[r].(progressAlive := false)])
    case Supervise(r) =>
      r < |a.restores| && a.restores[r].task.Finished? && !a.restores[r].supervised &&
      a' == App(SupervisedSession(a.session, IsPanic(a.restores[r].task.end)),
                a.restores[r := a.restores[r].(supervised := true)])
    case Pause => a' == App(ViewPaused(a.session, true), SendPause(a.restores, a.session.pauseTx, true))
    case Resume => a' == App(ViewPaused(a.session, false), SendPause(a.restores, a.session.pauseTx, false))
    case Cancel => a' == a.(restores := SendPause(SendCancel(a.restores, a.session.cancelTx), a.session.pauseTx, false))
  }

  // ---- runs -----------------------------------------------------------------------------

  /** A run, latest step outermost. */
  datatype Trace = First(now: App) | Then(before: Trace, action: Action, now: App)

  ghost predicate IsRun(tr: Trace) {
    if tr.First? then tr.now == IDLE else IsRun(tr.before) && Step(tr.before.now, tr.action, tr.now)
  }

  ghost predicate AllSettled(a: App) {
    forall r :: 0 <= r < |a.restores| ==> a.restores[r].task.Finished? && a.restores[r].supervised
  }

  /** A new restore is only started when the earlier ones are over. */
  ghost predicate Serial(tr: Trace) {
    tr.Then? ==> Serial(tr.before) && (tr.action.Start? ==> AllSettled(tr.before.now))
  }

  ghost predicate Reachable(a: App) {
    exists tr :: IsRun(tr) && tr.now == a
  }

  ghost predicate SeriallyReachable(a: App) {
    exists tr :: IsRun(tr) && Serial(tr) && tr.now == a
  }

  /** What may follow a state before the next start. */
  ghost predicate Follows(origin: App, tr: Trace) {
    if tr.First? then tr.now == origin
    else Follows(origin, tr.before) && Step(tr.before.now, tr.action, tr.now) && !tr.action.Start?
  }

  // ---- every run --------------------------------------------------------------------------

  /** Whatever ended the task, the supervisor leaves a terminal status and no senders. */
  lemma SupervisorLeavesTerminal(a: App, r: nat, a': App)
    requires Step(a, Supervise(r), a')
    ensures Terminal(a'.session) && a'.session.cancelTx.None? && a'.session.pauseTx.None? && !a'.session.paused
  {
  }

  /** A terminal status is never overwritten with a non-terminal one before the next start. */
  lemma TerminalUntilStart(a: App, act: Action, a': App)
    requires Step(a, act, a') && Terminal(a.session) && !act.Start?
    ensures Terminal(a'.session)
    ensures a.session.cancelTx.None? && a.session.pauseTx.None? ==> a'.session.cancelTx.None? && a'.session.pauseTx.None?
  {
  }

  /**
   * The supervisor's promise, in any run, restores overlapping or not: once it
   * has seen a task gone, for whatever reason, the status is terminal and the
   * senders are gone, and both stay so until the next start.
   */
  lemma {:induction false} TerminalOnceSupervised(a: App, r: nat, a': App, tr: Trace)
    requires Step(a, Supervise(r), a') && Follows(a', tr)
    ensures Terminal(tr.now.session) && tr.now.session.cancelTx.None? && tr.now.session.pauseTx.None?
  {
    if tr.First? {
      SupervisorLeavesTerminal(a, r, a');
    } else {
      TerminalOnceSupervised(a, r, a', tr.before);
      TerminalUntilStart(tr.before.now, tr.action, tr.now);
    }
  }

  predicate Live(r: Restore) {
    !r.task.Finished?
  }

  /**
   * In any run, restores overlapping or not, a task that comes to its end leaves
   * its own result in the view, whatever stood there.
   */
  lemma FinaliseShows(a: App, r: nat, a': App)
    requires r < |a.restores| && a.restores[r].task.Returned? && Step(a, Finalise(r), a')
    ensures var result := a.restores[r].task.result;
            && a'.session.progress.Some? && !a'.session.progress.value.paused && !a'.session.paused
            && a'.session.progress.value.status == (match result case Restored => Complete case WasCancelled => Cancelled case Failed => Error)
            && (!result.Restored? ==> a'.session.progress.value.detail == if result.Failed? then EngineFailed else NoDetail)
            && a'.session.cancelTx.None? && a'.session.pauseTx.None?
  {
  }

  /** What may follow a state at all. */
  ghost predicate Continues(origin: App, tr: Trace) {
    if tr.First? then tr.now == origin
    else Continues(origin, tr.before) && Step(tr.before.now, tr.action, tr.now)
  }

  predicate ProgressOver(a: App, r: nat) {
    r < |a.restores| && !a.restores[r].progressAlive && !a.restores[r].task.Scanning?
  }

  /** The progress task of a restore, once ended, writes no more, whatever follows. */
  lemma {:induction false} ProgressEndsForGood(a: App, r: nat, a': App, tr: Trace, filesDone: nat, next: App)
    requires r < |a.restores| && !a.restores[r].task.Scanning? && Step(a, ProgressEnds(r), a') && Continues(a', tr)
    ensures ProgressOver(tr.now, r) && !Step(tr.now, Progress(r, filesDone), next)
  {
    if tr.Then? {
      ProgressEndsForGood(a, r, a', tr.before, filesDone, next);
      StaysOver(tr.before.now, tr.action, tr.now, r);
    }
  }

  lemma StaysOver(a: App, act: Action, a': App, r: nat)
    requires ProgressOver(a, r) && Step(a, act, a')
    ensures ProgressOver(a', r)
  {
  }

  // ---- serial runs --------------------------------------------------------------------------

  /** The status that a finished task stands for. */
  function Verdict(end: End): Status {
    match end
    case ScanFailed => Error
    case Finalised(result) => StatusOf(result)
    case Panicked => Error
    case PanickedLate(status) => status
  }

  /** What the view says besides the status. */
  function DetailOf(end: End): Detail {
    match end
    case ScanFailed => EngineFailed
    case Finalised(result) => if result.Failed? then EngineFailed else NoDetail
    case Panicked => StoppedUnexpectedly
    case PanickedLate(_) => NoDetail
  }

  /** The ends behind which the view still follows the session's pause. */
  predicate PauseFollows(last: Restore) {
    last.task.Finished? ==>
      match last.task.end
      case ScanFailed => !last.supervised
      case Finalised(_) => !last.supervised
      case Panicked => last.supervised
      case PanickedLate(status) => !last.supervised && status.Complete?
  }

  /** All but the latest restore are over. */
  ghost predicate EarlierSettled(a: App) {
    forall r :: 0 <= r < |a.restores| - 1 ==> a.restores[r].task.Finished? && a.restores[r].supervised
  }

  /** While the latest restore's task lives, the session is its own; afterwards the status is its verdict. */
  ghost predicate LatestSound(s: Session, last: Restore, number: nat) {
    && s.progress.Some?
    && (!last.task.Finished? ==>
          s.progress.value.status.Running? && !last.supervised
          && s.cancelTx == Some(number) && s.pauseTx == Some(number) && (last.pauseSeen ==> s.paused))
    && (last.task.Finished? && !last.task.end.Panicked? ==> s.progress.value.status == Verdict(last.task.end))
    && (last.task.Finished? && last.task.end.Panicked? && !last.supervised ==> s.progress.value.status.Running?)
    && (last.supervised ==> last.task.Finished? && s.progress.value.status == Verdict(last.task.end))
    && s.progress.value.detail ==
         (if last.task.Finished? && (last.task.end.Panicked? ==> last.supervised) then DetailOf(last.task.end) else NoDetail)
    && (PauseFollows(last) ==> s.progress.value.paused == s.paused)
    && (last.task.Finished? && last.task.end.PanickedLate? ==> IsTerminal(last.task.end.status))
  }

  ghost predicate Inv(a: App) {
    && EarlierSettled(a)
    && (a.restores == [] ==> a.session.progress.None?)
    && (a.restores != [] ==> LatestSound(a.session, a.restores[|a.restores| - 1], |a.restores| - 1))
  }

  /** Steps that concern the restore `r` and not the commands. */
  predicate OfRestore(act: Action) {
    !act.Start? && !act.Pause? && !act.Resume? && !act.Cancel?
  }

  predicate EndsTask(act: Action) {
    act.ScanFails? || act.Finalise? || act.Panic? || act.PanicInFinalise? || act.PanicAfterStatus? || act.PanicAfterScan?
  }

  /** The latest restore's task ends. */
  lemma LatestEnds(a: App, act: Action, a': App)
    requires Inv(a) && Step(a, act, a') && EndsTask(act) && act.r == |a.restores| - 1
    ensures Inv(a')
  {
  }

  /** Any other step of the latest restore. */
  lemma LatestGoesOn(a: App, act: Action, a': App)
    requires Inv(a) && Step(a, act, a') && OfRestore(act) && !EndsTask(act) && act.r == |a.restores| - 1
    ensures Inv(a')
  {
  }

  /** An earlier restore has only its progress task left, which writes counters. */
  lemma EarlierStep(a: App, act: Action, a': App)
    requires Inv(a) && Step(a, act, a') && OfRestore(act) && act.r < |a.restores| - 1
    ensures Inv(a')
  {
  }

  lemma CommandStep(a: App, act: Action, a': App)
    requires Inv(a) && Step(a, act, a') && (act.Pause? || act.Resume? || act.Cancel?)
    ensures Inv(a')
  {
  }

  lemma StepInv(a: App, act: Action, a': App)
    requires Inv(a) && Step(a, act, a') && (act.Start? ==> AllSettled(a))
    ensures Inv(a')
  {
    if OfRestore(act) {
      if act.r == |a.restores| - 1 {
        if EndsTask(act) {
          LatestEnds(a, act, a');
        } else {
          LatestGoesOn(a, act, a');
        }
      } else {
        EarlierStep(a, act, a');
      }
    } else if !act.Start? {
      CommandStep(a, act, a');
    }
  }

  lemma {:induction false} RunInv(tr: Trace)
    requires IsRun(tr) && Serial(tr)
    ensures Inv(tr.now)
  {
    if tr.Then? {
      RunInv(tr.before);
      StepInv(tr.before.now, tr.action, tr.now);
    }
  }

  lemma SerialInv(a: App)
    requires SeriallyReachable(a)
    ensures Inv(a)
  {
    var tr :| IsRun(tr) && Serial(tr) && tr.now == a;
    RunInv(tr);
  }

  /**
   * With one restore at a time, the status says what happened: it is terminal
   * exactly when the task is over and, after a panic that came before the task
   * wrote a status, supervised; it is then the verdict of how the task ended.
   * Only such a panic is reported as one: a later one leaves the status written.
   * While the task lives, and where it ended properly until it is supervised, the
   * view shows the session's pause.
   */
  lemma StatusIsVerdict(a: App)
    requires SeriallyReachable(a) && a.restores != []
    ensures var last := a.restores[|a.restores| - 1];
            && (Terminal(a.session) <==> last.task.Finished? && (last.task.end.Panicked? ==> last.supervised))
            && (Terminal(a.session) ==> a.session.progress.value.status == Verdict(last.task.end))
            && a.session.progress.Some?
            && a.session.progress.value.detail == (if Terminal(a.session) then DetailOf(last.task.end) else NoDetail)
            && (PauseFollows(last) ==> a.session.progress.value.paused == a.session.paused)
  {
    SerialInv(a);
  }

  predicate SameStatus(s: Session, s': Session)
    requires s.progress.Some?
  {
    s'.progress.Some? && s'.progress.value.status == s.progress.value.status && s'.progress.value.detail == s.progress.value.detail
  }

  /** Once terminal, the very status stays until the next start. */
  lemma TerminalIsFinal(a: App, act: Action, a': App)
    requires SeriallyReachable(a) && Step(a, act, a') && Terminal(a.session) && !act.Start?
    ensures SameStatus(a.session, a'.session)
  {
    SerialInv(a);
    if OfRestore(act) {
      RestoreKeepsStatus(a, act, a');
    }
  }

  lemma RestoreKeepsStatus(a: App, act: Action, a': App)
    requires Inv(a) && Step(a, act, a') && Terminal(a.session) && OfRestore(act)
    ensures SameStatus(a.session, a'.session)
  {
    assert !EndsTask(act);
  }

  /** While a restore's task lives, a cancellation reaches it and lifts its pause; and it only pauses when the session says so. */
  lemma CancelReachesTheRestore(a: App, a': App)
    requires SeriallyReachable(a) && a.restores != [] && !a.restores[|a.restores| - 1].task.Finished? && Step(a, Cancel, a')
    ensures |a'.restores| == |a.restores|
    ensures a'.restores[|a.restores| - 1].cancelSeen && !a'.restores[|a.restores| - 1].pauseSeen
    ensures a.restores[|a.restores| - 1].pauseSeen ==> a.session.paused
  {
    SerialInv(a);
  }

  /** A pause reaches the live restore and is shown, and a resumption lifts it. */
  lemma PauseReachesTheRestore(a: App, act: Action, a': App)
    requires SeriallyReachable(a) && a.restores != [] && Live(a.restores[|a.restores| - 1])
    requires (act == Pause || act == Resume) && Step(a, act, a')
    ensures |a'.restores| == |a.restores| && Live(a'.restores[|a.restores| - 1])
    ensures a'.restores[|a.restores| - 1].pauseSeen <==> act == Pause
    ensures a'.session.paused <==> act == Pause
    ensures a'.session.progress.Some? && (a'.session.progress.value.paused <==> act == Pause)
    ensures a'.restores[|a.restores| - 1].cancelSeen == a.restores[|a.restores| - 1].cancelSeen
  {
    SerialInv(a);
  }

  /** Progress moves the counter of the view and nothing else, while the restore lives as when it is over. */
  lemma ProgressShows(a: App, r: nat, filesDone: nat, a': App)
    requires SeriallyReachable(a) && Step(a, Progress(r, filesDone), a')
    ensures a.session.progress.Some? && a'.session.progress == Some(a.session.progress.value.(filesDone := filesDone))
    ensures a'.restores == a.restores && a'.session.(progress := a.session.progress) == a.session
  {
    SerialInv(a);
  }

  // ---- when a start is safe -----------------------------------------------------------------------

  /** Every live restore owns the session: both senders are its own and the status is running. */
  ghost predicate Governed(a: App) {
    forall r :: 0 <= r < |a.restores| && Live(a.restores[r]) ==>
      && a.session.cancelTx == Some(r) && a.session.pauseTx == Some(r)
      && a.session.progress.Some? && a.session.progress.value.status.Running?
  }

  /** The latest restore governs while it lives, and the earlier ones are over. */
  ghost predicate LatestGoverns(a: App) {
    && a.restores != [] && EarlierSettled(a)
    && (Live(a.restores[|a.restores| - 1]) ==>
          && a.session.cancelTx == Some(|a.restores| - 1) && a.session.pauseTx == Some(|a.restores| - 1)
          && a.session.progress.Some? && a.session.progress.value.status.Running? && !a.restores[|a.restores| - 1].supervised)
  }

  lemma GovernedStep(a: App, act: Action, a': App)
    requires LatestGoverns(a) && Step(a, act, a') && !act.Start?
    ensures LatestGoverns(a')
  {
    if OfRestore(act) && act.r < |a.restores| - 1 {
      EarlierGoes(a, act, a');
    } else if OfRestore(act) {
      LatestGoes(a, act, a');
    } else {
      CommandGoes(a, act, a');
    }
  }

  lemma CommandGoes(a: App, act: Action, a': App)
    requires LatestGoverns(a) && Step(a, act, a') && (act.Pause? || act.Resume? || act.Cancel?)
    ensures LatestGoverns(a')
  {
  }

  lemma EarlierGoes(a: App, act: Action, a': App)
    requires LatestGoverns(a) && Step(a, act, a') && OfRestore(act) && act.r < |a.restores| - 1
    ensures LatestGoverns(a')
  {
    assert act.Progress? || act.ProgressEnds?;
  }

  lemma LatestGoes(a: App, act: Action, a': App)
    requires LatestGoverns(a) && Step(a, act, a') && OfRestore(act) && act.r == |a.restores| - 1
    ensures LatestGoverns(a')
  {
  }

  lemma {:induction false} FollowingIsGoverned(origin: App, tr: Trace)
    requires Follows(origin, tr) && LatestGoverns(origin)
    ensures LatestGoverns(tr.now)
  {
    if tr.Then? {
      FollowingIsGoverned(origin, tr.before);
      GovernedStep(tr.before.now, tr.action, tr.now);
    }
  }

  /**
   * When a start is safe.  Right after it every live restore is in control of
   * the session exactly when none was live before; and whatever follows before
   * the next start, that stays so exactly when all earlier restores were over
   * and supervised.
   */
  lemma StartIsSafeIff(a: App, a': App)
    requires Step(a, Start, a')
    ensures Governed(a') <==> forall r :: 0 <= r < |a.restores| ==> !Live(a.restores[r])
    ensures (forall tr :: Follows(a', tr) ==> Governed(tr.now)) <==> AllSettled(a)
  {
    assert forall r :: 0 <= r < |a.restores| ==> a'.restores[r] == a.restores[r];
    if AllSettled(a) {
      forall tr | Follows(a', tr) ensures Governed(tr.now) {
        FollowingIsGoverned(a', tr);
      }
    } else {
      var r :| 0 <= r < |a.restores| && !(a.restores[r].task.Finished? && a.restores[r].supervised);
      UnsettledLosesControl(a', r);
    }
  }

  lemma UnsettledLosesControl(a: App, r: nat)
    requires |a.restores| > 0 && r < |a.restores| - 1 && !(a.restores[r].task.Finished? && a.restores[r].supervised)
    requires a.session.cancelTx == Some(|a.restores| - 1) && Live(a.restores[|a.restores| - 1])
    ensures exists tr :: Follows(a, tr) && !Governed(tr.now)
  {
    if Live(a.restores[r]) {
      assert Follows(a, First(a)) && !Governed(First(a).now);
    } else {
      LateSupervisor(a, r);
    }
  }

  /** A supervisor that comes after the next start takes the session from the new restore. */
  lemma LateSupervisor(a: App, r: nat)
    requires r < |a.restores| - 1 && a.restores[r].task.Finished? && !a.restores[r].supervised
    requires Live(a.restores[|a.restores| - 1])
    ensures exists tr :: Follows(a, tr) && !Governed(tr.now)
  {
    var a' := App(SupervisedSession(a.session, IsPanic(a.restores[r].task.end)), a.restores[r := a.restores[r].(supervised := true)]);
    assert Step(a, Supervise(r), a');
    var tr := Then(First(a), Supervise(r), a');
    assert Follows(a, First(a)) && Follows(a, tr);
    assert Live(a'.restores[|a.restores| - 1]) && a'.session.cancelTx.None?;
  }

  // ---- overlapping restores ---------------------------------------------------------------------

  lemma After(a: App, act: Action, a': App) returns (next: App)
    requires Reachable(a) && Step(a, act, a')
    ensures next == a' && Reachable(next)
  {
    next := a';
    var tr :| IsRun(tr) && tr.now == a;
    assert IsRun(Then(tr, act, a'));
  }

  /** The session a start leaves, for the restore with the given number. */
  function Started(number: nat): Session {
    Session(Some(View(Running, 0, NoDetail, false)), Some(number), Some(number), false)
  }

  const SCANNING := Restore(Scanning, false, false, false, false)

  const IN_ENGINE := Restore(Engine, true, false, false, false)

  /** A start, and the scan of packs behind it. */
  lemma StartsAndScans(a: App) returns (next: App)
    requires Reachable(a)
    ensures Reachable(next) && next == App(Started(|a.restores|), a.restores + [IN_ENGINE])
  {
    var r := |a.restores|;
    next := After(a, Start, App(Started(r), a.restores + [SCANNING]));
    assert (a.restores + [SCANNING])[r := IN_ENGINE] == a.restores + [IN_ENGINE];
    next := After(next, ScanSucceeds(r), next.(restores := a.restores + [IN_ENGINE]));
  }

  lemma TwoStarts() returns (a: App)
    ensures Reachable(a) && |a.restores| == 2 && a.restores[0] == IN_ENGINE && a.restores[1] == IN_ENGINE
  {
    assert IsRun(First(IDLE));
    a := StartsAndScans(IDLE);
    a := StartsAndScans(a);
  }

  /** A restore's task ends well. */
  lemma Completes(a: App, r: nat) returns (next: App)
    requires Reachable(a) && r < |a.restores| && a.restores[r].task.Engine?
    ensures Reachable(next) && next.session == FinalSession(a.session, Restored)
    ensures next.session.progress.Some? && next.session.progress.value.status.Complete? && next.session.cancelTx.None?
    ensures |next.restores| == |a.restores| && forall v :: 0 <= v < |a.restores| && v != r ==> next.restores[v] == a.restores[v]
  {
    var returned := SetTask(a, r, Returned(Restored));
    next := After(a, Return(r, Restored), returned);
    next := After(next, Finalise(r), SetTask(returned, r, Finished(Finalised(Restored))).(session := FinalSession(a.session, Restored)));
    FinaliseShows(returned, r, next);
  }

  lemma CancelWithoutSenders(a: App, a': App)
    requires a.session.cancelTx.None? && a.session.pauseTx.None? && Step(a, Cancel, a')
    ensures a'.restores == a.restores
  {
  }

  /**
   * Nothing stops a second start while a restore runs.  The first one's end
   * then reports success and drops the second one's senders: the status is
   * terminal while a restore is running, and a cancellation no longer reaches it.
   */
  lemma OverlapLosesControl() returns (a: App)
    ensures Reachable(a) && Terminal(a.session) && |a.restores| == 2 && a.restores[1].task.Engine?
    ensures a.session.progress.value.status.Complete?
    ensures forall a' :: Step(a, Cancel, a') ==> a'.restores == a.restores && !a.restores[1].cancelSeen
  {
    a := TwoStarts();
    a := Completes(a, 0);
    forall a' | Step(a, Cancel, a') ensures a'.restores == a.restores {
      CancelWithoutSenders(a, a');
    }
  }

  const FAILED := Restore(Finished(ScanFailed), false, false, false, false)

  lemma FailsScan(a: App, number: nat) returns (next: App)
    requires Reachable(a) && number < |a.restores| && a.restores[number] == SCANNING && a.session == Started(number)
    ensures Reachable(next) && next.restores == a.restores[number := FAILED]
  {
    var v := Started(number).progress.value.(status := Error, detail := EngineFailed);
    next := SetTask(a, number, Finished(ScanFailed)).(session := a.session.(progress := Some(v)));
    next := After(a, ScanFails(number), next);
  }

  /** A first restore whose scan failed, before its supervisor has come. */
  lemma ScanFailsFirst() returns (a: App)
    ensures Reachable(a) && a.restores == [FAILED]
  {
    assert IsRun(First(IDLE));
    a := After(IDLE, Start, App(Started(0), [SCANNING]));
    a := FailsScan(a, 0);
  }

  lemma SupervisesLate(a: App) returns (next: App)
    requires Reachable(a) && |a.restores| == 2 && a.restores[0] == FAILED && a.session == Started(1)
    ensures Reachable(next) && |next.restores| == 2 && next.restores[1] == a.restores[1]
    ensures next.session == SupervisedSession(Started(1), false)
  {
    next := App(SupervisedSession(a.session, false), a.restores[0 := a.restores[0].(supervised := true)]);
    next := After(a, Supervise(0), next);
  }

  /** The race behind it: the scan fails, a new start comes before the supervisor, and the new restore is declared failed. */
  lemma LateSupervisorEndsTheNext() returns (a: App)
    ensures Reachable(a) && |a.restores| == 2 && a.restores[1].task.Engine?
    ensures a.session.progress.Some? && a.session.progress.value.status.Error?
    ensures a.session.progress.value.detail.NoResultReported? && a.session.cancelTx.None?
  {
    a := ScanFailsFirst();
    a := StartsAndScans(a);
    a := SupervisesLate(a);
  }

  /** The panic that goes unreported: it comes after the task has written that it is complete, and the supervisor leaves that. */
  lemma PanicBehindSuccess() returns (a: App)
    ensures Reachable(a) && |a.restores| == 1 && a.restores[0].supervised
    ensures a.restores[0].task.Finished? && IsPanic(a.restores[0].task.end)
    ensures a.session.progress.Some? && a.session.progress.value.status.Complete? && a.session.progress.value.detail.NoDetail?
  {
    assert IsRun(First(IDLE));
    a := StartsAndScans(IDLE);
    a := After(a, Return(0, Restored), SetTask(a, 0, Returned(Restored)));
    a := After(a, PanicAfterStatus(0), SetTask(a, 0, Finished(PanickedLate(Complete))).(session := BrokenSession(a.session, Restored)));
    a := After(a, Supervise(0), App(SupervisedSession(a.session, true), a.restores[0 := a.restores[0].(supervised := true)]));
  }
}
