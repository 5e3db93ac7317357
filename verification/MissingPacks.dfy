/**
 * Packs that storage does not hold, from the worker that finds one missing to
 * the result of the run: which errors count as skips, and that those alone never
 * make a run fail.
 */
module MissingPacks {
  import opened Basics
  import opened RestoreRun
  import opened RestoreRunSafety
  import opened RestoreRunResults
  import ChunkFetch
  import RestoreFile
  import Reconstruct
  import PackObject

  // ---- what an error names ------------------------------------------------------------------

  predicate OccursAt(text: string, part: string, i: nat) {
    i + |part| <= |text| && text[i..i + |part|] == part
  }

  lemma OccursLater(text: string, part: string, i: nat)
    requires i < |text|
    ensures OccursAt(text, part, i + 1) <==> OccursAt(text[1..], part, i)
  {
    if i + 1 + |part| <= |text| {
      assert text[i + 1..i + 1 + |part|] == text[1..][i..i + |part|];
    }
  }

  lemma OccursFirst(text: string, part: string)
    ensures OccursAt(text, part, 0) <==> part <= text
  {
  }

  /** The search finds a part wherever it stands in the text. */
  lemma {:induction false} ContainsIff(text: string, part: string)
    ensures Contains(text, part) <==> exists i: nat :: OccursAt(text, part, i)
  {
    OccursFirst(text, part);
    if text != [] {
      ContainsIff(text[1..], part);
      if i: nat :| OccursAt(text[1..], part, i) {
        OccursLater(text, part, i);
      }
      if i: nat :| OccursAt(text, part, i) {
        if i > 0 {
          OccursLater(text, part, i - 1);
        }
      }
    }
  }

  /** The message of an error names one of the packs, wherever it stands. */
  ghost predicate NamesPack(e: RestoreError, packs: set<string>) {
    e.StorageError? && exists before, pack, after :: pack in packs && e.msg == before + pack + after
  }

  lemma MentionsIff(e: RestoreError, packs: set<string>)
    ensures Mentions(e, packs) <==> NamesPack(e, packs)
  {
    if Mentions(e, packs) {
      var pack :| pack in packs && Contains(e.msg, pack);
      ContainsIff(e.msg, pack);
      var i: nat :| OccursAt(e.msg, pack, i);
      var before, after := e.msg[..i], e.msg[i + |pack|..];
      assert e.msg == before + pack + after;
    }
    if NamesPack(e, packs) {
      var before, pack, after :| pack in packs && e.msg == before + pack + after;
      assert e.msg[|before|..|before| + |pack|] == pack;
      assert OccursAt(e.msg, pack, |before|);
      ContainsIff(e.msg, pack);
    }
  }

  // ---- every failure is listed, or named a missing pack ------------------------------------------

  /** The error of each joined failure is kept, unless the reclassification took it. */
  ghost predicate FailuresListed(s: State) {
    forall w :: 0 <= w < |s.status| && JoinedFailure(s.status[w]) ==>
      s.status[w].outcome.error in s.errors
      || (s.phase.Over? && !s.phase.result.CancelledRun? && Mentions(s.status[w].outcome.error, s.missing))
  }

  lemma StepListed(c: Config, s: State, a: Action, s': State)
    requires PhaseSound(c, s) && FailuresListed(s) && Step(c, s, a, s')
    ensures FailuresListed(s')
  {
    if a.Complete? {
      KeptContent(s.errors, s.missing);
    } else if s'.phase.Over? {
      ExitKeepsErrors(c, s, a, s');
    } else {
      StepShape(c, s, a, s');
    }
  }

  lemma ExitKeepsErrors(c: Config, s: State, a: Action, s': State)
    requires PhaseSound(c, s) && Step(c, s, a, s') && !a.Complete? && s'.phase.Over?
    ensures s'.status == s.status && s'.errors == s.errors
  {
    if a.Process? && !s.paused {
      ProcessMoves(c, s, s.phase.w);
    }
  }

  lemma {:induction false} RunListed(c: Config, tr: Trace)
    requires DistinctNames(c) && IsRun(c, tr) && Inv(c, Origin(tr)) && FailuresListed(Origin(tr))
    ensures FailuresListed(tr.now)
  {
    if tr.Then? {
      RunListed(c, tr.before);
      RunInv(c, tr.before);
      StepListed(c, tr.before.now, tr.action, tr.now);
    }
  }

  lemma ReachableListed(c: Config, s: State)
    requires DistinctNames(c) && Reachable(c, s)
    ensures FailuresListed(s)
  {
    var tr :| IsRun(c, tr) && Origin(tr) == Initial(c) && tr.now == s;
    InitialInv(c);
    RunListed(c, tr);
  }

  // ---- the result -----------------------------------------------------------------------------------

  /** The message of a file left out because a pack it needs was already known to be missing. */
  ghost predicate SaysSkipped(e: RestoreError) {
    e.StorageError? && exists rest :: e.msg == "[skipped:missing-pack] " + rest
  }

  lemma SkipIff(e: RestoreError)
    ensures IsSkip(e) <==> SaysSkipped(e)
  {
    if IsSkip(e) {
      assert e.msg == "[skipped:missing-pack] " + e.msg[|SKIPPED_PREFIX|..];
    }
  }

  /** A worker was joined with an error that is no cancellation, no skip, and names no pack known to be missing. */
  ghost predicate RealFailure(s: State, w: nat) {
    && w < |s.status| && s.status[w].Joined? && s.status[w].outcome.Failed?
    && !s.status[w].outcome.error.CancelledError? && !SaysSkipped(s.status[w].outcome.error)
    && !NamesPack(s.status[w].outcome.error, s.missing)
  }

  lemma RealIsJoined(s: State, w: nat)
    ensures RealFailure(s, w) <==> w < |s.status| && JoinedFailure(s.status[w]) && !NamesPack(s.status[w].outcome.error, s.missing)
  {
    if w < |s.status| && s.status[w].Joined? && s.status[w].outcome.Failed? {
      SkipIff(s.status[w].outcome.error);
    }
  }

  ghost predicate AnyRealFailure(s: State) {
    exists w: nat :: RealFailure(s, w)
  }

  ghost predicate IsRealError(s: State, e: RestoreError) {
    exists w: nat :: RealFailure(s, w) && s.status[w].outcome.error == e
  }

  /** Joined workers that were skipped or failed. */
  function Troubles(s: State): nat {
    Total(Ones(|s.status|), s.status, JoinedFailure) + Total(Ones(|s.status|), s.status, JoinedSkip)
  }

  lemma KeptAreReal(s: State, e: RestoreError)
    requires FailuresListed(s) && ErrorsAreReal(s) && (forall e :: e in s.errors ==> !Mentions(e, s.missing))
    ensures e in s.errors <==> IsRealError(s, e)
  {
    MentionsIff(e, s.missing);
    if e in s.errors {
      var w: nat :| w < |s.status| && JoinedFailure(s.status[w]) && s.status[w].outcome.error == e;
      RealIsJoined(s, w);
    }
    if IsRealError(s, e) {
      var w: nat :| RealFailure(s, w) && s.status[w].outcome.error == e;
      RealIsJoined(s, w);
    }
  }

  lemma KeptIffReal(s: State)
    requires FailuresListed(s) && ErrorsAreReal(s) && (forall e :: e in s.errors ==> !Mentions(e, s.missing))
    ensures s.errors != [] <==> AnyRealFailure(s)
    ensures forall e :: e in s.errors <==> IsRealError(s, e)
  {
    forall e ensures e in s.errors <==> IsRealError(s, e) {
      KeptAreReal(s, e);
    }
    if s.errors != [] {
      assert IsRealError(s, s.errors[0]);
    }
    if AnyRealFailure(s) {
      var w: nat :| RealFailure(s, w);
      assert IsRealError(s, s.status[w].outcome.error);
    }
  }

  /**
   * The result of a run that was not cancelled: it fails, with the checkpoint
   * kept, exactly when some worker failed for another reason than a missing pack,
   * and then with those errors; otherwise the checkpoint is cleared and every
   * failed or skipped file is counted as skipped.
   */
  lemma FailsIff(c: Config, s: State)
    requires DistinctNames(c) && Reachable(c, s) && s.phase.Over? && !s.phase.result.CancelledRun?
    ensures s.phase.result.FailedRun? <==> AnyRealFailure(s)
    ensures s.phase.result.FailedRun? ==> forall e :: e in s.phase.result.errors <==> IsRealError(s, e)
    ensures s.cleared <==> !AnyRealFailure(s)
    ensures !s.phase.result.FailedRun? ==>
              s.phase.result == if Troubles(s) == 0 then AllRestored else Incomplete(Troubles(s))
  {
    ReachableInv(c, s);
    ReachableListed(c, s);
    assert RanToTheEnd(c, s);
    KeptIffReal(s);
  }

  /** The run to it: one file whose pack is missing, whatever the backend writes around the name. */
  lemma MissingPackRun(c: Config, before: string, pack: string, after: string) returns (s: State)
    requires |c.tasks| == 1 && c.tasks[0].dest.Some? && c.tasks[0].name !in c.resumed
    ensures Reachable(c, s) && s.phase == Over(Incomplete(1)) && s.cleared && s.errors == []
  {
    var e := StorageError(before + pack + after);
    s := FailsOnly(c, e, pack);
    s := After(c, s, Complete, Concluded(s));
    assert NamesPack(e, s.missing);
    assert !AnyRealFailure(s);
    FailsIff(c, s);
    OneTrouble(s);
  }

  /** The only worker fails, having found a pack missing, and is joined. */
  lemma FailsOnly(c: Config, e: RestoreError, pack: string) returns (s: State)
    requires |c.tasks| == 1 && c.tasks[0].dest.Some? && c.tasks[0].name !in c.resumed && e.StorageError?
    ensures Reachable(c, s) && s.phase == DrainHead && s.missing == {pack} && s.checkpointPending == 0
    ensures s.status == [Joined(Failed(e), true)]
  {
    s := Start(c);
    s := SpawnsNext(c, s);
    s := After(c, s, WorkerEnd(0, Failed(e), {pack}), Ended(c, s, 0, Failed(e), {pack}));
    s := After(c, s, CheckSpawn, s.(phase := DrainHead));
    s := Drains(c, s, 0);
  }

  lemma OneTrouble(s: State)
    requires |s.status| == 1 && (JoinedFailure(s.status[0]) || JoinedSkip(s.status[0]))
    ensures Troubles(s) == 1
  {
    OneTotal(s.status, JoinedFailure);
    OneTotal(s.status, JoinedSkip);
  }

  lemma OneTotal(status: seq<Status>, p: Status -> bool)
    requires |status| == 1
    ensures Total(Ones(1), status, p) == if p(status[0]) then 1 else 0
  {
    assert status[1..] == [];
    TotalNone(Ones(1)[1..], status[1..], p);
  }

  // ---- from the worker to the result -----------------------------------------------------------------

  /** How a worker's error shows in the run: an absent object by its name, with whatever the backend writes around it. */
  ghost predicate ReportedAs(e: ChunkFetch.FetchError, r: RestoreError) {
    match e
    case SkippedPack(pack) => r == StorageError(SKIPPED_PREFIX + "pack " + pack + " unavailable")
    case NoObject(path) => NamesPack(r, {path})
    case Cancelled => r.CancelledError?
    case _ => !r.CancelledError?
  }

  /**
   * A file that cannot be restored because its pack is not there is counted as
   * skipped, by its own error or by the reclassification, and so never makes the
   * run fail; only a chunk's own absent object does.
   */
  lemma AbsentPackIsSkipped(src: RestoreFile.Sources, refs: seq<Reconstruct.ChunkRef>, io: RestoreFile.Io, prior: Option<Bytes>,
                            missing: set<string>, sparse: bool, e: ChunkFetch.FetchError, r: RestoreError)
    requires src.worker && |io.moments| == |Reconstruct.SortByOffset(refs)| && ReportedAs(e, r)
    requires RestoreFile.Restored(src, refs, io, prior, missing, sparse).error == Some(e)
    ensures e.SkippedPack? ==> IsSkip(r)
    ensures e.NoObject? && !RestoreFile.OwnObject(src, Reconstruct.SortByOffset(refs), e.path) ==>
              NamesPack(r, RestoreFile.Restored(src, refs, io, prior, missing, sparse).missing)
  {
    if e.NoObject? {
      RestoreFile.MissingIsRecorded(src, Reconstruct.SortByOffset(refs), io.moments, missing, Reconstruct.EMPTY_FILE, sparse, e.path);
      var before, pack, after :| pack in {e.path} && r.msg == before + pack + after;
    }
  }
}
