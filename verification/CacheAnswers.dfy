/**
 * What a request of the shared cache is answered: a failure only ever of its own
 * download, and the stored bytes otherwise, whether the pack was there at once
 * or after waiting for another worker.
 */
module CacheAnswers {
  import opened Basics
  import opened PackCache
  import opened SingleFlight

  // ---- the answers of one request ------------------------------------------------------------

  /** In its current request the worker downloaded the pack and was given this answer. */
  ghost predicate Downloaded(tr: Trace, w: nat, answer: Result<Bytes, string>) {
    tr.Then? && !(tr.action.Begin? && tr.action.w == w) && (tr.action == Return(w, answer) || Downloaded(tr.before, w, answer))
  }

  ghost predicate Answered(tr: Trace, w: nat)
    requires w < |tr.now.workers|
  {
    var pc := tr.now.workers[w];
    && (pc.Returned? ==> Downloaded(tr, w, pc.answer))
    && (pc.Done? && pc.answer.Err? ==> Downloaded(tr, w, pc.answer))
    && (forall answer :: Downloaded(tr, w, answer) ==> (pc.Returned? || pc.Done?) && pc.answer == answer)
  }

  lemma StepAnswered(store: Store, tr: Trace, w: nat)
    requires tr.Then? && Step(store, tr.before.now, tr.action, tr.now) && w < |tr.now.workers|
    requires w < |tr.before.now.workers| ==> Answered(tr.before, w)
    ensures Answered(tr, w)
  {
    var s, a, s' := tr.before.now, tr.action, tr.now;
    assert |s'.workers| == |s.workers|;
    if a.w != w {
      assert s'.workers[w] == s.workers[w] || s'.workers[w].Start?;
    }
  }

  lemma {:induction false} RunAnswered(store: Store, tr: Trace, w: nat)
    requires IsRun(store, tr) && (forall v :: 0 <= v < |Origin(tr).workers| ==> Origin(tr).workers[v].Idle?) && w < |tr.now.workers|
    ensures |tr.now.workers| == |Origin(tr).workers| && Answered(tr, w)
  {
    if tr.Then? {
      RunWorkers(store, tr);
      RunWorkers(store, tr.before);
      RunAnswered(store, tr.before, w);
      StepAnswered(store, tr, w);
    }
  }

  lemma {:induction false} RunWorkers(store: Store, tr: Trace)
    requires IsRun(store, tr)
    ensures |tr.now.workers| == |Origin(tr).workers|
  {
    if tr.Then? {
      RunWorkers(store, tr.before);
      StepWorkers(store, tr.before.now, tr.action, tr.now);
    }
  }

  lemma StepWorkers(store: Store, s: System, a: Action, s': System)
    requires Step(store, s, a, s')
    ensures |s'.workers| == |s.workers|
  {
  }

  /** A run from the start, with any number of workers and any capacity. */
  ghost predicate FromStart(store: Store, tr: Trace) {
    IsRun(store, tr) && exists workers: nat, maxBytes: nat :: Origin(tr) == Initial(workers, maxBytes)
  }

  /**
   * A request that downloaded is given what its download returned, error or
   * bytes; every other one, served from the cache at once or after waiting, is
   * given the stored bytes, and so never fails.
   */
  lemma RequestAnswered(store: Store, tr: Trace, w: nat)
    requires FromStart(store, tr) && w < |tr.now.workers| && tr.now.workers[w].Done?
    ensures var pc := tr.now.workers[w];
            && (forall answer :: Downloaded(tr, w, answer) ==> pc.answer == answer)
            && (pc.answer.Err? ==> Downloaded(tr, w, pc.answer))
            && ((forall answer :: !Downloaded(tr, w, answer)) ==> pc.path in store && pc.answer == Ok(store[pc.path]))
  {
    var workers: nat, maxBytes: nat :| Origin(tr) == Initial(workers, maxBytes);
    RunAnswered(store, tr, w);
    assert Reachable(store, tr.now);
    AnswersAreStoredBytes(store, tr.now, w, tr.now.workers[w].path);
  }

  // ---- downloads ----------------------------------------------------------------------------------

  /** How many downloads of a run were committed with their bytes. */
  ghost function Commits(tr: Trace): nat {
    if tr.First? then 0 else Commits(tr.before) + (if CommitsBytes(tr.before.now, tr.action) then 1 else 0)
  }

  predicate CommitsBytes(s: System, a: Action) {
    a.Commit? && a.w < |s.workers| && s.workers[a.w].Returned? && s.workers[a.w].answer.Ok?
  }

  /** A pack counts as downloaded for each committed download, and for nothing else. */
  lemma {:induction false} DownloadsAreCommits(store: Store, tr: Trace)
    requires IsRun(store, tr)
    ensures tr.now.downloaded == Origin(tr).downloaded + Commits(tr)
  {
    if tr.Then? {
      DownloadsAreCommits(store, tr.before);
    }
  }

  /** A lookup of a pack that is there ends the request with the stored bytes, and downloads nothing. */
  lemma HitAnswers(store: Store, s: System, w: nat, s': System)
    requires Reachable(store, s) && w < |s.workers| && s.workers[w].Start? && IsReady(s.cache.entries, s.workers[w].path)
    requires Step(store, s, Lookup(w), s')
    ensures w < |s'.workers| && s.workers[w].path in store
    ensures s'.workers[w] == Done(s.workers[w].path, Ok(store[s.workers[w].path]))
    ensures s'.downloaded == s.downloaded && s'.inFlight == s.inFlight && s'.fetched == s.fetched
    ensures forall p :: IsReady(s'.cache.entries, p) <==> IsReady(s.cache.entries, p)
  {
    AnswersAreStoredBytes(store, s, w, s.workers[w].path);
  }

  // ---- waiting ------------------------------------------------------------------------------------

  predicate SameTicket(pc: Pc, other: Pc) {
    HoldsTicket(pc) && HoldsTicket(other) && pc.ticket == other.ticket
  }

  /** A ticket names one pack: who waits on it waits for what its owner downloads. */
  ghost predicate TicketsName(s: System) {
    forall v, w :: 0 <= v < |s.workers| && 0 <= w < |s.workers| && Owner(s.workers[v]) && SameTicket(s.workers[v], s.workers[w]) ==>
      s.workers[v].path == s.workers[w].path
  }

  ghost predicate TicketKept(s: System, s': System, v: nat)
    requires v < |s.workers| == |s'.workers|
  {
    && SameTicket(s.workers[v], s'.workers[v]) && s.workers[v].path == s'.workers[v].path
    && (Owner(s'.workers[v]) ==> Owner(s.workers[v]))
  }

  /** It is that of the worker that downloads the pack. */
  ghost predicate TicketLent(s: System, pc: Pc) {
    !Owner(pc) && exists u :: 0 <= u < |s.workers| && Owner(s.workers[u]) && SameTicket(s.workers[u], pc) && s.workers[u].path == pc.path
  }

  /** Where a ticket comes from: held before, fresh, or found in the slot. */
  lemma TicketOrigin(store: Store, s: System, a: Action, s': System, v: nat)
    requires OwnersSound(s) && Step(store, s, a, s') && v < |s'.workers| && HoldsTicket(s'.workers[v])
    ensures |s'.workers| == |s.workers|
    ensures TicketKept(s, s', v) || (v == a.w && s'.workers[v].ticket == s.nextTicket) || TicketLent(s, s'.workers[v])
  {
    var pc := s.workers[a.w];
    if v == a.w && a.Lookup? && pc.path in s.cache.entries {
      var u :| 0 <= u < |s.workers| && Owner(s.workers[u]) && s.workers[u].path == pc.path;
      assert SameTicket(s.workers[u], s'.workers[v]);
    }
  }

  lemma StepTickets(store: Store, s: System, a: Action, s': System)
    requires OwnersSound(s) && TicketsName(s) && Step(store, s, a, s')
    ensures TicketsName(s')
  {
    forall v, w | 0 <= v < |s'.workers| && 0 <= w < |s'.workers| && Owner(s'.workers[v]) && SameTicket(s'.workers[v], s'.workers[w])
      ensures s'.workers[v].path == s'.workers[w].path {
      TicketOrigin(store, s, a, s', v);
      TicketOrigin(store, s, a, s', w);
    }
  }

  lemma {:induction false} RunTickets(store: Store, tr: Trace)
    requires IsRun(store, tr) && Inv(store, Origin(tr)) && TicketsName(Origin(tr))
    ensures TicketsName(tr.now)
  {
    if tr.Then? {
      RunTickets(store, tr.before);
      RunInv(store, tr.before);
      StepTickets(store, tr.before.now, tr.action, tr.now);
    }
  }

  lemma ReachableTickets(store: Store, s: System)
    requires Reachable(store, s)
    ensures TicketsName(s)
  {
    var tr, workers: nat, maxBytes: nat :| IsRun(store, tr) && Origin(tr) == Initial(workers, maxBytes) && tr.now == s;
    InitialInv(store, workers, maxBytes);
    RunTickets(store, tr);
  }

  /**
   * Waiting pays: when the download a worker waits for is committed with its
   * bytes, that worker looks its pack up again and the pack is there.
   */
  lemma WokenFindsThePack(store: Store, s: System, v: nat, evictions: nat, s': System, w: nat)
    requires Reachable(store, s) && Step(store, s, Commit(v, evictions), s')
    requires v < |s.workers| && w < |s.workers| && s.workers[v].Returned? && s.workers[v].answer.Ok?
    requires s.workers[w].Waiting? && s.workers[w].ticket == s.workers[v].ticket
    ensures w < |s'.workers| && s'.workers[w] == Start(s.workers[w].path)
    ensures IsReady(s'.cache.entries, s.workers[w].path)
  {
    ReachableInv(store, s);
    ReachableTickets(store, s);
    assert SameTicket(s.workers[v], s.workers[w]);
    CommitSlots(s, v, evictions, s');
  }
}
