/**
 * `get_or_download_pack` run by any number of file workers over one shared
 * cache: a step per locked section or await point, every interleaving.
 *
 * A lookup that misses installs a `Pending` slot under a fresh ticket (the
 * `Notify` of that download) and its worker becomes the slot's owner; a lookup
 * that finds a `Pending` slot leaves with the ticket and only registers for the
 * notification in a later step, as the code does after dropping the lock.
 */
module SingleFlight {
  import opened Basics
  import opened PackCache

  type Store = map<string, Bytes>

  datatype Pc =
    | Idle
    | Start(path: string)
    | Claimed(path: string, ticket: nat)
    | Fetching(path: string, ticket: nat)
    | Returned(path: string, ticket: nat, answer: Result<Bytes, string>)
    | Leaving(path: string, ticket: nat)
    | Waiting(path: string, ticket: nat)
    | Done(path: string, answer: Result<Bytes, string>)

  /**
   * `inFlight` and `downloaded` are the two progress counters; `fetched`,
   * `evicted` and `log` are history: packs downloaded, packs evicted, accesses.
   */
  datatype System = System(
    cache: Cache, workers: seq<Pc>, nextTicket: nat, inFlight: nat, downloaded: nat,
    log: seq<string>, fetched: multiset<string>, evicted: multiset<string>)

  datatype Action =
    | Begin(w: nat, path: string)
    | Lookup(w: nat)
    | CountIn(w: nat)
    | Return(w: nat, answer: Result<Bytes, string>)
    | Commit(w: nat, evictions: nat)
    | Register(w: nat)

  predicate Owner(pc: Pc) {
    pc.Claimed? || pc.Fetching? || pc.Returned?
  }

  predicate HoldsTicket(pc: Pc) {
    Owner(pc) || pc.Leaving? || pc.Waiting?
  }

  function CountFetching(ws: seq<Pc>): nat {
    if ws == [] then 0 else (if ws[0].Fetching? then 1 else 0) + CountFetching(ws[1..])
  }

  /** `notify_waiters` on one ticket: every registered waiter re-enters the loop. */
  function Wake(ws: seq<Pc>, ticket: nat): seq<Pc> {
    seq(|ws|, i requires 0 <= i < |ws| =>
      if ws[i].Waiting? && ws[i].ticket == ticket then Start(ws[i].path) else ws[i])
  }

  function Initial(workers: nat, maxBytes: nat): System {
    System(Cache(map[], 0, maxBytes, []), seq(workers, _ => Idle), 0, 0, 0, [], multiset{}, multiset{})
  }

  /** What the storage backend may answer: the object's bytes, or any error. */
  predicate Truthful(store: Store, path: string, answer: Result<Bytes, string>) {
    answer.Ok? ==> path in store && answer.value == store[path]
  }

  ghost predicate Step(store: Store, s: System, a: Action, s': System) {
    && a.w < |s.workers|
    && var pc := s.workers[a.w];
       match a
       case Begin(w, path) =>
         (pc.Idle? || pc.Done?) && s' == s.(workers := s.workers[w := Start(path)])
       case Lookup(w) =>
         pc.Start? &&
         if IsReady(s.cache.entries, pc.path) then
           s' == s.(cache := Promoted(s.cache, pc.path), log := s.log + [pc.path],
                    workers := s.workers[w := Done(pc.path, Ok(s.cache.entries[pc.path].data))])
         else if pc.path in s.cache.entries then
           s' == s.(workers := s.workers[w := Leaving(pc.path, s.cache.entries[pc.path].ticket)])
         else
           s' == s.(cache := WithPending(s.cache, pc.path, s.nextTicket), nextTicket := s.nextTicket + 1,
                    workers := s.workers[w := Claimed(pc.path, s.nextTicket)])
       case CountIn(w) =>
         pc.Claimed? &&
         s' == s.(workers := s.workers[w := Fetching(pc.path, pc.ticket)], inFlight := s.inFlight + 1)
       case Return(w, answer) =>
         pc.Fetching? && Truthful(store, pc.path, answer) &&
         s' == s.(workers := s.workers[w := Returned(pc.path, pc.ticket, answer)],
                  inFlight := SaturatingSub(s.inFlight, 1))
       case Commit(w, evictions) =>
         pc.Returned? &&
         s'.workers == Wake(s.workers, pc.ticket)[w := Done(pc.path, pc.answer)] &&
         s'.nextTicket == s.nextTicket && s'.inFlight == s.inFlight &&
         if pc.answer.Ok? then
           && Inserts(s.cache, pc.path, pc.answer.value, evictions, s'.cache)
           && s'.downloaded == s.downloaded + 1 && s'.log == s.log + [pc.path]
           && s'.fetched == s.fetched + multiset{pc.path}
           && s'.evicted == s.evicted + multiset(Without(s.cache.lru, pc.path)[..evictions])
         else
           && s'.cache == Dropped(s.cache, pc.path)
           && s'.downloaded == s.downloaded && s'.log == s.log
           && s'.fetched == s.fetched && s'.evicted == s.evicted
       case Register(w) =>
         pc.Leaving? && s' == s.(workers := s.workers[w := Waiting(pc.path, pc.ticket)])
  }

  // ---- the invariant ---------------------------------------------------------

  ghost predicate CacheSound(s: System) {
    Valid(s.cache) && ByRecency(s.log, s.cache.lru)
  }

  /** Owners and `Pending` slots correspond one to one. */
  ghost predicate OwnersSound(s: System) {
    && (forall w :: 0 <= w < |s.workers| && Owner(s.workers[w]) ==>
          s.workers[w].path in s.cache.entries &&
          s.cache.entries[s.workers[w].path] == Pending(s.workers[w].ticket))
    && (forall w :: 0 <= w < |s.workers| && HoldsTicket(s.workers[w]) ==> s.workers[w].ticket < s.nextTicket)
    && (forall v, w :: 0 <= v < w < |s.workers| && Owner(s.workers[v]) && Owner(s.workers[w]) ==>
          s.workers[v].ticket != s.workers[w].ticket)
    && (forall p :: p in s.cache.entries && s.cache.entries[p].Pending? ==>
          exists w :: 0 <= w < |s.workers| && Owner(s.workers[w]) && s.workers[w].path == p)
  }

  /** Nothing but the stored bytes is ever cached or returned. */
  ghost predicate DataSound(store: Store, s: System) {
    && (forall p :: IsReady(s.cache.entries, p) ==> p in store && s.cache.entries[p].data == store[p])
    && (forall w :: 0 <= w < |s.workers| && (s.workers[w].Returned? || s.workers[w].Done?) ==>
          Truthful(store, s.workers[w].path, s.workers[w].answer))
  }

  ghost predicate CountsSound(s: System) {
    && s.inFlight == CountFetching(s.workers)
    && s.downloaded == |s.fetched|
    && s.fetched == multiset(s.cache.lru) + s.evicted
  }

  ghost predicate Inv(store: Store, s: System) {
    CacheSound(s) && OwnersSound(s) && DataSound(store, s) && CountsSound(s)
  }

  lemma {:induction false} NoneFetching(n: nat)
    ensures CountFetching(seq(n, _ => Idle)) == 0
  {
    if n > 0 {
      NoneFetching(n - 1);
      assert seq(n, _ => Idle)[1..] == seq(n - 1, _ => Idle);
    }
  }

  lemma InitialInv(store: Store, workers: nat, maxBytes: nat)
    ensures Inv(store, Initial(workers, maxBytes))
  {
    NoneFetching(workers);
  }

  lemma {:induction false} CountUpdate(ws: seq<Pc>, w: nat, pc: Pc)
    requires w < |ws|
    ensures CountFetching(ws[w := pc]) ==
            CountFetching(ws) - (if ws[w].Fetching? then 1 else 0) + (if pc.Fetching? then 1 else 0)
  {
    if w == 0 {
      assert ws[w := pc][1..] == ws[1..];
    } else {
      CountUpdate(ws[1..], w - 1, pc);
      assert ws[w := pc][1..] == ws[1..][w - 1 := pc];
    }
  }

  lemma {:induction false} CountWake(ws: seq<Pc>, ticket: nat)
    ensures CountFetching(Wake(ws, ticket)) == CountFetching(ws)
  {
    if ws != [] {
      CountWake(ws[1..], ticket);
      assert Wake(ws, ticket)[1..] == Wake(ws[1..], ticket);
    }
  }

  lemma StepCache(store: Store, s: System, a: Action, s': System)
    requires Inv(store, s) && Step(store, s, a, s')
    ensures CacheSound(s')
  {
    var pc := s.workers[a.w];
    match a
    case Begin(_, _) =>
    case Lookup(_) =>
      if IsReady(s.cache.entries, pc.path) {
        PromotedIsValid(s.cache, pc.path);
        PromotedByRecency(s.cache, s.log, pc.path);
      } else if pc.path !in s.cache.entries {
        PendingIsValidIff(s.cache, pc.path, s.nextTicket);
      }
    case CountIn(_) =>
    case Return(_, _) =>
    case Commit(_, m) =>
      if pc.answer.Ok? {
        InsertsIsValid(s.cache, pc.path, pc.answer.value, m, s'.cache);
        InsertsByRecency(s.cache, s.log, pc.path, pc.answer.value, m, s'.cache);
      } else {
        DroppedIsValid(s.cache, pc.path);
      }
    case Register(_) =>
  }

  /** What a commit does to the slots: its own turns `Ready` or goes; other `Pending` slots stay. */
  lemma CommitSlots(s: System, w: nat, m: nat, s': System)
    requires CacheSound(s) && w < |s.workers| && s.workers[w].Returned?
    requires s.workers[w].path in s.cache.entries && s.cache.entries[s.workers[w].path].Pending?
    requires if s.workers[w].answer.Ok?
             then Inserts(s.cache, s.workers[w].path, s.workers[w].answer.value, m, s'.cache)
             else s'.cache == Dropped(s.cache, s.workers[w].path)
    ensures s.workers[w].answer.Ok? ==>
              s.workers[w].path in s'.cache.entries && s'.cache.entries[s.workers[w].path] == Ready(s.workers[w].answer.value)
    ensures s.workers[w].answer.Err? ==> s.workers[w].path !in s'.cache.entries
    ensures forall p :: p != s.workers[w].path && p in s'.cache.entries ==>
              p in s.cache.entries && s'.cache.entries[p] == s.cache.entries[p]
    ensures forall p :: p != s.workers[w].path && p in s.cache.entries && s.cache.entries[p].Pending? ==>
              p in s'.cache.entries && s'.cache.entries[p] == s.cache.entries[p]
  {
    var pc := s.workers[w];
    if pc.answer.Ok? {
      forall p | p != pc.path {
        InsertsKeepsPending(s.cache, pc.path, pc.answer.value, m, s'.cache, p);
      }
    }
  }

  lemma StepOwners(store: Store, s: System, a: Action, s': System)
    requires Inv(store, s) && Step(store, s, a, s')
    ensures OwnersSound(s')
  {
    var w, pc := a.w, s.workers[a.w];
    match a
    case Begin(_, _) => SameOwners(s, w, s');
    case Lookup(_) =>
      if pc.path in s.cache.entries {
        if !IsReady(s.cache.entries, pc.path) {
          var v :| 0 <= v < |s.workers| && Owner(s.workers[v]) && s.workers[v].path == pc.path;
          assert s.cache.entries[pc.path].ticket < s.nextTicket;
        }
        SameOwners(s, w, s');
      } else {
        ClaimOwners(s, w, s');
      }
    case CountIn(_) => SameOwners(s, w, s');
    case Return(_, _) => SameOwners(s, w, s');
    case Commit(_, m) =>
      CommitSlots(s, w, m, s');
      CommitOwners(s, w, s');
    case Register(_) => SameOwners(s, w, s');
  }

  /** A step that leaves the slots alone and keeps its worker's ownership. */
  lemma SameOwners(s: System, w: nat, s': System)
    requires OwnersSound(s) && s'.cache.entries == s.cache.entries && s'.nextTicket == s.nextTicket
    requires w < |s.workers| == |s'.workers| && s'.workers == s.workers[w := s'.workers[w]]
    requires Owner(s'.workers[w]) <==> Owner(s.workers[w])
    requires HoldsTicket(s'.workers[w]) ==> s'.workers[w].ticket < s'.nextTicket
    requires Owner(s.workers[w]) ==>
               s'.workers[w].path == s.workers[w].path && s'.workers[w].ticket == s.workers[w].ticket
    ensures OwnersSound(s')
  {
    forall p | p in s'.cache.entries && s'.cache.entries[p].Pending?
      ensures exists v :: 0 <= v < |s'.workers| && Owner(s'.workers[v]) && s'.workers[v].path == p {
      var v :| 0 <= v < |s.workers| && Owner(s.workers[v]) && s.workers[v].path == p;
      assert Owner(s'.workers[v]) && s'.workers[v].path == p;
    }
  }

  /** A lookup that misses: a fresh ticket for the new slot and its owner. */
  lemma ClaimOwners(s: System, w: nat, s': System)
    requires OwnersSound(s) && w < |s.workers| && s.workers[w].Start?
    requires s.workers[w].path !in s.cache.entries
    requires s'.cache.entries == s.cache.entries[s.workers[w].path := Pending(s.nextTicket)]
    requires s'.nextTicket == s.nextTicket + 1
    requires s'.workers == s.workers[w := Claimed(s.workers[w].path, s.nextTicket)]
    ensures OwnersSound(s')
  {
    forall p | p in s'.cache.entries && s'.cache.entries[p].Pending?
      ensures exists v :: 0 <= v < |s'.workers| && Owner(s'.workers[v]) && s'.workers[v].path == p {
      if p == s.workers[w].path {
        assert s'.workers[w].path == p;
      } else {
        var v :| 0 <= v < |s.workers| && Owner(s.workers[v]) && s.workers[v].path == p;
        assert s'.workers[v] == s.workers[v];
      }
    }
  }

  lemma CommitOwners(s: System, w: nat, s': System)
    requires OwnersSound(s) && w < |s.workers| && s.workers[w].Returned?
    requires s'.workers == Wake(s.workers, s.workers[w].ticket)[w := Done(s.workers[w].path, s.workers[w].answer)]
    requires s'.nextTicket == s.nextTicket
    requires s.workers[w].path in s'.cache.entries ==> s'.cache.entries[s.workers[w].path].Ready?
    requires forall p :: p != s.workers[w].path && p in s'.cache.entries ==>
               p in s.cache.entries && s'.cache.entries[p] == s.cache.entries[p]
    requires forall p :: p != s.workers[w].path && p in s.cache.entries && s.cache.entries[p].Pending? ==>
               p in s'.cache.entries && s'.cache.entries[p] == s.cache.entries[p]
    ensures OwnersSound(s')
  {
    var path := s.workers[w].path;
    forall v | 0 <= v < |s'.workers| && Owner(s'.workers[v])
      ensures v != w && s'.workers[v] == s.workers[v] && s.workers[v].path != path {
    }
    forall p | p in s'.cache.entries && s'.cache.entries[p].Pending?
      ensures exists v :: 0 <= v < |s'.workers| && Owner(s'.workers[v]) && s'.workers[v].path == p {
      var v :| 0 <= v < |s.workers| && Owner(s.workers[v]) && s.workers[v].path == p;
      assert s'.workers[v] == s.workers[v];
    }
  }

  lemma StepData(store: Store, s: System, a: Action, s': System)
    requires Inv(store, s) && Step(store, s, a, s')
    ensures DataSound(store, s')
  {
    if a.Commit? {
      CommitData(store, s, a.w, a.evictions, s');
    } else {
      QuietData(store, s, a, s');
    }
  }

  /** Steps that download nothing cache nothing new. */
  lemma QuietData(store: Store, s: System, a: Action, s': System)
    requires DataSound(store, s) && Step(store, s, a, s') && !a.Commit?
    ensures DataSound(store, s')
  {
    forall p | IsReady(s'.cache.entries, p) ensures IsReady(s.cache.entries, p) && s'.cache.entries[p] == s.cache.entries[p] {
    }
  }

  lemma CommitData(store: Store, s: System, w: nat, m: nat, s': System)
    requires Inv(store, s) && Step(store, s, Commit(w, m), s')
    ensures DataSound(store, s')
  {
    var pc := s.workers[w];
    CommitSlots(s, w, m, s');
    forall p | IsReady(s'.cache.entries, p) ensures p in store && s'.cache.entries[p].data == store[p] {
      if p != pc.path {
        assert IsReady(s.cache.entries, p);
      }
    }
    forall v | 0 <= v < |s'.workers| && (s'.workers[v].Returned? || s'.workers[v].Done?)
      ensures Truthful(store, s'.workers[v].path, s'.workers[v].answer) {
      if v != w {
        assert s'.workers[v] == s.workers[v];
      }
    }
  }

  lemma StepCounts(store: Store, s: System, a: Action, s': System)
    requires Inv(store, s) && Step(store, s, a, s')
    ensures CountsSound(s')
  {
    var w, pc := a.w, s.workers[a.w];
    if a.Commit? {
      CommitCounts(store, s, w, a.evictions, s');
    } else {
      CountUpdate(s.workers, w, s'.workers[w]);
      if a.Lookup? && IsReady(s.cache.entries, pc.path) {
        PromotedMultiset(s.cache, pc.path);
      }
    }
  }

  lemma CommitCounts(store: Store, s: System, w: nat, m: nat, s': System)
    requires Inv(store, s) && Step(store, s, Commit(w, m), s')
    ensures CountsSound(s')
  {
    assert w < |s.workers|;
    var pc := s.workers[w];
    CommitInFlight(s.workers, w);
    if pc.answer.Ok? {
      CommitHistory(s.cache, s.evicted, pc.path, pc.answer.value, m, s'.cache);
    } else {
      assert Dropped(s.cache, pc.path).lru == s.cache.lru;
    }
  }

  lemma CommitHistory(c: Cache, evicted: multiset<string>, path: string, data: Bytes, m: nat, c': Cache)
    requires Valid(c) && !IsReady(c.entries, path) && Inserts(c, path, data, m, c')
    ensures multiset(c.lru) + evicted + multiset{path} ==
            multiset(c'.lru) + (evicted + multiset(Without(c.lru, path)[..m]))
  {
    QueueWithout(c, path);
    SplitMultiset(c.lru, m, path);
    Regroup(multiset(c.lru), evicted, multiset{path}, multiset(c'.lru), multiset(c.lru[..m]));
  }

  lemma Regroup(queue: multiset<string>, evicted: multiset<string>, new_: multiset<string>,
                queue': multiset<string>, victims: multiset<string>)
    requires queue' + victims == queue + new_
    ensures queue + evicted + new_ == queue' + (evicted + victims)
  {
    assert queue + evicted + new_ == (queue + new_) + evicted;
  }

  lemma CommitInFlight(ws: seq<Pc>, w: nat)
    requires w < |ws| && ws[w].Returned?
    ensures CountFetching(Wake(ws, ws[w].ticket)[w := Done(ws[w].path, ws[w].answer)]) == CountFetching(ws)
  {
    CountWake(ws, ws[w].ticket);
    CountUpdate(Wake(ws, ws[w].ticket), w, Done(ws[w].path, ws[w].answer));
  }

  lemma QueueWithout(c: Cache, key: string)
    requires Valid(c) && !IsReady(c.entries, key)
    ensures Without(c.lru, key) == c.lru
  {
    assert key !in c.lru;
    WithoutAbsent(c.lru, key);
  }

  lemma SplitMultiset(keys: seq<string>, m: nat, key: string)
    requires m <= |keys|
    ensures multiset(keys[m..] + [key]) + multiset(keys[..m]) == multiset(keys) + multiset{key}
  {
    assert keys == keys[..m] + keys[m..];
  }

  lemma {:induction false} WithoutMultiset(keys: seq<string>, key: string)
    requires NoDuplicates(keys) && key in keys
    ensures multiset(Without(keys, key)) + multiset{key} == multiset(keys)
  {
    var tail := keys[1..];
    assert keys == [keys[0]] + tail;
    assert NoDuplicates(tail);
    if keys[0] == key {
      assert key !in tail;
      WithoutAbsent(tail, key);
    } else {
      WithoutMultiset(tail, key);
    }
  }

  lemma PromotedMultiset(c: Cache, key: string)
    requires Valid(c) && IsReady(c.entries, key)
    ensures multiset(Promoted(c, key).lru) == multiset(c.lru)
  {
    assert key in c.lru;
    WithoutMultiset(c.lru, key);
  }

  lemma StepInv(store: Store, s: System, a: Action, s': System)
    requires Inv(store, s) && Step(store, s, a, s')
    ensures Inv(store, s')
  {
    StepCache(store, s, a, s');
    StepOwners(store, s, a, s');
    StepData(store, s, a, s');
    StepCounts(store, s, a, s');
  }

  // ---- runs --------------------------------------------------------------------

  /** A run, latest step outermost. */
  datatype Trace = First(now: System) | Then(before: Trace, action: Action, now: System)

  function Origin(tr: Trace): System {
    if tr.First? then tr.now else Origin(tr.before)
  }

  ghost predicate IsRun(store: Store, tr: Trace) {
    tr.Then? ==> IsRun(store, tr.before) && Step(store, tr.before.now, tr.action, tr.now)
  }

  ghost predicate Reachable(store: Store, s: System) {
    exists tr, workers: nat, maxBytes: nat ::
      IsRun(store, tr) && Origin(tr) == Initial(workers, maxBytes) && tr.now == s
  }

  lemma {:induction false} RunInv(store: Store, tr: Trace)
    requires IsRun(store, tr) && Inv(store, Origin(tr))
    ensures Inv(store, tr.now)
  {
    if tr.Then? {
      RunInv(store, tr.before);
      StepInv(store, tr.before.now, tr.action, tr.now);
    }
  }

  lemma ReachableInv(store: Store, s: System)
    requires Reachable(store, s)
    ensures Inv(store, s)
  {
    var tr, workers: nat, maxBytes: nat :|
      IsRun(store, tr) && Origin(tr) == Initial(workers, maxBytes) && tr.now == s;
    InitialInv(store, workers, maxBytes);
    RunInv(store, tr);
  }

  lemma ReachableInitial(store: Store, workers: nat, maxBytes: nat)
    ensures Reachable(store, Initial(workers, maxBytes))
  {
    assert IsRun(store, First(Initial(workers, maxBytes)));
  }

  lemma Extend(store: Store, s: System, a: Action, s': System) returns (next: System)
    requires Reachable(store, s) && Step(store, s, a, s')
    ensures next == s' && Reachable(store, next)
  {
    next := s';
    var tr, workers: nat, maxBytes: nat :|
      IsRun(store, tr) && Origin(tr) == Initial(workers, maxBytes) && tr.now == s;
    assert IsRun(store, Then(tr, a, s'));
    assert Origin(Then(tr, a, s')) == Initial(workers, maxBytes);
  }

  // ---- the main results ----------------------------------------------------------

  /** A path has a `Pending` slot exactly while one worker is downloading it, and never two. */
  lemma SingleDownloader(store: Store, s: System, path: string)
    requires Reachable(store, s)
    ensures (path in s.cache.entries && s.cache.entries[path].Pending?) <==>
            (exists w :: 0 <= w < |s.workers| && Owner(s.workers[w]) && s.workers[w].path == path)
    ensures forall v, w | 0 <= v < |s.workers| && 0 <= w < |s.workers| && Owner(s.workers[v]) && Owner(s.workers[w])
              && s.workers[v].path == path && s.workers[w].path == path :: v == w
  {
    ReachableInv(store, s);
    forall v, w | 0 <= v < |s.workers| && 0 <= w < |s.workers| && Owner(s.workers[v]) && Owner(s.workers[w])
      && s.workers[v].path == path && s.workers[w].path == path
      ensures v == w {
      assert s.workers[v].ticket == s.workers[w].ticket;
    }
  }

  /** Every cached pack and every successful answer is that pack's stored bytes. */
  lemma AnswersAreStoredBytes(store: Store, s: System, w: nat, path: string)
    requires Reachable(store, s)
    ensures IsReady(s.cache.entries, path) ==> path in store && s.cache.entries[path].data == store[path]
    ensures w < |s.workers| && s.workers[w].Done? && s.workers[w].answer.Ok? ==>
              s.workers[w].path in store && s.workers[w].answer.value == store[s.workers[w].path]
  {
    ReachableInv(store, s);
  }

  /** Downloads are conserved pack by pack: each is still cached or was evicted. */
  lemma DownloadsConserved(store: Store, s: System, path: string)
    requires Reachable(store, s)
    ensures s.downloaded == |s.cache.lru| + |s.evicted|
    ensures s.fetched[path] == s.evicted[path] + (if IsReady(s.cache.entries, path) then 1 else 0)
    ensures s.inFlight == CountFetching(s.workers)
  {
    ReachableInv(store, s);
    assert |multiset(s.cache.lru)| == |s.cache.lru|;
    assert path in s.cache.lru <==> IsReady(s.cache.entries, path);
    OnceInQueue(s.cache.lru, path);
  }

  lemma {:induction false} OnceInQueue(keys: seq<string>, key: string)
    requires NoDuplicates(keys)
    ensures multiset(keys)[key] == if key in keys then 1 else 0
  {
    if keys != [] {
      var tail := keys[1..];
      assert keys == [keys[0]] + tail;
      assert NoDuplicates(tail);
      OnceInQueue(tail, key);
    }
  }

  /** The byte budget: exceeded only by a single pack larger than it. */
  lemma BudgetHeld(store: Store, s: System)
    requires Reachable(store, s)
    ensures s.cache.readyBytes == TotalSize(s.cache.entries, s.cache.lru)
    ensures s.cache.readyBytes <= s.cache.maxBytes || |s.cache.lru| == 1
    ensures NoDuplicates(s.cache.lru) && (forall k :: k in s.cache.lru <==> IsReady(s.cache.entries, k))
  {
    ReachableInv(store, s);
  }

  /** Eviction is least-recently-used over the whole run, and never touches a download in progress. */
  lemma EvictionTakesOldest(store: Store, s: System, w: nat, m: nat, s': System, v: string, u: string)
    requires Reachable(store, s) && Step(store, s, Commit(w, m), s')
    requires IsReady(s.cache.entries, v) && !IsReady(s'.cache.entries, v)
    ensures w < |s.workers| && s.workers[w].Returned?
    ensures u != s.workers[w].path && IsReady(s'.cache.entries, u) ==> LastUse(s.log, v) < LastUse(s.log, u)
    ensures u != s.workers[w].path && u in s.cache.entries && s.cache.entries[u].Pending? ==>
              u in s'.cache.entries && s'.cache.entries[u] == s.cache.entries[u]
  {
    ReachableInv(store, s);
    assert w < |s.workers|;
    var pc := s.workers[w];
    CommitSlots(s, w, m, s');
    assert v != pc.path;
    if pc.answer.Ok? && u != pc.path && IsReady(s'.cache.entries, u) {
      VictimsAreOldest(s.cache, s.log, pc.path, pc.answer.value, m, s'.cache, v, u);
    }
  }

  // ---- wake-ups --------------------------------------------------------------------

  ghost predicate TicketOwned(s: System, ticket: nat) {
    exists v :: 0 <= v < |s.workers| && Owner(s.workers[v]) && s.workers[v].ticket == ticket
  }

  /** Tickets are never issued twice, so a ticket without an owner stays without one. */
  lemma UnownedStays(store: Store, s: System, a: Action, s': System, ticket: nat)
    requires Step(store, s, a, s')
    requires ticket < s.nextTicket && !TicketOwned(s, ticket)
    ensures ticket < s'.nextTicket && !TicketOwned(s', ticket)
    ensures forall w :: 0 <= w < |s.workers| && s.workers[w].Waiting? && s.workers[w].ticket == ticket ==>
              w < |s'.workers| && s'.workers[w] == s.workers[w]
  {
    forall v | 0 <= v < |s'.workers| && Owner(s'.workers[v])
      ensures s'.workers[v].ticket == s.nextTicket || (Owner(s.workers[v]) && s'.workers[v].ticket == s.workers[v].ticket) {
    }
  }

  /** A worker waiting on a ticket whose download is over waits for the rest of the run. */
  lemma {:induction false} WaitsForever(store: Store, tr: Trace, w: nat)
    requires IsRun(store, tr) && w < |Origin(tr).workers| && Origin(tr).workers[w].Waiting?
    requires Origin(tr).workers[w].ticket < Origin(tr).nextTicket
    requires !TicketOwned(Origin(tr), Origin(tr).workers[w].ticket)
    ensures w < |tr.now.workers| && tr.now.workers[w] == Origin(tr).workers[w]
    ensures Origin(tr).workers[w].ticket < tr.now.nextTicket
    ensures !TicketOwned(tr.now, Origin(tr).workers[w].ticket)
  {
    if tr.Then? {
      WaitsForever(store, tr.before, w);
      UnownedStays(store, tr.before.now, tr.action, tr.now, Origin(tr).workers[w].ticket);
    }
  }

  /** Some continuation of the run moves worker `w` on. */
  ghost predicate CanMove(store: Store, s: System, w: nat)
    requires w < |s.workers|
  {
    exists tr :: IsRun(store, tr) && Origin(tr) == s &&
      (w >= |tr.now.workers| || tr.now.workers[w] != s.workers[w])
  }

  /** The owner of a ticket can always finish (its download may fail), and its commit wakes the waiters. */
  lemma OwnerCanWake(store: Store, tr: Trace, v: nat, w: nat)
    requires IsRun(store, tr) && w < |Origin(tr).workers|
    requires v < |tr.now.workers| && Owner(tr.now.workers[v])
    requires w < |tr.now.workers| && tr.now.workers[w] == Origin(tr).workers[w]
    requires tr.now.workers[w].Waiting? && tr.now.workers[w].ticket == tr.now.workers[v].ticket
    ensures CanMove(store, Origin(tr), w)
    decreases if tr.now.workers[v].Claimed? then 2 else if tr.now.workers[v].Fetching? then 1 else 0
  {
    var s, pc := tr.now, tr.now.workers[v];
    if pc.Claimed? {
      var s1 := s.(workers := s.workers[v := Fetching(pc.path, pc.ticket)], inFlight := s.inFlight + 1);
      OwnerCanWake(store, Then(tr, CountIn(v), s1), v, w);
    } else if pc.Fetching? {
      var answer := Err("connection lost");
      var s1 := s.(workers := s.workers[v := Returned(pc.path, pc.ticket, answer)], inFlight := SaturatingSub(s.inFlight, 1));
      OwnerCanWake(store, Then(tr, Return(v, answer), s1), v, w);
    } else {
      CommitWakes(store, tr, v, w);
    }
  }

  lemma CommitWakes(store: Store, tr: Trace, v: nat, w: nat)
    requires IsRun(store, tr) && w < |Origin(tr).workers|
    requires v < |tr.now.workers| && tr.now.workers[v].Returned?
    requires w < |tr.now.workers| && tr.now.workers[w] == Origin(tr).workers[w]
    requires tr.now.workers[w].Waiting? && tr.now.workers[w].ticket == tr.now.workers[v].ticket
    ensures CanMove(store, Origin(tr), w)
  {
    var pc := tr.now.workers[v];
    var m, s1 := CommitPossible(store, tr.now, v);
    var tr' := Then(tr, Commit(v, m), s1);
    assert s1.workers[w] == Start(tr.now.workers[w].path);
    assert IsRun(store, tr') && Origin(tr') == Origin(tr) && tr'.now == s1;
  }

  /** A returned download can always be committed, and that wakes its waiters. */
  lemma CommitPossible(store: Store, s: System, v: nat) returns (m: nat, s1: System)
    requires v < |s.workers| && s.workers[v].Returned?
    ensures Step(store, s, Commit(v, m), s1)
    ensures s1.workers == Wake(s.workers, s.workers[v].ticket)[v := Done(s.workers[v].path, s.workers[v].answer)]
  {
    var pc := s.workers[v];
    var woken := Wake(s.workers, pc.ticket)[v := Done(pc.path, pc.answer)];
    if pc.answer.Err? {
      m := 0;
      s1 := s.(cache := Dropped(s.cache, pc.path), workers := woken);
    } else {
      var cache';
      m, cache' := FindInsert(s.cache, pc.path, pc.answer.value);
      s1 := System(cache', woken, s.nextTicket, s.inFlight, s.downloaded + 1, s.log + [pc.path],
                   s.fetched + multiset{pc.path}, s.evicted + multiset(Without(s.cache.lru, pc.path)[..m]));
    }
  }

  /** An insert is always possible: evict until the pack fits or the queue is empty. */
  lemma FindInsert(c: Cache, key: string, data: Bytes) returns (m: nat, c': Cache)
    ensures Inserts(c, key, data, m, c')
  {
    var others := Without(c.lru, key);
    m := 0;
    while m < |others| && TotalSize(c.entries, others[m..]) + |data| > c.maxBytes
      invariant m <= |others|
      invariant m > 0 ==> TotalSize(c.entries, others[m - 1..]) + |data| > c.maxBytes
    {
      m := m + 1;
    }
    c' := Cache((c.entries - Elements(others[..m]))[key := Ready(data)],
                TotalSize(c.entries, others[m..]) + |data|, c.maxBytes, others[m..] + [key]);
  }

  /** Exactly when a registered waiter can still be woken: its download must be unfinished. */
  lemma WokenIff(store: Store, s: System, w: nat)
    requires Reachable(store, s) && w < |s.workers| && s.workers[w].Waiting?
    ensures CanMove(store, s, w) <==> TicketOwned(s, s.workers[w].ticket)
  {
    ReachableInv(store, s);
    if TicketOwned(s, s.workers[w].ticket) {
      var v :| 0 <= v < |s.workers| && Owner(s.workers[v]) && s.workers[v].ticket == s.workers[w].ticket;
      assert IsRun(store, First(s)) && Origin(First(s)) == s;
      OwnerCanWake(store, First(s), v, w);
    } else {
      forall tr | IsRun(store, tr) && Origin(tr) == s
        ensures w < |tr.now.workers| && tr.now.workers[w] == s.workers[w] {
        WaitsForever(store, tr, w);
      }
    }
  }

  /**
   * The notification is lost when the download finishes between a waiter's
   * lookup and its registration: a reachable state whose waiter never moves.
   */
  lemma LostWakeup(store: Store, path: string) returns (s: System)
    ensures Reachable(store, s)
    ensures |s.workers| == 2 && s.workers[1].Waiting? && !CanMove(store, s, 1)
  {
    ReachableInitial(store, 2, 0);
    s := TwoRequests(store, Initial(2, 0), path);
    s := MissesNotification(store, s, 0, 1);
  }

  lemma TwoRequests(store: Store, s: System, path: string) returns (next: System)
    requires Reachable(store, s) && s.workers == [Idle, Idle] && path !in s.cache.entries
    ensures Reachable(store, next) && |next.workers| == 2 && next.workers[0].Claimed?
    ensures next.workers[1] == Leaving(next.workers[0].path, next.workers[0].ticket)
  {
    next := Begins(store, s, 0, path);
    next := Begins(store, next, 1, path);
    next := Claims(store, next, 0);
    next := Leaves(store, next, 1);
  }

  lemma MissesNotification(store: Store, s: System, w: nat, v: nat) returns (next: System)
    requires Reachable(store, s) && w < |s.workers| && s.workers[w].Claimed?
    requires v < |s.workers| && s.workers[v] == Leaving(s.workers[w].path, s.workers[w].ticket)
    ensures Reachable(store, next) && |next.workers| == |s.workers|
    ensures next.workers[v].Waiting? && !CanMove(store, next, v)
  {
    next := Fails(store, s, w, v);
    next := Registers(store, next, v);
    WokenIff(store, next, v);
  }

  lemma Begins(store: Store, s: System, w: nat, path: string) returns (next: System)
    requires Reachable(store, s) && w < |s.workers| && s.workers[w].Idle?
    ensures Reachable(store, next) && next == s.(workers := s.workers[w := Start(path)])
  {
    next := Extend(store, s, Begin(w, path), s.(workers := s.workers[w := Start(path)]));
  }

  lemma Claims(store: Store, s: System, w: nat) returns (next: System)
    requires Reachable(store, s) && w < |s.workers| && s.workers[w].Start? && s.workers[w].path !in s.cache.entries
    ensures Reachable(store, next)
    ensures next.workers == s.workers[w := Claimed(s.workers[w].path, s.nextTicket)]
    ensures next.cache.entries == s.cache.entries[s.workers[w].path := Pending(s.nextTicket)]
  {
    var path := s.workers[w].path;
    next := Extend(store, s, Lookup(w), s.(cache := WithPending(s.cache, path, s.nextTicket),
                   nextTicket := s.nextTicket + 1, workers := s.workers[w := Claimed(path, s.nextTicket)]));
  }

  lemma Leaves(store: Store, s: System, w: nat) returns (next: System)
    requires Reachable(store, s) && w < |s.workers| && s.workers[w].Start? && s.workers[w].path in s.cache.entries
    requires s.cache.entries[s.workers[w].path].Pending?
    ensures Reachable(store, next)
    ensures next == s.(workers := s.workers[w := Leaving(s.workers[w].path, s.cache.entries[s.workers[w].path].ticket)])
  {
    next := Extend(store, s, Lookup(w),
                   s.(workers := s.workers[w := Leaving(s.workers[w].path, s.cache.entries[s.workers[w].path].ticket)]));
  }

  /** The download of worker `w` fails; its commit leaves no owner for the ticket. */
  lemma Fails(store: Store, s: System, w: nat, v: nat) returns (next: System)
    requires Reachable(store, s) && w < |s.workers| && s.workers[w].Claimed?
    requires v < |s.workers| && s.workers[v] == Leaving(s.workers[w].path, s.workers[w].ticket)
    ensures Reachable(store, next) && |next.workers| == |s.workers|
    ensures next.workers[v] == s.workers[v] && !TicketOwned(next, s.workers[w].ticket)
  {
    next := CountsIn(store, s, w);
    next := ReturnsError(store, next, w);
    next := CommitsError(store, next, w, v);
  }

  lemma CountsIn(store: Store, s: System, w: nat) returns (next: System)
    requires Reachable(store, s) && w < |s.workers| && s.workers[w].Claimed?
    ensures Reachable(store, next)
    ensures next.workers == s.workers[w := Fetching(s.workers[w].path, s.workers[w].ticket)]
  {
    next := Extend(store, s, CountIn(w),
                   s.(workers := s.workers[w := Fetching(s.workers[w].path, s.workers[w].ticket)], inFlight := s.inFlight + 1));
  }

  lemma ReturnsError(store: Store, s: System, w: nat) returns (next: System)
    requires Reachable(store, s) && w < |s.workers| && s.workers[w].Fetching?
    ensures Reachable(store, next)
    ensures next.workers == s.workers[w := Returned(s.workers[w].path, s.workers[w].ticket, Err("connection lost"))]
  {
    var failed := Err("connection lost");
    next := Extend(store, s, Return(w, failed),
                   s.(workers := s.workers[w := Returned(s.workers[w].path, s.workers[w].ticket, failed)],
                      inFlight := SaturatingSub(s.inFlight, 1)));
  }

  lemma CommitsError(store: Store, s: System, w: nat, v: nat) returns (next: System)
    requires Reachable(store, s) && w < |s.workers| && s.workers[w].Returned? && s.workers[w].answer.Err?
    requires v < |s.workers| && s.workers[v].Leaving?
    ensures Reachable(store, next) && |next.workers| == |s.workers|
    ensures next.workers[v] == s.workers[v] && !TicketOwned(next, s.workers[w].ticket)
  {
    var pc := s.workers[w];
    next := s.(workers := Wake(s.workers, pc.ticket)[w := Done(pc.path, pc.answer)], cache := Dropped(s.cache, pc.path));
    next := Extend(store, s, Commit(w, 0), next);
    ReachableInv(store, s);
    CommitEndsTicket(store, s, w, 0, next);
  }

  /** After its owner's commit a ticket has no owner. */
  lemma CommitEndsTicket(store: Store, s: System, w: nat, m: nat, s': System)
    requires Inv(store, s) && Step(store, s, Commit(w, m), s')
    ensures w < |s.workers| && !TicketOwned(s', s.workers[w].ticket)
  {
    forall u | 0 <= u < |s'.workers| && Owner(s'.workers[u]) ensures s'.workers[u].ticket != s.workers[w].ticket {
      assert u != w;
      assert s'.workers[u] == s.workers[u];
    }
  }

  lemma Registers(store: Store, s: System, w: nat) returns (next: System)
    requires Reachable(store, s) && w < |s.workers| && s.workers[w].Leaving?
    requires !TicketOwned(s, s.workers[w].ticket)
    ensures Reachable(store, next) && |next.workers| == |s.workers|
    ensures next.workers[w] == Waiting(s.workers[w].path, s.workers[w].ticket)
    ensures !TicketOwned(next, s.workers[w].ticket)
  {
    next := s.(workers := s.workers[w := Waiting(s.workers[w].path, s.workers[w].ticket)]);
    next := Extend(store, s, Register(w), next);
    forall u | 0 <= u < |next.workers| && Owner(next.workers[u]) ensures next.workers[u].ticket != s.workers[w].ticket {
      assert next.workers[u] == s.workers[u];
    }
  }
}
