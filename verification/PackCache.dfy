/**
 * The bounded LRU pack cache of the restore engine (`BoundedPackCache`).
 *
 * `Cache` is the value of the three coupled fields; the class below updates
 * them in place and is proved against relations on `Cache` values, which is
 * also what the multi-worker protocol in SingleFlight.dfy steps over.
 */
module PackCache {
  import opened Basics

  /** A slot: being downloaded under some notification ticket, or cached. */
  datatype PackEntry = Pending(ticket: nat) | Ready(data: Bytes)

  /** `lru` has the least recently used key at the front. */
  datatype Cache = Cache(entries: map<string, PackEntry>, readyBytes: nat, maxBytes: nat, lru: seq<string>)

  predicate IsReady(entries: map<string, PackEntry>, key: string) {
    key in entries && entries[key].Ready?
  }

  function ReadySize(entries: map<string, PackEntry>, key: string): nat {
    if IsReady(entries, key) then |entries[key].data| else 0
  }

  function TotalSize(entries: map<string, PackEntry>, keys: seq<string>): nat {
    if keys == [] then 0 else ReadySize(entries, keys[0]) + TotalSize(entries, keys[1..])
  }

  /** Rust's `retain(|k| k != key)`. */
  function Without(keys: seq<string>, key: string): seq<string> {
    if keys == [] then []
    else if keys[0] == key then Without(keys[1..], key)
    else [keys[0]] + Without(keys[1..], key)
  }

  function Elements(keys: seq<string>): set<string> {
    set k | k in keys
  }

  /** What every operation keeps. */
  ghost predicate Valid(c: Cache) {
    && NoDuplicates(c.lru)
    && (forall k :: k in c.lru <==> IsReady(c.entries, k))
    && c.readyBytes == TotalSize(c.entries, c.lru)
    && (c.readyBytes <= c.maxBytes || |c.lru| == 1)
  }

  // ---- recency -----------------------------------------------------------

  /** One past the last position at which `key` occurs in the access log; 0 if it never does. */
  function LastUse(log: seq<string>, key: string): nat {
    if log == [] then 0
    else if log[|log| - 1] == key then |log|
    else LastUse(log[..|log| - 1], key)
  }

  /** The eviction queue is in order of last access. */
  ghost predicate ByRecency(log: seq<string>, lru: seq<string>) {
    && (forall i :: 0 <= i < |lru| ==> LastUse(log, lru[i]) > 0)
    && (forall i, j :: 0 <= i < j < |lru| ==> LastUse(log, lru[i]) < LastUse(log, lru[j]))
  }

  // ---- the operations on values ------------------------------------------

  /** `get`: a hit on a cached pack moves it to the back of the queue. */
  function Promoted(c: Cache, key: string): Cache {
    if IsReady(c.entries, key) then c.(lru := Without(c.lru, key) + [key]) else c
  }

  /** `insert_pending`: a plain map insert. */
  function WithPending(c: Cache, key: string, ticket: nat): Cache {
    c.(entries := c.entries[key := Pending(ticket)])
  }

  /** `remove`. */
  function Dropped(c: Cache, key: string): Cache {
    if IsReady(c.entries, key) then
      c.(entries := c.entries - {key}, lru := Without(c.lru, key),
         readyBytes := SaturatingSub(c.readyBytes, |c.entries[key].data|))
    else c.(entries := c.entries - {key})
  }

  /**
   * `insert_ready` evicting `m` packs: the victims are the `m` least recently
   * used other packs, `m` is the least number that makes the new pack fit (or
   * all of them), and nothing else leaves the cache.
   */
  ghost predicate Inserts(c: Cache, key: string, data: Bytes, m: nat, c': Cache) {
    var others := Without(c.lru, key);
    && m <= |others|
    && (m < |others| ==> TotalSize(c.entries, others[m..]) + |data| <= c.maxBytes)
    && (m > 0 ==> TotalSize(c.entries, others[m - 1..]) + |data| > c.maxBytes)
    && c' == Cache((c.entries - Elements(others[..m]))[key := Ready(data)],
                   TotalSize(c.entries, others[m..]) + |data|,
                   c.maxBytes,
                   others[m..] + [key])
  }

  // ---- facts about queues and sizes ---------------------------------------

  lemma {:induction false} WithoutElements(keys: seq<string>, key: string)
    ensures forall k :: k in Without(keys, key) <==> k in keys && k != key
    ensures NoDuplicates(keys) ==> NoDuplicates(Without(keys, key))
    ensures |Without(keys, key)| <= |keys|
  {
    if keys != [] {
      WithoutElements(keys[1..], key);
      var rest := Without(keys[1..], key);
      if NoDuplicates(keys) {
        assert NoDuplicates(keys[1..]) by {
          forall i, j | 0 <= i < j < |keys[1..]| ensures keys[1..][i] != keys[1..][j] {
            assert keys[i + 1] != keys[j + 1];
          }
        }
        assert keys[0] !in keys[1..];
      }
    }
  }

  lemma {:induction false} WithoutAbsent(keys: seq<string>, key: string)
    requires key !in keys
    ensures Without(keys, key) == keys
  {
    if keys != [] {
      WithoutAbsent(keys[1..], key);
    }
  }

  /** Removing the only occurrence, found by position. */
  lemma {:induction false} WithoutByPosition(keys: seq<string>, pos: nat)
    requires pos < |keys| && NoDuplicates(keys)
    ensures Without(keys, keys[pos]) == keys[..pos] + keys[pos + 1..]
  {
    if pos == 0 {
      assert keys[0] !in keys[1..];
      WithoutAbsent(keys[1..], keys[0]);
    } else {
      var tail := keys[1..];
      forall i, j | 0 <= i < j < |tail| ensures tail[i] != tail[j] {
        assert keys[i + 1] != keys[j + 1];
      }
      WithoutByPosition(tail, pos - 1);
      assert tail[pos - 1] == keys[pos] && keys[0] != keys[pos];
      assert [keys[0]] + (tail[..pos - 1] + tail[pos..]) == keys[..pos] + keys[pos + 1..];
    }
  }

  /** `Without` keeps the relative order of what it keeps. */
  lemma {:induction false} WithoutOrder(log: seq<string>, keys: seq<string>, key: string)
    requires ByRecency(log, keys)
    ensures ByRecency(log, Without(keys, key))
  {
    if keys != [] {
      var tail := keys[1..];
      forall i | 0 <= i < |tail| ensures LastUse(log, tail[i]) > 0 && LastUse(log, keys[0]) < LastUse(log, tail[i]) {
        assert tail[i] == keys[i + 1];
      }
      forall i, j | 0 <= i < j < |tail| ensures LastUse(log, tail[i]) < LastUse(log, tail[j]) {
        assert LastUse(log, keys[i + 1]) < LastUse(log, keys[j + 1]);
      }
      WithoutOrder(log, tail, key);
      WithoutElements(tail, key);
      var r := Without(tail, key);
      if keys[0] != key {
        var all := [keys[0]] + r;
        forall j | 0 < j < |all| ensures LastUse(log, all[0]) < LastUse(log, all[j]) {
          assert all[j] == r[j - 1] && r[j - 1] in tail;
          var t :| 0 <= t < |tail| && tail[t] == r[j - 1];
        }
        assert ByRecency(log, all);
      }
    }
  }

  /** Sizes depend only on the slots of the listed keys. */
  lemma {:induction false} TotalSizeSame(e1: map<string, PackEntry>, e2: map<string, PackEntry>, keys: seq<string>)
    requires forall k :: k in keys ==> ReadySize(e1, k) == ReadySize(e2, k)
    ensures TotalSize(e1, keys) == TotalSize(e2, keys)
  {
    if keys != [] {
      TotalSizeSame(e1, e2, keys[1..]);
    }
  }

  lemma {:induction false} TotalSizeWithout(entries: map<string, PackEntry>, keys: seq<string>, key: string)
    requires NoDuplicates(keys) && key in keys
    ensures TotalSize(entries, keys) == TotalSize(entries, Without(keys, key)) + ReadySize(entries, key)
  {
    var tail := keys[1..];
    forall i, j | 0 <= i < j < |tail| ensures tail[i] != tail[j] {
      assert keys[i + 1] != keys[j + 1];
    }
    if keys[0] == key {
      assert key !in tail;
      WithoutAbsent(tail, key);
    } else {
      TotalSizeWithout(entries, tail, key);
      var w := Without(tail, key);
      assert ([keys[0]] + w)[1..] == w;
    }
  }

  lemma {:induction false} TotalSizeAppend(entries: map<string, PackEntry>, xs: seq<string>, ys: seq<string>)
    ensures TotalSize(entries, xs + ys) == TotalSize(entries, xs) + TotalSize(entries, ys)
  {
    if xs == [] {
      assert xs + ys == ys;
    } else {
      TotalSizeAppend(entries, xs[1..], ys);
      assert (xs + ys)[1..] == xs[1..] + ys;
    }
  }

  lemma NoDuplicatesSuffix(keys: seq<string>, m: nat)
    requires NoDuplicates(keys) && m <= |keys|
    ensures NoDuplicates(keys[m..])
    ensures forall k :: k in keys[m..] <==> k in keys && k !in keys[..m]
  {
    forall k ensures k in keys[m..] <==> k in keys && k !in keys[..m] {
      assert keys == keys[..m] + keys[m..];
    }
  }

  lemma RecencySuffix(log: seq<string>, keys: seq<string>, m: nat)
    requires ByRecency(log, keys) && m <= |keys|
    ensures ByRecency(log, keys[m..])
    ensures forall v, u :: v in keys[..m] && u in keys[m..] ==> LastUse(log, v) < LastUse(log, u)
  {
    forall v, u | v in keys[..m] && u in keys[m..] ensures LastUse(log, v) < LastUse(log, u) {
      var i :| 0 <= i < m && keys[..m][i] == v;
      var j :| 0 <= j < |keys| - m && keys[m..][j] == u;
      assert keys[i] == v && keys[m + j] == u;
    }
  }

  // ---- every operation keeps the invariant ---------------------------------

  lemma PromotedIsValid(c: Cache, key: string)
    requires Valid(c)
    ensures Valid(Promoted(c, key))
  {
    if IsReady(c.entries, key) {
      WithoutElements(c.lru, key);
      TotalSizeWithout(c.entries, c.lru, key);
      TotalSizeAppend(c.entries, Without(c.lru, key), [key]);
      var l := Without(c.lru, key) + [key];
      assert TotalSize(c.entries, [key]) == ReadySize(c.entries, key) by { assert [key][1..] == []; }
      if |c.lru| == 1 {
        assert c.lru[0] == key;
        assert c.lru[1..] == [];
        assert Without(c.lru, key) == [];
      }
      forall k ensures k in l <==> IsReady(c.entries, k) { }
    }
  }

  /**
   * `insert_pending` is a plain overwrite: it keeps the invariant exactly when
   * the key is not already cached.  Only the lookup miss that precedes it in
   * `get_or_download_pack` guarantees that.
   */
  lemma PendingIsValidIff(c: Cache, key: string, ticket: nat)
    requires Valid(c)
    ensures Valid(WithPending(c, key, ticket)) <==> !IsReady(c.entries, key)
  {
    var c' := WithPending(c, key, ticket);
    if IsReady(c.entries, key) {
      assert key in c'.lru && !IsReady(c'.entries, key);
    } else {
      TotalSizeSame(c.entries, c'.entries, c.lru);
      forall k ensures k in c'.lru <==> IsReady(c'.entries, k) {
        assert k in c.lru <==> IsReady(c.entries, k);
      }
    }
  }

  lemma DroppedIsValid(c: Cache, key: string)
    requires Valid(c)
    ensures Valid(Dropped(c, key))
  {
    var c' := Dropped(c, key);
    WithoutElements(c.lru, key);
    if IsReady(c.entries, key) {
      TotalSizeWithout(c.entries, c.lru, key);
      if |c.lru| == 1 {
        assert c.lru[0] == key && c.lru[1..] == [];
      }
    }
    TotalSizeSame(c.entries, c'.entries, c'.lru);
    forall k ensures k in c'.lru <==> IsReady(c'.entries, k) {
      assert k in c.lru <==> IsReady(c.entries, k);
    }
  }

  lemma InsertsKeepsSlots(c: Cache, key: string, data: Bytes, m: nat, c': Cache)
    requires Valid(c) && Inserts(c, key, data, m, c')
    ensures NoDuplicates(c'.lru)
    ensures forall k :: k in c'.lru <==> IsReady(c'.entries, k)
  {
    var others := Without(c.lru, key);
    WithoutElements(c.lru, key);
    NoDuplicatesSuffix(others, m);
    var kept := others[m..];
    assert key !in kept;
    forall k ensures k in c'.lru <==> IsReady(c'.entries, k) {
      assert k in c.lru <==> IsReady(c.entries, k);
    }
  }

  lemma InsertsIsValid(c: Cache, key: string, data: Bytes, m: nat, c': Cache)
    requires Valid(c) && Inserts(c, key, data, m, c')
    ensures Valid(c')
  {
    InsertsKeepsSlots(c, key, data, m, c');
    var others := Without(c.lru, key);
    WithoutElements(c.lru, key);
    var kept := others[m..];
    forall k | k in kept ensures ReadySize(c.entries, k) == ReadySize(c'.entries, k) {
      assert k in c'.lru && k in others;
    }
    TotalSizeSame(c.entries, c'.entries, kept);
    TotalSizeAppend(c'.entries, kept, [key]);
    assert [key][1..] == [];
    assert TotalSize(c'.entries, [key]) == |data|;
    if m == |others| {
      assert c'.lru == [key];
    }
  }

  /** `Pending` slots of other packs survive every insert. */
  lemma InsertsKeepsPending(c: Cache, key: string, data: Bytes, m: nat, c': Cache, k: string)
    requires Valid(c) && Inserts(c, key, data, m, c')
    requires k != key
    ensures k in c.entries && c.entries[k].Pending? ==> k in c'.entries && c'.entries[k] == c.entries[k]
    ensures k in c'.entries ==> k in c.entries && c'.entries[k] == c.entries[k]
  {
    var others := Without(c.lru, key);
    WithoutElements(c.lru, key);
    if k in others[..m] {
      assert k in others && IsReady(c.entries, k);
    }
  }

  // ---- the queue is in order of last access ---------------------------------

  lemma LastUseSnoc(log: seq<string>, key: string, k: string)
    ensures LastUse(log + [key], k) == if k == key then |log| + 1 else LastUse(log, k)
  {
    assert (log + [key])[..|log|] == log;
  }

  lemma {:induction false} LastUseBound(log: seq<string>, k: string)
    ensures LastUse(log, k) <= |log|
  {
    if log != [] && log[|log| - 1] != k {
      LastUseBound(log[..|log| - 1], k);
    }
  }

  /** Moving a key to the back after logging its access keeps the queue in order. */
  lemma TouchKeepsOrder(log: seq<string>, rest: seq<string>, key: string)
    requires ByRecency(log, rest) && key !in rest
    ensures ByRecency(log + [key], rest + [key])
  {
    var all := rest + [key];
    forall k { LastUseSnoc(log, key, k); }
    forall i | 0 <= i < |rest| ensures LastUse(log + [key], all[i]) == LastUse(log, rest[i]) <= |log| {
      assert rest[i] in rest;
      LastUseBound(log, rest[i]);
    }
  }

  lemma PromotedByRecency(c: Cache, log: seq<string>, key: string)
    requires Valid(c) && ByRecency(log, c.lru) && IsReady(c.entries, key)
    ensures ByRecency(log + [key], Promoted(c, key).lru)
  {
    WithoutOrder(log, c.lru, key);
    WithoutElements(c.lru, key);
    TouchKeepsOrder(log, Without(c.lru, key), key);
  }

  lemma InsertsByRecency(c: Cache, log: seq<string>, key: string, data: Bytes, m: nat, c': Cache)
    requires Valid(c) && ByRecency(log, c.lru) && Inserts(c, key, data, m, c')
    ensures ByRecency(log + [key], c'.lru)
  {
    var others := Without(c.lru, key);
    WithoutOrder(log, c.lru, key);
    WithoutElements(c.lru, key);
    RecencySuffix(log, others, m);
    NoDuplicatesSuffix(others, m);
    TouchKeepsOrder(log, others[m..], key);
  }

  /**
   * Least-recently-used eviction: every pack evicted by an insert was last
   * accessed before every pack that stays, and an insert that evicts the
   * `m`-th pack could not have fitted with one eviction fewer.
   */
  lemma VictimsAreOldest(c: Cache, log: seq<string>, key: string, data: Bytes, m: nat, c': Cache, v: string, u: string)
    requires Valid(c) && ByRecency(log, c.lru) && Inserts(c, key, data, m, c')
    requires v != key && IsReady(c.entries, v) && !IsReady(c'.entries, v)
    requires u != key && IsReady(c'.entries, u)
    ensures LastUse(log, v) < LastUse(log, u)
  {
    var others := Without(c.lru, key);
    WithoutOrder(log, c.lru, key);
    WithoutElements(c.lru, key);
    RecencySuffix(log, others, m);
    NoDuplicatesSuffix(others, m);
    InsertsKeepsSlots(c, key, data, m, c');
    assert v in c.lru && v !in c'.lru && u in c'.lru;
  }

  lemma {:induction false} TotalSizeSuffix(entries: map<string, PackEntry>, keys: seq<string>, a: nat, b: nat)
    requires a <= b <= |keys|
    ensures TotalSize(entries, keys[b..]) <= TotalSize(entries, keys[a..])
    decreases b - a
  {
    if a < b {
      TotalSizeSuffix(entries, keys, a + 1, b);
      assert keys[a..][1..] == keys[a + 1..];
    }
  }

  /** The number of evictions is determined by the cache: there is no second choice. */
  lemma InsertsUnique(c: Cache, key: string, data: Bytes, m1: nat, c1: Cache, m2: nat, c2: Cache)
    requires Inserts(c, key, data, m1, c1) && Inserts(c, key, data, m2, c2)
    ensures m1 == m2 && c1 == c2
  {
    var others := Without(c.lru, key);
    if m1 < m2 {
      TotalSizeSuffix(c.entries, others, m1, m2 - 1);
    } else if m2 < m1 {
      TotalSizeSuffix(c.entries, others, m2, m1 - 1);
    }
  }

  // ---- the class -------------------------------------------------------------

  /** `iter().position(|k| k == key)`; the length when there is none. */
  method Position(keys: seq<string>, key: string) returns (pos: nat)
    requires NoDuplicates(keys)
    ensures key in keys ==> pos < |keys| && keys[..pos] + keys[pos + 1..] == Without(keys, key)
    ensures key !in keys ==> pos == |keys|
  {
    pos := 0;
    while pos < |keys| && keys[pos] != key
      invariant pos <= |keys|
      invariant forall i :: 0 <= i < pos ==> keys[i] != key
    {
      pos := pos + 1;
    }
    if pos < |keys| {
      WithoutByPosition(keys, pos);
    }
  }

  lemma EvictOne(entries: map<string, PackEntry>, key: string, others: seq<string>, m: nat)
    requires m < |others| && NoDuplicates(others)
    requires forall k :: k in others ==> k != key && IsReady(entries, k)
    ensures others[m..][1..] == others[m + 1..]
    ensures entries - {key} - Elements(others[..m]) - {others[m]} == entries - {key} - Elements(others[..m + 1])
    ensures IsReady(entries - {key} - Elements(others[..m]), others[m])
    ensures TotalSize(entries, others[m..]) == ReadySize(entries, others[m]) + TotalSize(entries, others[m + 1..])
  {
    assert others[..m + 1] == others[..m] + [others[m]];
    assert others[m] in others;
    assert others[m] !in others[..m];
    assert others[m..][1..] == others[m + 1..];
  }

  lemma OthersFacts(c: Cache, key: string)
    requires Valid(c)
    ensures NoDuplicates(Without(c.lru, key))
    ensures forall k :: k in Without(c.lru, key) ==> k != key && IsReady(c.entries, k)
    ensures IsReady(c.entries, key) ==> TotalSize(c.entries, Without(c.lru, key)) == c.readyBytes - |c.entries[key].data|
    ensures !IsReady(c.entries, key) ==> Without(c.lru, key) == c.lru
  {
    WithoutElements(c.lru, key);
    assert key in c.lru <==> IsReady(c.entries, key);
    if key in c.lru {
      TotalSizeWithout(c.entries, c.lru, key);
    } else {
      WithoutAbsent(c.lru, key);
    }
  }

  lemma InsertedSlots(entries: map<string, PackEntry>, key: string, data: Bytes, victims: seq<string>)
    ensures (entries - {key} - Elements(victims))[key := Ready(data)] == (entries - Elements(victims))[key := Ready(data)]
  {
  }

  class BoundedPackCache {
    var entries: map<string, PackEntry>
    var readyBytes: nat
    const maxBytes: nat
    var lru: seq<string>
    /** Every access that counts as a use, oldest first. */
    ghost var log: seq<string>

    ghost function State(): Cache
      reads this
    {
      Cache(entries, readyBytes, maxBytes, lru)
    }

    ghost predicate Sound()
      reads this
    {
      Valid(State()) && ByRecency(log, lru)
    }

    constructor (maxBytes: nat)
      ensures State() == Cache(map[], 0, maxBytes, []) && log == []
      ensures Sound()
    {
      this.entries := map[];
      this.readyBytes := 0;
      this.maxBytes := maxBytes;
      this.lru := [];
      this.log := [];
    }

    method Get(key: string) returns (entry: Option<PackEntry>)
      requires Sound()
      modifies this
      ensures Sound()
      ensures State() == Promoted(old(State()), key)
      ensures entry == if key in old(entries) then Some(old(entries)[key]) else None
      ensures log == if IsReady(old(entries), key) then old(log) + [key] else old(log)
    {
      if key !in entries {
        return None;
      }
      entry := Some(entries[key]);
      if entry.value.Ready? {
        ghost var before := State();
        var pos := Position(lru, key);
        if pos < |lru| {
          lru := lru[..pos] + lru[pos + 1..];
          lru := lru + [key];
          log := log + [key];
        }
        assert State() == Promoted(before, key);
        PromotedIsValid(before, key);
        PromotedByRecency(before, old(log), key);
      }
    }

    method InsertPending(key: string, ticket: nat)
      requires Sound()
      modifies this`entries
      ensures State() == WithPending(old(State()), key, ticket)
      ensures Sound() <==> !IsReady(old(entries), key)
    {
      PendingIsValidIff(State(), key, ticket);
      entries := entries[key := Pending(ticket)];
    }

    /**
     * The eviction loop of `insert_ready`, entered with the key's own slot
     * already gone: `slots` are the slots before that removal and `others` the
     * queue that is left.
     */
    method EvictUntilFits(newSize: nat, ghost slots: map<string, PackEntry>, ghost key: string, ghost others: seq<string>)
      returns (ghost evictions: nat)
      requires NoDuplicates(others) && lru == others && entries == slots - {key}
      requires forall k :: k in others ==> k != key && IsReady(slots, k)
      requires readyBytes == TotalSize(slots, others)
      modifies this`entries, this`readyBytes, this`lru
      ensures evictions <= |others| && lru == others[evictions..]
      ensures entries == slots - {key} - Elements(others[..evictions])
      ensures readyBytes == TotalSize(slots, others[evictions..])
      ensures evictions < |others| ==> readyBytes + newSize <= maxBytes
      ensures evictions > 0 ==> TotalSize(slots, others[evictions - 1..]) + newSize > maxBytes
    {
      evictions := 0;
      assert others[0..] == others;
      while readyBytes + newSize > maxBytes && lru != []
        invariant evictions <= |others|
        invariant lru == others[evictions..]
        invariant readyBytes == TotalSize(slots, lru)
        invariant entries == slots - {key} - Elements(others[..evictions])
        invariant evictions > 0 ==> TotalSize(slots, others[evictions - 1..]) + newSize > maxBytes
        decreases |lru|
      {
        EvictOne(slots, key, others, evictions);
        var evictKey := lru[0];
        lru := lru[1..];
        if evictKey in entries && entries[evictKey].Ready? {
          readyBytes := SaturatingSub(readyBytes, |entries[evictKey].data|);
        }
        entries := entries - {evictKey};
        evictions := evictions + 1;
      }
    }

    method InsertReady(key: string, data: Bytes) returns (ghost evictions: nat)
      requires Sound()
      modifies this
      ensures Sound()
      ensures Inserts(old(State()), key, data, evictions, State())
      ensures log == old(log) + [key]
    {
      ghost var before := State();
      ghost var others := Without(lru, key);
      OthersFacts(before, key);
      if IsReady(entries, key) {
        readyBytes := SaturatingSub(readyBytes, |entries[key].data|);
        lru := Without(lru, key);
      }
      entries := entries - {key};
      evictions := EvictUntilFits(|data|, before.entries, key, others);
      readyBytes := readyBytes + |data|;
      lru := lru + [key];
      entries := entries[key := Ready(data)];
      log := log + [key];
      InsertedSlots(before.entries, key, data, others[..evictions]);
      assert Inserts(before, key, data, evictions, State());
      InsertsIsValid(before, key, data, evictions, State());
      InsertsByRecency(before, old(log), key, data, evictions, State());
    }

    method Remove(key: string)
      requires Sound()
      modifies this
      ensures Sound() && log == old(log)
      ensures State() == Dropped(old(State()), key)
    {
      DroppedIsValid(State(), key);
      WithoutOrder(log, lru, key);
      if IsReady(entries, key) {
        readyBytes := SaturatingSub(readyBytes, |entries[key].data|);
        lru := Without(lru, key);
      }
      entries := entries - {key};
    }
  }
}
