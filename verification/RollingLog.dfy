/**
 * The size-rolling log: a live file and numbered archives, slot 1 the newest.
 * An archive is modelled by the bytes it decompresses to.
 */
module RollingLog {
  import opened Basics

  datatype Log = Log(live: Bytes, size: nat, archives: map<nat, Bytes>)

  /** One rename of the cycle: slot `i` replaces slot `i + 1`. */
  function MovedUp(archives: map<nat, Bytes>, i: nat): map<nat, Bytes> {
    if i in archives then (archives - {i})[i + 1 := archives[i]] else archives
  }

  /** The renames of slots `i` down to 1. */
  function Cycled(archives: map<nat, Bytes>, i: nat): map<nat, Bytes>
    decreases i
  {
    if i == 0 then archives else Cycled(MovedUp(archives, i), i - 1)
  }

  function Rotated(log: Log, keep: nat): Log {
    Log([], 0, Cycled(log.archives, SaturatingSub(keep, 1))[1 := log.live])
  }

  /** A write of the bytes the file takes; a rotation that fails leaves some archives behind and the live file as it is. */
  function Appended(log: Log, maxBytes: nat, keep: nat, bytes: Bytes, failed: Option<map<nat, Bytes>>): Log {
    var ready := if log.size < maxBytes then log
                 else if failed.Some? then log.(archives := failed.value)
                 else Rotated(log, keep);
    Log(ready.live + bytes, ready.size + |bytes|, ready.archives)
  }

  class SizeRollingAppender {
    var live: Bytes
    var currentSize: nat
    var archives: map<nat, Bytes>
    const maxBytes: nat
    const keep: nat

    function State(): Log
      reads this
    {
      Log(live, currentSize, archives)
    }

    constructor (existing: Bytes, archives: map<nat, Bytes>, maxBytes: nat, keep: nat)
      ensures State() == Log(existing, |existing|, archives) && this.maxBytes == maxBytes && this.keep == keep
    {
      this.live := existing;
      this.currentSize := |existing|;
      this.archives := archives;
      this.maxBytes := maxBytes;
      this.keep := keep;
    }

    method Rotate()
      modifies this
      ensures State() == Rotated(old(State()), keep)
    {
      var i := SaturatingSub(keep, 1);
      while i > 0
        invariant i >= 0
        invariant Cycled(archives, i) == Cycled(old(archives), SaturatingSub(keep, 1))
        invariant live == old(live)
      {
        ghost var next := MovedUp(archives, i);
        if i in archives {
          var from := archives[i];
          if i + 1 in archives {
            archives := archives - {i + 1};
          }
          archives := (archives - {i})[i + 1 := from];
        }
        assert archives == next;
        i := i - 1;
      }
      archives := archives[1 := live];
      live := [];
      currentSize := 0;
    }

    /** `taken` bytes of the buffer are accepted by the file. */
    method Write(buf: Bytes, taken: nat, failed: Option<map<nat, Bytes>>) returns (n: nat)
      requires taken <= |buf|
      modifies this
      ensures n == taken && State() == Appended(old(State()), maxBytes, keep, buf[..taken], failed)
    {
      if currentSize >= maxBytes {
        if failed.Some? {
          archives := failed.value;
        } else {
          Rotate();
        }
      }
      live := live + buf[..taken];
      n := taken;
      currentSize := currentSize + n;
    }
  }

  // ---- what a rotation does to the slots --------------------------------------------------

  /** How many archives are retained. */
  function Slots(keep: nat): nat {
    Max(keep, 1)
  }

  /** Slot `j` after the cycle, when the slots had no gap. */
  lemma {:induction false} CycledAt(archives: map<nat, Bytes>, i: nat, j: nat)
    requires forall k :: 1 <= k <= i && k + 1 in archives ==> k in archives
    ensures j in Cycled(archives, i) <==>
            if i == 0 then j in archives else if j == 1 then false else if 2 <= j <= i + 1 then j - 1 in archives else j in archives
    ensures j in Cycled(archives, i) ==>
              Cycled(archives, i)[j] == if i > 0 && 2 <= j <= i + 1 then archives[j - 1] else archives[j]
    decreases i
  {
    if i > 0 {
      CycledAt(MovedUp(archives, i), i - 1, j);
    }
  }

  /**
   * The slots hold the newest `min(|generations|, Slots(keep))` rotated
   * generations, newest in slot 1, without a gap, and the size is the live length.
   */
  ghost predicate Holds(log: Log, generations: seq<Bytes>, keep: nat) {
    && log.size == |log.live|
    && forall j: nat ::
         && (j in log.archives <==> 1 <= j <= Min(|generations|, Slots(keep)))
         && (j in log.archives ==> log.archives[j] == generations[|generations| - j])
  }

  /** A rotation makes the live file the newest generation and forgets at most the oldest one. */
  lemma RotationHolds(log: Log, generations: seq<Bytes>, keep: nat)
    requires Holds(log, generations, keep)
    ensures Holds(Rotated(log, keep), generations + [log.live], keep)
  {
    var more := generations + [log.live];
    var log' := Rotated(log, keep);
    forall j: nat
      ensures j in log'.archives <==> 1 <= j <= Min(|more|, Slots(keep))
      ensures j in log'.archives ==> log'.archives[j] == more[|more| - j]
    {
      CycledAt(log.archives, SaturatingSub(keep, 1), j);
    }
  }

  // ---- runs of writes -------------------------------------------------------------------------

  datatype WriteCall = WriteCall(bytes: Bytes, failed: Option<map<nat, Bytes>>)

  /** The state after a run of writes. */
  function After(log: Log, maxBytes: nat, keep: nat, calls: seq<WriteCall>): Log {
    if calls == [] then log
    else
      var before := After(log, maxBytes, keep, calls[..|calls| - 1]);
      Appended(before, maxBytes, keep, calls[|calls| - 1].bytes, calls[|calls| - 1].failed)
  }

  /** All rotated generations, oldest first: the earlier ones and those that the run rotated out. */
  function Generations(log: Log, maxBytes: nat, keep: nat, calls: seq<WriteCall>, earlier: seq<Bytes>): seq<Bytes> {
    if calls == [] then earlier
    else
      var before := After(log, maxBytes, keep, calls[..|calls| - 1]);
      var sofar := Generations(log, maxBytes, keep, calls[..|calls| - 1], earlier);
      if before.size >= maxBytes && calls[|calls| - 1].failed.None? then sofar + [before.live] else sofar
  }

  /** Every byte ever written: the earlier generations, the live file the run started with, and the run's own writes. */
  function EverWritten(earlier: seq<Bytes>, log: Log, calls: seq<WriteCall>): Bytes {
    if calls == [] then Flatten(earlier) + log.live
    else EverWritten(earlier, log, calls[..|calls| - 1]) + calls[|calls| - 1].bytes
  }

  /**
   * Conservation, also over failed rotations: all generations and the live file
   * are together every byte ever written, in order.
   */
  lemma {:induction false} NothingLost(log: Log, maxBytes: nat, keep: nat, calls: seq<WriteCall>, earlier: seq<Bytes>)
    requires log.size == |log.live|
    ensures var log' := After(log, maxBytes, keep, calls);
            && Flatten(Generations(log, maxBytes, keep, calls, earlier)) + log'.live == EverWritten(earlier, log, calls)
            && log'.size == |log'.live|
  {
    if calls != [] {
      var init, last := calls[..|calls| - 1], calls[|calls| - 1];
      NothingLost(log, maxBytes, keep, init, earlier);
      var before := After(log, maxBytes, keep, init);
      var sofar := Generations(log, maxBytes, keep, init, earlier);
      if before.size >= maxBytes && last.failed.None? {
        FlattenSnoc(sofar, before.live);
        assert [] + last.bytes == last.bytes;
      } else {
        Associative(Flatten(sofar), before.live, last.bytes);
      }
    }
  }

  ghost predicate AllFull(generations: seq<Bytes>, maxBytes: nat) {
    forall g :: g in generations ==> |g| >= maxBytes
  }

  /** Every generation that a run rotates out had reached the threshold. */
  lemma {:induction false} GenerationsAreFull(log: Log, maxBytes: nat, keep: nat, calls: seq<WriteCall>, earlier: seq<Bytes>)
    requires log.size == |log.live| && AllFull(earlier, maxBytes)
    ensures AllFull(Generations(log, maxBytes, keep, calls, earlier), maxBytes)
  {
    if calls != [] {
      var init := calls[..|calls| - 1];
      NothingLost(log, maxBytes, keep, init, earlier);
      GenerationsAreFull(log, maxBytes, keep, init, earlier);
    }
  }

  /** Without failures the slots always hold the newest generations. */
  lemma {:induction false} RunHolds(log: Log, maxBytes: nat, keep: nat, calls: seq<WriteCall>, earlier: seq<Bytes>)
    requires Holds(log, earlier, keep) && forall c :: c in calls ==> c.failed.None?
    ensures Holds(After(log, maxBytes, keep, calls), Generations(log, maxBytes, keep, calls, earlier), keep)
  {
    if calls != [] {
      var init, last := calls[..|calls| - 1], calls[|calls| - 1];
      assert last in calls;
      RunHolds(log, maxBytes, keep, init, earlier);
      var before := After(log, maxBytes, keep, init);
      if before.size >= maxBytes {
        RotationHolds(before, Generations(log, maxBytes, keep, init, earlier), keep);
      }
    }
  }

  /** Slots `n` down to 1, one after another. */
  function Archived(log: Log, n: nat): Bytes
    requires forall j: nat :: 1 <= j <= n ==> j in log.archives
  {
    if n == 0 then [] else log.archives[n] + Archived(log, n - 1)
  }

  lemma {:induction false} ArchivedIsTail(log: Log, generations: seq<Bytes>, n: nat)
    requires n <= |generations| && forall j: nat :: 1 <= j <= n ==> j in log.archives && log.archives[j] == generations[|generations| - j]
    ensures Archived(log, n) == Flatten(generations[|generations| - n..])
  {
    if n > 0 {
      ArchivedIsTail(log, generations, n - 1);
      var tail := generations[|generations| - n..];
      assert tail[1..] == generations[|generations| - (n - 1)..];
    }
  }

  /** `n` contiguous slots, and oldest to newest with the live file they are a suffix of `everything`. */
  ghost predicate OnDisk(log: Log, n: nat, everything: Bytes) {
    && (forall j: nat :: j in log.archives <==> 1 <= j <= n)
    && var disk := Archived(log, n) + log.live;
       |disk| <= |everything| && everything[|everything| - |disk|..] == disk
  }

  /**
   * The log on disk, with no rotation failing and from any state that a run may
   * have left: oldest archive to slot 1 and then the live file are a suffix of
   * all bytes ever written, in min(generations, Slots(keep)) contiguous slots;
   * the whole of it while no generation has been dropped.
   */
  lemma DiskIsSuffix(log: Log, maxBytes: nat, keep: nat, calls: seq<WriteCall>, earlier: seq<Bytes>)
    requires Holds(log, earlier, keep) && forall c :: c in calls ==> c.failed.None?
    ensures var log' := After(log, maxBytes, keep, calls);
            var generations := |Generations(log, maxBytes, keep, calls, earlier)|;
            && OnDisk(log', Min(generations, Slots(keep)), EverWritten(earlier, log, calls))
            && (generations <= Slots(keep) ==> Archived(log', generations) + log'.live == EverWritten(earlier, log, calls))
  {
    RunHolds(log, maxBytes, keep, calls, earlier);
    NothingLost(log, maxBytes, keep, calls, earlier);
    SlotsAreSuffix(After(log, maxBytes, keep, calls), Generations(log, maxBytes, keep, calls, earlier), keep,
                   EverWritten(earlier, log, calls));
  }

  lemma SlotsAreSuffix(log: Log, out: seq<Bytes>, keep: nat, everything: Bytes)
    requires Holds(log, out, keep) && Flatten(out) + log.live == everything
    ensures OnDisk(log, Min(|out|, Slots(keep)), everything)
    ensures |out| <= Slots(keep) ==> Archived(log, |out|) + log.live == everything
  {
    var n := Min(|out|, Slots(keep));
    var dropped, kept := out[..|out| - n], out[|out| - n..];
    ArchivedIsTail(log, out, n);
    assert out == dropped + kept;
    FlattenAppend(dropped, kept);
    SuffixOf(Flatten(dropped), Flatten(kept), log.live, everything);
  }

  lemma SuffixOf(a: Bytes, b: Bytes, c: Bytes, all: Bytes)
    requires a + b + c == all
    ensures |b + c| <= |all| && all[|all| - |b + c|..] == b + c
    ensures a == [] ==> b + c == all
  {
    Associative(a, b, c);
  }

  lemma {:induction false} ArchivedAtLeast(log: Log, n: nat, maxBytes: nat)
    requires forall j: nat :: 1 <= j <= n ==> j in log.archives && |log.archives[j]| >= maxBytes
    ensures |Archived(log, n)| >= n * maxBytes
  {
    if n > 0 {
      ArchivedAtLeast(log, n - 1, maxBytes);
      assert n * maxBytes == (n - 1) * maxBytes + maxBytes;
    }
  }

  /**
   * What the log is good for: with no rotation failing, the archives hold at
   * least min(generations, Slots(keep)) times the threshold of the newest bytes.
   */
  lemma RetainsAtLeast(log: Log, maxBytes: nat, keep: nat, calls: seq<WriteCall>, earlier: seq<Bytes>)
    requires Holds(log, earlier, keep) && AllFull(earlier, maxBytes) && forall c :: c in calls ==> c.failed.None?
    ensures var log' := After(log, maxBytes, keep, calls);
            var n := Min(|Generations(log, maxBytes, keep, calls, earlier)|, Slots(keep));
            && OnDisk(log', n, EverWritten(earlier, log, calls))
            && |Archived(log', n)| >= n * maxBytes
  {
    RunHolds(log, maxBytes, keep, calls, earlier);
    DiskIsSuffix(log, maxBytes, keep, calls, earlier);
    GenerationsAreFull(log, maxBytes, keep, calls, earlier);
    var out := Generations(log, maxBytes, keep, calls, earlier);
    ArchivedAtLeast(After(log, maxBytes, keep, calls), Min(|out|, Slots(keep)), maxBytes);
  }

  /** The retention is `keep`, except that a limit of zero still retains one archive. */
  lemma ZeroKeepsOne(log: Log, maxBytes: nat, keep: nat, calls: seq<WriteCall>, earlier: seq<Bytes>)
    requires Holds(log, earlier, keep) && forall c :: c in calls ==> c.failed.None?
    requires |Generations(log, maxBytes, keep, calls, earlier)| > keep
    ensures (forall j :: j in After(log, maxBytes, keep, calls).archives ==> j <= keep) <==> keep > 0
  {
    DiskIsSuffix(log, maxBytes, keep, calls, earlier);
    assert keep == 0 ==> 1 in After(log, maxBytes, keep, calls).archives;
  }

  /** A rotation deletes no archive beyond the limit: those of a run with a higher one stay for good. */
  lemma BeyondTheLimitStays(log: Log, keep: nat, j: nat)
    requires j > Slots(keep) && j in log.archives
    requires forall k :: 1 <= k < keep && k + 1 in log.archives ==> k in log.archives
    ensures j in Rotated(log, keep).archives && Rotated(log, keep).archives[j] == log.archives[j]
  {
    CycledAt(log.archives, SaturatingSub(keep, 1), j);
  }
}
