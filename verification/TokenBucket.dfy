/** The bandwidth throttle: each transfer reserves a slot of time, with at most two seconds of waiting. */
module TokenBucket {
  const MAX_WAIT := 2.0

  function MaxReal(a: real, b: real): real {
    if a >= b then a else b
  }

  function MinReal(a: real, b: real): real {
    if a <= b then a else b
  }

  /** When a transfer asked for at `now` may start. */
  function SlotStart(next: real, now: real): real {
    MinReal(MaxReal(next, now), now + MAX_WAIT)
  }

  /** The duration of a transfer at the rate. */
  function Delay(rate: real, bytes: nat): real
    requires rate > 0.0
  {
    bytes as real / rate
  }

  class Bucket {
    const rate: real
    var nextAllowed: real

    constructor (kbps: nat, now: real)
      ensures rate == kbps as real * 1024.0 && nextAllowed == now
    {
      rate := kbps as real * 1024.0;
      nextAllowed := now;
    }

    /** One transfer; the clock is read at `now` and, before sleeping, at `later`. */
    method Consume(bytes: nat, now: real, later: real) returns (slept: real)
      requires now <= later
      modifies this
      ensures rate <= 0.0 || bytes == 0 ==> nextAllowed == old(nextAllowed) && slept == 0.0
      ensures rate > 0.0 && bytes > 0 ==>
                && nextAllowed == SlotStart(old(nextAllowed), now) + Delay(rate, bytes)
                && slept == MaxReal(SlotStart(old(nextAllowed), now) - later, 0.0)
      ensures 0.0 <= slept <= 2.0 && (old(nextAllowed) <= now ==> slept == 0.0)
      ensures rate > 0.0 && bytes > 0 && slept > 0.0 ==> later + slept == SlotStart(old(nextAllowed), now)
    {
      slept := 0.0;
      if rate <= 0.0 || bytes == 0 {
        return;
      }
      var delay := bytes as real / rate;
      var start := MaxReal(nextAllowed, now);
      var maxStart := now + MAX_WAIT;
      start := MinReal(start, maxStart);
      nextAllowed := start + delay;
      if start > later {
        slept := start - later;
      }
    }
  }

  // ---- runs of transfers ------------------------------------------------------------------

  datatype Transfer = Transfer(now: real, bytes: nat)

  /** `nextAllowed` after the first `k` transfers of a run. */
  function NextAfter(rate: real, first: real, ts: seq<Transfer>, k: nat): real
    requires rate > 0.0 && k <= |ts|
    decreases k, 0
  {
    if k == 0 then first
    else if ts[k - 1].bytes == 0 then NextAfter(rate, first, ts, k - 1)
    else Start(rate, first, ts, k - 1) + Delay(rate, ts[k - 1].bytes)
  }

  /** Where the slot of transfer `k` starts; an empty transfer takes no slot. */
  function Start(rate: real, first: real, ts: seq<Transfer>, k: nat): real
    requires rate > 0.0 && k < |ts|
    decreases k, 1
  {
    var next := NextAfter(rate, first, ts, k);
    if ts[k].bytes == 0 then next else SlotStart(next, ts[k].now)
  }

  /** The backlog a transfer finds is at most two seconds. */
  predicate WithinBacklog(rate: real, first: real, ts: seq<Transfer>, k: nat)
    requires rate > 0.0 && k < |ts|
  {
    ts[k].bytes == 0 || NextAfter(rate, first, ts, k) <= ts[k].now + MAX_WAIT
  }

  /** A slot starts no earlier than the end of the one before exactly when the backlog was within bounds. */
  lemma SlotsApartIff(rate: real, first: real, ts: seq<Transfer>, k: nat)
    requires rate > 0.0 && k < |ts|
    ensures Start(rate, first, ts, k) >= NextAfter(rate, first, ts, k) <==> WithinBacklog(rate, first, ts, k)
  {
  }

  function BytesBetween(ts: seq<Transfer>, i: nat, j: nat): nat
    requires i <= j <= |ts|
  {
    if i == j then 0 else BytesBetween(ts, i, j - 1) + ts[j - 1].bytes
  }

  function TimeBetween(rate: real, ts: seq<Transfer>, i: nat, j: nat): real
    requires rate > 0.0 && i <= j <= |ts|
  {
    if i == j then 0.0 else TimeBetween(rate, ts, i, j - 1) + Delay(rate, ts[j - 1].bytes)
  }

  lemma DelayBytes(rate: real, bytes: nat)
    requires rate > 0.0
    ensures rate * Delay(rate, bytes) == bytes as real
    ensures bytes == 0 ==> Delay(rate, bytes) == 0.0
  {
  }

  lemma Spread(rate: real, x: real, y: real)
    ensures rate * (x + y) == rate * x + rate * y
  {
  }

  lemma Ordered(rate: real, x: real, y: real)
    requires rate > 0.0 && x <= y
    ensures rate * x <= rate * y
  {
  }

  lemma {:induction false} BytesAreTime(rate: real, ts: seq<Transfer>, i: nat, j: nat)
    requires rate > 0.0 && i <= j <= |ts|
    ensures BytesBetween(ts, i, j) as real == rate * TimeBetween(rate, ts, i, j)
    decreases j - i
  {
    if i < j {
      BytesAreTime(rate, ts, i, j - 1);
      DelayBytes(rate, ts[j - 1].bytes);
      Spread(rate, TimeBetween(rate, ts, i, j - 1), Delay(rate, ts[j - 1].bytes));
    }
  }

  /** Within the backlog, transfers `i` up to `j` take no more time than passes from the start of `i` to the next free moment. */
  lemma {:induction false} ReservedInOrder(rate: real, first: real, ts: seq<Transfer>, i: nat, j: nat)
    requires rate > 0.0 && i < j <= |ts| && forall k :: i < k < j ==> WithinBacklog(rate, first, ts, k)
    ensures TimeBetween(rate, ts, i, j) <= NextAfter(rate, first, ts, j) - Start(rate, first, ts, i)
    decreases j
  {
    DelayBytes(rate, ts[j - 1].bytes);
    assert TimeBetween(rate, ts, i, j) == TimeBetween(rate, ts, i, j - 1) + Delay(rate, ts[j - 1].bytes);
    if j == i + 1 {
      assert TimeBetween(rate, ts, i, i) == 0.0;
    } else {
      ReservedInOrder(rate, first, ts, i, j - 1);
      assert WithinBacklog(rate, first, ts, j - 1);
    }
  }

  /**
   * The rate over any window: transfers whose slots start within `span` of the
   * first of them carry at most rate times the span and one transfer more,
   * provided that no later one found more than two seconds of backlog.
   */
  lemma WindowBound(rate: real, first: real, ts: seq<Transfer>, i: nat, j: nat, span: real)
    requires rate > 0.0 && i <= j < |ts| && forall k :: i < k <= j ==> WithinBacklog(rate, first, ts, k)
    requires span >= 0.0 && Start(rate, first, ts, j) - Start(rate, first, ts, i) <= span
    ensures BytesBetween(ts, i, j + 1) as real <= rate * span + ts[j].bytes as real
  {
    TimeFits(rate, first, ts, i, j, span);
    TimeBoundsBytes(rate, ts, i, j, span);
  }

  lemma TimeBoundsBytes(rate: real, ts: seq<Transfer>, i: nat, j: nat, span: real)
    requires rate > 0.0 && i <= j < |ts| && TimeBetween(rate, ts, i, j) <= span
    ensures BytesBetween(ts, i, j + 1) as real <= rate * span + ts[j].bytes as real
  {
    BytesAreTime(rate, ts, i, j);
    assert BytesBetween(ts, i, j + 1) == BytesBetween(ts, i, j) + ts[j].bytes;
    AtMostRate(rate, TimeBetween(rate, ts, i, j), span, BytesBetween(ts, i, j), ts[j].bytes);
  }

  lemma AtMostRate(rate: real, time: real, span: real, before: nat, last: nat)
    requires rate > 0.0 && time <= span && before as real == rate * time
    ensures (before + last) as real <= rate * span + last as real
  {
    Ordered(rate, time, span);
    assert (before + last) as real == before as real + last as real;
  }

  lemma TimeFits(rate: real, first: real, ts: seq<Transfer>, i: nat, j: nat, span: real)
    requires rate > 0.0 && i <= j < |ts| && forall k :: i < k <= j ==> WithinBacklog(rate, first, ts, k)
    requires span >= 0.0 && Start(rate, first, ts, j) - Start(rate, first, ts, i) <= span
    ensures TimeBetween(rate, ts, i, j) <= span
  {
    if i < j {
      ReservedInOrder(rate, first, ts, i, j);
      assert WithinBacklog(rate, first, ts, j);
      SlotsApartIff(rate, first, ts, j);
    }
  }

  /** The bytes reserved from the start of `i` to that of `j`, and transfer `j` itself. */
  ghost predicate WithinRate(rate: real, first: real, ts: seq<Transfer>, i: nat, j: nat)
    requires rate > 0.0 && i <= j < |ts|
  {
    BytesBetween(ts, i, j + 1) as real <= rate * (Start(rate, first, ts, j) - Start(rate, first, ts, i)) + ts[j].bytes as real
  }

  /** In order and without overlap, slots start no earlier than the ones before. */
  lemma {:induction false} StartsInOrder(rate: real, first: real, ts: seq<Transfer>, i: nat, j: nat)
    requires rate > 0.0 && i <= j < |ts| && forall k :: i < k <= j ==> WithinBacklog(rate, first, ts, k)
    ensures Start(rate, first, ts, i) <= Start(rate, first, ts, j)
    decreases j
  {
    if i < j {
      StartsInOrder(rate, first, ts, i, j - 1);
      assert WithinBacklog(rate, first, ts, j);
      SlotsApartIff(rate, first, ts, j);
      NextIsLater(rate, first, ts, j);
    }
  }

  lemma NextIsLater(rate: real, first: real, ts: seq<Transfer>, k: nat)
    requires rate > 0.0 && 0 < k <= |ts|
    ensures NextAfter(rate, first, ts, k) == Start(rate, first, ts, k - 1) + Delay(rate, ts[k - 1].bytes)
    ensures Delay(rate, ts[k - 1].bytes) >= 0.0
  {
    DelayBytes(rate, ts[k - 1].bytes);
  }

  /** A transfer that finds too much backlog starts inside the slot before, and the two exceed the rate together. */
  lemma OverlapExceeds(rate: real, first: real, ts: seq<Transfer>, k: nat)
    requires rate > 0.0 && 0 < k < |ts| && !WithinBacklog(rate, first, ts, k)
    ensures !WithinRate(rate, first, ts, k - 1, k)
  {
    var gap, delay := Start(rate, first, ts, k) - Start(rate, first, ts, k - 1), Delay(rate, ts[k - 1].bytes);
    assert gap < delay by {
      SlotsApartIff(rate, first, ts, k);
      NextIsLater(rate, first, ts, k);
    }
    TooManyBytes(rate, ts, k, gap);
  }

  lemma TooManyBytes(rate: real, ts: seq<Transfer>, k: nat, gap: real)
    requires rate > 0.0 && 0 < k < |ts| && gap < Delay(rate, ts[k - 1].bytes)
    ensures BytesBetween(ts, k - 1, k + 1) as real > rate * gap + ts[k].bytes as real
  {
    DelayBytes(rate, ts[k - 1].bytes);
    Larger(rate, gap, Delay(rate, ts[k - 1].bytes));
    LastTransfer(ts, k - 1, k);
    LastTransfer(ts, k - 1, k - 1);
  }

  lemma LastTransfer(ts: seq<Transfer>, i: nat, j: nat)
    requires i <= j < |ts|
    ensures BytesBetween(ts, i, j + 1) as real == BytesBetween(ts, i, j) as real + ts[j].bytes as real
    ensures BytesBetween(ts, i, i) == 0
  {
  }

  lemma Larger(rate: real, x: real, y: real)
    requires rate > 0.0 && x < y
    ensures rate * x < rate * y
  {
  }

  /**
   * When the throttle keeps its rate: over every window of the run the bytes
   * whose slots start in it are within rate times the window and one transfer
   * more, exactly when no transfer but the first found more than two seconds of
   * backlog.
   */
  lemma RateHoldsIff(rate: real, first: real, ts: seq<Transfer>)
    requires rate > 0.0
    ensures (forall i: nat, j: nat :: i <= j < |ts| ==> WithinRate(rate, first, ts, i, j)) <==>
            (forall k: nat :: 0 < k < |ts| ==> WithinBacklog(rate, first, ts, k))
  {
    if forall k: nat :: 0 < k < |ts| ==> WithinBacklog(rate, first, ts, k) {
      forall i: nat, j: nat | i <= j < |ts| ensures WithinRate(rate, first, ts, i, j) {
        StartsInOrder(rate, first, ts, i, j);
        WindowBound(rate, first, ts, i, j, Start(rate, first, ts, j) - Start(rate, first, ts, i));
      }
    } else {
      var k: nat :| 0 < k < |ts| && !WithinBacklog(rate, first, ts, k);
      OverlapExceeds(rate, first, ts, k);
    }
  }

  /** Such runs exist: two transfers asked for at one moment, the first longer than two seconds. */
  lemma BacklogBreaksTheRate(rate: real, bytes: nat)
    requires rate > 0.0 && Delay(rate, bytes) > MAX_WAIT
    ensures var ts := [Transfer(0.0, bytes), Transfer(0.0, bytes)]; !WithinRate(rate, 0.0, ts, 0, 1)
  {
    var ts := [Transfer(0.0, bytes), Transfer(0.0, bytes)];
    DelayBytes(rate, bytes);
    assert bytes > 0;
    assert NextAfter(rate, 0.0, ts, 1) == Delay(rate, bytes);
    OverlapExceeds(rate, 0.0, ts, 1);
  }

  /** No transfer is asked for before the slot of the one before is over. */
  ghost predicate Spaced(rate: real, first: real, ts: seq<Transfer>)
    requires rate > 0.0
  {
    && (ts != [] ==> first <= ts[0].now)
    && forall k :: 0 < k < |ts| ==> ts[k - 1].now + Delay(rate, ts[k - 1].bytes) <= ts[k].now
  }

  lemma {:induction false} SpacedIsFree(rate: real, first: real, ts: seq<Transfer>, k: nat)
    requires rate > 0.0 && k < |ts| && Spaced(rate, first, ts) && forall j :: 0 <= j < |ts| ==> ts[j].bytes > 0
    ensures NextAfter(rate, first, ts, k) <= ts[k].now && Start(rate, first, ts, k) == ts[k].now
  {
    if k > 0 {
      SpacedIsFree(rate, first, ts, k - 1);
    }
  }

  lemma {:induction false} FreeIsSpaced(rate: real, first: real, ts: seq<Transfer>, k: nat)
    requires rate > 0.0 && k < |ts| && forall j :: 0 <= j < |ts| ==> ts[j].bytes > 0 && Start(rate, first, ts, j) == ts[j].now
    ensures NextAfter(rate, first, ts, k) <= ts[k].now
    ensures k > 0 ==> NextAfter(rate, first, ts, k) == ts[k - 1].now + Delay(rate, ts[k - 1].bytes)
  {
  }

  /**
   * When the throttle is not felt: over a run every transfer starts the moment
   * it is asked for, exactly when each is asked for after the slot before.
   */
  lemma NoWaitIff(rate: real, first: real, ts: seq<Transfer>)
    requires rate > 0.0 && forall j :: 0 <= j < |ts| ==> ts[j].bytes > 0
    ensures (forall k :: 0 <= k < |ts| ==> Start(rate, first, ts, k) == ts[k].now) <==> Spaced(rate, first, ts)
  {
    if Spaced(rate, first, ts) {
      forall k | 0 <= k < |ts| ensures Start(rate, first, ts, k) == ts[k].now {
        SpacedIsFree(rate, first, ts, k);
      }
    } else if forall k :: 0 <= k < |ts| ==> Start(rate, first, ts, k) == ts[k].now {
      forall k | 0 <= k < |ts|
        ensures NextAfter(rate, first, ts, k) <= ts[k].now
        ensures k > 0 ==> NextAfter(rate, first, ts, k) == ts[k - 1].now + Delay(rate, ts[k - 1].bytes) {
        FreeIsSpaced(rate, first, ts, k);
      }
      assert false;
    }
  }
}
