/** The bounded list of recently used endpoints, newest first. */
module RecentList {
  const MAX_RECENT: nat := 5

  datatype Key = Key(endpointType: string, url: string, keyId: string)

  /** `details` stands for everything that is not part of the identity. */
  datatype Endpoint = Endpoint(key: Key, details: string, lastUsed: nat)

  function Unless(e: Endpoint, key: Key): seq<Endpoint> {
    if e.key == key then [] else [e]
  }

  function Without(items: seq<Endpoint>, key: Key): seq<Endpoint> {
    if items == [] then [] else Unless(items[0], key) + Without(items[1..], key)
  }

  lemma WithoutStep(items: seq<Endpoint>, key: Key, i: nat, kept: seq<Endpoint>)
    requires i < |items|
    ensures kept + Without(items[i..], key) == kept + Unless(items[i], key) + Without(items[i + 1..], key)
  {
    var rest := items[i..];
    assert rest[0] == items[i] && rest[1..] == items[i + 1..];
  }

  function First(items: seq<Endpoint>, n: nat): seq<Endpoint> {
    if |items| > n then items[..n] else items
  }

  function Touched(items: seq<Endpoint>, e: Endpoint): seq<Endpoint> {
    First([e] + Without(items, e.key), MAX_RECENT)
  }

  class Recent {
    var items: seq<Endpoint>

    constructor ()
      ensures items == []
    {
      items := [];
    }

    method Retain(key: Key)
      modifies this
      ensures items == Without(old(items), key)
    {
      var kept: seq<Endpoint> := [];
      var i := 0;
      while i < |items|
        invariant 0 <= i <= |items| && items == old(items)
        invariant kept + Without(items[i..], key) == Without(items, key)
      {
        WithoutStep(items, key, i, kept);
        if items[i].key != key {
          kept := kept + [items[i]];
        }
        i := i + 1;
      }
      items := kept;
    }

    /** An entry that was never used is stamped with the time. */
    method Touch(entry: Endpoint, now: nat)
      modifies this
      ensures items == Touched(old(items), if entry.lastUsed == 0 then entry.(lastUsed := now) else entry)
    {
      var e := entry;
      if e.lastUsed == 0 {
        e := e.(lastUsed := now);
      }
      Retain(e.key);
      items := [e] + items;
      if |items| > MAX_RECENT {
        items := items[..MAX_RECENT];
      }
    }

    method Remove(key: Key) returns (removed: bool)
      modifies this
      ensures items == Without(old(items), key)
      ensures removed <==> exists i :: 0 <= i < |old(items)| && old(items)[i].key == key
    {
      var before := |items|;
      WithoutLength(items, key);
      Retain(key);
      removed := |items| != before;
    }
  }

  lemma {:induction false} WithoutLength(items: seq<Endpoint>, key: Key)
    ensures |Without(items, key)| <= |items|
    ensures |Without(items, key)| == |items| <==> forall i :: 0 <= i < |items| ==> items[i].key != key
    ensures |Without(items, key)| == |items| ==> Without(items, key) == items
  {
    if items != [] {
      WithoutLength(items[1..], key);
      assert items == [items[0]] + items[1..];
    }
  }

  ghost predicate DistinctKeys(items: seq<Endpoint>) {
    forall i, j :: 0 <= i < j < |items| ==> items[i].key != items[j].key
  }

  lemma {:induction false} WithoutContent(items: seq<Endpoint>, key: Key)
    ensures forall e :: e in Without(items, key) <==> e in items && e.key != key
  {
    if items != [] {
      WithoutContent(items[1..], key);
      assert items == [items[0]] + items[1..];
    }
  }

  lemma {:induction false} WithoutDistinct(items: seq<Endpoint>, key: Key)
    requires DistinctKeys(items)
    ensures DistinctKeys(Without(items, key))
  {
    if items != [] {
      var rest := items[1..];
      var kept := Without(rest, key);
      assert DistinctKeys(rest);
      WithoutDistinct(rest, key);
      WithoutContent(rest, key);
      forall j | 0 <= j < |kept| ensures kept[j].key != items[0].key {
        assert kept[j] in rest;
      }
    }
  }

  // ---- against the whole history ------------------------------------------------------------

  datatype Event = Touching(entry: Endpoint) | Removing(key: Key)

  function KeyOf(e: Event): Key {
    match e
    case Touching(entry) => entry.key
    case Removing(key) => key
  }

  /** The list after any touches and removals, from an empty one. */
  function After(history: seq<Event>): seq<Endpoint> {
    if history == [] then []
    else match history[|history| - 1]
      case Touching(e) => Touched(After(history[..|history| - 1]), e)
      case Removing(key) => Without(After(history[..|history| - 1]), key)
  }

  /** The same without a limit. */
  function LatestFirst(history: seq<Event>): seq<Endpoint> {
    if history == [] then []
    else match history[|history| - 1]
      case Touching(e) => [e] + Without(LatestFirst(history[..|history| - 1]), e.key)
      case Removing(key) => Without(LatestFirst(history[..|history| - 1]), key)
  }

  /** Event `i` touched `e`, and nothing later concerns its key. */
  ghost predicate LastTouch(history: seq<Event>, i: int, e: Endpoint) {
    0 <= i < |history| && history[i] == Touching(e) && forall j :: i < j < |history| ==> KeyOf(history[j]) != e.key
  }

  /** `x` was last touched after `y` was. */
  ghost predicate Later(history: seq<Event>, x: Endpoint, y: Endpoint) {
    forall i, j :: LastTouch(history, i, x) && LastTouch(history, j, y) ==> i > j
  }

  /** Latest first: each entry was last touched after all that follow it. */
  ghost predicate InOrder(history: seq<Event>, items: seq<Endpoint>) {
    items != [] ==> (forall y :: y in items[1..] ==> Later(history, items[0], y)) && InOrder(history, items[1..])
  }

  lemma LastTouchSnoc(init: seq<Event>, last: Event, i: int, e: Endpoint)
    requires 0 <= i < |init|
    ensures LastTouch(init + [last], i, e) <==> LastTouch(init, i, e) && KeyOf(last) != e.key
  {
    var history := init + [last];
    if LastTouch(history, i, e) {
      assert history[|init|] == last;
      assert forall j :: i < j < |init| ==> history[j] == init[j];
    }
  }

  /** A later event leaves the order of the other keys alone. */
  lemma LaterSnoc(init: seq<Event>, last: Event, x: Endpoint, y: Endpoint)
    requires Later(init, x, y) && KeyOf(last) != x.key && KeyOf(last) != y.key
    ensures Later(init + [last], x, y)
  {
    forall i, j | LastTouch(init + [last], i, x) && LastTouch(init + [last], j, y) ensures i > j {
      NotTheLast(init, last, i, x);
      NotTheLast(init, last, j, y);
    }
  }

  lemma NotTheLast(init: seq<Event>, last: Event, i: int, e: Endpoint)
    requires LastTouch(init + [last], i, e) && KeyOf(last) != e.key
    ensures LastTouch(init, i, e)
  {
    assert i < |init|;
    LastTouchSnoc(init, last, i, e);
  }

  lemma {:induction false} OrderWithout(init: seq<Event>, last: Event, items: seq<Endpoint>)
    requires InOrder(init, items)
    ensures InOrder(init + [last], Without(items, KeyOf(last)))
  {
    if items != [] {
      var rest := Without(items[1..], KeyOf(last));
      OrderWithout(init, last, items[1..]);
      WithoutContent(items[1..], KeyOf(last));
      if items[0].key != KeyOf(last) {
        forall y | y in rest ensures Later(init + [last], items[0], y) {
          LaterSnoc(init, last, items[0], y);
        }
        InOrderCons(init + [last], items[0], rest);
      } else {
        assert Without(items, KeyOf(last)) == rest;
      }
    }
  }

  lemma InOrderCons(history: seq<Event>, x: Endpoint, rest: seq<Endpoint>)
    requires InOrder(history, rest) && forall y :: y in rest ==> Later(history, x, y)
    ensures InOrder(history, [x] + rest)
  {
    assert ([x] + rest)[1..] == rest;
  }

  /** A new touch comes after all others. */
  lemma NewestIsLater(init: seq<Event>, e: Endpoint, y: Endpoint)
    requires y.key != e.key
    ensures Later(init + [Touching(e)], e, y)
  {
    var history := init + [Touching(e)];
    forall i, j | LastTouch(history, i, e) && LastTouch(history, j, y) ensures i > j {
      assert history[|init|] == Touching(e);
    }
  }

  /** Latest first it is. */
  lemma {:induction false} LatestFirstInOrder(history: seq<Event>)
    ensures InOrder(history, LatestFirst(history))
  {
    if history != [] {
      var init, last := history[..|history| - 1], history[|history| - 1];
      var rest := Without(LatestFirst(init), KeyOf(last));
      LatestFirstInOrder(init);
      OrderWithout(init, last, LatestFirst(init));
      assert history == init + [last];
      if last.Touching? {
        WithoutContent(LatestFirst(init), last.entry.key);
        forall y | y in rest ensures Later(history, last.entry, y) {
          NewestIsLater(init, last.entry, y);
        }
        InOrderCons(history, last.entry, rest);
      }
    }
  }

  /** Exactly the entries whose touch no later touch or removal undid. */
  lemma {:induction false} LatestFirstContent(history: seq<Event>, e: Endpoint)
    ensures DistinctKeys(LatestFirst(history))
    ensures e in LatestFirst(history) <==> exists i :: LastTouch(history, i, e)
  {
    if history != [] {
      var init, last := history[..|history| - 1], history[|history| - 1];
      LatestFirstContent(init, e);
      WithoutContent(LatestFirst(init), KeyOf(last));
      WithoutDistinct(LatestFirst(init), KeyOf(last));
      HasTouchSnoc(init, last, e);
      assert history == init + [last];
      if last.Touching? {
        FrontDistinct(last.entry, Without(LatestFirst(init), last.entry.key));
      }
    }
  }

  lemma FrontDistinct(e: Endpoint, rest: seq<Endpoint>)
    requires DistinctKeys(rest) && forall x :: x in rest ==> x.key != e.key
    ensures DistinctKeys([e] + rest)
  {
    forall j | 0 <= j < |rest| ensures rest[j].key != e.key {
      assert rest[j] in rest;
    }
  }

  lemma HasTouchSnoc(init: seq<Event>, last: Event, e: Endpoint)
    ensures (exists i :: LastTouch(init + [last], i, e)) <==>
            last == Touching(e) || ((exists i :: LastTouch(init, i, e)) && e.key != KeyOf(last))
  {
    var history := init + [last];
    if last == Touching(e) {
      assert LastTouch(history, |init|, e);
    }
    if i :| LastTouch(history, i, e) && i < |init| {
      LastTouchSnoc(init, last, i, e);
    }
    if i :| LastTouch(init, i, e) && e.key != KeyOf(last) {
      LastTouchSnoc(init, last, i, e);
      assert LastTouch(history, i, e);
    }
  }

  /** Cutting to a limit before or after dropping a key gives the same first entries. */
  lemma {:induction false} CutWithout(items: seq<Endpoint>, key: Key, n: nat)
    requires DistinctKeys(items) && n > 0
    ensures First(Without(First(items, n), key), n - 1) == First(Without(items, key), n - 1)
    decreases |items|
  {
    if |items| > n {
      var rest := items[1..];
      assert DistinctKeys(rest);
      assert First(items, n) == [items[0]] + First(rest, n - 1);
      assert First(items, n)[1..] == First(rest, n - 1);
      if items[0].key == key {
        NoneLeft(rest, key);
        NoneLeft(First(rest, n - 1), key);
      } else if n > 1 {
        CutWithout(rest, key, n - 1);
        WithoutLength(First(rest, n - 1), key);
        FirstCons(items[0], Without(First(rest, n - 1), key), n - 2);
        FirstCons(items[0], Without(rest, key), n - 2);
      }
    }
  }

  lemma NoneLeft(items: seq<Endpoint>, key: Key)
    requires forall i :: 0 <= i < |items| ==> items[i].key != key
    ensures Without(items, key) == items
  {
    WithoutLength(items, key);
  }

  lemma FirstCons(head: Endpoint, rest: seq<Endpoint>, n: nat)
    ensures First([head] + rest, n + 1) == [head] + First(rest, n)
  {
  }

  /** Dropping a key from a beginning of the list leaves a beginning of what is left. */
  lemma {:induction false} PrefixWithout(items: seq<Endpoint>, n: nat, key: Key)
    requires n <= |items|
    ensures Without(items[..n], key) <= Without(items, key)
  {
    if n > 0 {
      PrefixWithout(items[1..], n - 1, key);
      assert items[..n][0] == items[0] && items[..n][1..] == items[1..][..n - 1];
    }
  }

  /**
   * After any touches and removals the list is a beginning of all remembered
   * identities, latest first, of at most five entries; after touches alone it
   * is the five most recent ones.  What a removal makes room for does not come
   * back.
   */
  lemma {:induction false} FiveMostRecent(history: seq<Event>)
    ensures After(history) <= LatestFirst(history) && |After(history)| <= 5
    ensures (forall e :: e in history ==> e.Touching?) ==> After(history) == First(LatestFirst(history), 5)
  {
    if history != [] {
      var init, last := history[..|history| - 1], history[|history| - 1];
      FiveMostRecent(init);
      assert history == init + [last];
      var shorter, all := After(init), LatestFirst(init);
      assert shorter == all[..|shorter|];
      PrefixWithout(all, |shorter|, KeyOf(last));
      WithoutLength(shorter, KeyOf(last));
      if last.Touching? {
        TouchedPrefix(shorter, all, last.entry);
        if forall e :: e in history ==> e.Touching? {
          TouchedFirst(init, last.entry);
        }
      } else {
        assert last in history;
      }
    }
  }

  lemma TouchedPrefix(shorter: seq<Endpoint>, all: seq<Endpoint>, e: Endpoint)
    requires Without(shorter, e.key) <= Without(all, e.key)
    ensures Touched(shorter, e) <= [e] + Without(all, e.key) && |Touched(shorter, e)| <= MAX_RECENT
  {
    assert [e] + Without(shorter, e.key) <= [e] + Without(all, e.key);
  }

  lemma TouchedFirst(init: seq<Event>, e: Endpoint)
    requires After(init) == First(LatestFirst(init), MAX_RECENT)
    ensures Touched(After(init), e) == First([e] + Without(LatestFirst(init), e.key), MAX_RECENT)
  {
    LatestFirstContent(init, e);
    CutWithout(LatestFirst(init), e.key, MAX_RECENT);
    FirstCons(e, Without(After(init), e.key), MAX_RECENT - 1);
    FirstCons(e, Without(LatestFirst(init), e.key), MAX_RECENT - 1);
  }
}
