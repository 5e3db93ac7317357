/**
 * Selection rules of the path trees (treeSelection.ts): a chosen subtree is two
 * sets of path prefixes and the most specific rule covering a path decides.
 * Paths are arbitrary strings and either separator counts, as in the source.
 */
module TreeSelection {
  import opened Basics

  /** Selections and exclusions. */
  datatype Rules = Rules(selection: set<string>, excluded: set<string>)

  datatype CheckState = Full | Partial | Unselected

  predicate IsSeparator(c: char) {
    c == '/' || c == '\\'
  }

  predicate EndsInSeparator(p: string) {
    |p| > 0 && IsSeparator(p[|p| - 1])
  }

  predicate IsPathInside(child: string, parent: string) {
    if child == parent then false
    else if EndsInSeparator(parent) then parent <= child
    else parent + "/" <= child || parent + "\\" <= child
  }

  predicate IsAtOrUnder(path: string, rule: string) {
    path == rule || IsPathInside(path, rule)
  }

  // ---- covering rules of one path form a chain ---------------------------------

  lemma UnderIsPrefix(path: string, rule: string)
    ensures IsAtOrUnder(path, rule) <==>
            rule <= path && (|path| == |rule| || EndsInSeparator(rule) || IsSeparator(path[|rule|]))
  {
    if rule <= path && |rule| < |path| {
      assert path[..|rule| + 1] == rule + [path[|rule|]];
    }
    if |rule| < |path| && (rule + "/" <= path || rule + "\\" <= path) {
      assert rule <= path;
      assert path[|rule|] == (rule + [path[|rule|]])[|rule|];
    }
  }

  lemma UnderTransitive(a: string, b: string, c: string)
    requires IsAtOrUnder(a, b) && IsAtOrUnder(b, c)
    ensures IsAtOrUnder(a, c)
  {
    UnderIsPrefix(a, b);
    UnderIsPrefix(b, c);
    UnderIsPrefix(a, c);
    assert a[..|b|][..|c|] == a[..|c|];
  }

  /** Two rules covering one path: the shorter covers the longer. */
  lemma CoversFormChain(path: string, a: string, b: string)
    requires IsAtOrUnder(path, a) && IsAtOrUnder(path, b) && |a| <= |b|
    ensures IsAtOrUnder(b, a)
    ensures |a| == |b| ==> a == b
  {
    UnderIsPrefix(path, a);
    UnderIsPrefix(path, b);
    UnderIsPrefix(b, a);
    assert path[..|b|][..|a|] == path[..|a|];
  }

  lemma UnderIsNotShorter(path: string, rule: string)
    requires IsAtOrUnder(path, rule)
    ensures |rule| <= |path| && (|rule| == |path| ==> rule == path)
  {
    UnderIsPrefix(path, rule);
  }

  // ---- the meaning of a rule set --------------------------------------------------

  predicate Ruled(path: string, rules: Rules) {
    (exists s :: s in rules.selection && IsAtOrUnder(path, s)) || (exists e :: e in rules.excluded && IsAtOrUnder(path, e))
  }

  /** Some selection covers `path` and is longer than every exclusion covering it. */
  predicate Included(path: string, rules: Rules) {
    exists s :: s in rules.selection && IsAtOrUnder(path, s) &&
      forall e :: e in rules.excluded && IsAtOrUnder(path, e) ==> |e| < |s|
  }

  /** `ruleFor`: the two loops find the longest covering rule, in whatever order the sets come. */
  method RuleFor(path: string, rules: Rules) returns (winner: Option<bool>)
    ensures winner == if Ruled(path, rules) then Some(Included(path, rules)) else None
  {
    var bestLen: int := -1;
    var inc := false;
    var todo := rules.selection;
    while todo != {}
      invariant todo <= rules.selection
      invariant bestLen >= -1 && (inc <==> bestLen >= 0)
      invariant bestLen >= 0 ==> exists s :: s in rules.selection && IsAtOrUnder(path, s) && |s| == bestLen
      invariant forall s :: s in rules.selection && s !in todo && IsAtOrUnder(path, s) ==> |s| <= bestLen
    {
      var s :| s in todo;
      if IsAtOrUnder(path, s) && |s| > bestLen {
        bestLen := |s|;
        inc := true;
      }
      todo := todo - {s};
    }
    todo := rules.excluded;
    while todo != {}
      invariant todo <= rules.excluded
      invariant bestLen >= -1 && (inc ==> bestLen >= 0)
      invariant forall s :: s in rules.selection && IsAtOrUnder(path, s) ==> |s| <= bestLen
      invariant forall e :: e in rules.excluded && e !in todo && IsAtOrUnder(path, e) ==> |e| <= bestLen && (inc ==> |e| < bestLen)
      invariant inc ==> exists s :: s in rules.selection && IsAtOrUnder(path, s) && |s| == bestLen
      invariant !inc && bestLen >= 0 ==> exists e :: e in rules.excluded && IsAtOrUnder(path, e) && |e| == bestLen
    {
      var e :| e in todo;
      if IsAtOrUnder(path, e) && |e| >= bestLen {
        bestLen := |e|;
        inc := false;
      }
      todo := todo - {e};
    }
    winner := if bestLen < 0 then None else Some(inc);
  }

  // ---- toggling --------------------------------------------------------------------

  function Cut(rules: set<string>, path: string): set<string> {
    set p | p in rules && !IsAtOrUnder(p, path)
  }

  /** The rules after `toggleRule(path)`. */
  function Toggled(path: string, rules: Rules): Rules {
    var rest := Rules(Cut(rules.selection, path), Cut(rules.excluded, path));
    var want := !Included(path, rules);
    if want == Included(path, rest) then rest
    else if want then rest.(selection := rest.selection + {path})
    else rest.(excluded := rest.excluded + {path})
  }

  method WithoutDescendants(rules: set<string>, path: string) returns (next: set<string>)
    ensures next == Cut(rules, path)
  {
    next := rules;
    var todo := rules;
    while todo != {}
      invariant todo <= rules
      invariant next == set p | p in rules && (p in todo || !IsAtOrUnder(p, path))
    {
      var p :| p in todo;
      if IsAtOrUnder(p, path) {
        next := next - {p};
      }
      todo := todo - {p};
    }
  }

  method ToggleRule(path: string, rules: Rules) returns (next: Rules)
    ensures next == Toggled(path, rules)
  {
    var before := RuleFor(path, rules);
    var wasIncluded := before == Some(true);
    IncludedIsRuled(path, rules);
    var sel := WithoutDescendants(rules.selection, path);
    var exc := WithoutDescendants(rules.excluded, path);
    var after := RuleFor(path, Rules(sel, exc));
    var inherited := after == Some(true);
    IncludedIsRuled(path, Rules(sel, exc));
    var want := !wasIncluded;
    if want != inherited {
      if want {
        sel := sel + {path};
      } else {
        exc := exc + {path};
      }
    }
    next := Rules(sel, exc);
  }

  lemma IncludedIsRuled(path: string, rules: Rules)
    ensures Included(path, rules) ==> Ruled(path, rules)
  {
  }

  /** Rules that do not cover a path do not matter to it. */
  lemma SameCovers(path: string, a: Rules, b: Rules)
    requires forall r :: IsAtOrUnder(path, r) ==> (r in a.selection <==> r in b.selection)
    requires forall r :: IsAtOrUnder(path, r) ==> (r in a.excluded <==> r in b.excluded)
    ensures Included(path, a) == Included(path, b) && Ruled(path, a) == Ruled(path, b)
  {
  }

  /** A rule at the path itself is its longest cover: it decides alone, the exclusion winning a tie. */
  lemma OwnRuleDecides(path: string, rules: Rules)
    ensures path in rules.excluded ==> !Included(path, rules)
    ensures path in rules.selection && path !in rules.excluded ==> Included(path, rules)
  {
    forall r | IsAtOrUnder(path, r) ensures |r| < |path| || r == path {
      UnderIsNotShorter(path, r);
    }
  }

  /** At or under `path`, once every rule at or under `path` is cut, only rules above `path` are left. */
  lemma CutIsInherited(path: string, rules: Rules, q: string)
    requires IsAtOrUnder(q, path)
    ensures var rest := Rules(Cut(rules.selection, path), Cut(rules.excluded, path));
            Included(q, rest) == Included(path, rest)
  {
    var rest := Rules(Cut(rules.selection, path), Cut(rules.excluded, path));
    forall r | r in rest.selection || r in rest.excluded
      ensures IsAtOrUnder(q, r) <==> IsAtOrUnder(path, r) {
      if IsAtOrUnder(path, r) {
        UnderTransitive(q, path, r);
      } else if IsAtOrUnder(q, r) {
        if |r| <= |path| {
          CoversFormChain(q, r, path);
        } else {
          CoversFormChain(q, path, r);
        }
      }
    }
  }

  /** A rule added at `path` decides below it when every other rule covering there is shorter. */
  lemma AddedRuleDecides(path: string, rest: Rules, q: string)
    requires IsAtOrUnder(q, path)
    requires forall r :: (r in rest.selection || r in rest.excluded) && IsAtOrUnder(q, r) ==> |r| < |path|
    ensures Included(q, rest.(selection := rest.selection + {path}))
    ensures !Included(q, rest.(excluded := rest.excluded + {path}))
  {
  }

  lemma CutIsShorter(path: string, rules: Rules, q: string)
    requires IsAtOrUnder(q, path)
    ensures forall r :: (r in Cut(rules.selection, path) || r in Cut(rules.excluded, path)) && IsAtOrUnder(q, r) ==> |r| < |path|
  {
    forall r | r !in {path} && IsAtOrUnder(q, r) && !IsAtOrUnder(r, path) ensures |r| < |path| {
      if |r| >= |path| {
        CoversFormChain(q, path, r);
      }
    }
    assert IsAtOrUnder(path, path);
  }

  lemma ToggleAbove(path: string, rules: Rules, q: string)
    requires IsAtOrUnder(q, path)
    ensures Included(q, Toggled(path, rules)) == !Included(path, rules)
  {
    var rest := Rules(Cut(rules.selection, path), Cut(rules.excluded, path));
    CutIsInherited(path, rules, q);
    CutIsShorter(path, rules, q);
    AddedRuleDecides(path, rest, q);
  }

  /** Rules at or under `path` do not cover a path elsewhere. */
  lemma ElsewhereUncut(path: string, q: string, r: string)
    requires !IsAtOrUnder(q, path) && IsAtOrUnder(q, r)
    ensures !IsAtOrUnder(r, path)
  {
    if IsAtOrUnder(r, path) {
      UnderTransitive(q, r, path);
    }
  }

  lemma ToggleElsewhere(path: string, rules: Rules, q: string)
    requires !IsAtOrUnder(q, path)
    ensures Included(q, Toggled(path, rules)) == Included(q, rules)
    ensures Ruled(q, Toggled(path, rules)) == Ruled(q, rules)
  {
    forall r | IsAtOrUnder(q, r) ensures !IsAtOrUnder(r, path) && r != path {
      ElsewhereUncut(path, q, r);
    }
    SameCovers(q, rules, Toggled(path, rules));
  }

  /**
   * One click: the path flips, everything at or under it takes the new state,
   * and no other path changes, whatever the rules were.
   */
  lemma ToggleEffect(path: string, rules: Rules, q: string)
    ensures IsAtOrUnder(q, path) ==> Included(q, Toggled(path, rules)) == !Included(path, rules)
    ensures !IsAtOrUnder(q, path) ==>
              Included(q, Toggled(path, rules)) == Included(q, rules) && Ruled(q, Toggled(path, rules)) == Ruled(q, rules)
  {
    if IsAtOrUnder(q, path) {
      ToggleAbove(path, rules, q);
    } else {
      ToggleElsewhere(path, rules, q);
    }
  }

  // ---- the canonical form -------------------------------------------------------------

  /** What `path` would be without a rule of its own. */
  predicate Inherited(path: string, rules: Rules) {
    Included(path, Rules(rules.selection - {path}, rules.excluded - {path}))
  }

  /** No path is in both sets and every rule differs from what its path inherits. */
  ghost predicate Canonical(rules: Rules) {
    && rules.selection !! rules.excluded
    && (forall r :: r in rules.selection ==> !Inherited(r, rules))
    && (forall r :: r in rules.excluded ==> Inherited(r, rules))
  }

  /** Rules outside the clicked subtree keep what they inherit. */
  lemma ToggleKeepsInherited(path: string, rules: Rules, r: string)
    requires !IsAtOrUnder(r, path)
    ensures Inherited(r, Toggled(path, rules)) == Inherited(r, rules)
  {
    var next := Toggled(path, rules);
    forall c | IsAtOrUnder(r, c) ensures !IsAtOrUnder(c, path) && c != path {
      ElsewhereUncut(path, r, c);
    }
    SameCovers(r, Rules(rules.selection - {r}, rules.excluded - {r}), Rules(next.selection - {r}, next.excluded - {r}));
  }

  /** The clicked path has a rule afterwards only if it inherits the opposite. */
  lemma ToggleOwnRule(path: string, rules: Rules)
    ensures var next := Toggled(path, rules);
            && (path in next.selection ==> path !in next.excluded && !Inherited(path, next))
            && (path in next.excluded ==> path !in next.selection && Inherited(path, next))
  {
    var rest := Rules(Cut(rules.selection, path), Cut(rules.excluded, path));
    var next := Toggled(path, rules);
    assert IsAtOrUnder(path, path);
    assert Rules(next.selection - {path}, next.excluded - {path}) == rest;
  }

  lemma OldRule(path: string, rules: Rules, r: string)
    requires r != path && (r in Toggled(path, rules).selection || r in Toggled(path, rules).excluded)
    ensures !IsAtOrUnder(r, path)
    ensures r in Toggled(path, rules).selection ==> r in rules.selection
    ensures r in Toggled(path, rules).excluded ==> r in rules.excluded
  {
  }

  lemma ToggleKeepsCanonical(path: string, rules: Rules)
    requires Canonical(rules)
    ensures Canonical(Toggled(path, rules))
  {
    var next := Toggled(path, rules);
    ToggleOwnRule(path, rules);
    forall r | (r in next.selection || r in next.excluded) && r != path
      ensures Inherited(r, next) == Inherited(r, rules)
      ensures (r in next.selection ==> r in rules.selection) && (r in next.excluded ==> r in rules.excluded) {
      OldRule(path, rules, r);
      ToggleKeepsInherited(path, rules, r);
    }
  }

  /** The longest proper prefix of `path[..n]`'s prefixes that covers `path`. */
  function ParentBelow(path: string, n: nat): (parent: Option<string>)
    requires n <= |path|
    ensures parent.Some? ==> |parent.value| < n && IsAtOrUnder(path, parent.value)
    ensures forall r :: IsAtOrUnder(path, r) && |r| < n ==> parent.Some? && IsAtOrUnder(parent.value, r)
  {
    if n == 0 then None
    else if IsAtOrUnder(path, path[..n - 1]) then
      assert forall r :: IsAtOrUnder(path, r) && |r| < n ==> IsAtOrUnder(path[..n - 1], r) by {
        forall r | IsAtOrUnder(path, r) && |r| < n ensures IsAtOrUnder(path[..n - 1], r) {
          CoversFormChain(path, r, path[..n - 1]);
        }
      }
      Some(path[..n - 1])
    else
      assert forall r :: IsAtOrUnder(path, r) && |r| < n ==> |r| < n - 1 by {
        forall r | IsAtOrUnder(path, r) && |r| < n ensures |r| < n - 1 {
          UnderIsPrefix(path, r);
          assert r == path[..|r|];
        }
      }
      ParentBelow(path, n - 1)
  }

  function Parent(path: string): Option<string> {
    ParentBelow(path, |path|)
  }

  /** What a path inherits is what its parent is: inheritance is visible in the effective selection. */
  lemma InheritedIsParents(path: string, rules: Rules)
    ensures Inherited(path, rules) == (Parent(path).Some? && Included(Parent(path).value, rules))
  {
    var bare := Rules(rules.selection - {path}, rules.excluded - {path});
    if Parent(path).Some? {
      var q := Parent(path).value;
      forall r ensures IsAtOrUnder(q, r) <==> IsAtOrUnder(path, r) && r != path {
        ParentCovers(path, r);
      }
      CoversDecide(path, bare, q, rules);
    } else {
      forall r | IsAtOrUnder(path, r) ensures r == path {
        ParentCovers(path, r);
      }
    }
  }

  /** A path's parent is covered by exactly the path's other covers. */
  lemma ParentCovers(path: string, r: string)
    ensures IsAtOrUnder(path, r) && r != path <==> Parent(path).Some? && IsAtOrUnder(Parent(path).value, r)
  {
    if IsAtOrUnder(path, r) {
      UnderIsNotShorter(path, r);
    }
    if Parent(path).Some? && IsAtOrUnder(Parent(path).value, r) {
      UnderTransitive(path, Parent(path).value, r);
      UnderIsNotShorter(Parent(path).value, r);
    }
  }

  /** Only the rules covering a path decide its state. */
  lemma CoversDecide(p: string, a: Rules, q: string, b: Rules)
    requires forall r :: r in a.selection && IsAtOrUnder(p, r) <==> r in b.selection && IsAtOrUnder(q, r)
    requires forall r :: r in a.excluded && IsAtOrUnder(p, r) <==> r in b.excluded && IsAtOrUnder(q, r)
    ensures Included(p, a) == Included(q, b)
  {
  }

  ghost predicate SameEffect(a: Rules, b: Rules) {
    forall p :: Included(p, a) == Included(p, b)
  }

  /** The fewest rules: a canonical rule set is contained in every rule set with the same effect. */
  lemma CanonicalIsLeast(a: Rules, b: Rules)
    requires Canonical(a) && SameEffect(a, b)
    ensures a.selection <= b.selection && a.excluded <= b.excluded
  {
    forall r | r in a.selection || r in a.excluded
      ensures (r in a.selection ==> r in b.selection) && (r in a.excluded ==> r in b.excluded) {
      SameInherited(r, a, b);
      NeededRule(r, a, b);
    }
  }

  lemma SameInherited(r: string, a: Rules, b: Rules)
    requires SameEffect(a, b)
    ensures Inherited(r, a) == Inherited(r, b) && Included(r, a) == Included(r, b)
  {
    InheritedIsParents(r, a);
    InheritedIsParents(r, b);
    if Parent(r).Some? {
      assert Included(Parent(r).value, a) == Included(Parent(r).value, b);
    }
  }

  /** A path whose state differs from what it inherits must carry a rule saying so. */
  lemma NeededRule(r: string, a: Rules, b: Rules)
    requires r in a.selection ==> r !in a.excluded && !Inherited(r, a)
    requires r in a.excluded ==> r !in a.selection && Inherited(r, a)
    requires Included(r, a) == Included(r, b) && Inherited(r, a) == Inherited(r, b)
    ensures (r in a.selection ==> r in b.selection) && (r in a.excluded ==> r in b.excluded)
  {
    OwnRuleDecides(r, a);
    OwnRuleDecides(r, b);
    if r !in b.selection && r !in b.excluded {
      NoRuleInherits(r, b);
    }
  }

  lemma NoRuleInherits(r: string, rules: Rules)
    requires r !in rules.selection && r !in rules.excluded
    ensures Included(r, rules) == Inherited(r, rules)
  {
    assert rules == Rules(rules.selection - {r}, rules.excluded - {r});
  }

  /** Two canonical rule sets with the same effect are the same pair of sets. */
  lemma CanonicalIsUnique(a: Rules, b: Rules)
    requires Canonical(a) && Canonical(b) && SameEffect(a, b)
    ensures a == b
  {
    CanonicalIsLeast(a, b);
    CanonicalIsLeast(b, a);
  }

  // ---- what clicks can reach --------------------------------------------------------------

  function AfterClicks(clicks: seq<string>): Rules {
    if clicks == [] then Rules({}, {})
    else Toggled(clicks[|clicks| - 1], AfterClicks(clicks[..|clicks| - 1]))
  }

  lemma {:induction false} ClicksAreCanonical(clicks: seq<string>)
    ensures Canonical(AfterClicks(clicks))
  {
    if clicks != [] {
      ClicksAreCanonical(clicks[..|clicks| - 1]);
      ToggleKeepsCanonical(clicks[|clicks| - 1], AfterClicks(clicks[..|clicks| - 1]));
    }
  }

  lemma {:induction false} LongestRule(rules: set<string>) returns (r: string)
    requires rules != {}
    ensures r in rules && forall p :: p in rules ==> |p| <= |r|
  {
    r :| r in rules;
    if rules != {r} {
      var other := LongestRule(rules - {r});
      if |other| > |r| {
        r := other;
      }
    }
  }

  /** Every canonical rule set is reached: click its rules from the shortest to the longest. */
  lemma {:induction false} CanonicalIsReached(rules: Rules) returns (clicks: seq<string>)
    requires Canonical(rules)
    ensures AfterClicks(clicks) == rules
    decreases |rules.selection + rules.excluded|
  {
    var all := rules.selection + rules.excluded;
    if all == {} {
      clicks := [];
      assert rules == Rules({}, {});
    } else {
      var r := LongestRule(all);
      var rest := Rules(rules.selection - {r}, rules.excluded - {r});
      assert rest.selection + rest.excluded == all - {r};
      RestIsCanonical(rules, rest, r);
      clicks := CanonicalIsReached(rest);
      LastClick(rules, rest, r);
      OneMoreClick(clicks, r);
      clicks := clicks + [r];
    }
  }

  lemma OneMoreClick(clicks: seq<string>, path: string)
    ensures AfterClicks(clicks + [path]) == Toggled(path, AfterClicks(clicks))
  {
    assert (clicks + [path])[..|clicks|] == clicks;
  }

  /** Without its longest rule a canonical rule set is still canonical. */
  lemma RestIsCanonical(rules: Rules, rest: Rules, r: string)
    requires Canonical(rules)
    requires forall p :: p in rules.selection + rules.excluded ==> |p| <= |r|
    requires rest == Rules(rules.selection - {r}, rules.excluded - {r})
    ensures Canonical(rest)
  {
    forall q | q in rest.selection || q in rest.excluded ensures Inherited(q, rest) == Inherited(q, rules) {
      assert q in rules.selection + rules.excluded;
      LongRuleIrrelevant(q, rules, rest, r);
    }
  }

  lemma LongRuleIrrelevant(q: string, rules: Rules, rest: Rules, r: string)
    requires q != r && |q| <= |r| && rest == Rules(rules.selection - {r}, rules.excluded - {r})
    ensures Inherited(q, rest) == Inherited(q, rules)
  {
    assert !IsAtOrUnder(q, r) by {
      if IsAtOrUnder(q, r) {
        UnderIsNotShorter(q, r);
      }
    }
    CoversDecide(q, Rules(rest.selection - {q}, rest.excluded - {q}), q, Rules(rules.selection - {q}, rules.excluded - {q}));
  }

  lemma LastClick(rules: Rules, rest: Rules, r: string)
    requires Canonical(rules) && (r in rules.selection || r in rules.excluded)
    requires forall p :: p in rules.selection + rules.excluded ==> |p| <= |r|
    requires rest == Rules(rules.selection - {r}, rules.excluded - {r})
    ensures Toggled(r, rest) == rules
  {
    forall p | p in rest.selection || p in rest.excluded ensures !IsAtOrUnder(p, r) {
      if IsAtOrUnder(p, r) {
        UnderIsNotShorter(p, r);
      }
    }
    assert Cut(rest.selection, r) == rest.selection && Cut(rest.excluded, r) == rest.excluded;
    assert Inherited(r, rules) == Included(r, rest);
    if r in rules.selection {
      assert rest.selection + {r} == rules.selection && rest.excluded == rules.excluded;
    } else {
      assert rest.excluded + {r} == rules.excluded && rest.selection == rules.selection;
    }
  }

  /** The rule sets that clicks can produce are exactly the canonical ones. */
  lemma ReachedIffCanonical(rules: Rules)
    ensures (exists clicks :: AfterClicks(clicks) == rules) <==> Canonical(rules)
  {
    if Canonical(rules) {
      var clicks := CanonicalIsReached(rules);
    } else {
      forall clicks ensures AfterClicks(clicks) != rules {
        ClicksAreCanonical(clicks);
      }
    }
  }

  /** Clicking a path twice restores the rules, unless the first click cut rules beneath it. */
  lemma DoubleToggle(path: string, rules: Rules)
    requires Canonical(rules)
    ensures Toggled(path, Toggled(path, rules)) == rules <==>
            (forall q :: IsAtOrUnder(q, path) ==> Included(q, rules) == Included(path, rules))
  {
    var once := Toggled(path, rules);
    var twice := Toggled(path, once);
    ToggleKeepsCanonical(path, rules);
    ToggleKeepsCanonical(path, once);
    forall q
      ensures Included(q, twice) == if IsAtOrUnder(q, path) then Included(path, rules) else Included(q, rules) {
      ToggleEffect(path, rules, path);
      ToggleEffect(path, once, q);
      ToggleEffect(path, rules, q);
    }
    if forall q :: IsAtOrUnder(q, path) ==> Included(q, rules) == Included(path, rules) {
      CanonicalIsUnique(twice, rules);
    }
  }

  // ---- the tri-state of a row ------------------------------------------------------------

  predicate HasDescendantIn(path: string, paths: set<string>) {
    exists p :: p in paths && IsPathInside(p, path)
  }

  function CountTrue(flags: seq<bool>): nat {
    if flags == [] then 0 else (if flags[0] then 1 else 0) + CountTrue(flags[1..])
  }

  /** How many of `paths` are included. */
  function CountIncluded(paths: seq<string>, rules: Rules): nat {
    CountTrue(seq(|paths|, i requires 0 <= i < |paths| => Included(paths[i], rules)))
  }

  /** `stateFor`; `descendants` is the callback's answer, `None` when no callback is given. */
  function StateFor(path: string, isDir: bool, rules: Rules, descendants: Option<seq<string>>): CheckState {
    if Ruled(path, rules) then
      if !isDir then (if Included(path, rules) then Full else Unselected)
      else if Included(path, rules) then (if HasDescendantIn(path, rules.excluded) then Partial else Full)
      else if HasDescendantIn(path, rules.selection) then Partial else Unselected
    else if !isDir || descendants.None? || descendants.value == [] then Unselected
    else
      var included := CountIncluded(descendants.value, rules);
      if included == 0 then Unselected else if included == |descendants.value| then Full else Partial
  }

  /** The state a directory row should show: what is true of every path at or under it. */
  ghost predicate Exact(path: string, rules: Rules, state: CheckState) {
    match state
    case Full => forall q :: IsAtOrUnder(q, path) ==> Included(q, rules)
    case Unselected => forall q :: IsAtOrUnder(q, path) ==> !Included(q, rules)
    case Partial =>
      (exists q :: IsAtOrUnder(q, path) && Included(q, rules)) && (exists q :: IsAtOrUnder(q, path) && !Included(q, rules))
  }

  /** Under a directory without a selection strictly inside it, an excluded directory has nothing included. */
  lemma UniformBelow(path: string, rules: Rules, q: string)
    requires Ruled(path, rules) && IsAtOrUnder(q, path)
    ensures Included(path, rules) && !HasDescendantIn(path, rules.excluded) ==> Included(q, rules)
    ensures !Included(path, rules) && !HasDescendantIn(path, rules.selection) ==> !Included(q, rules)
  {
    forall r | IsAtOrUnder(q, r) ensures IsAtOrUnder(path, r) || IsPathInside(r, path) {
      if |r| <= |path| {
        CoversFormChain(q, r, path);
      } else {
        CoversFormChain(q, path, r);
      }
    }
    forall r | IsAtOrUnder(path, r) ensures IsAtOrUnder(q, r) && |r| <= |path| {
      UnderTransitive(q, path, r);
      UnderIsNotShorter(path, r);
    }
    forall r | IsPathInside(r, path) ensures |r| > |path| {
      UnderIsNotShorter(r, path);
    }
  }

  /**
   * A covered directory's tri-state is exact precisely when the directory is
   * included, or no selection lies beneath it, or some path beneath it really is
   * included; on disjoint sets, which is all that clicks produce, always.
   */
  lemma TriStateExactIff(path: string, rules: Rules, descendants: Option<seq<string>>)
    requires Ruled(path, rules)
    ensures Exact(path, rules, StateFor(path, true, rules, descendants)) <==>
            (Included(path, rules) || !HasDescendantIn(path, rules.selection) ||
             exists s :: s in rules.selection && IsPathInside(s, path) && Included(s, rules))
    ensures rules.selection !! rules.excluded ==> Exact(path, rules, StateFor(path, true, rules, descendants))
  {
    assert IsAtOrUnder(path, path);
    forall q | IsAtOrUnder(q, path) {
      UniformBelow(path, rules, q);
    }
    if Included(path, rules) && HasDescendantIn(path, rules.excluded) {
      var e :| e in rules.excluded && IsPathInside(e, path);
      OwnRuleDecides(e, rules);
      assert !Included(e, rules);
    }
    if !Included(path, rules) && HasDescendantIn(path, rules.selection) {
      if rules.selection !! rules.excluded {
        var s :| s in rules.selection && IsPathInside(s, path);
        OwnRuleDecides(s, rules);
        assert IsAtOrUnder(s, path) && Included(s, rules);
      }
      if q :| IsAtOrUnder(q, path) && Included(q, rules) {
        SelectionAbove(path, rules, q);
      }
    }
  }

  /** Something included beneath an excluded directory comes from an included selection beneath it. */
  lemma SelectionAbove(path: string, rules: Rules, q: string)
    requires !Included(path, rules) && IsAtOrUnder(q, path) && Included(q, rules)
    ensures exists s :: s in rules.selection && IsPathInside(s, path) && Included(s, rules)
  {
    var s :| s in rules.selection && IsAtOrUnder(q, s) &&
      forall e :: e in rules.excluded && IsAtOrUnder(q, e) ==> |e| < |s|;
    forall r | IsAtOrUnder(s, r) ensures IsAtOrUnder(q, r) {
      UnderTransitive(q, s, r);
    }
    assert Included(s, rules);
    if |s| <= |path| {
      CoversFormChain(q, s, path);
      forall e | e in rules.excluded && IsAtOrUnder(path, e) ensures |e| < |s| {
        UnderTransitive(q, path, e);
      }
      assert false;
    } else {
      CoversFormChain(q, path, s);
    }
  }

  lemma {:induction false} CountTrueBounds(flags: seq<bool>)
    ensures CountTrue(flags) <= |flags|
    ensures CountTrue(flags) == 0 <==> true !in flags
    ensures CountTrue(flags) == |flags| <==> false !in flags
  {
    if flags != [] {
      CountTrueBounds(flags[1..]);
      assert flags == [flags[0]] + flags[1..];
    }
  }

  /** A directory without a covering rule shows what is true of the paths the callback lists. */
  lemma TriStateOfListed(path: string, rules: Rules, paths: seq<string>)
    requires !Ruled(path, rules) && paths != []
    ensures var state := StateFor(path, true, rules, Some(paths));
            && (state == Full <==> forall p :: p in paths ==> Included(p, rules))
            && (state == Unselected <==> forall p :: p in paths ==> !Included(p, rules))
  {
    var flags := seq(|paths|, i requires 0 <= i < |paths| => Included(paths[i], rules));
    CountTrueBounds(flags);
    forall p | p in paths ensures Included(p, rules) in flags {
      var i :| 0 <= i < |paths| && paths[i] == p;
      assert flags[i] == Included(p, rules);
    }
  }

  // ---- rows that clicks paint ---------------------------------------------------------------

  /** A file's tick is its own state and never partial; a row without a rule that has nothing listed shows no tick. */
  lemma FileTick(path: string, rules: Rules, descendants: Option<seq<string>>)
    ensures StateFor(path, false, rules, descendants) == Full <==> Included(path, rules)
    ensures StateFor(path, false, rules, descendants) == Unselected <==> !Included(path, rules)
    ensures !Ruled(path, rules) && (descendants.None? || descendants.value == []) ==>
              StateFor(path, true, rules, descendants) == Unselected
  {
    IncludedIsRuled(path, rules);
  }

  /** The rows the callback lists for a directory lie beneath it. */
  predicate ListsBeneath(path: string, descendants: Option<seq<string>>) {
    descendants.Some? ==> forall p :: p in descendants.value ==> IsAtOrUnder(p, path)
  }

  /**
   * A click makes the row, file or directory, fully ticked when its path was not
   * included, and clears it when it was; a file's tick so goes back and forth.
   */
  lemma ClickPaints(path: string, isDir: bool, rules: Rules, descendants: Option<seq<string>>)
    requires ListsBeneath(path, descendants)
    ensures StateFor(path, isDir, Toggled(path, rules), descendants) == if Included(path, rules) then Unselected else Full
    ensures !isDir ==> (StateFor(path, isDir, Toggled(path, rules), descendants) == Full <==>
                        StateFor(path, isDir, rules, descendants) == Unselected)
  {
    var after := Toggled(path, rules);
    assert IsAtOrUnder(path, path);
    ToggleEffect(path, rules, path);
    FileTick(path, rules, descendants);
    FileTick(path, after, descendants);
    if isDir && Ruled(path, after) {
      NothingBeneath(path, rules);
    } else if isDir && descendants.Some? && descendants.value != [] {
      IncludedIsRuled(path, after);
      TriStateOfListed(path, after, descendants.value);
      forall p | p in descendants.value ensures !Included(p, after) {
        ToggleEffect(path, rules, p);
      }
    } else {
      IncludedIsRuled(path, after);
    }
  }

  /** A toggle leaves no rule strictly beneath the path. */
  lemma NothingBeneath(path: string, rules: Rules)
    ensures !HasDescendantIn(path, Toggled(path, rules).selection) && !HasDescendantIn(path, Toggled(path, rules).excluded)
  {
    forall r | IsPathInside(r, path)
      ensures r !in Toggled(path, rules).selection && r !in Toggled(path, rules).excluded {
      assert IsAtOrUnder(r, path) && r != path;
    }
  }
}
