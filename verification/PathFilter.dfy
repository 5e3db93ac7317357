/**
 * The restore engine's side of the selection rules (`path_selected`,
 * `dir_selected`), and its agreement with the tree's rules in TreeSelection.dfy.
 */
module PathFilter {
  import opened Basics
  import TreeSelection

  function SlashesOnly(p: string): string {
    seq(|p|, i requires 0 <= i < |p| => if p[i] == '\\' then '/' else p[i])
  }

  /** `trim_start_matches('/')`. */
  function TrimLeft(p: string): string {
    if |p| > 0 && p[0] == '/' then TrimLeft(p[1..]) else p
  }

  function NormRule(p: string): string {
    TrimLeft(SlashesOnly(p))
  }

  predicate AtOrUnder(path: string, rule: string) {
    path == rule || rule + "/" <= path
  }

  // ---- the rules cover in chains, as in the tree --------------------------------

  lemma UnderIsPrefix(path: string, rule: string)
    ensures AtOrUnder(path, rule) <==> rule <= path && (|path| == |rule| || path[|rule|] == '/')
  {
    if rule <= path && |rule| < |path| {
      assert path[..|rule| + 1] == rule + [path[|rule|]];
    }
  }

  lemma CoversFormChain(path: string, a: string, b: string)
    requires AtOrUnder(path, a) && AtOrUnder(path, b) && |a| <= |b|
    ensures AtOrUnder(b, a) && (|a| == |b| ==> a == b)
  {
    UnderIsPrefix(path, a);
    UnderIsPrefix(path, b);
    UnderIsPrefix(b, a);
    assert path[..|b|][..|a|] == path[..|a|];
  }

  lemma UnderTransitive(a: string, b: string, c: string)
    requires AtOrUnder(a, b) && AtOrUnder(b, c)
    ensures AtOrUnder(a, c)
  {
    UnderIsPrefix(a, b);
    UnderIsPrefix(b, c);
    UnderIsPrefix(a, c);
    assert a[..|b|][..|c|] == a[..|c|];
  }

  // ---- normal forms -----------------------------------------------------------------

  lemma {:induction false} TrimLeftNormal(p: string)
    ensures |TrimLeft(p)| > 0 ==> TrimLeft(p)[0] != '/'
    ensures forall c :: c in TrimLeft(p) ==> c in p
  {
    if |p| > 0 && p[0] == '/' {
      TrimLeftNormal(p[1..]);
    }
  }

  lemma NormIdempotent(p: string)
    ensures NormRule(NormRule(p)) == NormRule(p)
    ensures |NormRule(p)| > 0 ==> NormRule(p)[0] != '/'
    ensures '\\' !in NormRule(p)
  {
    TrimLeftNormal(SlashesOnly(p));
    assert '\\' !in SlashesOnly(p);
    assert SlashesOnly(NormRule(p)) == NormRule(p);
  }

  // ---- the meaning -------------------------------------------------------------------

  /** `rule` covers the normalised `path` once it is normalised itself. */
  predicate Covers(path: string, rule: string) {
    AtOrUnder(path, NormRule(rule))
  }

  /** The most specific covering rule decides, an exclusion on a tie; with no rule, only an empty selection keeps it. */
  ghost predicate Kept(path: string, filters: seq<string>, excluded: seq<string>) {
    var p := NormRule(path);
    if exists r :: (r in filters || r in excluded) && Covers(p, r) then
      exists s :: s in filters && Covers(p, s) &&
        forall e :: e in excluded && Covers(p, e) ==> |NormRule(e)| < |NormRule(s)|
    else filters == []
  }

  /** The winner so far: some rule of `done` of that length, no longer one, exclusions preferred. */
  ghost predicate Best(p: string, filters: seq<string>, excluded: seq<string>, best: Option<(nat, bool)>) {
    match best
    case None => forall r :: (r in filters || r in excluded) ==> !Covers(p, r)
    case Some((len, inc)) =>
      && (forall s :: s in filters && Covers(p, s) ==> |NormRule(s)| <= len)
      && (forall e :: e in excluded && Covers(p, e) ==> |NormRule(e)| <= len && (inc ==> |NormRule(e)| < len))
      && (inc ==> exists s :: s in filters && Covers(p, s) && |NormRule(s)| == len)
      && (!inc ==> exists e :: e in excluded && Covers(p, e) && |NormRule(e)| == len)
  }

  /** One rule of the selection pass, while no exclusion has been looked at. */
  method Consider(p: string, rule: string, inc: bool, best: Option<(nat, bool)>,
                  ghost filters: seq<string>, ghost excluded: seq<string>)
    returns (next: Option<(nat, bool)>)
    requires Best(p, filters, excluded, best)
    requires inc ==> excluded == []
    ensures Best(p, if inc then filters + [rule] else filters, if inc then excluded else excluded + [rule], next)
  {
    next := best;
    var r := NormRule(rule);
    if AtOrUnder(p, r) {
      var wins := match best
        case None => true
        case Some((len, _)) => if inc then |r| > len else |r| >= len;
      if wins {
        next := Some((|r|, inc));
        if inc {
          assert rule in filters + [rule];
        } else {
          assert rule in excluded + [rule];
        }
      }
    }
  }

  /** `path_selected`: two passes over the rules in the order given. */
  method PathSelected(path: string, filters: seq<string>, excluded: seq<string>) returns (keep: bool)
    ensures keep <==> Kept(path, filters, excluded)
  {
    var p := NormRule(path);
    var best: Option<(nat, bool)> := None;
    for i := 0 to |filters|
      invariant Best(p, filters[..i], [], best)
    {
      assert filters[..i + 1] == filters[..i] + [filters[i]];
      best := Consider(p, filters[i], true, best, filters[..i], []);
    }
    assert filters[..|filters|] == filters;
    for i := 0 to |excluded|
      invariant Best(p, filters, excluded[..i], best)
    {
      assert excluded[..i + 1] == excluded[..i] + [excluded[i]];
      best := Consider(p, excluded[i], false, best, filters, excluded[..i]);
    }
    assert excluded[..|excluded|] == excluded;
    keep := match best
      case Some((_, inc)) => inc
      case None => filters == [];
    BestDecides(path, filters, excluded, best);
  }

  lemma BestDecides(path: string, filters: seq<string>, excluded: seq<string>, best: Option<(nat, bool)>)
    requires Best(NormRule(path), filters, excluded, best)
    ensures Kept(path, filters, excluded) <==> (if best.Some? then best.value.1 else filters == [])
  {
    var p := NormRule(path);
    if best.Some? {
      if best.value.1 {
        var s :| s in filters && Covers(p, s) && |NormRule(s)| == best.value.0;
      } else {
        var e :| e in excluded && Covers(p, e) && |NormRule(e)| == best.value.0;
      }
    }
  }

  /** Only which rules there are matters, not their order or repetition. */
  lemma OrderIrrelevant(path: string, f1: seq<string>, e1: seq<string>, f2: seq<string>, e2: seq<string>)
    requires forall r :: r in f1 <==> r in f2
    requires forall r :: r in e1 <==> r in e2
    ensures Kept(path, f1, e1) == Kept(path, f2, e2)
  {
    assert f1 == [] <==> f2 == [] by {
      if f1 != [] { assert f1[0] in f2; }
      if f2 != [] { assert f2[0] in f1; }
    }
  }

  // ---- directories ---------------------------------------------------------------------

  ghost predicate DirKept(path: string, filters: seq<string>, excluded: seq<string>) {
    var p := NormRule(path);
    (exists f :: f in filters && p + "/" <= NormRule(f)) || Kept(p, filters, excluded)
  }

  method DirSelected(path: string, filters: seq<string>, excluded: seq<string>) returns (keep: bool)
    ensures keep <==> DirKept(path, filters, excluded)
  {
    var p := NormRule(path);
    if exists f :: f in filters && p + "/" <= NormRule(f) {
      return true;
    }
    keep := PathSelected(p, filters, excluded);
  }

  /** Every directory above a kept file is pre-created. */
  lemma AncestorsKept(file: string, dir: string, filters: seq<string>, excluded: seq<string>)
    requires Kept(file, filters, excluded)
    requires NormRule(dir) + "/" <= NormRule(file)
    ensures DirKept(dir, filters, excluded)
  {
    var p, d := NormRule(file), NormRule(dir);
    NormIdempotent(dir);
    assert AtOrUnder(p, d);
    forall r | Covers(d, r) ensures Covers(p, r) {
      UnderTransitive(p, d, NormRule(r));
    }
    if s :| s in filters && Covers(p, s) && forall e :: e in excluded && Covers(p, e) ==> |NormRule(e)| < |NormRule(s)| {
      var n := NormRule(s);
      if |n| <= |d| {
        CoversFormChain(p, n, d);
        assert Covers(d, s);
      } else {
        CoversFormChain(p, d, n);
        assert d + "/" <= n;
      }
    }
  }

  // ---- agreement with the tree ------------------------------------------------------------

  /** A '/'-only path without leading or trailing separator. */
  predicate Clean(p: string) {
    '\\' !in p && (|p| > 0 ==> p[0] != '/' && p[|p| - 1] != '/')
  }

  lemma CleanIsNormal(p: string)
    requires Clean(p)
    ensures NormRule(p) == p
  {
    assert SlashesOnly(p) == p;
  }

  /** For a rule that does not end in a separator both coverings are the same, on any path with '/' only. */
  lemma CoversAgree(path: string, rule: string)
    requires Clean(path) && NormRule(rule) == rule && !TreeSelection.EndsInSeparator(rule)
    ensures Covers(path, rule) <==> TreeSelection.IsAtOrUnder(path, rule)
  {
    UnderIsPrefix(path, rule);
    TreeSelection.UnderIsPrefix(path, rule);
    assert forall i :: 0 <= i < |path| ==> path[i] in path;
  }

  /** A path right beneath a rule that ends in a separator: the tree has it covered, the restore does not. */
  lemma SeparatorParts(rule: string) returns (path: string)
    requires NormRule(rule) == rule && TreeSelection.EndsInSeparator(rule)
    ensures Clean(path) && !Covers(path, rule) && TreeSelection.IsAtOrUnder(path, rule)
  {
    NormIdempotent(rule);
    path := rule + "x";
    assert path[|rule|] == 'x' && path[|path| - 1] == 'x' && path[0] == rule[0];
    UnderIsPrefix(path, rule);
  }

  /**
   * One rule covers the same clean paths in the tree and in the restore exactly
   * when it does not end in a separator.
   */
  lemma CoveringsAgreeIff(rule: string)
    requires NormRule(rule) == rule
    ensures (forall path :: Clean(path) ==> (Covers(path, rule) <==> TreeSelection.IsAtOrUnder(path, rule))) <==>
            !TreeSelection.EndsInSeparator(rule)
  {
    if TreeSelection.EndsInSeparator(rule) {
      var path := SeparatorParts(rule);
    } else {
      forall path | Clean(path) ensures Covers(path, rule) <==> TreeSelection.IsAtOrUnder(path, rule) {
        CoversAgree(path, rule);
      }
    }
  }

  /**
   * The tree shows a tick exactly on what the restore writes: with rules that do
   * not end in a separator, the two agree on a clean path exactly when something
   * is selected or an exclusion covers the path.
   */
  lemma TreeAgreesIff(path: string, filters: seq<string>, excluded: seq<string>)
    requires Clean(path)
    requires forall r :: r in filters || r in excluded ==> NormRule(r) == r && !TreeSelection.EndsInSeparator(r)
    ensures (Kept(path, filters, excluded) <==>
             TreeSelection.Included(path, TreeSelection.Rules(set r | r in filters, set r | r in excluded)))
            <==> filters != [] || exists e :: e in excluded && Covers(path, e)
  {
    CleanIsNormal(path);
    forall r | r in filters || r in excluded ensures Covers(path, r) <==> TreeSelection.IsAtOrUnder(path, r) {
      CoversAgree(path, r);
    }
    if filters == [] {
      NothingSelected(path, excluded);
    }
  }

  lemma NothingSelected(path: string, excluded: seq<string>)
    ensures !TreeSelection.Included(path, TreeSelection.Rules({}, set r | r in excluded))
    ensures Kept(path, [], excluded) <==> !exists e :: e in excluded && Covers(NormRule(path), e)
  {
  }

  /** They differ when a rule ends in a separator: only the tree lets it cover what lies beneath. */
  lemma TrailingSeparatorDiffers()
    ensures !Kept("a/b", ["a/"], [])
    ensures TreeSelection.Included("a/b", TreeSelection.Rules({"a/"}, {}))
  {
    CleanIsNormal("a/b");
    assert SlashesOnly("a/") == "a/" && NormRule("a/") == "a/";
    assert !AtOrUnder("a/b", "a/");
    assert ["a/"][0] == "a/";
    assert TreeSelection.EndsInSeparator("a/");
    assert "a/" <= "a/b";
    assert TreeSelection.IsAtOrUnder("a/b", "a/");
  }

  // ---- Windows paths ---------------------------------------------------------------------------

  predicate IsSeparator(c: char) {
    c == '/' || c == '\\'
  }

  /** The same but for which separators are written. */
  predicate SameButSeparators(a: string, b: string) {
    |a| == |b| && forall i :: 0 <= i < |a| ==> a[i] == b[i] || (IsSeparator(a[i]) && IsSeparator(b[i]))
  }

  lemma SeparatorsAlike(a: string, b: string)
    requires SameButSeparators(a, b)
    ensures NormRule(a) == NormRule(b) && NormRule("/" + a) == NormRule(b)
  {
    assert SlashesOnly(a) == SlashesOnly(b);
    assert SlashesOnly("/" + a)[0] == '/' && SlashesOnly("/" + a)[1..] == SlashesOnly(a);
  }

  /** The same rules in the same order, but for their separators. */
  ghost predicate Alike(a: seq<string>, b: seq<string>) {
    |a| == |b| && forall i :: 0 <= i < |a| ==> SameButSeparators(a[i], b[i])
  }

  function Norms(rules: seq<string>): set<string> {
    set r | r in rules :: NormRule(r)
  }

  lemma NormsAt(rules: seq<string>, n: string) returns (i: nat)
    requires n in Norms(rules)
    ensures i < |rules| && NormRule(rules[i]) == n
  {
    var r :| r in rules && NormRule(r) == n;
    i :| 0 <= i < |rules| && rules[i] == r;
  }

  lemma AlikeNorms(a: seq<string>, b: seq<string>)
    requires Alike(a, b)
    ensures Norms(a) <= Norms(b)
  {
    forall n | n in Norms(a) ensures n in Norms(b) {
      var i := NormsAt(a, n);
      SeparatorsAlike(a[i], b[i]);
      assert b[i] in b;
    }
  }

  lemma AlikeRules(a: seq<string>, b: seq<string>)
    requires Alike(a, b)
    ensures Norms(a) == Norms(b)
  {
    AlikeNorms(a, b);
    AlikeNorms(b, a);
  }

  ghost predicate Touched(p: string, rules: set<string>) {
    exists r :: r in rules && AtOrUnder(p, r)
  }

  /** A selection that covers the path and is longer than every exclusion that does. */
  ghost predicate Wins(p: string, s: string, excluded: set<string>) {
    AtOrUnder(p, s) && forall e :: e in excluded && AtOrUnder(p, e) ==> |e| < |s|
  }

  /** What is kept, in terms of the normalised rules. */
  ghost predicate KeptBy(p: string, filters: set<string>, excluded: set<string>) {
    if Touched(p, filters) || Touched(p, excluded) then exists s :: s in filters && Wins(p, s, excluded)
    else filters == {}
  }

  lemma TouchedNorms(p: string, rules: seq<string>)
    ensures Touched(p, Norms(rules)) <==> exists r :: r in rules && Covers(p, r)
  {
    if r :| r in rules && Covers(p, r) {
      assert NormRule(r) in Norms(rules);
    }
    if n :| n in Norms(rules) && AtOrUnder(p, n) {
      var i := NormsAt(rules, n);
      assert Covers(p, rules[i]);
    }
  }

  lemma WinsNorms(p: string, s: string, excluded: seq<string>)
    ensures Wins(p, NormRule(s), Norms(excluded)) <==>
            Covers(p, s) && forall e :: e in excluded && Covers(p, e) ==> |NormRule(e)| < |NormRule(s)|
  {
    if Wins(p, NormRule(s), Norms(excluded)) {
      forall e | e in excluded && Covers(p, e) ensures |NormRule(e)| < |NormRule(s)| {
        assert NormRule(e) in Norms(excluded);
      }
    }
    if Covers(p, s) && forall e :: e in excluded && Covers(p, e) ==> |NormRule(e)| < |NormRule(s)| {
      forall n | n in Norms(excluded) && AtOrUnder(p, n) ensures |n| < |NormRule(s)| {
        var i := NormsAt(excluded, n);
        assert excluded[i] in excluded && Covers(p, excluded[i]);
      }
    }
  }

  lemma KeptByNorms(path: string, filters: seq<string>, excluded: seq<string>)
    ensures Kept(path, filters, excluded) <==> KeptBy(NormRule(path), Norms(filters), Norms(excluded))
  {
    var p := NormRule(path);
    TouchedNorms(p, filters);
    TouchedNorms(p, excluded);
    assert filters != [] ==> NormRule(filters[0]) in Norms(filters);
    forall s | s in filters
      ensures Wins(p, NormRule(s), Norms(excluded)) <==>
              Covers(p, s) && forall e :: e in excluded && Covers(p, e) ==> |NormRule(e)| < |NormRule(s)| {
      WinsNorms(p, s, excluded);
      assert NormRule(s) in Norms(filters);
    }
    if n :| n in Norms(filters) && Wins(p, n, Norms(excluded)) {
      var i := NormsAt(filters, n);
      assert filters[i] in filters;
    }
  }

  /**
   * Written with backslashes, paths are kept and rules decide exactly as with
   * slashes; and a leading separator changes nothing.
   */
  lemma WindowsPathsAlike(path: string, path': string, filters: seq<string>, filters': seq<string>,
                          excluded: seq<string>, excluded': seq<string>)
    requires SameButSeparators(path, path') && Alike(filters, filters') && Alike(excluded, excluded')
    ensures Kept(path, filters, excluded) <==> Kept(path', filters', excluded')
    ensures Kept("/" + path, filters, excluded) <==> Kept(path', filters', excluded')
  {
    SeparatorsAlike(path, path');
    AlikeRules(filters, filters');
    AlikeRules(excluded, excluded');
    KeptByNorms(path, filters, excluded);
    KeptByNorms("/" + path, filters, excluded);
    KeptByNorms(path', filters', excluded');
  }
}
