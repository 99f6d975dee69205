/** Per-rule target scope: intersecting a rule's globs with the run's candidate files,
    with the run's shared expansion memo. */
module Scope {
  import opened Wrappers
  import opened Json
  import opened Sorting
  import opened Models

  const DEFAULT_FILE_LIMIT := 200

  /** One state of the file system: what a scope glob expands to, and the repo-relative form
      of a path, absent when it lies outside the repository. */
  datatype Snapshot = Snapshot(expand: string -> set<string>, rel: string -> Option<string>)

  datatype TargetSpec = TargetSpec(paths: seq<string>, raw: seq<string>, isMulti: bool)

  datatype ScopeStatus = Dispatch | Empty | Invalid | FileLimitExceeded

  datatype ScopeResolution = ScopeResolution(status: ScopeStatus, spec: Option<TargetSpec>, scopeSize: nat,
                                             candidateSize: nat, effectiveSize: nat, relpaths: seq<string>, limit: nat)

  // ---- specification ----

  /** A non-empty list of strings, or nothing. */
  function Patterns(scope: Json): (r: Option<seq<string>>)
    ensures r.Some? <==> scope.JArr? && scope.items != [] && forall i :: 0 <= i < |scope.items| ==> scope.items[i].JStr?
    ensures r.Some? ==> |r.value| == |scope.items|
    ensures r.Some? ==> forall i :: 0 <= i < |r.value| ==> scope.items[i] == JStr(r.value[i])
  {
    if scope.JArr? && scope.items != [] && forall i :: 0 <= i < |scope.items| ==> scope.items[i].JStr?
    then Some(seq(|scope.items|, i requires 0 <= i < |scope.items| => scope.items[i].s))
    else None
  }

  /** Everything the patterns select. */
  function ScopeSet(snap: Snapshot, patterns: seq<string>): set<string> {
    set i, x | 0 <= i < |patterns| && x in snap.expand(patterns[i]) :: x
  }

  function Rels(snap: Snapshot, candidates: seq<string>): set<string> {
    set i | 0 <= i < |candidates| && snap.rel(candidates[i]).Some? :: snap.rel(candidates[i]).value
  }

  /** The first candidate with the given repo-relative form. */
  ghost predicate FirstWith(snap: Snapshot, candidates: seq<string>, rel: string, path: string) {
    exists i :: 0 <= i < |candidates| && candidates[i] == path && snap.rel(path) == Some(rel)
             && forall j :: 0 <= j < i ==> snap.rel(candidates[j]) != Some(rel)
  }

  /** The elements of a set in ascending order, each once. */
  ghost predicate Listing(s: seq<string>, elements: set<string>) {
    && Sorted(LexLe, s)
    && (forall i, j :: 0 <= i < j < |s| ==> s[i] != s[j])
    && (forall x :: x in s <==> x in elements)
  }

  /** The dispatched files: in path order, one per effective repo-relative path, namely the
      first candidate standing for it. */
  ghost predicate Dispatches(snap: Snapshot, candidates: seq<string>, effective: set<string>, paths: seq<string>) {
    && Sorted(LexLe, paths)
    && (forall i, j :: 0 <= i < j < |paths| ==> paths[i] != paths[j])
    && (forall p :: p in paths <==> exists rel :: rel in effective && FirstWith(snap, candidates, rel, p))
  }

  /** Everything the rule's scope selects in the repository; nothing when it is malformed. */
  function Selected(snap: Snapshot, scope: Json): set<string> {
    var patterns := Patterns(scope);
    if patterns.None? then {} else ScopeSet(snap, patterns.value)
  }

  function Effective(snap: Snapshot, scope: Json, candidates: seq<string>): set<string> {
    Selected(snap, scope) * Rels(snap, candidates)
  }

  ghost predicate Outcome(snap: Snapshot, candidates: seq<string>, limit: nat, selected: set<string>,
                          effective: set<string>, r: ScopeResolution)
  {
    && r.candidateSize == |candidates| && r.limit == limit
    && r.scopeSize == |selected| && r.effectiveSize == |effective|
    && Listing(r.relpaths, effective)
    && r.status == (if selected == {} then Invalid else if effective == {} then Empty
                    else if |effective| > limit then FileLimitExceeded else Dispatch)
    && (r.spec.Some? <==> r.status == Dispatch)
    && (r.spec.Some? ==> && r.spec.value.raw == r.relpaths
                         && r.spec.value.isMulti == (|effective| != 1)
                         && Dispatches(snap, candidates, effective, r.spec.value.paths))
  }

  /** What a resolution must be. The four outcomes split all inputs. */
  ghost predicate Resolves(snap: Snapshot, scope: Json, candidates: seq<string>, limit: nat, r: ScopeResolution) {
    Outcome(snap, candidates, limit, Selected(snap, scope), Effective(snap, scope, candidates), r)
  }

  // ---- uniqueness ----

  lemma {:induction false} ListingUnique(a: seq<string>, b: seq<string>)
    requires Sorted(LexLe, a) && Sorted(LexLe, b)
    requires forall i, j :: 0 <= i < j < |a| ==> a[i] != a[j]
    requires forall i, j :: 0 <= i < j < |b| ==> b[i] != b[j]
    requires forall x :: x in a <==> x in b
    ensures a == b
  {
    if a == [] {
      if b != [] { HeadIn(b); assert false; }
    } else {
      assert a[0] in b && (b != [] ==> b[0] in a);
      var i :| 0 <= i < |b| && b[i] == a[0];
      var j :| 0 <= j < |a| && a[j] == b[0];
      if i > 0 { assert LexLe(b[0], b[i]); }
      if j > 0 { assert LexLe(a[0], a[j]); LexAntisymmetric(a[0], b[0]); }
      assert a[0] == b[0];
      forall x ensures x in a[1..] <==> x in b[1..] {
        RestElements(a, x);
        RestElements(b, x);
      }
      ListingUnique(a[1..], b[1..]);
      assert a == [a[0]] + a[1..] && b == [b[0]] + b[1..];
    }
  }

  lemma HeadIn(b: seq<string>)
    requires b != []
    ensures b[0] in b
  {}

  lemma RestElements(a: seq<string>, x: string)
    requires a != [] && forall i, j :: 0 <= i < j < |a| ==> a[i] != a[j]
    ensures x in a[1..] <==> x in a && x != a[0]
  {
    if x in a[1..] {
      var k :| 0 <= k < |a[1..]| && a[1..][k] == x;
      assert a[k + 1] == x;
    }
  }

  /** A resolution is determined by the snapshot, the scope, the candidates and the limit:
      whatever memo it was computed with, there is only one. */
  lemma ResolutionUnique(snap: Snapshot, scope: Json, candidates: seq<string>, limit: nat, a: ScopeResolution,
                         b: ScopeResolution)
    requires Resolves(snap, scope, candidates, limit, a) && Resolves(snap, scope, candidates, limit, b)
    ensures a == b
  {
    hide Selected, Effective, FirstWith, LexLe;
    ListingUnique(a.relpaths, b.relpaths);
    if a.spec.Some? { ListingUnique(a.spec.value.paths, b.spec.value.paths); }
  }

  /** A dispatched spec is sorted, not empty and within the limit, and its files stand for
      exactly scope ∩ candidates. */
  lemma DispatchedExactly(snap: Snapshot, scope: Json, candidates: seq<string>, limit: nat, r: ScopeResolution)
    requires Resolves(snap, scope, candidates, limit, r) && r.status == Dispatch
    ensures var paths := r.spec.value.paths;
            && Sorted(LexLe, paths) && 0 < |r.spec.value.raw| == r.effectiveSize <= limit
            && (forall p :: p in paths ==> p in candidates)
            && (forall rel :: (exists p :: p in paths && snap.rel(p) == Some(rel))
                  <==> rel in Selected(snap, scope) && rel in Rels(snap, candidates))
  {
    hide LexLe, Selected;
    var paths := r.spec.value.paths;
    var effective := Effective(snap, scope, candidates);
    ListingLength(r.relpaths, effective);
    forall rel ensures (exists p :: p in paths && snap.rel(p) == Some(rel)) <==> rel in effective {
      if rel in effective {
        var p := FirstExists(snap, candidates, rel);
        assert p in paths;
      }
    }
  }

  lemma {:induction false} ListingLength(s: seq<string>, elements: set<string>)
    requires Listing(s, elements)
    ensures |s| == |elements|
  {
    hide LexLe;
    if s == [] {
      assert forall x :: x !in elements;
    } else {
      forall x ensures x in s[1..] <==> x in elements - {s[0]} { RestElements(s, x); }
      ListingLength(s[1..], elements - {s[0]});
    }
  }

  lemma FirstExists(snap: Snapshot, candidates: seq<string>, rel: string) returns (p: string)
    requires rel in Rels(snap, candidates)
    ensures FirstWith(snap, candidates, rel, p)
  {
    var i := 0;
    while snap.rel(candidates[i]) != Some(rel)
      invariant 0 <= i < |candidates|
      invariant forall j :: 0 <= j < i ==> snap.rel(candidates[j]) != Some(rel)
      invariant exists k :: i <= k < |candidates| && snap.rel(candidates[k]) == Some(rel)
      decreases |candidates| - i
    {
      i := i + 1;
    }
    p := candidates[i];
  }

  // ---- the run's shared context ----

  /** `_ScopeContext`: the expansion memo and the lazily derived candidate pool. */
  class ScopeContext {
    const snap: Snapshot
    const pool: Option<seq<string>>
    var memo: map<string, set<string>>
    var candidates: Option<seq<string>>
    var candidatesResolved: bool

    /** What is remembered is what would be computed. */
    ghost predicate Valid()
      reads this
    {
      && (forall p :: p in memo ==> memo[p] == snap.expand(p))
      && (candidatesResolved ==> candidates == pool)
    }

    constructor (snap: Snapshot, pool: Option<seq<string>>)
      ensures Valid() && this.snap == snap && this.pool == pool && memo == map[] && !candidatesResolved
    {
      this.snap, this.pool := snap, pool;
      memo, candidates, candidatesResolved := map[], None, false;
    }

    /** `_memoized_scope_expansion`. */
    method Expand(pattern: string) returns (files: set<string>)
      requires Valid()
      modifies this`memo
      ensures Valid() && files == snap.expand(pattern)
      ensures memo == old(memo)[pattern := files]
    {
      if pattern in memo {
        files := memo[pattern];
        assert memo == memo[pattern := files];
      } else {
        files := snap.expand(pattern);
        memo := memo[pattern := files];
      }
    }

    /** `candidate_paths`. */
    method CandidatePaths() returns (r: Option<seq<string>>)
      requires Valid()
      modifies this`candidates, this`candidatesResolved
      ensures Valid() && r == pool && candidatesResolved
    {
      if !candidatesResolved {
        candidates := pool;
        candidatesResolved := true;
      }
      r := candidates;
    }

    /** The union of the patterns' expansions. */
    method ExpandAll(patterns: seq<string>) returns (selected: set<string>)
      requires Valid()
      modifies this`memo
      ensures Valid() && selected == ScopeSet(snap, patterns)
      ensures forall p :: p in memo <==> p in old(memo) || p in patterns
    {
      selected := {};
      for i := 0 to |patterns|
        invariant Valid() && selected == ScopeSet(snap, patterns[..i])
        invariant forall p :: p in memo <==> p in old(memo) || p in patterns[..i]
      {
        var files := Expand(patterns[i]);
        assert patterns[..i + 1] == patterns[..i] + [patterns[i]];
        ScopeSetSnoc(snap, patterns[..i], patterns[i]);
        selected := selected + files;
      }
      assert patterns[..|patterns|] == patterns;
    }

    /** `resolve_rule_scope` with the run's memo: the memo only ever gains the rule's own
        patterns, and the resolution is the one computed without it. */
    method Resolve(scope: Json, candidatePaths: seq<string>, limit: nat) returns (r: ScopeResolution)
      requires Valid()
      modifies this`memo
      ensures Valid() && Resolves(snap, scope, candidatePaths, limit, r)
      ensures forall p :: p in memo <==> p in old(memo) || (Patterns(scope).Some? && p in Patterns(scope).value)
    {
      var patterns := Patterns(scope);
      var selected: set<string> := {};
      if patterns.Some? { selected := ExpandAll(patterns.value); }
      assert selected == Selected(snap, scope);
      hide Outcome, Selected, ScopeSet, Patterns;
      r := Intersect(snap, candidatePaths, limit, selected);
    }
  }

  /** The part of `resolve_rule_scope` after the expansion. */
  method Intersect(snap: Snapshot, candidatePaths: seq<string>, limit: nat, selected: set<string>)
    returns (r: ScopeResolution)
    ensures Outcome(snap, candidatePaths, limit, selected, selected * Rels(snap, candidatePaths), r)
  {
    ListingNothing();
    if selected == {} {
      assert selected * Rels(snap, candidatePaths) == {};
      return ScopeResolution(Invalid, None, 0, |candidatePaths|, 0, [], limit);
    }
    var candidateRel := CandidateRel(snap, candidatePaths);
    hide LexLe, Listing, Dispatches, FirstWith, Rels;
    var effective := selected * candidateRel.Keys;
    var relpaths := SortedElements(effective);
    ListingLength(relpaths, effective);
    var size := |relpaths|;
    if size == 0 {
      assert effective == {};
      return ScopeResolution(Empty, None, |selected|, |candidatePaths|, 0, [], limit);
    }
    if size > limit {
      return ScopeResolution(FileLimitExceeded, None, |selected|, |candidatePaths|, size, relpaths, limit);
    }
    var paths := EffectivePaths(snap, candidatePaths, candidateRel, relpaths, effective);
    r := ScopeResolution(Dispatch, Some(TargetSpec(paths, relpaths, size != 1)),
                         |selected|, |candidatePaths|, size, relpaths, limit);
  }

  lemma ListingNothing()
    ensures Listing([], {})
  {}

  lemma ScopeSetSnoc(snap: Snapshot, patterns: seq<string>, p: string)
    ensures ScopeSet(snap, patterns + [p]) == ScopeSet(snap, patterns) + snap.expand(p)
  {
    var all := patterns + [p];
    forall x ensures x in ScopeSet(snap, all) <==> x in ScopeSet(snap, patterns) || x in snap.expand(p) {
      if x in ScopeSet(snap, patterns) {
        var i :| 0 <= i < |patterns| && x in snap.expand(patterns[i]);
        assert all[i] == patterns[i];
      }
      if x in snap.expand(p) { assert all[|patterns|] == p; }
    }
  }

  /** The `setdefault` loop: the first path wins. */
  method CandidateRel(snap: Snapshot, candidates: seq<string>) returns (m: map<string, string>)
    ensures m.Keys == Rels(snap, candidates)
    ensures forall rel :: rel in m ==> FirstWith(snap, candidates, rel, m[rel])
  {
    m := map[];
    for i := 0 to |candidates|
      invariant forall rel :: rel in m <==> exists j :: 0 <= j < i && snap.rel(candidates[j]) == Some(rel)
      invariant forall rel :: rel in m ==> FirstWith(snap, candidates, rel, m[rel])
    {
      var rel := snap.rel(candidates[i]);
      if rel.Some? && rel.value !in m {
        assert FirstWith(snap, candidates, rel.value, candidates[i]);
        m := m[rel.value := candidates[i]];
      }
    }
  }

  /** `sorted` of a set. */
  method SortedElements(elements: set<string>) returns (s: seq<string>)
    ensures Listing(s, elements)
  {
    s := [];
    var rest := elements;
    ByKeyTotal((x: string) => x);
    LexPreorder();
    while rest != {}
      invariant rest <= elements && (forall x :: x in s <==> x in elements - rest)
      invariant Sorted(LexLe, s) && forall i, j :: 0 <= i < j < |s| ==> s[i] != s[j]
      decreases rest
    {
      var x :| x in rest;
      InsertKeeps(LexLe, s, x);
      InsertDistinct(s, x);
      s, rest := Insert(LexLe, s, x), rest - {x};
    }
  }

  lemma LexPreorder()
    ensures TotalPreorder(LexLe)
  {
    forall a, b ensures LexLe(a, b) || LexLe(b, a) { LexTotal(a, b); }
    forall a, b, c | LexLe(a, b) && LexLe(b, c) ensures LexLe(a, c) { LexTransitive(a, b, c); }
  }

  lemma InsertDistinct(s: seq<string>, x: string)
    requires x !in s && forall i, j :: 0 <= i < j < |s| ==> s[i] != s[j]
    ensures var r := Insert(LexLe, s, x);
            (forall y :: y in r <==> y in s || y == x) && forall i, j :: 0 <= i < j < |r| ==> r[i] != r[j]
  {
    hide LexLe, Insert;
    InsertElements(LexLe, s, x);
    var r := Insert(LexLe, s, x);
    SameElements(r, s + [x]);
    DistinctByCount(s + [x], r);
  }

  /** A permutation of a sequence without repetitions has none. */
  lemma DistinctByCount(a: seq<string>, b: seq<string>)
    requires multiset(a) == multiset(b) && forall i, j :: 0 <= i < j < |a| ==> a[i] != a[j]
    ensures forall i, j :: 0 <= i < j < |b| ==> b[i] != b[j]
  {
    forall i, j | 0 <= i < j < |b| ensures b[i] != b[j] {
      assert b == b[..i] + [b[i]] + b[i + 1..j] + [b[j]] + b[j + 1..];
      if b[i] == b[j] {
        assert multiset(b)[b[i]] >= 2;
        CountDistinct(a, b[i]);
        assert false;
      }
    }
  }

  lemma {:induction false} CountDistinct(a: seq<string>, x: string)
    requires forall i, j :: 0 <= i < j < |a| ==> a[i] != a[j]
    ensures multiset(a)[x] <= 1
  {
    if a == [] {
    } else {
      CountDistinct(a[1..], x);
      assert a == [a[0]] + a[1..];
      if a[0] == x { RestElements(a, x); }
    }
  }

  /** The candidate paths behind the effective relative paths, in path order. */
  method EffectivePaths(snap: Snapshot, candidates: seq<string>, candidateRel: map<string, string>,
                        relpaths: seq<string>, effective: set<string>)
    returns (paths: seq<string>)
    requires Listing(relpaths, effective) && effective <= candidateRel.Keys
    requires forall rel :: rel in candidateRel ==> FirstWith(snap, candidates, rel, candidateRel[rel])
    ensures Dispatches(snap, candidates, effective, paths)
  {
    hide LexLe, Sorted, Sort;
    var unsorted: seq<string> := [];
    for i := 0 to |relpaths|
      invariant |unsorted| == i
      invariant forall j :: 0 <= j < i ==> relpaths[j] in candidateRel && unsorted[j] == candidateRel[relpaths[j]]
    {
      assert relpaths[i] in relpaths;
      unsorted := unsorted + [candidateRel[relpaths[i]]];
    }
    forall i, j | 0 <= i < j < |unsorted| ensures unsorted[i] != unsorted[j] {
      assert relpaths[i] in candidateRel && relpaths[j] in candidateRel;
    }
    forall p ensures p in unsorted <==> exists rel :: rel in effective && FirstWith(snap, candidates, rel, p) {
      if exists rel :: rel in effective && FirstWith(snap, candidates, rel, p) {
        var rel :| rel in effective && FirstWith(snap, candidates, rel, p);
        FirstUnique(snap, candidates, rel, p, candidateRel[rel]);
        var i :| 0 <= i < |relpaths| && relpaths[i] == rel;
        assert unsorted[i] == p;
      }
      if p in unsorted {
        var i :| 0 <= i < |unsorted| && unsorted[i] == p;
        assert relpaths[i] in effective && FirstWith(snap, candidates, relpaths[i], p);
      }
    }
    LexPreorder();
    SortSorts(LexLe, unsorted);
    paths := Sort(LexLe, unsorted);
    SameElements(unsorted, paths);
    DistinctByCount(unsorted, paths);
  }

  lemma FirstUnique(snap: Snapshot, candidates: seq<string>, rel: string, p: string, q: string)
    requires FirstWith(snap, candidates, rel, p) && FirstWith(snap, candidates, rel, q)
    ensures p == q
  {
    var i :| 0 <= i < |candidates| && candidates[i] == p && snap.rel(p) == Some(rel)
             && forall j :: 0 <= j < i ==> snap.rel(candidates[j]) != Some(rel);
    var k :| 0 <= k < |candidates| && candidates[k] == q && snap.rel(q) == Some(rel)
             && forall j :: 0 <= j < k ==> snap.rel(candidates[j]) != Some(rel);
    assert snap.rel(candidates[i]) == snap.rel(candidates[k]) == Some(rel);
  }

  // ---- planning a rule ----

  /** Whether a rule's scope can be intersected with this run at all. */
  predicate IsScoped(rule: Rule, pool: Option<seq<string>>) {
    !Get(rule.params, "target_scope").JNull? && pool.Some?
  }

  /** How a rule is dispatched: against the run's own target, or as its scope resolves. */
  ghost predicate Plans(snap: Snapshot, pool: Option<seq<string>>, rule: Rule, plan: Option<ScopeResolution>) {
    if !IsScoped(rule, pool) then plan.None?
    else plan.Some? && Resolves(snap, Get(rule.params, "target_scope"), pool.value, DEFAULT_FILE_LIMIT, plan.value)
  }

  /** `_plan_rule_dispatch` for a whole rule set on one shared context: every plan is the one
      a fresh context would give. */
  method PlanAll(ctx: ScopeContext, rules: seq<Rule>) returns (plans: seq<Option<ScopeResolution>>)
    requires ctx.Valid()
    modifies ctx
    ensures ctx.Valid() && |plans| == |rules|
    ensures forall i :: 0 <= i < |rules| ==> Plans(ctx.snap, ctx.pool, rules[i], plans[i])
  {
    hide Resolves;
    plans := [];
    for i := 0 to |rules|
      invariant ctx.Valid() && |plans| == i
      invariant forall k :: 0 <= k < i ==> Plans(ctx.snap, ctx.pool, rules[k], plans[k])
    {
      var scope := Get(rules[i].params, "target_scope");
      if scope.JNull? {
        plans := plans + [None];
      } else {
        var pool := ctx.CandidatePaths();
        if pool.None? {
          plans := plans + [None];
        } else {
          var r := ctx.Resolve(scope, pool.value, DEFAULT_FILE_LIMIT);
          plans := plans + [Some(r)];
        }
      }
    }
  }

  /** So plans do not depend on the memo, nor on the rules planned before. */
  lemma PlanUnique(snap: Snapshot, pool: Option<seq<string>>, rule: Rule, a: Option<ScopeResolution>,
                   b: Option<ScopeResolution>)
    requires Plans(snap, pool, rule, a) && Plans(snap, pool, rule, b)
    ensures a == b
  {
    hide Resolves;
    if IsScoped(rule, pool) {
      ResolutionUnique(snap, Get(rule.params, "target_scope"), pool.value, DEFAULT_FILE_LIMIT, a.value, b.value);
    }
  }
}
