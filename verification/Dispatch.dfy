/** Validation of a rule set: the sequential loop and the bounded-concurrent executor, with
    prechecks, scopes and the evaluation cache. */
module Dispatch {
  import opened Wrappers
  import opened Json
  import opened Models
  import opened CacheKey
  import opened EvalCache
  import Scope

  // ---- the environment of one run ----

  /** A backend call that survived the prechecks; without a spec it runs on the run's own
      target. */
  datatype Call = Call(rule: Rule, backend: string, spec: Option<Scope.TargetSpec>)

  /** What a check does: it raises, or yields everything of a diagnostic but the rule's
      identity. */
  datatype Judged =
    | Raises(exception: string, message: string)
    | Gives(backend: Backend, status: Status, text: string, evidence: seq<Evidence>, remediation: Option<string>)

  /** One run: its options, the registered backends, each rule's scope plan, the checks as
      functions of their arguments, and the cache key of a call, absent when it cannot be built. */
  datatype Config = Config(backend: string, artifactKind: Option<TargetKind>, registered: set<string>,
                           plan: Rule -> Option<Scope.ScopeResolution>, check: Call -> Judged,
                           key: Call -> Option<Preimage>, evalCache: bool)

  const LLM := "llm-rubric"

  function ResolvedName(cfg: Config, rule: Rule): string {
    if cfg.backend == "auto" then BackendName(rule.backendHint) else cfg.backend
  }

  /** `_backend_for`, with the fallback of the registry-miss path. */
  function AttributedBackend(name: string): Backend {
    if name == "github" then Github else if name == LLM then LlmRubric
    else if name == "external" then External else Filesystem
  }

  // ---- diagnostics ----

  function Attach(rule: Rule, backend: Backend, status: Status, text: string, evidence: seq<Evidence>,
                  remediation: Option<string>): Diagnostic
  {
    Diagnostic(rule.id, rule.source, backend, status, rule.severity, text, evidence, remediation)
  }

  function MismatchDiagnostic(rule: Rule, kind: TargetKind): Diagnostic {
    Attach(rule, LlmRubric, UNSUPPORTED, "target kind mismatch",
           [Evidence("target_kind_mismatch", map["rule_target_kind" := JStr(TargetKindName(rule.targetKind)),
                     "artifact_kind" := JStr(TargetKindName(kind)), "llm_called" := JBool(false)])], None)
  }

  function Sizes(r: Scope.ScopeResolution): map<string, Json> {
    map["scope_size" := JInt(r.scopeSize), "candidate_size" := JInt(r.candidateSize),
        "effective_size" := JInt(r.effectiveSize)]
  }

  function ScopeDiagnostic(rule: Rule, r: Scope.ScopeResolution): Diagnostic {
    match r.status
    case Empty => Attach(rule, rule.backendHint, PASS, "no files in scope", [Evidence("scope_empty", Sizes(r))], None)
    case FileLimitExceeded =>
      Attach(rule, rule.backendHint, UNAVAILABLE, "file limit exceeded",
             [Evidence("scope_file_limit_exceeded", Sizes(r))], None)
    case _ =>
      Attach(rule, rule.backendHint, UNAVAILABLE, "invalid target_scope", [Evidence("scope_invalid", Sizes(r))], None)
  }

  function MissDiagnostic(rule: Rule, name: string): Diagnostic {
    Attach(rule, AttributedBackend(name), UNAVAILABLE, "no backend registered",
           [Evidence("registry_miss", map["backend_hint" := JStr(name)])], None)
  }

  /** The diagnostic of a completed check; an exception becomes an ERROR. */
  function Conclude(call: Call, judged: Judged): Diagnostic {
    match judged
    case Raises(e, m) =>
      Attach(call.rule, AttributedBackend(call.backend), ERROR, m,
             [Evidence("exception", map["type" := JStr(e), "message" := JStr(m)])], None)
    case Gives(b, s, t, ev, rem) => Attach(call.rule, b, s, t, ev, rem)
  }

  function PathList(paths: seq<string>): Json {
    JArr(seq(|paths|, i requires 0 <= i < |paths| => JStr(paths[i])))
  }

  function ScopeEvidence(r: Scope.ScopeResolution): Evidence {
    Evidence("scope_effective_set", Sizes(r)["effective_paths" := PathList(r.relpaths)])
  }

  /** `_append_scope_evidence`. */
  function AppendScope(d: Diagnostic, plan: Option<Scope.ScopeResolution>): Diagnostic {
    if plan.None? then d else d.(evidence := d.evidence + [ScopeEvidence(plan.value)])
  }

  // ---- what happens to one rule before any check runs ----

  datatype Disposition = Settled(d: Diagnostic) | Live(call: Call, scope: Option<Scope.ScopeResolution>)

  /** Precheck, scope, registry, in the source's order. */
  function Dispose(cfg: Config, rule: Rule): Disposition {
    var name := ResolvedName(cfg, rule);
    if cfg.artifactKind.Some? && name == LLM
       && rule.targetKind != Unspecified && rule.targetKind != cfg.artifactKind.value
    then Settled(MismatchDiagnostic(rule, cfg.artifactKind.value))
    else
      var plan := cfg.plan(rule);
      if plan.Some? && (plan.value.status != Scope.Dispatch || plan.value.spec.None?)
      then Settled(ScopeDiagnostic(rule, plan.value))
      else if name !in cfg.registered then Settled(AppendScope(MissDiagnostic(rule, name), plan))
      else Live(Call(rule, name, if plan.None? then None else plan.value.spec), plan)
  }

  function Evaluate(cfg: Config, call: Call): Diagnostic { Conclude(call, cfg.check(call)) }

  /** The report entry without any cache: the simple map everything else must agree with. */
  function PlainEntry(cfg: Config, rule: Rule): Diagnostic {
    match Dispose(cfg, rule)
    case Settled(d) => d
    case Live(call, scope) => AppendScope(Evaluate(cfg, call), scope)
  }

  // ---- what an entry says, of the rule, its plan and the registry alone ----

  /** The backend a rule is routed to: the run's, or on "auto" the rule's own. */
  predicate RoutedTo(cfg: Config, rule: Rule, name: string) {
    if cfg.backend != "auto" then name == cfg.backend
    else
      match rule.backendHint
      case Filesystem => name == "filesystem"
      case Github => name == "github"
      case LlmRubric => name == "llm-rubric"
      case External => name == "external"
  }

  /** The backend a name stands for, the filesystem when it is none of them. */
  predicate AttributedTo(name: string, backend: Backend) {
    match backend
    case Github => name == "github"
    case LlmRubric => name == "llm-rubric"
    case External => name == "external"
    case Filesystem => name != "github" && name != "llm-rubric" && name != "external"
  }

  /** A rubric rule annotated for another kind than the artifact kind declared for the run. */
  predicate Mismatched(cfg: Config, rule: Rule) {
    && RoutedTo(cfg, rule, "llm-rubric")
    && cfg.artifactKind.Some?
    && !(rule.targetKind == Unspecified || rule.targetKind == cfg.artifactKind.value)
  }

  /** The rule has no scope of its own, or one that resolves to files. */
  predicate Planned(cfg: Config, rule: Rule) {
    match cfg.plan(rule)
    case None => true
    case Some(r) => r.status == Scope.Dispatch && r.spec.Some?
  }

  /** The check that is to be started for the rule: no mismatch, a plan that runs, a registered
      backend; on the plan's files. */
  predicate StartsAs(cfg: Config, rule: Rule, call: Call) {
    && !Mismatched(cfg, rule) && Planned(cfg, rule)
    && call.rule == rule && RoutedTo(cfg, rule, call.backend) && call.backend in cfg.registered
    && (cfg.plan(rule).None? ==> call.spec.None?)
    && (cfg.plan(rule).Some? ==> call.spec == cfg.plan(rule).value.spec)
  }

  /** A check is to be started for the rule. */
  ghost predicate Starts(cfg: Config, rule: Rule) {
    !Mismatched(cfg, rule) && Planned(cfg, rule) && exists name :: RoutedTo(cfg, rule, name) && name in cfg.registered
  }

  /** The entry carries the rule's identity. */
  predicate Identifies(d: Diagnostic, rule: Rule) {
    d.ruleId == rule.id && d.source == rule.source && d.severity == rule.severity
  }

  predicate Records(e: Evidence, kind: string, r: Scope.ScopeResolution) {
    && e.kind == kind
    && Get(e.data, "scope_size") == JInt(r.scopeSize)
    && Get(e.data, "candidate_size") == JInt(r.candidateSize)
    && Get(e.data, "effective_size") == JInt(r.effectiveSize)
  }

  /** The evidence is the base one, followed for a planned rule by the record of its files. */
  predicate ScopedOf(evidence: seq<Evidence>, base: seq<Evidence>, plan: Option<Scope.ScopeResolution>) {
    match plan
    case None => evidence == base
    case Some(r) =>
      && |evidence| == |base| + 1 && evidence[..|base|] == base
      && Records(evidence[|base|], "scope_effective_set", r)
      && Get(evidence[|base|].data, "effective_paths").JArr?
      && var items := Get(evidence[|base|].data, "effective_paths").items;
         |items| == |r.relpaths| && forall k :: 0 <= k < |items| ==> items[k] == JStr(r.relpaths[k])
  }

  /** The entry of a rule for which no check starts: by cause its status, and the evidence that
      names the cause. */
  ghost predicate SettledAs(cfg: Config, rule: Rule, d: Diagnostic) {
    && Identifies(d, rule)
    && if Mismatched(cfg, rule) then
         && d.status == UNSUPPORTED && d.backend == LlmRubric && |d.evidence| == 1
         && d.evidence[0].kind == "target_kind_mismatch" && Get(d.evidence[0].data, "llm_called") == JBool(false)
       else if !Planned(cfg, rule) then
         && |d.evidence| == 1 && d.backend == rule.backendHint
         && var r := cfg.plan(rule).value;
            match r.status
            case Empty => d.status == PASS && Records(d.evidence[0], "scope_empty", r)
            case FileLimitExceeded => d.status == UNAVAILABLE && Records(d.evidence[0], "scope_file_limit_exceeded", r)
            case _ => d.status == UNAVAILABLE && Records(d.evidence[0], "scope_invalid", r)
       else
         && d.status == UNAVAILABLE && d.evidence != [] && d.evidence[0].kind == "registry_miss"
         && Get(d.evidence[0].data, "backend_hint").JStr?
         && RoutedTo(cfg, rule, Get(d.evidence[0].data, "backend_hint").s)
         && AttributedTo(Get(d.evidence[0].data, "backend_hint").s, d.backend)
         && ScopedOf(d.evidence, d.evidence[..1], cfg.plan(rule))
  }

  /** The entry of a check: everything it yields under the rule's identity, or ERROR when it raised. */
  predicate JudgedAs(rule: Rule, name: string, judged: Judged, plan: Option<Scope.ScopeResolution>, d: Diagnostic) {
    && Identifies(d, rule)
    && match judged
       case Gives(backend, status, text, evidence, remediation) =>
         && d.backend == backend && d.status == status && d.message == text && d.remediation == remediation
         && ScopedOf(d.evidence, evidence, plan)
       case Raises(exception, message) =>
         && d.status == ERROR && AttributedTo(name, d.backend)
         && d.evidence != [] && d.evidence[0].kind == "exception"
         && Get(d.evidence[0].data, "type") == JStr(exception) && Get(d.evidence[0].data, "message") == JStr(message)
         && ScopedOf(d.evidence, d.evidence[..1], plan)
  }

  lemma RoutedIff(cfg: Config, rule: Rule, name: string)
    ensures RoutedTo(cfg, rule, name) <==> name == ResolvedName(cfg, rule)
  {}

  /** Before any check: a rule is live exactly when one is to be started for it, with that call. */
  lemma DisposeIff(cfg: Config, rule: Rule)
    ensures Dispose(cfg, rule).Live? <==> Starts(cfg, rule)
    ensures Dispose(cfg, rule).Live? ==>
              && Dispose(cfg, rule).scope == cfg.plan(rule)
              && forall call :: StartsAs(cfg, rule, call) <==> call == Dispose(cfg, rule).call
    ensures Dispose(cfg, rule).Settled? ==> forall call :: !StartsAs(cfg, rule, call)
  {
    forall name ensures RoutedTo(cfg, rule, name) <==> name == ResolvedName(cfg, rule) { RoutedIff(cfg, rule, name); }
    hide RoutedTo, ResolvedName, MismatchDiagnostic, ScopeDiagnostic, MissDiagnostic;
  }

  lemma AppendScopeScopes(d: Diagnostic, plan: Option<Scope.ScopeResolution>)
    ensures var e := AppendScope(d, plan);
            e == d.(evidence := e.evidence) && ScopedOf(e.evidence, d.evidence, plan)
  {}

  /** A rule that is not live is settled for its cause. */
  lemma SettledMeaning(cfg: Config, rule: Rule)
    requires Dispose(cfg, rule).Settled?
    ensures SettledAs(cfg, rule, Dispose(cfg, rule).d)
  {
    var name := ResolvedName(cfg, rule);
    RoutedIff(cfg, rule, name);
    RoutedIff(cfg, rule, LLM);
    AppendScopeScopes(MissDiagnostic(rule, name), cfg.plan(rule));
    var miss := AppendScope(MissDiagnostic(rule, name), cfg.plan(rule));
    assert cfg.plan(rule).Some? ==> miss.evidence[..1] == MissDiagnostic(rule, name).evidence;
    hide RoutedTo, ResolvedName, TargetKindName, AppendScope, ScopedOf;
  }

  lemma JudgedMeaning(cfg: Config, call: Call, plan: Option<Scope.ScopeResolution>)
    ensures JudgedAs(call.rule, call.backend, cfg.check(call), plan, AppendScope(Evaluate(cfg, call), plan))
  {
    AppendScopeScopes(Evaluate(cfg, call), plan);
    var d := AppendScope(Evaluate(cfg, call), plan);
    assert plan.Some? && cfg.check(call).Raises? ==> d.evidence[..1] == Evaluate(cfg, call).evidence;
    hide AppendScope, ScopedOf;
  }

  /** An entry of the report, given the cache the rule's lookup sees: the cause of a rule for which
      no check starts, a hit, or what the check yields. */
  ghost predicate EntryMeans(cfg: Config, seen: Cache, rule: Rule, d: Diagnostic) {
    && (!Starts(cfg, rule) ==> SettledAs(cfg, rule, d))
    && forall call :: StartsAs(cfg, rule, call) ==>
         match LookupFor(cfg, seen, call)
         case Some(hit) => d == hit.(evidence := d.evidence) && ScopedOf(d.evidence, hit.evidence, cfg.plan(rule))
         case None => JudgedAs(rule, call.backend, cfg.check(call), cfg.plan(rule), d)
  }

  predicate Cacheable(cfg: Config, call: Call) { cfg.evalCache && call.backend == LLM && cfg.key(call).Some? }

  function LookupFor(cfg: Config, cache: Cache, call: Call): Option<Diagnostic> {
    if Cacheable(cfg, call) then TryLookup(cache, cfg.key(call).value, call.rule) else None
  }

  function StoreFor(cfg: Config, cache: Cache, call: Call, created: string): Cache {
    if Cacheable(cfg, call) then Store(cache, cfg.key(call).value, created, Evaluate(cfg, call)) else cache
  }

  /** What happens besides this run: other processes turn the cache left by the rules before
      rule i into the one rule i finds, and there is a clock. */
  datatype World = World(others: (nat, Cache) -> Cache, clock: nat -> string)

  // ---- sequential ----

  /** Rule i of the sequential loop. */
  function SeqStep(cfg: Config, world: World, cache: Cache, i: nat, rule: Rule): (Diagnostic, Cache) {
    var seen := world.others(i, cache);
    match Dispose(cfg, rule)
    case Settled(d) => (d, seen)
    case Live(call, scope) =>
      var cached := LookupFor(cfg, seen, call);
      if cached.Some? then (AppendScope(cached.value, scope), seen)
      else (AppendScope(Evaluate(cfg, call), scope), StoreFor(cfg, seen, call, world.clock(i)))
  }

  function SeqCache(cfg: Config, world: World, cache: Cache, rules: seq<Rule>): Cache {
    if rules == [] then cache
    else
      var n := |rules| - 1;
      SeqStep(cfg, world, SeqCache(cfg, world, cache, rules[..n]), n, rules[n]).1
  }

  /** The diagnostic of rule i after the rules before it. */
  function SeqEntry(cfg: Config, world: World, cache: Cache, rules: seq<Rule>, i: nat): Diagnostic
    requires i < |rules|
  {
    SeqStep(cfg, world, SeqCache(cfg, world, cache, rules[..i]), i, rules[i]).0
  }

  predicate IsEntryKey(cfg: Config, call: Call) {
    cfg.evalCache && call.backend == "llm-rubric" && cfg.key(call).Some?
  }

  /** A stored entry: the version, the time, and the plain diagnostic of the check. */
  ghost predicate IsEntryOf(entry: Json, created: string, call: Call, judged: Judged) {
    && entry.JObj?
    && Get(entry.fields, "cache_schema_version") == JInt(1) && Get(entry.fields, "created_at") == JStr(created)
    && exists d ::
         JudgedAs(call.rule, call.backend, judged, None, d) && Get(entry.fields, "diagnostic") == DiagnosticToDict(d)
  }

  /** What a completed check leaves in the cache: with the option on, for the rubric backend and under
      a key that can be built, a verdict is stored and nothing else changes. */
  ghost predicate Stored(cfg: Config, before: Cache, call: Call, created: string, after: Cache) {
    if IsEntryKey(cfg, call) && IsVerdict(cfg.check(call)) then
      && after.Keys == before.Keys + {cfg.key(call).value}
      && (forall k :: k in before && k != cfg.key(call).value ==> after[k] == before[k])
      && IsEntryOf(after[cfg.key(call).value], created, call, cfg.check(call))
    else after == before
  }

  /** What handling one rule leaves in the cache its lookup saw: a check's verdict, and otherwise no
      change. */
  ghost predicate CacheMoves(cfg: Config, seen: Cache, rule: Rule, created: string, after: Cache) {
    && (!Starts(cfg, rule) ==> after == seen)
    && forall call :: StartsAs(cfg, rule, call) ==>
         if LookupFor(cfg, seen, call).Some? then after == seen else Stored(cfg, seen, call, created, after)
  }

  lemma StoreForMeaning(cfg: Config, cache: Cache, call: Call, created: string)
    ensures Stored(cfg, cache, call, created, StoreFor(cfg, cache, call, created))
  {
    var d := Evaluate(cfg, call);
    JudgedMeaning(cfg, call, None);
    assert AppendScope(d, None) == d;
    var after := StoreFor(cfg, cache, call, created);
    hide Evaluate, JudgedAs, DiagnosticToDict;
    if IsEntryKey(cfg, call) && IsVerdict(cfg.check(call)) {
      VerdictStatus(cfg, call);
      assert JudgedAs(call.rule, call.backend, cfg.check(call), None, d);
    } else if Cacheable(cfg, call) {
      VerdictStatus(cfg, call);
    }
  }

  /** A stored verdict is found by every later lookup under its key, of whatever run and rule: it is what
      the check yielded, under that rule's identity, with the record of the hit. */
  lemma StoredIsFound(cfg: Config, before: Cache, call: Call, created: string, after: Cache, later: Config, again: Call)
    requires Stored(cfg, before, call, created, after)
    requires IsEntryKey(cfg, call) && IsVerdict(cfg.check(call)) && call.rule.source.line >= 1
    requires IsEntryKey(later, again) && later.key(again) == cfg.key(call)
    ensures LookupFor(later, after, again).Some?
    ensures exists d ::
              && JudgedAs(call.rule, call.backend, cfg.check(call), None, d)
              && IsHitOf(LookupFor(later, after, again).value, d, again.rule, JStr(created))
  {
    var key := cfg.key(call).value;
    var fields := after[key].fields;
    var d :| JudgedAs(call.rule, call.backend, cfg.check(call), None, d)
             && Get(fields, "diagnostic") == DiagnosticToDict(d);
    EntryLoads(fields, d);
    LookupMeaning(after, key, again.rule);
    assert IsEntry(after[key], d);
    assert LookupFor(later, after, again) == TryLookup(after, key, again.rule);
    hide TryLookup, DiagnosticToDict, DiagnosticFromDict;
    assert "created_at" in fields && fields["created_at"] == JStr(created);
  }

  lemma EntryLoads(fields: map<string, Json>, d: Diagnostic)
    requires Get(fields, "diagnostic") == DiagnosticToDict(d) && d.source.line >= 1
    ensures "diagnostic" in fields && DiagnosticFromDict(fields["diagnostic"]) == Ok(d)
  {
    DiagnosticRoundTrip(d);
    hide DiagnosticFromDict;
  }

  lemma VerdictStatus(cfg: Config, call: Call)
    ensures IsVerdict(cfg.check(call)) <==> Evaluate(cfg, call).status == PASS || Evaluate(cfg, call).status == FAIL
  {}

  /** One rule of the sequential loop: its entry and what it leaves in the cache. */
  lemma SeqStepMeaning(cfg: Config, world: World, cache: Cache, i: nat, rule: Rule)
    ensures var r := SeqStep(cfg, world, cache, i, rule); SeqMove(cfg, world, i, rule, cache, r.0, r.1)
  {
    var seen := world.others(i, cache);
    DisposeIff(cfg, rule);
    match Dispose(cfg, rule) {
      case Settled(d) => SettledMeaning(cfg, rule);
      case Live(call, scope) =>
        assert StartsAs(cfg, rule, call);
        JudgedMeaning(cfg, call, scope);
        StoreForMeaning(cfg, seen, call, world.clock(i));
        if LookupFor(cfg, seen, call).Some? { AppendScopeScopes(LookupFor(cfg, seen, call).value, scope); }
    }
    hide Dispose, StartsAs, Starts, SettledAs, JudgedAs, Stored, LookupFor, AppendScope, Evaluate, StoreFor, ScopedOf;
  }

  ghost predicate SeqMove(cfg: Config, world: World, i: nat, rule: Rule, before: Cache, d: Diagnostic, after: Cache) {
    EntryMeans(cfg, world.others(i, before), rule, d)
    && CacheMoves(cfg, world.others(i, before), rule, world.clock(i), after)
  }

  /** A whole sequential run: every entry is what its rule and the cache it found say, and every rule
      leaves in the cache what it should. */
  ghost predicate SeqTraced(cfg: Config, world: World, rules: seq<Rule>, report: seq<Diagnostic>, caches: seq<Cache>) {
    && |report| == |rules| && |caches| == |rules| + 1
    && forall i :: 0 <= i < |rules| ==> SeqMove(cfg, world, i, rules[i], caches[i], report[i], caches[i + 1])
  }

  ghost function SeqCaches(cfg: Config, world: World, cache: Cache, rules: seq<Rule>): (r: seq<Cache>)
    ensures |r| == |rules| + 1
    ensures forall k :: 0 <= k <= |rules| ==> r[k] == SeqCache(cfg, world, cache, rules[..k])
  {
    seq(|rules| + 1, k requires 0 <= k <= |rules| => SeqCache(cfg, world, cache, rules[..k]))
  }

  lemma SequentialMeaning(cfg: Config, world: World, cache0: Cache, rules: seq<Rule>, report: seq<Diagnostic>)
    requires |report| == |rules|
    requires forall i :: 0 <= i < |rules| ==> report[i] == SeqEntry(cfg, world, cache0, rules, i)
    ensures SeqTraced(cfg, world, rules, report, SeqCaches(cfg, world, cache0, rules))
  {
    hide SeqStep, SeqMove, SeqCaches;
    var caches := SeqCaches(cfg, world, cache0, rules);
    forall i | 0 <= i < |rules| ensures SeqMove(cfg, world, i, rules[i], caches[i], report[i], caches[i + 1]) {
      assert rules[..i + 1][..i] == rules[..i];
      SeqStepMeaning(cfg, world, SeqCache(cfg, world, cache0, rules[..i]), i, rules[i]);
    }
  }

  /** `_validate_sequential`. */
  method ValidateSequential(cfg: Config, world: World, cache0: Cache, rules: seq<Rule>)
    returns (report: seq<Diagnostic>, cache: Cache)
    ensures |report| == |rules| && forall i :: 0 <= i < |rules| ==> report[i] == SeqEntry(cfg, world, cache0, rules, i)
    ensures cache == SeqCache(cfg, world, cache0, rules)
    ensures exists caches :: SeqTraced(cfg, world, rules, report, caches)
                             && caches[0] == cache0 && caches[|rules|] == cache
  {
    hide Dispose, TryLookup, Store, Evaluate, AppendScope, SeqTraced;
    report, cache := [], cache0;
    for i := 0 to |rules|
      invariant |report| == i && cache == SeqCache(cfg, world, cache0, rules[..i])
      invariant forall k :: 0 <= k < i ==> report[k] == SeqEntry(cfg, world, cache0, rules, k)
    {
      assert rules[..i + 1][..i] == rules[..i];
      var rule := rules[i];
      cache := world.others(i, cache);
      match Dispose(cfg, rule) {
        case Settled(d) => report := report + [d];
        case Live(call, scope) =>
          var cached := LookupFor(cfg, cache, call);
          if cached.Some? {
            report := report + [AppendScope(cached.value, scope)];
          } else {
            var d := Evaluate(cfg, call);
            cache := StoreFor(cfg, cache, call, world.clock(i));
            report := report + [AppendScope(d, scope)];
          }
      }
    }
    assert rules[..|rules|] == rules;
    SequentialMeaning(cfg, world, cache0, rules, report);
    ghost var caches := SeqCaches(cfg, world, cache0, rules);
    assert SeqTraced(cfg, world, rules, report, caches) && caches[0] == cache0 && caches[|rules|] == cache;
  }

  // ---- soundness of the cache ----

  /** The run makes this call for its rule. */
  predicate Issued(cfg: Config, call: Call) { Dispose(cfg, call.rule).Live? && Dispose(cfg, call.rule).call == call }

  predicate IsVerdict(j: Judged) { j.Gives? && (j.status == PASS || j.status == FAIL) }

  /** A call of one run, a call of another, and the same key. */
  predicate SameKey(from: Config, a: Call, to: Config, b: Call) {
    && Issued(from, a) && Cacheable(from, a) && Issued(to, b) && Cacheable(to, b)
    && from.key(a) == to.key(b)
  }

  /** What one run stores is right for another: whatever has the key of a call that ends in a
      stored verdict is judged alike. A rule without a 1-based line leaves an entry nobody can
      load. */
  ghost predicate KeysAgree(from: Config, to: Config) {
    forall a, b :: SameKey(from, a, to, b) && IsVerdict(from.check(a)) && a.rule.source.line >= 1 ==>
      to.check(b) == from.check(a)
  }

  /** Within a run, the key determines the judgment. */
  ghost predicate KeyDetermines(cfg: Config) { KeysAgree(cfg, cfg) }

  /** Checks never emit a cache-hit record themselves. */
  ghost predicate NoMarkers(cfg: Config) {
    forall c :: cfg.check(c).Gives? ==> Marks(cfg.check(c).evidence) == 0
  }

  /** A hit is the plain evaluation with one marker appended. */
  ghost predicate GoodHit(hit: Diagnostic, plain: Diagnostic) {
    hit == plain.(evidence := hit.evidence) && Unmark(hit.evidence) == plain.evidence && Marks(hit.evidence) == 1
  }

  /** Every hit the run can have is good. */
  ghost predicate Sound(cfg: Config, cache: Cache) {
    forall call :: Issued(cfg, call) && LookupFor(cfg, cache, call).Some? ==>
      GoodHit(LookupFor(cfg, cache, call).value, Evaluate(cfg, call))
  }

  /** Other processes keep the cache sound for this run. */
  ghost predicate Benign(cfg: Config, world: World) {
    forall i, cache :: Sound(cfg, cache) ==> Sound(cfg, world.others(i, cache))
  }

  lemma EvictionSound(cfg: Config, cache: Cache, gone: set<Preimage>)
    requires Sound(cfg, cache)
    ensures Sound(cfg, cache - gone)
  {
    hide Rehydrate, GoodHit, Evaluate, Issued;
    forall call | Issued(cfg, call) && LookupFor(cfg, cache - gone, call).Some?
      ensures GoodHit(LookupFor(cfg, cache - gone, call).value, Evaluate(cfg, call))
    {
      assert LookupFor(cfg, cache, call) == LookupFor(cfg, cache - gone, call);
    }
  }

  /** A store of one run keeps the cache sound for another. */
  lemma StoreSound(from: Config, to: Config, cache: Cache, call: Call, created: string)
    requires Sound(to, cache) && KeysAgree(from, to) && NoMarkers(from) && Issued(from, call)
    ensures Sound(to, StoreFor(from, cache, call, created))
  {
    hide GoodHit, Evaluate, TryLookup, Issued;
    var cache' := StoreFor(from, cache, call, created);
    forall c | Issued(to, c) && LookupFor(to, cache', c).Some?
      ensures GoodHit(LookupFor(to, cache', c).value, Evaluate(to, c))
    {
      if cache' != cache {
        StoredVerdict(from, cache, call, created);
        if to.key(c) == from.key(call) {
          if call.rule.source.line >= 1 {
            FreshHit(from, to, cache, call, created, c);
          } else {
            FreshMiss(from, to, cache, call, created, c);
          }
        } else {
          LookupElsewhere(cache, from.key(call).value, created, Evaluate(from, call), to.key(c).value, c.rule);
          assert LookupFor(to, cache', c) == LookupFor(to, cache, c);
        }
      }
    }
  }

  /** Only verdicts are stored, and an exception is none. */
  lemma StoredVerdict(cfg: Config, cache: Cache, call: Call, created: string)
    ensures StoreFor(cfg, cache, call, created) != cache ==> Cacheable(cfg, call) && IsVerdict(cfg.check(call))
  {
    hide EntryFor;
  }

  lemma LookupElsewhere(cache: Cache, key: Preimage, created: string, d: Diagnostic, other: Preimage, rule: Rule)
    requires other != key
    ensures TryLookup(Store(cache, key, created, d), other, rule) == TryLookup(cache, other, rule)
  {
    hide Rehydrate;
  }

  /** A hit on an entry a run stored. */
  lemma FreshHit(from: Config, to: Config, cache: Cache, call: Call, created: string, c: Call)
    requires NoMarkers(from) && call.rule.source.line >= 1 && IsVerdict(from.check(call))
    requires Cacheable(from, call) && Cacheable(to, c) && to.key(c) == from.key(call)
    ensures var hit := LookupFor(to, StoreFor(from, cache, call, created), c);
            hit.Some? && (GoodHit(hit.value, Evaluate(to, c)) <==> to.check(c) == from.check(call))
  {
    hide TryLookup, EntryFor;
    var d := Evaluate(from, call);
    HitIsMarkedOnce(StoreFor(from, cache, call, created), to.key(c).value, c.rule, d);
  }

  lemma FreshMiss(from: Config, to: Config, cache: Cache, call: Call, created: string, c: Call)
    requires call.rule.source.line < 1 && IsVerdict(from.check(call))
    requires Cacheable(from, call) && Cacheable(to, c) && to.key(c) == from.key(call)
    ensures LookupFor(to, StoreFor(from, cache, call, created), c).None?
  {
    hide TryLookup, EntryFor;
    var stored := StoreFor(from, cache, call, created);
    UnloadableMisses(stored, to.key(c).value, c.rule, created, Evaluate(from, call));
  }

  /** Every store of one run keeps every cache sound for another exactly when the keys agree. */
  lemma StoresSoundIff(from: Config, to: Config)
    requires NoMarkers(from)
    ensures KeysAgree(from, to)
        <==> forall cache, call, created :: Sound(to, cache) && Issued(from, call) ==>
               Sound(to, StoreFor(from, cache, call, created))
  {
    hide Sound, NoMarkers, StoreFor, LookupFor, GoodHit, Evaluate, Issued;
    if KeysAgree(from, to) {
      forall cache, call, created | Sound(to, cache) && Issued(from, call)
        ensures Sound(to, StoreFor(from, cache, call, created))
      {
        StoreSound(from, to, cache, call, created);
      }
    } else {
      var a, b :| SameKey(from, a, to, b) && IsVerdict(from.check(a)) && a.rule.source.line >= 1
                  && to.check(b) != from.check(a);
      EmptySound(to);
      FreshHit(from, to, map[], a, "", b);
      if Sound(to, StoreFor(from, map[], a, "")) {
        SoundAt(to, StoreFor(from, map[], a, ""), b);
        assert false;
      }
    }
  }

  lemma EmptySound(cfg: Config)
    ensures Sound(cfg, map[])
  {}

  lemma SoundAt(cfg: Config, cache: Cache, call: Call)
    requires Sound(cfg, cache) && Issued(cfg, call) && LookupFor(cfg, cache, call).Some?
    ensures GoodHit(LookupFor(cfg, cache, call).value, Evaluate(cfg, call))
  {}

  // ---- transparency, sequentially ----

  /** The same diagnostic but for at most one cache-hit record. */
  ghost predicate SameButMarker(d: Diagnostic, plain: Diagnostic) {
    d == plain.(evidence := d.evidence) && Unmark(d.evidence) == plain.evidence && Marks(d.evidence) <= 1
  }

  lemma AppendScopeUnmarks(d: Diagnostic, plain: Diagnostic, scope: Option<Scope.ScopeResolution>)
    requires SameButMarker(d, plain)
    ensures SameButMarker(AppendScope(d, scope), AppendScope(plain, scope))
  {
    if scope.Some? {
      var e := ScopeEvidence(scope.value);
      assert !IsMarker(e);
      NoMarkersIn([e]);
      UnmarkNothing([e]);
      UnmarkConcat(d.evidence, [e]);
    }
  }

  lemma PlainUnmarked(cfg: Config, call: Call)
    requires NoMarkers(cfg)
    ensures SameButMarker(Evaluate(cfg, call), Evaluate(cfg, call))
  {
    UnmarkNothing(Evaluate(cfg, call).evidence);
    var e := Evaluate(cfg, call).evidence;
    if cfg.check(call).Raises? { assert e[1..] == []; }
  }

  lemma SettledUnmarked(cfg: Config, rule: Rule)
    requires Dispose(cfg, rule).Settled?
    ensures SameButMarker(Dispose(cfg, rule).d, Dispose(cfg, rule).d)
  {
    hide Sizes, TargetKindName, BackendName;
    var e := Dispose(cfg, rule).d.evidence;
    NoMarkersIn(e);
    UnmarkNothing(e);
  }

  lemma {:induction false} NoMarkersIn(e: seq<Evidence>)
    requires forall i :: 0 <= i < |e| ==> !IsMarker(e[i])
    ensures Marks(e) == 0
  {
    hide IsMarker;
    if e == [] {
    } else {
      NoMarkersIn(e[1..]);
    }
  }

  /** A rule handled with a sound cache: the plain entry but for one marker. */
  lemma LookupTransparent(cfg: Config, cache: Cache, rule: Rule)
    requires Sound(cfg, cache) && NoMarkers(cfg)
    ensures match Dispose(cfg, rule)
            case Settled(d) => SameButMarker(d, PlainEntry(cfg, rule))
            case Live(call, scope) =>
              && SameButMarker(AppendScope(Evaluate(cfg, call), scope), PlainEntry(cfg, rule))
              && (LookupFor(cfg, cache, call).Some? ==>
                    SameButMarker(AppendScope(LookupFor(cfg, cache, call).value, scope), PlainEntry(cfg, rule)))
  {
    CallIsIssued(cfg, rule);
    hide Evaluate, LookupFor, AppendScope, Issued;
    match Dispose(cfg, rule) {
      case Settled(d) => SettledUnmarked(cfg, rule);
      case Live(call, scope) =>
        PlainUnmarked(cfg, call);
        AppendScopeUnmarks(Evaluate(cfg, call), Evaluate(cfg, call), scope);
        if LookupFor(cfg, cache, call).Some? {
          AppendScopeUnmarks(LookupFor(cfg, cache, call).value, Evaluate(cfg, call), scope);
        }
    }
  }

  lemma {:induction false} SeqCacheSound(cfg: Config, world: World, cache: Cache, rules: seq<Rule>)
    requires Sound(cfg, cache) && KeyDetermines(cfg) && NoMarkers(cfg) && Benign(cfg, world)
    ensures Sound(cfg, SeqCache(cfg, world, cache, rules))
  {
    hide Sound, KeysAgree, NoMarkers, Evaluate, LookupFor, StoreFor, AppendScope, Dispose, Issued;
    if rules == [] {
    } else {
      var n := |rules| - 1;
      SeqCacheSound(cfg, world, cache, rules[..n]);
      var seen := world.others(n, SeqCache(cfg, world, cache, rules[..n]));
      CallIsIssued(cfg, rules[n]);
      match Dispose(cfg, rules[n]) {
        case Settled(_) =>
        case Live(call, _) => StoreSound(cfg, cfg, seen, call, world.clock(n));
      }
    }
  }

  lemma CallIsIssued(cfg: Config, rule: Rule)
    ensures Dispose(cfg, rule).Live? ==> Issued(cfg, Dispose(cfg, rule).call) && Dispose(cfg, rule).call.rule == rule
  {}

  /** Cache transparency of a whole sequential run: whatever others remove or store on the
      way, the cache stays sound, and every diagnostic is the uncached one but for a marker. */
  lemma SequentialTransparent(cfg: Config, world: World, cache: Cache, rules: seq<Rule>, i: nat)
    requires Sound(cfg, cache) && KeyDetermines(cfg) && NoMarkers(cfg) && Benign(cfg, world) && i < |rules|
    ensures SameButMarker(SeqEntry(cfg, world, cache, rules, i), PlainEntry(cfg, rules[i]))
    ensures Sound(cfg, SeqCache(cfg, world, cache, rules))
  {
    hide Sound, KeyDetermines, NoMarkers, SameButMarker, Evaluate, LookupFor, AppendScope, StoreFor;
    SeqCacheSound(cfg, world, cache, rules);
    SeqCacheSound(cfg, world, cache, rules[..i]);
    LookupTransparent(cfg, world.others(i, SeqCache(cfg, world, cache, rules[..i])), rules[i]);
  }

  /** Without the cache option the sequential report is the plain map. */
  lemma SequentialPlain(cfg: Config, world: World, cache: Cache, rules: seq<Rule>, i: nat)
    requires !cfg.evalCache && i < |rules|
    ensures SeqEntry(cfg, world, cache, rules, i) == PlainEntry(cfg, rules[i])
  {
    hide Evaluate, AppendScope;
  }

  // ---- the bounded executor ----

  /** A slot of the concurrent report: a finished diagnostic, or a submitted check. */
  datatype Slot = Done(d: Diagnostic) | Pending(call: Call, scope: Option<Scope.ScopeResolution>)

  /** The main thread has filled slots for the first |slots| rules; submitted checks wait in
      order, run on a worker, or have a result. Checks are named by their slot. */
  datatype State = State(slots: seq<Slot>, queue: seq<nat>, running: set<nat>, results: map<nat, Judged>)

  /** Main-thread step, a free worker takes the next check, a running check completes. */
  datatype Step = Submit | Start | Finish(i: nat)

  const INITIAL := State([], [], {}, map[])

  /** The slot of a rule, given the cache its lookup sees. */
  function SlotOf(cfg: Config, seen: Cache, rule: Rule): Slot {
    match Dispose(cfg, rule)
    case Settled(d) => Done(d)
    case Live(call, scope) =>
      var cached := LookupFor(cfg, seen, call);
      if cached.Some? then Done(AppendScope(cached.value, scope)) else Pending(call, scope)
  }

  predicate Enabled(rules: seq<Rule>, workers: nat, s: State, step: Step) {
    match step
    case Submit => |s.slots| < |rules|
    case Start => s.queue != [] && |s.running| < workers
    case Finish(i) => i in s.running && i < |s.slots| && s.slots[i].Pending?
  }

  /** `seen(i)` is the cache as the lookup for rule i finds it. */
  function Next(cfg: Config, rules: seq<Rule>, workers: nat, seen: nat -> Cache, s: State, step: Step): State
    requires Enabled(rules, workers, s, step)
  {
    match step
    case Submit =>
      var i := |s.slots|;
      var slot := SlotOf(cfg, seen(i), rules[i]);
      s.(slots := s.slots + [slot], queue := if slot.Pending? then s.queue + [i] else s.queue)
    case Start => s.(queue := s.queue[1..], running := s.running + {s.queue[0]})
    case Finish(i) => s.(running := s.running - {i}, results := s.results[i := cfg.check(s.slots[i].call)])
  }

  /** The schedule leads from s to t, every step enabled. */
  predicate Schedules(cfg: Config, rules: seq<Rule>, workers: nat, seen: nat -> Cache, s: State, steps: seq<Step>,
                      t: State)
    decreases |steps|
  {
    if steps == [] then s == t
    else if !Enabled(rules, workers, s, steps[0]) then false
    else Schedules(cfg, rules, workers, seen, Next(cfg, rules, workers, seen, s, steps[0]), steps[1..], t)
  }

  predicate Quiescent(rules: seq<Rule>, s: State) { |s.slots| == |rules| && s.queue == [] && s.running == {} }

  /** At most `workers` checks run; the checks waiting, running and done are disjoint and are
      exactly the pending slots. */
  ghost predicate Books(workers: nat, s: State) {
    && |s.running| <= workers
    && (forall i, j :: 0 <= i < j < |s.queue| ==> s.queue[i] != s.queue[j])
    && (forall i :: i in s.queue ==> i !in s.running && i !in s.results)
    && (forall i :: i in s.running ==> i !in s.results)
    && (forall i: nat :: (i < |s.slots| && s.slots[i].Pending?) <==> (i in s.queue || i in s.running || i in s.results))
  }

  /** Every slot is its rule's, and every result its check's own. */
  ghost predicate Honest(cfg: Config, rules: seq<Rule>, seen: nat -> Cache, s: State) {
    && |s.slots| <= |rules|
    && (forall i :: 0 <= i < |s.slots| ==> s.slots[i] == SlotOf(cfg, seen(i), rules[i]))
    && (forall i :: i in s.results ==>
          i < |s.slots| && s.slots[i].Pending? && s.results[i] == cfg.check(s.slots[i].call))
  }

  /** What every reachable state keeps. */
  ghost predicate Inv(cfg: Config, rules: seq<Rule>, workers: nat, seen: nat -> Cache, s: State) {
    Books(workers, s) && Honest(cfg, rules, seen, s)
  }

  lemma SubmitKeepsBooks(workers: nat, s: State, slot: Slot)
    requires Books(workers, s)
    ensures var queue := if slot.Pending? then s.queue + [|s.slots|] else s.queue;
            Books(workers, s.(slots := s.slots + [slot], queue := queue))
  {
    var n := |s.slots|;
    assert n !in s.queue && n !in s.running && n !in s.results;
    assert forall i :: i in s.queue + [n] <==> i in s.queue || i == n;
  }

  lemma StartKeepsBooks(workers: nat, s: State)
    requires Books(workers, s) && s.queue != [] && |s.running| < workers
    ensures Books(workers, s.(queue := s.queue[1..], running := s.running + {s.queue[0]}))
  {
    assert s.queue == [s.queue[0]] + s.queue[1..];
    assert s.queue[0] !in s.queue[1..];
  }

  lemma FinishKeepsBooks(workers: nat, s: State, i: nat, result: Judged)
    requires Books(workers, s) && i in s.running
    ensures Books(workers, s.(running := s.running - {i}, results := s.results[i := result]))
  {}

  lemma StepKeepsHonest(cfg: Config, rules: seq<Rule>, workers: nat, seen: nat -> Cache, s: State, step: Step)
    requires Honest(cfg, rules, seen, s) && Enabled(rules, workers, s, step)
    ensures Honest(cfg, rules, seen, Next(cfg, rules, workers, seen, s, step))
  {
    hide SlotOf;
  }

  lemma StepKeepsInv(cfg: Config, rules: seq<Rule>, workers: nat, seen: nat -> Cache, s: State, step: Step)
    requires Inv(cfg, rules, workers, seen, s) && Enabled(rules, workers, s, step)
    ensures Inv(cfg, rules, workers, seen, Next(cfg, rules, workers, seen, s, step))
  {
    hide SlotOf, Books, Honest;
    StepKeepsHonest(cfg, rules, workers, seen, s, step);
    match step {
      case Submit => SubmitKeepsBooks(workers, s, SlotOf(cfg, seen(|s.slots|), rules[|s.slots|]));
      case Start => StartKeepsBooks(workers, s);
      case Finish(i) => FinishKeepsBooks(workers, s, i, cfg.check(s.slots[i].call));
    }
  }

  /** Safety over whole runs: every schedule of every length keeps the invariant. */
  lemma {:induction false} SchedulesKeepInv(cfg: Config, rules: seq<Rule>, workers: nat, seen: nat -> Cache,
                                            s: State, steps: seq<Step>, t: State)
    requires Inv(cfg, rules, workers, seen, s) && Schedules(cfg, rules, workers, seen, s, steps, t)
    ensures Inv(cfg, rules, workers, seen, t)
    decreases |steps|
  {
    hide Inv, Next;
    if steps == [] {
    } else {
      StepKeepsInv(cfg, rules, workers, seen, s, steps[0]);
      SchedulesKeepInv(cfg, rules, workers, seen, Next(cfg, rules, workers, seen, s, steps[0]), steps[1..], t);
    }
  }

  /** No check is ever started for a rule that a precheck, its scope, a registry miss or the
      cache settled. */
  lemma OnlyLiveRulesStart(cfg: Config, rules: seq<Rule>, workers: nat, seen: nat -> Cache, steps: seq<Step>,
                           t: State, i: nat)
    requires Schedules(cfg, rules, workers, seen, INITIAL, steps, t)
    requires i in t.queue || i in t.running || i in t.results
    ensures i < |t.slots| <= |rules| && |t.running| <= workers && t.slots[i].Pending?
    ensures StartsAs(cfg, rules[i], t.slots[i].call) && LookupFor(cfg, seen(i), t.slots[i].call).None?
  {
    hide StartsAs, LookupFor, SlotOf;
    SchedulesKeepInv(cfg, rules, workers, seen, INITIAL, steps, t);
    SlotMeaning(cfg, seen(i), rules[i]);
  }

  /** A check is due for the rule: it is to be started, and the cache has no answer for it. */
  ghost predicate Due(cfg: Config, seen: Cache, rule: Rule, call: Call) {
    StartsAs(cfg, rule, call) && LookupFor(cfg, seen, call).None?
  }

  lemma SlotMeaning(cfg: Config, seen: Cache, rule: Rule)
    ensures var slot := SlotOf(cfg, seen, rule);
            && (slot.Pending? <==> exists call :: Due(cfg, seen, rule, call))
            && (slot.Pending? ==> Due(cfg, seen, rule, slot.call) && slot.scope == cfg.plan(rule))
            && (slot.Done? ==> EntryMeans(cfg, seen, rule, slot.d))
  {
    DisposeIff(cfg, rule);
    match Dispose(cfg, rule) {
      case Settled(d) => SettledMeaning(cfg, rule);
      case Live(call, scope) =>
        assert StartsAs(cfg, rule, call);
        if LookupFor(cfg, seen, call).Some? {
          AppendScopeScopes(LookupFor(cfg, seen, call).value, scope);
        } else {
          assert Due(cfg, seen, rule, call);
        }
    }
    hide Dispose, StartsAs, Starts, SettledAs, JudgedAs, LookupFor, AppendScope, ScopedOf;
  }

  /** When all is done, exactly the checks that were due have run, each once and for its own rule. */
  lemma ChecksRun(cfg: Config, rules: seq<Rule>, workers: nat, seen: nat -> Cache, steps: seq<Step>, t: State, i: nat)
    requires Schedules(cfg, rules, workers, seen, INITIAL, steps, t) && Quiescent(rules, t) && i < |rules|
    ensures i in t.results <==> exists call :: Due(cfg, seen(i), rules[i], call)
    ensures forall call :: Due(cfg, seen(i), rules[i], call) ==> t.results[i] == cfg.check(call)
  {
    hide SlotOf, Due;
    SchedulesKeepInv(cfg, rules, workers, seen, INITIAL, steps, t);
    SlotMeaning(cfg, seen(i), rules[i]);
    assert t.slots[i] == SlotOf(cfg, seen(i), rules[i]);
    forall call | Due(cfg, seen(i), rules[i], call) ensures call == t.slots[i].call {
      OneDue(cfg, seen(i), rules[i], call, t.slots[i].call);
    }
  }

  lemma OneDue(cfg: Config, seen: Cache, rule: Rule, a: Call, b: Call)
    requires Due(cfg, seen, rule, a) && Due(cfg, seen, rule, b)
    ensures a == b
  {
    hide LookupFor;
    RoutedIff(cfg, rule, a.backend);
    RoutedIff(cfg, rule, b.backend);
  }

  /** The collecting loop over the slots, before scope evidence of pending ones is known to
      match: entry i of the concurrent report. */
  function ConcEntry(s: State, i: nat): Diagnostic
    requires i < |s.slots| && (s.slots[i].Pending? ==> i in s.results)
  {
    match s.slots[i]
    case Done(d) => d
    case Pending(call, scope) => AppendScope(Conclude(call, s.results[i]), scope)
  }

  /** Steps still possible. */
  function Remaining(rules: seq<Rule>, s: State): int { 3 * (|rules| - |s.slots|) + 2 * |s.queue| + |s.running| }

  /** Every step makes progress, and short of the end some step is possible: with at least
      one worker every run ends after at most three steps per rule. */
  lemma Progress(cfg: Config, rules: seq<Rule>, workers: nat, seen: nat -> Cache, s: State, step: Step)
    requires Inv(cfg, rules, workers, seen, s)
    ensures Enabled(rules, workers, s, step) ==>
              0 <= Remaining(rules, Next(cfg, rules, workers, seen, s, step)) < Remaining(rules, s)
    ensures Remaining(rules, INITIAL) == 3 * |rules|
    ensures workers >= 1 && !Quiescent(rules, s) ==> exists e :: Enabled(rules, workers, s, e)
  {
    hide SlotOf;
    if Enabled(rules, workers, s, step) {
      StepKeepsInv(cfg, rules, workers, seen, s, step);
      if step.Start? { assert s.queue[0] in s.queue; }
    }
    if workers >= 1 && !Quiescent(rules, s) {
      if |s.slots| < |rules| {
        assert Enabled(rules, workers, s, Submit);
      } else if s.running != {} {
        var i :| i in s.running;
        assert Enabled(rules, workers, s, Finish(i));
      } else {
        assert Enabled(rules, workers, s, Start);
      }
    }
  }

  /** Entry i of the concurrent report, by rule i and the cache its lookup sees. */
  function ReportEntry(cfg: Config, seen: nat -> Cache, rules: seq<Rule>, i: nat): Diagnostic
    requires i < |rules|
  {
    match SlotOf(cfg, seen(i), rules[i])
    case Done(d) => d
    case Pending(call, scope) => AppendScope(Evaluate(cfg, call), scope)
  }

  lemma ReportEntryMeaning(cfg: Config, seen: nat -> Cache, rules: seq<Rule>, i: nat)
    requires i < |rules|
    ensures EntryMeans(cfg, seen(i), rules[i], ReportEntry(cfg, seen, rules, i))
  {
    SlotMeaning(cfg, seen(i), rules[i]);
    var slot := SlotOf(cfg, seen(i), rules[i]);
    if slot.Pending? {
      JudgedMeaning(cfg, slot.call, slot.scope);
      forall call | StartsAs(cfg, rules[i], call) ensures call == slot.call {
        OneStart(cfg, rules[i], call, slot.call);
      }
      StartsWith(cfg, rules[i], slot.call);
    }
    hide SlotOf, StartsAs, Starts, LookupFor, JudgedAs, SettledAs, AppendScope, Evaluate, ScopedOf;
  }

  lemma OneStart(cfg: Config, rule: Rule, a: Call, b: Call)
    requires StartsAs(cfg, rule, a) && StartsAs(cfg, rule, b)
    ensures a == b
  {
    RoutedIff(cfg, rule, a.backend);
    RoutedIff(cfg, rule, b.backend);
  }

  lemma StartsWith(cfg: Config, rule: Rule, call: Call)
    requires StartsAs(cfg, rule, call)
    ensures Starts(cfg, rule) && call.rule == rule
  {}

  /** For every number of workers and every completed schedule, the report is decided by the
      rules and the caches their lookups saw. */
  lemma ScheduleIndependent(cfg: Config, rules: seq<Rule>, workers: nat, seen: nat -> Cache, steps: seq<Step>,
                            t: State, i: nat)
    requires Schedules(cfg, rules, workers, seen, INITIAL, steps, t) && Quiescent(rules, t) && i < |rules|
    ensures i < |t.slots| && (t.slots[i].Pending? ==> i in t.results)
    ensures ConcEntry(t, i) == ReportEntry(cfg, seen, rules, i)
    ensures !cfg.evalCache ==> ReportEntry(cfg, seen, rules, i) == PlainEntry(cfg, rules[i])
  {
    assert !cfg.evalCache ==> ReportEntry(cfg, seen, rules, i) == PlainEntry(cfg, rules[i]) by {
      hide Evaluate, AppendScope, Schedules;
    }
    hide SlotOf, PlainEntry;
    SchedulesKeepInv(cfg, rules, workers, seen, INITIAL, steps, t);
  }

  /** The concurrent report equals the sequential one, element by element, for every schedule
      when the cache is off. */
  lemma ConcurrentIsSequential(cfg: Config, rules: seq<Rule>, workers: nat, seen: nat -> Cache, steps: seq<Step>,
                               t: State, world: World, cache: Cache, i: nat)
    requires !cfg.evalCache
    requires Schedules(cfg, rules, workers, seen, INITIAL, steps, t) && Quiescent(rules, t) && i < |rules|
    ensures i < |t.slots| && (t.slots[i].Pending? ==> i in t.results)
    ensures ConcEntry(t, i) == SeqEntry(cfg, world, cache, rules, i)
  {
    hide Evaluate, AppendScope, Dispose;
    ScheduleIndependent(cfg, rules, workers, seen, steps, t, i);
    SequentialPlain(cfg, world, cache, rules, i);
  }

  /** With sound caches, whatever lookups see and in whatever order checks complete, the
      concurrent report is the plain one but for markers. */
  lemma ConcurrentTransparent(cfg: Config, rules: seq<Rule>, workers: nat, seen: nat -> Cache, steps: seq<Step>,
                              t: State, i: nat)
    requires Schedules(cfg, rules, workers, seen, INITIAL, steps, t) && Quiescent(rules, t) && i < |rules|
    requires NoMarkers(cfg) && forall k :: Sound(cfg, seen(k))
    ensures i < |t.slots| && (t.slots[i].Pending? ==> i in t.results)
    ensures SameButMarker(ConcEntry(t, i), PlainEntry(cfg, rules[i]))
  {
    hide Sound, NoMarkers, SameButMarker, Evaluate, LookupFor, AppendScope, Dispose;
    ScheduleIndependent(cfg, rules, workers, seen, steps, t, i);
    LookupTransparent(cfg, seen(i), rules[i]);
  }

  /** The stores of the collecting loop, in slot order. */
  function ConcStores(cfg: Config, world: World, cache: Cache, slots: seq<Slot>): Cache {
    if slots == [] then cache
    else
      var n := |slots| - 1;
      var before := ConcStores(cfg, world, cache, slots[..n]);
      match slots[n]
      case Done(_) => before
      case Pending(call, _) => StoreFor(cfg, world.others(n, before), call, world.clock(n))
  }

  /** Every submitted check has its own result. */
  ghost predicate Complete(cfg: Config, s: State) {
    forall i :: 0 <= i < |s.slots| && s.slots[i].Pending? ==>
      i in s.results && Conclude(s.slots[i].call, s.results[i]) == Evaluate(cfg, s.slots[i].call)
  }

  /** The collecting loop of `_validate_concurrent`. */
  method Collect(cfg: Config, world: World, cache0: Cache, s: State) returns (report: seq<Diagnostic>, cache: Cache)
    requires Complete(cfg, s)
    ensures |report| == |s.slots|
    ensures forall i :: 0 <= i < |s.slots| ==> (s.slots[i].Pending? ==> i in s.results) && report[i] == ConcEntry(s, i)
    ensures cache == ConcStores(cfg, world, cache0, s.slots)
  {
    hide StoreFor, Store, Cacheable, AppendScope, Conclude, Evaluate, ConcStores;
    report, cache := [], cache0;
    ConcStoresEmpty(cfg, world, cache0);
    for i := 0 to |s.slots|
      invariant |report| == i && cache == ConcStores(cfg, world, cache0, s.slots[..i])
      invariant forall k :: 0 <= k < i ==> report[k] == ConcEntry(s, k)
    {
      ConcStoresStep(cfg, world, cache0, s.slots, i);
      match s.slots[i] {
        case Done(d) => report := report + [d];
        case Pending(call, scope) =>
          var d := Conclude(call, s.results[i]);
          cache := world.others(i, cache);
          StoreForIsStore(cfg, cache, call, world.clock(i));
          if Cacheable(cfg, call) {
            cache := Store(cache, cfg.key(call).value, world.clock(i), d);
          }
          report := report + [AppendScope(d, scope)];
      }
    }
    assert s.slots[..|s.slots|] == s.slots;
  }

  lemma ConcStoresEmpty(cfg: Config, world: World, cache: Cache)
    ensures ConcStores(cfg, world, cache, []) == cache
  {}

  lemma ConcStoresStep(cfg: Config, world: World, cache: Cache, slots: seq<Slot>, i: nat)
    requires i < |slots|
    ensures var before := ConcStores(cfg, world, cache, slots[..i]);
            ConcStores(cfg, world, cache, slots[..i + 1])
              == match slots[i]
                 case Done(_) => before
                 case Pending(call, _) => StoreFor(cfg, world.others(i, before), call, world.clock(i))
  {
    hide StoreFor;
    assert slots[..i + 1][..i] == slots[..i];
  }

  lemma StoreForIsStore(cfg: Config, cache: Cache, call: Call, created: string)
    ensures Cacheable(cfg, call) ==> cfg.key(call).Some?
    ensures StoreFor(cfg, cache, call, created)
         == if Cacheable(cfg, call) then Store(cache, cfg.key(call).value, created, Evaluate(cfg, call)) else cache
  {}

  /** At quiescence every submitted check has its own result. */
  lemma ResultsComplete(cfg: Config, rules: seq<Rule>, workers: nat, seen: nat -> Cache, s: State)
    requires Inv(cfg, rules, workers, seen, s) && Quiescent(rules, s)
    ensures |s.slots| == |rules| && Complete(cfg, s)
  {
    hide SlotOf, Conclude;
  }

  /** What collecting rule i leaves in the cache: the verdict of the check that was due, stored into
      the cache as other processes have left it, and otherwise no change. */
  ghost predicate CollectMoves(cfg: Config, world: World, seen: Cache, rule: Rule, i: nat, before: Cache,
                               after: Cache) {
    && ((forall call :: !Due(cfg, seen, rule, call)) ==> after == before)
    && forall call :: Due(cfg, seen, rule, call) ==> Stored(cfg, world.others(i, before), call, world.clock(i), after)
  }

  /** A whole concurrent run: every entry is what its rule and the cache its lookup saw say, and
      collecting each leaves in the cache what it should. */
  ghost predicate ConcTraced(cfg: Config, world: World, rules: seq<Rule>, seen: nat -> Cache,
                             report: seq<Diagnostic>, caches: seq<Cache>) {
    && |report| == |rules| && |caches| == |rules| + 1
    && (forall i :: 0 <= i < |rules| ==> EntryMeans(cfg, seen(i), rules[i], report[i]))
    && (forall i :: 0 <= i < |rules| ==>
          CollectMoves(cfg, world, seen(i), rules[i], i, caches[i], caches[i + 1]))
  }

  ghost function ConcCaches(cfg: Config, world: World, cache: Cache, slots: seq<Slot>): (r: seq<Cache>)
    ensures |r| == |slots| + 1
    ensures forall k :: 0 <= k <= |slots| ==> r[k] == ConcStores(cfg, world, cache, slots[..k])
  {
    seq(|slots| + 1, k requires 0 <= k <= |slots| => ConcStores(cfg, world, cache, slots[..k]))
  }

  lemma CollectMeaning(cfg: Config, world: World, cache0: Cache, rules: seq<Rule>, seen: nat -> Cache, slots: seq<Slot>,
                       i: nat)
    requires |slots| == |rules| && i < |rules| && slots[i] == SlotOf(cfg, seen(i), rules[i])
    ensures CollectMoves(cfg, world, seen(i), rules[i], i, ConcStores(cfg, world, cache0, slots[..i]),
                         ConcStores(cfg, world, cache0, slots[..i + 1]))
  {
    ConcStoresStep(cfg, world, cache0, slots, i);
    SlotMeaning(cfg, seen(i), rules[i]);
    if slots[i].Pending? {
      var before := ConcStores(cfg, world, cache0, slots[..i]);
      StoreForMeaning(cfg, world.others(i, before), slots[i].call, world.clock(i));
      forall call | Due(cfg, seen(i), rules[i], call) ensures call == slots[i].call {
        OneDue(cfg, seen(i), rules[i], call, slots[i].call);
      }
    }
    hide SlotOf, Due, EntryMeans, ConcStores, StoreFor, Stored;
  }

  lemma ConcurrentMeaning(cfg: Config, world: World, cache0: Cache, rules: seq<Rule>, seen: nat -> Cache, t: State,
                          report: seq<Diagnostic>)
    requires Honest(cfg, rules, seen, t) && |t.slots| == |rules| == |report|
    requires forall i :: 0 <= i < |rules| ==> report[i] == ReportEntry(cfg, seen, rules, i)
    ensures ConcTraced(cfg, world, rules, seen, report, ConcCaches(cfg, world, cache0, t.slots))
  {
    hide SlotOf, ReportEntry, EntryMeans, CollectMoves, ConcCaches, ConcStores;
    var caches := ConcCaches(cfg, world, cache0, t.slots);
    forall i | 0 <= i < |rules|
      ensures EntryMeans(cfg, seen(i), rules[i], report[i])
      ensures CollectMoves(cfg, world, seen(i), rules[i], i, caches[i], caches[i + 1])
    {
      ReportEntryMeaning(cfg, seen, rules, i);
      CollectMeaning(cfg, world, cache0, rules, seen, t.slots, i);
    }
  }

  /** `_validate_concurrent` from the moment its executor is done, for any schedule that led
      there: entry i is decided by rule i and the cache its lookup saw. */
  method ValidateConcurrent(cfg: Config, world: World, cache0: Cache, rules: seq<Rule>, workers: nat,
                            seen: nat -> Cache, steps: seq<Step>, t: State)
    returns (report: seq<Diagnostic>, cache: Cache)
    requires Schedules(cfg, rules, workers, seen, INITIAL, steps, t) && Quiescent(rules, t)
    ensures |report| == |rules| == |t.slots| && cache == ConcStores(cfg, world, cache0, t.slots)
    ensures forall i :: 0 <= i < |rules| ==> report[i] == ReportEntry(cfg, seen, rules, i)
    ensures !cfg.evalCache ==> forall i :: 0 <= i < |rules| ==> report[i] == PlainEntry(cfg, rules[i])
    ensures exists caches :: ConcTraced(cfg, world, rules, seen, report, caches)
                             && caches[0] == cache0 && caches[|rules|] == cache
  {
    InitialInv(cfg, rules, workers, seen);
    hide *;
    SchedulesKeepInv(cfg, rules, workers, seen, INITIAL, steps, t);
    ResultsComplete(cfg, rules, workers, seen, t);
    report, cache := Collect(cfg, world, cache0, t);
    forall i: nat | i < |rules|
      ensures report[i] == ReportEntry(cfg, seen, rules, i)
      ensures !cfg.evalCache ==> ReportEntry(cfg, seen, rules, i) == PlainEntry(cfg, rules[i])
    {
      ScheduleIndependent(cfg, rules, workers, seen, steps, t, i);
    }
    ConcurrentTrace(cfg, world, cache0, rules, workers, seen, t, report);
  }

  lemma ConcurrentTrace(cfg: Config, world: World, cache0: Cache, rules: seq<Rule>, workers: nat, seen: nat -> Cache,
                        t: State, report: seq<Diagnostic>)
    requires Inv(cfg, rules, workers, seen, t) && |t.slots| == |rules| == |report|
    requires forall i :: 0 <= i < |rules| ==> report[i] == ReportEntry(cfg, seen, rules, i)
    ensures exists caches :: ConcTraced(cfg, world, rules, seen, report, caches)
                             && caches[0] == cache0 && caches[|rules|] == ConcStores(cfg, world, cache0, t.slots)
  {
    ConcurrentMeaning(cfg, world, cache0, rules, seen, t, report);
    ConcStoresEmpty(cfg, world, cache0);
    var caches := ConcCaches(cfg, world, cache0, t.slots);
    assert t.slots[..0] == [] && t.slots[..|rules|] == t.slots;
    hide ConcTraced, ConcStores, ConcCaches;
    assert ConcTraced(cfg, world, rules, seen, report, caches);
  }

  lemma InitialInv(cfg: Config, rules: seq<Rule>, workers: nat, seen: nat -> Cache)
    ensures Inv(cfg, rules, workers, seen, INITIAL)
  {}

  /** Pending slots are calls the run makes. */
  ghost predicate SlotsIssued(cfg: Config, slots: seq<Slot>) {
    forall i :: 0 <= i < |slots| && slots[i].Pending? ==> Issued(cfg, slots[i].call)
  }

  lemma HonestIsIssued(cfg: Config, rules: seq<Rule>, seen: nat -> Cache, s: State)
    requires Honest(cfg, rules, seen, s)
    ensures SlotsIssued(cfg, s.slots)
  {
    hide LookupFor, Dispose;
    forall i | 0 <= i < |s.slots| && s.slots[i].Pending? ensures Issued(cfg, s.slots[i].call) {
      assert s.slots[i] == SlotOf(cfg, seen(i), rules[i]);
      CallIsIssued(cfg, rules[i]);
    }
  }

  /** The collecting loop's stores keep the cache sound. */
  lemma {:induction false} ConcStoresSound(cfg: Config, world: World, cache: Cache, slots: seq<Slot>)
    requires Sound(cfg, cache) && KeyDetermines(cfg) && NoMarkers(cfg) && Benign(cfg, world) && SlotsIssued(cfg, slots)
    ensures Sound(cfg, ConcStores(cfg, world, cache, slots))
  {
    hide Sound, KeysAgree, NoMarkers, StoreFor, Issued;
    if slots == [] {
    } else {
      var n := |slots| - 1;
      ConcStoresSound(cfg, world, cache, slots[..n]);
      if slots[n].Pending? {
        var found := world.others(n, ConcStores(cfg, world, cache, slots[..n]));
        StoreSound(cfg, cfg, found, slots[n].call, world.clock(n));
      }
    }
  }

  /** Cache transparency of a whole concurrent run: its lookups see any sound caches, its
      stores come when the checks are collected; the cache stays sound and, markers aside,
      every entry is the one the sequential loop reports from any sound cache of its own. */
  lemma BothModesAgree(cfg: Config, rules: seq<Rule>, workers: nat, seen: nat -> Cache, steps: seq<Step>, t: State,
                       cache: Cache, later: World, cache2: Cache, other: World, i: nat)
    requires Sound(cfg, cache) && Sound(cfg, cache2) && KeyDetermines(cfg) && NoMarkers(cfg)
    requires Benign(cfg, later) && Benign(cfg, other) && forall k :: Sound(cfg, seen(k))
    requires Schedules(cfg, rules, workers, seen, INITIAL, steps, t) && Quiescent(rules, t) && i < |rules|
    ensures i < |t.slots| && (t.slots[i].Pending? ==> i in t.results)
    ensures Sound(cfg, ConcStores(cfg, later, cache, t.slots))
    ensures var a, b := ConcEntry(t, i), SeqEntry(cfg, other, cache2, rules, i);
            && a == b.(evidence := a.evidence) && Unmark(a.evidence) == Unmark(b.evidence)
            && Marks(a.evidence) <= 1 && Marks(b.evidence) <= 1
  {
    InitialInv(cfg, rules, workers, seen);
    hide Sound, KeysAgree, NoMarkers, Benign, Dispose, LookupFor, PlainEntry, ConcEntry, SeqEntry, StoreFor, Honest;
    ConcurrentTransparent(cfg, rules, workers, seen, steps, t, i);
    SequentialTransparent(cfg, other, cache2, rules, i);
    SchedulesKeepInv(cfg, rules, workers, seen, INITIAL, steps, t);
    HonestIsIssued(cfg, rules, seen, t);
    ConcStoresSound(cfg, later, cache, t.slots);
  }
}
