/** Runs of `validate` whose keys and judgments are the real ones: the key determines the
    judgment, so the evaluation cache is invisible, within one run without any condition and
    across runs and processes when their calls are clear and show their auditors alike. */
module CachedRuns {
  import opened Wrappers
  import opened Json
  import opened Models
  import opened CacheKey
  import opened EvalCache
  import opened Dispatch
  import C = CacheStore
  import K = Keying
  import S = Strategies
  import T = Tasks
  import Scope

  /** What all runs share: the provider, which reads its prompts and answers repetition k as it
      likes, the diagnostic written from a task and its answers, what a call without a verdict
      ends in, and the other backends. */
  datatype Outside = Outside(oracle: nat -> K.Oracle,
                             report: (K.Task, nat -> S.Provider) -> Judged,
                             declined: Call -> Judged, others: Call -> Judged)

  /** What is no verdict stays none, and nothing emits a cache-hit record. */
  ghost predicate WellBehaved(o: Outside) {
    && (forall c :: !IsVerdict(o.declined(c)) && Unmarked(o.declined(c)))
    && (forall c :: Unmarked(o.others(c)))
    && (forall t, answers :: Unmarked(o.report(t, answers)))
  }

  predicate Unmarked(j: Judged) { j.Gives? ==> Marks(j.evidence) == 0 }

  /** One run: its machine, its target, its scopes and its options. */
  datatype Process = Process(machine: K.Machine, target: K.RunTarget, snap: Scope.Snapshot, pool: Option<seq<string>>,
                             plan: Rule -> Option<Scope.ScopeResolution>, backend: string, registered: set<string>,
                             evalCache: bool)

  /** Every rule is planned as the scope code plans it. */
  ghost predicate Planned(r: Process) { forall rule :: Scope.Plans(r.snap, r.pool, rule, r.plan(rule)) }

  function TargetOf(r: Process, call: Call): K.RunTarget {
    if call.spec.None? then r.target else K.Files(call.spec.value.paths, call.spec.value.isMulti)
  }

  /** An evaluation: a verdict is written from the task alone, anything else may depend on the
      whole call. */
  function Check(o: Outside, r: Process, call: Call): Judged {
    if call.backend != LLM then o.others(call)
    else
      match K.TaskOf(r.machine, call.rule, TargetOf(r, call))
      case None => o.declined(call)
      case Some(t) =>
        var j := Reported(o, t);
        if IsVerdict(j) then j else o.declined(call)
  }

  function Answers(o: Outside, t: K.Task): nat -> S.Provider { (k: nat) => K.ProviderOf(o.oracle(k), t) }

  function Reported(o: Outside, t: K.Task): Judged { o.report(t, Answers(o, t)) }

  function ConfigOf(o: Outside, r: Process): Config {
    Config(r.backend, r.machine.settings.artifactKind, r.registered, r.plan,
           (call: Call) => Check(o, r, call),
           (call: Call) => K.KeyOf(r.machine, call.rule, TargetOf(r, call)), r.evalCache)
  }

  /** What a call of the judging backend is evaluated to: the diagnostic written from its task and
      what the provider answers to that task's prompts in each repetition, if it is a verdict. */
  lemma CheckMeaning(o: Outside, r: Process, call: Call, t: K.Task)
    requires call.backend == "llm-rubric"
    requires exists specs :: T.JudgedAs(r.machine, call.rule, TargetOf(r, call), specs, t)
    ensures exists answers: nat -> S.Provider ::
              && (forall k :: answers(k) == K.ProviderOf(o.oracle(k), t))
              && (IsVerdict(o.report(t, answers)) ==> ConfigOf(o, r).check(call) == o.report(t, answers))
              && (!IsVerdict(o.report(t, answers)) ==> ConfigOf(o, r).check(call) == o.declined(call))
  {
    T.TaskIff(r.machine, call.rule, TargetOf(r, call), t);
    hide K.TaskOf, T.JudgedAs, K.ProviderOf;
    var answers := Answers(o, t);
    assert ConfigOf(o, r).check(call) == Check(o, r, call);
    assert forall k :: answers(k) == K.ProviderOf(o.oracle(k), t);
  }

  // ---- within one run ----

  /** The plan reads nothing of a rule but its scope parameter. */
  lemma PlanByScope(r: Process, a: Rule, b: Rule)
    requires Planned(r) && Get(a.params, "target_scope") == Get(b.params, "target_scope")
    ensures r.plan(a) == r.plan(b)
  {
    hide Scope.Resolves;
    assert Scope.Plans(r.snap, r.pool, a, r.plan(a)) && Scope.Plans(r.snap, r.pool, b, r.plan(b));
    assert Scope.Plans(r.snap, r.pool, a, r.plan(b));
    Scope.PlanUnique(r.snap, r.pool, a, r.plan(a), r.plan(b));
  }

  lemma SpecFromPlan(cfg: Config, call: Call)
    requires Issued(cfg, call)
    ensures call.spec == if cfg.plan(call.rule).None? then None else cfg.plan(call.rule).value.spec
  {}

  lemma SameKeySameScope(m: K.Machine, rule: Rule, t: K.RunTarget, m': K.Machine, rule': Rule, t': K.RunTarget)
    requires K.KeyOf(m, rule, t).Some? && K.KeyOf(m, rule, t) == K.KeyOf(m', rule', t')
    ensures Get(rule.params, "target_scope") == Get(rule'.params, "target_scope")
  {
    var es := K.TargetEntries(m, rule, t, K.DeclaredSpecs(rule).value);
    var es' := K.TargetEntries(m', rule', t', K.DeclaredSpecs(rule').value);
    hide BuildPreimage, K.TargetEntries, K.DeclaredSpecs;
    K.SameWording(m, rule, es, m', rule', es');
  }

  /** Within one run the key determines the judgment, for every machine, target, option, scope
      and provider. */
  lemma OneRunKeyDetermines(o: Outside, r: Process)
    requires WellBehaved(o) && Planned(r)
    ensures KeyDetermines(ConfigOf(o, r))
  {
    var cfg := ConfigOf(o, r);
    hide K.KeyOf, K.TaskOf, Issued, Scope.Plans;
    forall a, b | SameKey(cfg, a, cfg, b) && IsVerdict(cfg.check(a)) ensures cfg.check(b) == cfg.check(a) {
      SameKeySameScope(r.machine, a.rule, TargetOf(r, a), r.machine, b.rule, TargetOf(r, b));
      PlanByScope(r, a.rule, b.rule);
      SpecFromPlan(cfg, a);
      SpecFromPlan(cfg, b);
      K.OneRunEqualTasks(r.machine, a.rule, b.rule, TargetOf(r, a));
    }
  }

  lemma NothingMarked(o: Outside, r: Process)
    requires WellBehaved(o)
    ensures NoMarkers(ConfigOf(o, r))
  {
    hide K.TaskOf;
    var cfg := ConfigOf(o, r);
    forall c | cfg.check(c).Gives? ensures Marks(cfg.check(c).evidence) == 0 {
      assert Unmarked(o.others(c)) && Unmarked(o.declined(c));
      var t := K.TaskOf(r.machine, c.rule, TargetOf(r, c));
      if t.Some? { assert Unmarked(o.report(t.value, Answers(o, t.value))); }
    }
  }

  // ---- across runs ----

  /** Every call the run makes of the judging backend is clear. */
  ghost predicate AllClear(r: Process, cfg: Config) {
    forall call :: Issued(cfg, call) && call.backend == LLM ==> K.Clear(r.machine, call.rule, TargetOf(r, call))
  }

  /** Wherever calls of two runs share a key and an auditor is shown the run's target, the two
      targets read alike. */
  ghost predicate ShownAlike(o: Outside, r: Process, r': Process) {
    forall a, b :: SameKey(ConfigOf(o, r), a, ConfigOf(o, r'), b) ==>
      K.SameSlot(r.machine, a.rule, TargetOf(r, a), r'.machine, TargetOf(r', b))
  }

  /** Between clear runs that show their auditors alike, on whatever machines, at whatever times,
      with whatever options, what one stores is right for the other. */
  lemma ClearRunsAgree(o: Outside, r: Process, r': Process)
    requires WellBehaved(o) && AllClear(r, ConfigOf(o, r)) && AllClear(r', ConfigOf(o, r')) && ShownAlike(o, r, r')
    ensures KeysAgree(ConfigOf(o, r), ConfigOf(o, r'))
  {
    var from, to := ConfigOf(o, r), ConfigOf(o, r');
    hide K.KeyOf, K.TaskOf, K.Clear, K.SameSlot, Issued;
    forall a, b | SameKey(from, a, to, b) && IsVerdict(from.check(a)) ensures to.check(b) == from.check(a) {
      assert K.SameSlot(r.machine, a.rule, TargetOf(r, a), r'.machine, TargetOf(r', b));
      K.EqualKeysEqualTasks(r.machine, a.rule, TargetOf(r, a), r'.machine, b.rule, TargetOf(r', b));
    }
  }

  /** What happened to a cache: a run stored the judgment of one of its calls, or entries went. */
  datatype Event = Stored(r: Process, call: Call, created: string) | Removed(keys: set<Preimage>)

  /** The store is a call's judgment in a clear run that showed its auditors what r shows them. */
  ghost predicate Genuine(o: Outside, r: Process, e: Event) {
    e.Stored? ==> AllClear(e.r, ConfigOf(o, e.r)) && Issued(ConfigOf(o, e.r), e.call) && ShownAlike(o, e.r, r)
  }

  function After(o: Outside, cache: Cache, events: seq<Event>): Cache {
    if events == [] then cache
    else
      var before := After(o, cache, events[..|events| - 1]);
      match events[|events| - 1]
      case Stored(r, call, created) => StoreFor(ConfigOf(o, r), before, call, created)
      case Removed(keys) => before - keys
  }

  /** Any history of such runs leaves a cache that is sound for a clear run. */
  lemma {:induction false} HistorySound(o: Outside, r: Process, cache: Cache, events: seq<Event>)
    requires WellBehaved(o) && AllClear(r, ConfigOf(o, r)) && Sound(ConfigOf(o, r), cache)
    requires forall i :: 0 <= i < |events| ==> Genuine(o, r, events[i])
    ensures Sound(ConfigOf(o, r), After(o, cache, events))
  {
    hide Sound, AllClear, WellBehaved, StoreFor, ConfigOf, Issued;
    if events == [] {
    } else {
      var n := |events| - 1;
      HistorySound(o, r, cache, events[..n]);
      var before := After(o, cache, events[..n]);
      assert Genuine(o, r, events[n]);
      match events[n] {
        case Stored(r', call, created) =>
          ClearRunsAgree(o, r', r);
          NothingMarked(o, r');
          StoreSound(ConfigOf(o, r'), ConfigOf(o, r), before, call, created);
        case Removed(keys) => EvictionSound(ConfigOf(o, r), before, keys);
      }
    }
  }

  /** Other processes around a run: between its rules, any clear runs store and entries vanish. */
  function Among(o: Outside, between: nat -> seq<Event>, clock: nat -> string): World {
    World((i: nat, cache: Cache) => After(o, cache, between(i)), clock)
  }

  /** The cache is invisible, sequentially and concurrently: from what any history of clear runs
      that showed their auditors alike left, with such runs of other processes storing and evicting
      in between, every entry of either report is the one without a cache, but for at most one
      marker. */
  lemma CacheIsInvisible(o: Outside, r: Process, history: seq<Event>, between: nat -> seq<Event>, clock: nat -> string,
                         rules: seq<Rule>, workers: nat, lookups: nat -> seq<Event>, steps: seq<Step>, t: State, i: nat)
    requires WellBehaved(o) && Planned(r) && AllClear(r, ConfigOf(o, r)) && i < |rules|
    requires forall k :: 0 <= k < |history| ==> Genuine(o, r, history[k])
    requires forall n, k :: 0 <= k < |between(n)| ==> Genuine(o, r, between(n)[k])
    requires forall n, k :: 0 <= k < |lookups(n)| ==> Genuine(o, r, lookups(n)[k])
    requires var found := After(o, map[], history);
             && Schedules(ConfigOf(o, r), rules, workers, (n: nat) => After(o, found, lookups(n)), INITIAL, steps, t)
             && Quiescent(rules, t)
    ensures var cfg, world, found := ConfigOf(o, r), Among(o, between, clock), After(o, map[], history);
            && SameButMarker(SeqEntry(cfg, world, found, rules, i), PlainEntry(cfg, rules[i]))
            && i < |t.slots| && (t.slots[i].Pending? ==> i in t.results)
            && SameButMarker(ConcEntry(t, i), PlainEntry(cfg, rules[i]))
            && Sound(cfg, SeqCache(cfg, world, found, rules)) && Sound(cfg, ConcStores(cfg, world, found, t.slots))
  {
    var cfg, world, found := ConfigOf(o, r), Among(o, between, clock), After(o, map[], history);
    var seen := (n: nat) => After(o, found, lookups(n));
    EmptySound(cfg);
    HistorySound(o, r, map[], history);
    OneRunKeyDetermines(o, r);
    NothingMarked(o, r);
    hide Sound, AllClear, WellBehaved, StoreFor, ConfigOf, Issued, KeysAgree, NoMarkers, SameButMarker, SeqEntry,
         ConcEntry, PlainEntry, Genuine, After;
    forall n: nat ensures Sound(cfg, seen(n)) { HistorySound(o, r, found, lookups(n)); }
    forall n: nat, c: Cache | Sound(cfg, c) ensures Sound(cfg, world.others(n, c))
    {
      HistorySound(o, r, c, between(n));
    }
    SequentialTransparent(cfg, world, found, rules, i);
    ConcurrentTransparent(cfg, rules, workers, seen, steps, t, i);
    BothModesAgree(cfg, rules, workers, seen, steps, t, found, world, found, world, i);
  }

  /** A run on its own needs no condition: from any cache that is sound for it, the empty one
      included, every entry of either report is the one without a cache, but for at most one
      marker, and the cache stays sound. */
  lemma OwnCacheIsInvisible(o: Outside, r: Process, cache: Cache, world: World, rules: seq<Rule>, workers: nat,
                            seen: nat -> Cache, steps: seq<Step>, t: State, i: nat)
    requires WellBehaved(o) && Planned(r) && i < |rules|
    requires Sound(ConfigOf(o, r), cache) && Benign(ConfigOf(o, r), world) && forall k :: Sound(ConfigOf(o, r), seen(k))
    requires Schedules(ConfigOf(o, r), rules, workers, seen, INITIAL, steps, t) && Quiescent(rules, t)
    ensures Sound(ConfigOf(o, r), map[])
    ensures var cfg := ConfigOf(o, r);
            && SameButMarker(SeqEntry(cfg, world, cache, rules, i), PlainEntry(cfg, rules[i]))
            && i < |t.slots| && (t.slots[i].Pending? ==> i in t.results)
            && SameButMarker(ConcEntry(t, i), PlainEntry(cfg, rules[i]))
            && Sound(cfg, SeqCache(cfg, world, cache, rules)) && Sound(cfg, ConcStores(cfg, world, cache, t.slots))
  {
    hide *;
    var cfg := ConfigOf(o, r);
    OneRunKeyDetermines(o, r);
    NothingMarked(o, r);
    EmptySound(cfg);
    SequentialTransparent(cfg, world, cache, rules, i);
    ConcurrentTransparent(cfg, rules, workers, seen, steps, t, i);
    BothModesAgree(cfg, rules, workers, seen, steps, t, cache, world, cache, world, i);
  }

  // ---- the directory ----

  /** The store writes the judgment of a call some run makes, whose stores are right here. */
  ghost predicate Writes(to: Config, step: C.Step) {
    step.Begin? ==> exists from, call :: WritesFor(from, to, call, step)
  }

  ghost predicate WritesFor(from: Config, to: Config, call: Call, step: C.Step)
    requires step.Begin?
  {
    && KeysAgree(from, to) && NoMarkers(from) && Issued(from, call) && Cacheable(from, call)
    && from.key(call) == Some(step.key) && step.d == Evaluate(from, call)
  }

  /** Every interleaving of file-system steps of any number of processes keeps the directory
      sound as a cache. */
  lemma {:induction false} DirectoryStaysSound(to: Config, codec: C.Codec, s: C.Dir, steps: seq<C.Step>)
    requires C.Faithful(codec) && C.AtRest(s) && Sound(to, C.Abstract(codec, s))
    requires forall i :: 0 <= i < |steps| ==> Writes(to, steps[i])
    ensures Sound(to, C.Abstract(codec, C.Run(codec, s, steps)))
  {
    RestIsInv(codec, s);
    hide *;
    if steps == [] {
    } else {
      var n := |steps| - 1;
      DirectoryStaysSound(to, codec, s, steps[..n]);
      C.RunKeepsInv(codec, s, steps[..n]);
      StepStaysSound(to, codec, s, steps, n);
      RunUnfolds(codec, s, steps);
    }
  }

  lemma RestIsInv(codec: C.Codec, s: C.Dir)
    requires C.AtRest(s)
    ensures C.Inv(codec, s) && s.writers == map[] && s.readers == map[]
  {}

  lemma RunUnfolds(codec: C.Codec, s: C.Dir, steps: seq<C.Step>)
    ensures C.Run(codec, s, []) == s
    ensures steps != [] ==>
              C.Run(codec, s, steps) == C.Next(codec, C.Run(codec, s, steps[..|steps| - 1]), steps[|steps| - 1])
  {}

  lemma StepStaysSound(to: Config, codec: C.Codec, s: C.Dir, steps: seq<C.Step>, n: nat)
    requires n < |steps| && C.Faithful(codec) && s.writers == map[] && C.Inv(codec, C.Run(codec, s, steps[..n]))
    requires Sound(to, C.Abstract(codec, C.Run(codec, s, steps[..n])))
    requires forall i :: 0 <= i < |steps| ==> Writes(to, steps[i])
    ensures Sound(to, C.Abstract(codec, C.Next(codec, C.Run(codec, s, steps[..n]), steps[n])))
  {
    hide *;
    var before := C.Run(codec, s, steps[..n]);
    C.DirectoryRefinesMap(codec, before, steps[n]);
    match C.EffectOf(codec, before, steps[n]) {
      case Nothing =>
      case Removes(key) => EvictionSound(to, C.Abstract(codec, before), {key});
      case Stores(w) =>
        C.EnabledWriter(codec, before, steps[n]);
        C.WritersHaveOrigin(codec, s, steps[..n], steps[n].w);
        StoreOfWriter(to, C.Abstract(codec, before), steps, n, w);
    }
  }

  lemma StoreOfWriter(to: Config, cache: Cache, steps: seq<C.Step>, n: nat, w: C.Writer)
    requires n <= |steps| && C.Began(steps[..n], w) && Sound(to, cache)
    requires forall i :: 0 <= i < |steps| ==> Writes(to, steps[i])
    ensures Sound(to, Store(cache, w.key, w.created, w.d))
  {
    hide Sound, Store, Writes;
    var i :| 0 <= i < n && C.BeganWith(steps[..n][i], w);
    StoreOfStep(to, cache, steps[i], w.created);
  }

  lemma StoreOfStep(to: Config, cache: Cache, step: C.Step, created: string)
    requires step.Begin? && Writes(to, step) && Sound(to, cache)
    ensures Sound(to, Store(cache, step.key, created, step.d))
  {
    hide Sound, KeysAgree, NoMarkers, Issued, Evaluate, Store;
    var from, call :| WritesFor(from, to, call, step);
    StoreSound(from, to, cache, call, created);
    assert StoreFor(from, cache, call, created) == Store(cache, step.key, created, step.d);
  }

  /** So a lookup in any process, however its reads interleave with all the others, is a good
      hit or a miss. */
  lemma LookupIsGoodHit(to: Config, codec: C.Codec, s: C.Dir, steps: seq<C.Step>, reader: nat, call: Call)
    requires C.Faithful(codec) && C.AtRest(s) && Sound(to, C.Abstract(codec, s))
    requires forall i :: 0 <= i < |steps| ==> Writes(to, steps[i])
    requires reader in C.Run(codec, s, steps).readers
    requires var got := C.Run(codec, s, steps).readers[reader];
             got.Returned? && got.result.Some? && codec.decode(got.result.value).Some?
             && Issued(to, call) && Cacheable(to, call) && to.key(call) == Some(got.key)
    ensures var got := C.Run(codec, s, steps).readers[reader];
            var hit := TryLookup(map[got.key := codec.decode(got.result.value).value], got.key, call.rule);
            hit.Some? ==> GoodHit(hit.value, Evaluate(to, call))
  {
    RestIsInv(codec, s);
    hide *;
    var n := C.ReadsAreAtomic(codec, s, steps, reader);
    DirectoryStaysSound(to, codec, s, steps[..n]);
    var moment := C.Run(codec, s, steps[..n]);
    C.AbstractIsHeld(codec, moment);
    var got := C.Run(codec, s, steps).readers[reader];
    var cache := C.Abstract(codec, moment);
    HeldOf(codec, moment, got.key);
    var json := codec.decode(got.result.value).value;
    assert got.key in cache && cache[got.key] == json;
    LookupOfEntry(to, cache, json, call);
    if LookupFor(to, cache, call).Some? { SoundAt(to, cache, call); }
  }

  lemma HeldOf(codec: C.Codec, s: C.Dir, key: Preimage)
    ensures C.Content(s, key).Some? ==> C.Held(codec, s, key) == codec.decode(C.Content(s, key).value)
  {}

  /** A lookup reads nothing but its own entry. */
  lemma LookupOfEntry(to: Config, cache: Cache, json: Json, call: Call)
    requires Cacheable(to, call) && to.key(call).value in cache && cache[to.key(call).value] == json
    ensures TryLookup(map[to.key(call).value := json], to.key(call).value, call.rule) == LookupFor(to, cache, call)
    ensures to.key(call).Some?
  {
    hide Rehydrate;
  }
}
