/** What the judging task and the key of a call are, said of the rule's parameters, the files and the
    options alone. */
module Tasks {
  import opened Wrappers
  import opened Json
  import opened Models
  import opened Assembly
  import opened CacheKey
  import opened Keying
  import Text
  import Glob
  import E = EvidenceRefs
  import S = Strategies

  // ---- declared targets ----

  /** The entry declares the target: an id that is not blank, a kind by its name, and perhaps a path
      that does not climb. */
  predicate DeclaresSpec(entry: Json, s: Spec) {
    && entry.JObj? && {"id", "kind"} <= entry.fields.Keys <= {"id", "kind", "path"}
    && Get(entry.fields, "id") == JStr(s.id) && !Text.AllSpace(s.id)
    && Get(entry.fields, "kind") == JStr(TargetKindName(s.kind))
    && match s.path
       case None => Get(entry.fields, "path") == JNull
       case Some(p) => Get(entry.fields, "path") == JStr(p) && ".." !in Glob.Split(p)
  }

  /** The rule declares these targets: none, or a list of at most five with distinct ids. */
  ghost predicate Declares(rule: Rule, specs: seq<Spec>) {
    match Get(rule.params, "targets")
    case JNull => specs == []
    case JArr(items) =>
      && |specs| == |items| <= 5
      && (forall i :: 0 <= i < |items| ==> DeclaresSpec(items[i], specs[i]))
      && forall i, j :: 0 <= i < j < |specs| ==> specs[i].id != specs[j].id
    case _ => false
  }

  lemma ParseSpecIff(entry: Json, s: Spec)
    ensures ParseSpec(entry) == Some(s) <==> DeclaresSpec(entry, s)
  {
    if entry.JObj? && {"id", "kind"} <= entry.fields.Keys {
      var id, kind := entry.fields["id"], entry.fields["kind"];
      if id.JStr? { Text.NormaliseEmptyIffBlank(id.s); }
      TargetKindIff(kind, s.kind, "kind");
    }
    hide Text.Strip, Text.AllSpace, ToTargetKind, TargetKindName, Glob.Split;
  }

  lemma {:induction false} ParseSpecsIff(items: seq<Json>, specs: seq<Spec>)
    ensures ParseSpecs(items) == Some(specs)
        <==> && |specs| == |items|
             && (forall i :: 0 <= i < |items| ==> DeclaresSpec(items[i], specs[i]))
             && forall i, j :: 0 <= i < j < |specs| ==> specs[i].id != specs[j].id
  {
    hide DeclaresSpec, ParseSpec;
    if items == [] {
    } else if specs != [] {
      var n := |items| - 1;
      var front, last := specs[..|specs| - 1], specs[|specs| - 1];
      ParseSpecsIff(items[..n], front);
      ParseSpecIff(items[n], last);
      assert specs == front + [last];
      if ParseSpecs(items) == Some(specs) { SpecsLast(items, specs); }
    }
  }

  lemma SpecsLast(items: seq<Json>, specs: seq<Spec>)
    requires items != [] && specs != [] && ParseSpecs(items) == Some(specs)
    ensures ParseSpecs(items[..|items| - 1]) == Some(specs[..|specs| - 1])
    ensures ParseSpec(items[|items| - 1]) == Some(specs[|specs| - 1])
  {
    hide ParseSpec;
    var before := ParseSpecs(items[..|items| - 1]).value;
    assert specs == before + [ParseSpec(items[|items| - 1]).value];
  }

  /** The targets of a rule are exactly those it declares. */
  lemma DeclaredIff(rule: Rule, specs: seq<Spec>)
    ensures DeclaredSpecs(rule) == Some(specs) <==> Declares(rule, specs)
  {
    var v := Get(rule.params, "targets");
    if v.JArr? { ParseSpecsIff(v.items, specs); }
    hide DeclaresSpec, ParseSpecs;
  }

  // ---- the strategy ----

  /** The rule names the strategy, or none and it is the single one. */
  predicate NamesStrategy(rule: Rule, id: S.StrategyId) {
    var name := match id
                case SingleStrategy => "single"
                case ConsensusStrategy => "consensus"
                case ReviewStrategy => "review"
                case AdaptiveStrategy => "adaptive";
    if "strategy" in rule.params then rule.params["strategy"] == JStr(name) else id == S.SingleStrategy
  }

  lemma StrategyIff(rule: Rule, id: S.StrategyId)
    ensures StrategyOf(rule) == Some(id) <==> NamesStrategy(rule, id)
  {}

  // ---- integers ----

  predicate AreDigits(ds: string) { ds != "" && forall i :: 0 <= i < |ds| ==> '0' <= ds[i] <= '9' }

  function Ten(n: nat): nat { if n == 0 then 1 else 10 * Ten(n - 1) }

  /** The sum of the digits times their powers of ten. */
  function Places(ds: string): int {
    if ds == "" then 0 else (ds[0] as int - '0' as int) * Ten(|ds| - 1) + Places(ds[1..])
  }

  lemma {:induction false} PlacesSnoc(ds: string, c: char)
    ensures Places(ds + [c]) == 10 * Places(ds) + (c as int - '0' as int)
  {
    if ds == "" {
      assert [c][1..] == "" && "" + [c] == [c];
    } else {
      PlacesSnoc(ds[1..], c);
      assert (ds + [c])[1..] == ds[1..] + [c];
      var d, t := ds[0] as int - '0' as int, Ten(|ds| - 1);
      assert Ten(|ds|) == 10 * t;
      assert d * (10 * t) == 10 * (d * t);
    }
  }

  /** Digits are read in decimal notation, and nothing else is. */
  lemma {:induction false} DigitsIff(ds: string, v: int)
    ensures ParseDigits(ds) == Some(v) <==> AreDigits(ds) && v == Places(ds)
  {
    if ds == "" {
    } else {
      var n := |ds| - 1;
      assert ds == ds[..n] + [ds[n]];
      PlacesSnoc(ds[..n], ds[n]);
      DigitsIff(ds[..n], Places(ds[..n]));
      if n == 0 {
        assert ds[..0] == "" && Places("") == 0;
      } else {
        DigitsFront(ds);
        if ParseDigits(ds[..n]).Some? { DigitsIff(ds[..n], ParseDigits(ds[..n]).value); }
      }
    }
  }

  lemma DigitsFront(ds: string)
    requires |ds| > 1
    ensures AreDigits(ds) <==> AreDigits(ds[..|ds| - 1]) && '0' <= ds[|ds| - 1] <= '9'
  {}

  /** An optional sign and digits. */
  predicate IsIntText(s: string, sign: string, ds: string, v: int) {
    && (sign == "" || sign == "+" || sign == "-") && s == sign + ds && AreDigits(ds)
    && v == if sign == "-" then -Places(ds) else Places(ds)
  }

  /** A text is an integer exactly when, stripped, it is an optional sign and digits. */
  lemma IntOfText(text: string, v: int)
    ensures ToInt(JStr(text)) == Some(v) <==> exists sign, ds :: IsIntText(Text.Strip(text), sign, ds, v)
  {
    hide Text.Strip, Places, ParseDigits, AreDigits;
    var s := Text.Strip(text);
    if ToInt(JStr(text)) == Some(v) {
      if s != "" && (s[0] == '-' || s[0] == '+') {
        DigitsIff(s[1..], if s[0] == '-' then -v else v);
        assert s == [s[0]] + s[1..];
        assert IsIntText(s, [s[0]], s[1..], v);
      } else {
        DigitsIff(s, v);
        assert IsIntText(s, "", s, v);
      }
    }
    if sign, ds :| IsIntText(s, sign, ds, v) {
      DigitsIff(ds, Places(ds));
      FirstDigit(ds);
      assert sign == "" ==> s == ds;
      assert sign != "" ==> s[0] == sign[0] && s[1..] == ds;
    }
  }

  lemma FirstDigit(ds: string)
    requires AreDigits(ds)
    ensures ds != "" && ds[0] != '-' && ds[0] != '+'
  {}

  /** Other values as integers: a number's integral part, and one or nothing for a boolean. */
  lemma IntOfValue(v: Json)
    ensures v.JInt? ==> ToInt(v) == Some(v.n)
    ensures v.JBool? ==> ToInt(v) == Some(if v.b then 1 else 0)
    ensures v.JReal? ==> ToInt(v).Some?
    ensures v.JReal? && v.r >= 0.0 ==> 0 <= ToInt(v).value && 0.0 <= v.r - ToInt(v).value as real < 1.0
    ensures v.JReal? && v.r < 0.0 ==> ToInt(v).value <= 0 && 0.0 <= ToInt(v).value as real - v.r < 1.0
    ensures v.JNull? || v.JArr? || v.JObj? ==> ToInt(v).None?
  {}

  /** The false values. */
  lemma TruthyIff(v: Json)
    ensures !Truthy(v)
        <==> v == JNull || v == JBool(false) || v == JInt(0) || v == JReal(0.0) || v == JStr("") || v == JArr([])
             || v == JObj(map[])
  {}

  // ---- what a reference reads like ----

  /** The normal form of its path if it is a file, and its text: a file's, when an artifact kind is
      declared and it decodes, and otherwise the reference itself. */
  predicate Reads(m: Machine, reference: string, path: Option<string>, text: string) {
    match m.files(reference)
    case None => path == None && text == reference
    case Some(f) =>
      && path == Some(f.name)
      && text == if m.settings.artifactKind.Some? && f.text.Some? then f.text.value else reference
  }

  lemma ReadsIff(m: Machine, reference: string, path: Option<string>, text: string)
    ensures Reads(m, reference, path, text) <==> path == FilePath(m, reference) && text == RenderedText(m, reference)
  {}

  /** A declared target as loaded: readable exactly when its path is a file that decodes, and otherwise
      carrying the placeholder that says so. */
  predicate LoadedAs(m: Machine, s: Spec, t: S.Target) {
    && t.id == s.id && t.path == s.path
    && match s.path
       case None => !t.readable && t.text == "(no path declared)"
       case Some(p) =>
         match m.files(p)
         case Some(File(_, Some(text))) => t.readable && t.text == text
         case _ => !t.readable && t.text == "(unable to read artifact at " + p + ")"
  }

  lemma LoadIff(m: Machine, s: Spec, t: S.Target)
    ensures Load(m, s) == t <==> LoadedAs(m, s, t)
  {}

  /** The affected context of several files, by their labels and texts under the rule's budget. */
  ghost predicate IsContext(m: Machine, rule: Rule, paths: seq<string>, r: AssemblyResult) {
    exists cs: seq<Candidate>, budget: nat ::
      && CandidatesOf(m, paths, cs) && BudgetOf(Get(rule.params, "token_budget"), m.budget, budget)
      && IsAssembly(cs, budget, r)
  }

  /** The rule's own budget when it is a positive integer, else the machine's, else 32000. */
  predicate BudgetOf(param: Json, env: Option<nat>, budget: nat) {
    if param.JInt? && param.n > 0 then budget == param.n
    else if env.Some? && env.value > 0 then budget == env.value
    else budget == 32000
  }

  predicate CandidatesOf(m: Machine, paths: seq<string>, cs: seq<Candidate>) {
    && |cs| == |paths|
    && (forall i :: 0 <= i < |paths| ==> cs[i].name == m.labelOf(paths[i]))
    && (forall i :: 0 <= i < |paths| ==>
          cs[i].content == match m.files(paths[i]) case None => None case Some(f) => f.text)
  }

  lemma CandidatesMeaning(m: Machine, paths: seq<string>)
    ensures var cs := seq(|paths|, i requires 0 <= i < |paths| => Candidate(m.labelOf(paths[i]), TextAt(m, paths[i])));
            CandidatesOf(m, paths, cs)
  {}

  lemma BudgetMeaning(param: Json, env: Option<nat>)
    ensures BudgetOf(param, env, ResolveTokenBudget(param, env))
  {}

  lemma ContextMeaning(m: Machine, rule: Rule, paths: seq<string>)
    ensures IsContext(m, rule, paths, Context(m, rule, paths))
  {
    var cs := seq(|paths|, i requires 0 <= i < |paths| => Candidate(m.labelOf(paths[i]), TextAt(m, paths[i])));
    var budget := ResolveTokenBudget(Get(rule.params, "token_budget"), m.budget);
    assert Context(m, rule, paths) == Assemble(cs, budget);
    CandidatesMeaning(m, paths);
    BudgetMeaning(Get(rule.params, "token_budget"), m.budget);
    hide *;
    AssemblyMeaning(cs, budget);
    ContextIs(m, rule, paths, Context(m, rule, paths), cs, budget);
  }

  lemma ContextIs(m: Machine, rule: Rule, paths: seq<string>, r: AssemblyResult, cs: seq<Candidate>, budget: nat)
    requires CandidatesOf(m, paths, cs) && IsAssembly(cs, budget, r)
    requires BudgetOf(Get(rule.params, "token_budget"), m.budget, budget)
    ensures IsContext(m, rule, paths, r)
  {
    hide IsAssembly, CandidatesOf, BudgetOf;
  }

  // ---- the task ----

  /** What every task takes from the rule and the options. */
  predicate AsksFor(m: Machine, rule: Rule, t: Task) {
    && NamesStrategy(rule, t.strategy)
    && t.prompt.text == rule.text && t.prompt.targetKind == rule.targetKind
    && t.req.model == m.settings.model && (t.req.hasTargetKind <==> rule.targetKind != Unspecified)
    && t.req.panelParam == ToInt(Get(rule.params, "consensus_panel_size"))
    && t.req.escalateFabrication == Truthy(Get(rule.params, "adaptive_escalate_on_quote_fabrication"))
    && t.provider == m.settings.provider && t.deterministic == m.settings.deterministic && t.n == m.settings.n
    && (t.slot.Some? <==> t.strategy.ReviewStrategy? || (t.strategy.AdaptiveStrategy? && t.req.escalateFabrication))
  }

  /** The path or text a target that is not several files stands for. */
  predicate StandsFor(target: RunTarget, reference: string) {
    match target
    case Reference(text) => reference == text
    case Files(paths, _) => if paths == [] then reference == "" else reference == paths[0]
  }

  /** Judging declared targets: each as loaded and shown under its id, kind and path; an auditor is
      shown the run's own target. */
  ghost predicate JudgesDeclared(m: Machine, target: RunTarget, specs: seq<Spec>, t: Task) {
    && !IsMulti(target) && t.context.None? && t.req.text == "" && t.req.path.None?
    && |t.req.targets| == |t.prompt.shown| == |specs|
    && (forall i :: 0 <= i < |specs| ==> LoadedAs(m, specs[i], t.req.targets[i]))
    && (forall i :: 0 <= i < |specs| ==>
          t.prompt.shown[i] == Shown(Some(specs[i].id), specs[i].kind, specs[i].path, t.req.targets[i].text))
    && (t.slot.Some? ==>
          exists reference, path :: StandsFor(target, reference) && Reads(m, reference, path, t.slot.value))
  }

  /** Judging one text: a reference, or the assembled context of several files. */
  ghost predicate JudgesText(m: Machine, reference: string, t: Task) {
    && t.req.targets == [] && Reads(m, reference, t.req.path, t.req.text)
    && t.prompt.shown == [Shown(None, Unspecified, t.req.path, t.req.text)]
    && (t.slot.Some? ==> t.slot.value == t.req.text)
  }

  /** The call is judged as the task. */
  ghost predicate JudgedAs(m: Machine, rule: Rule, target: RunTarget, specs: seq<Spec>, t: Task) {
    && m.configured && Declares(rule, specs) && AsksFor(m, rule, t)
    && if specs != [] then JudgesDeclared(m, target, specs, t)
       else if IsMulti(target) then
         var r := Context(m, rule, target.paths);
         && r.included != [] && JudgesText(m, r.text, t)
         && t.context == Some((ContextEvidence(r), WarningEvidence(r)))
       else t.context.None? && exists reference :: StandsFor(target, reference) && JudgesText(m, reference, t)
  }

  /** A call leads to a task exactly when it is to be judged so; anything else is declined before the
      provider is asked. */
  lemma TaskIff(m: Machine, rule: Rule, target: RunTarget, t: Task)
    ensures TaskOf(m, rule, target) == Some(t) <==> exists specs :: JudgedAs(m, rule, target, specs, t)
  {
    if TaskOf(m, rule, target) == Some(t) { TaskTaken(m, rule, target, t); }
    if specs :| JudgedAs(m, rule, target, specs, t) { TaskRead(m, rule, target, specs, t); }
  }

  lemma StandsIff(target: RunTarget, reference: string)
    ensures StandsFor(target, reference) <==> reference == CheckReference(target)
  {}

  lemma TaskTaken(m: Machine, rule: Rule, target: RunTarget, t: Task)
    requires TaskOf(m, rule, target) == Some(t)
    ensures exists specs :: JudgedAs(m, rule, target, specs, t)
  {
    var specs := DeclaredSpecs(rule).value;
    DeclaredIff(rule, specs);
    StrategyIff(rule, t.strategy);
    hide DeclaredSpecs, StrategyOf, NamesStrategy, Declares, Context, CheckReference, StandsFor, AsksFor, DeclaredTask,
         ReferenceTask, SlotOf, JudgesDeclared, JudgesText;
    if specs != [] {
      DeclaredTaken(m, rule, t.strategy, target, specs);
    } else if IsMulti(target) {
      var r := Context(m, rule, target.paths);
      TextTaken(m, rule, t.strategy, r.text, Some((ContextEvidence(r), WarningEvidence(r))));
    } else {
      StandsIff(target, CheckReference(target));
      TextTaken(m, rule, t.strategy, CheckReference(target), None);
    }
    assert JudgedAs(m, rule, target, specs, t);
  }

  lemma TextTaken(m: Machine, rule: Rule, id: S.StrategyId, reference: string,
                  context: Option<(AffectedContext, Option<TruncationWarning>)>)
    ensures var t := ReferenceTask(m, rule, id, reference, context);
            && t.strategy == id && t.context == context && JudgesText(m, reference, t)
            && (NamesStrategy(rule, id) ==> AsksFor(m, rule, t))
  {
    ReadsIff(m, reference, FilePath(m, reference), RenderedText(m, reference));
    hide Reads, RenderedText, FilePath, ToInt, Truthy, NamesStrategy;
  }

  lemma DeclaredTaken(m: Machine, rule: Rule, id: S.StrategyId, target: RunTarget, specs: seq<Spec>)
    ensures var t := DeclaredTask(m, rule, id, specs, SlotOf(m, target));
            && t.strategy == id && (!IsMulti(target) ==> JudgesDeclared(m, target, specs, t))
            && (NamesStrategy(rule, id) ==> AsksFor(m, rule, t))
  {
    var reference := CheckReference(target);
    StandsIff(target, reference);
    ReadsIff(m, reference, FilePath(m, reference), RenderedText(m, reference));
    hide Reads, RenderedText, FilePath, ToInt, Truthy, Load, LoadedAs, CheckReference, StandsFor, NamesStrategy;
    forall i | 0 <= i < |specs| ensures LoadedAs(m, specs[i], LoadAll(m, specs)[i]) {
      LoadIff(m, specs[i], Load(m, specs[i]));
    }
  }

  lemma TaskRead(m: Machine, rule: Rule, target: RunTarget, specs: seq<Spec>, t: Task)
    requires JudgedAs(m, rule, target, specs, t)
    ensures TaskOf(m, rule, target) == Some(t)
  {
    DeclaredIff(rule, specs);
    StrategyIff(rule, t.strategy);
    hide DeclaredSpecs, StrategyOf, NamesStrategy, Declares, Context, ToInt, Truthy, Load, Reads, RenderedText,
         FilePath, LoadedAs, CheckReference, StandsFor;
    forall reference, path, text ensures Reads(m, reference, path, text)
        <==> path == FilePath(m, reference) && text == RenderedText(m, reference)
    {
      ReadsIff(m, reference, path, text);
    }
    forall reference ensures StandsFor(target, reference) <==> reference == CheckReference(target) {
      StandsIff(target, reference);
    }
    forall s, x ensures LoadedAs(m, s, x) <==> x == Load(m, s) { LoadIff(m, s, x); }
    if specs != [] {
      assert t.req.targets == LoadAll(m, specs);
      assert t.prompt.shown == ShownSpecs(m, specs);
    }
  }

  // ---- what is asked ----

  /** An auditor is shown the rule, the artifact in its slot, and the answer with the evidence it
      shows; the judge of a call is shown the prompt. */
  lemma AsksMeaning(o: Oracle, t: Task, n: nat)
    ensures ProviderOf(o, t).judge(n) == o.judge(t.prompt, Sampling(t.provider, t.req.model, t.deterministic), n)
    ensures var reply := ProviderOf(o, t).judge(n);
            reply.Answer? && S.EvidenceStands(t.req, reply.j, false) && t.slot.Some? ==>
              exists quotes, refs ::
                && S.Shows(t.req, reply.j, quotes, refs)
                && ProviderOf(o, t).audit(n + 1)
                   == o.audit(AuditPrompt(t.prompt.text, t.slot.value, reply.j.verdict, reply.j.reason, quotes),
                              Sampling(t.provider, t.req.model, t.deterministic), n + 1)
  {
    assert SamplingOf(t) == Sampling(t.provider, t.req.model, t.deterministic);
    var p := ProviderOf(o, t);
    assert p.judge(n) == o.judge(t.prompt, SamplingOf(t), n) && p.audit(n + 1) == AuditAnswer(o, t, n + 1);
    var reply := p.judge(n);
    if reply.Answer? && S.EvidenceStands(t.req, reply.j, false) && t.slot.Some? {
      var refs := ShownToAuditor(t, reply.j);
      assert S.Shows(t.req, reply.j, AuditPromptOf(t, reply.j).quotes, refs);
    }
    hide S.Shows, S.EvidenceStands, E.Reconstruct;
  }

  lemma ShownToAuditor(t: Task, j: S.Judgment) returns (refs: seq<E.EvidenceRef>)
    requires S.EvidenceStands(t.req, j, false)
    ensures S.Shows(t.req, j, AuditPromptOf(t, j).quotes, refs)
  {
    S.SoundIff(t.req, j, false);
    var ground := S.GroundOf(t.req, j, false);
    refs := ground.refs;
    S.NoRefsIff(true, S.Multi(t.req), S.Artifacts(t.req), j.refs);
    var out := E.Reconstruct(true, S.Multi(t.req), S.Artifacts(t.req), j.refs);
    if out.Accepted? { S.AcceptedNotEmpty(S.Multi(t.req), S.Artifacts(t.req), j.refs); }
    hide E.Reconstruct, S.EvidenceStands, S.Artifacts, S.PerTargetUngrounded, S.FlatText;
    if j.refs.None? { assert AuditPromptOf(t, j).quotes == j.quotes; }
  }

  // ---- the key ----

  /** Everything of the rules and the options that the key holds: not a rule's id, title, location,
      severity or confidence. */
  predicate KeyedAlike(rule: Rule, x: Settings, rule': Rule, y: Settings) {
    && rule.text == rule'.text && rule.kind == rule'.kind && rule.targetKind == rule'.targetKind
    && SameStrategy(rule.params, rule'.params)
    && x.provider == y.provider && x.model == y.model && x.deterministic == y.deterministic && x.n == y.n
    && SameKind(x.artifactKind, y.artifactKind)
  }

  ghost predicate SameParams(rule: Rule, rule': Rule) {
    forall k :: Keyed(k) ==> SameParam(rule.params, rule'.params, k)
  }

  /** Two files' contexts show the same text and leave out the same files. */
  predicate SameContexts(r: AssemblyResult, r': AssemblyResult) {
    && Labels(r.included) == Labels(r'.included) && r.text == r'.text && r.omittedFiles == r'.omittedFiles
    && r.unreadable == r'.unreadable && r.budget == r'.budget
  }

  /** The path or text the key takes a target that is not several files for: without files, the path of
      the empty path. */
  predicate KeyedUnder(target: RunTarget, reference: string) {
    match target
    case Reference(text) => reference == text
    case Files(paths, _) => if paths == [] then reference == "." else reference == paths[0]
  }

  /** One declared target reads alike on both machines, whether or not it is readable. */
  ghost predicate LoadAlike(m: Machine, m': Machine, s: Spec) {
    exists t, t' :: LoadedAs(m, s, t) && LoadedAs(m', s, t') && t.text == t'.text
  }

  /** One path or text reads alike. */
  ghost predicate ReadAlike(m: Machine, target: RunTarget, m': Machine, target': RunTarget) {
    exists reference, reference', path, text ::
      && KeyedUnder(target, reference) && KeyedUnder(target', reference')
      && Reads(m, reference, path, text) && Reads(m', reference', path, text)
  }

  /** What the key holds of what is judged: declared targets and their texts, whatever the run's target
      is; else the assembled context of several files; else the path and text of one. */
  ghost predicate TargetsAlike(m: Machine, rule: Rule, target: RunTarget, specs: seq<Spec>,
                               m': Machine, rule': Rule, target': RunTarget, specs': seq<Spec>) {
    && specs == specs'
    && if specs != [] then forall i :: 0 <= i < |specs| ==> LoadAlike(m, m', specs[i])
       else
         && IsMulti(target) == IsMulti(target')
         && if IsMulti(target) then SameContexts(Context(m, rule, target.paths), Context(m', rule', target'.paths))
            else ReadAlike(m, target, m', target')
  }

  lemma LoadAlikeIff(m: Machine, m': Machine, s: Spec)
    ensures LoadAlike(m, m', s) <==> Load(m, s).text == Load(m', s).text
  {
    LoadIff(m, s, Load(m, s));
    LoadIff(m', s, Load(m', s));
    forall t ensures (LoadedAs(m, s, t) <==> t == Load(m, s)) && (LoadedAs(m', s, t) <==> t == Load(m', s)) {
      LoadIff(m, s, t);
      LoadIff(m', s, t);
    }
    hide LoadedAs, Load;
  }

  lemma KeyedUnderIff(target: RunTarget, reference: string)
    ensures KeyedUnder(target, reference) <==> reference == KeyReference(target)
  {}

  lemma ReadAlikeIff(m: Machine, target: RunTarget, m': Machine, target': RunTarget)
    ensures ReadAlike(m, target, m', target')
        <==> && FilePath(m, KeyReference(target)) == FilePath(m', KeyReference(target'))
             && RenderedText(m, KeyReference(target)) == RenderedText(m', KeyReference(target'))
  {
    var a, b := KeyReference(target), KeyReference(target');
    KeyedUnderIff(target, a);
    KeyedUnderIff(target', b);
    ReadsIff(m, a, FilePath(m, a), RenderedText(m, a));
    ReadsIff(m', b, FilePath(m, a), RenderedText(m, a));
    hide Reads, FilePath, RenderedText;
    if r, r', path, text :| KeyedUnder(target, r) && KeyedUnder(target', r') && Reads(m, r, path, text)
                            && Reads(m', r', path, text) {
      KeyedUnderIff(target, r);
      KeyedUnderIff(target', r');
      ReadsIff(m, r, path, text);
      ReadsIff(m', r', path, text);
    }
  }

  /** Two calls with keys have the same one exactly when they are keyed alike, and a call has a key
      exactly when a provider is configured and its targets parse. */
  lemma KeysEqualIff(m: Machine, rule: Rule, target: RunTarget, m': Machine, rule': Rule, target': RunTarget)
    ensures KeyOf(m, rule, target).Some? <==> m.configured && exists specs :: Declares(rule, specs)
    ensures KeyOf(m, rule, target).Some? && KeyOf(m', rule', target').Some? ==>
              (KeyOf(m, rule, target) == KeyOf(m', rule', target')
               <==> && KeyedAlike(rule, m.settings, rule', m'.settings) && SameParams(rule, rule')
                    && TargetsAlike(m, rule, target, DeclaredSpecs(rule).value,
                                    m', rule', target', DeclaredSpecs(rule').value))
  {
    HasKey(m, rule, target);
    if KeyOf(m, rule, target).Some? && KeyOf(m', rule', target').Some? {
      var specs, specs' := DeclaredSpecs(rule).value, DeclaredSpecs(rule').value;
      EntriesIff(m, rule, target, specs, m', rule', target', specs');
      PreimageIff(rule, rule', TargetEntries(m, rule, target, specs), TargetEntries(m', rule', target', specs'),
                  m.settings, m'.settings);
    }
    hide DeclaredSpecs, BuildPreimage, TargetEntries, TargetsAlike, Declares;
  }

  lemma HasKey(m: Machine, rule: Rule, target: RunTarget)
    ensures KeyOf(m, rule, target).Some? <==> m.configured && exists specs :: Declares(rule, specs)
  {
    if DeclaredSpecs(rule).Some? { DeclaredIff(rule, DeclaredSpecs(rule).value); }
    forall specs | Declares(rule, specs) ensures DeclaredSpecs(rule).Some? { DeclaredIff(rule, specs); }
    hide DeclaredSpecs, BuildPreimage, TargetEntries, Declares;
  }

  lemma EntriesIff(m: Machine, rule: Rule, target: RunTarget, specs: seq<Spec>,
                   m': Machine, rule': Rule, target': RunTarget, specs': seq<Spec>)
    ensures TargetEntries(m, rule, target, specs) == TargetEntries(m', rule', target', specs')
        <==> TargetsAlike(m, rule, target, specs, m', rule', target', specs')
  {
    hide Context, Load, RenderedText, FilePath, KeyReference, LoadAlike, ReadAlike;
    var es, es' := TargetEntries(m, rule, target, specs), TargetEntries(m', rule', target', specs');
    if es == es' { SameShape(m, rule, target, specs, m', rule', target', specs'); }
    ReadAlikeIff(m, target, m', target');
    if specs != [] && specs' != [] {
      SpecEntriesIff(m, specs, m', specs');
      forall i | 0 <= i < |specs|
        ensures LoadAlike(m, m', specs[i]) <==> Load(m, specs[i]).text == Load(m', specs[i]).text
      {
        LoadAlikeIff(m, m', specs[i]);
      }
    } else if specs == [] && specs' == [] {
      if IsMulti(target) && IsMulti(target') {
        ContextEntriesIff(Context(m, rule, target.paths), Context(m', rule', target'.paths));
      }
      assert es == es' <==> es[0] == es'[0];
    }
  }

  lemma SpecEntriesIff(m: Machine, specs: seq<Spec>, m': Machine, specs': seq<Spec>)
    ensures SpecEntries(m, specs) == SpecEntries(m', specs')
        <==> specs == specs' && forall i :: 0 <= i < |specs| ==> Load(m, specs[i]).text == Load(m', specs[i]).text
  {
    hide Load;
    if SpecEntries(m, specs) == SpecEntries(m', specs') {
      SpecsDetermined(m, m', specs, specs');
      forall i | 0 <= i < |specs| ensures Load(m, specs[i]).text == Load(m', specs[i]).text {
        assert ShownSpecs(m, specs)[i] == ShownSpecs(m', specs')[i];
      }
    }
  }

  lemma ContextEntriesIff(r: AssemblyResult, r': AssemblyResult)
    ensures EntryOfContext(r) == EntryOfContext(r') <==> SameContexts(r, r')
  {
    if EntryOfContext(r) == EntryOfContext(r') { OmittedDetermined(r.omittedFiles, r'.omittedFiles); }
  }
}
