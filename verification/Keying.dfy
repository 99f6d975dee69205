/** From a rule, a target and the machine's state to a judging task and to its cache key: equal
    keys mean equal tasks, and when they do not. */
module Keying {
  import opened Wrappers
  import opened Json
  import opened Models
  import opened Assembly
  import opened CacheKey
  import opened Placeholders
  import Text
  import LineText
  import Glob
  import E = EvidenceRefs
  import S = Strategies

  // ---- the machine ----

  /** A regular file: the normal form of its path, and its text when it decodes. */
  datatype File = File(name: string, text: Option<string>)

  /** What a run finds and is told: the files by path, path labels, the dotenv values and the
      options its keys hold. */
  datatype Machine = Machine(files: string -> Option<File>, labelOf: string -> string, configured: bool,
                             budget: Option<nat>, settings: Settings)

  function TextAt(m: Machine, path: string): Option<string> {
    if m.files(path).Some? then m.files(path).value.text else None
  }

  // ---- declared targets ----

  datatype Spec = Spec(id: string, kind: TargetKind, path: Option<string>)

  /** One entry of `params.targets`. */
  function ParseSpec(entry: Json): Option<Spec> {
    if !entry.JObj? || !({"id", "kind"} <= entry.fields.Keys <= {"id", "kind", "path"}) then None
    else
      var id, path := entry.fields["id"], Get(entry.fields, "path");
      if !id.JStr? || Text.Strip(id.s) == "" || !entry.fields["kind"].JStr? then None
      else
        match ToTargetKind(entry.fields["kind"], "kind")
        case Err(_) => None
        case Ok(kind) =>
          match path
          case JNull => Some(Spec(id.s, kind, None))
          case JStr(p) => if ".." in Glob.Split(p) then None else Some(Spec(id.s, kind, Some(p)))
          case _ => None
  }

  function ParseSpecs(items: seq<Json>): (r: Option<seq<Spec>>)
    ensures r.Some? ==> |r.value| == |items|
    ensures r.Some? ==> forall i, j :: 0 <= i < j < |r.value| ==> r.value[i].id != r.value[j].id
    ensures r.Some? ==> forall i :: 0 <= i < |r.value| ==> r.value[i].id != ""
  {
    if items == [] then Some([])
    else
      var n := |items| - 1;
      var before, last := ParseSpecs(items[..n]), ParseSpec(items[n]);
      if before.None? || last.None? || exists s :: s in before.value && s.id == last.value.id then None
      else Some(before.value + [last.value])
  }

  const MAX_TARGETS := 5

  /** `_parse_multi_targets`: nothing when it raises. */
  function DeclaredSpecs(rule: Rule): (r: Option<seq<Spec>>)
    ensures r.Some? ==> forall i, j :: 0 <= i < j < |r.value| ==> r.value[i].id != r.value[j].id
    ensures r.Some? ==> forall i :: 0 <= i < |r.value| ==> r.value[i].id != ""
  {
    match Get(rule.params, "targets")
    case JNull => Some([])
    case JArr(items) => if |items| > MAX_TARGETS then None else ParseSpecs(items)
    case _ => None
  }

  /** `_load_multi_target_texts` for one entry. */
  function Load(m: Machine, s: Spec): (t: S.Target)
    ensures Loaded(t) && t.id == s.id && t.path == s.path
  {
    if s.path.None? then S.Target(s.id, None, NO_PATH, false)
    else if TextAt(m, s.path.value).Some? then S.Target(s.id, s.path, TextAt(m, s.path.value).value, true)
    else S.Target(s.id, s.path, UnableToRead(s.path.value), false)
  }

  function LoadAll(m: Machine, specs: seq<Spec>): (r: seq<S.Target>)
    ensures |r| == |specs| && forall i :: 0 <= i < |r| ==> r[i] == Load(m, specs[i])
  {
    seq(|specs|, i requires 0 <= i < |specs| => Load(m, specs[i]))
  }

  // ---- what a call is judged against ----

  /** A path or an inline text, or the files of a target spec. */
  datatype RunTarget = Reference(text: string) | Files(paths: seq<string>, isMulti: bool)

  predicate IsMulti(t: RunTarget) { t.Files? && t.isMulti }

  /** What `check` unwraps a target to that is not several files. */
  function CheckReference(t: RunTarget): string {
    match t
    case Reference(text) => text
    case Files(paths, _) => if paths == [] then "" else paths[0]
  }

  /** What the key builder unwraps it to: without files, the path of the empty path. */
  function KeyReference(t: RunTarget): string {
    match t
    case Reference(text) => text
    case Files(paths, _) => if paths == [] then "." else paths[0]
  }

  /** `_resolve_artifact_input`: a file's text when an artifact kind is declared. */
  function RenderedText(m: Machine, reference: string): string {
    if m.settings.artifactKind.Some? && TextAt(m, reference).Some? then TextAt(m, reference).value else reference
  }

  /** `_resolve_single_target_path`. */
  function FilePath(m: Machine, reference: string): Option<string> {
    if m.files(reference).Some? then Some(m.files(reference).value.name) else None
  }

  /** The affected context of several files. */
  function Context(m: Machine, rule: Rule, paths: seq<string>): AssemblyResult {
    var cs := seq(|paths|, i requires 0 <= i < |paths| => Candidate(m.labelOf(paths[i]), TextAt(m, paths[i])));
    Assemble(cs, ResolveTokenBudget(Get(rule.params, "token_budget"), m.budget))
  }

  // ---- the key ----

  function SpecEntries(m: Machine, specs: seq<Spec>): (r: seq<TargetEntry>)
    ensures |r| == |specs| && forall i :: 0 <= i < |r| ==> r[i] == EntryOfTarget(Load(m, specs[i]), specs[i].kind)
  {
    seq(|specs|, i requires 0 <= i < |specs| => EntryOfTarget(Load(m, specs[i]), specs[i].kind))
  }

  /** `_build_target_entries`. */
  function TargetEntries(m: Machine, rule: Rule, target: RunTarget, specs: seq<Spec>): seq<TargetEntry> {
    if specs != [] then SpecEntries(m, specs)
    else if IsMulti(target) then [EntryOfContext(Context(m, rule, target.paths))]
    else
      var reference := KeyReference(target);
      [SingleEntry(FilePath(m, reference), Sha256(RenderedText(m, reference)))]
  }

  /** The key's preimage; nothing when no provider is configured or the targets do not parse. */
  function KeyOf(m: Machine, rule: Rule, target: RunTarget): Option<Preimage> {
    var specs := DeclaredSpecs(rule);
    if !m.configured || specs.None? then None
    else Some(BuildPreimage(rule, TargetEntries(m, rule, target, specs.value), m.settings))
  }

  // ---- the task ----

  /** `int(s)` on ASCII text without underscores. */
  function ParseInt(text: string): Option<int> {
    var s := Text.Strip(text);
    if s != "" && (s[0] == '-' || s[0] == '+') then
      var n := ParseDigits(s[1..]);
      if n.None? then None else Some(if s[0] == '-' then -n.value else n.value)
    else ParseDigits(s)
  }

  function ParseDigits(s: string): Option<int> {
    if s == "" then None
    else
      var n := |s| - 1;
      if !('0' <= s[n] <= '9') then None
      else if n == 0 then Some(s[n] as int - '0' as int)
      else
        var before := ParseDigits(s[..n]);
        if before.None? then None else Some(10 * before.value + (s[n] as int - '0' as int))
  }

  /** `int(v)`; nothing where it raises. */
  function ToInt(v: Json): Option<int> {
    match v
    case JInt(n) => Some(n)
    case JBool(b) => Some(if b then 1 else 0)
    case JReal(r) => Some(if r >= 0.0 then r.Floor else -((-r).Floor))
    case JStr(s) => ParseInt(s)
    case _ => None
  }

  /** `bool(v)`. */
  predicate Truthy(v: Json) {
    match v
    case JNull => false
    case JBool(b) => b
    case JInt(n) => n != 0
    case JReal(r) => r != 0.0
    case JStr(s) => s != ""
    case JArr(items) => items != []
    case JObj(fields) => fields != map[]
  }

  /** The strategy a rule names, if it is one of the four. */
  function StrategyOf(rule: Rule): Option<S.StrategyId> {
    match StrategyId(rule.params)
    case JStr(s) =>
      if s == "single" then Some(S.SingleStrategy)
      else if s == "consensus" then Some(S.ConsensusStrategy)
      else if s == "review" then Some(S.ReviewStrategy)
      else if s == "adaptive" then Some(S.AdaptiveStrategy)
      else None
    case _ => None
  }

  /** One artifact as the prompt shows it; the prompt never says whether it was readable. */
  datatype Shown = Shown(id: Option<string>, kind: TargetKind, path: Option<string>, text: string)

  /** What a judge is shown. */
  datatype Prompt = Prompt(text: string, targetKind: TargetKind, shown: seq<Shown>)

  /** Everything a judgment is made from: the strategy, the request, the judge's prompt, the
      artifact the auditor is shown when the strategy can reach one, the options and, for an
      affected context, its two evidence records. */
  datatype Task = Task(strategy: S.StrategyId, req: S.Request, prompt: Prompt, slot: Option<string>, provider: string,
                       deterministic: bool, n: nat,
                       context: Option<(AffectedContext, Option<TruncationWarning>)>)

  /** The strategy can reach an auditor. */
  predicate CanAudit(id: S.StrategyId, req: S.Request) {
    id == S.ReviewStrategy || (id == S.AdaptiveStrategy && req.escalateFabrication)
  }

  function RequestOf(m: Machine, rule: Rule, targets: seq<S.Target>, text: string, path: Option<string>): S.Request {
    S.Request(m.settings.model, rule.targetKind != Unspecified, targets, text, path,
              ToInt(Get(rule.params, "consensus_panel_size")),
              Truthy(Get(rule.params, "adaptive_escalate_on_quote_fabrication")))
  }

  function TaskWith(m: Machine, rule: Rule, strategy: S.StrategyId, req: S.Request, shown: seq<Shown>, slot: string,
                    context: Option<(AffectedContext, Option<TruncationWarning>)>): Task
  {
    Task(strategy, req, Prompt(rule.text, rule.targetKind, shown), if CanAudit(strategy, req) then Some(slot) else None,
         m.settings.provider, m.settings.deterministic, m.settings.n, context)
  }

  function ShownSpecs(m: Machine, specs: seq<Spec>): seq<Shown> {
    seq(|specs|, i requires 0 <= i < |specs| =>
      Shown(Some(specs[i].id), specs[i].kind, specs[i].path, Load(m, specs[i]).text))
  }

  /** What the auditor's prompt renders: the run's own target, also for a rule that declares
      artifacts of its own. */
  function SlotOf(m: Machine, target: RunTarget): string { RenderedText(m, CheckReference(target)) }

  function DeclaredTask(m: Machine, rule: Rule, strategy: S.StrategyId, specs: seq<Spec>, slot: string): Task {
    var req := RequestOf(m, rule, LoadAll(m, specs), "", None);
    TaskWith(m, rule, strategy, req, ShownSpecs(m, specs), slot, None)
  }

  /** Judging one reference: a path, an inline text or an assembled context. */
  function ReferenceTask(m: Machine, rule: Rule, strategy: S.StrategyId, reference: string,
                         context: Option<(AffectedContext, Option<TruncationWarning>)>): Task
  {
    var text, path := RenderedText(m, reference), FilePath(m, reference);
    var shown := [Shown(None, Unspecified, path, text)];
    TaskWith(m, rule, strategy, RequestOf(m, rule, [], text, path), shown, text, context)
  }

  /** What `check` judges; nothing when it declines before any provider call: no provider, bad
      targets, an unknown strategy, several files for a rule that declares its own, or no
      readable file within the budget. */
  function TaskOf(m: Machine, rule: Rule, target: RunTarget): Option<Task> {
    var specs, strategy := DeclaredSpecs(rule), StrategyOf(rule);
    if !m.configured || specs.None? || strategy.None? then None
    else if specs.value != [] then
      if IsMulti(target) then None
      else Some(DeclaredTask(m, rule, strategy.value, specs.value, SlotOf(m, target)))
    else if IsMulti(target) then
      var r := Context(m, rule, target.paths);
      if r.included == [] then None
      else Some(ReferenceTask(m, rule, strategy.value, r.text, Some((ContextEvidence(r), WarningEvidence(r)))))
    else Some(ReferenceTask(m, rule, strategy.value, CheckReference(target), None))
  }

  // ---- equal keys, equal tasks ----

  /** What a caller can check before trusting a key: a rule that declares targets is not judged
      against several files and none of its artifacts is a lookalike, an assembled context is
      not itself the path of a file, and a spec has files. */
  predicate Clear(m: Machine, rule: Rule, target: RunTarget) {
    var specs := DeclaredSpecs(rule);
    if specs.None? then true
    else if specs.value != [] then
      !IsMulti(target) && forall i :: 0 <= i < |specs.value| ==> !Lookalike(Load(m, specs.value[i]))
    else if IsMulti(target) then m.files(Context(m, rule, target.paths).text).None?
    else HasFile(target)
  }

  /** The rule declares its own artifacts, yet its strategy can reach an auditor, who is shown
      the run's target. */
  predicate AuditsRunTarget(rule: Rule) {
    && DeclaredSpecs(rule).Some? && DeclaredSpecs(rule).value != []
    && (StrategyOf(rule) == Some(S.ReviewStrategy)
        || (StrategyOf(rule) == Some(S.AdaptiveStrategy)
            && Truthy(Get(rule.params, "adaptive_escalate_on_quote_fabrication"))))
  }

  /** If it matters what the run's target reads like, the two calls' targets read alike. */
  predicate SameSlot(m: Machine, rule: Rule, target: RunTarget, m': Machine, target': RunTarget) {
    AuditsRunTarget(rule) ==> SlotOf(m, target) == SlotOf(m', target')
  }

  predicate HasFile(target: RunTarget) { target.Files? ==> target.paths != [] }

  lemma SpecsDetermined(m: Machine, m': Machine, specs: seq<Spec>, specs': seq<Spec>)
    requires SpecEntries(m, specs) == SpecEntries(m', specs')
    ensures specs == specs'
    ensures ShownSpecs(m, specs) == ShownSpecs(m', specs')
    ensures (forall i :: 0 <= i < |specs| ==> !Lookalike(Load(m, specs[i])) && !Lookalike(Load(m', specs'[i])))
        ==> LoadAll(m, specs) == LoadAll(m', specs')
  {
    assert |specs| == |SpecEntries(m, specs)| == |specs'|;
    hide Lookalike, Load;
    forall i | 0 <= i < |specs|
      ensures specs[i] == specs'[i] && Load(m, specs[i]).text == Load(m', specs'[i]).text
      ensures !Lookalike(Load(m, specs[i])) && !Lookalike(Load(m', specs'[i])) ==>
                Load(m, specs[i]) == Load(m', specs'[i])
    {
      assert SpecEntries(m, specs)[i] == SpecEntries(m', specs')[i];
      TargetDetermined(Load(m, specs[i]), Load(m', specs'[i]), specs[i].kind, specs'[i].kind);
    }
  }

  /** Rules whose preimages agree lead to the same request and prompt on the same artifacts. */
  lemma SameWording(m: Machine, rule: Rule, es: seq<TargetEntry>, m': Machine, rule': Rule, es': seq<TargetEntry>)
    requires BuildPreimage(rule, es, m.settings) == BuildPreimage(rule', es', m'.settings)
    ensures es == es' && StrategyOf(rule) == StrategyOf(rule')
    ensures forall ts, text, path :: RequestOf(m, rule, ts, text, path) == RequestOf(m', rule', ts, text, path)
    ensures forall id, req, shown, slot, ctx ::
              TaskWith(m, rule, id, req, shown, slot, ctx) == TaskWith(m', rule', id, req, shown, slot, ctx)
    ensures Get(rule.params, "token_budget") == Get(rule'.params, "token_budget")
    ensures Get(rule.params, "target_scope") == Get(rule'.params, "target_scope")
    ensures var escalate := "adaptive_escalate_on_quote_fabrication";
            Get(rule.params, escalate) == Get(rule'.params, escalate)
  {
    PreimageDeterminesRule(rule, rule', es, es', m.settings, m'.settings);
    hide ToInt, Truthy, StrategyId;
    var panel, escalate := "consensus_panel_size", "adaptive_escalate_on_quote_fabrication";
    assert Get(rule.params, panel) == Get(rule'.params, panel);
    assert Get(rule.params, escalate) == Get(rule'.params, escalate);
  }

  /** Equal entries come from targets of the same shape. */
  lemma SameShape(m: Machine, rule: Rule, target: RunTarget, specs: seq<Spec>,
                  m': Machine, rule': Rule, target': RunTarget, specs': seq<Spec>)
    requires TargetEntries(m, rule, target, specs) == TargetEntries(m', rule', target', specs')
    ensures specs == [] <==> specs' == []
    ensures specs == [] ==> (IsMulti(target) <==> IsMulti(target'))
  {
    hide Context, Load, RenderedText, FilePath;
    var es, es' := TargetEntries(m, rule, target, specs), TargetEntries(m', rule', target', specs');
    assert |es| > 0 && es[0] == es'[0];
    assert specs != [] <==> es[0].SpecEntry?;
    assert specs' != [] <==> es'[0].SpecEntry?;
  }

  /** Equal context entries come from contexts with the same text and records. */
  lemma SameContext(m: Machine, rule: Rule, paths: seq<string>, m': Machine, rule': Rule, paths': seq<string>)
    requires EntryOfContext(Context(m, rule, paths)) == EntryOfContext(Context(m', rule', paths'))
    ensures var r, r' := Context(m, rule, paths), Context(m', rule', paths');
            && r.text == r'.text
            && ContextEvidence(r) == ContextEvidence(r') && WarningEvidence(r) == WarningEvidence(r')
            && (r.included == [] <==> r'.included == [])
  {
    hide Assemble, ResolveTokenBudget;
    var cs := seq(|paths|, i requires 0 <= i < |paths| => Candidate(m.labelOf(paths[i]), TextAt(m, paths[i])));
    var cs' := seq(|paths'|, i requires 0 <= i < |paths'| => Candidate(m'.labelOf(paths'[i]), TextAt(m', paths'[i])));
    ContextKeyDetermines(cs, ResolveTokenBudget(Get(rule.params, "token_budget"), m.budget),
                         cs', ResolveTokenBudget(Get(rule'.params, "token_budget"), m'.budget));
    var r, r' := Context(m, rule, paths), Context(m', rule', paths');
    assert ContextEvidence(r).includedCount == ContextEvidence(r').includedCount;
  }

  /** Whatever rules, targets, files and options two calls have, equal keys and clear calls mean
      the same task but for what an auditor is shown. */
  lemma EqualKeysEqualButSlot(m: Machine, rule: Rule, target: RunTarget, m': Machine, rule': Rule, target': RunTarget)
    requires KeyOf(m, rule, target).Some? && KeyOf(m, rule, target) == KeyOf(m', rule', target')
    requires Clear(m, rule, target) && Clear(m', rule', target')
    ensures AuditsRunTarget(rule) == AuditsRunTarget(rule')
    ensures var t, t' := TaskOf(m, rule, target), TaskOf(m', rule', target');
            && t.Some? == t'.Some?
            && (t.Some? ==> t.value == t'.value.(slot := t.value.slot))
            && (SameSlot(m, rule, target, m', target') ==> t == t')
  {
    var specs, specs' := DeclaredSpecs(rule).value, DeclaredSpecs(rule').value;
    var es, es' := TargetEntries(m, rule, target, specs), TargetEntries(m', rule', target', specs');
    hide BuildPreimage, Context, Load, StrategyOf, RenderedText, FilePath, DeclaredSpecs, Lookalike, ToInt, Truthy;
    SameWording(m, rule, es, m', rule', es');
    SameShape(m, rule, target, specs, m', rule', target', specs');
    if specs != [] {
      assert es == SpecEntries(m, specs) && es' == SpecEntries(m', specs');
      SpecsDetermined(m, m', specs, specs');
    } else if IsMulti(target) {
      assert es[0] == es'[0];
      SameContext(m, rule, target.paths, m', rule', target'.paths);
      ClearContext(m, Context(m, rule, target.paths).text);
      ClearContext(m', Context(m', rule', target'.paths).text);
    } else {
      assert es[0] == es'[0];
    }
  }

  /** Content addressing: equal keys, clear calls and, where an auditor sees them, run targets
      that read alike mean the same task, down to the prompts, the artifacts, the options and the
      context records. */
  lemma EqualKeysEqualTasks(m: Machine, rule: Rule, target: RunTarget, m': Machine, rule': Rule, target': RunTarget)
    requires KeyOf(m, rule, target).Some? && KeyOf(m, rule, target) == KeyOf(m', rule', target')
    requires Clear(m, rule, target) && Clear(m', rule', target') && SameSlot(m, rule, target, m', target')
    ensures TaskOf(m, rule, target) == TaskOf(m', rule', target')
  {
    hide *;
    EqualKeysEqualButSlot(m, rule, target, m', rule', target');
  }

  lemma ClearContext(m: Machine, text: string)
    requires m.files(text).None?
    ensures RenderedText(m, text) == text && FilePath(m, text) == None
  {}

  /** Within one run the keys need no condition: rules judged against the same target with equal
      keys have the same task. */
  lemma OneRunEqualTasks(m: Machine, rule: Rule, rule': Rule, target: RunTarget)
    requires KeyOf(m, rule, target).Some? && KeyOf(m, rule, target) == KeyOf(m, rule', target)
    ensures TaskOf(m, rule, target) == TaskOf(m, rule', target)
  {
    var specs, specs' := DeclaredSpecs(rule).value, DeclaredSpecs(rule').value;
    var es, es' := TargetEntries(m, rule, target, specs), TargetEntries(m, rule', target, specs');
    hide BuildPreimage, Context, Load, StrategyOf, RequestOf, TaskWith, RenderedText, FilePath, DeclaredSpecs,
         Lookalike;
    SameWording(m, rule, es, m, rule', es');
    SameShape(m, rule, target, specs, m, rule', target, specs');
    if specs != [] {
      assert es == SpecEntries(m, specs) && es' == SpecEntries(m, specs');
      SpecsDetermined(m, m, specs, specs');
    } else if IsMulti(target) {
      assert es[0] == es'[0];
      SameContext(m, rule, target.paths, m, rule', target.paths);
    }
  }

  // ---- providers that read their prompts ----

  /** How the provider is asked. */
  datatype Sampling = Sampling(provider: string, model: string, deterministic: bool)

  /** What an auditor is shown: the rule, the run's target and the judge's answer. */
  datatype AuditPrompt = AuditPrompt(text: string, slot: string, verdict: S.Verdict, reason: string,
                                     quotes: seq<string>)

  /** A provider that reads its prompts: any answer to call n of a run. */
  datatype Oracle = Oracle(judge: (Prompt, Sampling, nat) -> S.Reply,
                           audit: (AuditPrompt, Sampling, nat) -> S.AuditReply)

  ghost predicate AdmissibleOracle(o: Oracle) { forall p, s, n :: S.AdmissibleReply(o.judge(p, s, n)) }

  function SamplingOf(t: Task): Sampling { Sampling(t.provider, t.req.model, t.deterministic) }

  /** `_build_review_prompt`: an answer by references is shown with the quotes rebuilt from them. */
  function AuditPromptOf(t: Task, j: S.Judgment): AuditPrompt {
    var quotes := match E.Reconstruct(true, S.Multi(t.req), S.Artifacts(t.req), j.refs)
                  case Accepted(qs, _, _) => if qs != [] then qs else j.quotes
                  case _ => j.quotes;
    AuditPrompt(t.prompt.text, if t.slot.Some? then t.slot.value else "", j.verdict, j.reason, quotes)
  }

  /** An auditor follows the judge whose answer it audits. */
  function AuditAnswer(o: Oracle, t: Task, n: nat): S.AuditReply {
    if n == 0 then S.AuditRaised
    else
      match o.judge(t.prompt, SamplingOf(t), n - 1)
      case Answer(j, _) => o.audit(AuditPromptOf(t, j), SamplingOf(t), n)
      case _ => S.AuditRaised
  }

  /** The provider as a task meets it. */
  function ProviderOf(o: Oracle, t: Task): S.Provider {
    S.Provider((n: nat) => o.judge(t.prompt, SamplingOf(t), n), (n: nat) => AuditAnswer(o, t, n))
  }

  /** One run of a task. */
  function RunTask(o: Oracle, t: Task): S.Run { S.RunStrategy(t.strategy, t.req, ProviderOf(o, t), 0) }

  lemma ProviderAdmissible(o: Oracle, t: Task)
    requires AdmissibleOracle(o)
    ensures S.AdmissibleProvider(ProviderOf(o, t))
  {
    hide S.AdmissibleReply;
    forall n ensures S.AdmissibleReply(ProviderOf(o, t).judge(n)) {
      assert S.AdmissibleReply(o.judge(t.prompt, SamplingOf(t), n));
    }
  }

  // ---- what a collision does to a verdict ----

  /** A passing answer that cites one line-range reference. */
  function Citing(entry: Json): S.Judgment { S.Judgment(S.VPass, "x", [], Some([entry]), None, None, false) }

  const NO_COST := S.Telemetry(0, None)

  /** A judge that always gives this answer, and an auditor that agrees. */
  function Always(j: S.Judgment): Oracle {
    Oracle((_, _, _) => S.Answer(j, NO_COST), (_, _, _) => S.Audited(S.Agree, NO_COST))
  }

  lemma CitingGround(req: S.Request, entry: Json, perTarget: bool)
    ensures var g := S.GroundOf(req, Citing(entry), perTarget);
            var r := E.ResolveRef(S.Multi(req), S.Artifacts(req), entry);
            (g.Sound? <==> r.Ok?) && (g.BadRefs? <==> r.Err?)
  {
    hide E.ResolveRef, S.Artifacts;
    var entries, artifacts := [entry], S.Artifacts(req);
    assert entries[0] == entry && entries[1..] == [];
    var r := E.ResolveRef(S.Multi(req), artifacts, entry);
    assert E.ResolveRefs(S.Multi(req), artifacts, entries[1..]) == Ok([]);
    assert E.ResolveRefs(S.Multi(req), artifacts, entries) == if r.Err? then Err(r.error) else Ok([r.value] + []);
  }

  predicate Cites(p: S.Provider, entry: Json, n: nat) { p.judge(n) == S.Answer(Citing(entry), NO_COST) }

  predicate Agrees(p: S.Provider, n: nat) { p.audit(n) == S.Audited(S.Agree, NO_COST) }

  /** Under any strategy judges that all cite one reference pass when it resolves and is not
      overturned, and there is no verdict when it does not resolve. */
  lemma CitingDecides(id: S.StrategyId, req: S.Request, p: S.Provider, entry: Json)
    requires (forall n :: Cites(p, entry, n)) && Agrees(p, 1)
    ensures var status := S.RunStrategy(id, req, p, 0).outcome.status;
            if E.ResolveRef(S.Multi(req), S.Artifacts(req), entry).Ok? then status == PASS else !S.IsVerdict(status)
  {
    assert Cites(p, entry, 0);
    hide E.ResolveRef, S.Artifacts, S.GroundOf, S.PanelSize, S.ConsensusOutcome;
    CitingGround(req, entry, true);
    CitingGround(req, entry, false);
    CitingPanel(req, p, entry);
  }

  lemma CitingPanel(req: S.Request, p: S.Provider, entry: Json)
    requires forall n :: Cites(p, entry, n)
    ensures var status := S.ConsensusOutcome(req, S.Replies(p.judge, 0, S.PanelSize(req))).status;
            if E.ResolveRef(S.Multi(req), S.Artifacts(req), entry).Ok? then status == PASS else !S.IsVerdict(status)
  {
    hide E.ResolveRef, S.Artifacts, S.GroundOf, S.PanelSize, S.ConsensusOutcome;
    CitingGround(req, entry, false);
    var replies := S.Replies(p.judge, 0, S.PanelSize(req));
    forall i: nat | i < |replies| ensures replies[i] == S.Answer(Citing(entry), NO_COST) { assert Cites(p, entry, i); }
    S.UnanimousPanel(req, replies,
                     if E.ResolveRef(S.Multi(req), S.Artifacts(req), entry).Ok? then S.VPass else S.VUnsupported);
  }

  /** A task on an oracle that always cites one reference. */
  lemma CitingTask(t: Task, entry: Json)
    ensures var status := RunTask(Always(Citing(entry)), t).outcome.status;
            if E.ResolveRef(S.Multi(t.req), S.Artifacts(t.req), entry).Ok? then status == PASS else !S.IsVerdict(status)
  {
    hide E.ResolveRef, S.Artifacts, S.RunStrategy, AuditPromptOf;
    var p := ProviderOf(Always(Citing(entry)), t);
    assert Agrees(p, 1) && forall n :: Cites(p, entry, n);
    CitingDecides(t.strategy, t.req, p, entry);
  }

  // ---- lookalikes ----

  /** The machine with every lookalike file gone. */
  function WithoutLookalikes(m: Machine): Machine {
    m.(files := p => if TextAt(m, p) == Some(UnableToRead(p)) then None else m.files(p))
  }

  lemma LoadWithoutLookalikes(m: Machine, s: Spec)
    ensures var t, t' := Load(m, s), Load(WithoutLookalikes(m), s);
            !Lookalike(t') && t' == if Lookalike(t) then t.(readable := false) else t
  {}

  /** A reference to the first line of an artifact. */
  function FirstLineOf(id: Option<string>, path: Option<string>): Json {
    JObj(map["target_id" := E.JsonPath(id), "path" := E.JsonPath(path), "line_start" := JInt(1), "line_end" := JInt(1)])
  }

  lemma FirstLineFields(id: Option<string>, path: Option<string>)
    ensures var f := FirstLineOf(id, path).fields;
            && Get(f, "target_id") == E.JsonPath(id) && Get(f, "path") == E.JsonPath(path)
            && Get(f, "line_start") == JInt(1) && Get(f, "line_end") == JInt(1)
  {}

  /** On uniquely named targets it resolves exactly when its own is readable. */
  lemma FirstLineResolves(req: S.Request, i: nat)
    requires i < |req.targets| && req.targets[i].id != ""
    requires forall j, k :: 0 <= j < k < |req.targets| ==> req.targets[j].id != req.targets[k].id
    ensures var t := req.targets[i];
            E.ResolveRef(true, S.Artifacts(req), FirstLineOf(Some(t.id), t.path)).Ok? <==> t.readable
  {
    hide LineText.Lines;
    var t, artifacts := req.targets[i], S.Artifacts(req);
    FirstLineFields(Some(t.id), t.path);
    var hit := E.ByTargetId(artifacts, t.id);
    assert artifacts[i].targetId == Some(t.id);
    assert hit == Some(i);
  }

  lemma TaskOnTargets(m: Machine, rule: Rule, target: RunTarget)
    requires TaskOf(m, rule, target).Some? && DeclaredSpecs(rule).value != []
    ensures !IsMulti(target) && S.Multi(TaskOf(m, rule, target).value.req)
    ensures TaskOf(m, rule, target).value.req.targets == LoadAll(m, DeclaredSpecs(rule).value)
  {
    hide StrategyOf;
  }

  /** Citing the first line of artifact i passes exactly when it is readable. */
  lemma CitingTarget(m: Machine, rule: Rule, target: RunTarget, i: nat)
    requires TaskOf(m, rule, target).Some? && i < |DeclaredSpecs(rule).value|
    ensures var t := Load(m, DeclaredSpecs(rule).value[i]);
            var status := RunWith(m, rule, target, Always(Citing(FirstLineOf(Some(t.id), t.path)))).outcome.status;
            if t.readable then status == PASS else !S.IsVerdict(status)
  {
    var t := Load(m, DeclaredSpecs(rule).value[i]);
    hide TaskOf, Load, RunTask, E.ResolveRef, S.Artifacts, Always, Citing, FirstLineOf, S.IsVerdict;
    TaskOnTargets(m, rule, target);
    var task := TaskOf(m, rule, target).value;
    FirstLineResolves(task.req, i);
    CitingTask(task, FirstLineOf(Some(t.id), t.path));
  }

  lemma CitingAdmissible(entry: Json)
    ensures AdmissibleOracle(Always(Citing(entry)))
  {
    S.CharNormal('x');
  }

  lemma LookalikesGone(m: Machine, rule: Rule, target: RunTarget)
    requires TaskOf(m, rule, target).Some? && DeclaredSpecs(rule).value != []
    ensures var m' := WithoutLookalikes(m);
            && Clear(m', rule, target) && KeyOf(m', rule, target) == KeyOf(m, rule, target)
            && TaskOf(m', rule, target).Some?
            && TaskOf(m', rule, target).value.prompt == TaskOf(m, rule, target).value.prompt
  {
    hide DeclaredSpecs, Load, StrategyOf, BuildPreimage, Lookalike;
    var m', specs := WithoutLookalikes(m), DeclaredSpecs(rule).value;
    forall k | 0 <= k < |specs|
      ensures !Lookalike(Load(m', specs[k]))
      ensures Load(m', specs[k]) == Load(m, specs[k]).(readable := Load(m', specs[k]).readable)
    {
      LoadWithoutLookalikes(m, specs[k]);
    }
    assert SpecEntries(m', specs) == SpecEntries(m, specs) && ShownSpecs(m', specs) == ShownSpecs(m, specs);
  }

  /** The converse, for every rule that is judged on its own targets with a lookalike among
      them: with the lookalikes gone the key and the prompt are the same and the call is clear,
      and some answer passes in one case and is no verdict in the other, whatever the strategy. */
  lemma LookalikeChangesVerdict(m: Machine, rule: Rule, target: RunTarget, i: nat) returns (o: Oracle)
    requires TaskOf(m, rule, target).Some? && i < |DeclaredSpecs(rule).value|
    requires Lookalike(Load(m, DeclaredSpecs(rule).value[i]))
    ensures AdmissibleOracle(o)
    ensures var m' := WithoutLookalikes(m);
            && Clear(m', rule, target) && KeyOf(m', rule, target) == KeyOf(m, rule, target)
            && TaskOf(m', rule, target).Some?
            && TaskOf(m', rule, target).value.prompt == TaskOf(m, rule, target).value.prompt
            && RunWith(m, rule, target, o).outcome.status == PASS
            && !S.IsVerdict(RunWith(m', rule, target, o).outcome.status)
  {
    var spec := DeclaredSpecs(rule).value[i];
    var t := Load(m, spec);
    var entry := FirstLineOf(Some(t.id), t.path);
    o := Always(Citing(entry));
    LoadWithoutLookalikes(m, spec);
    assert t.readable;
    hide *;
    CitingAdmissible(entry);
    LookalikesGone(m, rule, target);
    CitingTarget(m, rule, target, i);
    CitingTarget(WithoutLookalikes(m), rule, target, i);
  }

  /** One run of a judged call. */
  function RunWith(m: Machine, rule: Rule, target: RunTarget, o: Oracle): S.Run
    requires TaskOf(m, rule, target).Some?
  {
    RunTask(o, TaskOf(m, rule, target).value)
  }

  /** A rule that declares targets has the same key whatever it is run against: several files,
      where it is declined, and anything else, where some answer passes as soon as one of its
      artifacts is readable. */
  lemma ManyFilesShareTheKey(m: Machine, rule: Rule, paths: seq<string>, target: RunTarget, i: nat)
    returns (o: Oracle)
    requires TaskOf(m, rule, target).Some? && i < |DeclaredSpecs(rule).value|
    requires Load(m, DeclaredSpecs(rule).value[i]).readable
    ensures AdmissibleOracle(o)
    ensures KeyOf(m, rule, Files(paths, true)) == KeyOf(m, rule, target) && TaskOf(m, rule, Files(paths, true)).None?
    ensures RunWith(m, rule, target, o).outcome.status == PASS
  {
    var t := Load(m, DeclaredSpecs(rule).value[i]);
    var entry := FirstLineOf(Some(t.id), t.path);
    o := Always(Citing(entry));
    hide DeclaredSpecs, Load, RunWith, Always, Citing, AdmissibleOracle, FirstLineOf;
    CitingAdmissible(entry);
    CitingTarget(m, rule, target, i);
  }

  /** A context whose assembled text is the path of a file: without that file the key is the
      same and the call is clear, and some answer is a verdict only then. */
  lemma ContextPathChangesVerdict(m: Machine, rule: Rule, target: RunTarget) returns (m': Machine, o: Oracle)
    requires TaskOf(m, rule, target).Some? && DeclaredSpecs(rule) == Some([]) && IsMulti(target)
    requires !Clear(m, rule, target) && Context(m, rule, target.paths).text !in target.paths
    ensures AdmissibleOracle(o)
    ensures Clear(m', rule, target) && KeyOf(m', rule, target) == KeyOf(m, rule, target)
    ensures TaskOf(m', rule, target).Some?
    ensures RunWith(m', rule, target, o).outcome.status == PASS
    ensures !S.IsVerdict(RunWith(m, rule, target, o).outcome.status)
  {
    var text := Context(m, rule, target.paths).text;
    m' := m.(files := q => if q == text then None else m.files(q));
    o := Always(Citing(FirstLineOf(None, None)));
    SameContextWithout(m, m', rule, target.paths, text);
    hide DeclaredSpecs, Context, StrategyOf, Always, Citing, FirstLineOf, AdmissibleOracle, RunWith;
    CitingAdmissible(FirstLineOf(None, None));
    CitingReference(m, rule, target);
    CitingReference(m', rule, target);
  }

  /** Citing the first line of a single reference passes exactly when it is no file's path. */
  lemma CitingReference(m: Machine, rule: Rule, target: RunTarget)
    requires TaskOf(m, rule, target).Some? && DeclaredSpecs(rule) == Some([]) && IsMulti(target)
    ensures var status := RunWith(m, rule, target, Always(Citing(FirstLineOf(None, None)))).outcome.status;
            if m.files(Context(m, rule, target.paths).text).None? then status == PASS else !S.IsVerdict(status)
  {
    hide Context, StrategyOf, RunTask, E.ResolveRef, S.Artifacts, Always, Citing, FirstLineOf, S.IsVerdict;
    var task := TaskOf(m, rule, target).value;
    FirstLineOfOne(task.req);
    CitingTask(task, FirstLineOf(None, None));
  }

  lemma SameContextWithout(m: Machine, m': Machine, rule: Rule, paths: seq<string>, text: string)
    requires text !in paths && m' == m.(files := m'.files) && forall q :: q != text ==> m'.files(q) == m.files(q)
    ensures Context(m', rule, paths) == Context(m, rule, paths)
  {
    hide Assemble, ResolveTokenBudget;
    var cs := seq(|paths|, i requires 0 <= i < |paths| => Candidate(m.labelOf(paths[i]), TextAt(m, paths[i])));
    var cs' := seq(|paths|, i requires 0 <= i < |paths| => Candidate(m'.labelOf(paths[i]), TextAt(m', paths[i])));
    assert forall i :: 0 <= i < |paths| ==> paths[i] in paths && cs[i] == cs'[i];
    assert cs == cs';
  }

  lemma FirstLineOfOne(req: S.Request)
    requires req.targets == []
    ensures E.ResolveRef(false, S.Artifacts(req), FirstLineOf(None, None)).Ok? <==> req.path.None?
  {
    hide LineText.Lines;
    FirstLineFields(None, None);
  }

  // ---- what an auditor is shown ----

  /** A passing answer that quotes nothing. */
  function Fabricating(): S.Judgment { S.Judgment(S.VPass, "x", [""], None, None, None, false) }

  function JudgeFirst(id: S.StrategyId): nat { if id == S.ReviewStrategy then 0 else 1 }

  /** Judges citing one reference, after a fabricated answer where adaptive needs one, and an
      auditor that agrees about one artifact only. */
  function Picky(id: S.StrategyId, entry: Json, slot: string): Oracle {
    Oracle((_, _, n) => S.Answer(if n < JudgeFirst(id) then Fabricating() else Citing(entry), NO_COST),
           (a: AuditPrompt, _, _) => S.Audited(if a.slot == slot then S.Agree else S.PassShouldFail, NO_COST))
  }

  lemma PickyAdmissible(id: S.StrategyId, entry: Json, slot: string)
    ensures AdmissibleOracle(Picky(id, entry, slot))
  {
    S.CharNormal('x');
    assert S.Admissible(Fabricating()) && S.Admissible(Citing(entry));
    hide S.Admissible;
  }

  lemma FabricatingGround(req: S.Request, perTarget: bool)
    ensures S.GroundOf(req, Fabricating(), perTarget) == S.Fabricated
  {
    S.NoRefsIff(true, S.Multi(req), S.Artifacts(req), None);
    Text.StripAllSpace("");
    hide S.Artifacts, S.FlatText, S.StrictId, E.Reconstruct;
    S.UngroundedBlank(req);
  }

  /** When the auditor is reached on evidence that stands, the auditor decides. */
  lemma AuditDecides(id: S.StrategyId, req: S.Request, p: S.Provider, entry: Json)
    requires CanAudit(id, req) && E.ResolveRef(S.Multi(req), S.Artifacts(req), entry).Ok?
    requires id == S.AdaptiveStrategy ==> p.judge(0) == S.Answer(Fabricating(), NO_COST)
    requires Cites(p, entry, JudgeFirst(id)) && p.audit(JudgeFirst(id) + 1).Audited?
    requires p.audit(JudgeFirst(id) + 1).a == S.Agree || p.audit(JudgeFirst(id) + 1).a == S.PassShouldFail
    ensures S.RunStrategy(id, req, p, 0).outcome.status
         == if p.audit(JudgeFirst(id) + 1).a == S.Agree then PASS else UNSUPPORTED
  {
    CitingGround(req, entry, false);
    FabricatingGround(req, true);
    hide E.ResolveRef, S.Artifacts, S.GroundOf, S.ConsensusOutcome;
  }

  /** A picky oracle on a task that can reach an auditor. */
  lemma PickyTask(t: Task, entry: Json, slot: string)
    requires CanAudit(t.strategy, t.req) && t.slot.Some?
    requires E.ResolveRef(S.Multi(t.req), S.Artifacts(t.req), entry).Ok?
    ensures RunTask(Picky(t.strategy, entry, slot), t).outcome.status
         == if t.slot == Some(slot) then PASS else UNSUPPORTED
  {
    hide E.ResolveRef, E.Reconstruct, S.Artifacts, S.RunStrategy;
    var o := Picky(t.strategy, entry, slot);
    var p := ProviderOf(o, t);
    var s := SamplingOf(t);
    if t.strategy == S.AdaptiveStrategy { assert p.judge(0) == o.judge(t.prompt, s, 0); }
    var k := JudgeFirst(t.strategy);
    assert p.judge(k) == o.judge(t.prompt, s, k) == S.Answer(Citing(entry), NO_COST);
    assert p.audit(k + 1) == o.audit(AuditPromptOf(t, Citing(entry)), s, k + 1);
    AuditDecides(t.strategy, t.req, p, entry);
  }

  lemma TaskSlot(m: Machine, rule: Rule, target: RunTarget)
    requires TaskOf(m, rule, target).Some? && AuditsRunTarget(rule)
    ensures var t := TaskOf(m, rule, target).value; CanAudit(t.strategy, t.req) && t.slot == Some(SlotOf(m, target))
  {
    hide DeclaredSpecs, RenderedText, Truthy, ToInt;
  }

  /** The converse for what auditors are shown: whenever a rule with a readable artifact of its
      own can reach an auditor, any two clear calls with one key whose run targets read
      differently are told apart by some provider that reads its prompts, which passes in one and
      gives no verdict in the other, though the judges are shown the same. */
  lemma SlotChangesVerdict(m: Machine, rule: Rule, target: RunTarget, m': Machine, rule': Rule, target': RunTarget,
                           i: nat)
    returns (o: Oracle)
    requires TaskOf(m, rule, target).Some? && AuditsRunTarget(rule)
    requires KeyOf(m, rule, target) == KeyOf(m', rule', target')
    requires Clear(m, rule, target) && Clear(m', rule', target') && SlotOf(m, target) != SlotOf(m', target')
    requires i < |DeclaredSpecs(rule).value| && Load(m, DeclaredSpecs(rule).value[i]).readable
    ensures AdmissibleOracle(o) && TaskOf(m', rule', target').Some?
    ensures TaskOf(m', rule', target').value.prompt == TaskOf(m, rule, target).value.prompt
    ensures RunWith(m, rule, target, o).outcome.status == PASS
    ensures RunWith(m', rule', target', o).outcome.status == UNSUPPORTED
  {
    var l := Load(m, DeclaredSpecs(rule).value[i]);
    var entry := FirstLineOf(Some(l.id), l.path);
    JudgedHasKey(m, rule, target);
    hide KeyOf, TaskOf, Clear, RunTask, SlotOf, AuditsRunTarget, Load, E.ResolveRef, S.Artifacts, Picky, FirstLineOf,
         AdmissibleOracle, CanAudit;
    EqualKeysEqualButSlot(m, rule, target, m', rule', target');
    TaskSlot(m, rule, target);
    TaskSlot(m', rule', target');
    TaskOnTargets(m, rule, target);
    var t, t' := TaskOf(m, rule, target).value, TaskOf(m', rule', target').value;
    FirstLineResolves(t.req, i);
    o := Picky(t.strategy, entry, SlotOf(m, target));
    PickyAdmissible(t.strategy, entry, SlotOf(m, target));
    PickyTask(t, entry, SlotOf(m, target));
    PickyTask(t', entry, SlotOf(m, target));
  }

  // ---- the exact conditions ----

  /** What the run's target reads like can decide a verdict. */
  predicate NeedsSlot(m: Machine, rule: Rule) {
    && AuditsRunTarget(rule)
    && exists i :: 0 <= i < |DeclaredSpecs(rule).value| && Load(m, DeclaredSpecs(rule).value[i]).readable
  }

  /** The run of a call's strategy, when the call is judged at all. */
  function RunIfJudged(m: Machine, rule: Rule, target: RunTarget, o: Oracle): Option<S.Run> {
    if TaskOf(m, rule, target).None? then None else Some(RunWith(m, rule, target, o))
  }

  lemma JudgedHasKey(m: Machine, rule: Rule, target: RunTarget)
    requires TaskOf(m, rule, target).Some?
    ensures KeyOf(m, rule, target).Some?
  {}

  /** Two tasks that differ in what an auditor would be shown, and have no readable artifact,
      run alike: no auditor is ever reached. */
  lemma NoAuditor(t: Task, t': Task, o: Oracle)
    requires AdmissibleOracle(o) && t == t'.(slot := t.slot)
    requires t.slot == t'.slot || (S.Multi(t.req) && forall x :: x in t.req.targets ==> !x.readable)
    ensures RunTask(o, t) == RunTask(o, t')
  {
    if t.slot != t'.slot {
      ProviderAdmissible(o, t);
      JudgesAlike(o, t, t');
      S.UnreadableUnaudited(t.strategy, t.req, ProviderOf(o, t), ProviderOf(o, t'), 0);
    }
  }

  lemma JudgesAlike(o: Oracle, t: Task, t': Task)
    requires t.prompt == t'.prompt && SamplingOf(t) == SamplingOf(t')
    ensures forall n :: ProviderOf(o, t).judge(n) == ProviderOf(o, t').judge(n)
  {}

  /** Two clear calls with one key are judged alike by every provider exactly when their run
      targets read alike or no auditor could make a difference. */
  lemma SlotIff(m: Machine, rule: Rule, target: RunTarget, m': Machine, rule': Rule, target': RunTarget)
    requires TaskOf(m, rule, target).Some? && KeyOf(m, rule, target) == KeyOf(m', rule', target')
    requires Clear(m, rule, target) && Clear(m', rule', target')
    ensures (forall o :: AdmissibleOracle(o) ==> RunIfJudged(m, rule, target, o) == RunIfJudged(m', rule', target', o))
       <==> (NeedsSlot(m, rule) ==> SlotOf(m, target) == SlotOf(m', target'))
  {
    JudgedHasKey(m, rule, target);
    hide KeyOf, RunTask, SlotOf, Clear, TaskOf, DeclaredSpecs, Load, AdmissibleOracle, AuditsRunTarget;
    EqualKeysEqualButSlot(m, rule, target, m', rule', target');
    if NeedsSlot(m, rule) && SlotOf(m, target) != SlotOf(m', target') {
      var i :| 0 <= i < |DeclaredSpecs(rule).value| && Load(m, DeclaredSpecs(rule).value[i]).readable;
      var o := SlotChangesVerdict(m, rule, target, m', rule', target', i);
      assert RunIfJudged(m, rule, target, o) != RunIfJudged(m', rule', target', o);
    } else {
      forall o | AdmissibleOracle(o) ensures RunIfJudged(m, rule, target, o) == RunIfJudged(m', rule', target', o) {
        SameRun(m, rule, target, m', rule', target', o);
      }
    }
  }

  lemma SameRun(m: Machine, rule: Rule, target: RunTarget, m': Machine, rule': Rule, target': RunTarget, o: Oracle)
    requires TaskOf(m, rule, target).Some? && KeyOf(m, rule, target) == KeyOf(m', rule', target') && AdmissibleOracle(o)
    requires Clear(m, rule, target) && Clear(m', rule', target')
    requires NeedsSlot(m, rule) ==> SlotOf(m, target) == SlotOf(m', target')
    ensures RunIfJudged(m, rule, target, o) == RunIfJudged(m', rule', target', o)
  {
    JudgedHasKey(m, rule, target);
    hide KeyOf, RunTask, SlotOf, Clear, TaskOf, DeclaredSpecs, Load, AdmissibleOracle, AuditsRunTarget;
    EqualKeysEqualButSlot(m, rule, target, m', rule', target');
    if AuditsRunTarget(rule) && !NeedsSlot(m, rule) {
      DeclaresTargets(rule);
      TaskOnTargets(m, rule, target);
    }
    NoAuditor(TaskOf(m, rule, target).value, TaskOf(m', rule', target').value, o);
  }

  lemma DeclaresTargets(rule: Rule)
    requires AuditsRunTarget(rule)
    ensures DeclaredSpecs(rule).Some? && DeclaredSpecs(rule).value != []
  {}

  /** No clear call with the key is judged differently, whatever a provider makes of its
      prompts. */
  ghost predicate KeyIsFaithful(m: Machine, rule: Rule, target: RunTarget) {
    forall m', rule', target', o ::
      Clear(m', rule', target') && KeyOf(m', rule', target') == KeyOf(m, rule, target) && AdmissibleOracle(o) ==>
        RunIfJudged(m', rule', target', o) == RunIfJudged(m, rule, target, o)
  }

  /** The condition is exact: a judged call's key determines its outcome, for every machine,
      rule, target and provider, if and only if the call is clear and no auditor is shown its run
      target beside readable artifacts of its own. */
  lemma ClearIff(m: Machine, rule: Rule, target: RunTarget)
    requires TaskOf(m, rule, target).Some? && HasFile(target)
    requires IsMulti(target) ==> Context(m, rule, target.paths).text !in target.paths
    ensures KeyIsFaithful(m, rule, target) <==> Clear(m, rule, target) && !NeedsSlot(m, rule)
  {
    JudgedHasKey(m, rule, target);
    hide RunWith, KeyOf, DeclaredSpecs, Lookalike, Load, Context, AdmissibleOracle, AuditsRunTarget;
    if Clear(m, rule, target) {
      hide TaskOf, Clear, NeedsSlot;
      if NeedsSlot(m, rule) {
        OtherSlot(m, rule, target);
      } else {
        forall m', rule', target', o |
          Clear(m', rule', target') && KeyOf(m', rule', target') == KeyOf(m, rule, target) && AdmissibleOracle(o)
          ensures RunIfJudged(m', rule', target', o) == RunIfJudged(m, rule, target, o)
        {
          SameRun(m, rule, target, m', rule', target', o);
        }
      }
    } else if DeclaredSpecs(rule).value != [] {
      var i :| 0 <= i < |DeclaredSpecs(rule).value| && Lookalike(Load(m, DeclaredSpecs(rule).value[i]));
      var o := LookalikeChangesVerdict(m, rule, target, i);
      Unfaithful(m, rule, target, WithoutLookalikes(m), rule, target, o);
    } else {
      var m', o := ContextPathChangesVerdict(m, rule, target);
      Unfaithful(m, rule, target, m', rule, target, o);
    }
  }

  lemma Unfaithful(m: Machine, rule: Rule, target: RunTarget, m': Machine, rule': Rule, target': RunTarget, o: Oracle)
    requires TaskOf(m, rule, target).Some? && TaskOf(m', rule', target').Some? && AdmissibleOracle(o)
    requires Clear(m', rule', target') && KeyOf(m', rule', target') == KeyOf(m, rule, target)
    requires RunWith(m, rule, target, o).outcome.status != RunWith(m', rule', target', o).outcome.status
    ensures !KeyIsFaithful(m, rule, target)
  {
    hide RunWith, TaskOf, KeyOf, Clear, AdmissibleOracle;
    assert RunIfJudged(m', rule', target', o) != RunIfJudged(m, rule, target, o);
  }

  // ---- another run target ----

  function Repeat(n: nat): (r: string)
    ensures |r| == n
  {
    seq(n, _ => 'x')
  }

  /** Longer than every declared path. */
  function Longest(specs: seq<Spec>): (n: nat)
    ensures forall i :: 0 <= i < |specs| && specs[i].path.Some? ==> |specs[i].path.value| <= n
  {
    if specs == [] then 0
    else
      var before, p := Longest(specs[..|specs| - 1]), specs[|specs| - 1].path;
      if p.Some? && |p.value| > before then |p.value| else before
  }

  /** Every such call has a partner: an inline text that is no declared path and reads otherwise. */
  lemma OtherSlot(m: Machine, rule: Rule, target: RunTarget)
    requires TaskOf(m, rule, target).Some? && Clear(m, rule, target) && NeedsSlot(m, rule)
    ensures !KeyIsFaithful(m, rule, target)
  {
    var specs := DeclaredSpecs(rule).value;
    var text := Repeat(Longest(specs) + |SlotOf(m, target)| + 1);
    var m' := m.(files := p => if p == text then None else m.files(p));
    var other := Reference(text);
    OtherMachine(m, m', rule, target, text);
    hide TaskOf, KeyOf, Clear, SlotOf, DeclaredSpecs, Load, KeyIsFaithful, RunWith, AdmissibleOracle, AuditsRunTarget;
    var i :| 0 <= i < |specs| && Load(m, specs[i]).readable;
    var o := SlotChangesVerdict(m, rule, target, m', rule, other, i);
    Unfaithful(m, rule, target, m', rule, other, o);
  }

  lemma OtherMachine(m: Machine, m': Machine, rule: Rule, target: RunTarget, text: string)
    requires TaskOf(m, rule, target).Some? && DeclaredSpecs(rule).value != [] && Clear(m, rule, target)
    requires |text| > Longest(DeclaredSpecs(rule).value) + |SlotOf(m, target)|
    requires m' == m.(files := m'.files) && m'.files(text) == None
    requires forall p :: p != text ==> m'.files(p) == m.files(p)
    ensures Clear(m', rule, Reference(text)) && KeyOf(m', rule, Reference(text)) == KeyOf(m, rule, target)
    ensures SlotOf(m', Reference(text)) != SlotOf(m, target)
  {
    hide StrategyOf, BuildPreimage, Lookalike, DeclaredSpecs, Longest;
    var specs := DeclaredSpecs(rule).value;
    forall i | 0 <= i < |specs| ensures Load(m', specs[i]) == Load(m, specs[i]) {}
    assert SpecEntries(m', specs) == SpecEntries(m, specs);
  }
}
