/** The rule IR and diagnostic schema, with `to_dict` and `from_dict` as conversions
    between values and JSON. */
module Models {
  import opened Wrappers
  import opened Json

  datatype Backend = Filesystem | Github | LlmRubric | External

  datatype Status = PASS | FAIL | UNAVAILABLE | UNSUPPORTED | ERROR

  datatype Severity = SevError | SevWarning | SevAdvisory

  datatype Confidence = High | Medium | Low

  datatype TargetKind = Unspecified | PrDescription | CommitMessage | IssueBody | Documentation | CodeChange

  /** The members of the string enum RuleKind. */
  const RULE_KINDS: set<string> :=
    {"file_exists", "file_absent", "path_matches", "text_required", "text_forbidden",
     "markdown_tasks_complete", "markdown_evidence_block", "github_pr_open", "github_not_draft",
     "github_labels_absent", "github_tasks_complete", "github_checks_success",
     "github_threads_resolved", "github_non_author_approval", "github_changed_files_absent",
     "changed_file_policy", "semantic_rubric", "external_check"}

  datatype SourceLocation = SourceLocation(path: string, line: int, heading: Option<string>)

  datatype Rule = Rule(id: string, title: string, source: SourceLocation, text: string, kind: string,
                       severity: Severity, backendHint: Backend, confidence: Confidence,
                       params: map<string, Json>, targetKind: TargetKind,
                       suggestedBackend: Option<string>, suggestionConfidence: Option<real>,
                       suggestionRationale: Option<string>)

  datatype Evidence = Evidence(kind: string, data: map<string, Json>)

  datatype Diagnostic = Diagnostic(ruleId: string, source: SourceLocation, backend: Backend, status: Status,
                                   severity: Severity, message: string, evidence: seq<Evidence>,
                                   remediation: Option<string>)

  // ---- enum values ----

  function BackendName(b: Backend): string {
    match b
    case Filesystem => "filesystem"
    case Github => "github"
    case LlmRubric => "llm-rubric"
    case External => "external"
  }

  function StatusName(s: Status): string {
    match s
    case PASS => "pass"
    case FAIL => "fail"
    case UNAVAILABLE => "unavailable"
    case UNSUPPORTED => "unsupported"
    case ERROR => "error"
  }

  function SeverityName(s: Severity): string {
    match s
    case SevError => "error"
    case SevWarning => "warning"
    case SevAdvisory => "advisory"
  }

  function ConfidenceName(c: Confidence): string {
    match c
    case High => "high"
    case Medium => "medium"
    case Low => "low"
  }

  function TargetKindName(k: TargetKind): string {
    match k
    case Unspecified => "unspecified"
    case PrDescription => "pr_description"
    case CommitMessage => "commit_message"
    case IssueBody => "issue_body"
    case Documentation => "documentation"
    case CodeChange => "code_change"
  }

  datatype LoadError =
    | NotMapping(context: string)
    | MissingFields(context: string)
    | UnknownFields(context: string)
    | WrongType(context: string)
    | BadValue(context: string)
    | DuplicateIds

  /** `_coerce_enum` over the listed members. */
  function CoerceEnum<T>(members: seq<T>, name: T -> string, value: Json, context: string): Result<T, LoadError> {
    if members == [] then Err(BadValue(context))
    else if value == JStr(name(members[0])) then Ok(members[0])
    else CoerceEnum(members[1..], name, value, context)
  }

  function ToBackend(v: Json, context: string): Result<Backend, LoadError> {
    CoerceEnum([Filesystem, Github, LlmRubric, External], BackendName, v, context)
  }

  function ToStatus(v: Json, context: string): Result<Status, LoadError> {
    CoerceEnum([PASS, FAIL, UNAVAILABLE, UNSUPPORTED, ERROR], StatusName, v, context)
  }

  function ToSeverity(v: Json, context: string): Result<Severity, LoadError> {
    CoerceEnum([SevError, SevWarning, SevAdvisory], SeverityName, v, context)
  }

  function ToConfidence(v: Json, context: string): Result<Confidence, LoadError> {
    CoerceEnum([High, Medium, Low], ConfidenceName, v, context)
  }

  function ToTargetKind(v: Json, context: string): Result<TargetKind, LoadError> {
    CoerceEnum([Unspecified, PrDescription, CommitMessage, IssueBody, Documentation, CodeChange],
               TargetKindName, v, context)
  }

  /** Coercing a member's own value gives the member back when the values are distinct. */
  lemma {:induction false} CoerceOwn<T>(members: seq<T>, name: T -> string, i: nat, context: string)
    requires i < |members|
    requires forall j :: 0 <= j < i ==> name(members[j]) != name(members[i])
    ensures CoerceEnum(members, name, JStr(name(members[i])), context) == Ok(members[i])
  {
    if i == 0 {
    } else {
      CoerceOwn(members[1..], name, i - 1, context);
    }
  }

  lemma BackendRoundTrip(b: Backend, context: string)
    ensures ToBackend(JStr(BackendName(b)), context) == Ok(b)
  {
    CoerceOwn([Filesystem, Github, LlmRubric, External], BackendName,
              match b case Filesystem => 0 case Github => 1 case LlmRubric => 2 case External => 3, context);
  }

  lemma StatusRoundTrip(s: Status, context: string)
    ensures ToStatus(JStr(StatusName(s)), context) == Ok(s)
  {
    CoerceOwn([PASS, FAIL, UNAVAILABLE, UNSUPPORTED, ERROR], StatusName,
              match s case PASS => 0 case FAIL => 1 case UNAVAILABLE => 2 case UNSUPPORTED => 3 case ERROR => 4,
              context);
  }

  lemma SeverityRoundTrip(s: Severity, context: string)
    ensures ToSeverity(JStr(SeverityName(s)), context) == Ok(s)
  {
    CoerceOwn([SevError, SevWarning, SevAdvisory], SeverityName,
              match s case SevError => 0 case SevWarning => 1 case SevAdvisory => 2, context);
  }

  lemma ConfidenceRoundTrip(c: Confidence, context: string)
    ensures ToConfidence(JStr(ConfidenceName(c)), context) == Ok(c)
  {
    CoerceOwn([High, Medium, Low], ConfidenceName, match c case High => 0 case Medium => 1 case Low => 2, context);
  }

  lemma TargetKindRoundTrip(k: TargetKind, context: string)
    ensures ToTargetKind(JStr(TargetKindName(k)), context) == Ok(k)
  {
    CoerceOwn([Unspecified, PrDescription, CommitMessage, IssueBody, Documentation, CodeChange], TargetKindName,
              match k case Unspecified => 0 case PrDescription => 1 case CommitMessage => 2 case IssueBody => 3
                      case Documentation => 4 case CodeChange => 5, context);
  }

  /** Only a member's own value is coerced to it. */
  lemma {:induction false} CoerceOk<T>(members: seq<T>, name: T -> string, value: Json, context: string)
    ensures var r := CoerceEnum(members, name, value, context); r.Ok? ==> value == JStr(name(r.value))
  {
    if members == [] {
    } else {
      CoerceOk(members[1..], name, value, context);
    }
  }

  /** A kind is read exactly off its own name. */
  lemma TargetKindIff(v: Json, k: TargetKind, context: string)
    ensures ToTargetKind(v, context) == Ok(k) <==> v == JStr(TargetKindName(k))
  {
    TargetKindRoundTrip(k, context);
    CoerceOk([Unspecified, PrDescription, CommitMessage, IssueBody, Documentation, CodeChange], TargetKindName, v,
             context);
    hide TargetKindName, CoerceEnum;
  }

  // ---- field checks ----

  /** `_require_keys`. */
  function RequireKeys(data: Json, required: set<string>, optional: set<string>, context: string)
    : (r: Result<map<string, Json>, LoadError>)
    ensures r.Ok? <==> data.JObj? && required <= data.fields.Keys <= required + optional
    ensures r.Ok? ==> r.value == data.fields
  {
    if !data.JObj? then Err(NotMapping(context))
    else if !(required <= data.fields.Keys) then Err(MissingFields(context))
    else if !(data.fields.Keys <= required + optional) then Err(UnknownFields(context))
    else Ok(data.fields)
  }

  function ExpectStr(v: Json, context: string): Result<string, LoadError> {
    if v.JStr? then Ok(v.s) else Err(WrongType(context))
  }

  function ExpectOptionalStr(v: Json, context: string): Result<Option<string>, LoadError> {
    match v
    case JNull => Ok(None)
    case JStr(s) => Ok(Some(s))
    case _ => Err(WrongType(context))
  }

  /** An optional entry of an emitted mapping. */
  function Optional(key: string, v: Option<string>): map<string, Json> {
    if v.Some? then map[key := JStr(v.value)] else map[]
  }

  // ---- SourceLocation ----

  function SourceFromDict(data: Json): (r: Result<SourceLocation, LoadError>)
    ensures r.Ok? ==> r.value.line >= 1
  {
    var d :- RequireKeys(data, {"path", "line"}, {"heading"}, "SourceLocation");
    if !d["line"].JInt? then Err(WrongType("SourceLocation.line"))
    else if d["line"].n < 1 then Err(BadValue("SourceLocation.line"))
    else
      var path :- ExpectStr(d["path"], "SourceLocation.path");
      var heading :- ExpectOptionalStr(Get(d, "heading"), "SourceLocation.heading");
      Ok(SourceLocation(path, d["line"].n, heading))
  }

  function SourceToDict(s: SourceLocation): Json {
    JObj(map["path" := JStr(s.path), "line" := JInt(s.line)] + Optional("heading", s.heading))
  }

  /** A location reloads exactly when its line number is 1-based. */
  lemma SourceRoundTrip(s: SourceLocation)
    ensures SourceFromDict(SourceToDict(s)) == Ok(s) <==> s.line >= 1
  {}

  // ---- Evidence and Diagnostic ----

  function EvidenceFromDict(data: Json): Result<Evidence, LoadError> {
    var d :- RequireKeys(data, {"kind", "data"}, {}, "Evidence");
    var kind :- ExpectStr(d["kind"], "Evidence.kind");
    if d["data"].JObj? then Ok(Evidence(kind, d["data"].fields)) else Err(WrongType("Evidence.data"))
  }

  function EvidenceToDict(e: Evidence): Json {
    JObj(map["kind" := JStr(e.kind), "data" := JObj(e.data)])
  }

  lemma EvidenceRoundTrip(e: Evidence)
    ensures EvidenceFromDict(EvidenceToDict(e)) == Ok(e)
  {}

  function EvidenceListFromDict(items: seq<Json>): Result<seq<Evidence>, LoadError> {
    if items == [] then Ok([])
    else
      var head :- EvidenceFromDict(items[0]);
      var tail :- EvidenceListFromDict(items[1..]);
      Ok([head] + tail)
  }

  function EvidenceListToDict(items: seq<Evidence>): seq<Json> {
    if items == [] then [] else [EvidenceToDict(items[0])] + EvidenceListToDict(items[1..])
  }

  lemma {:induction false} EvidenceListRoundTrip(items: seq<Evidence>)
    ensures EvidenceListFromDict(EvidenceListToDict(items)) == Ok(items)
  {
    if items == [] {
    } else {
      hide EvidenceFromDict, EvidenceToDict;
      EvidenceRoundTrip(items[0]);
      EvidenceListRoundTrip(items[1..]);
      assert items == [items[0]] + items[1..];
      assert EvidenceListToDict(items)[1..] == EvidenceListToDict(items[1..]);
    }
  }

  function DiagnosticFromDict(data: Json): (r: Result<Diagnostic, LoadError>)
    ensures r.Ok? ==> r.value.source.line >= 1
  {
    var d :- RequireKeys(data, {"rule_id", "source", "backend", "status", "severity", "message", "evidence"},
                         {"remediation"}, "Diagnostic");
    if !d["evidence"].JArr? then Err(WrongType("Diagnostic.evidence"))
    else
      var ruleId :- ExpectStr(d["rule_id"], "Diagnostic.rule_id");
      var source :- SourceFromDict(d["source"]);
      var backend :- ToBackend(d["backend"], "Diagnostic.backend");
      var status :- ToStatus(d["status"], "Diagnostic.status");
      var severity :- ToSeverity(d["severity"], "Diagnostic.severity");
      var message :- ExpectStr(d["message"], "Diagnostic.message");
      var evidence :- EvidenceListFromDict(d["evidence"].items);
      var remediation :- ExpectOptionalStr(Get(d, "remediation"), "Diagnostic.remediation");
      Ok(Diagnostic(ruleId, source, backend, status, severity, message, evidence, remediation))
  }

  function DiagnosticToDict(d: Diagnostic): Json {
    JObj(map["rule_id" := JStr(d.ruleId), "source" := SourceToDict(d.source), "backend" := JStr(BackendName(d.backend)),
             "status" := JStr(StatusName(d.status)), "severity" := JStr(SeverityName(d.severity)),
             "message" := JStr(d.message), "evidence" := JArr(EvidenceListToDict(d.evidence))]
         + Optional("remediation", d.remediation))
  }

  /** A diagnostic reloads exactly when its source line is 1-based. */
  lemma DiagnosticRoundTrip(d: Diagnostic)
    ensures DiagnosticFromDict(DiagnosticToDict(d)) == Ok(d) <==> d.source.line >= 1
  {
    hide SourceFromDict, SourceToDict, ToBackend, ToStatus, ToSeverity, EvidenceListFromDict, EvidenceListToDict;
    SourceRoundTrip(d.source);
    BackendRoundTrip(d.backend, "Diagnostic.backend");
    StatusRoundTrip(d.status, "Diagnostic.status");
    SeverityRoundTrip(d.severity, "Diagnostic.severity");
    EvidenceListRoundTrip(d.evidence);
  }

  /** Otherwise it does not load at all. */
  lemma DiagnosticUnloadable(d: Diagnostic)
    requires d.source.line < 1
    ensures DiagnosticFromDict(DiagnosticToDict(d)).Err?
  {
    assert SourceFromDict(SourceToDict(d.source)).Err?;
    EmittedSource(d);
    hide DiagnosticToDict, SourceFromDict, SourceToDict, ToBackend, ToStatus, ToSeverity, EvidenceListFromDict,
         ExpectOptionalStr, ExpectStr;
  }

  lemma EmittedSource(d: Diagnostic)
    ensures DiagnosticToDict(d).JObj?
    ensures var f := DiagnosticToDict(d).fields; "source" in f && f["source"] == SourceToDict(d.source)
  {
    hide SourceToDict, EvidenceListToDict, BackendName, StatusName, SeverityName;
  }

  // ---- Rule ----

  const RULE_REQUIRED: set<string> :=
    {"id", "title", "source", "text", "kind", "severity", "backend_hint", "confidence", "params"}

  const RULE_OPTIONAL: set<string> :=
    {"target_kind", "suggested_backend", "suggestion_confidence", "suggestion_rationale"}

  /** `suggestion_confidence`: absent, or a number in [0, 1]; a bool is not a number. */
  function SuggestionConfidence(v: Json): (r: Result<Option<real>, LoadError>)
    ensures r.Ok? && r.value.Some? ==> 0.0 <= r.value.value <= 1.0
  {
    match v
    case JNull => Ok(None)
    case JInt(n) => if 0 <= n <= 1 then Ok(Some(n as real)) else Err(BadValue("Rule.suggestion_confidence"))
    case JReal(r) => if 0.0 <= r <= 1.0 then Ok(Some(r)) else Err(BadValue("Rule.suggestion_confidence"))
    case _ => Err(WrongType("Rule.suggestion_confidence"))
  }

  predicate ValidRule(r: Rule) {
    && r.source.line >= 1
    && r.kind in RULE_KINDS
    && (r.suggestionConfidence.Some? ==> 0.0 <= r.suggestionConfidence.value <= 1.0)
  }

  function RuleFromDict(data: Json): (r: Result<Rule, LoadError>)
    ensures r.Ok? ==> ValidRule(r.value)
  {
    var d :- RequireKeys(data, RULE_REQUIRED, RULE_OPTIONAL, "Rule");
    var targetKind :- if Get(d, "target_kind").JNull? then Ok(Unspecified)
                      else ToTargetKind(Get(d, "target_kind"), "Rule.target_kind");
    var suggestion :- SuggestionConfidence(Get(d, "suggestion_confidence"));
    var id :- ExpectStr(d["id"], "Rule.id");
    var title :- ExpectStr(d["title"], "Rule.title");
    var source :- SourceFromDict(d["source"]);
    var text :- ExpectStr(d["text"], "Rule.text");
    var kind :- if d["kind"].JStr? && d["kind"].s in RULE_KINDS then Ok(d["kind"].s) else Err(BadValue("Rule.kind"));
    var severity :- ToSeverity(d["severity"], "Rule.severity");
    var backendHint :- ToBackend(d["backend_hint"], "Rule.backend_hint");
    var confidence :- ToConfidence(d["confidence"], "Rule.confidence");
    var params :- if d["params"].JObj? then Ok(d["params"].fields) else Err(WrongType("Rule.params"));
    var backend :- ExpectOptionalStr(Get(d, "suggested_backend"), "Rule.suggested_backend");
    var rationale :- ExpectOptionalStr(Get(d, "suggestion_rationale"), "Rule.suggestion_rationale");
    Ok(Rule(id, title, source, text, kind, severity, backendHint, confidence, params, targetKind,
            backend, suggestion, rationale))
  }

  /** The nine fields every emitted rule has. */
  function RuleBase(r: Rule): map<string, Json> {
    map["id" := JStr(r.id), "title" := JStr(r.title), "source" := SourceToDict(r.source), "text" := JStr(r.text),
        "kind" := JStr(r.kind), "severity" := JStr(SeverityName(r.severity)),
        "backend_hint" := JStr(BackendName(r.backendHint)), "confidence" := JStr(ConfidenceName(r.confidence)),
        "params" := JObj(r.params)]
  }

  /** The fields emitted only when set. */
  function RuleExtras(r: Rule): map<string, Json> {
    KindExtra(r) + BackendExtra(r) + ConfidenceExtra(r) + RationaleExtra(r)
  }

  function KindExtra(r: Rule): (m: map<string, Json>)
    ensures m.Keys <= {"target_kind"}
  {
    if r.targetKind != Unspecified then map["target_kind" := JStr(TargetKindName(r.targetKind))] else map[]
  }

  function BackendExtra(r: Rule): (m: map<string, Json>)
    ensures m.Keys <= {"suggested_backend"}
  {
    Optional("suggested_backend", r.suggestedBackend)
  }

  function ConfidenceExtra(r: Rule): (m: map<string, Json>)
    ensures m.Keys <= {"suggestion_confidence"}
  {
    if r.suggestionConfidence.None? then map[] else map["suggestion_confidence" := JReal(r.suggestionConfidence.value)]
  }

  function RationaleExtra(r: Rule): (m: map<string, Json>)
    ensures m.Keys <= {"suggestion_rationale"}
  {
    Optional("suggestion_rationale", r.suggestionRationale)
  }

  /** Each field is found in the part that can hold it. */
  lemma ExtraParts(r: Rule)
    ensures var d := RuleExtras(r);
            && Get(d, "target_kind") == Get(KindExtra(r), "target_kind")
            && Get(d, "suggested_backend") == Get(BackendExtra(r), "suggested_backend")
            && Get(d, "suggestion_confidence") == Get(ConfidenceExtra(r), "suggestion_confidence")
            && Get(d, "suggestion_rationale") == Get(RationaleExtra(r), "suggestion_rationale")
  {
    hide KindExtra, BackendExtra, ConfidenceExtra, RationaleExtra;
  }

  function RuleToDict(r: Rule): Json { JObj(RuleBase(r) + RuleExtras(r)) }

  lemma RuleBaseKeys(r: Rule)
    ensures RuleBase(r).Keys == RULE_REQUIRED
  {
    hide SourceToDict, SeverityName, BackendName, ConfidenceName;
  }

  lemma RuleExtraFields(r: Rule)
    ensures var d := RuleExtras(r);
            && d.Keys <= RULE_OPTIONAL
            && Get(d, "target_kind")
               == (if r.targetKind == Unspecified then JNull else JStr(TargetKindName(r.targetKind)))
            && Get(d, "suggested_backend")
               == (if r.suggestedBackend.None? then JNull else JStr(r.suggestedBackend.value))
            && Get(d, "suggestion_confidence")
               == (if r.suggestionConfidence.None? then JNull else JReal(r.suggestionConfidence.value))
            && Get(d, "suggestion_rationale")
               == (if r.suggestionRationale.None? then JNull else JStr(r.suggestionRationale.value))
  {
    ExtraParts(r);
    hide TargetKindName, RuleExtras;
    ExtraKeys(r);
  }

  lemma ExtraKeys(r: Rule)
    ensures RuleExtras(r).Keys <= RULE_OPTIONAL
  {
    hide KindExtra, BackendExtra, ConfidenceExtra, RationaleExtra;
  }

  lemma RequiredNotOptional()
    ensures RULE_REQUIRED !! RULE_OPTIONAL
  {}

  /** What the loader reads back from an emitted rule. */
  lemma RuleFields(r: Rule)
    ensures RuleToDict(r).JObj?
    ensures var d := RuleToDict(r).fields;
            && d.Keys == RULE_REQUIRED + RuleExtras(r).Keys && RULE_REQUIRED <= d.Keys <= RULE_REQUIRED + RULE_OPTIONAL
            && (forall k :: k in RULE_REQUIRED ==> k in RuleBase(r) && d[k] == RuleBase(r)[k])
            && (forall k :: k in RULE_OPTIONAL ==> Get(d, k) == Get(RuleExtras(r), k))
  {
    RuleBaseKeys(r);
    RuleExtraFields(r);
    RequiredNotOptional();
    hide RuleBase, RuleExtras, RULE_REQUIRED, RULE_OPTIONAL;
  }

  lemma RuleFieldsRead(r: Rule)
    ensures RuleToDict(r).JObj?
    ensures var d := RuleToDict(r).fields;
            && RULE_REQUIRED <= d.Keys <= RULE_REQUIRED + RULE_OPTIONAL
            && "id" in d && "title" in d && "source" in d && "text" in d && "kind" in d
            && "severity" in d && "backend_hint" in d && "confidence" in d && "params" in d
            && d["id"] == JStr(r.id) && d["title"] == JStr(r.title) && d["source"] == SourceToDict(r.source)
            && d["text"] == JStr(r.text) && d["kind"] == JStr(r.kind)
            && d["severity"] == JStr(SeverityName(r.severity)) && d["backend_hint"] == JStr(BackendName(r.backendHint))
            && d["confidence"] == JStr(ConfidenceName(r.confidence)) && d["params"] == JObj(r.params)
  {
    hide SourceToDict, SeverityName, BackendName, ConfidenceName, RuleExtras, RuleToDict;
    RuleFields(r);
  }

  lemma RuleOptionalsRead(r: Rule)
    ensures var d := RuleToDict(r).fields;
            && Get(d, "target_kind")
               == (if r.targetKind == Unspecified then JNull else JStr(TargetKindName(r.targetKind)))
            && Get(d, "suggested_backend")
               == (if r.suggestedBackend.None? then JNull else JStr(r.suggestedBackend.value))
            && Get(d, "suggestion_confidence")
               == (if r.suggestionConfidence.None? then JNull else JReal(r.suggestionConfidence.value))
            && Get(d, "suggestion_rationale")
               == (if r.suggestionRationale.None? then JNull else JStr(r.suggestionRationale.value))
  {
    hide TargetKindName, RuleBase, RuleExtras, RuleToDict, Get;
    RuleFields(r);
    RuleExtraFields(r);
  }

  /** A rule reloads exactly when it satisfies the schema's value constraints. */
  lemma RuleRoundTrip(r: Rule)
    ensures RuleFromDict(RuleToDict(r)) == Ok(r) <==> ValidRule(r)
  {
    hide RuleToDict, Get, SourceFromDict, SourceToDict, ToBackend, ToSeverity, ToConfidence, ToTargetKind,
         TargetKindName, BackendName, SeverityName, ConfidenceName, RULE_KINDS, RULE_REQUIRED, RULE_OPTIONAL;
    RuleFieldsRead(r);
    RuleOptionalsRead(r);
    SourceRoundTrip(r.source);
    BackendRoundTrip(r.backendHint, "Rule.backend_hint");
    SeverityRoundTrip(r.severity, "Rule.severity");
    ConfidenceRoundTrip(r.confidence, "Rule.confidence");
    TargetKindRoundTrip(r.targetKind, "Rule.target_kind");
  }

  // ---- RuleSet ----

  predicate DistinctIds(rules: seq<Rule>) {
    forall i, j :: 0 <= i < j < |rules| ==> rules[i].id != rules[j].id
  }

  function RulesFromDict(items: seq<Json>): (r: Result<seq<Rule>, LoadError>)
    ensures r.Ok? ==> forall i :: 0 <= i < |r.value| ==> ValidRule(r.value[i])
  {
    if items == [] then Ok([])
    else
      var head :- RuleFromDict(items[0]);
      var tail :- RulesFromDict(items[1..]);
      Ok([head] + tail)
  }

  function RulesToDict(rules: seq<Rule>): seq<Json> {
    if rules == [] then [] else [RuleToDict(rules[0])] + RulesToDict(rules[1..])
  }

  /** The loop that collects repeated ids. */
  method DuplicateRuleIds(rules: seq<Rule>) returns (duplicates: set<string>)
    ensures forall id :: id in duplicates <==> exists i, j :: 0 <= i < j < |rules| && rules[i].id == id == rules[j].id
  {
    var seen: set<string> := {};
    duplicates := {};
    for n := 0 to |rules|
      invariant forall id :: id in seen <==> exists i :: 0 <= i < n && rules[i].id == id
      invariant forall id :: id in duplicates <==> exists i, j :: 0 <= i < j < n && rules[i].id == id == rules[j].id
    {
      if rules[n].id in seen { duplicates := duplicates + {rules[n].id}; }
      seen := seen + {rules[n].id};
    }
  }

  /** `RuleSet.from_dict`. */
  function RuleSetFromDict(data: Json): (r: Result<seq<Rule>, LoadError>)
    ensures r.Ok? ==> DistinctIds(r.value) && forall i :: 0 <= i < |r.value| ==> ValidRule(r.value[i])
  {
    var d :- RequireKeys(data, {"rules"}, {}, "RuleSet");
    if !d["rules"].JArr? then Err(WrongType("RuleSet.rules"))
    else
      var rules :- RulesFromDict(d["rules"].items);
      if DistinctIds(rules) then Ok(rules) else Err(DuplicateIds)
  }

  function RuleSetToDict(rules: seq<Rule>): Json { JObj(map["rules" := JArr(RulesToDict(rules))]) }

  lemma {:induction false} RulesRoundTrip(rules: seq<Rule>)
    requires forall i :: 0 <= i < |rules| ==> ValidRule(rules[i])
    ensures RulesFromDict(RulesToDict(rules)) == Ok(rules)
  {
    hide RuleFromDict, RuleToDict, ValidRule;
    if rules == [] {
    } else {
      RuleRoundTrip(rules[0]);
      RulesRoundTrip(rules[1..]);
      assert rules == [rules[0]] + rules[1..];
      assert RulesToDict(rules)[1..] == RulesToDict(rules[1..]);
    }
  }

  /** What `compile` emits, `validate` loads back unchanged, exactly when every rule meets
      the schema and ids are distinct. */
  lemma RuleSetRoundTrip(rules: seq<Rule>)
    ensures RuleSetFromDict(RuleSetToDict(rules)) == Ok(rules)
        <==> DistinctIds(rules) && forall i :: 0 <= i < |rules| ==> ValidRule(rules[i])
  {
    hide RulesFromDict, RulesToDict, ValidRule;
    if forall i :: 0 <= i < |rules| ==> ValidRule(rules[i]) { RulesRoundTrip(rules); }
  }
}
