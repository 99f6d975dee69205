/** What the loaders accept: a document loads as a value exactly when it describes it, field by field. */
module Schema {
  import opened Wrappers
  import opened Json
  import opened Models

  // ---- enum values as documents spell them ----

  lemma StatusNames()
    ensures StatusName(PASS) == "pass" && StatusName(FAIL) == "fail" && StatusName(UNAVAILABLE) == "unavailable"
    ensures StatusName(UNSUPPORTED) == "unsupported" && StatusName(ERROR) == "error"
  {}

  lemma BackendNames()
    ensures BackendName(Filesystem) == "filesystem" && BackendName(Github) == "github"
    ensures BackendName(LlmRubric) == "llm-rubric" && BackendName(External) == "external"
  {}

  lemma LevelNames()
    ensures SeverityName(SevError) == "error" && SeverityName(SevWarning) == "warning"
    ensures SeverityName(SevAdvisory) == "advisory"
    ensures ConfidenceName(High) == "high" && ConfidenceName(Medium) == "medium" && ConfidenceName(Low) == "low"
  {}

  lemma TargetKindNames()
    ensures TargetKindName(Unspecified) == "unspecified" && TargetKindName(PrDescription) == "pr_description"
    ensures TargetKindName(CommitMessage) == "commit_message" && TargetKindName(IssueBody) == "issue_body"
    ensures TargetKindName(Documentation) == "documentation" && TargetKindName(CodeChange) == "code_change"
  {}

  lemma StatusIff(v: Json, s: Status, context: string)
    ensures ToStatus(v, context) == Ok(s) <==> v == JStr(StatusName(s))
  {
    StatusRoundTrip(s, context);
    CoerceOk([PASS, FAIL, UNAVAILABLE, UNSUPPORTED, ERROR], StatusName, v, context);
    hide StatusName, CoerceEnum;
  }

  lemma BackendIff(v: Json, b: Backend, context: string)
    ensures ToBackend(v, context) == Ok(b) <==> v == JStr(BackendName(b))
  {
    BackendRoundTrip(b, context);
    CoerceOk([Filesystem, Github, LlmRubric, External], BackendName, v, context);
    hide BackendName, CoerceEnum;
  }

  lemma SeverityIff(v: Json, s: Severity, context: string)
    ensures ToSeverity(v, context) == Ok(s) <==> v == JStr(SeverityName(s))
  {
    SeverityRoundTrip(s, context);
    CoerceOk([SevError, SevWarning, SevAdvisory], SeverityName, v, context);
    hide SeverityName, CoerceEnum;
  }

  lemma ConfidenceIff(v: Json, c: Confidence, context: string)
    ensures ToConfidence(v, context) == Ok(c) <==> v == JStr(ConfidenceName(c))
  {
    ConfidenceRoundTrip(c, context);
    CoerceOk([High, Medium, Low], ConfidenceName, v, context);
    hide ConfidenceName, CoerceEnum;
  }

  // ---- documents and the values they describe ----

  predicate Describes(v: Json, o: Option<string>) { v == if o.None? then JNull else JStr(o.value) }

  predicate HasFields(v: Json, required: set<string>, optional: set<string>) {
    v.JObj? && required <= v.fields.Keys <= required + optional
  }

  predicate DescribesSource(v: Json, s: SourceLocation) {
    && HasFields(v, {"path", "line"}, {"heading"})
    && v.fields["path"] == JStr(s.path) && v.fields["line"] == JInt(s.line) && s.line >= 1
    && Describes(Get(v.fields, "heading"), s.heading)
  }

  predicate DescribesEvidence(v: Json, e: Evidence) {
    && HasFields(v, {"kind", "data"}, {})
    && v.fields["kind"] == JStr(e.kind) && v.fields["data"] == JObj(e.data)
  }

  predicate DescribesDiagnostic(v: Json, d: Diagnostic) {
    && HasFields(v, {"rule_id", "source", "backend", "status", "severity", "message", "evidence"}, {"remediation"})
    && v.fields["rule_id"] == JStr(d.ruleId) && DescribesSource(v.fields["source"], d.source)
    && v.fields["backend"] == JStr(BackendName(d.backend)) && v.fields["status"] == JStr(StatusName(d.status))
    && v.fields["severity"] == JStr(SeverityName(d.severity)) && v.fields["message"] == JStr(d.message)
    && v.fields["evidence"].JArr? && |v.fields["evidence"].items| == |d.evidence|
    && (forall i :: 0 <= i < |d.evidence| ==> DescribesEvidence(v.fields["evidence"].items[i], d.evidence[i]))
    && Describes(Get(v.fields, "remediation"), d.remediation)
  }

  /** A confidence between nothing and one, as an integer or a real; a boolean is none. */
  predicate DescribesShare(v: Json, o: Option<real>) {
    match o
    case None => v == JNull
    case Some(x) => 0.0 <= x <= 1.0 && (v == JReal(x) || (v.JInt? && v.n as real == x))
  }

  predicate DescribesRule(v: Json, r: Rule) {
    && HasFields(v, RULE_REQUIRED, RULE_OPTIONAL)
    && Get(v.fields, "id") == JStr(r.id) && Get(v.fields, "title") == JStr(r.title)
    && DescribesSource(Get(v.fields, "source"), r.source) && Get(v.fields, "text") == JStr(r.text)
    && Get(v.fields, "kind") == JStr(r.kind) && r.kind in RULE_KINDS
    && Get(v.fields, "severity") == JStr(SeverityName(r.severity))
    && Get(v.fields, "backend_hint") == JStr(BackendName(r.backendHint))
    && Get(v.fields, "confidence") == JStr(ConfidenceName(r.confidence))
    && Get(v.fields, "params") == JObj(r.params)
    && (Get(v.fields, "target_kind") == JStr(TargetKindName(r.targetKind))
        || (Get(v.fields, "target_kind") == JNull && r.targetKind == Unspecified))
    && Describes(Get(v.fields, "suggested_backend"), r.suggestedBackend)
    && DescribesShare(Get(v.fields, "suggestion_confidence"), r.suggestionConfidence)
    && Describes(Get(v.fields, "suggestion_rationale"), r.suggestionRationale)
  }

  // ---- loading is describing ----

  lemma OptionalIff(v: Json, o: Option<string>, context: string)
    ensures ExpectOptionalStr(v, context) == Ok(o) <==> Describes(v, o)
  {}

  lemma SourceIff(v: Json, s: SourceLocation)
    ensures SourceFromDict(v) == Ok(s) <==> DescribesSource(v, s)
  {
    if v.JObj? { OptionalIff(Get(v.fields, "heading"), s.heading, "SourceLocation.heading"); }
    hide ExpectOptionalStr, Describes;
  }

  lemma EvidenceIff(v: Json, e: Evidence)
    ensures EvidenceFromDict(v) == Ok(e) <==> DescribesEvidence(v, e)
  {}

  lemma {:induction false} EvidenceListIff(items: seq<Json>, es: seq<Evidence>)
    ensures EvidenceListFromDict(items) == Ok(es)
        <==> |items| == |es| && forall i :: 0 <= i < |es| ==> DescribesEvidence(items[i], es[i])
  {
    hide DescribesEvidence, EvidenceFromDict;
    if items == [] {
    } else if es != [] {
      EvidenceIff(items[0], es[0]);
      EvidenceListIff(items[1..], es[1..]);
      assert es == [es[0]] + es[1..];
      if EvidenceListFromDict(items) == Ok(es) { ListHead(items, es); }
    }
  }

  lemma ListHead(items: seq<Json>, es: seq<Evidence>)
    requires items != [] && es != [] && EvidenceListFromDict(items) == Ok(es)
    ensures EvidenceFromDict(items[0]) == Ok(es[0]) && EvidenceListFromDict(items[1..]) == Ok(es[1..])
  {
    hide EvidenceFromDict;
    var tail := EvidenceListFromDict(items[1..]).value;
    assert es == [EvidenceFromDict(items[0]).value] + tail;
  }

  /** A diagnostic loads exactly from the documents that describe it. */
  lemma DiagnosticIff(v: Json, d: Diagnostic)
    ensures DiagnosticFromDict(v) == Ok(d) <==> DescribesDiagnostic(v, d)
  {
    if HasFields(v, {"rule_id", "source", "backend", "status", "severity", "message", "evidence"}, {"remediation"}) {
      SourceIff(v.fields["source"], d.source);
      BackendIff(v.fields["backend"], d.backend, "Diagnostic.backend");
      StatusIff(v.fields["status"], d.status, "Diagnostic.status");
      SeverityIff(v.fields["severity"], d.severity, "Diagnostic.severity");
      if v.fields["evidence"].JArr? { EvidenceListIff(v.fields["evidence"].items, d.evidence); }
      OptionalIff(Get(v.fields, "remediation"), d.remediation, "Diagnostic.remediation");
    }
    hide SourceFromDict, DescribesSource, ToBackend, ToStatus, ToSeverity, BackendName, StatusName, SeverityName,
         EvidenceListFromDict, DescribesEvidence, ExpectOptionalStr, Describes, Get;
  }

  lemma ShareIff(v: Json, o: Option<real>)
    ensures SuggestionConfidence(v) == Ok(o) <==> DescribesShare(v, o)
  {}

  /** A rule loads exactly from the documents that describe it. */
  lemma RuleIff(v: Json, r: Rule)
    ensures RuleFromDict(v) == Ok(r) <==> DescribesRule(v, r)
  {
    if HasFields(v, RULE_REQUIRED, RULE_OPTIONAL) {
      SourceIff(Get(v.fields, "source"), r.source);
      BackendIff(Get(v.fields, "backend_hint"), r.backendHint, "Rule.backend_hint");
      SeverityIff(Get(v.fields, "severity"), r.severity, "Rule.severity");
      ConfidenceIff(Get(v.fields, "confidence"), r.confidence, "Rule.confidence");
      TargetKindIff(Get(v.fields, "target_kind"), r.targetKind, "Rule.target_kind");
      ShareIff(Get(v.fields, "suggestion_confidence"), r.suggestionConfidence);
      OptionalIff(Get(v.fields, "suggested_backend"), r.suggestedBackend, "Rule.suggested_backend");
      OptionalIff(Get(v.fields, "suggestion_rationale"), r.suggestionRationale, "Rule.suggestion_rationale");
      RequiredRead(v.fields);
    }
    hide SourceFromDict, DescribesSource, ToBackend, ToConfidence, ToSeverity, ToTargetKind, BackendName,
         ConfidenceName, SeverityName, TargetKindName, SuggestionConfidence, DescribesShare, ExpectOptionalStr,
         Describes, Get,
         RULE_REQUIRED, RULE_OPTIONAL, RULE_KINDS;
  }

  lemma RequiredRead(d: map<string, Json>)
    requires RULE_REQUIRED <= d.Keys
    ensures forall k :: k in RULE_REQUIRED ==> Get(d, k) == d[k]
    ensures {"id", "title", "source", "text", "kind", "severity", "backend_hint", "confidence", "params"} <= d.Keys
    ensures Get(d, "id") == d["id"] && Get(d, "title") == d["title"] && Get(d, "source") == d["source"]
    ensures Get(d, "text") == d["text"] && Get(d, "kind") == d["kind"] && Get(d, "severity") == d["severity"]
    ensures Get(d, "backend_hint") == d["backend_hint"] && Get(d, "confidence") == d["confidence"]
    ensures Get(d, "params") == d["params"]
  {}
}
