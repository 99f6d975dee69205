/** The evaluation cache as `validate` uses it: lookup, rehydration, storing, and what makes
    its contents sound. */
module EvalCache {
  import opened Wrappers
  import opened Json
  import opened Models
  import opened CacheKey

  /** What the cache files parse to, by key; an unreadable or undecodable file is absent. */
  type Cache = map<Preimage, Json>

  const HIT := "cache_hit"

  /** Python's `v == 1`. */
  predicate EqualsOne(v: Json) { v == JInt(1) || v == JBool(true) || v == JReal(1.0) }

  /** `lookup`: a missing file, a non-mapping or an unknown schema version is a miss. */
  function Lookup(cache: Cache, key: Preimage): Option<map<string, Json>> {
    if key in cache && cache[key].JObj? && EqualsOne(Get(cache[key].fields, "cache_schema_version"))
    then Some(cache[key].fields) else None
  }

  function Marker(entry: map<string, Json>): Evidence {
    Evidence(HIT, map["cache_hit" := JBool(true),
                      "cached_at" := if "created_at" in entry then entry["created_at"] else JStr(""),
                      "provider_calls" := JInt(0), "cost_usd" := JInt(0)])
  }

  /** The current rule's identity on someone's diagnostic. */
  function Identify(d: Diagnostic, rule: Rule): Diagnostic {
    d.(ruleId := rule.id, source := rule.source, severity := rule.severity)
  }

  /** `rehydrate`. */
  function Rehydrate(entry: map<string, Json>, rule: Rule): Option<Diagnostic> {
    if "diagnostic" !in entry then None
    else
      match DiagnosticFromDict(entry["diagnostic"])
      case Err(_) => None
      case Ok(d) => Some(Identify(d, rule).(evidence := d.evidence + [Marker(entry)]))
  }

  /** `try_lookup` with a configured provider. */
  function TryLookup(cache: Cache, key: Preimage, rule: Rule): Option<Diagnostic> {
    var entry := Lookup(cache, key);
    if entry.None? then None else Rehydrate(entry.value, rule)
  }

  function EntryFor(created: string, d: Diagnostic): Json {
    JObj(map["cache_schema_version" := JInt(1), "created_at" := JStr(created), "diagnostic" := DiagnosticToDict(d)])
  }

  /** `store`: only PASS and FAIL are written. */
  function Store(cache: Cache, key: Preimage, created: string, d: Diagnostic): Cache {
    if d.status == PASS || d.status == FAIL then cache[key := EntryFor(created, d)] else cache
  }

  /** The diagnostic under a rule's identity, with one record of the hit after its evidence. */
  predicate IsHitOf(hit: Diagnostic, d: Diagnostic, rule: Rule, created: Json) {
    && hit.ruleId == rule.id && hit.source == rule.source && hit.severity == rule.severity
    && hit.backend == d.backend && hit.status == d.status && hit.message == d.message
    && hit.remediation == d.remediation
    && |hit.evidence| == |d.evidence| + 1 && hit.evidence[..|d.evidence|] == d.evidence
    && var mark := hit.evidence[|d.evidence|];
       && mark.kind == "cache_hit"
       && Get(mark.data, "cache_hit") == JBool(true) && Get(mark.data, "cached_at") == created
       && Get(mark.data, "provider_calls") == JInt(0) && Get(mark.data, "cost_usd") == JInt(0)
  }

  /** The file's entry can be used: a mapping of the known version whose diagnostic loads. */
  ghost predicate IsEntry(v: Json, d: Diagnostic) {
    && v.JObj?
    && (Get(v.fields, "cache_schema_version") == JInt(1) || Get(v.fields, "cache_schema_version") == JReal(1.0)
        || Get(v.fields, "cache_schema_version") == JBool(true))
    && "diagnostic" in v.fields && DiagnosticFromDict(v.fields["diagnostic"]) == Ok(d)
  }

  /** A lookup hits exactly on usable entries, and anything else under the key is a miss. */
  lemma LookupMeaning(cache: Cache, key: Preimage, rule: Rule)
    ensures TryLookup(cache, key, rule).Some? <==> key in cache && exists d :: IsEntry(cache[key], d)
    ensures forall d :: key in cache && IsEntry(cache[key], d) ==>
              TryLookup(cache, key, rule).Some?
              && IsHitOf(TryLookup(cache, key, rule).value, d, rule,
                         if "created_at" in cache[key].fields then cache[key].fields["created_at"] else JStr(""))
  {
    hide DiagnosticFromDict;
    if key in cache && cache[key].JObj? && "diagnostic" in cache[key].fields {
      var loaded := DiagnosticFromDict(cache[key].fields["diagnostic"]);
      if loaded.Ok? { assert TryLookup(cache, key, rule).Some? ==> IsEntry(cache[key], loaded.value); }
    }
  }

  // ---- markers ----

  predicate IsMarker(e: Evidence) { e.kind == HIT }

  /** Evidence without the records cache hits add. */
  function Unmark(evidence: seq<Evidence>): seq<Evidence> {
    if evidence == [] then []
    else (if IsMarker(evidence[0]) then [] else [evidence[0]]) + Unmark(evidence[1..])
  }

  function Marks(evidence: seq<Evidence>): nat {
    if evidence == [] then 0 else (if IsMarker(evidence[0]) then 1 else 0) + Marks(evidence[1..])
  }

  lemma {:induction false} UnmarkConcat(a: seq<Evidence>, b: seq<Evidence>)
    ensures Unmark(a + b) == Unmark(a) + Unmark(b) && Marks(a + b) == Marks(a) + Marks(b)
  {
    hide IsMarker;
    if a == [] {
      assert a + b == b;
    } else {
      UnmarkConcat(a[1..], b);
      assert (a + b)[1..] == a[1..] + b;
      var head := if IsMarker(a[0]) then [] else [a[0]];
      assert head + (Unmark(a[1..]) + Unmark(b)) == head + Unmark(a[1..]) + Unmark(b);
    }
  }

  lemma {:induction false} UnmarkNothing(a: seq<Evidence>)
    requires Marks(a) == 0
    ensures Unmark(a) == a
  {
    if a == [] {
    } else {
      UnmarkNothing(a[1..]);
    }
  }

  /** A hit is the remembered diagnostic under the current rule's identity plus exactly one
      marker, however often the entry is hit. */
  lemma HitIsMarkedOnce(cache: Cache, key: Preimage, rule: Rule, d: Diagnostic)
    requires key in cache && exists created :: cache[key] == EntryFor(created, d)
    requires d.source.line >= 1 && Marks(d.evidence) == 0
    ensures TryLookup(cache, key, rule).Some?
    ensures var hit := TryLookup(cache, key, rule).value;
            && hit.ruleId == rule.id && hit.source == rule.source && hit.severity == rule.severity
            && hit == Identify(d, rule).(evidence := hit.evidence)
            && Marks(hit.evidence) == 1 && Unmark(hit.evidence) == d.evidence
  {
    hide DiagnosticFromDict, DiagnosticToDict;
    DiagnosticRoundTrip(d);
    var entry := cache[key].fields;
    UnmarkConcat(d.evidence, [Marker(entry)]);
    UnmarkNothing(d.evidence);
    OneMarker(entry);
  }

  /** An entry whose diagnostic does not load is a miss. */
  lemma UnloadableMisses(cache: Cache, key: Preimage, rule: Rule, created: string, d: Diagnostic)
    requires key in cache && cache[key] == EntryFor(created, d) && d.source.line < 1
    ensures TryLookup(cache, key, rule).None?
  {
    hide DiagnosticFromDict, DiagnosticToDict;
    DiagnosticUnloadable(d);
  }

  lemma OneMarker(entry: map<string, Json>)
    ensures Marks([Marker(entry)]) == 1 && Unmark([Marker(entry)]) == []
  {
    assert [Marker(entry)][1..] == [];
  }
}
