/** The evaluation cache's key and what equal keys determine of contexts and rules. The hash is
    an injective function, so a digest is its preimage. */
module CacheKey {
  import opened Wrappers
  import opened Json
  import opened Models
  import opened Assembly

  datatype Digest = Sha256(preimage: string)

  datatype OmittedFile = OmittedFile(path: string, content: Digest)

  /** One entry of the key's `targets` list. */
  datatype TargetEntry =
    | SpecEntry(id: string, kind: TargetKind, path: Option<string>, content: Digest)
    | SingleEntry(path: Option<string>, content: Digest)
    | ContextEntry(paths: seq<string>, content: Digest, omitted: seq<OmittedFile>, unreadable: seq<string>, budget: nat)

  // ---- affected context ----

  function OmittedEntries(files: seq<AffectedFile>): seq<OmittedFile> {
    seq(|files|, i requires 0 <= i < |files| => OmittedFile(files[i].name, Sha256(files[i].text)))
  }

  /** The affected-context branch of `_build_target_entries`. */
  function EntryOfContext(r: AssemblyResult): TargetEntry {
    ContextEntry(Labels(r.included), Sha256(r.text), OmittedEntries(r.omittedFiles), r.unreadable, r.budget)
  }

  /** Equal entries mean equal omitted files, content and all. */
  lemma OmittedDetermined(a: seq<AffectedFile>, b: seq<AffectedFile>)
    requires OmittedEntries(a) == OmittedEntries(b)
    ensures a == b
  {
    assert |a| == |OmittedEntries(a)| == |b|;
    forall i | 0 <= i < |a| ensures a[i] == b[i] {
      assert OmittedEntries(a)[i] == OmittedEntries(b)[i];
    }
  }

  /** tokens_full is a function of what the key stores. */
  lemma FullTokensFromKey(cs: seq<Candidate>, budget: nat)
    ensures var r := Assemble(cs, budget);
            && r.tokensFull == EstimateTokens(|r.text| + |JoinBlocks(r.omittedFiles)|
                                              + if |Labels(r.included)| > 0 && r.omittedFiles != [] then 2 else 0)
            && r.candidateCount == |Labels(r.included)| + |r.omittedFiles| + |r.unreadable|
  {
    hide EstimateTokens, JoinBlocks, SortedReadable, SortedUnreadable, Fit;
    var r := Assemble(cs, budget);
    assert r.included + r.omittedFiles == SortedReadable(cs);
    JoinLength(r.included, r.omittedFiles);
    SortedPartsCount(cs);
  }

  /** Two affected-context requests with equal target entries assemble the same text and
      report the same evidence, candidate_count and tokens_full included. */
  lemma ContextKeyDetermines(a: seq<Candidate>, budgetA: nat, b: seq<Candidate>, budgetB: nat)
    requires EntryOfContext(Assemble(a, budgetA)) == EntryOfContext(Assemble(b, budgetB))
    ensures var x, y := Assemble(a, budgetA), Assemble(b, budgetB);
            && x.text == y.text
            && ContextEvidence(x) == ContextEvidence(y)
            && WarningEvidence(x) == WarningEvidence(y)
  {
    hide EstimateTokens, JoinBlocks, SortedReadable, SortedUnreadable, Fit;
    var x, y := Assemble(a, budgetA), Assemble(b, budgetB);
    OmittedDetermined(x.omittedFiles, y.omittedFiles);
    FullTokensFromKey(a, budgetA);
    FullTokensFromKey(b, budgetB);
    assert |Labels(x.included)| == |Labels(y.included)|;
    assert x.tokensEstimated == EstimateTokens(|x.text|) && y.tokensEstimated == EstimateTokens(|y.text|);
  }

  // ---- rule content ----

  const SHAPING: set<string> := {"consensus_panel_size", "adaptive_escalate_on_quote_fabrication"}

  predicate IsAdaptive(key: string) { |key| >= 9 && key[..9] == "adaptive_" }

  /** The parameters hashed with the rule's text. */
  function PrunedParams(params: map<string, Json>): map<string, Json> {
    map k | k in params && k != "strategy" && k != "targets" && !IsAdaptive(k) :: params[k]
  }

  /** The parameters keyed in the strategy submap. */
  function ShapingParams(params: map<string, Json>): map<string, Json> {
    map k | k in params && k in SHAPING :: params[k]
  }

  /** The strategy parameter, "single" when absent; a value that is no string names no
      strategy. */
  function StrategyId(params: map<string, Json>): Json {
    if "strategy" in params then params["strategy"] else JStr("single")
  }

  /** The options of a run that its keys hold. */
  datatype Settings = Settings(provider: string, model: string, deterministic: bool,
                               artifactKind: Option<TargetKind>, n: nat)

  /** An undeclared artifact kind is keyed like a declared "unspecified". */
  function KeyKind(kind: Option<TargetKind>): TargetKind { if kind.None? then Unspecified else kind.value }

  /** The key's preimage; `text` and the params stand under the rule-content hash, which is
      injective. */
  datatype Preimage = Preimage(provider: string, model: string, text: string, kind: string, targetKind: TargetKind,
                               params: map<string, Json>, targets: seq<TargetEntry>, strategy: Json,
                               shaping: map<string, Json>, deterministic: bool, artifactKind: TargetKind, n: nat)

  function BuildPreimage(rule: Rule, targets: seq<TargetEntry>, s: Settings): Preimage {
    Preimage(s.provider, s.model, rule.text, rule.kind, rule.targetKind, PrunedParams(rule.params), targets,
             StrategyId(rule.params), ShapingParams(rule.params), s.deterministic, KeyKind(s.artifactKind), s.n)
  }

  /** The key holds the parameter: all but the strategy, the declared targets and the adaptive ones,
      apart from the two that shape a strategy. */
  predicate Keyed(k: string) {
    || k == "consensus_panel_size" || k == "adaptive_escalate_on_quote_fabrication"
    || (k != "strategy" && k != "targets" && !("adaptive_" <= k))
  }

  /** Both lack the parameter, or both have it with the same value. */
  predicate SameParam(a: map<string, Json>, b: map<string, Json>, k: string) {
    (k in a <==> k in b) && (k in a ==> a[k] == b[k])
  }

  predicate SameStrategy(a: map<string, Json>, b: map<string, Json>) {
    && ("strategy" in a && "strategy" in b ==> a["strategy"] == b["strategy"])
    && ("strategy" in a && "strategy" !in b ==> a["strategy"] == JStr("single"))
    && ("strategy" !in a && "strategy" in b ==> b["strategy"] == JStr("single"))
  }

  predicate SameKind(a: Option<TargetKind>, b: Option<TargetKind>) {
    a == b || (a.None? && b == Some(Unspecified)) || (a == Some(Unspecified) && b.None?)
  }

  /** Exactly what equal preimages mean: nothing of a rule but its text, its kinds, the keyed
      parameters and its strategy, the target entries, and the settings, an undeclared artifact kind
      being "unspecified". A rule's id, title, location, severity and confidence are not in the key. */
  lemma PreimageIff(a: Rule, b: Rule, targetsA: seq<TargetEntry>, targetsB: seq<TargetEntry>, x: Settings, y: Settings)
    ensures BuildPreimage(a, targetsA, x) == BuildPreimage(b, targetsB, y)
        <==> && a.text == b.text && a.kind == b.kind && a.targetKind == b.targetKind && targetsA == targetsB
             && SameStrategy(a.params, b.params)
             && (forall k :: Keyed(k) ==> SameParam(a.params, b.params, k))
             && x.provider == y.provider && x.model == y.model && x.deterministic == y.deterministic && x.n == y.n
             && SameKind(x.artifactKind, y.artifactKind)
  {
    forall k ensures IsAdaptive(k) <==> "adaptive_" <= k { assert |k| >= 9 ==> k[..9] == k[0..9]; }
    ParamsIff(a.params, b.params);
    hide PrunedParams, ShapingParams, SameParam, Keyed, IsAdaptive;
  }

  lemma ParamsIff(a: map<string, Json>, b: map<string, Json>)
    ensures PrunedParams(a) == PrunedParams(b) && ShapingParams(a) == ShapingParams(b)
        <==> forall k :: Keyed(k) ==> SameParam(a, b, k)
  {
    forall k ensures Keyed(k) <==> k in SHAPING || (k != "strategy" && k != "targets" && !IsAdaptive(k)) {
      KeyedIs(k);
    }
    hide Keyed, IsAdaptive;
    if PrunedParams(a) == PrunedParams(b) && ShapingParams(a) == ShapingParams(b) {
      forall k | Keyed(k) ensures SameParam(a, b, k) {
        assert k in PrunedParams(a) <==> k in PrunedParams(b);
        assert k in ShapingParams(a) <==> k in ShapingParams(b);
      }
    }
    if forall k :: Keyed(k) ==> SameParam(a, b, k) {
      forall k
        ensures SameParam(PrunedParams(a), PrunedParams(b), k) && SameParam(ShapingParams(a), ShapingParams(b), k)
      {
        assert Keyed(k) ==> SameParam(a, b, k);
      }
      SameMaps(PrunedParams(a), PrunedParams(b));
      SameMaps(ShapingParams(a), ShapingParams(b));
    }
  }

  lemma KeyedIs(k: string)
    ensures Keyed(k) <==> k in SHAPING || (k != "strategy" && k != "targets" && !IsAdaptive(k))
  {
    assert |k| >= 9 ==> ("adaptive_" <= k <==> k[..9] == "adaptive_");
  }

  lemma SameMaps(a: map<string, Json>, b: map<string, Json>)
    requires forall k :: SameParam(a, b, k)
    ensures a == b
  {
    forall k ensures k in a <==> k in b { assert SameParam(a, b, k); }
    forall k | k in a ensures a[k] == b[k] { assert SameParam(a, b, k); }
  }

  /** The parameters the judging and scoping code looks up. */
  const READ_PARAMS: set<string> :=
    {"consensus_panel_size", "adaptive_escalate_on_quote_fabrication", "token_budget", "target_scope"}

  /** Rules with equal preimages read alike wherever judging looks, whatever their ids, titles,
      locations, severities and other adaptive parameters are; only the run target and the
      declared-or-not of the artifact kind remain open. */
  lemma PreimageDeterminesRule(a: Rule, b: Rule, targetsA: seq<TargetEntry>, targetsB: seq<TargetEntry>,
                               x: Settings, y: Settings)
    requires BuildPreimage(a, targetsA, x) == BuildPreimage(b, targetsB, y)
    ensures a.text == b.text && a.targetKind == b.targetKind && targetsA == targetsB
    ensures x.(artifactKind := None) == y.(artifactKind := None) && KeyKind(x.artifactKind) == KeyKind(y.artifactKind)
    ensures StrategyId(a.params) == StrategyId(b.params)
    ensures forall k :: k in READ_PARAMS ==> Get(a.params, k) == Get(b.params, k)
  {
    forall k | k in READ_PARAMS ensures Get(a.params, k) == Get(b.params, k) {
      ReadFromKey(a.params, k);
      ReadFromKey(b.params, k);
    }
  }

  lemma ReadFromKey(params: map<string, Json>, k: string)
    requires k in READ_PARAMS
    ensures Get(params, k) == if k in SHAPING then Get(ShapingParams(params), k) else Get(PrunedParams(params), k)
  {
    if k !in SHAPING {
      assert k == "token_budget" || k == "target_scope";
      assert k[0] == 't' && "adaptive_"[0] == 'a' && k[..9][0] == k[0];
      assert !IsAdaptive(k);
    }
  }
}
