/** The four judgment strategies, driven by an arbitrary provider: decision logic, evidence
    and telemetry. */
module Strategies {
  import opened Wrappers
  import opened Json
  import opened Text
  import opened Grounding
  import opened EvidenceRefs
  import opened Models

  // ---- what the provider answers ----

  datatype Verdict = VPass | VFail | VUnsupported

  datatype Judgment = Judgment(verdict: Verdict, reason: string, quotes: seq<string>, refs: Option<seq<Json>>,
                               quoteTargets: Option<seq<Option<string>>>, action: Option<string>,
                               crossArtifact: bool)

  /** The schema's cross-field constraints. */
  predicate Admissible(j: Judgment) {
    && Strip(j.reason) != ""
    && (j.verdict != VUnsupported && j.refs.None? ==> j.quotes != [])
    && (j.verdict == VFail <==> j.action.Some?)
    && (j.action.Some? ==> Strip(j.action.value) != "")
    && (j.crossArtifact ==> j.verdict == VUnsupported)
  }

  datatype Telemetry = Telemetry(latency: nat, cost: Option<real>)

  /** One judge call: it raises, answers something unusable, or gives a judgment. */
  datatype Reply = Raised | Unparseable(t: Telemetry) | Answer(j: Judgment, t: Telemetry)

  predicate AdmissibleReply(r: Reply) { r.Answer? ==> Admissible(r.j) }

  datatype Audit = Agree | PassShouldFail | FailShouldPass | Abstain

  datatype AuditReply = AuditRaised | AuditUnparseable(t: Telemetry) | Audited(a: Audit, t: Telemetry)

  /** The provider as an adversary: call number n gets any reply whatsoever. */
  datatype Provider = Provider(judge: nat -> Reply, audit: nat -> AuditReply)

  ghost predicate AdmissibleProvider(p: Provider) { forall n :: AdmissibleReply(p.judge(n)) }

  // ---- what is judged ----

  /** A declared artifact; an unreadable one carries placeholder text. */
  datatype Target = Target(id: string, path: Option<string>, text: string, readable: bool)

  datatype Request = Request(model: string, hasTargetKind: bool, targets: seq<Target>, text: string,
                             path: Option<string>, panelParam: Option<int>, escalateFabrication: bool)

  predicate Multi(req: Request) { req.targets != [] }

  function JoinTexts(texts: seq<string>): string {
    if texts == [] then "" else if |texts| == 1 then texts[0] else texts[0] + "\n\n" + JoinTexts(texts[1..])
  }

  function ReadableTexts(targets: seq<Target>): seq<string> {
    if targets == [] then []
    else (if targets[0].readable then [targets[0].text] else []) + ReadableTexts(targets[1..])
  }

  /** `_build_artifact_text_for_grounding`. */
  function FlatText(req: Request): string {
    if Multi(req) then JoinTexts(ReadableTexts(req.targets)) else req.text
  }

  /** `_resolve_evidence_artifacts`. */
  function Artifacts(req: Request): (r: seq<EvidenceArtifact>)
    ensures r != []
    ensures Multi(req) ==> |r| == |req.targets| && forall i :: 0 <= i < |r| ==>
              var t := req.targets[i]; r[i] == EvidenceArtifact(Some(t.id), t.path, t.text, t.readable)
    ensures !Multi(req) ==> r == [EvidenceArtifact(None, req.path, req.text, true)]
  {
    if Multi(req) then
      seq(|req.targets|, i requires 0 <= i < |req.targets| =>
        EvidenceArtifact(Some(req.targets[i].id), req.targets[i].path, req.targets[i].text, req.targets[i].readable))
    else [EvidenceArtifact(None, req.path, req.text, true)]
  }

  const UNKNOWN_TARGET := "__unknown_target__"

  predicate Declared(req: Request, id: string) { exists t :: t in req.targets && t.id == id }

  /** `_resolve_quote_target_ids_strict` for quote i. */
  function StrictId(req: Request, j: Judgment, i: nat): string {
    if j.quoteTargets.Some? && i < |j.quoteTargets.value| && j.quoteTargets.value[i].Some?
       && Declared(req, j.quoteTargets.value[i].value)
    then j.quoteTargets.value[i].value
    else UNKNOWN_TARGET
  }

  /** The quote is grounded in a readable artifact declared under the id. */
  predicate GroundedIn(targets: seq<Target>, id: string, quote: string) {
    exists t :: t in targets && t.id == id && t.readable && Grounded(t.text, quote)
  }

  /** The first n quotes that are not grounded in the artifact they name. */
  function PerTargetUngrounded(req: Request, j: Judgment, n: nat): seq<string>
    requires n <= |j.quotes|
  {
    if n == 0 then []
    else
      PerTargetUngrounded(req, j, n - 1)
      + if GroundedIn(req.targets, StrictId(req, j, n - 1), j.quotes[n - 1]) then [] else [j.quotes[n - 1]]
  }

  lemma {:induction false} PerTargetUngroundedEmpty(req: Request, j: Judgment, n: nat)
    requires n <= |j.quotes|
    ensures PerTargetUngrounded(req, j, n) == []
        <==> forall i :: 0 <= i < n ==> GroundedIn(req.targets, StrictId(req, j, i), j.quotes[i])
  {
    hide GroundedIn, StrictId;
    if n == 0 {
    } else {
      PerTargetUngroundedEmpty(req, j, n - 1);
    }
  }

  /** `_find_per_target_fabricated_quotes`: a blank quote, an id with no readable artifact
      and a quote its artifact lacks are all reported. */
  method FindPerTargetFabricatedQuotes(req: Request, j: Judgment) returns (fabricated: seq<string>)
    ensures fabricated == PerTargetUngrounded(req, j, |j.quotes|)
  {
    hide StrictId;
    fabricated := [];
    for i := 0 to |j.quotes|
      invariant fabricated == PerTargetUngrounded(req, j, i)
    {
      var quote, id := j.quotes[i], StrictId(req, j, i);
      if Strip(quote) == "" {
        fabricated := fabricated + [quote];
      } else if !(exists t :: t in req.targets && t.id == id && t.readable) {
        fabricated := fabricated + [quote];
      } else if !(exists t :: t in req.targets && t.id == id && t.readable
                              && Find(Normalise(t.text), Normalise(quote)).Some?) {
        fabricated := fabricated + [quote];
      }
    }
  }

  // ---- telemetry ----

  /** The telemetry fields of an evidence record; provider-error records have none. */
  datatype Meta = NoMeta | Meta(calls: nat, models: seq<string>, cost: Option<real>, latency: nat)

  /** The calls of a run in order; a call that raised has no telemetry. */
  type Trace = seq<Option<Telemetry>>

  /** Known only when every call's cost is. */
  function TotalCost(trace: Trace): Option<real> {
    if trace == [] then Some(0.0)
    else
      var before, last := TotalCost(trace[..|trace| - 1]), trace[|trace| - 1];
      if before.Some? && last.Some? && last.value.cost.Some? then Some(before.value + last.value.cost.value) else None
  }

  function TotalLatency(trace: Trace): nat {
    if trace == [] then 0
    else
      var last := trace[|trace| - 1];
      TotalLatency(trace[..|trace| - 1]) + if last.Some? then last.value.latency else 0
  }

  /** The account a run owes. */
  function Account(req: Request, trace: Trace): Meta {
    Meta(|trace|, seq(|trace|, _ => req.model), TotalCost(trace), TotalLatency(trace))
  }

  lemma {:induction false} CostUnknownIff(trace: Trace)
    ensures TotalCost(trace).None? <==> exists i :: 0 <= i < |trace| && (trace[i].None? || trace[i].value.cost.None?)
  {
    if trace == [] {
    } else {
      var n := |trace| - 1;
      CostUnknownIff(trace[..n]);
      if TotalCost(trace[..n]).None? {
        var i :| 0 <= i < n && (trace[..n][i].None? || trace[..n][i].value.cost.None?);
        assert trace[i].None? || trace[i].value.cost.None?;
      } else {
        assert forall i :: 0 <= i < n ==> trace[i] == trace[..n][i];
      }
    }
  }

  function CallOf(r: Reply): Option<Telemetry> { if r.Raised? then None else Some(r.t) }

  function AuditCall(r: AuditReply): Option<Telemetry> { if r.AuditRaised? then None else Some(r.t) }

  // ---- outcomes ----

  datatype Kind =
    | ProviderError | TargetKindMismatch | CrossArtifactPredicate | InvalidEvidenceReference | QuoteFabrication
    | LlmJudgment | ConsensusTie | ConsensusNoMajority | LlmConsensus | ReviewDisagreement | LlmReview
    | LlmAdaptive(tier: nat, tier1: Kind, tier2: Option<Kind>, recovery: Option<Recovery>)

  datatype Recovery = Recovered | Tier2Unsupported

  datatype Outcome = Outcome(status: Status, kind: Kind, quotes: seq<string>, refs: seq<EvidenceRef>, meta: Meta)

  /** An outcome together with the calls that were made for it. */
  datatype Run = Run(outcome: Outcome, trace: Trace)

  predicate IsVerdict(s: Status) { s == PASS || s == FAIL }

  function NoVerdict(status: Status, kind: Kind, meta: Meta): Outcome { Outcome(status, kind, [], [], meta) }

  function StatusOf(v: Verdict): Status
    requires v != VUnsupported
  {
    if v == VPass then PASS else FAIL
  }

  // ---- evidence of one answer ----

  /** The evidence a pass or fail answer comes with, or why it is refused. */
  datatype Ground = BadRefs | Fabricated | Sound(quotes: seq<string>, refs: seq<EvidenceRef>)

  /** References win over quotes; legacy quotes are checked per artifact or against the
      flat text. */
  function GroundOf(req: Request, j: Judgment, perTarget: bool): Ground {
    match Reconstruct(true, Multi(req), Artifacts(req), j.refs)
    case Rejected(_) => BadRefs
    case Accepted(quotes, refs, _) => Sound(quotes, refs)
    case NoRefs =>
      if perTarget && Multi(req) then
        if PerTargetUngrounded(req, j, |j.quotes|) == [] then Sound(j.quotes, []) else Fabricated
      else if Ungrounded(j.quotes, FlatText(req)) == [] then Sound(j.quotes, []) else Fabricated
  }

  /** The evidence of an answer stands, said of the answer alone: a list of references that each
      cite something, or quotes that are each grounded, in the artifact they name or in the flat text. */
  ghost predicate EvidenceStands(req: Request, j: Judgment, perTarget: bool) {
    match j.refs
    case Some(entries) =>
      entries != [] && forall i :: 0 <= i < |entries| ==> Citable(Multi(req), Artifacts(req), entries[i])
    case None =>
      if perTarget && Multi(req) then
        forall i :: 0 <= i < |j.quotes| ==> GroundedIn(req.targets, StrictId(req, j, i), j.quotes[i])
      else forall q :: q in j.quotes ==> Grounded(FlatText(req), q)
  }

  /** The evidence an answer shows: its own quotes, or what its references are rebuilt to. */
  ghost predicate Shows(req: Request, j: Judgment, quotes: seq<string>, refs: seq<EvidenceRef>) {
    if j.refs.None? then quotes == j.quotes && refs == []
    else exists spans :: Meets(true, Multi(req), Artifacts(req), j.refs, Accepted(quotes, refs, spans))
  }

  /** Evidence is sound exactly when it stands, and then it is what the answer shows. */
  lemma SoundIff(req: Request, j: Judgment, perTarget: bool)
    ensures GroundOf(req, j, perTarget).Sound? <==> EvidenceStands(req, j, perTarget)
    ensures GroundOf(req, j, perTarget).BadRefs? <==> j.refs.Some? && !EvidenceStands(req, j, perTarget)
    ensures GroundOf(req, j, perTarget).Sound? ==>
              Shows(req, j, GroundOf(req, j, perTarget).quotes, GroundOf(req, j, perTarget).refs)
  {
    var artifacts := Artifacts(req);
    var out := Reconstruct(true, Multi(req), artifacts, j.refs);
    NoRefsIff(true, Multi(req), artifacts, j.refs);
    AcceptedIff(true, Multi(req), artifacts, j.refs);
    ReconstructMeets(true, Multi(req), artifacts, j.refs);
    UngroundedEmpty(j.quotes, FlatText(req));
    PerTargetUngroundedEmpty(req, j, |j.quotes|);
    hide Reconstruct, Meets, Citable, GroundedIn, StrictId, Grounded, FlatText, PerTargetUngrounded, Ungrounded;
    if out.Accepted? { assert Meets(true, Multi(req), artifacts, j.refs, Accepted(out.quotes, out.refs, out.spans)); }
  }

  /** What every emitted verdict promises: at least one quote, and every quote a normalised
      substring of the grounding text. */
  ghost predicate Supported(req: Request, quotes: seq<string>) {
    quotes != [] && forall q :: q in quotes ==> Contains(Normalise(FlatText(req)), Normalise(q))
  }

  lemma {:induction false} JoinContains(texts: seq<string>, i: nat)
    requires i < |texts|
    ensures Contains(JoinTexts(texts), texts[i])
  {
    if |texts| == 1 {
      ContainsPart("", texts[0], "");
      assert "" + texts[0] + "" == texts[0];
    } else if i == 0 {
      ContainsPart("", texts[0], "\n\n" + JoinTexts(texts[1..]));
      assert "" + texts[0] + ("\n\n" + JoinTexts(texts[1..])) == JoinTexts(texts);
    } else {
      JoinContains(texts[1..], i - 1);
      ContainsPart(texts[0] + "\n\n", JoinTexts(texts[1..]), "");
      assert texts[0] + "\n\n" + JoinTexts(texts[1..]) + "" == JoinTexts(texts);
      ContainsTransitive(JoinTexts(texts), JoinTexts(texts[1..]), texts[i]);
    }
  }

  lemma {:induction false} ReadableTextAt(targets: seq<Target>, t: Target) returns (i: nat)
    requires t in targets && t.readable
    ensures i < |ReadableTexts(targets)| && ReadableTexts(targets)[i] == t.text
  {
    if targets[0] == t {
      i := 0;
    } else {
      i := ReadableTextAt(targets[1..], t);
      if targets[0].readable { i := i + 1; }
    }
  }

  /** Grounding in one readable artifact is grounding in the flat text. */
  lemma ArtifactInFlatText(req: Request, t: Target, q: string)
    requires t in req.targets && t.readable && Contains(Normalise(t.text), Normalise(q))
    ensures Contains(Normalise(FlatText(req)), Normalise(q))
  {
    hide Normalise;
    var i := ReadableTextAt(req.targets, t);
    JoinContains(ReadableTexts(req.targets), i);
    NormaliseContains(FlatText(req), t.text);
    ContainsTransitive(Normalise(FlatText(req)), Normalise(t.text), Normalise(q));
  }

  /** Sound evidence supports the verdict. */
  lemma SoundIsSupported(req: Request, j: Judgment, perTarget: bool)
    requires Admissible(j) && j.verdict != VUnsupported
    requires GroundOf(req, j, perTarget).Sound?
    ensures Supported(req, GroundOf(req, j, perTarget).quotes)
  {
    hide Normalise, Admissible, Reconstruct, StrictId, FlatText, Artifacts;
    assert j.refs.None? ==> j.quotes != [] by { ReasonsOf(j); }
    var out := Reconstruct(true, Multi(req), Artifacts(req), j.refs);
    var ground := GroundOf(req, j, perTarget);
    match out {
      case Rejected(_) =>
      case NoRefs =>
        NoRefsIff(true, Multi(req), Artifacts(req), j.refs);
        UngroundedEmpty(j.quotes, FlatText(req));
        PerTargetUngroundedEmpty(req, j, |j.quotes|);
        forall q | q in j.quotes ensures Contains(Normalise(FlatText(req)), Normalise(q)) {
          if perTarget && Multi(req) {
            var i :| 0 <= i < |j.quotes| && j.quotes[i] == q;
            var t :| t in req.targets && t.id == StrictId(req, j, i) && t.readable && Grounded(t.text, q);
            ArtifactInFlatText(req, t, q);
          }
        }
      case Accepted(quotes, refs, _) =>
        AcceptedNotEmpty(Multi(req), Artifacts(req), j.refs);
        forall i | 0 <= i < |quotes| ensures Contains(Normalise(FlatText(req)), Normalise(quotes[i])) {
          AcceptedSupported(req, j.refs, i);
        }
    }
  }

  lemma ReasonsOf(j: Judgment)
    requires Admissible(j) && j.verdict != VUnsupported
    ensures j.refs.None? ==> j.quotes != []
  {}

  lemma NoRefsIff(verdict: bool, multi: bool, artifacts: seq<EvidenceArtifact>, entries: Option<seq<Json>>)
    requires artifacts != []
    ensures Reconstruct(verdict, multi, artifacts, entries).NoRefs? <==> entries.None?
  {}

  lemma AcceptedNotEmpty(multi: bool, artifacts: seq<EvidenceArtifact>, entries: Option<seq<Json>>)
    requires artifacts != [] && Reconstruct(true, multi, artifacts, entries).Accepted?
    ensures Reconstruct(true, multi, artifacts, entries).quotes != []
  {
    ResolveRefsEach(multi, artifacts, entries.value);
  }

  lemma AcceptedSupported(req: Request, entries: Option<seq<Json>>, i: nat)
    requires Reconstruct(true, Multi(req), Artifacts(req), entries).Accepted?
    requires i < |Reconstruct(true, Multi(req), Artifacts(req), entries).quotes|
    ensures var out := Reconstruct(true, Multi(req), Artifacts(req), entries);
            Contains(Normalise(FlatText(req)), Normalise(out.quotes[i]))
  {
    hide Normalise, Reconstruct, RangeQuote;
    var out := Reconstruct(true, Multi(req), Artifacts(req), entries);
    AcceptedSameLength(Multi(req), Artifacts(req), entries);
    AcceptedRefsGrounded(true, Multi(req), Artifacts(req), entries, i);
    if Multi(req) {
      ArtifactInFlatText(req, req.targets[out.refs[i].index], out.quotes[i]);
    }
  }

  lemma AcceptedSameLength(multi: bool, artifacts: seq<EvidenceArtifact>, entries: Option<seq<Json>>)
    requires artifacts != [] && Reconstruct(true, multi, artifacts, entries).Accepted?
    ensures var out := Reconstruct(true, multi, artifacts, entries); |out.quotes| == |out.refs|
  {}

  // ---- single ----

  /** An "unsupported" answer: a cross-artifact decline is always honoured, a target-kind
      mismatch only on an annotated rule. */
  function Decline(req: Request, j: Judgment, meta: Meta): Outcome {
    if j.crossArtifact then NoVerdict(UNSUPPORTED, CrossArtifactPredicate, meta)
    else if !req.hasTargetKind then NoVerdict(UNAVAILABLE, ProviderError, NoMeta)
    else NoVerdict(UNSUPPORTED, TargetKindMismatch, meta)
  }

  function SingleOutcome(req: Request, reply: Reply): Outcome {
    if !reply.Answer? then NoVerdict(UNAVAILABLE, ProviderError, NoMeta)
    else
      var j, meta := reply.j, Meta(1, [req.model], reply.t.cost, reply.t.latency);
      if j.verdict == VUnsupported then Decline(req, j, meta)
      else
        match GroundOf(req, j, true)
        case BadRefs => NoVerdict(UNAVAILABLE, InvalidEvidenceReference, meta)
        case Fabricated => NoVerdict(UNSUPPORTED, QuoteFabrication, meta)
        case Sound(quotes, refs) => Outcome(StatusOf(j.verdict), LlmJudgment, quotes, refs, meta)
  }

  /** `_run_single_strategy`. */
  function Single(req: Request, reply: Reply): Run { Run(SingleOutcome(req, reply), [CallOf(reply)]) }

  /** A single verdict on a multi-target rule: every quote is grounded in a readable
      artifact of that rule, the one the answer names whenever it names a declared one, and
      the sentinel id never stands in for a name unless the rule declares it. */
  lemma SingleGroundsPerTarget(req: Request, reply: Reply, i: nat)
    requires AdmissibleReply(reply) && Multi(req)
    requires IsVerdict(SingleOutcome(req, reply).status) && i < |SingleOutcome(req, reply).quotes|
    ensures var out := SingleOutcome(req, reply);
            && (reply.j.refs.Some? ==>
                  && i < |out.refs| && ValidRef(true, Artifacts(req), out.refs[i])
                  && Contains(Normalise(req.targets[out.refs[i].index].text), Normalise(out.quotes[i])))
            && (reply.j.refs.None? ==>
                  && GroundedIn(req.targets, StrictId(req, reply.j, i), out.quotes[i])
                  && (!Declared(req, UNKNOWN_TARGET) ==>
                        && reply.j.quoteTargets.Some? && i < |reply.j.quoteTargets.value|
                        && reply.j.quoteTargets.value[i] == Some(StrictId(req, reply.j, i))))
  {
    hide Normalise, Reconstruct, FlatText, Artifacts, Grounded;
    NoRefsIff(true, true, Artifacts(req), reply.j.refs);
    if reply.j.refs.Some? {
      AcceptedSameLength(true, Artifacts(req), reply.j.refs);
      AcceptedRefsGrounded(true, true, Artifacts(req), reply.j.refs, i);
    } else {
      PerTargetUngroundedEmpty(req, reply.j, |reply.j.quotes|);
    }
  }

  /** A blank quote is grounded nowhere. */
  lemma UngroundedBlank(req: Request)
    ensures Ungrounded([""], FlatText(req)) != []
    ensures forall j: Judgment :: j.quotes == [""] ==> PerTargetUngrounded(req, j, 1) != []
  {
    StripAllSpace("");
    hide Normalise, FlatText, StrictId;
    UngroundedEmpty([""], FlatText(req));
    forall j: Judgment | j.quotes == [""] ensures PerTargetUngrounded(req, j, 1) != [] {
      PerTargetUngroundedEmpty(req, j, 1);
    }
  }

  /** A single ordinary character is its own normal form. */
  lemma CharNormal(c: char)
    requires !IsSpace(c)
    ensures Normalise([c]) == [FoldChar(c)] && Strip([c]) == [c]
  {
    hide IsSpace, FoldChar;
    assert [c][0..1] == [c];
    NormaliseTrimmedSlice([c], 0, 1);
    assert Fold([c])[0..1] == [FoldChar(c)];
    assert [FoldChar(c)][1..] == "";
    StripOf("", [c], "");
    assert "" + [c] + "" == [c];
  }

  // ---- consensus ----

  const PANEL_DEFAULT := 3

  function Distance(a: int, b: int): nat { if a < b then b - a else a - b }

  /** The clamped panel size: the nearest one allowed. */
  function PanelSize(req: Request): (n: nat)
    ensures 2 <= n <= 5 && (req.panelParam.None? ==> n == 3)
    ensures req.panelParam.Some? ==>
              forall m :: 2 <= m <= 5 ==> Distance(n, req.panelParam.value) <= Distance(m, req.panelParam.value)
  {
    var raw := if req.panelParam.Some? then req.panelParam.value else PANEL_DEFAULT;
    if raw < 2 then 2 else if raw > 5 then 5 else raw
  }

  datatype Ballot = Ballot(verdict: Verdict, providerFailed: bool, quotes: seq<string>, refs: seq<EvidenceRef>)

  /** One judge's contribution: every failure counts as an unsupported vote. */
  function BallotOf(req: Request, reply: Reply): Ballot {
    if !reply.Answer? then Ballot(VUnsupported, reply.Raised?, [], [])
    else if reply.j.verdict == VUnsupported then Ballot(VUnsupported, false, [], [])
    else
      match GroundOf(req, reply.j, false)
      case Sound(quotes, refs) => Ballot(reply.j.verdict, false, quotes, refs)
      case _ => Ballot(VUnsupported, false, [], [])
  }

  function Ballots(req: Request, replies: seq<Reply>): seq<Ballot> {
    seq(|replies|, i requires 0 <= i < |replies| => BallotOf(req, replies[i]))
  }

  function Votes(ballots: seq<Ballot>): seq<Verdict> {
    seq(|ballots|, i requires 0 <= i < |ballots| => ballots[i].verdict)
  }

  function Count(votes: seq<Verdict>, v: Verdict): nat {
    if votes == [] then 0 else (if votes[0] == v then 1 else 0) + Count(votes[1..], v)
  }

  datatype Panel = Majority(v: Verdict) | Tie | NoMajority

  /** The aggregation, tests in the source's order. */
  function Decide(votes: seq<Verdict>): Panel {
    var p, f, u := Count(votes, VPass), Count(votes, VFail), Count(votes, VUnsupported);
    if 2 * p > |votes| && p > f then Majority(VPass)
    else if 2 * f > |votes| && f > p then Majority(VFail)
    else if p == f && u == 0 then Tie
    else NoMajority
  }

  function AddUnseen<T(==)>(acc: seq<T>, more: seq<T>): seq<T>
    decreases |more|
  {
    if more == [] then acc
    else AddUnseen(if more[0] in acc then acc else acc + [more[0]], more[1..])
  }

  function MergedQuotes(ballots: seq<Ballot>, v: Verdict): seq<string> {
    if ballots == [] then []
    else
      var n := |ballots| - 1;
      var before := MergedQuotes(ballots[..n], v);
      if ballots[n].verdict == v then AddUnseen(before, ballots[n].quotes) else before
  }

  function MergedRefs(ballots: seq<Ballot>, v: Verdict): seq<EvidenceRef> {
    if ballots == [] then []
    else
      var n := |ballots| - 1;
      var before := MergedRefs(ballots[..n], v);
      if ballots[n].verdict == v then AddUnseen(before, ballots[n].refs) else before
  }

  function Calls(replies: seq<Reply>): Trace {
    seq(|replies|, i requires 0 <= i < |replies| => CallOf(replies[i]))
  }

  function ConsensusOutcome(req: Request, replies: seq<Reply>): Outcome {
    var ballots := Ballots(req, replies);
    if replies != [] && forall b :: b in ballots ==> b.providerFailed then NoVerdict(UNAVAILABLE, ProviderError, NoMeta)
    else
      var meta := Account(req, Calls(replies));
      match Decide(Votes(ballots))
      case Tie => NoVerdict(UNSUPPORTED, ConsensusTie, meta)
      case NoMajority => NoVerdict(UNSUPPORTED, ConsensusNoMajority, meta)
      case Majority(v) =>
        if v == VUnsupported then NoVerdict(UNSUPPORTED, ConsensusNoMajority, meta)
        else Outcome(StatusOf(v), LlmConsensus, MergedQuotes(ballots, v), MergedRefs(ballots, v), meta)
  }

  function Consensus(req: Request, replies: seq<Reply>): Run {
    Run(ConsensusOutcome(req, replies), Calls(replies))
  }

  function Replies(judge: nat -> Reply, first: nat, n: nat): seq<Reply> {
    seq(n, i requires 0 <= i < n => judge(first + i))
  }

  /** The quote-merging loop over the majority judges. */
  method MergeQuotes(ballots: seq<Ballot>, v: Verdict) returns (merged: seq<string>)
    ensures merged == MergedQuotes(ballots, v)
  {
    merged := [];
    var seen: set<string> := {};
    for i := 0 to |ballots|
      invariant merged == MergedQuotes(ballots[..i], v)
      invariant forall q :: q in seen <==> q in merged
    {
      assert ballots[..i + 1][..i] == ballots[..i];
      if ballots[i].verdict == v {
        var quotes := ballots[i].quotes;
        for k := 0 to |quotes|
          invariant AddUnseen(merged, quotes[k..]) == AddUnseen(MergedQuotes(ballots[..i], v), quotes)
          invariant forall q :: q in seen <==> q in merged
        {
          assert quotes[k..][0] == quotes[k] && quotes[k..][1..] == quotes[k + 1..];
          if quotes[k] !in seen {
            seen := seen + {quotes[k]};
            merged := merged + [quotes[k]];
          }
        }
        assert quotes[|quotes|..] == [];
      }
    }
    assert ballots[..|ballots|] == ballots;
  }

  lemma CallStep(req: Request, replies: seq<Reply>, r: Reply)
    ensures Ballots(req, replies + [r]) == Ballots(req, replies) + [BallotOf(req, r)]
    ensures Calls(replies + [r]) == Calls(replies) + [CallOf(r)]
    ensures TotalLatency(Calls(replies + [r])) == TotalLatency(Calls(replies)) + if r.Raised? then 0 else r.t.latency
    ensures TotalCost(Calls(replies + [r]))
         == if TotalCost(Calls(replies)).None? || r.Raised? || r.t.cost.None? then None
            else Some(TotalCost(Calls(replies)).value + r.t.cost.value)
  {
    hide BallotOf;
    var t := Calls(replies) + [CallOf(r)];
    assert Calls(replies + [r]) == t && t[..|t| - 1] == Calls(replies);
  }

  /** The judge loop with its running totals. */
  method CollectBallots(req: Request, judge: nat -> Reply, first: nat, n: nat)
    returns (ballots: seq<Ballot>, meta: Meta)
    ensures var replies := Replies(judge, first, n);
            ballots == Ballots(req, replies) && meta == Account(req, Calls(replies))
  {
    hide BallotOf, TotalCost, TotalLatency, Ballots, Calls;
    ghost var replies := Replies(judge, first, n);
    var models: seq<string> := [];
    var totalCost: Option<real>, totalLatency := Some(0.0), 0;
    ballots := [];
    NoCalls(req);
    for i := 0 to n
      invariant ballots == Ballots(req, replies[..i]) && models == seq(i, _ => req.model)
      invariant totalCost == TotalCost(Calls(replies[..i])) && totalLatency == TotalLatency(Calls(replies[..i]))
    {
      var reply := judge(first + i);
      assert replies[..i + 1] == replies[..i] + [reply];
      CallStep(req, replies[..i], reply);
      ballots, models := ballots + [BallotOf(req, reply)], models + [req.model];
      if reply.Raised? {
        totalCost := None;
      } else {
        if reply.t.cost.None? {
          totalCost := None;
        } else if totalCost.Some? {
          totalCost := Some(totalCost.value + reply.t.cost.value);
        }
        totalLatency := totalLatency + reply.t.latency;
      }
    }
    assert replies[..n] == replies;
    CallsLength(replies);
    meta := Meta(n, models, totalCost, totalLatency);
  }

  lemma NoCalls(req: Request)
    ensures Ballots(req, []) == [] && TotalCost(Calls([])) == Some(0.0) && TotalLatency(Calls([])) == 0
  {}

  lemma CallsLength(replies: seq<Reply>)
    ensures |Calls(replies)| == |replies|
  {}

  /** `_run_consensus_strategy`. */
  method RunConsensus(req: Request, judge: nat -> Reply, first: nat) returns (run: Run)
    ensures run == Consensus(req, Replies(judge, first, PanelSize(req)))
    ensures run.outcome.status == PASS <==> PanelGives(req, Replies(judge, first, PanelSize(req)), VPass)
    ensures run.outcome.status == FAIL <==> PanelGives(req, Replies(judge, first, PanelSize(req)), VFail)
  {
    ConsensusStatus(req, Replies(judge, first, PanelSize(req)));
    hide BallotOf, Decide, MergedQuotes, MergedRefs, Account, PanelGives;
    var n := PanelSize(req);
    ghost var replies := Replies(judge, first, n);
    var ballots, meta := CollectBallots(req, judge, first, n);
    var trace := Calls(Replies(judge, first, n));
    if forall b :: b in ballots ==> b.providerFailed {
      return Run(NoVerdict(UNAVAILABLE, ProviderError, NoMeta), trace);
    }
    match Decide(Votes(ballots)) {
      case Tie => run := Run(NoVerdict(UNSUPPORTED, ConsensusTie, meta), trace);
      case NoMajority => run := Run(NoVerdict(UNSUPPORTED, ConsensusNoMajority, meta), trace);
      case Majority(v) =>
        if v == VUnsupported {
          run := Run(NoVerdict(UNSUPPORTED, ConsensusNoMajority, meta), trace);
        } else {
          var quotes := MergeQuotes(ballots, v);
          run := Run(Outcome(StatusOf(v), LlmConsensus, quotes, MergedRefs(ballots, v), meta), trace);
        }
    }
  }

  // ---- panel arithmetic ----

  lemma {:induction false} CountsAddUp(votes: seq<Verdict>)
    ensures Count(votes, VPass) + Count(votes, VFail) + Count(votes, VUnsupported) == |votes|
  {
    if votes == [] {
    } else {
      CountsAddUp(votes[1..]);
    }
  }

  /** A verdict carries the panel exactly when strictly more than half voted for it. */
  lemma MajorityIff(votes: seq<Verdict>, v: Verdict)
    requires v != VUnsupported
    ensures Decide(votes) == Majority(v) <==> 2 * Count(votes, v) > |votes|
  {
    CountsAddUp(votes);
  }

  lemma {:induction false} Unanimous(votes: seq<Verdict>, v: Verdict)
    requires forall i :: 0 <= i < |votes| ==> votes[i] == v
    ensures Count(votes, v) == |votes|
  {
    if votes == [] {
    } else {
      Unanimous(votes[1..], v);
    }
  }

  /** A panel of one mind decides that way. */
  lemma UnanimousPanel(req: Request, replies: seq<Reply>, v: Verdict)
    requires replies != []
    requires forall i :: 0 <= i < |replies| ==>
               BallotOf(req, replies[i]).verdict == v && !BallotOf(req, replies[i]).providerFailed
    ensures var out := ConsensusOutcome(req, replies);
            if v == VUnsupported then out.status == UNSUPPORTED
            else out.status == StatusOf(v) && out.quotes == MergedQuotes(Ballots(req, replies), v)
  {
    hide BallotOf, MergedQuotes, MergedRefs, Account;
    var ballots := Ballots(req, replies);
    assert ballots[0] in ballots && ballots[0] == BallotOf(req, replies[0]);
    assert forall i :: 0 <= i < |replies| ==> Votes(ballots)[i] == v;
    Unanimous(Votes(ballots), v);
    CountsAddUp(Votes(ballots));
  }

  lemma {:induction false} CountIsMultiplicity(votes: seq<Verdict>, v: Verdict)
    ensures Count(votes, v) == multiset(votes)[v]
  {
    if votes == [] {
    } else {
      CountIsMultiplicity(votes[1..], v);
      assert votes == [votes[0]] + votes[1..];
    }
  }

  /** The order of the judges does not matter. */
  lemma DecideIgnoresOrder(votes: seq<Verdict>, other: seq<Verdict>)
    requires multiset(votes) == multiset(other)
    ensures Decide(votes) == Decide(other)
  {
    assert |votes| == |multiset(votes)| == |multiset(other)| == |other|;
    forall v ensures Count(votes, v) == Count(other, v) {
      CountIsMultiplicity(votes, v);
      CountIsMultiplicity(other, v);
    }
  }

  lemma {:induction false} CountUpdate(votes: seq<Verdict>, i: nat, w: Verdict, v: Verdict)
    requires i < |votes|
    ensures Count(votes[i := w], v) == Count(votes, v) - (if votes[i] == v then 1 else 0) + (if w == v then 1 else 0)
  {
    if i > 0 {
      CountUpdate(votes[1..], i - 1, w, v);
      assert votes[i := w][1..] == votes[1..][i - 1 := w];
    } else {
      assert votes[i := w][1..] == votes[1..];
    }
  }

  /** Another judge agreeing, or one more judge agreeing, never loses a majority. */
  lemma AgreementKeepsMajority(votes: seq<Verdict>, i: nat, v: Verdict)
    requires v != VUnsupported && Decide(votes) == Majority(v) && i < |votes|
    ensures Decide(votes[i := v]) == Majority(v) && Decide([v] + votes) == Majority(v)
  {
    CountUpdate(votes, i, v, v);
    MajorityIff(votes, v);
    MajorityIff(votes[i := v], v);
    MajorityIff([v] + votes, v);
    assert ([v] + votes)[1..] == votes;
  }

  // ---- merged evidence ----

  ghost predicate Distinct<T>(s: seq<T>) { forall i, k :: 0 <= i < k < |s| ==> s[i] != s[k] }

  lemma {:induction false} AddUnseenElements<T>(acc: seq<T>, more: seq<T>)
    requires Distinct(acc)
    ensures forall x :: x in AddUnseen(acc, more) <==> x in acc || x in more
    ensures acc <= AddUnseen(acc, more)
    ensures Distinct(AddUnseen(acc, more))
    decreases |more|
  {
    if more == [] {
    } else {
      var acc' := if more[0] in acc then acc else acc + [more[0]];
      AddUnseenElements(acc', more[1..]);
      assert more == [more[0]] + more[1..];
    }
  }

  /** The merged quotes are exactly the majority judges' quotes, each once. */
  lemma {:induction false} MergedQuotesExact(ballots: seq<Ballot>, v: Verdict)
    ensures forall q :: q in MergedQuotes(ballots, v) <==> exists b :: b in ballots && b.verdict == v && q in b.quotes
    ensures Distinct(MergedQuotes(ballots, v))
  {
    if ballots == [] {
    } else {
      var n := |ballots| - 1;
      MergedQuotesExact(ballots[..n], v);
      AddUnseenElements(MergedQuotes(ballots[..n], v), ballots[n].quotes);
      assert ballots == ballots[..n] + [ballots[n]];
    }
  }

  lemma {:induction false} MergedRefsExact(ballots: seq<Ballot>, v: Verdict)
    ensures forall r :: r in MergedRefs(ballots, v) <==> exists b :: b in ballots && b.verdict == v && r in b.refs
    ensures Distinct(MergedRefs(ballots, v))
  {
    if ballots == [] {
    } else {
      var n := |ballots| - 1;
      MergedRefsExact(ballots[..n], v);
      AddUnseenElements(MergedRefs(ballots[..n], v), ballots[n].refs);
      assert ballots == ballots[..n] + [ballots[n]];
    }
  }

  lemma {:induction false} CountFinds(votes: seq<Verdict>, v: Verdict) returns (i: nat)
    requires Count(votes, v) > 0
    ensures i < |votes| && votes[i] == v
  {
    if votes[0] == v { i := 0; } else { var k := CountFinds(votes[1..], v); i := k + 1; }
  }

  lemma BallotSupported(req: Request, reply: Reply)
    requires AdmissibleReply(reply) && BallotOf(req, reply).verdict != VUnsupported
    ensures Supported(req, BallotOf(req, reply).quotes)
  {
    SoundIsSupported(req, reply.j, false);
  }

  lemma ConsensusSupported(req: Request, replies: seq<Reply>)
    requires forall r :: r in replies ==> AdmissibleReply(r)
    requires IsVerdict(ConsensusOutcome(req, replies).status)
    ensures Supported(req, ConsensusOutcome(req, replies).quotes)
  {
    hide BallotOf, AdmissibleReply, Normalise, Account, FlatText;
    var ballots := Ballots(req, replies);
    var v := Decide(Votes(ballots)).v;
    MajorityIff(Votes(ballots), v);
    var i := CountFinds(Votes(ballots), v);
    MergedQuotesExact(ballots, v);
    var merged := MergedQuotes(ballots, v);
    BallotSupported(req, replies[i]);
    assert ballots[i] in ballots && ballots[i].quotes[0] in merged;
    forall q | q in merged ensures Contains(Normalise(FlatText(req)), Normalise(q)) {
      var b :| b in ballots && b.verdict == v && q in b.quotes;
      var k :| 0 <= k < |ballots| && ballots[k] == b;
      BallotSupported(req, replies[k]);
    }
  }

  // ---- review ----

  /** `_run_review_strategy`: a primary judge and, unless it already settled the matter, an
      auditor that can only withhold the verdict. */
  function Review(req: Request, reply: Reply, audit: AuditReply): Run {
    if !reply.Answer? then Run(NoVerdict(UNAVAILABLE, ProviderError, NoMeta), [CallOf(reply)])
    else
      var j, primary := reply.j, Meta(1, [req.model], reply.t.cost, reply.t.latency);
      if j.verdict == VUnsupported then Run(Decline(req, j, primary), [CallOf(reply)])
      else
        match GroundOf(req, j, false)
        case BadRefs => Run(NoVerdict(UNAVAILABLE, InvalidEvidenceReference, primary), [CallOf(reply)])
        case Fabricated => Run(NoVerdict(UNSUPPORTED, QuoteFabrication, primary), [CallOf(reply)])
        case Sound(quotes, refs) =>
          var auditCost := if audit.AuditRaised? then None else audit.t.cost;
          var meta := Meta(2, [req.model, req.model],
                           if reply.t.cost.None? || auditCost.None? then None
                           else Some(reply.t.cost.value + auditCost.value),
                           reply.t.latency + if audit.AuditRaised? then 0 else audit.t.latency);
          var trace := [CallOf(reply), AuditCall(audit)];
          if audit.Audited? && (audit.a == PassShouldFail || audit.a == FailShouldPass)
          then Run(NoVerdict(UNSUPPORTED, ReviewDisagreement, meta), trace)
          else Run(Outcome(StatusOf(j.verdict), LlmReview, quotes, refs, meta), trace)
  }

  // ---- adaptive ----

  function CallsOf(m: Meta): nat { if m.NoMeta? then 0 else m.calls }

  function ModelsOf(m: Meta): seq<string> { if m.NoMeta? then [] else m.models }

  function CostOf(m: Meta): Option<real> { if m.NoMeta? then None else m.cost }

  function LatencyOf(m: Meta): nat { if m.NoMeta? then 0 else m.latency }

  /** The overlay's telemetry over both tiers. */
  function MetaSum(a: Meta, b: Meta): Meta {
    Meta(CallsOf(a) + CallsOf(b), ModelsOf(a) + ModelsOf(b),
         if CostOf(a).None? || CostOf(b).None? then None else Some(CostOf(a).value + CostOf(b).value),
         LatencyOf(a) + LatencyOf(b))
  }

  /** Whether the first tier's outcome is worth a second one. */
  predicate Escalates(req: Request, tier1: Outcome) {
    tier1.kind == TargetKindMismatch || (tier1.kind == QuoteFabrication && req.escalateFabrication)
  }

  function AdaptiveMerge(tier1: Run, tier2: Run): Run {
    var o1, o2 := tier1.outcome, tier2.outcome;
    var recovering := o1.kind == QuoteFabrication;
    var meta := MetaSum(o1.meta, o2.meta);
    if recovering && o2.status == UNSUPPORTED
    then Run(NoVerdict(UNSUPPORTED, LlmAdaptive(2, o1.kind, Some(o2.kind), Some(Tier2Unsupported)), meta),
             tier1.trace + tier2.trace)
    else Run(Outcome(o2.status, LlmAdaptive(2, o1.kind, Some(o2.kind), if recovering then Some(Recovered) else None),
                     o2.quotes, o2.refs, meta),
             tier1.trace + tier2.trace)
  }

  /** The second tier: a review after fabricated quotes, a panel after a kind mismatch. */
  function Tier2(req: Request, p: Provider, first: nat, tier1: Outcome): Run {
    if tier1.kind == QuoteFabrication then Review(req, p.judge(first + 1), p.audit(first + 2))
    else Consensus(req, Replies(p.judge, first + 1, PanelSize(req)))
  }

  /** `_run_adaptive_strategy`. */
  function Adaptive(req: Request, p: Provider, first: nat): Run {
    var tier1 := Single(req, p.judge(first));
    var o := tier1.outcome;
    if !Escalates(req, o)
    then Run(Outcome(o.status, LlmAdaptive(1, o.kind, None, None), o.quotes, o.refs,
                     Meta(CallsOf(o.meta), ModelsOf(o.meta), CostOf(o.meta), LatencyOf(o.meta))), tier1.trace)
    else AdaptiveMerge(tier1, Tier2(req, p, first, o))
  }

  // ---- whole runs ----

  datatype StrategyId = SingleStrategy | ConsensusStrategy | ReviewStrategy | AdaptiveStrategy

  function RunStrategy(id: StrategyId, req: Request, p: Provider, first: nat): Run {
    match id
    case SingleStrategy => Single(req, p.judge(first))
    case ConsensusStrategy => Consensus(req, Replies(p.judge, first, PanelSize(req)))
    case ReviewStrategy => Review(req, p.judge(first), p.audit(first + 1))
    case AdaptiveStrategy => Adaptive(req, p, first)
  }

  // ---- what a verdict means, over the replies ----

  /** The reply answers v with evidence that stands. */
  ghost predicate Stands(req: Request, reply: Reply, v: Verdict, perTarget: bool) {
    reply.Answer? && reply.j.verdict == v && v != VUnsupported && EvidenceStands(req, reply.j, perTarget)
  }

  /** How many replies answer v with evidence that stands. */
  ghost function Standing(req: Request, replies: seq<Reply>, v: Verdict): nat {
    if replies == [] then 0 else (if Stands(req, replies[0], v, false) then 1 else 0) + Standing(req, replies[1..], v)
  }

  /** A review's verdict: the judge's, on evidence that stands, unless the auditor overturns it. */
  ghost predicate ReviewGives(req: Request, reply: Reply, audit: AuditReply, v: Verdict) {
    Stands(req, reply, v, false) && !Overturns(audit)
  }

  /** A panel's verdict: that of strictly more than half of the judges, on evidence that stands. */
  ghost predicate PanelGives(req: Request, replies: seq<Reply>, v: Verdict) {
    2 * Standing(req, replies, v) > |replies|
  }

  /** Adaptive's verdict: the first judge's, or a review's after fabricated quotes on a rule that asks
      for it, or a panel's after a kind mismatch. */
  ghost predicate AdaptiveGives(req: Request, p: Provider, first: nat, v: Verdict) {
    var reply := p.judge(first);
    || Stands(req, reply, v, true)
    || (Fabricates(req, reply) && req.escalateFabrication
        && ReviewGives(req, p.judge(first + 1), p.audit(first + 2), v))
    || (DeclinesKind(req, reply) && PanelGives(req, Replies(p.judge, first + 1, PanelSize(req)), v))
  }

  ghost predicate Gives(id: StrategyId, req: Request, p: Provider, first: nat, v: Verdict) {
    match id
    case SingleStrategy => Stands(req, p.judge(first), v, true)
    case ConsensusStrategy => PanelGives(req, Replies(p.judge, first, PanelSize(req)), v)
    case ReviewStrategy => ReviewGives(req, p.judge(first), p.audit(first + 1), v)
    case AdaptiveStrategy => AdaptiveGives(req, p, first, v)
  }

  /** The reply passes or fails on references that do not all resolve. */
  ghost predicate BreaksRefs(req: Request, reply: Reply) {
    reply.Answer? && reply.j.verdict != VUnsupported && reply.j.refs.Some? && !EvidenceStands(req, reply.j, false)
  }

  lemma StandsBothWays(req: Request, j: Judgment)
    requires j.refs.Some?
    ensures EvidenceStands(req, j, true) <==> EvidenceStands(req, j, false)
  {}

  /** Single, over the reply alone. */
  lemma SingleStatus(req: Request, reply: Reply)
    ensures var out := SingleOutcome(req, reply);
            && (out.status == PASS <==> Stands(req, reply, VPass, true))
            && (out.status == FAIL <==> Stands(req, reply, VFail, true))
            && (out.status == UNAVAILABLE <==> Unaccounted(req, reply) || BreaksRefs(req, reply))
            && (out.status == UNSUPPORTED || out.status == UNAVAILABLE || IsVerdict(out.status))
            && (out.kind == LlmJudgment <==> IsVerdict(out.status))
            && (out.kind == InvalidEvidenceReference <==> BreaksRefs(req, reply))
            && (if IsVerdict(out.status) then Shows(req, reply.j, out.quotes, out.refs)
                else out.quotes == [] && out.refs == [])
  {
    if reply.Answer? {
      SoundIff(req, reply.j, true);
      if reply.j.refs.Some? { StandsBothWays(req, reply.j); }
    }
    hide GroundOf, EvidenceStands, Shows;
  }

  /** Review, over both replies. */
  lemma ReviewStatus(req: Request, reply: Reply, audit: AuditReply)
    ensures var out := Review(req, reply, audit).outcome;
            && (out.status == PASS <==> ReviewGives(req, reply, audit, VPass))
            && (out.status == FAIL <==> ReviewGives(req, reply, audit, VFail))
            && (out.status == UNAVAILABLE <==> Unaccounted(req, reply) || BreaksRefs(req, reply))
            && (out.status == UNSUPPORTED || out.status == UNAVAILABLE || IsVerdict(out.status))
            && (if IsVerdict(out.status) then Shows(req, reply.j, out.quotes, out.refs)
                else out.quotes == [] && out.refs == [])
  {
    if reply.Answer? { SoundIff(req, reply.j, false); }
    hide GroundOf, EvidenceStands, Shows;
  }

  /** What a review without a verdict is called. */
  lemma ReviewKind(req: Request, reply: Reply, audit: AuditReply)
    ensures var kind := Review(req, reply, audit).outcome.kind;
            && (kind == LlmReview <==> IsVerdict(Review(req, reply, audit).outcome.status))
            && (kind == ReviewDisagreement
                <==> (Stands(req, reply, VPass, false) || Stands(req, reply, VFail, false)) && Overturns(audit))
            && (kind == InvalidEvidenceReference <==> BreaksRefs(req, reply))
            && (kind == QuoteFabrication <==> BreaksQuotes(req, reply))
            && (kind == TargetKindMismatch <==> DeclinesKind(req, reply))
            && (kind == CrossArtifactPredicate <==> DeclinesCross(reply))
  {
    if reply.Answer? {
      SoundIff(req, reply.j, false);
      DeclineKinds(req, reply.j, Meta(1, [req.model], reply.t.cost, reply.t.latency));
    }
    hide GroundOf, EvidenceStands, Shows, Decline;
  }

  /** The reply passes or fails on quotes that do not all stand. */
  ghost predicate BreaksQuotes(req: Request, reply: Reply) {
    reply.Answer? && reply.j.verdict != VUnsupported && reply.j.refs.None? && !EvidenceStands(req, reply.j, false)
  }

  predicate DeclinesCross(reply: Reply) { reply.Answer? && reply.j.verdict == VUnsupported && reply.j.crossArtifact }

  lemma DeclineKinds(req: Request, j: Judgment, meta: Meta)
    ensures var out := Decline(req, j, meta);
            && !IsVerdict(out.status) && (out.kind == CrossArtifactPredicate <==> j.crossArtifact)
            && (out.kind == TargetKindMismatch <==> !j.crossArtifact && req.hasTargetKind)
            && (out.kind == ProviderError <==> !j.crossArtifact && !req.hasTargetKind)
            && (out.kind == CrossArtifactPredicate || out.kind == TargetKindMismatch || out.kind == ProviderError)
  {}

  lemma BallotStands(req: Request, reply: Reply, v: Verdict)
    requires v != VUnsupported
    ensures BallotOf(req, reply).verdict == v <==> Stands(req, reply, v, false)
  {
    if reply.Answer? { SoundIff(req, reply.j, false); }
    hide GroundOf, EvidenceStands, Shows;
  }

  lemma {:induction false} StandingVotes(req: Request, replies: seq<Reply>, v: Verdict)
    requires v != VUnsupported
    ensures Count(Votes(Ballots(req, replies)), v) == Standing(req, replies, v)
  {
    hide BallotOf, Stands;
    if replies == [] {
    } else {
      StandingVotes(req, replies[1..], v);
      BallotStands(req, replies[0], v);
      assert Votes(Ballots(req, replies))[1..] == Votes(Ballots(req, replies[1..]));
    }
  }

  /** A panel, over the replies. */
  lemma ConsensusStatus(req: Request, replies: seq<Reply>)
    ensures var out := ConsensusOutcome(req, replies);
            && (out.status == PASS <==> PanelGives(req, replies, VPass))
            && (out.status == FAIL <==> PanelGives(req, replies, VFail))
            && (out.status == UNAVAILABLE <==> replies != [] && AllRaised(replies))
            && (out.status == UNSUPPORTED || out.status == UNAVAILABLE || IsVerdict(out.status))
            && (out.kind == LlmConsensus <==> IsVerdict(out.status))
            && (!IsVerdict(out.status) ==> out.quotes == [] && out.refs == [])
            && (out.kind == ConsensusTie
                <==> 2 * Standing(req, replies, VPass) == |replies| == 2 * Standing(req, replies, VFail)
                     && !(replies != [] && AllRaised(replies)))
  {
    var votes := Votes(Ballots(req, replies));
    StandingVotes(req, replies, VPass);
    StandingVotes(req, replies, VFail);
    MajorityIff(votes, VPass);
    MajorityIff(votes, VFail);
    CountsAddUp(votes);
    if replies != [] { PanelErrors(req, replies); }
    if replies != [] && AllRaised(replies) { NoneStands(req, replies, VPass); NoneStands(req, replies, VFail); }
    hide BallotOf, Standing, AllRaised, MergedQuotes, MergedRefs, Account, Count;
  }

  /** What an answer shows is determined. */
  lemma ShowsUnique(req: Request, j: Judgment, q1: seq<string>, r1: seq<EvidenceRef>,
                    q2: seq<string>, r2: seq<EvidenceRef>)
    requires Shows(req, j, q1, r1) && Shows(req, j, q2, r2)
    ensures q1 == q2 && r1 == r2
  {
    if j.refs.Some? {
      var s1 :| Meets(true, Multi(req), Artifacts(req), j.refs, Accepted(q1, r1, s1));
      var s2 :| Meets(true, Multi(req), Artifacts(req), j.refs, Accepted(q2, r2, s2));
      MeetsUnique(true, Multi(req), Artifacts(req), j.refs, Accepted(q1, r1, s1), Accepted(q2, r2, s2));
    }
  }

  ghost predicate ShowsQuote(req: Request, j: Judgment, q: string) {
    exists quotes, refs :: Shows(req, j, quotes, refs) && q in quotes
  }

  ghost predicate ShowsRef(req: Request, j: Judgment, r: EvidenceRef) {
    exists quotes, refs :: Shows(req, j, quotes, refs) && r in refs
  }

  lemma BallotShows(req: Request, reply: Reply, v: Verdict)
    requires Stands(req, reply, v, false)
    ensures BallotOf(req, reply).verdict == v
    ensures forall q :: q in BallotOf(req, reply).quotes <==> ShowsQuote(req, reply.j, q)
    ensures forall r :: r in BallotOf(req, reply).refs <==> ShowsRef(req, reply.j, r)
  {
    SoundIff(req, reply.j, false);
    var quotes, refs := BallotOf(req, reply).quotes, BallotOf(req, reply).refs;
    assert Shows(req, reply.j, quotes, refs);
    hide GroundOf, EvidenceStands, Shows;
    forall qs, rs | Shows(req, reply.j, qs, rs) ensures qs == quotes && rs == refs {
      ShowsUnique(req, reply.j, qs, rs, quotes, refs);
    }
  }

  /** Some judge who gives v shows the quote. */
  ghost predicate JudgeShows(req: Request, replies: seq<Reply>, v: Verdict, q: string) {
    exists i :: 0 <= i < |replies| && Stands(req, replies[i], v, false) && ShowsQuote(req, replies[i].j, q)
  }

  ghost predicate JudgeShowsRef(req: Request, replies: seq<Reply>, v: Verdict, r: EvidenceRef) {
    exists i :: 0 <= i < |replies| && Stands(req, replies[i], v, false) && ShowsRef(req, replies[i].j, r)
  }

  lemma BallotAt(req: Request, replies: seq<Reply>, v: Verdict, i: nat)
    requires i < |replies| && v != VUnsupported
    ensures var b := Ballots(req, replies)[i];
            && b in Ballots(req, replies) && (b.verdict == v <==> Stands(req, replies[i], v, false))
            && (b.verdict == v ==> forall q :: q in b.quotes <==> ShowsQuote(req, replies[i].j, q))
            && (b.verdict == v ==> forall r :: r in b.refs <==> ShowsRef(req, replies[i].j, r))
  {
    BallotStands(req, replies[i], v);
    if Stands(req, replies[i], v, false) { BallotShows(req, replies[i], v); }
    hide BallotOf, Stands, ShowsQuote, ShowsRef;
    assert Ballots(req, replies)[i] == BallotOf(req, replies[i]);
  }

  lemma MergedQuoteIff(req: Request, replies: seq<Reply>, v: Verdict, q: string)
    requires v != VUnsupported
    ensures q in MergedQuotes(Ballots(req, replies), v) <==> JudgeShows(req, replies, v, q)
  {
    hide BallotOf, EvidenceStands, ShowsQuote, ShowsRef, MergedQuotes, Ballots;
    var ballots := Ballots(req, replies);
    MergedQuotesExact(ballots, v);
    BallotCount(req, replies);
    if q in MergedQuotes(ballots, v) {
      var b :| b in ballots && b.verdict == v && q in b.quotes;
      var k :| 0 <= k < |ballots| && ballots[k] == b;
      BallotAt(req, replies, v, k);
      assert Stands(req, replies[k], v, false) && ShowsQuote(req, replies[k].j, q);
    }
    if JudgeShows(req, replies, v, q) {
      var k :| 0 <= k < |replies| && Stands(req, replies[k], v, false) && ShowsQuote(req, replies[k].j, q);
      BallotAt(req, replies, v, k);
    }
  }

  lemma MergedRefIff(req: Request, replies: seq<Reply>, v: Verdict, r: EvidenceRef)
    requires v != VUnsupported
    ensures r in MergedRefs(Ballots(req, replies), v) <==> JudgeShowsRef(req, replies, v, r)
  {
    hide BallotOf, EvidenceStands, ShowsQuote, ShowsRef, MergedRefs, Ballots;
    var ballots := Ballots(req, replies);
    MergedRefsExact(ballots, v);
    BallotCount(req, replies);
    if r in MergedRefs(ballots, v) {
      var b :| b in ballots && b.verdict == v && r in b.refs;
      var k :| 0 <= k < |ballots| && ballots[k] == b;
      BallotAt(req, replies, v, k);
      assert Stands(req, replies[k], v, false) && ShowsRef(req, replies[k].j, r);
    }
    if JudgeShowsRef(req, replies, v, r) {
      var k :| 0 <= k < |replies| && Stands(req, replies[k], v, false) && ShowsRef(req, replies[k].j, r);
      BallotAt(req, replies, v, k);
    }
  }

  lemma BallotCount(req: Request, replies: seq<Reply>)
    ensures |Ballots(req, replies)| == |replies|
  {}

  /** A panel's verdict shows exactly what the judges who gave it show, each quote and reference once. */
  lemma PanelShows(req: Request, replies: seq<Reply>, v: Verdict)
    requires v != VUnsupported && PanelGives(req, replies, v)
    ensures var out := ConsensusOutcome(req, replies);
            && (forall q :: q in out.quotes <==> JudgeShows(req, replies, v, q))
            && (forall r :: r in out.refs <==> JudgeShowsRef(req, replies, v, r))
            && Distinct(out.quotes) && Distinct(out.refs)
  {
    hide *;
    var ballots, out := Ballots(req, replies), ConsensusOutcome(req, replies);
    PanelMerges(req, replies, v);
    MergedQuotesExact(ballots, v);
    MergedRefsExact(ballots, v);
    forall q ensures q in out.quotes <==> JudgeShows(req, replies, v, q) { MergedQuoteIff(req, replies, v, q); }
    forall r ensures r in out.refs <==> JudgeShowsRef(req, replies, v, r) { MergedRefIff(req, replies, v, r); }
  }

  lemma PanelMerges(req: Request, replies: seq<Reply>, v: Verdict)
    requires v != VUnsupported && PanelGives(req, replies, v)
    ensures ConsensusOutcome(req, replies).quotes == MergedQuotes(Ballots(req, replies), v)
    ensures ConsensusOutcome(req, replies).refs == MergedRefs(Ballots(req, replies), v)
  {
    ConsensusStatus(req, replies);
    StandingVotes(req, replies, v);
    MajorityIff(Votes(Ballots(req, replies)), v);
    hide BallotOf, Standing, MergedQuotes, MergedRefs, Account, Count, Decide, Ballots, Votes;
  }

  lemma {:induction false} NoneStands(req: Request, replies: seq<Reply>, v: Verdict)
    requires AllRaised(replies)
    ensures Standing(req, replies, v) == 0
  {
    if replies == [] {
    } else {
      NoneStands(req, replies[1..], v);
    }
  }

  /** Adaptive, over the replies of its tiers. */
  lemma AdaptiveStatus(req: Request, p: Provider, first: nat)
    ensures var status := Adaptive(req, p, first).outcome.status;
            && (status == PASS <==> AdaptiveGives(req, p, first, VPass))
            && (status == FAIL <==> AdaptiveGives(req, p, first, VFail))
  {
    SingleStatus(req, p.judge(first));
    ReviewStatus(req, p.judge(first + 1), p.audit(first + 2));
    ConsensusStatus(req, Replies(p.judge, first + 1, PanelSize(req)));
    FabricatesIff(req, p.judge(first));
    KindDeclined(req, p.judge(first));
    VerdictKinds(req, p.judge(first), p.audit(first), []);
    hide Stands, ReviewGives, PanelGives, SingleOutcome, Review, ConsensusOutcome, Fabricates, DeclinesKind, Replies,
         PanelSize, Unaccounted, BreaksRefs, Shows, AllRaised;
  }

  /** The direction of every verdict, for every strategy and provider: PASS (FAIL) exactly when the
      replies, read as the strategy reads them, say pass (fail) on evidence that stands. */
  lemma VerdictIff(id: StrategyId, req: Request, p: Provider, first: nat)
    ensures RunStrategy(id, req, p, first).outcome.status == PASS <==> Gives(id, req, p, first, VPass)
    ensures RunStrategy(id, req, p, first).outcome.status == FAIL <==> Gives(id, req, p, first, VFail)
  {
    SingleStatus(req, p.judge(first));
    ReviewStatus(req, p.judge(first), p.audit(first + 1));
    ConsensusStatus(req, Replies(p.judge, first, PanelSize(req)));
    AdaptiveStatus(req, p, first);
    hide *;
  }

  lemma RepliesAdmissible(p: Provider, first: nat, n: nat)
    requires AdmissibleProvider(p)
    ensures forall r :: r in Replies(p.judge, first, n) ==> AdmissibleReply(r)
  {}

  lemma BasicSupported(req: Request, reply: Reply, audit: AuditReply)
    requires AdmissibleReply(reply)
    ensures IsVerdict(SingleOutcome(req, reply).status) ==> Supported(req, SingleOutcome(req, reply).quotes)
    ensures IsVerdict(Review(req, reply, audit).outcome.status) ==>
              Supported(req, Review(req, reply, audit).outcome.quotes)
  {
    hide GroundOf, Supported, Admissible;
    if reply.Answer? && reply.j.verdict != VUnsupported {
      if GroundOf(req, reply.j, true).Sound? { SoundIsSupported(req, reply.j, true); }
      if GroundOf(req, reply.j, false).Sound? { SoundIsSupported(req, reply.j, false); }
    }
  }

  /** No ungrounded verdict: whatever the provider answers or fails to answer, a PASS or
      FAIL of any strategy carries a quote and only quotes found in the grounding text. */
  lemma VerdictsAreSupported(id: StrategyId, req: Request, p: Provider, first: nat)
    requires AdmissibleProvider(p)
    requires IsVerdict(RunStrategy(id, req, p, first).outcome.status)
    ensures Supported(req, RunStrategy(id, req, p, first).outcome.quotes)
    ensures Gives(id, req, p, first, if RunStrategy(id, req, p, first).outcome.status == PASS then VPass else VFail)
  {
    VerdictIff(id, req, p, first);
    hide SingleOutcome, Review, ConsensusOutcome, Supported, PanelSize, AdmissibleReply, Replies, Gives;
    RepliesAdmissible(p, first, PanelSize(req));
    RepliesAdmissible(p, first + 1, PanelSize(req));
    assert AdmissibleReply(p.judge(first)) && AdmissibleReply(p.judge(first + 1));
    BasicSupported(req, p.judge(first), p.audit(first + 1));
    BasicSupported(req, p.judge(first + 1), p.audit(first + 2));
    if IsVerdict(ConsensusOutcome(req, Replies(p.judge, first, PanelSize(req))).status) {
      ConsensusSupported(req, Replies(p.judge, first, PanelSize(req)));
    }
    if IsVerdict(ConsensusOutcome(req, Replies(p.judge, first + 1, PanelSize(req))).status) {
      ConsensusSupported(req, Replies(p.judge, first + 1, PanelSize(req)));
    }
  }

  // ---- conservation of telemetry ----

  /** The three direct strategies account for their calls exactly when the outcome is not a
      provider error, whose record has no telemetry. */
  lemma DirectAccount(req: Request, reply: Reply, audit: AuditReply, replies: seq<Reply>)
    requires replies != []
    ensures var run := Single(req, reply);
            run.outcome.meta == Account(req, run.trace) <==> run.outcome.kind != ProviderError
    ensures var run := Review(req, reply, audit);
            run.outcome.meta == Account(req, run.trace) <==> run.outcome.kind != ProviderError
    ensures var run := Consensus(req, replies);
            run.outcome.meta == Account(req, run.trace) <==> run.outcome.kind != ProviderError
  {
    hide GroundOf, Decide, BallotOf;
    AccountOne(req, CallOf(reply));
    AccountTwo(req, CallOf(reply), AuditCall(audit));
  }

  lemma AccountOne(req: Request, c: Option<Telemetry>)
    ensures Account(req, [c])
         == Meta(1, [req.model], if c.None? then None else c.value.cost, if c.None? then 0 else c.value.latency)
  {
    var t: Trace := [c];
    assert t[..|t| - 1] == [];
    assert TotalLatency(t) == if c.None? then 0 else c.value.latency;
    assert TotalCost(t) == if c.None? then None else c.value.cost;
    assert Account(req, t).models == [req.model];
  }

  lemma AccountTwo(req: Request, c: Option<Telemetry>, d: Option<Telemetry>)
    ensures Account(req, [c, d]) == MetaSum(Account(req, [c]), Account(req, [d]))
  {
    AccountSum(req, [c], [d]);
    assert [c] + [d] == [c, d];
  }

  lemma {:induction false} TotalsAdd(a: Trace, b: Trace)
    ensures TotalLatency(a + b) == TotalLatency(a) + TotalLatency(b)
    ensures TotalCost(a + b)
         == if TotalCost(a).None? || TotalCost(b).None? then None else Some(TotalCost(a).value + TotalCost(b).value)
  {
    if b == [] {
      assert a + b == a;
    } else {
      TotalsAdd(a, b[..|b| - 1]);
      assert (a + b)[..|a + b| - 1] == a + b[..|b| - 1];
    }
  }

  /** Accounts of consecutive traces add up. */
  lemma AccountSum(req: Request, a: Trace, b: Trace)
    ensures MetaSum(Account(req, a), Account(req, b)) == Account(req, a + b)
  {
    TotalsAdd(a, b);
  }

  /** A tier accounts for its calls, or is a provider error without telemetry. */
  predicate TierAccount(req: Request, tier: Run) {
    && (tier.outcome.meta == Account(req, tier.trace) <==> tier.outcome.kind != ProviderError)
    && (tier.outcome.kind == ProviderError ==> tier.outcome.meta == NoMeta)
    && tier.trace != []
  }

  lemma MergeAccount(req: Request, tier1: Run, tier2: Run)
    requires TierAccount(req, tier1) && TierAccount(req, tier2)
    ensures var run := AdaptiveMerge(tier1, tier2);
            run.outcome.meta == Account(req, run.trace)
            <==> tier1.outcome.kind != ProviderError && tier2.outcome.kind != ProviderError
  {
    AccountSum(req, tier1.trace, tier2.trace);
  }

  /** Adaptive accounts for both tiers exactly when neither ended in a provider error. */
  lemma AdaptiveAccount(req: Request, p: Provider, first: nat)
    ensures var run := Adaptive(req, p, first);
            && run.outcome.kind.LlmAdaptive?
            && (run.outcome.meta == Account(req, run.trace)
                <==> run.outcome.kind.tier1 != ProviderError && run.outcome.kind.tier2 != Some(ProviderError))
  {
    hide SingleOutcome, Tier2, Account, TierAccount, Escalates;
    var tier1 := Single(req, p.judge(first));
    TiersAccount(req, p, first, tier1.outcome);
    MergeAccount(req, tier1, Tier2(req, p, first, tier1.outcome));
    if !Escalates(req, tier1.outcome) { FirstTierAccount(req, p, first); }
  }

  lemma TiersAccount(req: Request, p: Provider, first: nat, tier1: Outcome)
    ensures TierAccount(req, Single(req, p.judge(first))) && TierAccount(req, Tier2(req, p, first, tier1))
  {
    hide SingleOutcome, Review, ConsensusOutcome, PanelSize, Account;
    DirectAccount(req, p.judge(first), p.audit(first + 1), Replies(p.judge, first, 1));
    DirectAccount(req, p.judge(first + 1), p.audit(first + 2), Replies(p.judge, first + 1, PanelSize(req)));
    DirectMeta(req, p.judge(first), p.audit(first), Replies(p.judge, first, 1));
    DirectMeta(req, p.judge(first + 1), p.audit(first + 2), Replies(p.judge, first + 1, PanelSize(req)));
  }

  lemma FirstTierAccount(req: Request, p: Provider, first: nat)
    requires TierAccount(req, Single(req, p.judge(first))) && !Escalates(req, Single(req, p.judge(first)).outcome)
    ensures var run := Adaptive(req, p, first);
            run.outcome.meta == Account(req, run.trace) <==> run.outcome.kind.tier1 != ProviderError
  {
    hide SingleOutcome;
  }

  /** A provider-error record has no telemetry, and every run makes a call. */
  lemma DirectMeta(req: Request, reply: Reply, audit: AuditReply, replies: seq<Reply>)
    requires replies != []
    ensures Single(req, reply).outcome.kind == ProviderError ==> Single(req, reply).outcome.meta == NoMeta
    ensures Review(req, reply, audit).outcome.kind == ProviderError ==> Review(req, reply, audit).outcome.meta == NoMeta
    ensures Consensus(req, replies).outcome.kind == ProviderError ==> Consensus(req, replies).outcome.meta == NoMeta
    ensures |Single(req, reply).trace| == 1 && |Review(req, reply, audit).trace| >= 1
    ensures |Consensus(req, replies).trace| >= 1
  {
    hide GroundOf, Decide, BallotOf;
  }

  /** A reply on which single and review end in a provider error: it raised, could not be parsed,
      or declined, for its target kind, a rule that has none. */
  predicate Unaccounted(req: Request, reply: Reply) {
    !reply.Answer? || (reply.j.verdict == VUnsupported && !reply.j.crossArtifact && !req.hasTargetKind)
  }

  predicate AllRaised(replies: seq<Reply>) { forall i :: 0 <= i < |replies| ==> replies[i].Raised? }

  /** Over the replies alone: single and review account for their calls exactly on other replies,
      a panel exactly when some judge did not raise. */
  lemma DirectAccountOverReplies(req: Request, reply: Reply, audit: AuditReply, replies: seq<Reply>)
    requires replies != []
    ensures var run := Single(req, reply); run.outcome.meta == Account(req, run.trace) <==> !Unaccounted(req, reply)
    ensures var run := Review(req, reply, audit);
            run.outcome.meta == Account(req, run.trace) <==> !Unaccounted(req, reply)
    ensures var run := Consensus(req, replies);
            run.outcome.meta == Account(req, run.trace) <==> !AllRaised(replies)
  {
    DirectAccount(req, reply, audit, replies);
    DirectErrors(req, reply, audit);
    PanelErrors(req, replies);
    hide SingleOutcome, Review, ConsensusOutcome, Account;
  }

  lemma DirectErrors(req: Request, reply: Reply, audit: AuditReply)
    ensures Single(req, reply).outcome.kind == ProviderError <==> Unaccounted(req, reply)
    ensures Review(req, reply, audit).outcome.kind == ProviderError <==> Unaccounted(req, reply)
  {
    hide GroundOf;
  }

  lemma PanelErrors(req: Request, replies: seq<Reply>)
    requires replies != []
    ensures Consensus(req, replies).outcome.kind == ProviderError <==> AllRaised(replies)
  {
    hide GroundOf, Decide, Account, MergedQuotes, MergedRefs;
    var ballots := Ballots(req, replies);
    forall i | 0 <= i < |replies| ensures ballots[i].providerFailed == replies[i].Raised? && ballots[i] in ballots {
      assert ballots[i] == BallotOf(req, replies[i]);
    }
    if AllRaised(replies) {
      assert forall b :: b in ballots ==> b.providerFailed;
    }
  }

  /** The first tier declines for its target kind. */
  predicate DeclinesKind(req: Request, reply: Reply) {
    reply.Answer? && reply.j.verdict == VUnsupported && !reply.j.crossArtifact && req.hasTargetKind
  }

  /** The replies on which adaptive undercounts: the first tier ends in a provider error, or the
      second one does. */
  predicate AdaptiveUnaccounted(req: Request, p: Provider, first: nat) {
    var reply := p.judge(first);
    || Unaccounted(req, reply)
    || (Fabricates(req, reply) && req.escalateFabrication && Unaccounted(req, p.judge(first + 1)))
    || (DeclinesKind(req, reply) && AllRaised(Replies(p.judge, first + 1, PanelSize(req))))
  }

  /** Adaptive accounts for all its calls exactly on the other replies. */
  lemma AdaptiveAccountOverReplies(req: Request, p: Provider, first: nat)
    ensures var run := Adaptive(req, p, first);
            run.outcome.meta == Account(req, run.trace) <==> !AdaptiveUnaccounted(req, p, first)
  {
    var panel := Replies(p.judge, first + 1, PanelSize(req));
    AdaptiveAccount(req, p, first);
    FabricatesIff(req, p.judge(first));
    DirectErrors(req, p.judge(first), p.audit(first + 1));
    DirectErrors(req, p.judge(first + 1), p.audit(first + 2));
    PanelErrors(req, panel);
    KindDeclined(req, p.judge(first));
    hide Account, Review, ConsensusOutcome, Fabricates, Unaccounted, DeclinesKind, PanelSize, SingleOutcome, Replies;
  }

  lemma KindDeclined(req: Request, reply: Reply)
    ensures SingleOutcome(req, reply).kind == TargetKindMismatch <==> DeclinesKind(req, reply)
    ensures SingleOutcome(req, reply).kind == CrossArtifactPredicate
        <==> reply.Answer? && reply.j.verdict == VUnsupported && reply.j.crossArtifact
  {
    hide GroundOf;
  }

  /** Conservation: on a PASS or FAIL of any strategy the reported calls are the calls made,
      one model each, the latency is that of the calls that returned, and the cost is the
      sum of all costs, unknown exactly when some call's cost is. */
  lemma VerdictsAreAccounted(id: StrategyId, req: Request, p: Provider, first: nat)
    requires IsVerdict(RunStrategy(id, req, p, first).outcome.status)
    ensures var run := RunStrategy(id, req, p, first);
            && run.outcome.meta == Account(req, run.trace)
            && run.outcome.meta.calls == |run.trace| == |run.outcome.meta.models|
            && (run.outcome.meta.cost.None?
                <==> exists i :: 0 <= i < |run.trace| && (run.trace[i].None? || run.trace[i].value.cost.None?))
  {
    hide SingleOutcome, Review, ConsensusOutcome, PanelSize, Decline;
    var run := RunStrategy(id, req, p, first);
    CostUnknownIff(run.trace);
    DirectAccount(req, p.judge(first), p.audit(first + 1), Replies(p.judge, first, PanelSize(req)));
    DirectAccount(req, p.judge(first + 1), p.audit(first + 2), Replies(p.judge, first + 1, PanelSize(req)));
    AdaptiveAccount(req, p, first);
    VerdictKinds(req, p.judge(first), p.audit(first + 1), Replies(p.judge, first, PanelSize(req)));
    VerdictKinds(req, p.judge(first + 1), p.audit(first + 2), Replies(p.judge, first + 1, PanelSize(req)));
  }

  /** Verdicts never come with a provider-error record. */
  lemma VerdictKinds(req: Request, reply: Reply, audit: AuditReply, replies: seq<Reply>)
    ensures IsVerdict(SingleOutcome(req, reply).status) ==> SingleOutcome(req, reply).kind == LlmJudgment
    ensures IsVerdict(Review(req, reply, audit).outcome.status) ==> Review(req, reply, audit).outcome.kind == LlmReview
    ensures IsVerdict(ConsensusOutcome(req, replies).status) ==> ConsensusOutcome(req, replies).kind == LlmConsensus
  {
    hide GroundOf, Decide, BallotOf;
  }

  // ---- no artifact to quote ----

  lemma NothingReadable(targets: seq<Target>)
    requires forall x :: x in targets ==> !x.readable
    ensures ReadableTexts(targets) == []
  {
    if targets != [] { NothingReadable(targets[1..]); }
  }

  lemma UnreadableUngrounded(req: Request, j: Judgment, perTarget: bool)
    requires Multi(req) && (forall x :: x in req.targets ==> !x.readable) && Admissible(j) && j.verdict != VUnsupported
    ensures !GroundOf(req, j, perTarget).Sound?
  {
    NothingReadable(req.targets);
    ReasonsOf(j);
    NoRefsIff(true, true, Artifacts(req), j.refs);
    NoneQuotable(true, Artifacts(req), j.refs);
    hide Admissible, Normalise, Strip, StrictId, Reconstruct, Grounded;
    if j.refs.None? {
      UngroundedEmpty(j.quotes, FlatText(req));
      PerTargetUngroundedEmpty(req, j, |j.quotes|);
      assert j.quotes[0] in j.quotes;
      NothingGrounded(j.quotes[0]);
      assert !GroundedIn(req.targets, StrictId(req, j, 0), j.quotes[0]);
    }
  }

  /** References only resolve to quotable artifacts. */
  lemma NoneQuotable(multi: bool, artifacts: seq<EvidenceArtifact>, entries: Option<seq<Json>>)
    requires artifacts != [] && forall i :: 0 <= i < |artifacts| ==> !artifacts[i].quotable
    ensures !Reconstruct(true, multi, artifacts, entries).Accepted?
  {
    if entries.Some? && entries.value != [] { FirstRefFails(multi, artifacts, entries.value); }
  }

  lemma FirstRefFails(multi: bool, artifacts: seq<EvidenceArtifact>, entries: seq<Json>)
    requires artifacts != [] && entries != [] && forall i :: 0 <= i < |artifacts| ==> !artifacts[i].quotable
    ensures ResolveRefs(multi, artifacts, entries).Err?
  {
    assert ResolveRef(multi, artifacts, entries[0]).Err?;
    hide ResolveRef;
  }

  lemma NothingGrounded(q: string)
    ensures !Grounded("", q)
  {
    NormaliseBlank("");
    NormaliseEmptyIffBlank(q);
  }

  /** Without a readable artifact no auditor is asked: the judges' answers decide the run. */
  lemma UnreadableUnaudited(id: StrategyId, req: Request, p: Provider, q: Provider, first: nat)
    requires Multi(req) && (forall x :: x in req.targets ==> !x.readable)
    requires AdmissibleProvider(p) && forall n :: p.judge(n) == q.judge(n)
    ensures RunStrategy(id, req, p, first) == RunStrategy(id, req, q, first)
  {
    SameReplies(p, q, first, PanelSize(req));
    SameReplies(p, q, first + 1, PanelSize(req));
    UnreadableReview(req, p.judge(first), p.audit(first + 1), q.audit(first + 1));
    UnreadableReview(req, p.judge(first + 1), p.audit(first + 2), q.audit(first + 2));
    hide Review, Consensus, SingleOutcome, Replies, PanelSize, Admissible;
  }

  lemma SameReplies(p: Provider, q: Provider, first: nat, n: nat)
    requires forall k :: p.judge(k) == q.judge(k)
    ensures Replies(p.judge, first, n) == Replies(q.judge, first, n)
  {}

  lemma UnreadableReview(req: Request, reply: Reply, audit: AuditReply, other: AuditReply)
    requires Multi(req) && (forall x :: x in req.targets ==> !x.readable) && AdmissibleReply(reply)
    ensures Review(req, reply, audit) == Review(req, reply, other)
  {
    if reply.Answer? && reply.j.verdict != VUnsupported { UnreadableUngrounded(req, reply.j, false); }
    hide GroundOf, Admissible;
  }

  // ---- adaptive recovery ----

  /** After a fabricated first tier, only the second tier's own evidence can carry a
      verdict, and the "recovered" label means no more than a second tier that was not
      unsupported: with a verdict exactly when it was available. */
  lemma RecoveryNeedsTier2(req: Request, p: Provider, first: nat)
    requires Single(req, p.judge(first)).outcome.kind == QuoteFabrication
    ensures var out := Adaptive(req, p, first).outcome;
            var tier2 := Review(req, p.judge(first + 1), p.audit(first + 2)).outcome;
            if !req.escalateFabrication then out.status == UNSUPPORTED && out.kind.tier == 1
            else
              && (IsVerdict(out.status) <==> IsVerdict(tier2.status))
              && (IsVerdict(out.status) ==> out.status == tier2.status && out.quotes == tier2.quotes)
              && (out.kind.recovery == Some(Recovered) <==> tier2.status != UNSUPPORTED)
              && (out.kind.recovery == Some(Recovered) ==> (IsVerdict(out.status) <==> tier2.status != UNAVAILABLE))
  {
    hide GroundOf;
  }

  /** The second tier's judge gives review nothing to audit: it fails, declines a rule without a
      target kind for it, or cites references that do not resolve. */
  predicate Unusable(req: Request, reply: Reply) {
    || !reply.Answer?
    || (reply.j.verdict == VUnsupported && !reply.j.crossArtifact && !req.hasTargetKind)
    || (reply.j.verdict != VUnsupported && Reconstruct(true, Multi(req), Artifacts(req), reply.j.refs).Rejected?)
  }

  /** A first tier that fabricates: a passing or failing answer whose legacy quotes fail. */
  predicate Fabricates(req: Request, reply: Reply) {
    && reply.Answer? && reply.j.verdict != VUnsupported && reply.j.refs.None?
    && if Multi(req) then PerTargetUngrounded(req, reply.j, |reply.j.quotes|) != []
       else Ungrounded(reply.j.quotes, req.text) != []
  }

  /** The auditor overturns the judge. */
  predicate Overturns(audit: AuditReply) { audit.Audited? && (audit.a == PassShouldFail || audit.a == FailShouldPass) }

  /** What a fabricated first tier ends in, over the replies alone: a recovered verdict exactly
      when the second judge passes or fails on grounded evidence and is not overturned, a
      "recovered" run without a verdict exactly when the second judge is unusable, and otherwise
      an unsupported outcome that is not called recovered. */
  lemma RecoveryOverReplies(req: Request, p: Provider, first: nat)
    requires Fabricates(req, p.judge(first)) && req.escalateFabrication
    ensures var out, reply := Adaptive(req, p, first).outcome, p.judge(first + 1);
            && out.kind.LlmAdaptive?
            && (out.kind.recovery == Some(Recovered) && IsVerdict(out.status)
                <==> reply.Answer? && reply.j.verdict != VUnsupported && GroundOf(req, reply.j, false).Sound?
                     && !Overturns(p.audit(first + 2)))
            && (out.kind.recovery == Some(Recovered) && !IsVerdict(out.status) <==> Unusable(req, reply))
            && (out.kind.recovery != Some(Recovered) ==> out.status == UNSUPPORTED)
  {
    FabricatesIff(req, p.judge(first));
    GroundRejected(req, p.judge(first + 1));
    hide GroundOf, Reconstruct, Fabricates;
    RecoveryNeedsTier2(req, p, first);
  }

  /** Fabrication is the first tier's outcome exactly on fabricating replies. */
  lemma FabricatesIff(req: Request, reply: Reply)
    ensures SingleOutcome(req, reply).kind == QuoteFabrication <==> Fabricates(req, reply)
  {
    if reply.Answer? { NoRefsIff(true, Multi(req), Artifacts(req), reply.j.refs); }
    hide Reconstruct, PerTargetUngrounded, Ungrounded;
  }

  lemma GroundRejected(req: Request, reply: Reply)
    ensures reply.Answer? ==>
              (GroundOf(req, reply.j, false).BadRefs?
               <==> Reconstruct(true, Multi(req), Artifacts(req), reply.j.refs).Rejected?)
  {
    hide Reconstruct, Ungrounded;
  }

  /** The label is not a verdict: a judge that fabricates and then a provider that fails
      ends as an unavailable outcome labelled recovered. */
  lemma RecoveredWithoutVerdict() returns (req: Request, p: Provider)
    ensures AdmissibleProvider(p)
    ensures var out := Adaptive(req, p, 0).outcome;
            out.status == UNAVAILABLE && out.kind.LlmAdaptive? && out.kind.recovery == Some(Recovered)
  {
    req := Request("m", false, [], "", None, None, true);
    var j := Judgment(VPass, "x", [""], None, None, None, false);
    CharNormal('x');
    p := Provider(n => if n == 0 then Answer(j, Telemetry(0, None)) else Raised, n => AuditRaised);
    StripAllSpace("");
    assert Ungrounded(j.quotes, FlatText(req)) == [""];
    assert Single(req, p.judge(0)).outcome.kind == QuoteFabrication;
  }
}
