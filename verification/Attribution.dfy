/** Which artifact the evidence of a verdict comes from. */
module Attribution {
  import opened Wrappers
  import opened Json
  import opened Text
  import opened Grounding
  import opened EvidenceRefs
  import opened Models
  import opened Strategies

  // ---- joined artifacts ----

  /** A text between whitespace, trimmed. */
  lemma CoreOf(a: string) returns (pre: string, core: string, post: string)
    ensures a == pre + core + post && AllSpace(pre) && AllSpace(post) && Trimmed(core)
    ensures core == "" <==> AllSpace(a)
    ensures core != "" ==> Normalise(a) == Collapse(Fold(core))
  {
    hide IsSpace;
    var i, j := StripSplit(a);
    pre, core, post := a[..i], a[i..j], a[j..];
    if core != "" {
      NormalisePadded(pre, core, post);
      NormaliseEmptyIffBlank(a);
      CollapseTrimmed(Fold(core));
    }
  }

  lemma SpaceConcat(a: string, b: string)
    ensures AllSpace(a + b) <==> AllSpace(a) && AllSpace(b)
  {
    if AllSpace(a + b) {
      assert forall i :: 0 <= i < |a| ==> a[i] == (a + b)[i];
      assert forall i :: 0 <= i < |b| ==> b[i] == (a + b)[|a| + i];
    }
  }

  lemma Blanks()
    ensures AllSpace(" ") && AllSpace("\n\n") && Collapse(" ") == " "
  {
    CollapseAllSpace(" ");
  }

  lemma TrimmedAround(x: string, w: string, y: string)
    requires x != "" && Trimmed(x) && y != "" && Trimmed(y)
    ensures Trimmed(x + w + y) && x + w + y != ""
  {
    hide IsSpace;
  }

  lemma CleanEnd(x: string, w: string)
    requires x != "" && Trimmed(x)
    ensures CleanCut(x, w) && CleanCut(w, x)
  {}

  /** Two cores with whitespace between them keep one blank. */
  lemma NormaliseCores(pre: string, x: string, w: string, y: string, post: string)
    requires x != "" && Trimmed(x) && y != "" && Trimmed(y) && w != "" && AllSpace(w) && AllSpace(pre) && AllSpace(post)
    ensures Normalise(pre + (x + w + y) + post) == Collapse(Fold(x)) + " " + Collapse(Fold(y))
  {
    Blanks();
    hide IsSpace, Collapse, Normalise, Trimmed, CleanCut;
    TrimmedAround(x, w, y);
    NormalisePadded(pre, x + w + y, post);
    NormalisePadded("", x + w + y, "");
    assert "" + (x + w + y) + "" == x + w + y;
    NormaliseSwap(x, w, " ", y);
    TrimmedAround(x, " ", y);
    NormalisePadded("", x + " " + y, "");
    assert "" + (x + " " + y) + "" == x + " " + y;
    FoldCores(x, y);
  }

  lemma FoldCores(x: string, y: string)
    requires x != "" && Trimmed(x) && y != "" && Trimmed(y)
    ensures Collapse(Fold(x + " " + y)) == Collapse(Fold(x)) + " " + Collapse(Fold(y))
  {
    Blanks();
    assert Fold(x + " " + y) == Fold(x) + " " + Fold(y);
    CleanEnd(Fold(x), " ");
    CleanEnd(Fold(y), Fold(x) + " ");
    hide *;
    CollapseConcat(Fold(x) + " ", Fold(y));
    CollapseConcat(Fold(x), " ");
  }

  /** Joining artifacts with a blank line leaves one blank between their normal forms, and
      nothing of a blank one. */
  lemma NormaliseJoined(a: string, b: string)
    ensures Normalise(a + "\n\n" + b)
         == if AllSpace(a) then Normalise(b)
            else if AllSpace(b) then Normalise(a)
            else Normalise(a) + " " + Normalise(b)
  {
    Blanks();
    hide *;
    var preA, x, postA := CoreOf(a);
    var preB, y, postB := CoreOf(b);
    SpaceConcat(a, "\n\n");
    SpaceConcat(a + "\n\n", b);
    SpaceConcat(a + "\n\n", preB);
    SpaceConcat("\n\n", b);
    SpaceConcat(postA, "\n\n" + b);
    SpaceConcat("\n\n", preB);
    SpaceConcat(postA, "\n\n" + preB);
    if AllSpace(a) && AllSpace(b) {
      NormaliseBlank(a + "\n\n" + b);
      NormaliseBlank(b);
    } else if AllSpace(a) {
      assert a + "\n\n" + (preB + y + postB) == (a + "\n\n" + preB) + y + postB;
      NormalisePadded(a + "\n\n" + preB, y, postB);
    } else if AllSpace(b) {
      assert (preA + x + postA) + "\n\n" + b == preA + x + (postA + ("\n\n" + b));
      NormalisePadded(preA, x, postA + ("\n\n" + b));
    } else {
      var w := postA + ("\n\n" + preB);
      assert (preA + x + postA) + "\n\n" + (preB + y + postB) == preA + (x + w + y) + postB;
      assert w != "" by { assert |w| >= 2; }
      NormaliseCores(preA, x, w, y, postB);
    }
  }

  function NonBlankTexts(texts: seq<string>): nat {
    if texts == [] then 0 else (if AllSpace(texts[0]) then 0 else 1) + NonBlankTexts(texts[1..])
  }

  /** How many readable artifacts have text. */
  function NonBlankTargets(targets: seq<Target>): nat {
    if targets == [] then 0
    else (if targets[0].readable && !AllSpace(targets[0].text) then 1 else 0) + NonBlankTargets(targets[1..])
  }

  lemma {:induction false} ReadableCount(targets: seq<Target>)
    ensures NonBlankTexts(ReadableTexts(targets)) == NonBlankTargets(targets)
  {
    hide AllSpace;
    if targets == [] {
    } else {
      ReadableCount(targets[1..]);
      if targets[0].readable {
        assert ReadableTexts(targets)[1..] == ReadableTexts(targets[1..]);
      } else {
        assert ReadableTexts(targets) == ReadableTexts(targets[1..]);
      }
    }
  }

  /** The flat text of one artifact with text, if any, normalises like that artifact. */
  lemma {:induction false} JoinOfOne(texts: seq<string>)
    requires NonBlankTexts(texts) <= 1
    ensures NonBlankTexts(texts) == 0 ==> Normalise(JoinTexts(texts)) == ""
    ensures NonBlankTexts(texts) == 1 ==>
              exists i :: 0 <= i < |texts| && !AllSpace(texts[i]) && Normalise(JoinTexts(texts)) == Normalise(texts[i])
  {
    hide AllSpace, Normalise;
    if texts == [] {
      NormaliseEmptyIffBlank("");
      assert AllSpace("");
    } else {
      var rest := texts[1..];
      NormaliseEmptyIffBlank(texts[0]);
      JoinUnfolds(texts);
      if !AllSpace(texts[0]) {
        JoinOfOne(rest);
        JoinBlankIff(rest);
        assert !AllSpace(texts[0]) && Normalise(JoinTexts(texts)) == Normalise(texts[0]);
      } else {
        JoinOfOne(rest);
        if NonBlankTexts(rest) == 1 {
          var i :| 0 <= i < |rest| && !AllSpace(rest[i]) && Normalise(JoinTexts(rest)) == Normalise(rest[i]);
          assert texts[i + 1] == rest[i];
        }
      }
    }
  }

  /** The normal form of a join, one text at a time. */
  lemma JoinUnfolds(texts: seq<string>)
    requires texts != []
    ensures var rest := JoinTexts(texts[1..]);
            Normalise(JoinTexts(texts))
              == if AllSpace(texts[0]) then Normalise(rest) else if AllSpace(rest) then Normalise(texts[0])
                 else Normalise(texts[0]) + " " + Normalise(rest)
  {
    var rest := JoinTexts(texts[1..]);
    hide AllSpace, Normalise;
    if |texts| == 1 {
      NormaliseEmptyIffBlank(texts[0]);
      NormaliseEmptyIffBlank(rest);
      assert rest == "";
      EmptyIsBlank();
    } else {
      NormaliseJoined(texts[0], rest);
    }
  }

  lemma EmptyIsBlank()
    ensures AllSpace("") && Normalise("") == ""
  {
    NormaliseBlank("");
  }

  lemma {:induction false} JoinBlankIff(texts: seq<string>)
    ensures AllSpace(JoinTexts(texts)) <==> NonBlankTexts(texts) == 0
  {
    hide AllSpace, Normalise;
    EmptyIsBlank();
    if texts == [] {
    } else {
      JoinBlankIff(texts[1..]);
      JoinUnfolds(texts);
      NormaliseEmptyIffBlank(JoinTexts(texts));
      NormaliseEmptyIffBlank(texts[0]);
      NormaliseEmptyIffBlank(JoinTexts(texts[1..]));
    }
  }

  /** With two artifacts with text the flat text is longer than any of them. */
  lemma {:induction false} JoinOfMany(texts: seq<string>, k: nat)
    requires k < |texts|
    ensures |Normalise(JoinTexts(texts))| >= |Normalise(texts[k])|
    ensures NonBlankTexts(texts) >= 2 ==> |Normalise(JoinTexts(texts))| > |Normalise(texts[k])|
  {
    hide AllSpace, Normalise;
    var rest := texts[1..];
    JoinUnfolds(texts);
    JoinBlankIff(rest);
    NormaliseEmptyIffBlank(texts[0]);
    NormaliseEmptyIffBlank(JoinTexts(rest));
    if k == 0 {
    } else {
      JoinOfMany(rest, k - 1);
    }
  }

  // ---- quotes against the flat text ----

  /** A quote without text, or one that some readable artifact grounds. */
  predicate InSomeArtifact(req: Request, quote: string) {
    Strip(quote) == "" || exists t :: t in req.targets && t.readable && Grounded(t.text, quote)
  }

  /** The flat text grounds exactly what the artifacts ground, for every quote, if and only if
      at most one readable artifact has text. */
  lemma FlatGroundingIff(req: Request)
    requires Multi(req)
    ensures (forall q :: Grounded(FlatText(req), q) ==> InSomeArtifact(req, q)) <==> NonBlankTargets(req.targets) <= 1
  {
    hide Normalise, Strip, AllSpace;
    ReadableCount(req.targets);
    if NonBlankTargets(req.targets) <= 1 {
      forall q | Grounded(FlatText(req), q) ensures InSomeArtifact(req, q) { OneArtifactGrounds(req, q); }
    } else {
      WholeTextCrosses(req);
    }
  }

  lemma OneArtifactGrounds(req: Request, q: string)
    requires Multi(req) && NonBlankTargets(req.targets) <= 1 && Grounded(FlatText(req), q)
    ensures InSomeArtifact(req, q)
  {
    hide Normalise, Strip, AllSpace;
    var texts := ReadableTexts(req.targets);
    ReadableCount(req.targets);
    JoinOfOne(texts);
    NormaliseEmptyIffBlank(q);
    if NonBlankTexts(texts) == 1 {
      var i :| 0 <= i < |texts| && !AllSpace(texts[i]) && Normalise(JoinTexts(texts)) == Normalise(texts[i]);
      var t := ReadableTargetOf(req.targets, i);
      assert Grounded(t.text, q);
    }
  }

  lemma {:induction false} ReadableTargetOf(targets: seq<Target>, i: nat) returns (t: Target)
    requires i < |ReadableTexts(targets)|
    ensures t in targets && t.readable && t.text == ReadableTexts(targets)[i]
  {
    if targets[0].readable && i == 0 {
      t := targets[0];
    } else {
      t := ReadableTargetOf(targets[1..], if targets[0].readable then i - 1 else i);
    }
  }

  /** The whole flat text is a quote that it grounds and that, with two artifacts with text, no
      artifact does. */
  lemma WholeTextCrosses(req: Request)
    requires Multi(req) && NonBlankTargets(req.targets) >= 2
    ensures Grounded(FlatText(req), FlatText(req)) && !InSomeArtifact(req, FlatText(req))
  {
    hide Normalise, Strip, AllSpace;
    var texts, flat := ReadableTexts(req.targets), FlatText(req);
    ReadableCount(req.targets);
    JoinBlankIff(texts);
    NormaliseEmptyIffBlank(flat);
    assert IsAt(Normalise(flat), Normalise(flat), 0);
    forall t | t in req.targets && t.readable ensures !Grounded(t.text, flat) {
      var i := ReadableTextAt(req.targets, t);
      JoinOfMany(texts, i);
    }
  }

  /** The flat text has no artifact boundaries: whenever two readable artifacts have text, an
      answer that quotes from one into the next is accepted by consensus and review and, whatever
      it names, refused by single. */
  lemma FlatTextHidesBoundaries(req: Request, ids: Option<seq<Option<string>>>) returns (j: Judgment)
    requires Multi(req) && NonBlankTargets(req.targets) >= 2
    ensures Admissible(j) && j.quotes == [FlatText(req)] && j.quoteTargets == ids
    ensures !InSomeArtifact(req, FlatText(req))
    ensures GroundOf(req, j, false).Sound? && GroundOf(req, j, true).Fabricated?
  {
    var flat := FlatText(req);
    j := QuotingProvider(flat).judge(0).j.(quoteTargets := ids);
    QuotingProviderAdmissible(flat);
    WholeTextCrosses(req);
    hide Normalise, Strip, FlatText, Grounded, StrictId, Reconstruct;
    NoRefsIff(true, true, Artifacts(req), None);
    UngroundedEmpty(j.quotes, flat);
    PerTargetUngroundedEmpty(req, j, 1);
    assert !GroundedIn(req.targets, StrictId(req, j, 0), j.quotes[0]);
  }

  /** The smallest case: the texts "a" and "b" and the quote "a", blank line, "b". */
  lemma CrossingExample() returns (req: Request, j: Judgment)
    ensures Multi(req) && FlatText(req) == "a\n\nb" && j.quotes == ["a\n\nb"]
    ensures GroundOf(req, j, false).Sound? && GroundOf(req, j, true).Fabricated?
  {
    req := Request("m", false, [Target("t", None, "a", true), Target("u", None, "b", true)], "", None, None, false);
    assert !IsSpace("a"[0]) && !IsSpace("b"[0]);
    assert req.targets[1..] == [Target("u", None, "b", true)] && req.targets[1..][1..] == [];
    assert ReadableTexts(req.targets[1..]) == ["b"];
    assert ReadableTexts(req.targets) == ["a", "b"] && ["a", "b"][1..] == ["b"];
    hide GroundOf, Grounded;
    j := FlatTextHidesBoundaries(req, None);
  }

  // ---- whole runs ----

  /** The strategy can reach a verdict whose legacy quotes were checked against the flat text. */
  predicate ReadsFlatText(id: StrategyId, req: Request) {
    match id
    case SingleStrategy => false
    case AdaptiveStrategy => req.hasTargetKind || req.escalateFabrication
    case _ => true
  }

  /** A strategy keeps every verdict's quotes inside single artifacts, whatever the provider
      answers, if and only if at most one readable artifact has text or the strategy never reads
      the flat text. */
  lemma FlatVerdictsIff(id: StrategyId, req: Request)
    requires Multi(req)
    ensures (forall p, first :: AdmissibleProvider(p) && IsVerdict(RunStrategy(id, req, p, first).outcome.status) ==>
               forall q :: q in RunStrategy(id, req, p, first).outcome.quotes ==> InSomeArtifact(req, q))
       <==> NonBlankTargets(req.targets) <= 1 || !ReadsFlatText(id, req)
  {
    hide Normalise, Strip, RunStrategy, Supported, FlatText, InSomeArtifact, ReadsFlatText;
    if NonBlankTargets(req.targets) <= 1 {
      forall p, first | AdmissibleProvider(p) && IsVerdict(RunStrategy(id, req, p, first).outcome.status)
        ensures forall q :: q in RunStrategy(id, req, p, first).outcome.quotes ==> InSomeArtifact(req, q)
      {
        VerdictsAreSupported(id, req, p, first);
        forall q | q in RunStrategy(id, req, p, first).outcome.quotes ensures InSomeArtifact(req, q) {
          SupportedInArtifact(req, RunStrategy(id, req, p, first).outcome.quotes, q);
        }
      }
    } else if !ReadsFlatText(id, req) {
      forall p, first | AdmissibleProvider(p) && IsVerdict(RunStrategy(id, req, p, first).outcome.status)
        ensures forall q :: q in RunStrategy(id, req, p, first).outcome.quotes ==> InSomeArtifact(req, q)
      {
        PerTargetRuns(id, req, p, first);
      }
    } else {
      WholeTextCrosses(req);
      FlatQuotePasses(id, req);
    }
  }

  lemma SupportedInArtifact(req: Request, quotes: seq<string>, q: string)
    requires Multi(req) && NonBlankTargets(req.targets) <= 1 && Supported(req, quotes) && q in quotes
    ensures InSomeArtifact(req, q)
  {
    SupportedQuote(req, quotes, q);
    hide Grounded, FlatText;
    if Strip(q) != "" { OneArtifactGrounds(req, q); }
  }

  /** A single verdict's quotes are in single artifacts. */
  lemma SingleInArtifacts(req: Request, reply: Reply, q: string)
    requires Multi(req) && AdmissibleReply(reply) && IsVerdict(SingleOutcome(req, reply).status)
    requires q in SingleOutcome(req, reply).quotes
    ensures InSomeArtifact(req, q)
  {
    var out := SingleOutcome(req, reply);
    assert reply.Answer?;
    hide Admissible, Normalise, Strip, Reconstruct, StrictId, SingleOutcome;
    var i :| 0 <= i < |out.quotes| && out.quotes[i] == q;
    SingleGroundsPerTarget(req, reply, i);
    if reply.j.refs.Some? {
      var t := req.targets[out.refs[i].index];
      assert t in req.targets && t.readable;
    }
  }

  /** A strategy that never reads the flat text has the verdicts of single. */
  lemma PerTargetRuns(id: StrategyId, req: Request, p: Provider, first: nat)
    requires Multi(req) && !ReadsFlatText(id, req) && AdmissibleProvider(p)
    requires IsVerdict(RunStrategy(id, req, p, first).outcome.status)
    ensures forall q :: q in RunStrategy(id, req, p, first).outcome.quotes ==> InSomeArtifact(req, q)
  {
    KindDeclined(req, p.judge(first));
    assert AdmissibleReply(p.judge(first));
    hide SingleOutcome, Admissible, InSomeArtifact;
    assert RunStrategy(id, req, p, first).outcome.quotes == SingleOutcome(req, p.judge(first)).quotes;
    forall q | q in SingleOutcome(req, p.judge(first)).quotes ensures InSomeArtifact(req, q) {
      SingleInArtifacts(req, p.judge(first), q);
    }
  }

  /** A judge that declines for the target kind. */
  function DeclineKind(): Judgment { Judgment(VUnsupported, "x", [], None, None, None, false) }

  /** The provider whose second tier quotes the flat text, after a first answer that escalates. */
  function Escalating(req: Request): Provider {
    var p := QuotingProvider(FlatText(req));
    if req.escalateFabrication then p
    else Provider((n: nat) => if n == 0 then Answer(DeclineKind(), Telemetry(0, None)) else p.judge(n), p.audit)
  }

  /** Where the flat text is read, quoting all of it passes. */
  lemma FlatQuotePasses(id: StrategyId, req: Request)
    requires Multi(req) && ReadsFlatText(id, req) && NonBlankTargets(req.targets) >= 2
    ensures exists p :: AdmissibleProvider(p) && RunStrategy(id, req, p, 0).outcome.status == PASS
                        && FlatText(req) in RunStrategy(id, req, p, 0).outcome.quotes
  {
    WholeTextCrosses(req);
    hide Grounded, FlatText, InSomeArtifact, NonBlankTargets;
    if id == AdaptiveStrategy {
      AdaptiveQuotes(req);
      assert AdmissibleProvider(Escalating(req));
    } else {
      QuotingPasses(id, req);
      assert AdmissibleProvider(QuotingProvider(FlatText(req)));
    }
  }

  lemma AdaptiveQuotes(req: Request)
    requires Multi(req) && ReadsFlatText(AdaptiveStrategy, req) && Grounded(FlatText(req), FlatText(req))
    requires !InSomeArtifact(req, FlatText(req))
    ensures var p := Escalating(req);
            && AdmissibleProvider(p) && RunStrategy(AdaptiveStrategy, req, p, 0).outcome.status == PASS
            && FlatText(req) in RunStrategy(AdaptiveStrategy, req, p, 0).outcome.quotes
  {
    var flat, p := FlatText(req), Escalating(req);
    QuotingProviderAdmissible(flat);
    QuotingGround(req, flat);
    EscalatingAdmissible(req);
    if req.escalateFabrication {
      QuoteFabricated(req, flat);
      hide FlatText, Grounded, GroundOf, InSomeArtifact, Admissible;
    } else {
      QuotingPanelAt(req, flat, p, 1);
      hide FlatText, Grounded, GroundOf, InSomeArtifact, Admissible, ConsensusOutcome, PanelSize, Replies;
    }
  }

  lemma EscalatingAdmissible(req: Request)
    ensures AdmissibleProvider(Escalating(req))
  {
    CharNormal('x');
    QuotingProviderAdmissible(FlatText(req));
    hide FlatText;
  }

  lemma QuoteFabricated(req: Request, q: string)
    requires Multi(req) && !InSomeArtifact(req, q)
    ensures GroundOf(req, QuotingProvider(q).judge(0).j, true) == Fabricated
  {
    var j := QuotingProvider(q).judge(0).j;
    hide Grounded, StrictId, Strip, Reconstruct, Normalise;
    NoRefsIff(true, true, Artifacts(req), None);
    PerTargetUngroundedEmpty(req, j, 1);
    assert !GroundedIn(req.targets, StrictId(req, j, 0), j.quotes[0]);
  }

  lemma SupportedQuote(req: Request, quotes: seq<string>, q: string)
    requires Supported(req, quotes) && q in quotes
    ensures Strip(q) != "" ==> Grounded(FlatText(req), q)
  {
    hide Normalise, FlatText;
  }

  /** Judges that all pass on one legacy quote, and an auditor that agrees. */
  function QuotingProvider(q: string): Provider {
    Provider(_ => Answer(Judgment(VPass, "x", [q], None, None, None, false), Telemetry(0, None)),
             _ => Audited(Agree, Telemetry(0, None)))
  }

  lemma QuotingPasses(id: StrategyId, req: Request)
    requires (id == ConsensusStrategy || id == ReviewStrategy) && Grounded(FlatText(req), FlatText(req))
    ensures var p := QuotingProvider(FlatText(req));
            && AdmissibleProvider(p) && RunStrategy(id, req, p, 0).outcome.status == PASS
            && FlatText(req) in RunStrategy(id, req, p, 0).outcome.quotes
  {
    var flat, p := FlatText(req), QuotingProvider(FlatText(req));
    QuotingGround(req, flat);
    QuotingProviderAdmissible(flat);
    if id == ConsensusStrategy {
      QuotingPanelAt(req, flat, p, 0);
    } else {
      hide FlatText, Normalise, Strip, GroundOf, AdmissibleProvider;
    }
  }

  lemma QuotingProviderAdmissible(q: string)
    ensures AdmissibleProvider(QuotingProvider(q)) && Admissible(QuotingProvider(q).judge(0).j)
  {
    CharNormal('x');
  }

  lemma QuotingPanelAt(req: Request, q: string, p: Provider, first: nat)
    requires Grounded(FlatText(req), q) && forall n :: n >= first ==> p.judge(n) == QuotingProvider(q).judge(0)
    ensures var out := ConsensusOutcome(req, Replies(p.judge, first, PanelSize(req)));
            out.status == PASS && q in out.quotes
  {
    QuotingGround(req, q);
    hide FlatText, Normalise, Strip, GroundOf, PanelSize, ConsensusOutcome, MergedQuotes, Grounded;
    var replies := Replies(p.judge, first, PanelSize(req));
    UnanimousPanel(req, replies, VPass);
    var ballots := Ballots(req, replies);
    MergedQuotesExact(ballots, VPass);
    assert ballots[0] in ballots && ballots[0].verdict == VPass && q in ballots[0].quotes;
  }

  lemma QuotingGround(req: Request, q: string)
    ensures GroundOf(req, QuotingProvider(q).judge(0).j, false)
         == if Grounded(FlatText(req), q) then Sound([q], []) else Fabricated
  {
    hide FlatText, Grounded;
    NoRefsIff(true, Multi(req), Artifacts(req), None);
    UngroundedEmpty([q], FlatText(req));
  }

  // ---- unattributed quotes ----

  /** A passing or failing answer with legacy quotes and no target ids at all. */
  predicate Unattributed(j: Judgment) {
    Admissible(j) && j.verdict != VUnsupported && j.refs.None? && j.quoteTargets.None?
  }

  predicate QuotableAs(t: Target, id: string) { t.id == id && t.readable && !AllSpace(t.text) }

  /** An answer that attributes none of its quotes is refused on a multi-target rule, for every
      answer, unless the rule declares a readable artifact with text under the sentinel id; then
      some such answer is accepted. */
  lemma UnattributedIff(req: Request)
    requires Multi(req)
    ensures (exists j :: Unattributed(j) && GroundOf(req, j, true).Sound?)
       <==> (exists t :: t in req.targets && QuotableAs(t, UNKNOWN_TARGET))
  {
    hide Normalise, Strip, Admissible, Reconstruct, AllSpace;
    if exists t :: t in req.targets && QuotableAs(t, UNKNOWN_TARGET) {
      var t :| t in req.targets && QuotableAs(t, UNKNOWN_TARGET);
      var j := Judgment(VPass, "x", [t.text], None, None, None, false);
      QuotingProviderAdmissible(t.text);
      NoRefsIff(true, true, Artifacts(req), None);
      NormaliseEmptyIffBlank(t.text);
      assert IsAt(Normalise(t.text), Normalise(t.text), 0);
      assert GroundedIn(req.targets, StrictId(req, j, 0), j.quotes[0]);
      PerTargetUngroundedEmpty(req, j, 1);
      assert Unattributed(j) && GroundOf(req, j, true).Sound?;
    }
    forall j | Unattributed(j) && GroundOf(req, j, true).Sound?
      ensures exists t :: t in req.targets && QuotableAs(t, UNKNOWN_TARGET)
    {
      UnattributedNeedsSentinel(req, j);
    }
  }

  /** The smallest case: a rule whose one artifact, the text "x", bears the sentinel's name. */
  lemma SentinelCanBeDeclared() returns (req: Request, j: Judgment)
    ensures Multi(req) && Unattributed(j) && GroundOf(req, j, true).Sound?
  {
    var t := Target(UNKNOWN_TARGET, None, "x", true);
    req := Request("m", false, [t], "", None, None, false);
    assert !IsSpace("x"[0]);
    assert t in req.targets && QuotableAs(t, UNKNOWN_TARGET);
    UnattributedIff(req);
    j :| Unattributed(j) && GroundOf(req, j, true).Sound?;
  }

  lemma UnattributedNeedsSentinel(req: Request, j: Judgment)
    requires Multi(req) && Unattributed(j) && GroundOf(req, j, true).Sound?
    ensures exists t :: t in req.targets && QuotableAs(t, UNKNOWN_TARGET)
  {
    ReasonsOf(j);
    hide Normalise, Strip, Admissible, Reconstruct, AllSpace;
    NoRefsIff(true, true, Artifacts(req), None);
    PerTargetUngroundedEmpty(req, j, |j.quotes|);
    assert GroundedIn(req.targets, StrictId(req, j, 0), j.quotes[0]);
    var t :| t in req.targets && t.id == UNKNOWN_TARGET && t.readable && Grounded(t.text, j.quotes[0]);
    GroundedHasText(t.text, j.quotes[0]);
  }

  lemma GroundedHasText(text: string, quote: string)
    requires Grounded(text, quote)
    ensures !AllSpace(text)
  {
    hide Normalise, Strip, AllSpace;
    NormaliseEmptyIffBlank(text);
    NormaliseEmptyIffBlank(quote);
  }

  // ---- blank evidence ----

  /** The reference is valid and its lines read as the quote. */
  predicate Reads(req: Request, r: EvidenceRef, q: string) {
    ValidRef(Multi(req), Artifacts(req), r) && QuoteOf(Artifacts(req), r) == q
  }

  /** Every quote with text is grounded, and the quotes without are exactly those read from
      references to blank lines. */
  ghost predicate Evident(req: Request, quotes: seq<string>, refs: seq<EvidenceRef>) {
    && quotes != []
    && (forall q :: q in quotes && Strip(q) != "" ==> Grounded(FlatText(req), q))
    && (forall q :: Strip(q) == "" ==> (q in quotes <==> exists r :: r in refs && Reads(req, r, q)))
  }

  lemma SoundIsEvident(req: Request, j: Judgment, perTarget: bool)
    requires Admissible(j) && j.verdict != VUnsupported && GroundOf(req, j, perTarget).Sound?
    ensures var g := GroundOf(req, j, perTarget); Evident(req, g.quotes, g.refs)
  {
    SoundIsSupported(req, j, perTarget);
    var g := GroundOf(req, j, perTarget);
    var out := Reconstruct(true, Multi(req), Artifacts(req), j.refs);
    hide Normalise, Strip, Admissible, FlatText, Supported, QuoteOf, ValidRef;
    forall q | q in g.quotes ensures Strip(q) != "" ==> Grounded(FlatText(req), q) { SupportedQuote(req, g.quotes, q); }
    assert g.quotes != [] by { SupportedHasQuote(req, g.quotes); }
    NoRefsIff(true, Multi(req), Artifacts(req), j.refs);
    if j.refs.None? {
      LegacyQuotesHaveText(req, j, perTarget);
    } else {
      RefQuotesRead(req, j.refs);
    }
  }

  lemma SupportedHasQuote(req: Request, quotes: seq<string>)
    requires Supported(req, quotes)
    ensures quotes != []
  {}

  lemma LegacyQuotesHaveText(req: Request, j: Judgment, perTarget: bool)
    requires j.refs.None? && GroundOf(req, j, perTarget).Sound?
    ensures GroundOf(req, j, perTarget) == Sound(j.quotes, []) && forall q :: q in j.quotes ==> Strip(q) != ""
  {
    hide Normalise, Strip, FlatText;
    NoRefsIff(true, Multi(req), Artifacts(req), None);
    UngroundedEmpty(j.quotes, FlatText(req));
    PerTargetUngroundedEmpty(req, j, |j.quotes|);
    forall q | q in j.quotes ensures Strip(q) != "" {
      var i :| 0 <= i < |j.quotes| && j.quotes[i] == q;
      if perTarget && Multi(req) { assert GroundedIn(req.targets, StrictId(req, j, i), j.quotes[i]); }
    }
  }

  lemma RefQuotesRead(req: Request, entries: Option<seq<Json>>)
    requires Reconstruct(true, Multi(req), Artifacts(req), entries).Accepted?
    ensures var out := Reconstruct(true, Multi(req), Artifacts(req), entries);
            forall q :: q in out.quotes <==> exists r :: r in out.refs && Reads(req, r, q)
  {
    hide *;
    var out := Reconstruct(true, Multi(req), Artifacts(req), entries);
    AcceptedReads(req, entries);
    forall q ensures q in out.quotes <==> exists r :: r in out.refs && Reads(req, r, q) {
      if q in out.quotes {
        var i :| 0 <= i < |out.quotes| && out.quotes[i] == q;
        assert out.refs[i] in out.refs && Reads(req, out.refs[i], q);
      }
      if exists r :: r in out.refs && Reads(req, r, q) {
        var r :| r in out.refs && Reads(req, r, q);
        var i :| 0 <= i < |out.refs| && out.refs[i] == r;
        ReadsOnce(req, r, q, out.quotes[i]);
      }
    }
  }

  lemma ReadsOnce(req: Request, r: EvidenceRef, p: string, q: string)
    requires Reads(req, r, p) && Reads(req, r, q)
    ensures p == q
  {}

  lemma AcceptedReads(req: Request, entries: Option<seq<Json>>)
    requires Reconstruct(true, Multi(req), Artifacts(req), entries).Accepted?
    ensures var out := Reconstruct(true, Multi(req), Artifacts(req), entries);
            |out.quotes| == |out.refs| && forall i :: 0 <= i < |out.refs| ==> Reads(req, out.refs[i], out.quotes[i])
  {
    ResolveRefsEach(Multi(req), Artifacts(req), entries.value);
    hide ResolveRef, Artifacts, RangeQuote, RangeSpan;
  }

  lemma {:induction false} MergedRefsExact(ballots: seq<Ballot>, v: Verdict)
    ensures forall r :: r in MergedRefs(ballots, v) <==> exists b :: b in ballots && b.verdict == v && r in b.refs
    ensures Distinct(MergedRefs(ballots, v))
  {
    if ballots == [] {
    } else {
      var n := |ballots| - 1;
      MergedRefsExact(ballots[..n], v);
      AddUnseenElements(MergedRefs(ballots[..n], v), ballots[n].refs);
      assert ballots == ballots[..n] + [ballots[n]];
    }
  }

  lemma BallotEvident(req: Request, reply: Reply)
    requires AdmissibleReply(reply) && BallotOf(req, reply).verdict != VUnsupported
    ensures Evident(req, BallotOf(req, reply).quotes, BallotOf(req, reply).refs)
  {
    hide Evident, Admissible, GroundOf;
    SoundIsEvident(req, reply.j, false);
  }

  /** Merging evident ballots is evident. */
  lemma MergedEvident(req: Request, ballots: seq<Ballot>, v: Verdict)
    requires exists b :: b in ballots && b.verdict == v
    requires forall b :: b in ballots && b.verdict == v ==> Evident(req, b.quotes, b.refs)
    ensures Evident(req, MergedQuotes(ballots, v), MergedRefs(ballots, v))
  {
    MergedQuotesExact(ballots, v);
    MergedRefsExact(ballots, v);
    hide Grounded, Strip, FlatText, Reads, MergedQuotes, MergedRefs;
    var quotes, refs := MergedQuotes(ballots, v), MergedRefs(ballots, v);
    var b :| b in ballots && b.verdict == v;
    assert b.quotes[0] in quotes;
    forall q | Strip(q) == "" ensures q in quotes <==> exists r :: r in refs && Reads(req, r, q) {
      if q in quotes {
        var c :| c in ballots && c.verdict == v && q in c.quotes;
        var r :| r in c.refs && Reads(req, r, q);
        assert r in refs;
      }
      if exists r :: r in refs && Reads(req, r, q) {
        var r :| r in refs && Reads(req, r, q);
        var c :| c in ballots && c.verdict == v && r in c.refs;
        assert q in c.quotes;
      }
    }
  }

  lemma ConsensusEvident(req: Request, replies: seq<Reply>)
    requires forall r :: r in replies ==> AdmissibleReply(r)
    requires IsVerdict(ConsensusOutcome(req, replies).status)
    ensures var out := ConsensusOutcome(req, replies); Evident(req, out.quotes, out.refs)
  {
    hide BallotOf, AdmissibleReply, Account, Evident, MergedQuotes, MergedRefs;
    var ballots := Ballots(req, replies);
    var v := Decide(Votes(ballots)).v;
    MajorityIff(Votes(ballots), v);
    var i := CountFinds(Votes(ballots), v);
    assert ballots[i] in ballots && ballots[i].verdict == v;
    forall b | b in ballots && b.verdict == v ensures Evident(req, b.quotes, b.refs) {
      var k :| 0 <= k < |ballots| && ballots[k] == b;
      BallotEvident(req, replies[k]);
    }
    MergedEvident(req, ballots, v);
  }

  lemma DirectEvident(req: Request, reply: Reply, audit: AuditReply)
    requires AdmissibleReply(reply)
    ensures var out := SingleOutcome(req, reply); IsVerdict(out.status) ==> Evident(req, out.quotes, out.refs)
    ensures var out := Review(req, reply, audit).outcome; IsVerdict(out.status) ==> Evident(req, out.quotes, out.refs)
  {
    hide GroundOf, Evident, Admissible;
    if reply.Answer? && reply.j.verdict != VUnsupported {
      if GroundOf(req, reply.j, true).Sound? { SoundIsEvident(req, reply.j, true); }
      if GroundOf(req, reply.j, false).Sound? { SoundIsEvident(req, reply.j, false); }
    }
  }

  /** Whatever the provider does, a PASS or FAIL of any strategy has evidence, every quote with
      text is one the fabrication check accepts, and a quote without text appears exactly when a
      reference of the verdict reads it from blank lines. */
  lemma VerdictsAreEvident(id: StrategyId, req: Request, p: Provider, first: nat)
    requires AdmissibleProvider(p)
    requires IsVerdict(RunStrategy(id, req, p, first).outcome.status)
    ensures var out := RunStrategy(id, req, p, first).outcome; Evident(req, out.quotes, out.refs)
  {
    hide SingleOutcome, Review, ConsensusOutcome, Evident, PanelSize, AdmissibleReply, Replies;
    RepliesAdmissible(p, first, PanelSize(req));
    RepliesAdmissible(p, first + 1, PanelSize(req));
    assert AdmissibleReply(p.judge(first)) && AdmissibleReply(p.judge(first + 1));
    DirectEvident(req, p.judge(first), p.audit(first + 1));
    DirectEvident(req, p.judge(first + 1), p.audit(first + 2));
    if IsVerdict(ConsensusOutcome(req, Replies(p.judge, first, PanelSize(req))).status) {
      ConsensusEvident(req, Replies(p.judge, first, PanelSize(req)));
    }
    if IsVerdict(ConsensusOutcome(req, Replies(p.judge, first + 1, PanelSize(req))).status) {
      ConsensusEvident(req, Replies(p.judge, first + 1, PanelSize(req)));
    }
  }

  // ---- spans in the flat text ----

  /** Where the k-th text starts in the join. */
  function OffsetIn(texts: seq<string>, k: nat): nat
    requires k < |texts|
  {
    if k == 0 then 0 else |texts[0]| + 2 + OffsetIn(texts[1..], k - 1)
  }

  lemma {:induction false} JoinSlice(texts: seq<string>, k: nat)
    requires k < |texts|
    ensures var off := OffsetIn(texts, k);
            off + |texts[k]| <= |JoinTexts(texts)| && JoinTexts(texts)[off..off + |texts[k]|] == texts[k]
  {
    if k == 0 {
      assert |texts| == 1 ==> JoinTexts(texts) == texts[0];
      assert |texts| > 1 ==> JoinTexts(texts) == texts[0] + ("\n\n" + JoinTexts(texts[1..]));
    } else {
      JoinSlice(texts[1..], k - 1);
      var rest, off := JoinTexts(texts[1..]), OffsetIn(texts[1..], k - 1);
      var pre := texts[0] + "\n\n";
      assert JoinTexts(texts) == pre + rest;
      DropPrefix(pre, rest, off, off + |texts[k]|);
    }
  }

  lemma DropPrefix(pre: string, rest: string, i: nat, j: nat)
    requires i <= j <= |rest|
    ensures (pre + rest)[|pre| + i..|pre| + j] == rest[i..j]
  {}

  /** The leftmost occurrence lies in a slice that has one exactly when none starts before it. */
  lemma LeftmostIn(h: string, n: string, off: nat, end: nat)
    requires off <= end <= |h| && Contains(h[off..end], n)
    ensures var i := Find(h, n);
            i.Some? && (off <= i.value && i.value + |n| <= end <==> forall k :: 0 <= k < off ==> !IsAt(h, n, k))
  {
    var j :| IsAt(h[off..end], n, j);
    SliceOfSlice(h, off, end, j, j + |n|);
    assert IsAt(h, n, off + j);
  }

  predicate Within(h: Option<Hit>, off: nat, end: nat) { h.Some? && off <= h.value.start && h.value.end <= end }

  ghost predicate FirstFrom(h: string, n: string, off: nat) { forall i :: 0 <= i < off ==> !IsAt(h, n, i) }

  lemma LiteralSpan(flat: string, off: nat, end: nat, q: string)
    requires off <= end <= |flat| && q != "" && Contains(flat[off..end], q)
    ensures Within(Locate(flat, q), off, end) <==> FirstFrom(flat, q, off)
  {
    hide LocateCollapsed, IsAt;
    LeftmostIn(flat, q, off, end);
  }

  lemma FoldedSpan(flat: string, off: nat, end: nat, q: string)
    requires off <= end <= |flat| && q != "" && !Contains(flat, q) && Contains(Fold(flat[off..end]), Fold(q))
    ensures Within(Locate(flat, q), off, end) <==> FirstFrom(Fold(flat), Fold(q), off)
  {
    hide LocateCollapsed, IsAt, FoldChar;
    FoldSlice(flat, off, end);
    LeftmostIn(Fold(flat), Fold(q), off, end);
  }

  /** No window that starts on text before the offset normalises to the quote. */
  ghost predicate NoWindowBefore(flat: string, q: string, off: nat) {
    forall s, e :: 0 <= s < off && s < e <= |flat| && !IsSpace(flat[s]) ==> Normalise(flat[s..e]) != Normalise(q)
  }

  predicate IsWindow(a: string, s: nat, e: nat, q: string) {
    s < e <= |a| && !IsSpace(a[s]) && !IsSpace(a[e - 1]) && Normalise(a[s..e]) == Normalise(q)
  }

  lemma CollapsedWindow(a: string, q: string)
    requires LocateCollapsed(a, q).Some?
    ensures var h := LocateCollapsed(a, q).value; IsWindow(a, h.start, h.end, q)
  {
    hide IsSpace, Normalise, KeptMap, Collapse;
    CollapsedHit(a, q, Find(Collapse(Fold(a)), Normalise(q)).value);
  }

  lemma {:induction false} CollapseKeepsSomething(s: string)
    requires s != ""
    ensures Collapse(s) != ""
  {
    if |s| == 1 {
    } else {
      CollapseKeepsSomething(s[1..]);
    }
  }

  lemma LongerWindow(f: string, x: nat, y: nat)
    requires x < y < |f| && !IsSpace(f[x]) && !IsSpace(f[y - 1])
    ensures |Collapse(f)| > |Collapse(f[x..y])|
  {
    hide IsSpace, Collapse;
    CollapseMiddle(f, x, y);
    CollapseKeepsSomething(f[y..]);
  }

  /** Of two windows of a quote, the one that starts no later ends no later. */
  lemma EndsNoLater(a: string, s: nat, e: nat, x: nat, y: nat, q: string)
    requires IsWindow(a, s, e, q) && IsWindow(a, x, y, q) && s <= x
    ensures e <= y
  {
    hide IsSpace, Collapse, Normalise;
    NormaliseTrimmedSlice(a, s, e);
    NormaliseTrimmedSlice(a, x, y);
    if y < e {
      var g := Fold(a)[s..e];
      SliceOfSlice(Fold(a), s, e, x - s, y - s);
      FoldKeepsSpace(a);
      LongerWindow(g, x - s, y - s);
      assert false;
    }
  }

  lemma FoldKeepsSpace(a: string)
    ensures forall i :: 0 <= i < |a| ==> (IsSpace(Fold(a)[i]) <==> IsSpace(a[i]))
  {
    hide IsSpace;
    forall i | 0 <= i < |a| ensures IsSpace(Fold(a)[i]) <==> IsSpace(a[i]) {
      assert Fold(a)[i] == FoldChar(a[i]);
    }
  }

  lemma SliceContains(a: string, off: nat, end: nat, n: string)
    requires off <= end <= |a| && Contains(a[off..end], n)
    ensures Contains(a, n)
  {
    var i :| IsAt(a[off..end], n, i);
    SliceOfSlice(a, off, end, i, i + |n|);
    assert IsAt(a, n, off + i);
  }

  /** What only collapsing finds in a text, only collapsing finds in a slice that grounds it. */
  lemma CollapsedInSlice(flat: string, off: nat, end: nat, q: string)
    requires off <= end <= |flat| && Grounded(flat[off..end], q)
    requires !Contains(flat, q) && !Contains(Fold(flat), Fold(q))
    ensures LocateCollapsed(flat, q).Some? && Locate(flat, q) == LocateCollapsed(flat, q)
    ensures LocateCollapsed(flat[off..end], q).Some?
  {
    hide LocateCollapsed, Normalise, IsAt, FoldChar, Strip;
    var t := flat[off..end];
    FoldSlice(flat, off, end);
    if Contains(t, q) { SliceContains(flat, off, end, q); }
    if Contains(Fold(t), Fold(q)) { SliceContains(Fold(flat), off, end, Fold(q)); }
    NormaliseSlice(flat, off, end);
    ContainsTransitive(Normalise(flat), Normalise(t), Normalise(q));
    ResolvesIffGrounded(flat, q);
    ResolvesIffGrounded(t, q);
    LocateThird(flat, q);
    LocateThird(t, q);
  }

  lemma LocateThird(a: string, q: string)
    requires !Contains(a, q) && !Contains(Fold(a), Fold(q)) && Locate(a, q).Some?
    ensures Locate(a, q) == LocateCollapsed(a, q)
  {
    hide LocateCollapsed, IsAt, FoldChar;
  }

  lemma CollapsedSpan(flat: string, off: nat, end: nat, q: string)
    requires off <= end <= |flat| && Grounded(flat[off..end], q)
    requires !Contains(flat, q) && !Contains(Fold(flat), Fold(q))
    ensures Within(Locate(flat, q), off, end) <==> NoWindowBefore(flat, q, off)
  {
    hide *;
    CollapsedInSlice(flat, off, end, q);
    QuoteHasText(flat[off..end], q);
    var x, y := WindowIn(flat, off, end, q);
    HitEndsBy(flat, q, x, y);
    WithinIff(flat, off, end, q, LocateCollapsed(flat, q).value);
  }

  lemma WindowIn(flat: string, off: nat, end: nat, q: string) returns (x: nat, y: nat)
    requires off <= end <= |flat| && LocateCollapsed(flat[off..end], q).Some?
    ensures IsWindow(flat, x, y, q) && y <= end
  {
    hide *;
    CollapsedWindow(flat[off..end], q);
    var w := LocateCollapsed(flat[off..end], q).value;
    WindowShift(flat, off, end, w.start, w.end, q);
    x, y := off + w.start, off + w.end;
  }

  lemma HitEndsBy(flat: string, q: string, x: nat, y: nat)
    requires LocateCollapsed(flat, q).Some? && IsWindow(flat, x, y, q) && Normalise(q) != ""
    ensures var h := LocateCollapsed(flat, q).value; IsWindow(flat, h.start, h.end, q) && h.end <= y
  {
    hide *;
    var h := LocateCollapsed(flat, q).value;
    CollapsedWindow(flat, q);
    WindowLeftmost(flat, q, x, y);
    EndsNoLater(flat, h.start, h.end, x, y, q);
  }

  lemma QuoteHasText(t: string, q: string)
    requires Grounded(t, q)
    ensures Normalise(q) != ""
  {
    hide Normalise, Strip;
    NormaliseEmptyIffBlank(q);
  }

  lemma WindowShift(flat: string, off: nat, end: nat, x: nat, y: nat, q: string)
    requires off <= end <= |flat| && IsWindow(flat[off..end], x, y, q)
    ensures IsWindow(flat, off + x, off + y, q) && off + y <= end
  {
    hide IsSpace, Normalise;
    SliceOfSlice(flat, off, end, x, y);
    assert flat[off..end][x] == flat[off + x] && flat[off..end][y - 1] == flat[off + y - 1];
  }

  lemma WindowLeftmost(flat: string, q: string, x: nat, y: nat)
    requires LocateCollapsed(flat, q).Some? && IsWindow(flat, x, y, q) && Normalise(q) != ""
    ensures LocateCollapsed(flat, q).value.start <= x
  {
    hide IsSpace, Normalise, LocateCollapsed;
    CollapsedLeftmost(flat, q, x, y);
  }

  lemma WithinIff(flat: string, off: nat, end: nat, q: string, h: Hit)
    requires Locate(flat, q) == LocateCollapsed(flat, q) == Some(h) && Normalise(q) != ""
    requires IsWindow(flat, h.start, h.end, q) && h.end <= end
    ensures Within(Locate(flat, q), off, end) <==> NoWindowBefore(flat, q, off)
  {
    hide IsSpace, Normalise, LocateCollapsed, Locate;
    if off <= h.start {
      forall s, e | 0 <= s < off && s < e <= |flat| && !IsSpace(flat[s]) ensures Normalise(flat[s..e]) != Normalise(q) {
        if Normalise(flat[s..e]) == Normalise(q) {
          CollapsedLeftmost(flat, q, s, e);
          assert false;
        }
      }
    }
  }

  /** A quote that the k-th readable artifact grounds has its span in the flat text inside that
      artifact exactly when the artifact has it at the weakest tier at which the flat text does,
      and nothing before the artifact does at that tier. */
  lemma SpanInNamedArtifact(texts: seq<string>, k: nat, q: string)
    requires k < |texts| && Grounded(texts[k], q)
    ensures var flat, off := JoinTexts(texts), OffsetIn(texts, k);
            Within(Locate(flat, q), off, off + |texts[k]|)
            <==> if Contains(flat, q) then Contains(texts[k], q) && FirstFrom(flat, q, off)
                 else if Contains(Fold(flat), Fold(q))
                 then Contains(Fold(texts[k]), Fold(q)) && FirstFrom(Fold(flat), Fold(q), off)
                 else NoWindowBefore(flat, q, off)
  {
    hide *;
    var off := OffsetIn(texts, k);
    JoinSlice(texts, k);
    SpanInSlice(JoinTexts(texts), off, off + |texts[k]|, texts[k], q);
  }

  lemma SpanInSlice(flat: string, off: nat, end: nat, t: string, q: string)
    requires off <= end <= |flat| && t == flat[off..end] && Grounded(t, q)
    ensures Within(Locate(flat, q), off, end)
            <==> if Contains(flat, q) then Contains(t, q) && FirstFrom(flat, q, off)
                 else if Contains(Fold(flat), Fold(q))
                 then Contains(Fold(t), Fold(q)) && FirstFrom(Fold(flat), Fold(q), off)
                 else NoWindowBefore(flat, q, off)
  {
    hide *;
    QuoteNotEmpty(t, q);
    if Contains(flat, q) {
      if Contains(t, q) { LiteralSpan(flat, off, end, q); } else { LiteralElsewhere(flat, off, end, q); }
    } else if Contains(Fold(flat), Fold(q)) {
      if Contains(Fold(t), Fold(q)) { FoldedSpan(flat, off, end, q); } else { FoldedElsewhere(flat, off, end, q); }
    } else {
      CollapsedSpan(flat, off, end, q);
    }
  }

  lemma OccursInSlice(h: string, n: string, off: nat, end: nat, i: nat)
    requires off <= i && i + |n| <= end <= |h| && IsAt(h, n, i)
    ensures Contains(h[off..end], n)
  {
    SliceOfSlice(h, off, end, i - off, i - off + |n|);
    assert IsAt(h[off..end], n, i - off);
  }

  lemma QuoteNotEmpty(t: string, q: string)
    requires Grounded(t, q)
    ensures q != ""
  {
    if q == "" { StripAllSpace(q); }
  }

  lemma LiteralElsewhere(flat: string, off: nat, end: nat, q: string)
    requires off <= end <= |flat| && q != "" && Contains(flat, q) && !Contains(flat[off..end], q)
    ensures !Within(Locate(flat, q), off, end)
  {
    hide LocateCollapsed;
    var i := Find(flat, q).value;
    if off <= i && i + |q| <= end {
      OccursInSlice(flat, q, off, end, i);
      assert false;
    }
  }

  lemma FoldedElsewhere(flat: string, off: nat, end: nat, q: string)
    requires off <= end <= |flat| && q != "" && !Contains(flat, q) && Contains(Fold(flat), Fold(q))
    requires !Contains(Fold(flat[off..end]), Fold(q))
    ensures !Within(Locate(flat, q), off, end)
  {
    hide LocateCollapsed, FoldChar;
    FoldSlice(flat, off, end);
    var i := Find(Fold(flat), Fold(q)).value;
    if off <= i && i + |q| <= end {
      OccursInSlice(Fold(flat), Fold(q), off, end, i);
      assert false;
    }
  }
}
