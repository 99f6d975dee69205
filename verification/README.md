# gate-keeper: a verified model

gate-keeper compiles Markdown documents into rules, checks the rules against files and pull
requests, and accepts a language model's verdict only when the evidence it quotes can be found in
the artifact. This project models the parts where that trust is decided and proves what they keep,
over every input, every provider behaviour, every schedule and every interleaving.

Each `.dfy` file is one module:

- `Wrappers`, `Json` - results, options, parsed JSON values.
- `Text`, `LineText`, `Sorting` - `str.strip`, `re.sub(r"\s+", " ", ...)`, `str.find`, `str.splitlines`,
  `sorted`, written out on `seq<char>` with Python's whitespace and line-break tables.
- `Grounding` - the fabrication check and the three-tier span resolver, with the collapsing loop and
  its index map; line and column positions and their inverse.
- `EvidenceRefs` - line-range references: validation, rebuilt quotes and spans.
- `Strategies` - single, consensus, review and adaptive against an arbitrary provider: evidence,
  panel arithmetic, merged quotes, telemetry.
- `Attribution` - which artifact a verdict's evidence comes from: quotes across artifacts, unattributed
  quotes, blank evidence, spans in the joined text.
- `Reproducibility` - the two routines that repeat a check and keep the majority.
- `Assembly`, `CacheKey`, `Placeholders`, `Keying`, `Tasks` - budgeted affected-context assembly; the
  content-addressed key, and what it forgets of unreadable artifacts; from a rule, a target and a
  machine to a judging task and its key, when equal keys mean equal tasks, and what task and key are in
  terms of the parameters and files.
- `Scope` - per-rule scopes with the run's shared expansion memo, as a class.
- `EvalCache`, `Dispatch` - lookup, rehydration and store; the sequential loop; the bounded executor as
  a step machine; cache transparency of both.
- `CacheStore` - the cache directory as a step machine of writers, readers, evictors and crashes, its
  refinement of an atomic map, and the eviction pass as a class.
- `CachedRuns` - runs whose keys and judgments are those of `Keying`: the cache is invisible in one run,
  across runs and processes, and through the directory.
- `Glob`, `Policy` - the glob compiler with its look-back and pop, a segment-level meaning, and the
  changed-file policy.
- `Markdown`, `RuleParser`, `Models`, `Schema` - the fence scanners against one fold, the rule-document
  parser, the rule schema's round trips, and what its loaders accept.

Loops of the source are methods with invariants, proved against a function or a predicate that is
defined without them; objects whose fields change are classes. The rest is functions and lemmas.
What an operation returns is also stated in terms of its inputs alone, without the functions that compute
it (`IsSpanOf`, `Meets`, `Gives`, `StartsAs`, `SettledAs`, `Evicted`, `IsAssembly`, `JudgedAs`, ...), and
where such a statement determines the result that is shown too.

Assumptions, all stated in the contracts that need them: the hash is injective, so a digest is its
preimage; the provider's answers satisfy the field constraints of its schema (`Admissible`) and depend
on the prompts it reads, a judge's and an auditor's, on the provider, the model and the sampling mode,
and on the numbers of the call and of the repetition; a verdict's
diagnostic is written from the judging task and its answers, and no check emits a `cache_hit` record
itself (`WellBehaved`); canonical JSON parses back (`Faithful`). `Dispatch` proves cache transparency
from the key determining the judgment (`KeyDetermines`, exact by `StoresSoundIff`). `CachedRuns` derives
that for the modelled key and judgments: within one run without any condition
(`OneRunKeyDetermines`), and between runs on different machines, files and options when their calls are
clear and their auditors are shown run targets that read alike (`ClearRunsAgree`). `Keying.ClearIff` and
`Keying.SlotIff` show these conditions, which a caller can check beforehand, to be exact.

## Where the code and its documentation part

- The comment above the resolver promises that every validated quote resolves. It does, and for a
  non-blank quote the converse holds too (`Grounding.ResolvesIffGrounded`).
- A line-range reference to blank lines is accepted although a blank quote is not: the rebuilt quote
  passes the fabrication check exactly when it is not blank (`EvidenceRefs.RangeQuoteGroundedIff`).
- Consensus and review ground quotes in a flat join of the artifacts, meant not to create matches across
  them. It does so exactly when two readable artifacts have text (`Attribution.FlatGroundingIff`), and so does
  adaptive when its second tier can be reached (`Attribution.FlatVerdictsIff`).
- The sentinel that is to make an unattributed quote fail can be declared as a target id: unattributed
  answers are refused on a rule exactly when it declares no readable artifact with text under that id
  (`Attribution.UnattributedIff`).
- `adaptive_recovery_outcome` reads `tier2_recovered` also on runs without a verdict; over the replies,
  exactly when the second judge's answer was unusable (`Strategies.RecoveryOverReplies`).
- `single` resolves spans in the flat join under artifact index 0: the span of a quote lies in the
  artifact that grounds it exactly when that artifact has it at the tier at which the flat text first
  does, and nothing before it does at that tier (`Attribution.SpanInNamedArtifact`).
- Provider-error records carry no call count, so adaptive undercounts exactly when a tier ended in one
  (`Strategies.AdaptiveAccount`, over the replies `Strategies.AdaptiveAccountOverReplies`).
- The glob docstring's "zero or more segments" fails for a final or a second adjacent `**`;
  `Glob.DocumentedIff` gives the exact patterns on which it holds.
- The cache key forgets whether an artifact was readable exactly when its content is the placeholder of
  its own path (`Placeholders.KeyForgetsReadability`); then one answer passes on one machine and is no verdict
  on another with the same key, under every strategy (`Keying.LookalikeChangesVerdict`).
- A rule that declares `params.targets` has the same key whatever it is run against, also several files,
  where `check` declines it (`Keying.ManyFilesShareTheKey`).
- The auditor of a review is shown the run's target, also when the rule declares artifacts of its own,
  and the key of such a rule does not hold the run's target: two runs against targets that read
  differently share the key, and an auditor that reads its prompt agrees in one and overturns in the
  other (`Keying.SlotChangesVerdict`); `Keying.SlotIff` says exactly when it matters. Adaptive rules that
  escalate fabrications reach the same auditor, and an undeclared artifact kind and a declared
  "unspecified" share a key while the auditor sees a path or the file's text.
- The key of an affected context hashes the assembled text, while `check` looks that text up as a path
  (`Keying.ContextPathChangesVerdict`).
- The rule parser opens and closes fences by other rules than `_md.py`; `RuleParser.ScannersAgreeIff`
  gives the exact documents on which they agree.

## Model

| member | source | states |
|---|---|---|
| Text.NormaliseEmptyIffBlank | src/gate_keeper/backends/llm_rubric.py:1837-1850 | a text normalises to nothing exactly when it is all whitespace, as does `strip` |
| Text.StripCollapse | src/gate_keeper/backends/llm_rubric.py:1837-1850 | collapsing then stripping is stripping then collapsing, for every text |
| Text.NormaliseSlice | src/gate_keeper/backends/llm_rubric.py:1837-1850 | normalisation is monotone: the normal form of any slice is a substring of the normal form of the whole |
| Text.FoldTable | src/gate_keeper/backends/llm_rubric.py:1825-1834 | the folding table, entry by entry: three characters fold to each quote, two to a hyphen, everything else to itself |
| Grounding.FindFabricatedQuotes | src/gate_keeper/backends/llm_rubric.py:2129-2145 | the loop reports exactly the quotes that are blank or not normalised substrings, in order |
| Grounding.UngroundedEmpty | src/gate_keeper/backends/llm_rubric.py:2129-2145 | nothing is reported exactly when every quote is grounded |
| Grounding.LineColExact | src/gate_keeper/backends/llm_rubric.py:2295-2313 | a position is an offset's exactly when its line is one more than the newlines before and its column one more than the characters since the last of them |
| Grounding.LineColInverse | src/gate_keeper/backends/llm_rubric.py:2295-2313 | offset to (line, column) has an exact inverse |
| Grounding.LineColMonotone | src/gate_keeper/backends/llm_rubric.py:2295-2313 | offsets are ordered as their positions are lexicographically, so distinct offsets have distinct positions |
| Grounding.KeptMapAt | src/gate_keeper/backends/llm_rubric.py:2384-2405 | the index map is strictly increasing and entry k is the original index in front of which k characters are kept |
| Grounding.CollapseWithMap | src/gate_keeper/backends/llm_rubric.py:2384-2405 | the loop with its whitespace flag computes the collapsed text and its index map |
| Grounding.LocateCollapsedIn | src/gate_keeper/backends/llm_rubric.py:2384-2440 | the third tier as coded, whitespace-end and defensive branches included, equals the form without them: those branches are dead |
| Grounding.ResolveQuoteSpanIn | src/gate_keeper/backends/llm_rubric.py:2316-2454 | returns the span of the quote, said of artifact and quote alone: the leftmost window that reads as the quote under the weakest normalisation that finds one, index 0, offsets in order and both positions true; and nothing exactly when there is no such span |
| Grounding.CollapsedHit | src/gate_keeper/backends/llm_rubric.py:2384-2440 | a collapsed hit starts and ends on non-whitespace of the original, and the original slice normalises to the quote |
| Grounding.ResolvesIffGrounded | src/gate_keeper/backends/llm_rubric.py:2218-2225 | a non-blank quote resolves if and only if the fabrication check accepts it |
| Grounding.SpanNormalises | src/gate_keeper/backends/llm_rubric.py:2316-2454 | every such span is not empty, its slice normalises to the quote, and its positions lead back to its offsets |
| Grounding.SpanTag | src/gate_keeper/backends/llm_rubric.py:2316-2454 | a span's tag is the weakest normalisation that works: exact iff a literal substring, smart quotes iff only a folded one |
| Grounding.SpanIsLeftmost | src/gate_keeper/backends/llm_rubric.py:2316-2454 | no window further left reads as the quote at the span's tier, in original offsets, even if it ends in whitespace |
| Grounding.SpanUnique | src/gate_keeper/backends/llm_rubric.py:2316-2454 | a quote has at most one span, so these properties determine every offset and position |
| Grounding.ResolveQuoteSpans | src/gate_keeper/backends/llm_rubric.py:2457-2475 | in order, the span of every quote that has one; of grounded quotes none is skipped and span i is that of quote i |
| LineText.SplitLinesValid | src/gate_keeper/backends/llm_rubric.py:1961-1964 | `splitlines` loses nothing: the lines with their breaks concatenate to the text, bodies hold no break |
| LineText.SplitLinesExact | src/gate_keeper/backends/llm_rubric.py:1961-1964 | a list is the lines of a text exactly when it concatenates to it and each line ends at its first break, CR LF being one |
| EvidenceRefs.LengthOfLines | src/gate_keeper/backends/llm_rubric.py:2498-2499 | the sum over the first lines is the offset where the next one starts |
| EvidenceRefs.QuoteSpanFromLineRange | src/gate_keeper/backends/llm_rubric.py:2485-2519 | the quote is the lines joined, the index the one given, the start that of the first line, the slice the lines without trailing CR and LF, the positions those of the first and last line |
| EvidenceRefs.RangeSpanSlice | src/gate_keeper/backends/llm_rubric.py:2485-2519 | the slice between a rebuilt span's offsets is the range's lines without the CR and LF they end with |
| EvidenceRefs.RangeEvidenceGrounded | src/gate_keeper/backends/llm_rubric.py:2485-2519 | whatever the line breaks, the rebuilt quote and its slice normalise alike and are substrings of the normalised artifact |
| EvidenceRefs.RangeQuoteGroundedIff | src/gate_keeper/backends/llm_rubric.py:2485-2519 | the fabrication check accepts a rebuilt quote exactly when it is not blank |
| EvidenceRefs.RangeSliceLF | src/gate_keeper/backends/llm_rubric.py:2495-2507 | for LF text the slice is the quote without trailing newlines, and the quote itself exactly when the last line has text or the range is one line |
| EvidenceRefs.RangePositionsLF | src/gate_keeper/backends/llm_rubric.py:2495-2519 | for LF text the stated positions agree with offset-to-position, the end exactly under the same condition |
| EvidenceRefs.ValidateAndReconstruct | src/gate_keeper/backends/llm_rubric.py:2522-2709 | said of the entries alone: no list, no references; all rebuilt, each with its own fields, when every entry cites something and a verdict has one; otherwise the first fault of the first entry that cites nothing |
| EvidenceRefs.ResolveRefIff | src/gate_keeper/backends/llm_rubric.py:2522-2709 | an entry gives a reference exactly when it is an object naming the last artifact with its id (or none, on one target), by its own path, with integer lines that artifact has, and it can be quoted; both line numbers are the entry's |
| EvidenceRefs.ResolveRefFault | src/gate_keeper/backends/llm_rubric.py:2522-2709 | a refused entry has the fault it is refused for and none that is checked earlier |
| EvidenceRefs.AcceptedIff | src/gate_keeper/backends/llm_rubric.py:2522-2709 | references are accepted exactly when each entry cites something and a verdict's list is not empty |
| EvidenceRefs.MeetsUnique | src/gate_keeper/backends/llm_rubric.py:2522-2709 | the entries determine the outcome: quotes, references, spans and fault |
| EvidenceRefs.AcceptedRefsGrounded | src/gate_keeper/backends/llm_rubric.py:2522-2709 | an accepted reference names a quotable artifact whose normalised text contains its rebuilt quote, at the span's offsets |
| Strategies.FindPerTargetFabricatedQuotes | src/gate_keeper/backends/llm_rubric.py:2148-2212 | blank quotes, quotes naming no readable artifact and quotes their artifact lacks are exactly those reported |
| Strategies.SoundIff | src/gate_keeper/backends/llm_rubric.py:3062-3260 | evidence is accepted exactly when it stands: every reference cites something, or every quote is grounded in the artifact it names or in the flat text; and what is accepted is what the answer shows |
| Strategies.SoundIsSupported | src/gate_keeper/backends/llm_rubric.py:3156-3260 | accepted evidence, of either shape, has at least one quote and only normalised substrings of the grounding text |
| Strategies.SingleGroundsPerTarget | src/gate_keeper/backends/llm_rubric.py:3156-3314 | in single on a multi-target rule every quote is grounded in a readable artifact of that rule, the named one unless the sentinel is declared |
| Attribution.NormaliseJoined | src/gate_keeper/backends/llm_rubric.py:1915-1918 | joining two artifacts leaves one blank between their normal forms and nothing of a blank one |
| Attribution.FlatGroundingIff | src/gate_keeper/backends/llm_rubric.py:1897-1918 | for every quote the flat text grounds only what some artifact grounds, exactly when at most one readable artifact has text |
| Attribution.FlatVerdictsIff | src/gate_keeper/backends/llm_rubric.py:1897-1918 | each of the four strategies keeps the quotes of every verdict inside single artifacts, for every provider, exactly when at most one readable artifact has text or the strategy never reads the flat text: single, and adaptive on a rule with neither a target kind nor fabrication escalation |
| Attribution.FlatTextHidesBoundaries | src/gate_keeper/backends/llm_rubric.py:1897-1918 | whenever two readable artifacts have text, an answer quoting across them is accepted by consensus and review and refused by single whatever it names |
| Attribution.UnattributedIff | src/gate_keeper/backends/llm_rubric.py:2085-2126 | some answer without any target id is accepted on a multi-target rule exactly when it declares a readable artifact with text under the sentinel id |
| Strategies.CollectBallots | src/gate_keeper/backends/llm_rubric.py:3425-3583 | the judge loop's ballots and running totals are those of the calls made |
| Strategies.MergeQuotes | src/gate_keeper/backends/llm_rubric.py:3647-3663 | the merging loop over the majority judges computes the merged quotes |
| Strategies.RunConsensus | src/gate_keeper/backends/llm_rubric.py:3351-3848 | the panel of the nearest allowed size, its early exit and its four endings; PASS (FAIL) exactly when strictly more than half of its replies pass (fail) on evidence that stands |
| Strategies.MajorityIff | src/gate_keeper/backends/llm_rubric.py:3629-3645 | a verdict carries the panel exactly when strictly more than half voted for it |
| Strategies.DecideIgnoresOrder | src/gate_keeper/backends/llm_rubric.py:3629-3645 | the decision does not depend on the order of the judges |
| Strategies.AgreementKeepsMajority | src/gate_keeper/backends/llm_rubric.py:3629-3645 | another judge agreeing never loses a majority |
| Strategies.MergedQuotesExact | src/gate_keeper/backends/llm_rubric.py:3647-3663 | the merged quotes are exactly those of the majority judges, each once |
| Strategies.ConsensusSupported | src/gate_keeper/backends/llm_rubric.py:3522-3676 | a consensus verdict is supported whatever each judge answered |
| Strategies.VerdictsAreSupported | src/gate_keeper/backends/llm_rubric.py:3002-4676 | for every provider and every strategy, a PASS or FAIL is what the replies give, carries a quote, and every quote is a normalised substring of the grounding text |
| Strategies.VerdictIff | src/gate_keeper/backends/llm_rubric.py:3002-4676 | the direction of every verdict, for all four strategies: PASS (FAIL) exactly when the replies say pass (fail) on evidence that stands, by one judge, by more than half, unless overturned, or by adaptive's tiers |
| Strategies.SingleStatus | src/gate_keeper/backends/llm_rubric.py:3002-3314 | the four statuses of single over the reply, and a verdict shows the answer's own evidence |
| Strategies.ReviewStatus | src/gate_keeper/backends/llm_rubric.py:3962-4360 | the four statuses of review over both replies: the judge's verdict unless the auditor overturns it |
| Strategies.ReviewKind | src/gate_keeper/backends/llm_rubric.py:3962-4360 | what each ending of a review is called, over both replies |
| Strategies.ConsensusStatus | src/gate_keeper/backends/llm_rubric.py:3587-3848 | the four statuses of a panel over its replies, and when it is tied |
| Strategies.AdaptiveStatus | src/gate_keeper/backends/llm_rubric.py:4403-4676 | adaptive's verdict over the replies of its tiers |
| Strategies.PanelShows | src/gate_keeper/backends/llm_rubric.py:3647-3676 | a panel's verdict shows exactly the quotes and references that judges who gave it show, each once |
| Attribution.VerdictsAreEvident | src/gate_keeper/backends/llm_rubric.py:3002-4676 | in every verdict of every strategy each quote with text is accepted by the fabrication check, and quotes without text are exactly those read from the verdict's references to blank lines |
| Attribution.SpanInNamedArtifact | src/gate_keeper/backends/llm_rubric.py:3267-3268 | the span of a quote that an artifact grounds lies inside that artifact exactly when it has the quote at the tier at which the flat text first does and nothing before it does at that tier, for all three tiers |
| Strategies.RecoveryNeedsTier2 | src/gate_keeper/backends/llm_rubric.py:4490-4676 | after a fabricated first tier only the second tier's own evidence carries a verdict |
| Strategies.RecoveryOverReplies | src/gate_keeper/backends/llm_rubric.py:4490-4676 | over the replies alone: a recovered verdict exactly when the second judge passes or fails on grounded evidence and is not overturned; a recovered run without a verdict exactly when it raised, was unparseable, declined a rule without target kind for it, or cited references that do not resolve |
| Strategies.FabricatesIff | src/gate_keeper/backends/llm_rubric.py:3156-3260 | the first tier ends in fabrication exactly on answers whose legacy quotes are not all grounded |
| Strategies.RecoveredWithoutVerdict | src/gate_keeper/backends/llm_rubric.py:4640-4676 | a run labelled recovered that ends unavailable |
| Strategies.CostUnknownIff | src/gate_keeper/backends/llm_rubric.py:3431-3467 | a total cost is unknown exactly when some attempted call's cost is |
| Strategies.DirectAccount | src/gate_keeper/backends/llm_rubric.py:4268-4287 | single, review and consensus report calls, models, cost and latency of their calls exactly when the outcome is no provider error |
| Strategies.DirectAccountOverReplies | src/gate_keeper/backends/llm_rubric.py:4268-4287 | single and review account for their calls exactly when the reply neither raised, nor was unparseable, nor declined a rule without target kind for it; a panel exactly when some judge did not raise |
| Strategies.AdaptiveAccount | src/gate_keeper/backends/llm_rubric.py:4475-4599 | adaptive accounts for both tiers exactly when neither ended in a provider error |
| Strategies.AdaptiveAccountOverReplies | src/gate_keeper/backends/llm_rubric.py:4475-4599 | adaptive accounts for all its calls exactly on the replies for which neither tier ends in a provider error, stated over the replies |
| Strategies.VerdictsAreAccounted | src/gate_keeper/backends/llm_rubric.py:4475-4599 | on a PASS or FAIL of any strategy: calls = attempted calls = number of models, latency and cost are the calls' sums |
| Reproducibility.RunN | src/gate_keeper/validator.py:168-221 | the loop returns the first non-verdict as it is, or the majority's first run with the score |
| Reproducibility.RunNBackend | src/gate_keeper/backends/llm_rubric.py:5246-5317 | rejects n < 1, passes one run through, else aggregates alike |
| Reproducibility.AggregateUnique | src/gate_keeper/validator.py:168-221 | the aggregate is unique, so both routines agree for n of 2 or more |
| Reproducibility.ScoreBounds | src/gate_keeper/backends/llm_rubric.py:5292-5317 | passes exactly when more than half of the runs do, ties going to fail; the score record holds both counts, the majority and the agreeing share, at least one half |
| Assembly.ReadAffectedFiles | src/gate_keeper/backends/llm_rubric.py:4847-4867 | the reading loop splits the candidates into readable and unreadable |
| Assembly.Truncate | src/gate_keeper/backends/llm_rubric.py:4890-4912 | the running counter is the length of the joined text; included followed by omitted is the sorted list |
| Assembly.AssembleAffectedContext | src/gate_keeper/backends/llm_rubric.py:4870-4924 | the readable candidates in label order, the included shown one after the other under their headers in a text within the budget, which the next file would exceed; every count and estimate true |
| Assembly.LongestPrefix | src/gate_keeper/backends/llm_rubric.py:4870-4924 | included is the longest label-ordered prefix whose joined text fits the budget |
| Assembly.BudgetMonotone | src/gate_keeper/backends/llm_rubric.py:4870-4924 | a larger budget only extends the prefix |
| Assembly.EvidenceAccounts | src/gate_keeper/backends/llm_rubric.py:4927-4962 | the evidence records name every candidate as included, omitted or unreadable, agree with each other, and warn exactly when something was omitted |
| CacheKey.FullTokensFromKey | src/gate_keeper/backends/eval_cache.py:171-197 | tokens_full, which the key does not store, is a function of what it stores |
| CacheKey.ContextKeyDetermines | src/gate_keeper/backends/eval_cache.py:171-197 | equal affected-context entries mean equal assembled text and equal evidence, candidate_count and tokens_full included |
| Placeholders.KeyForgetsReadability | src/gate_keeper/backends/eval_cache.py:126-219 | a readable and an unreadable target share an entry exactly when the content is the placeholder of the path |
| Placeholders.TargetDetermined | src/gate_keeper/backends/eval_cache.py:126-168 | a target entry determines kind, text and, unless one of two targets is a lookalike, readability |
| Placeholders.SameKeyDifferentVerdict | src/gate_keeper/backends/eval_cache.py:126-168 | the smallest instance: one target, one quote, one answer, the same key and two statuses |
| CacheKey.PreimageDeterminesRule | src/gate_keeper/backends/eval_cache.py:250-293 | rules with equal preimages agree on everything judging and scoping read; identity, location, severity and whether "unspecified" was declared are free |
| CacheKey.PreimageIff | src/gate_keeper/backends/eval_cache.py:100-293 | equal preimages mean exactly equal text, kinds, strategy, keyed parameters, target entries and settings: a rule's id, title, location and severity are not in the key |
| Keying.EqualKeysEqualButSlot | src/gate_keeper/backends/eval_cache.py:126-293 | for any two rules, targets, machines and options: equal keys and clear calls mean the same judging task but for what an auditor is shown |
| Keying.EqualKeysEqualTasks | src/gate_keeper/backends/eval_cache.py:126-293 | and the same task altogether, down to both prompts, artifacts, options and context records, when run targets read alike wherever an auditor is shown them beside declared artifacts |
| Keying.OneRunEqualTasks | src/gate_keeper/backends/eval_cache.py:126-293 | against the same target in one run equal keys mean the same task without any condition |
| Keying.LookalikeChangesVerdict | src/gate_keeper/backends/eval_cache.py:160-168 | for every judged rule with a lookalike among its targets: without the lookalikes the key and the prompt are the same, and one answer passes in one case and is no verdict in the other, under every strategy |
| Keying.SlotChangesVerdict | src/gate_keeper/backends/llm_rubric.py:3938-3957 | for every rule with a readable artifact of its own that can reach an auditor and any two clear calls with one key whose run targets read differently: the judges are shown the same, and some provider that reads its prompts passes in one and is unsupported in the other |
| Keying.SlotIff | src/gate_keeper/backends/llm_rubric.py:3938-3957 | two clear calls with one key are judged alike by every provider exactly when their run targets read alike or no auditor could make a difference |
| Strategies.UnreadableUnaudited | src/gate_keeper/backends/llm_rubric.py:3962-4262 | without a readable artifact of its own no auditor is asked for a rule with declared targets: the judges' answers decide the run |
| Keying.AuditDecides | src/gate_keeper/backends/llm_rubric.py:4203-4262 | where an auditor is reached on evidence that stands, its agreement or overturning decides the outcome |
| Keying.ManyFilesShareTheKey | src/gate_keeper/backends/eval_cache.py:160-168 | a rule with declared targets has the same key against several files, where it is declined, and elsewhere, where some answer passes |
| Keying.ContextPathChangesVerdict | src/gate_keeper/backends/eval_cache.py:171-197 | a context whose text is the path of a file shares its key with the same context without that file, and one answer is a verdict only there |
| Keying.ClearIff | src/gate_keeper/backends/eval_cache.py:126-293 | a judged call's key determines its outcome among clear calls, for every machine, rule, target and provider that reads its prompts, if and only if the call is clear and no auditor is shown its run target beside readable artifacts of its own |
| Keying.CitingDecides | src/gate_keeper/backends/llm_rubric.py:3002-4676 | under every strategy, judges citing one reference with an agreeing auditor pass exactly when it resolves and give no verdict otherwise |
| Tasks.DeclaredIff | src/gate_keeper/backends/llm_rubric.py:1029-1096 | the targets of a rule are exactly those it declares: at most five, ids distinct and not blank, kinds by name, paths that do not climb |
| Tasks.TaskIff | src/gate_keeper/backends/llm_rubric.py:5065-5243 | a call leads to a judging task exactly when it is configured, its targets and strategy parse and it has something to show; the task's strategy, request, prompt, auditor's artifact and options are the rule's and the run's |
| Tasks.ContextMeaning | src/gate_keeper/backends/llm_rubric.py:4870-4924 | several files are judged as the assembly of their labels and texts under the rule's budget |
| Tasks.IntOfText | src/gate_keeper/backends/llm_rubric.py:3412-3418 | a text is an integer exactly when, stripped, it is an optional sign and digits, of their decimal value |
| Tasks.AsksMeaning | src/gate_keeper/backends/llm_rubric.py:3939-3959 | the auditor is shown the rule, the artifact, the verdict, the reason and the quotes the answer shows |
| Tasks.KeysEqualIff | src/gate_keeper/backends/eval_cache.py:126-293 | two calls share a key exactly when rules and options are keyed alike and the declared targets, the assembled context, or path and text read alike |
| Scope.ResolutionUnique | src/gate_keeper/targets.py:506-642 | a resolution is determined by snapshot, scope, candidates and limit |
| Scope.DispatchedExactly | src/gate_keeper/targets.py:506-642 | a dispatched spec is sorted, non-empty, within the limit, and stands for exactly scope ∩ candidates |
| Scope.ScopeContext.Expand | src/gate_keeper/targets.py:454-468 | a memoised expansion is the expansion, and the memo stays true |
| Scope.ScopeContext.CandidatePaths | src/gate_keeper/validator.py:353-357 | the pool is derived once and is what would be derived |
| Scope.ScopeContext.Resolve | src/gate_keeper/targets.py:506-642 | with any valid memo the resolution is the one computed without it; the memo gains the rule's patterns only |
| Scope.Intersect | src/gate_keeper/targets.py:577-642 | the four outcomes after expansion, with sizes and listings |
| Scope.CandidateRel | src/gate_keeper/targets.py:592-600 | the first candidate for a relative path wins |
| Scope.PlanAll | src/gate_keeper/validator.py:466-506 | planning a whole rule set on one shared context gives each rule the plan of a fresh context |
| Scope.PlanUnique | src/gate_keeper/validator.py:466-506 | plans do not depend on the memo nor on the rules planned before |
| EvalCache.HitIsMarkedOnce | src/gate_keeper/backends/eval_cache.py:334-375 | a hit on a stored verdict is that verdict under the current rule's identity with exactly one marker |
| EvalCache.LookupMeaning | src/gate_keeper/backends/eval_cache.py:309-375 | a lookup hits exactly on a mapping of the known version whose diagnostic loads, and gives it under the rule's identity with the hit record |
| Dispatch.ValidateSequential | src/gate_keeper/validator.py:663-778 | every entry and every cache on the way, said of rule, plan, registry and check: the cause of a rule for which no check starts, a hit, or what the check yields; a verdict of a cacheable check is stored and nothing else changes |
| Dispatch.DisposeIff | src/gate_keeper/validator.py:686-712 | a check is to be started exactly when the rule is no rubric rule of another kind than declared, has no scope or one that resolves to files, and its backend is registered; and then with that rule, backend and files |
| Dispatch.SettledMeaning | src/gate_keeper/validator.py:360-428 | the status, backend and evidence of a mismatch, of each scope outcome and of a registry miss |
| Dispatch.JudgedMeaning | src/gate_keeper/validator.py:509-520 | a check's own status and evidence followed by its files, or ERROR with the exception |
| Dispatch.StoredIsFound | src/gate_keeper/backends/eval_cache.py:309-434 | a stored verdict is found by every later lookup under its key, of whatever run and rule, as what the check yielded |
| Dispatch.StoreSound | src/gate_keeper/backends/eval_cache.py:378-434 | a store of one run keeps a cache sound for another whose keys agree with it |
| Dispatch.StoresSoundIff | src/gate_keeper/backends/eval_cache.py:378-434 | every store of one run keeps every cache sound for another exactly when equal keys mean equal judgments for loadable verdicts |
| Dispatch.SequentialTransparent | src/gate_keeper/validator.py:732-776 | from a sound cache, with other processes removing and storing soundly in between, the run keeps it sound and every entry is the uncached one but for one marker; the keys' agreement is discharged in CachedRuns |
| Dispatch.SequentialPlain | src/gate_keeper/validator.py:663-778 | with the cache off the report is a map over the rules |
| Dispatch.StepKeepsInv | src/gate_keeper/validator.py:832-909 | each executor step keeps: at most `workers` running, waiting, running and done disjoint and exactly the pending slots, results honest |
| Dispatch.SchedulesKeepInv | src/gate_keeper/validator.py:832-909 | so does every schedule of every length |
| Dispatch.OnlyLiveRulesStart | src/gate_keeper/validator.py:833-907 | a check waiting, running or done is that of its rule: no mismatch, a plan that runs, a registered backend, and no cached answer |
| Dispatch.ChecksRun | src/gate_keeper/validator.py:833-907 | in the end exactly the checks that were due have run, each for its own rule |
| Dispatch.Progress | src/gate_keeper/validator.py:832-909 | every step makes progress and, short of the end, one is possible: no schedule hangs |
| Dispatch.ScheduleIndependent | src/gate_keeper/validator.py:911-947 | for every completed schedule the report depends only on the rules and the caches their lookups saw |
| Dispatch.ConcurrentIsSequential | src/gate_keeper/validator.py:781-947 | with the cache off the concurrent report equals the sequential one element by element, exceptions included |
| Dispatch.ConcurrentTransparent | src/gate_keeper/validator.py:877-945 | with sound caches the concurrent report is the plain one but for markers |
| Dispatch.Collect | src/gate_keeper/validator.py:911-947 | the collecting loop: one entry per slot in order, one store per finished check in order |
| Dispatch.ValidateConcurrent | src/gate_keeper/validator.py:781-947 | for every schedule that completes, every entry is what its rule and the cache its lookup saw say, and collecting stores the verdicts of the checks that were due, in order, and nothing else |
| Dispatch.ConcStoresSound | src/gate_keeper/validator.py:926-940 | the collecting loop's stores keep the cache sound |
| Dispatch.BothModesAgree | src/gate_keeper/validator.py:877-945 | a cached concurrent and a cached sequential run, with different sound caches and other processes around, report the same once markers are removed; the keys' agreement is discharged in CachedRuns |
| CachedRuns.OneRunKeyDetermines | src/gate_keeper/backends/eval_cache.py:250-293 | within one run the modelled key determines the modelled judgment, for every machine, target, scope, option and provider |
| CachedRuns.ClearRunsAgree | src/gate_keeper/backends/eval_cache.py:250-293 | between clear runs on any machines that show their auditors run targets reading alike, what one stores is right for the other |
| CachedRuns.HistorySound | src/gate_keeper/backends/eval_cache.py:309-434 | any history of stores by such runs and of evictions leaves a cache that is sound for a clear run |
| CachedRuns.OwnCacheIsInvisible | src/gate_keeper/validator.py:663-947 | a run alone, sequential or concurrent, reports the uncached entries but for one marker, without any condition on rules or files |
| CachedRuns.CacheIsInvisible | src/gate_keeper/validator.py:663-947 | after any history of such runs and among such runs of other processes, both modes report the uncached entries but for one marker and leave a sound cache |
| CacheStore.RunKeepsInv | src/gate_keeper/backends/eval_cache.py:378-434 | every interleaving keeps: a writer alone owns its file, files under final names or held by readers are no longer written |
| CacheStore.DirectoryRefinesMap | src/gate_keeper/backends/eval_cache.py:411-434 | each file-system step is invisible, an atomic store of a complete entry, or an atomic removal |
| CacheStore.ReadsAreAtomic | src/gate_keeper/backends/eval_cache.py:309-331 | a reader's text is what its name held at one moment of the run, however its reads interleave |
| CacheStore.ContentOrigin | src/gate_keeper/backends/eval_cache.py:411-434 | a final name holds what it held at the start or a complete verdict stored for its key |
| CacheStore.ReaderSeesCompleteEntry | src/gate_keeper/backends/eval_cache.py:378-434 | over all interleavings of writers, readers, evictions and crashes a reader sees nothing, an initial file, or one complete PASS/FAIL entry for its key |
| CacheStore.StoreThenRead | src/gate_keeper/backends/eval_cache.py:309-434 | undisturbed, a reader after a writer gets exactly the entry written |
| CachedRuns.DirectoryStaysSound | src/gate_keeper/backends/eval_cache.py:378-466 | every interleaving of file-system steps whose stores are judgments under their own keys, of runs whose keys agree with the reading run, keeps the directory sound as its cache |
| CachedRuns.LookupIsGoodHit | src/gate_keeper/backends/eval_cache.py:309-375 | under the same agreement of keys, a lookup in any process, however its reads interleave, is a miss or the plain evaluation with one marker |
| CachedRuns.CheckMeaning | src/gate_keeper/backends/llm_rubric.py:5065-5243 | a judged call is evaluated to the diagnostic written from its task and the provider's answers to that task, when it is a verdict |
| CacheStore.Directory.MaybeEvict | src/gate_keeper/backends/eval_cache.py:437-466 | said of the files: every removed one is at most as recent as every kept one that could be removed, ties by path; the rest fits the cap or nothing more can be removed; and with the last removed it did not fit |
| CacheStore.UndisturbedKeepsNewest | src/gate_keeper/backends/eval_cache.py:437-466 | undisturbed, exactly the longest newest-first suffix that fits is kept, by modification time and then path |
| CacheStore.EvictionIsThorough | src/gate_keeper/backends/eval_cache.py:458-464 | whatever fails to unlink, the cap is met or only such files remain |
| CacheStore.ScanOrderIrrelevant | src/gate_keeper/backends/eval_cache.py:447-456 | files with distinct paths have one order by modification time and path, whatever order the scan had |
| Glob.GlobToRegex | src/gate_keeper/backends/github.py:1096-1151 | the index walk with look-back and pop emits the compiled pieces |
| Glob.CompileIsHead | src/gate_keeper/backends/github.py:1096-1151 | the emitted pieces are those of a segment-by-segment translation |
| Glob.PiecesConcat | src/gate_keeper/backends/github.py:1154-1168 | pieces one after the other match exactly the texts that can be cut in two |
| Glob.PieceMeaning | src/gate_keeper/backends/github.py:1114-1151 | what each of the six emitted pieces matches by itself |
| Glob.MatchGlobIff | src/gate_keeper/backends/github.py:1154-1168 | a path matches when the pieces match it, or match it up to one newline at its end |
| Glob.StarsInside | src/gate_keeper/backends/github.py:1133-1136 | a `**` inside a longer segment or at an end stands for any part of the path, slashes included |
| Glob.GlobMeaning | src/gate_keeper/backends/github.py:1096-1168 | for every pattern whose `**` are whole segments, adjacent ones included, the match is the segment-level one |
| Glob.MinSegments | src/gate_keeper/backends/github.py:1096-1168 | how many segments a matching path needs at least |
| Glob.DocumentedIff | src/gate_keeper/backends/github.py:1096-1112 | the documented "zero or more" holds on all paths exactly for patterns that read as documented |
| Policy.FirstViolation | src/gate_keeper/backends/github.py:1705-1730 | the inner loops with their breaks find the first forbidden entry without an exempting exception |
| Policy.Evaluate | src/gate_keeper/backends/github.py:1698-1730 | the reported files are the offending ones in input order, each with its first entry |
| Policy.ReportedIff | src/gate_keeper/backends/github.py:1698-1730 | reported exactly when some forbidden glob matches and no single exception matches both file and glob text |
| Policy.ReportedOnce | src/gate_keeper/backends/github.py:1698-1730 | an offending file is reported once per occurrence |
| Markdown.MarkerIgnoresBreaks | src/gate_keeper/_md.py:62-67 | a line acts on a fence alike whether or not its break is kept, as it is in the stripper and is not in the other two scanners |
| Markdown.FenceIff | src/gate_keeper/_md.py:30-39 | a line is a fence exactly when it is at most three blanks, a run of three or more of one fence character, and the rest |
| Markdown.KindMeaning | src/gate_keeper/_md.py:62-84 | over the text of a line: outside it opens a fence or is plain, inside it closes one of its character that is no longer, or belongs to the block |
| Markdown.AtxIff | src/gate_keeper/_md.py:97-104 | a line is a heading exactly when it is at most three blanks, one to six hashes, blanks, and the shortest title in front of nothing or a closing sequence |
| Markdown.StripFencedBlocks | src/gate_keeper/_md.py:42-84 | the result is the concatenation of exactly the lines the fold calls plain |
| Markdown.IterNonFenceLines | src/gate_keeper/_md.py:107-141 | the yielded indices are the fold's plain lines |
| Markdown.PlainIndicesExact | src/gate_keeper/_md.py:107-141 | those indices are increasing, are exactly the plain lines, and pick out the lines the stripper keeps |
| Markdown.StripIdempotent | src/gate_keeper/_md.py:42-84 | stripping twice removes nothing more, for every text and every line-break convention |
| Markdown.FencedBlockVanishes | src/gate_keeper/_md.py:42-84 | a fenced block inserted anywhere outside fences leaves no trace among the plain lines |
| Markdown.HeadingReadsBack | src/gate_keeper/_md.py:98-104 | a written heading reads back with its level and title exactly when no tail of the title is a closing sequence |
| Markdown.HeadingPresent | src/gate_keeper/_md.py:144-155 | true exactly when a real heading outside every fence has the title |
| Markdown.FindFirstFencedBlockAfterHeading | src/gate_keeper/_md.py:158-245 | exactly the first block the fold opens in the section of the first such heading, with its body to the matching close or the end, or nothing when there is none |
| Markdown.OneBlock | src/gate_keeper/_md.py:158-245 | heading, opening fence, end and result are determined by the text |
| RuleParser.StackExact | src/gate_keeper/parser.py:164-173 | the heading stack deepens strictly and holds exactly the earlier headings not followed by one of their level or above |
| RuleParser.PopTo | src/gate_keeper/parser.py:169-170 | the popping loop |
| RuleParser.CollectParagraph | src/gate_keeper/parser.py:231-241 | the paragraph loop: runs to the first line that starts a block, joining stripped lines |
| RuleParser.Parse | src/gate_keeper/parser.py:131-276 | the one-pass parser yields exactly what each line contributes by itself |
| RuleParser.RuleMeaning | src/gate_keeper/parser.py:164-276 | every rule's line, text, annotation, kind, title, heading chain and id are those of the line it comes from |
| RuleParser.AtxIff | src/gate_keeper/parser.py:45 | the parser's headings: one to six hashes at the start, whitespace, a stripped title |
| RuleParser.BulletIff | src/gate_keeper/parser.py:47 | bullets are blanks, a mark, whitespace and the item |
| RuleParser.TaskBoxIff | src/gate_keeper/parser.py:46 | tasks are bullets whose item is a box, whitespace and the text |
| RuleParser.OrderedIff | src/gate_keeper/parser.py:48 | numbered items are blanks, digits, a mark, whitespace and the item |
| RuleParser.AnnotationIff | src/gate_keeper/parser.py:57 | an annotation is read exactly off a bracketed `target_kind`, a colon and a non-empty value without brackets, whitespace around each |
| RuleParser.CandidatesOrdered | src/gate_keeper/parser.py:131-255 | candidates come from strictly increasing lines outside fences |
| RuleParser.MakeIdInjective | src/gate_keeper/parser.py:99-101 | ids of different lines differ |
| RuleParser.ParsedReloads | src/gate_keeper/parser.py:257-276 | every parsed set has increasing lines and unique ids and survives `to_dict` then `from_dict` |
| RuleParser.AnnotationReadsBack | src/gate_keeper/parser.py:60-92 | an annotation appended to any text without brackets is stripped off and yields its kind |
| RuleParser.ScannersAgreeIff | src/gate_keeper/parser.py:145-162 | the parser and the Markdown scanners agree on every line's fence exactly when no line is disputed |
| Models.SourceRoundTrip | src/gate_keeper/models.py:139-160 | a location reloads exactly when its line is 1-based |
| Models.DiagnosticRoundTrip | src/gate_keeper/models.py:303-350 | a diagnostic reloads unchanged exactly when its line is 1-based |
| Models.DiagnosticUnloadable | src/gate_keeper/models.py:303-350 | otherwise it does not load at all |
| Models.RuleRoundTrip | src/gate_keeper/models.py:186-282 | a rule reloads unchanged exactly when it meets the schema's value constraints |
| Models.DuplicateRuleIds | src/gate_keeper/models.py:356-369 | the loop collects exactly the ids that occur twice |
| Models.RuleSetRoundTrip | src/gate_keeper/models.py:356-372 | a rule set reloads unchanged exactly when every rule meets the schema and ids are distinct |
| Schema.RuleIff | src/gate_keeper/models.py:81-255 | a rule loads exactly from the documents that describe it, field by field |
| Schema.DiagnosticIff | src/gate_keeper/models.py:291-335 | a diagnostic loads exactly from the documents that describe it |

## Left out

- Provider calls, prompts, response parsing, dotenv and the unconfigured-provider paths: a provider is an arbitrary sequence of parsed answers and failures.
- JSON text, SHA-256 and YAML: JSON is a value, the hash is injective, and canonical JSON is an abstract encoder with a left inverse.
- File reading, directory walking and path normalisation: a snapshot maps patterns to files and paths to repo-relative forms; the run-level target expansion of `targets.py` is not part of this model.
- Pull-request handlers, pagination, git and subprocesses, the filesystem and external backends, adapters, the CLI, rendering and the bench harness: flat case splits over input and output.
- `classifier.py` and the normative-wording search: long lists of English patterns. The search is an arbitrary predicate, and so is the Unicode decimal-digit class of `\d`.
- Message texts, remediations, rationales and the merged reason and action of a panel are not modelled, nor the exact wording of parse warnings; evidence records carry only the fields a property is about.
- Floating point: token estimates, scores and costs are exact rationals.
- The case-insensitive mode of the glob matcher, which the policy does not use.
- Strings are sequences of characters; surrogate handling and encoding errors are not modelled.
- Scheduling inside the executor beyond submit, start and finish, and an exception raised by the main thread itself, which would end the run.
- The path slug in rule ids is a parameter of the parser.
- Keying.ClearIff: asks that an assembled text is not the path of one of its own files and that a target spec has a file; `int` of a string is read on ASCII digits without underscores.
- CacheStore.Directory.MaybeEvict: acts on the entries of one scan; files added during the pass are not part of it, files removed by others count as failing to unlink.
- CacheStore: inode numbers are not reused, and a rename or an unlink is one atomic step of the file system.
- Glob.GlobMeaning: asks that every `**` is a whole segment; a single one elsewhere is covered by `StarsInside`, several by what their pieces match (`GlobToRegex`, `PiecesConcat`, `PieceMeaning`); paths hold no newline, which `.` and `$` treat specially.
