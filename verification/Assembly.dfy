/** Budgeted assembly of an affected context: prefix truncation with a running count. */
module Assembly {
  import opened Wrappers
  import opened Json
  import opened Sorting

  datatype AffectedFile = AffectedFile(name: string, text: string)

  /** A candidate path as read from the snapshot: its label and its text, if readable. */
  datatype Candidate = Candidate(name: string, content: Option<string>)

  // ---- budget ----

  const DEFAULT_TOKEN_BUDGET := 32000

  /** `ceil(chars / 3.2)` in exact arithmetic. */
  function EstimateTokens(chars: nat): (t: nat)
    ensures 16 * t >= 5 * chars && 16 * t < 5 * chars + 16
  {
    (5 * chars + 15) / 16
  }

  /** Rule parameter, then dotenv value, then default; what is malformed or not positive
      falls through. */
  function ResolveTokenBudget(param: Json, env: Option<nat>): (r: nat)
    ensures r > 0
    ensures param.JInt? && param.n > 0 ==> r == param.n
    ensures !(param.JInt? && param.n > 0) && env.Some? && env.value > 0 ==> r == env.value
    ensures !(param.JInt? && param.n > 0) && (env.None? || env.value == 0) ==> r == 32000
  {
    if param.JInt? && param.n > 0 then param.n
    else if env.Some? && env.value > 0 then env.value
    else DEFAULT_TOKEN_BUDGET
  }

  // ---- blocks ----

  function RenderBlock(f: AffectedFile): string { "--- " + f.name + " ---\n" + f.text }

  const SEPARATOR := "\n\n"

  function JoinBlocks(files: seq<AffectedFile>): string {
    if files == [] then ""
    else if |files| == 1 then RenderBlock(files[0])
    else JoinBlocks(files[..|files| - 1]) + SEPARATOR + RenderBlock(files[|files| - 1])
  }

  /** The length of a joined text, block by block. */
  lemma {:induction false} JoinLength(a: seq<AffectedFile>, b: seq<AffectedFile>)
    ensures |JoinBlocks(a + b)| == |JoinBlocks(a)| + |JoinBlocks(b)| + if a != [] && b != [] then 2 else 0
  {
    hide RenderBlock;
    if b == [] {
      assert a + b == a;
    } else if a == [] {
      assert a + b == b;
    } else {
      var n := |b| - 1;
      JoinLength(a, b[..n]);
      assert (a + b)[..|a + b| - 1] == a + b[..n] && (a + b)[|a + b| - 1] == b[n];
    }
  }

  function Chars(files: seq<AffectedFile>): nat { |JoinBlocks(files)| }

  lemma CharsMonotone(files: seq<AffectedFile>, i: nat, j: nat)
    requires i <= j <= |files|
    ensures Chars(files[..i]) <= Chars(files[..j])
  {
    assert files[..j] == files[..i] + files[i..j];
    JoinLength(files[..i], files[i..j]);
  }

  // ---- reading ----

  function Readable(cs: seq<Candidate>): seq<AffectedFile> {
    if cs == [] then []
    else
      var n := |cs| - 1;
      Readable(cs[..n]) + if cs[n].content.Some? then [AffectedFile(cs[n].name, cs[n].content.value)] else []
  }

  function Unreadable(cs: seq<Candidate>): seq<string> {
    if cs == [] then []
    else
      var n := |cs| - 1;
      Unreadable(cs[..n]) + if cs[n].content.Some? then [] else [cs[n].name]
  }

  function LabelOf(f: AffectedFile): string { f.name }

  function Identity(s: string): string { s }

  /** The readable files in label order. */
  function SortedReadable(cs: seq<Candidate>): seq<AffectedFile> { Sort(ByKey(LabelOf), Readable(cs)) }

  function SortedUnreadable(cs: seq<Candidate>): seq<string> { Sort(ByKey(Identity), Unreadable(cs)) }

  /** `_read_affected_files`. */
  method ReadAffectedFiles(cs: seq<Candidate>) returns (readable: seq<AffectedFile>, unreadable: seq<string>)
    ensures readable == SortedReadable(cs) && unreadable == SortedUnreadable(cs)
  {
    readable, unreadable := [], [];
    for i := 0 to |cs|
      invariant readable == Readable(cs[..i]) && unreadable == Unreadable(cs[..i])
    {
      assert cs[..i + 1][..i] == cs[..i];
      match cs[i].content {
        case None => unreadable := unreadable + [cs[i].name];
        case Some(text) => readable := readable + [AffectedFile(cs[i].name, text)];
      }
    }
    assert cs[..|cs|] == cs;
    readable := Sort(ByKey(LabelOf), readable);
    unreadable := Sort(ByKey(Identity), unreadable);
  }

  lemma {:induction false} PartsCount(cs: seq<Candidate>)
    ensures |Readable(cs)| + |Unreadable(cs)| == |cs|
  {
    if cs == [] {
    } else {
      PartsCount(cs[..|cs| - 1]);
    }
  }

  /** Every candidate is either readable or named as unreadable. */
  lemma SortedPartsCount(cs: seq<Candidate>)
    ensures |SortedReadable(cs)| + |SortedUnreadable(cs)| == |cs|
  {
    PartsCount(cs);
    ByKeyTotal(LabelOf);
    ByKeyTotal(Identity);
    SortSorts(ByKey(LabelOf), Readable(cs));
    SortSorts(ByKey(Identity), Unreadable(cs));
    SameElements(Readable(cs), SortedReadable(cs));
    SameElements(Unreadable(cs), SortedUnreadable(cs));
  }

  // ---- truncation ----

  predicate Fits(files: seq<AffectedFile>, budget: nat) { EstimateTokens(Chars(files)) <= budget }

  /** How many leading files survive, counting from k. */
  function FitFrom(files: seq<AffectedFile>, budget: nat, k: nat): (r: nat)
    requires k <= |files|
    ensures k <= r <= |files|
    decreases |files| - k
  {
    if k < |files| && Fits(files[..k + 1], budget) then FitFrom(files, budget, k + 1) else k
  }

  function Fit(files: seq<AffectedFile>, budget: nat): (r: nat)
    ensures r <= |files|
  {
    FitFrom(files, budget, 0)
  }

  datatype AssemblyResult = AssemblyResult(included: seq<AffectedFile>, omittedFiles: seq<AffectedFile>,
                                           unreadable: seq<string>,
                           text: string, tokensEstimated: nat, tokensFull: nat, candidateCount: nat, budget: nat)

  function Assemble(cs: seq<Candidate>, budget: nat): AssemblyResult {
    var readable := SortedReadable(cs);
    var k := Fit(readable, budget);
    AssemblyResult(readable[..k], readable[k..], SortedUnreadable(cs), JoinBlocks(readable[..k]),
           EstimateTokens(Chars(readable[..k])), EstimateTokens(Chars(readable)), |cs|, budget)
  }

  /** The truncation loop: the running count is the length of the joined text. */
  method Truncate(readable: seq<AffectedFile>, budget: nat)
    returns (included: seq<AffectedFile>, omitted: seq<AffectedFile>)
    ensures included == readable[..Fit(readable, budget)] && omitted == readable[Fit(readable, budget)..]
  {
    NothingYet(readable, budget);
    FitEnd(readable, budget);
    hide Chars, RenderBlock, FitFrom, Fit;
    included, omitted := [], [];
    var runningChars, truncating := 0, false;
    ghost var n := 0;
    for i := 0 to |readable|
      invariant n == |included| <= i && included == readable[..n] && omitted == readable[n..i]
      invariant runningChars == Chars(included)
      invariant truncating ==> n == Fit(readable, budget)
      invariant !truncating ==> n == i && FitFrom(readable, budget, i) == Fit(readable, budget)
    {
      var f := readable[i];
      if truncating {
        omitted := omitted + [f];
      } else {
        var added := |RenderBlock(f)| + if included != [] then |SEPARATOR| else 0;
        FitStep(readable, budget, i, included, f);
        if EstimateTokens(runningChars + added) > budget {
          omitted, truncating := omitted + [f], true;
        } else {
          included, n := included + [f], n + 1;
          runningChars := runningChars + added;
        }
      }
    }
  }

  lemma NothingYet(files: seq<AffectedFile>, budget: nat)
    ensures Chars([]) == 0 && FitFrom(files, budget, 0) == Fit(files, budget)
  {}

  /** `_assemble_affected_context`. */
  method AssembleAffectedContext(cs: seq<Candidate>, budget: nat) returns (r: AssemblyResult)
    ensures r == Assemble(cs, budget)
    ensures IsAssembly(cs, budget, r)
  {
    AssemblyMeaning(cs, budget);
    hide IsAssembly;
    var readable, unreadable := ReadAffectedFiles(cs);
    var included, omitted := Truncate(readable, budget);
    r := AssemblyResult(included, omitted, unreadable, JoinBlocks(included), EstimateTokens(|JoinBlocks(included)|),
                EstimateTokens(|JoinBlocks(readable)|), |cs|, budget);
  }

  /** What adding the next file does to the count, and whether it still fits. */
  lemma FitStep(files: seq<AffectedFile>, budget: nat, k: nat, before: seq<AffectedFile>, f: AffectedFile)
    requires k < |files| && before == files[..k] && f == files[k]
    ensures var chars := Chars(before) + |RenderBlock(f)| + if before != [] then |SEPARATOR| else 0;
            && Chars(before + [f]) == chars
            && FitFrom(files, budget, k) == if EstimateTokens(chars) <= budget then FitFrom(files, budget, k + 1) else k
  {
    hide JoinBlocks, RenderBlock;
    JoinLength(before, [f]);
    OneBlock(f);
    assert files[..k + 1] == before + [f];
  }

  lemma FitEnd(files: seq<AffectedFile>, budget: nat)
    ensures FitFrom(files, budget, |files|) == |files|
  {}

  lemma OneBlock(f: AffectedFile)
    ensures |JoinBlocks([f])| == |RenderBlock(f)|
  {}

  lemma {:induction false} FitFromExact(files: seq<AffectedFile>, budget: nat, k: nat)
    requires k <= |files| && Fits(files[..k], budget)
    ensures var r := FitFrom(files, budget, k);
            Fits(files[..r], budget) && forall j :: r < j <= |files| ==> !Fits(files[..j], budget)
    decreases |files| - k
  {
    if k < |files| {
      if Fits(files[..k + 1], budget) {
        FitFromExact(files, budget, k + 1);
      } else {
        forall j | k < j <= |files| ensures !Fits(files[..j], budget) { CharsMonotone(files, k + 1, j); }
      }
    }
  }

  /** The included files are the longest label-ordered prefix whose joined text fits. */
  lemma LongestPrefix(cs: seq<Candidate>, budget: nat)
    ensures var r := Assemble(cs, budget);
            && r.included + r.omittedFiles == SortedReadable(cs)
            && r.text == JoinBlocks(r.included)
            && r.tokensEstimated == EstimateTokens(|r.text|) <= budget
            && forall j :: |r.included| < j <= |SortedReadable(cs)| ==>
                EstimateTokens(|JoinBlocks(SortedReadable(cs)[..j])|) > budget
  {
    hide EstimateTokens, SortedReadable;
    var files := SortedReadable(cs);
    assert EstimateTokens(0) == 0 by { ZeroTokens(); }
    assert files[..0] == [];
    FitFromExact(files, budget, 0);
  }

  lemma ZeroTokens()
    ensures EstimateTokens(0) == 0
  {}

  /** A larger budget only extends the prefix. */
  lemma BudgetMonotone(cs: seq<Candidate>, budget: nat, larger: nat)
    requires budget <= larger
    ensures Assemble(cs, budget).included <= Assemble(cs, larger).included
  {
    hide EstimateTokens, SortedReadable;
    LongestPrefix(cs, budget);
    LongestPrefix(cs, larger);
    var a, b := Assemble(cs, budget).included, Assemble(cs, larger).included;
    var files := SortedReadable(cs);
    assert a == files[..|a|] && b == files[..|b|];
    if |b| < |a| { assert false; }
  }

  // ---- what an assembly promises ----

  ghost predicate At(text: string, i: int, part: string) {
    0 <= i <= i + |part| <= |text| && text[i..i + |part|] == part
  }

  /** From index i on, the text shows the file under its header. */
  ghost predicate ShowsFile(text: string, i: int, f: AffectedFile) {
    && At(text, i, "--- ") && At(text, i + 4, f.name) && At(text, i + 4 + |f.name|, " ---\n")
    && At(text, i + 9 + |f.name|, f.text)
  }

  /** The characters files take one after the other with a blank line after each. */
  ghost function Span(files: seq<AffectedFile>): nat {
    if files == [] then 0 else Span(files[..|files| - 1]) + |files[|files| - 1].name| + |files[|files| - 1].text| + 11
  }

  /** How long the files are together: no blank line follows the last. */
  ghost function Size(files: seq<AffectedFile>): nat { if files == [] then 0 else Span(files) - 2 }

  /** t is `ceil(chars / 3.2)`. */
  predicate IsEstimate(t: nat, chars: nat) { 16 * t >= 5 * chars && (t == 0 || 16 * (t - 1) < 5 * chars) }

  ghost predicate InOrder(labels: seq<string>) { forall i, j :: 0 <= i < j < |labels| ==> LexLe(labels[i], labels[j]) }

  /** File i stands where it has to, after a blank line unless it is the first. */
  ghost predicate ShowsAt(text: string, files: seq<AffectedFile>, i: nat)
    requires i < |files|
  {
    ShowsFile(text, Span(files[..i]), files[i]) && (i > 0 ==> At(text, Span(files[..i]) - 2, "\n\n"))
  }

  /** The text is the files under their headers, a blank line between them, and nothing else. */
  ghost predicate ShowsFiles(text: string, files: seq<AffectedFile>) {
    |text| == Size(files) && forall i: nat :: i < |files| ==> ShowsAt(text, files, i)
  }

  lemma {:induction false} JoinShows(files: seq<AffectedFile>)
    ensures ShowsFiles(JoinBlocks(files), files)
  {
    hide ShowsAt, RenderBlock, Span;
    if files == [] {
    } else {
      var n := |files| - 1;
      JoinShows(files[..n]);
      JoinLast(files);
      forall i: nat | i < n ensures ShowsAt(JoinBlocks(files), files, i) { ShowsEarlier(files, i); }
    }
  }

  lemma JoinLast(files: seq<AffectedFile>)
    requires files != [] && |JoinBlocks(files[..|files| - 1])| == Size(files[..|files| - 1])
    ensures |JoinBlocks(files)| == Size(files) && ShowsAt(JoinBlocks(files), files, |files| - 1)
  {
    var n := |files| - 1;
    var f, before := files[n], JoinBlocks(files[..n]);
    var head := if n > 0 then before + SEPARATOR else "";
    SpanPositive(files[..n]);
    BlockAt(head, f);
    if n > 0 {
      assert head[|before|..|before| + 2] == SEPARATOR;
      AtExtends(head, RenderBlock(f), |before|, SEPARATOR);
    } else {
      assert files == [f] && files[..0] == [] && "" + RenderBlock(f) == RenderBlock(f);
    }
    hide RenderBlock, ShowsFile, At;
    assert JoinBlocks(files) == head + RenderBlock(f);
  }

  lemma SpanPositive(files: seq<AffectedFile>)
    ensures files != [] ==> Span(files) >= 11
  {}

  lemma BlockAt(head: string, f: AffectedFile)
    ensures ShowsFile(head + RenderBlock(f), |head|, f) && |RenderBlock(f)| == |f.name| + |f.text| + 9
  {
    var t := head + RenderBlock(f);
    assert t == head + "--- " + f.name + " ---\n" + f.text;
  }

  lemma AtExtends(text: string, more: string, i: int, part: string)
    requires At(text, i, part)
    ensures At(text + more, i, part)
  {}

  lemma ShowsFileStays(text: string, more: string, i: int, f: AffectedFile)
    requires ShowsFile(text, i, f)
    ensures ShowsFile(text + more, i, f)
  {
    AtExtends(text, more, i, "--- ");
    AtExtends(text, more, i + 4, f.name);
    AtExtends(text, more, i + 4 + |f.name|, " ---\n");
    AtExtends(text, more, i + 9 + |f.name|, f.text);
    hide At;
  }

  lemma JoinGrows(files: seq<AffectedFile>) returns (more: string)
    requires |files| > 1
    ensures JoinBlocks(files) == JoinBlocks(files[..|files| - 1]) + more
  {
    hide RenderBlock;
    more := SEPARATOR + RenderBlock(files[|files| - 1]);
  }

  /** The files before the last stand where they stood. */
  lemma ShowsEarlier(files: seq<AffectedFile>, i: nat)
    requires i < |files| - 1
    requires ShowsAt(JoinBlocks(files[..|files| - 1]), files[..|files| - 1], i)
    ensures ShowsAt(JoinBlocks(files), files, i)
  {
    hide JoinBlocks, At, ShowsFile, Span;
    var front := files[..|files| - 1];
    var more := JoinGrows(files);
    assert front[..i] == files[..i] && front[i] == files[i];
    ShowsFileStays(JoinBlocks(front), more, Span(files[..i]), files[i]);
    if i > 0 { AtExtends(JoinBlocks(front), more, Span(files[..i]) - 2, "\n\n"); }
  }

  /** What the assembly of candidates under a budget has to be: the readable ones in label order, the
      included before the omitted, the included shown one after the other in a text within the budget,
      which the next file would exceed, and counts and estimates that say so. */
  ghost predicate IsAssembly(cs: seq<Candidate>, budget: nat, r: AssemblyResult) {
    var files := r.included + r.omittedFiles;
    && InOrder(Labels(files)) && multiset(files) == multiset(Readable(cs))
    && InOrder(r.unreadable) && multiset(r.unreadable) == multiset(Unreadable(cs))
    && ShowsFiles(r.text, r.included)
    && IsEstimate(r.tokensEstimated, |r.text|) && r.tokensEstimated <= budget
    && IsEstimate(r.tokensFull, Size(files))
    && (r.omittedFiles != [] ==> 5 * Size(files[..|r.included| + 1]) > 16 * budget)
    && r.candidateCount == |cs| && r.budget == budget
  }

  /** The readable and the unreadable candidates. */
  lemma {:induction false} ReadableIff(cs: seq<Candidate>)
    ensures forall f :: f in Readable(cs) <==> exists c :: c in cs && c.name == f.name && c.content == Some(f.text)
    ensures forall l :: l in Unreadable(cs) <==> exists c :: c in cs && c.name == l && c.content.None?
    ensures |Readable(cs)| + |Unreadable(cs)| == |cs|
  {
    if cs == [] {
    } else {
      var n := |cs| - 1;
      ReadableIff(cs[..n]);
      assert cs == cs[..n] + [cs[n]];
    }
  }

  lemma AssemblyMeaning(cs: seq<Candidate>, budget: nat)
    ensures IsAssembly(cs, budget, Assemble(cs, budget))
  {
    var r, files := Assemble(cs, budget), SortedReadable(cs);
    LongestPrefix(cs, budget);
    SortedByLabel(cs);
    JoinShows(r.included);
    JoinShows(files);
    hide EstimateTokens, SortedReadable, SortedUnreadable, ShowsFiles, Size, JoinBlocks, InOrder;
    assert r.included + r.omittedFiles == files;
    ShownSize(r.text, r.included);
    ShownSize(JoinBlocks(files), files);
    EstimateIs(|r.text|);
    EstimateIs(Size(files));
    if r.omittedFiles != [] {
      var next := files[..|r.included| + 1];
      JoinShows(next);
      ShownSize(JoinBlocks(next), next);
      OverBudget(|JoinBlocks(next)|, budget);
    }
  }

  lemma ShownSize(text: string, files: seq<AffectedFile>)
    requires ShowsFiles(text, files)
    ensures |text| == Size(files)
  {}

  lemma EstimateIs(chars: nat)
    ensures IsEstimate(EstimateTokens(chars), chars)
  {}

  lemma OverBudget(chars: nat, budget: nat)
    requires EstimateTokens(chars) > budget
    ensures 5 * chars > 16 * budget
  {}

  lemma SortedByLabel(cs: seq<Candidate>)
    ensures InOrder(Labels(SortedReadable(cs))) && multiset(SortedReadable(cs)) == multiset(Readable(cs))
    ensures InOrder(SortedUnreadable(cs)) && multiset(SortedUnreadable(cs)) == multiset(Unreadable(cs))
  {
    ByKeyTotal(LabelOf);
    ByKeyTotal(Identity);
    SortSorts(ByKey(LabelOf), Readable(cs));
    SortSorts(ByKey(Identity), Unreadable(cs));
    LabelsInOrder(SortedReadable(cs));
    NamesInOrder(SortedUnreadable(cs));
    hide Sort, Readable, Unreadable, LexLe, InOrder, Sorted;
  }

  lemma LabelsInOrder(files: seq<AffectedFile>)
    requires Sorted(ByKey(LabelOf), files)
    ensures InOrder(Labels(files))
  {
    var le := ByKey(LabelOf);
    forall i, j | 0 <= i < j < |files| ensures LexLe(files[i].name, files[j].name) {
      assert le(files[i], files[j]) == LexLe(LabelOf(files[i]), LabelOf(files[j]));
    }
  }

  lemma NamesInOrder(names: seq<string>)
    requires Sorted(ByKey(Identity), names)
    ensures InOrder(names)
  {
    var le := ByKey(Identity);
    forall i, j | 0 <= i < j < |names| ensures LexLe(names[i], names[j]) {
      assert le(names[i], names[j]) == LexLe(Identity(names[i]), Identity(names[j]));
    }
  }

  // ---- evidence ----

  function Labels(files: seq<AffectedFile>): seq<string> { seq(|files|, i requires 0 <= i < |files| => files[i].name) }

  /** The `affected_context` record. */
  datatype AffectedContext = AffectedContext(included: seq<string>, omitted: seq<string>, unreadable: seq<string>,
                                             includedCount: nat, candidateCount: nat, tokensEstimated: nat,
                                             tokensFull: nat, budget: nat, truncated: bool)

  /** The `truncation_warning` record. */
  datatype TruncationWarning = TruncationWarning(omitted: seq<string>, omittedCount: nat, includedCount: nat,
                                                 tokensEstimated: nat, tokensFull: nat, budget: nat)

  function ContextEvidence(r: AssemblyResult): AffectedContext {
    AffectedContext(Labels(r.included), Labels(r.omittedFiles), r.unreadable, |r.included|, r.candidateCount,
                    r.tokensEstimated, r.tokensFull, r.budget, r.omittedFiles != [])
  }

  function WarningEvidence(r: AssemblyResult): Option<TruncationWarning> {
    if r.omittedFiles == [] then None
    else Some(TruncationWarning(Labels(r.omittedFiles), |r.omittedFiles|, |r.included|,
                                r.tokensEstimated, r.tokensFull, r.budget))
  }

  /** The records agree with each other and account for every candidate: each is included, omitted or
      unreadable, and there is a warning exactly when something was omitted. */
  lemma EvidenceAccounts(cs: seq<Candidate>, budget: nat)
    ensures var r := Assemble(cs, budget);
            var e, w := ContextEvidence(r), WarningEvidence(r);
            && e.included == Labels(r.included) && e.omitted == Labels(r.omittedFiles) && e.unreadable == r.unreadable
            && InOrder(e.included + e.omitted) && InOrder(e.unreadable)
            && multiset(e.included + e.omitted + e.unreadable) == multiset(Names(cs))
            && e.includedCount == |e.included| && e.candidateCount == |cs| && e.budget == budget
            && IsEstimate(e.tokensEstimated, |r.text|) && e.tokensEstimated <= e.budget
            && (e.truncated <==> e.omitted != []) && (w.Some? <==> e.truncated)
            && (w.Some? ==> w.value == TruncationWarning(e.omitted, |e.omitted|, e.includedCount, e.tokensEstimated,
                                                         e.tokensFull, e.budget))
  {
    AssemblyMeaning(cs, budget);
    var r := Assemble(cs, budget);
    hide Assemble, InOrder, ShowsFiles, EstimateTokens;
    assert Labels(r.included + r.omittedFiles) == Labels(r.included) + Labels(r.omittedFiles);
    LabelsPermute(r.included + r.omittedFiles, Readable(cs));
    NamesSplit(cs);
  }

  lemma {:induction false} LabelsPermute(a: seq<AffectedFile>, b: seq<AffectedFile>)
    requires multiset(a) == multiset(b)
    ensures multiset(Labels(a)) == multiset(Labels(b))
    decreases |a|
  {
    SameElements(a, b);
    if a == [] {
    } else {
      var n := |a| - 1;
      assert a[n] in b;
      var k :| 0 <= k < |b| && b[k] == a[n];
      var rest := b[..k] + b[k + 1..];
      TakeOut(a, n);
      TakeOut(b, k);
      assert a[..n] + a[n + 1..] == a[..n];
      LabelsPermute(a[..n], rest);
      LabelsTakeOut(a, n);
      LabelsTakeOut(b, k);
    }
  }

  lemma TakeOut<T>(s: seq<T>, k: nat)
    requires k < |s|
    ensures multiset(s) == multiset(s[..k] + s[k + 1..]) + multiset{s[k]}
    ensures multiset(s[..k] + s[k + 1..]) == multiset(s) - multiset{s[k]}
  {
    assert s == s[..k] + [s[k]] + s[k + 1..];
  }

  lemma LabelsTakeOut(s: seq<AffectedFile>, k: nat)
    requires k < |s|
    ensures multiset(Labels(s)) == multiset(Labels(s[..k] + s[k + 1..])) + multiset{s[k].name}
  {
    TakeOut(Labels(s), k);
    assert Labels(s)[..k] + Labels(s)[k + 1..] == Labels(s[..k] + s[k + 1..]);
  }

  function Names(cs: seq<Candidate>): seq<string> { seq(|cs|, i requires 0 <= i < |cs| => cs[i].name) }

  lemma {:induction false} NamesSplit(cs: seq<Candidate>)
    ensures multiset(Labels(Readable(cs)) + Unreadable(cs)) == multiset(Names(cs))
  {
    if cs == [] {
    } else {
      var n := |cs| - 1;
      var files, names := Readable(cs[..n]), Unreadable(cs[..n]);
      NamesSplit(cs[..n]);
      NamesSnoc(cs);
      if cs[n].content.Some? {
        LabelsSnoc(files, AffectedFile(cs[n].name, cs[n].content.value));
        AppendEither(Labels(files), names, cs[n].name);
        assert Unreadable(cs) == names;
      } else {
        AppendEither(Labels(files), names, cs[n].name);
        assert Readable(cs) == files;
      }
    }
  }

  lemma AppendEither(a: seq<string>, b: seq<string>, x: string)
    ensures multiset((a + [x]) + b) == multiset(a + b) + multiset{x}
    ensures multiset(a + (b + [x])) == multiset(a + b) + multiset{x}
  {}

  lemma NamesSnoc(cs: seq<Candidate>)
    requires cs != []
    ensures multiset(Names(cs)) == multiset(Names(cs[..|cs| - 1])) + multiset{cs[|cs| - 1].name}
  {
    assert Names(cs) == Names(cs[..|cs| - 1]) + [cs[|cs| - 1].name];
  }

  lemma LabelsSnoc(files: seq<AffectedFile>, f: AffectedFile)
    ensures Labels(files + [f]) == Labels(files) + [f.name]
  {}
}
