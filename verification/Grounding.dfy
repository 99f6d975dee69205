/** Quote grounding: which quotes the fabrication check accepts, and where the span
    resolver finds an accepted quote in the un-normalised artifact. */
module Grounding {
  import opened Wrappers
  import opened Text

  // ---- the fabrication check ----

  /** The check's verdict on one quote. */
  predicate Grounded(artifact: string, quote: string) {
    Strip(quote) != "" && Find(Normalise(artifact), Normalise(quote)).Some?
  }

  function Ungrounded(quotes: seq<string>, artifact: string): seq<string> {
    if quotes == [] then []
    else (if Grounded(artifact, quotes[0]) then [] else [quotes[0]]) + Ungrounded(quotes[1..], artifact)
  }

  lemma {:induction false} UngroundedSnoc(quotes: seq<string>, q: string, artifact: string)
    ensures Ungrounded(quotes + [q], artifact)
         == Ungrounded(quotes, artifact) + (if Grounded(artifact, q) then [] else [q])
  {
    hide Grounded;
    if quotes == [] {
      assert quotes + [q] == [q] && [q][1..] == [];
    } else {
      assert (quotes + [q])[1..] == quotes[1..] + [q];
      UngroundedSnoc(quotes[1..], q, artifact);
    }
  }

  /** Nothing is reported exactly when every quote is grounded. */
  lemma {:induction false} UngroundedEmpty(quotes: seq<string>, artifact: string)
    ensures Ungrounded(quotes, artifact) == [] <==> forall q :: q in quotes ==> Grounded(artifact, q)
  {
    if quotes == [] {
    } else {
      UngroundedEmpty(quotes[1..], artifact);
      assert quotes == [quotes[0]] + quotes[1..];
    }
  }

  /** `_find_fabricated_quotes`. */
  method FindFabricatedQuotes(quotes: seq<string>, artifact: string) returns (fabricated: seq<string>)
    ensures fabricated == Ungrounded(quotes, artifact)
  {
    var normalisedArtifact := Normalise(artifact);
    fabricated := [];
    for i := 0 to |quotes|
      invariant fabricated == Ungrounded(quotes[..i], artifact)
    {
      var quote := quotes[i];
      UngroundedSnoc(quotes[..i], quote, artifact);
      assert quotes[..i + 1] == quotes[..i] + [quote];
      if Strip(quote) == "" {
        fabricated := fabricated + [quote];
      } else if Find(normalisedArtifact, Normalise(quote)).None? {
        fabricated := fabricated + [quote];
      }
    }
    assert quotes[..|quotes|] == quotes;
  }

  // ---- line and column ----

  datatype Pos = Pos(line: nat, column: nat)

  /** `text.count("\n", 0, offset)`. */
  function NewlinesBefore(text: string, offset: nat): nat
    requires offset <= |text|
  {
    if offset == 0 then 0
    else NewlinesBefore(text, offset - 1) + if text[offset - 1] == '\n' then 1 else 0
  }

  /** `text.rfind("\n", 0, offset) + 1`. */
  function LineStart(text: string, offset: nat): (r: nat)
    requires offset <= |text|
    ensures r <= offset && (r == 0 || text[r - 1] == '\n')
    ensures forall k :: r <= k < offset ==> text[k] != '\n'
  {
    if offset == 0 then 0
    else if text[offset - 1] == '\n' then offset
    else LineStart(text, offset - 1)
  }

  /** `_line_col_from_offset`, with its clamping. */
  function LineCol(text: string, offset: int): Pos {
    var o := if offset < 0 then 0 else if offset > |text| then |text| else offset;
    Pos(NewlinesBefore(text, o) + 1, o - LineStart(text, o) + 1)
  }

  function NextNewline(text: string, i: nat): (r: nat)
    requires i <= |text|
    ensures i <= r <= |text| && (r < |text| ==> text[r] == '\n')
    ensures forall k :: i <= k < r ==> text[k] != '\n'
    decreases |text| - i
  {
    if i == |text| || text[i] == '\n' then i else NextNewline(text, i + 1)
  }

  /** Where the n-th line (from 1) starts; the end of the text when there is no such line. */
  function StartOfLine(text: string, n: nat): (r: nat)
    ensures r <= |text|
  {
    if n <= 1 then 0
    else
      var e := NextNewline(text, StartOfLine(text, n - 1));
      if e < |text| then e + 1 else e
  }

  /** What `_line_col_from_offset` promises of an offset in range: the line is one more than the
      newlines in front of it, the column one more than the characters since the last of them. */
  ghost predicate IsPosition(text: string, p: Pos, offset: int) {
    && 0 <= offset <= |text|
    && p.line == multiset(text[..offset])['\n'] + 1
    && 1 <= p.column <= offset + 1
    && (p.column == offset + 1 || text[offset - p.column] == '\n')
    && forall k :: offset - p.column < k < offset ==> text[k] != '\n'
  }

  lemma {:induction false} NewlinesCounted(text: string, offset: nat)
    requires offset <= |text|
    ensures NewlinesBefore(text, offset) == multiset(text[..offset])['\n']
  {
    if offset == 0 {
    } else {
      NewlinesCounted(text, offset - 1);
      assert text[..offset] == text[..offset - 1] + [text[offset - 1]];
    }
  }

  /** LineCol gives the one position an offset has. */
  lemma LineColExact(text: string, offset: nat, p: Pos)
    requires offset <= |text|
    ensures IsPosition(text, p, offset) <==> p == LineCol(text, offset)
  {
    NewlinesCounted(text, offset);
  }

  /** The inverse of LineCol. */
  function OffsetOf(text: string, p: Pos): int { StartOfLine(text, p.line) + p.column - 1 }

  lemma {:induction false} LineStartIsStartOfLine(text: string, offset: nat)
    requires offset <= |text|
    ensures LineStart(text, offset) == StartOfLine(text, NewlinesBefore(text, offset) + 1)
  {
    hide *;
    if offset == 0 {
      TextStart(text);
    } else {
      LineStartIsStartOfLine(text, offset - 1);
      StartStep(text, offset - 1);
    }
  }

  lemma TextStart(text: string)
    ensures LineStart(text, 0) == 0 && NewlinesBefore(text, 0) == 0 && StartOfLine(text, 1) == 0
  {}

  lemma StartStep(text: string, o: nat)
    requires o < |text| && LineStart(text, o) == StartOfLine(text, NewlinesBefore(text, o) + 1)
    ensures LineStart(text, o + 1) == StartOfLine(text, NewlinesBefore(text, o + 1) + 1)
  {
    LineStep(text, o);
    hide *;
    if text[o] == '\n' { NextLineStart(text, NewlinesBefore(text, o) + 1, o); }
  }

  lemma LineStep(text: string, o: nat)
    requires o < |text|
    ensures NewlinesBefore(text, o + 1) == NewlinesBefore(text, o) + if text[o] == '\n' then 1 else 0
    ensures LineStart(text, o + 1) == if text[o] == '\n' then o + 1 else LineStart(text, o)
  {}

  lemma FirstNewline(text: string, i: nat, at: nat)
    requires i <= at < |text| && text[at] == '\n' && forall k :: i <= k < at ==> text[k] != '\n'
    ensures NextNewline(text, i) == at
  {}

  lemma NextLineStart(text: string, n: nat, at: nat)
    requires n >= 1 && at < |text| && text[at] == '\n' && LineStart(text, at) == StartOfLine(text, n)
    ensures StartOfLine(text, n + 1) == at + 1
  {
    hide NextNewline;
    FirstNewline(text, LineStart(text, at), at);
  }

  lemma LineColInverse(text: string, offset: nat)
    requires offset <= |text|
    ensures OffsetOf(text, LineCol(text, offset)) == offset
  {
    LineStartIsStartOfLine(text, offset);
  }

  lemma {:induction false} NewlinesBeforeMonotone(text: string, a: nat, b: nat)
    requires a <= b <= |text|
    ensures NewlinesBefore(text, a) <= NewlinesBefore(text, b)
    decreases b
  {
    if a < b { NewlinesBeforeMonotone(text, a, b - 1); }
  }

  /** Offsets and positions are ordered alike, so distinct offsets have distinct positions. */
  lemma LineColMonotone(text: string, a: nat, b: nat)
    requires a < b <= |text|
    ensures var p, q := LineCol(text, a), LineCol(text, b);
            p.line < q.line || (p.line == q.line && p.column < q.column)
  {
    NewlinesBeforeMonotone(text, a, b);
    LineColInverse(text, a);
    LineColInverse(text, b);
  }

  // ---- the collapsed tier's index map ----

  /** The indices the character loop keeps: every non-whitespace character and the
      first character of every whitespace run. */
  function KeptMap(s: string): seq<nat> {
    if s == "" then []
    else
      var n := |s| - 1;
      if IsSpace(s[n]) && n > 0 && IsSpace(s[n - 1]) then KeptMap(s[..n]) else KeptMap(s[..n]) + [n]
  }

  lemma CollapseSnoc(s: string, c: char)
    ensures Collapse(s + [c])
         == if IsSpace(c) && s != "" && IsSpace(s[|s| - 1]) then Collapse(s)
            else Collapse(s) + [if IsSpace(c) then ' ' else c]
  {
    assert [c][1..] == "";
    if IsSpace(c) && s != "" && IsSpace(s[|s| - 1]) {
      CollapseSnocSpace(s, c);
    } else {
      CollapseConcat(s, [c]);
    }
  }

  /** m leads from the characters c, one entry each, to strictly increasing indices of s, and
      entry k is the one in front of which exactly k characters are kept. */
  ghost predicate Maps(m: seq<nat>, c: string, s: string) {
    && |m| == |c|
    && (forall k :: 0 <= k < |m| ==> m[k] < |s|)
    && (forall j, k :: 0 <= j < k < |m| ==> m[j] < m[k])
    && (forall k :: 0 <= k < |m| ==> |Collapse(s[..m[k]])| == k)
    && (forall k :: 0 <= k < |m| ==> c[k] == if IsSpace(s[m[k]]) then ' ' else s[m[k]])
  }

  lemma MapGrows(m: seq<nat>, c: string, s: string, x: char)
    requires Maps(m, c, s)
    ensures Maps(m, c, s + [x])
  {
    hide IsSpace, Collapse;
    forall k | 0 <= k < |m| ensures (s + [x])[..m[k]] == s[..m[k]] {}
  }

  lemma MapAppends(m: seq<nat>, c: string, s: string, x: char)
    requires Maps(m, c, s + [x]) && |Collapse(s)| == |m| && forall k :: 0 <= k < |m| ==> m[k] < |s|
    ensures Maps(m + [|s|], c + [if IsSpace(x) then ' ' else x], s + [x])
  {
    hide IsSpace, Collapse;
    assert (s + [x])[..|s|] == s;
  }

  lemma MapIndices(m: seq<nat>, c: string, s: string)
    requires Maps(m, c, s)
    ensures |m| == |c| && forall k :: 0 <= k < |m| ==> m[k] < |s|
  {}

  lemma {:induction false} KeptMaps(s: string)
    ensures Maps(KeptMap(s), Collapse(s), s)
  {
    if s == "" {
    } else {
      var n := |s| - 1;
      var t, x := s[..n], s[n];
      assert s == t + [x];
      CollapseSnoc(t, x);
      KeptMapSnoc(t, x);
      hide *;
      KeptMaps(t);
      MapIndices(KeptMap(t), Collapse(t), t);
      MapGrows(KeptMap(t), Collapse(t), t, x);
      MapAppends(KeptMap(t), Collapse(t), t, x);
    }
  }

  /** The map is strictly increasing, one entry per collapsed character, and entry k is
      the original index in front of which exactly k characters are kept. */
  lemma KeptMapAt(s: string)
    ensures |KeptMap(s)| == |Collapse(s)|
    ensures forall k :: 0 <= k < |KeptMap(s)| ==> KeptMap(s)[k] < |s|
    ensures forall j, k :: 0 <= j < k < |KeptMap(s)| ==> KeptMap(s)[j] < KeptMap(s)[k]
    ensures forall k :: 0 <= k < |KeptMap(s)| ==> |Collapse(s[..KeptMap(s)[k]])| == k
    ensures forall k :: 0 <= k < |KeptMap(s)| ==>
              Collapse(s)[k] == if IsSpace(s[KeptMap(s)[k]]) then ' ' else s[KeptMap(s)[k]]
  {
    hide IsSpace, Collapse, KeptMap;
    KeptMaps(s);
  }

  lemma KeptMapKeepsSpace(s: string, k: nat)
    requires k < |Collapse(s)|
    ensures k < |KeptMap(s)| && KeptMap(s)[k] < |s|
    ensures IsSpace(Collapse(s)[k]) <==> IsSpace(s[KeptMap(s)[k]])
  {
    assert IsSpace(' ');
    hide IsSpace, Collapse;
    KeptMapAt(s);
  }

  lemma KeptMapSnoc(s: string, c: char)
    ensures KeptMap(s + [c])
         == if IsSpace(c) && s != "" && IsSpace(s[|s| - 1]) then KeptMap(s) else KeptMap(s) + [|s|]
  {
    assert (s + [c])[..|s|] == s;
  }

  lemma {:induction false} KeptMapOf(s: string, p: nat)
    requires p < |s| && !IsSpace(s[p])
    ensures |Collapse(s[..p])| < |KeptMap(s)| && KeptMap(s)[|Collapse(s[..p])|] == p
    decreases |s|
  {
    var n := |s| - 1;
    var t := s[..n];
    KeptMapAt(t);
    if p < n {
      KeptMapOf(t, p);
      assert t[..p] == s[..p];
    }
  }

  lemma NothingCollapsed()
    ensures Collapse("") == "" && KeptMap("") == []
  {}

  /** The collapsing loop of the third tier. */
  method CollapseWithMap(folded: string) returns (chars: string, origins: seq<nat>)
    ensures chars == Collapse(folded) && origins == KeptMap(folded)
  {
    NothingCollapsed();
    hide Collapse, KeptMap, IsSpace;
    chars, origins := "", [];
    var inRun := false;
    for i := 0 to |folded|
      invariant chars == Collapse(folded[..i]) && origins == KeptMap(folded[..i])
      invariant inRun <==> i > 0 && IsSpace(folded[i - 1])
    {
      var ch := folded[i];
      CollapseSnoc(folded[..i], ch);
      KeptMapSnoc(folded[..i], ch);
      assert folded[..i + 1] == folded[..i] + [ch];
      if IsSpace(ch) {
        if !inRun {
          inRun := true;
          chars, origins := chars + " ", origins + [i];
        }
      } else {
        inRun := false;
        chars, origins := chars + [ch], origins + [i];
      }
    }
    assert folded[..|folded|] == folded;
  }

  // ---- the resolver ----

  datatype Tag = Exact | SmartQuotes | Whitespace

  datatype QuoteSpan = QuoteSpan(quote: string, artifactIndex: nat, start: nat, end: nat,
                                 startPos: Pos, endPos: Pos, tag: Tag)

  /** Where a quote is found, before line and column are attached. */
  datatype Hit = Hit(start: nat, end: nat, tag: Tag)

  /** The whitespace-collapsed tier: the quote's place among the collapsed characters,
      read back through the index map. */
  function LocateCollapsed(artifact: string, quote: string): Option<Hit> {
    var cq := Normalise(quote);
    if cq == "" then None
    else
      var hit := Find(Collapse(Fold(artifact)), cq);
      if hit.None? then None
      else
        KeptMapAt(Fold(artifact));
        var origins := KeptMap(Fold(artifact));
        Some(Hit(origins[hit.value], origins[hit.value + |cq| - 1] + 1, Whitespace))
  }

  function Locate(artifact: string, quote: string): Option<Hit> {
    if quote == "" then None
    else
      var exact := Find(artifact, quote);
      if exact.Some? then Some(Hit(exact.value, exact.value + |quote|, Exact))
      else
        var folded := Find(Fold(artifact), Fold(quote));
        if folded.Some? then Some(Hit(folded.value, folded.value + |quote|, SmartQuotes))
        else LocateCollapsed(artifact, quote)
  }

  /** The window of an artifact that starts and ends at the given offsets reads as the quote
      under the tag's normalisation. */
  ghost predicate IsWindow(artifact: string, quote: string, tag: Tag, start: int, end: int) {
    && 0 <= start < end <= |artifact|
    && var window := artifact[start..end];
       match tag
       case Exact => window == quote
       case SmartQuotes => Fold(window) == Fold(quote)
       case Whitespace => Normalise(window) == Normalise(quote) && !IsSpace(window[0]) && !IsSpace(window[|window| - 1])
  }

  /** No normalisation below the tag's finds the quote. */
  ghost predicate IsWeakest(artifact: string, quote: string, tag: Tag) {
    && (tag != Exact ==> !Contains(artifact, quote))
    && (tag == Whitespace ==> !Contains(Fold(artifact), Fold(quote)))
  }

  /** What a resolved span promises, said of the artifact and the quote alone: the leftmost window
      that reads as the quote under the weakest normalisation, at its true positions. */
  ghost predicate IsSpanOf(artifact: string, quote: string, span: QuoteSpan) {
    && span.quote == quote && span.artifactIndex == 0
    && IsWindow(artifact, quote, span.tag, span.start, span.end)
    && IsWeakest(artifact, quote, span.tag)
    && (forall start, end :: IsWindow(artifact, quote, span.tag, start, end) ==> span.start <= start)
    && IsPosition(artifact, span.startPos, span.start)
    && IsPosition(artifact, span.endPos, span.end)
  }

  function MakeSpan(artifact: string, quote: string, hit: Hit): QuoteSpan {
    QuoteSpan(quote, 0, hit.start, hit.end, LineCol(artifact, hit.start), LineCol(artifact, hit.end), hit.tag)
  }

  /** One past the last matched character, skipping the run when that character is
      whitespace. */
  method SpanEnd(folded: string, last: nat) returns (end: nat)
    requires last < |folded|
    ensures last < end <= |folded|
    ensures !IsSpace(folded[last]) ==> end == last + 1
    ensures IsSpace(folded[last]) ==> forall k :: last <= k < end ==> IsSpace(folded[k])
    ensures IsSpace(folded[last]) && end < |folded| ==> !IsSpace(folded[end])
  {
    end := last + 1;
    if IsSpace(folded[last]) {
      while end < |folded| && IsSpace(folded[end])
        invariant last < end <= |folded| && forall k :: last <= k < end ==> IsSpace(folded[k])
      {
        end := end + 1;
      }
    }
  }

  /** The third tier of `_resolve_quote_span_in`. That the result is LocateCollapsed's
      shows its whitespace-end branch is never taken. */
  method LocateCollapsedIn(artifact: string, quote: string) returns (hit: Option<Hit>)
    ensures hit == LocateCollapsed(artifact, quote)
  {
    hide IsSpace, Collapse, KeptMap, Normalise, FoldChar, IsAt;
    var foldedArtifact := Fold(artifact);
    var collapsed, origins := CollapseWithMap(foldedArtifact);
    var collapsedQuote := Normalise(quote);
    if collapsedQuote == "" { return None; }
    var cidx := Find(collapsed, collapsedQuote);
    if cidx.None? { return None; }
    var cend := cidx.value + |collapsedQuote|;
    CollapsedHit(artifact, quote, cidx.value);
    var end := |artifact|;
    if cend - 1 < |origins| {
      end := SpanEnd(foldedArtifact, origins[cend - 1]);
    }
    hit := Some(Hit(origins[cidx.value], end, Whitespace));
  }

  /** When folding changes nothing, the folded tier finds nothing new. */
  lemma LocateFolded(artifact: string, quote: string)
    ensures Fold(artifact) == artifact && Fold(quote) == quote ==>
              Find(Fold(artifact), Fold(quote)) == Find(artifact, quote)
  {}

  /** `_resolve_quote_span_in`. */
  method ResolveQuoteSpanIn(artifact: string, quote: string) returns (span: Option<QuoteSpan>)
    ensures span.Some? <==> Locate(artifact, quote).Some?
    ensures span.Some? ==> IsSpanOf(artifact, quote, span.value)
    ensures span.None? ==> forall s :: !IsSpanOf(artifact, quote, s)
  {
    LocateFolded(artifact, quote);
    LocatedSpan(artifact, quote);
    hide IsSpanOf;
    hide Normalise, LineCol, FoldChar, LocateCollapsed, IsAt, MakeSpan;
    if quote == "" { return None; }
    var idx := Find(artifact, quote);
    if idx.Some? {
      return Some(MakeSpan(artifact, quote, Hit(idx.value, idx.value + |quote|, Exact)));
    }
    var foldedArtifact, foldedQuote := Fold(artifact), Fold(quote);
    if foldedArtifact != artifact || foldedQuote != quote {
      idx := Find(foldedArtifact, foldedQuote);
      if idx.Some? {
        return Some(MakeSpan(artifact, quote, Hit(idx.value, idx.value + |foldedQuote|, SmartQuotes)));
      }
    }
    var hit := LocateCollapsedIn(artifact, quote);
    span := if hit.None? then None else Some(MakeSpan(artifact, quote, hit.value));
  }

  /** Between two non-whitespace characters, collapsing a slice is slicing what is
      collapsed. */
  lemma CollapsedSlice(f: string, x: nat, last: nat)
    requires x <= last < |f| && !IsSpace(f[x]) && !IsSpace(f[last])
    ensures var c, d := |Collapse(f[..x])|, |Collapse(f[..last])|;
            c <= d < |Collapse(f)| && Collapse(f[x..last + 1]) == Collapse(f)[c..d + 1]
  {
    hide IsSpace, Collapse;
    CollapseMiddle(f, x, last + 1);
    assert f[..last + 1] == f[..x] + f[x..last + 1];
    assert CleanCut(f[..x], f[x..last + 1]);
    CollapseConcat(f[..x], f[x..last + 1]);
    assert f[..last + 1] == f[..last] + [f[last]];
    CollapseSnoc(f[..last], f[last]);
    assert f[x..last + 1] == f[x..last] + [f[last]];
    CollapseSnoc(f[x..last], f[last]);
  }

  /** A trimmed slice normalises to its collapsed folding. */
  lemma NormaliseTrimmedSlice(a: string, x: nat, y: nat)
    requires x < y <= |a| && !IsSpace(a[x]) && !IsSpace(a[y - 1])
    ensures Normalise(a[x..y]) == Collapse(Fold(a)[x..y])
  {
    var w := a[x..y];
    assert w[0] == a[x] && w[|w| - 1] == a[y - 1];
    NormalisePadded("", w, "");
    assert "" + w + "" == w;
    FoldSlice(a, x, y);
  }

  /** A hit among the collapsed characters starts and ends on non-whitespace of the
      original, and the slice between normalises to the quote. */
  lemma CollapsedHit(artifact: string, quote: string, c: nat)
    requires Normalise(quote) != "" && IsAt(Collapse(Fold(artifact)), Normalise(quote), c)
    ensures c + |Normalise(quote)| <= |KeptMap(Fold(artifact))|
    ensures var x := KeptMap(Fold(artifact))[c];
            var last := KeptMap(Fold(artifact))[c + |Normalise(quote)| - 1];
            && x <= last < |artifact|
            && !IsSpace(artifact[x]) && !IsSpace(artifact[last])
            && Normalise(artifact[x..last + 1]) == Normalise(quote)
  {
    hide IsSpace, Normalise, KeptMap, Collapse;
    var f, cq := Fold(artifact), Normalise(quote);
    var C, m, d := Collapse(f), KeptMap(f), c + |cq| - 1;
    KeptMapAt(f);
    NormaliseTrimmed(quote);
    KeptMapKeepsSpace(f, c);
    KeptMapKeepsSpace(f, d);
    assert cq[0] == C[c] && cq[|cq| - 1] == C[d];
    CollapsedSlice(f, m[c], m[d]);
    NormaliseTrimmedSlice(artifact, m[c], m[d] + 1);
  }

  /** The collapsed tier's span, from CollapsedHit. */
  lemma CollapsedNormalises(artifact: string, quote: string)
    requires LocateCollapsed(artifact, quote).Some?
    ensures var s := LocateCollapsed(artifact, quote).value;
            CutsOut(artifact, quote, s)
  {
    hide IsSpace, Normalise, KeptMap, Collapse;
    CollapsedHit(artifact, quote, Find(Collapse(Fold(artifact)), Normalise(quote)).value);
  }

  lemma NormaliseTrimmed(s: string)
    ensures Trimmed(Normalise(s))
  {
    var i, j := StripSplit(Collapse(Fold(s)));
  }

  /** The promise above the resolver: a non-blank quote resolves exactly when the
      fabrication check accepts it. */
  lemma ResolvesIffGrounded(artifact: string, quote: string)
    requires Strip(quote) != ""
    ensures Locate(artifact, quote).Some? <==> Grounded(artifact, quote)
  {
    NormaliseEmptyIffBlank(quote);
    assert quote != "" by { if quote == "" { StripAllSpace(quote); } }
    if Locate(artifact, quote).None? { NormaliseInCollapsed(artifact); }
    hide Collapse, KeptMap, Fold, FoldChar, IsSpace, Strip;
    if Locate(artifact, quote).Some? {
      HitNormalises(artifact, quote);
      var s := Locate(artifact, quote).value;
      NormaliseSlice(artifact, s.start, s.end);
    } else if Grounded(artifact, quote) {
      ContainsTransitive(Collapse(Fold(artifact)), Normalise(artifact), Normalise(quote));
      assert false;
    }
  }

  lemma NormaliseInCollapsed(artifact: string)
    ensures Contains(Collapse(Fold(artifact)), Normalise(artifact))
  {
    hide Collapse, Fold, IsSpace;
    var C := Collapse(Fold(artifact));
    var i, j := StripSplit(C);
    assert C == C[..i] + C[i..j] + C[j..];
    ContainsPart(C[..i], C[i..j], C[j..]);
  }

  lemma FoldedNormalises(artifact: string, quote: string, i: nat)
    requires IsAt(Fold(artifact), Fold(quote), i)
    ensures Normalise(artifact[i..i + |quote|]) == Normalise(quote)
  {
    FoldSlice(artifact, i, i + |quote|);
  }

  /** How each tier's hit relates to the artifact. */
  lemma LocateByTier(artifact: string, quote: string)
    requires Locate(artifact, quote).Some?
    ensures var h := Locate(artifact, quote).value;
            match h.tag
            case Exact => IsAt(artifact, quote, h.start) && h.end == h.start + |quote| && quote != ""
            case SmartQuotes => IsAt(Fold(artifact), Fold(quote), h.start) && h.end == h.start + |quote| && quote != ""
            case Whitespace => Locate(artifact, quote) == LocateCollapsed(artifact, quote)
  {}

  ghost predicate CutsOut(artifact: string, quote: string, h: Hit) {
    h.start < h.end <= |artifact| && Normalise(artifact[h.start..h.end]) == Normalise(quote)
  }

  lemma HitNormalises(artifact: string, quote: string)
    requires Locate(artifact, quote).Some?
    ensures CutsOut(artifact, quote, Locate(artifact, quote).value)
  {
    hide IsSpace;
    LocateByTier(artifact, quote);
    var s := Locate(artifact, quote).value;
    match s.tag {
      case Exact => assert artifact[s.start..s.end] == quote;
      case SmartQuotes => FoldedNormalises(artifact, quote, s.start);
      case Whitespace => CollapsedNormalises(artifact, quote);
    }
  }

  lemma HitIsWindow(artifact: string, quote: string)
    requires Locate(artifact, quote).Some?
    ensures var h := Locate(artifact, quote).value;
            IsWindow(artifact, quote, h.tag, h.start, h.end) && IsWeakest(artifact, quote, h.tag)
  {
    hide IsSpace, Normalise, KeptMap, Collapse, FoldChar;
    HitNormalises(artifact, quote);
    var h := Locate(artifact, quote).value;
    match h.tag {
      case Exact =>
      case SmartQuotes => FoldSlice(artifact, h.start, h.end);
      case Whitespace => CollapsedHit(artifact, quote, Find(Collapse(Fold(artifact)), Normalise(quote)).value);
    }
  }

  /** A collapsed window puts the quote among the collapsed characters. */
  lemma CollapsedWindow(artifact: string, quote: string, start: nat, end: nat)
    requires start < end <= |artifact| && !IsSpace(artifact[start])
    requires Normalise(artifact[start..end]) == Normalise(quote) != ""
    ensures IsAt(Collapse(Fold(artifact)), Normalise(quote), |Collapse(Fold(artifact)[..start])|)
  {
    var f := Fold(artifact);
    var x, y := SliceCore(artifact, start, end);
    assert x == start;
    FoldSlice(artifact, x, y);
    CollapseMiddle(f, x, y);
  }

  /** Any window that reads as the quote is found, and not to the right of it, by its own tier. */
  lemma WindowIsFound(artifact: string, quote: string, tag: Tag, start: nat, end: nat)
    requires IsWindow(artifact, quote, tag, start, end)
    ensures Locate(artifact, quote).Some?
    ensures Locate(artifact, quote).value.tag == tag ==> Locate(artifact, quote).value.start <= start
  {
    var window := artifact[start..end];
    match tag {
      case Exact => assert IsAt(artifact, quote, start);
      case SmartQuotes =>
        FoldSlice(artifact, start, end);
        assert IsAt(Fold(artifact), Fold(quote), start);
      case Whitespace =>
        CoreNotBlank(window);
        CollapsedLeftmost(artifact, quote, start, end);
    }
  }

  lemma CoreNotBlank(window: string)
    requires window != "" && !IsSpace(window[0])
    ensures Normalise(window) != ""
  {
    NormaliseEmptyIffBlank(window);
  }

  lemma CollapsedLeftmost(artifact: string, quote: string, start: nat, end: nat)
    requires start < end <= |artifact| && !IsSpace(artifact[start])
    requires Normalise(artifact[start..end]) == Normalise(quote) != ""
    ensures LocateCollapsed(artifact, quote).Some? && LocateCollapsed(artifact, quote).value.start <= start
  {
    hide IsSpace, Normalise, KeptMap, Collapse;
    CollapsedWindow(artifact, quote, start, end);
    KeptMapAt(Fold(artifact));
    KeptMapOf(Fold(artifact), start);
  }

  /** The located hit with its positions is a span of the quote; without a hit there is none. */
  lemma LocatedSpan(artifact: string, quote: string)
    ensures var h := Locate(artifact, quote);
            if h.Some? then IsSpanOf(artifact, quote, MakeSpan(artifact, quote, h.value))
            else forall s :: !IsSpanOf(artifact, quote, s)
  {
    hide IsWindow, IsWeakest, Locate, IsPosition, LineCol;
    forall tag: Tag, start, end | IsWindow(artifact, quote, tag, start, end)
      ensures Locate(artifact, quote).Some?
      ensures Locate(artifact, quote).value.tag == tag ==> Locate(artifact, quote).value.start <= start
    {
      WindowInRange(artifact, quote, tag, start, end);
      WindowIsFound(artifact, quote, tag, start, end);
    }
    if Locate(artifact, quote).Some? {
      var h := Locate(artifact, quote).value;
      HitIsWindow(artifact, quote);
      WindowInRange(artifact, quote, h.tag, h.start, h.end);
      LineColExact(artifact, h.start, LineCol(artifact, h.start));
      LineColExact(artifact, h.end, LineCol(artifact, h.end));
    }
  }

  lemma WindowInRange(artifact: string, quote: string, tag: Tag, start: int, end: int)
    requires IsWindow(artifact, quote, tag, start, end)
    ensures 0 <= start < end <= |artifact|
  {}

  /** A quote has at most one span. */
  lemma SpanUnique(artifact: string, quote: string, s: QuoteSpan, t: QuoteSpan)
    requires IsSpanOf(artifact, quote, s) && IsSpanOf(artifact, quote, t)
    ensures s == t
  {
    SpanTag(artifact, quote, s);
    SpanTag(artifact, quote, t);
    SamePlace(artifact, quote, s, t);
  }

  lemma SamePlace(artifact: string, quote: string, s: QuoteSpan, t: QuoteSpan)
    requires IsSpanOf(artifact, quote, s) && IsSpanOf(artifact, quote, t) && s.tag == t.tag
    ensures s == t
  {
    hide IsWindow, IsWeakest, IsPosition, LineCol;
    WindowInRange(artifact, quote, s.tag, s.start, s.end);
    WindowInRange(artifact, quote, s.tag, t.start, t.end);
    WindowEnds(artifact, quote, s.tag, s.start, s.end, t.end);
    LineColExact(artifact, s.start, s.startPos);
    LineColExact(artifact, t.start, t.startPos);
    LineColExact(artifact, s.end, s.endPos);
    LineColExact(artifact, t.end, t.endPos);
  }

  /** A window's start determines its end. */
  lemma WindowEnds(artifact: string, quote: string, tag: Tag, start: nat, e1: nat, e2: nat)
    requires IsWindow(artifact, quote, tag, start, e1) && IsWindow(artifact, quote, tag, start, e2)
    ensures e1 == e2
  {
    if tag == Whitespace { CollapsedEnd(artifact, start, e1, e2); }
  }

  lemma CollapsedEnd(artifact: string, start: nat, e1: nat, e2: nat)
    requires start < e1 <= |artifact| && start < e2 <= |artifact|
    requires !IsSpace(artifact[start]) && !IsSpace(artifact[e1 - 1]) && !IsSpace(artifact[e2 - 1])
    requires Normalise(artifact[start..e1]) == Normalise(artifact[start..e2])
    ensures e1 == e2
  {
    hide IsSpace, Collapse, Normalise, KeptMap;
    var f := Fold(artifact);
    NormaliseTrimmedSlice(artifact, start, e1);
    NormaliseTrimmedSlice(artifact, start, e2);
    CollapsedSlice(f, start, e1 - 1);
    CollapsedSlice(f, start, e2 - 1);
    KeptMapOf(f, e1 - 1);
    KeptMapOf(f, e2 - 1);
  }

  /** The tag names the weakest normalisation that finds the quote. */
  lemma SpanTag(artifact: string, quote: string, span: QuoteSpan)
    requires IsSpanOf(artifact, quote, span)
    ensures span.tag == Exact <==> Contains(artifact, quote)
    ensures span.tag == SmartQuotes <==> !Contains(artifact, quote) && Contains(Fold(artifact), Fold(quote))
    ensures span.tag == Whitespace ==> Contains(Normalise(artifact), Normalise(quote))
  {
    match span.tag {
      case Exact => assert IsAt(artifact, quote, span.start);
      case SmartQuotes =>
        FoldSlice(artifact, span.start, span.end);
        assert IsAt(Fold(artifact), Fold(quote), span.start);
      case Whitespace => NormaliseSlice(artifact, span.start, span.end);
    }
  }

  /** Every span cuts out of the original text something that normalises to the quote, and its
      positions lead back to its offsets. */
  lemma SpanNormalises(artifact: string, quote: string, span: QuoteSpan)
    requires IsSpanOf(artifact, quote, span)
    ensures span.start < span.end <= |artifact|
    ensures Normalise(artifact[span.start..span.end]) == Normalise(quote)
    ensures OffsetOf(artifact, span.startPos) == span.start && OffsetOf(artifact, span.endPos) == span.end
  {
    LineColExact(artifact, span.start, span.startPos);
    LineColExact(artifact, span.end, span.endPos);
    LineColInverse(artifact, span.start);
    LineColInverse(artifact, span.end);
  }

  /** Measured in original offsets nothing to the left of a span would do: in the collapsed tier
      no window starting on non-whitespace further left normalises to the quote. */
  lemma SpanIsLeftmost(artifact: string, quote: string, span: QuoteSpan, start: nat, end: nat)
    requires IsSpanOf(artifact, quote, span)
    requires start < end <= |artifact|
    requires var window := artifact[start..end];
             match span.tag
             case Exact => window == quote
             case SmartQuotes => Fold(window) == Fold(quote)
             case Whitespace => !IsSpace(window[0]) && Normalise(window) == Normalise(quote)
    ensures span.start <= start
  {
    if span.tag == Whitespace {
      hide IsSpanOf;
      CoreNotBlank(artifact[start..end]);
      CollapsedLeftmost(artifact, quote, start, end);
      LocatedSpan(artifact, quote);
      SpanUnique(artifact, quote, span, MakeSpan(artifact, quote, Locate(artifact, quote).value));
    } else {
      assert IsWindow(artifact, quote, span.tag, start, end);
    }
  }

  ghost predicate HasSpan(artifact: string, quote: string) { exists s :: IsSpanOf(artifact, quote, s) }

  /** The quotes that have a span, in order. */
  ghost function Resolvable(quotes: seq<string>, artifact: string): seq<string> {
    if quotes == [] then []
    else (if HasSpan(artifact, quotes[0]) then [quotes[0]] else []) + Resolvable(quotes[1..], artifact)
  }

  lemma {:induction false} ResolvableSnoc(quotes: seq<string>, q: string, artifact: string)
    ensures Resolvable(quotes + [q], artifact)
         == Resolvable(quotes, artifact) + (if HasSpan(artifact, q) then [q] else [])
  {
    hide HasSpan;
    if quotes == [] {
      assert quotes + [q] == [q];
      assert Resolvable([q][1..], artifact) == [];
    } else {
      assert (quotes + [q])[1..] == quotes[1..] + [q];
      ResolvableSnoc(quotes[1..], q, artifact);
    }
  }

  /** Nothing is skipped among grounded quotes. */
  lemma {:induction false} GroundedResolvable(quotes: seq<string>, artifact: string)
    requires forall q :: q in quotes ==> Grounded(artifact, q)
    ensures Resolvable(quotes, artifact) == quotes
  {
    hide Locate, IsSpanOf, Normalise;
    if quotes == [] {
    } else {
      assert Grounded(artifact, quotes[0]);
      ResolvesIffGrounded(artifact, quotes[0]);
      LocatedSpan(artifact, quotes[0]);
      GroundedResolvable(quotes[1..], artifact);
    }
  }

  /** `_resolve_quote_spans`: in order, the span of every quote that has one, which for grounded
      quotes are all. */
  method ResolveQuoteSpans(quotes: seq<string>, artifact: string) returns (spans: seq<QuoteSpan>)
    ensures |spans| == |Resolvable(quotes, artifact)|
    ensures forall i :: 0 <= i < |spans| ==> IsSpanOf(artifact, Resolvable(quotes, artifact)[i], spans[i])
    ensures (forall q :: q in quotes ==> Grounded(artifact, q)) ==>
              |spans| == |quotes| && forall i :: 0 <= i < |spans| ==> IsSpanOf(artifact, quotes[i], spans[i])
  {
    hide Locate, Normalise, IsSpanOf;
    spans := [];
    for i := 0 to |quotes|
      invariant |spans| == |Resolvable(quotes[..i], artifact)|
      invariant forall k :: 0 <= k < |spans| ==> IsSpanOf(artifact, Resolvable(quotes[..i], artifact)[k], spans[k])
    {
      var span := ResolveQuoteSpanIn(artifact, quotes[i]);
      ResolvableSnoc(quotes[..i], quotes[i], artifact);
      assert quotes[..i + 1] == quotes[..i] + [quotes[i]];
      if span.Some? { spans := spans + [span.value]; }
    }
    assert quotes[..|quotes|] == quotes;
    if forall q :: q in quotes ==> Grounded(artifact, q) { GroundedResolvable(quotes, artifact); }
  }
}
