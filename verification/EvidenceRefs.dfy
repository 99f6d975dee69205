/** Line-range evidence: validating `supporting_evidence_refs` and rebuilding quotes and
    spans from them. */
module EvidenceRefs {
  import opened Wrappers
  import opened Json
  import opened Text
  import opened LineText
  import opened Grounding

  // ---- whitespace runs may be swapped ----

  lemma {:induction false} CollapseRun(b: string, w: string)
    requires b != "" && AllSpace(b)
    ensures Collapse(b + w) == if w != "" && IsSpace(w[0]) then Collapse(w) else " " + Collapse(w)
  {
    hide IsSpace;
    assert (b + w)[1..] == b[1..] + w;
    if |b| > 1 {
      CollapseRun(b[1..], w);
    } else {
      assert b[1..] + w == w;
    }
  }

  lemma {:induction false} CollapseSwap(u: string, b: string, b': string, w: string)
    requires b != "" && AllSpace(b) && b' != "" && AllSpace(b')
    ensures Collapse(u + b + w) == Collapse(u + b' + w)
  {
    hide IsSpace;
    if u == "" {
      CollapseRun(b, w);
      CollapseRun(b', w);
      assert u + b == b && u + b' == b';
    } else {
      CollapseSwap(u[1..], b, b', w);
      assert (u + b + w)[1..] == u[1..] + b + w && (u + b' + w)[1..] == u[1..] + b' + w;
    }
  }

  lemma NormaliseSwap(u: string, b: string, b': string, w: string)
    requires b != "" && AllSpace(b) && b' != "" && AllSpace(b')
    ensures Normalise(u + b + w) == Normalise(u + b' + w)
  {
    hide IsSpace;
    CollapseSwap(Fold(u), Fold(b), Fold(b'), Fold(w));
    assert Fold(u + b + w) == Fold(u) + Fold(b) + Fold(w);
    assert Fold(u + b' + w) == Fold(u) + Fold(b') + Fold(w);
  }

  lemma NormaliseTrailing(x: string, b: string)
    requires AllSpace(b)
    ensures Normalise(x + b) == Normalise(x)
  {
    hide IsSpace;
    var p, q := NormaliseCore(x);
    if p == q {
      NormaliseBlank(x + b);
    } else {
      assert x + b == x[..p] + x[p..q] + (x[q..] + b);
      assert x == x[..p] + x[p..q] + x[q..];
      assert x[p..q][0] == x[p];
      NormalisePadded(x[..p], x[p..q], x[q..] + b);
      NormalisePadded(x[..p], x[p..q], x[q..]);
    }
  }

  /** Joining lines with "\n" instead of their own breaks changes nothing that
      normalisation sees. */
  lemma {:induction false} NormaliseJoin(u: string, lines: seq<Line>)
    requires lines != [] && ValidLines(lines)
    ensures Normalise(u + Concat(lines)) == Normalise(u + JoinBodies(lines))
    decreases |lines|
  {
    var l := lines[0];
    BreaksAreSpace(l.brk);
    if |lines| == 1 {
      assert Concat(lines[1..]) == "";
      assert Concat(lines) == l.body + l.brk && JoinBodies(lines) == l.body;
      hide *;
      NormaliseTrailing(u + l.body, l.brk);
      assert u + (l.body + l.brk) == u + l.body + l.brk;
    } else {
      NewlineIsSpace();
      ValidTail(lines);
      JoinFirst(lines);
      var concat, joined := Concat(lines[1..]), JoinBodies(lines[1..]);
      hide *;
      NormaliseJoin(u + l.body + l.brk, lines[1..]);
      NormaliseSwap(u + l.body, l.brk, "\n", joined);
      Reassociate(u, l.body, l.brk, concat);
      Reassociate(u, l.body, "\n", joined);
    }
  }

  lemma Reassociate(u: string, a: string, b: string, c: string)
    ensures u + (a + b + c) == u + a + b + c
  {}

  lemma ValidTail(lines: seq<Line>)
    requires |lines| > 1 && ValidLines(lines)
    ensures ValidLines(lines[1..]) && lines[0].brk != ""
  {
    hide ValidLine;
  }

  lemma JoinFirst(lines: seq<Line>)
    requires |lines| > 1
    ensures Concat(lines) == lines[0].body + lines[0].brk + Concat(lines[1..])
    ensures JoinBodies(lines) == lines[0].body + "\n" + JoinBodies(lines[1..])
  {}

  lemma NewlineIsSpace()
    ensures AllSpace("\n")
  {}

  lemma BreaksAreSpace(b: string)
    requires forall i :: 0 <= i < |b| ==> IsBreak(b[i])
    ensures AllSpace(b)
  {
    forall i | 0 <= i < |b| ensures IsSpace(b[i]) { BreakIsSpace(b[i]); }
  }

  // ---- the span of a line range ----

  datatype EvidenceArtifact = EvidenceArtifact(targetId: Option<string>, path: Option<string>,
                                               text: string, quotable: bool)

  predicate IsRange(text: string, lineStart: int, lineEnd: int) {
    1 <= lineStart <= lineEnd <= |Lines(text)|
  }

  /** The quote rebuilt for a line range. */
  function RangeQuote(text: string, lineStart: int, lineEnd: int): string
    requires IsRange(text, lineStart, lineEnd)
  {
    JoinBodies(Lines(text)[lineStart - 1..lineEnd])
  }

  /** A slice's end after dropping the CR and LF characters it ends with. */
  function TrimEnd(text: string, start: nat, end: nat): (r: nat)
    requires start <= end <= |text|
    ensures start <= r <= end
    decreases end
  {
    if start < end && (text[end - 1] == '\n' || text[end - 1] == '\r') then TrimEnd(text, start, end - 1) else end
  }

  function RangeSpan(text: string, lineStart: int, lineEnd: int, index: nat): QuoteSpan
    requires IsRange(text, lineStart, lineEnd)
  {
    LinesValid(text);
    ConcatRange(Lines(text), lineStart - 1, lineEnd);
    var start := |Concat(Lines(text)[..lineStart - 1])|;
    QuoteSpan(RangeQuote(text, lineStart, lineEnd), index, start,
              TrimEnd(text, start, |Concat(Lines(text)[..lineEnd])|),
              Pos(lineStart, 1), Pos(lineEnd, |Lines(text)[lineEnd - 1].body| + 1), Exact)
  }

  /** `sum(len(line) for line in lines_keepends[:n])`. */
  method LengthOfLines(lines: seq<Line>, n: nat) returns (total: nat)
    requires n <= |lines|
    ensures total == |Concat(lines[..n])|
  {
    total := 0;
    for i := 0 to n
      invariant total == |Concat(lines[..i])|
    {
      ConcatSplit(lines[..i + 1], i);
      assert lines[..i + 1][..i] == lines[..i] && lines[..i + 1][i..] == [lines[i]];
      assert [lines[i]][1..] == [];
      total := total + |lines[i].body| + |lines[i].brk|;
    }
  }

  /** What a rebuilt quote and its span promise: the lines of the range joined with "\n", between the
      offsets of its first line and of the end of its last without the CR and LF it ends with. */
  ghost predicate Rebuilt(text: string, lineStart: int, lineEnd: int, index: nat, quote: string, span: QuoteSpan) {
    && IsRange(text, lineStart, lineEnd)
    && var lines := Lines(text);
       && quote == JoinBodies(lines[lineStart - 1..lineEnd])
       && span.quote == quote && span.artifactIndex == index && span.tag == Exact
       && span.startPos == Pos(lineStart, 1) && span.endPos == Pos(lineEnd, |lines[lineEnd - 1].body| + 1)
       && span.start == |Concat(lines[..lineStart - 1])| && span.start <= span.end <= |text|
       && text[span.start..span.end] == TrimNewlines(Concat(lines[lineStart - 1..lineEnd]))
  }

  /** `_quote_span_from_line_range`. */
  method QuoteSpanFromLineRange(artifact: EvidenceArtifact, lineStart: int, lineEnd: int, index: nat)
    returns (span: QuoteSpan)
    requires IsRange(artifact.text, lineStart, lineEnd)
    ensures span == RangeSpan(artifact.text, lineStart, lineEnd, index)
    ensures Rebuilt(artifact.text, lineStart, lineEnd, index, RangeQuote(artifact.text, lineStart, lineEnd), span)
  {
    RangeSpanRebuilt(artifact.text, lineStart, lineEnd, index);
    hide IsBreak, SplitLines, Concat, JoinBodies, Rebuilt, TrimNewlines, ValidLines, RangeQuote, Lines;
    var text, lines := artifact.text, Lines(artifact.text);
    LinesValid(text);
    ConcatRange(lines, lineStart - 1, lineEnd);
    var startOffset := LengthOfLines(lines, lineStart - 1);
    var rawEnd := LengthOfLines(lines, lineEnd);
    var endOffset := TrimmedEnd(text, startOffset, rawEnd);
    span := QuoteSpan(RangeQuote(text, lineStart, lineEnd), index, startOffset, endOffset,
                      Pos(lineStart, 1), Pos(lineEnd, |lines[lineEnd - 1].body| + 1), Exact);
  }

  /** The trimming loop of `_quote_span_from_line_range`. */
  method TrimmedEnd(text: string, start: nat, rawEnd: nat) returns (end: nat)
    requires start <= rawEnd <= |text|
    ensures end == TrimEnd(text, start, rawEnd)
  {
    end := rawEnd;
    while end > start && (text[end - 1] == '\n' || text[end - 1] == '\r')
      invariant start <= end <= rawEnd
      invariant TrimEnd(text, start, end) == TrimEnd(text, start, rawEnd)
    {
      end := end - 1;
    }
  }

  /** `s.rstrip("\r\n")`. */
  function TrimNewlines(s: string): string {
    if s != "" && (s[|s| - 1] == '\n' || s[|s| - 1] == '\r') then TrimNewlines(s[..|s| - 1]) else s
  }

  lemma {:induction false} TrimEndSlice(text: string, start: nat, end: nat)
    requires start <= end <= |text|
    ensures text[start..TrimEnd(text, start, end)] == TrimNewlines(text[start..end])
    decreases end
  {
    if start < end && (text[end - 1] == '\n' || text[end - 1] == '\r') {
      TrimEndSlice(text, start, end - 1);
      assert text[start..end][..end - start - 1] == text[start..end - 1];
    }
  }

  lemma {:induction false} NormaliseTrimNewlines(s: string)
    ensures Normalise(TrimNewlines(s)) == Normalise(s)
  {
    hide Normalise;
    if s != "" && (s[|s| - 1] == '\n' || s[|s| - 1] == '\r') {
      var t := s[..|s| - 1];
      NormaliseTrimNewlines(t);
      assert s == t + [s[|s| - 1]];
      NormaliseTrailing(t, [s[|s| - 1]]);
    }
  }

  /** A rebuilt span is a slice of the artifact: the lines of the range with the CR and LF
      they end with removed. */
  lemma RangeSpanSlice(text: string, lineStart: int, lineEnd: int)
    requires IsRange(text, lineStart, lineEnd)
    ensures var s := RangeSpan(text, lineStart, lineEnd, 0);
            s.start <= s.end <= |text|
            && text[s.start..s.end] == TrimNewlines(Concat(Lines(text)[lineStart - 1..lineEnd]))
  {
    hide IsBreak, SplitLines, Concat, JoinBodies, TrimEnd, TrimNewlines;
    LinesValid(text);
    ConcatRange(Lines(text), lineStart - 1, lineEnd);
    TrimEndSlice(text, |Concat(Lines(text)[..lineStart - 1])|, |Concat(Lines(text)[..lineEnd])|);
  }

  lemma RangeSpanRebuilt(text: string, lineStart: int, lineEnd: int, index: nat)
    requires IsRange(text, lineStart, lineEnd)
    ensures Rebuilt(text, lineStart, lineEnd, index, RangeQuote(text, lineStart, lineEnd),
                    RangeSpan(text, lineStart, lineEnd, index))
  {
    hide IsBreak, SplitLines, Concat, JoinBodies, TrimEnd, TrimNewlines, Lines;
    RangeSpanSlice(text, lineStart, lineEnd);
  }

  /** The slice fixes the span. */
  lemma RebuiltUnique(text: string, lineStart: int, lineEnd: int, index: nat, q1: string, s1: QuoteSpan,
                      q2: string, s2: QuoteSpan)
    requires Rebuilt(text, lineStart, lineEnd, index, q1, s1) && Rebuilt(text, lineStart, lineEnd, index, q2, s2)
    ensures q1 == q2 && s1 == s2
  {
    hide Concat, JoinBodies, TrimNewlines, Lines;
    assert |text[s1.start..s1.end]| == |text[s2.start..s2.end]|;
  }

  /** Whatever the artifact's line breaks, the rebuilt quote and its span normalise alike,
      and both are substrings of the normalised artifact. */
  lemma RangeEvidenceGrounded(text: string, lineStart: int, lineEnd: int)
    requires IsRange(text, lineStart, lineEnd)
    ensures var s := RangeSpan(text, lineStart, lineEnd, 0);
            s.start <= s.end <= |text| && Normalise(text[s.start..s.end]) == Normalise(s.quote)
    ensures Contains(Normalise(text), Normalise(RangeQuote(text, lineStart, lineEnd)))
  {
    hide IsSpace, IsBreak, Normalise, SplitLines, Concat, JoinBodies, TrimEnd, TrimNewlines;
    var range := Lines(text)[lineStart - 1..lineEnd];
    LinesValid(text);
    RangeSpanSlice(text, lineStart, lineEnd);
    NormaliseTrimNewlines(Concat(range));
    assert ValidLines(range);
    NormaliseJoin("", range);
    assert "" + Concat(range) == Concat(range) && "" + JoinBodies(range) == JoinBodies(range);
    var s := RangeSpan(text, lineStart, lineEnd, 0);
    NormaliseSlice(text, s.start, s.end);
  }

  /** Line-range evidence against quote evidence: the fabrication check would accept a
      rebuilt quote exactly when it is not blank. */
  lemma RangeQuoteGroundedIff(text: string, lineStart: int, lineEnd: int)
    requires IsRange(text, lineStart, lineEnd)
    ensures Grounded(text, RangeQuote(text, lineStart, lineEnd))
        <==> !AllSpace(RangeQuote(text, lineStart, lineEnd))
  {
    hide Normalise, RangeQuote;
    RangeEvidenceGrounded(text, lineStart, lineEnd);
    NormaliseEmptyIffBlank(RangeQuote(text, lineStart, lineEnd));
  }

  // ---- LF text ----

  predicate OnlyLF(text: string) {
    forall i :: 0 <= i < |text| ==> IsBreak(text[i]) ==> text[i] == '\n'
  }

  /** In LF text a line's break is "\n", or nothing on the last line. */
  lemma {:induction false} SplitLinesLF(text: string)
    requires OnlyLF(text)
    ensures forall i :: 0 <= i < |SplitLines(text)| ==> SplitLines(text)[i].brk == "\n" || SplitLines(text)[i].brk == ""
  {
    if text == "" {
    } else {
      var l := FirstLine(text);
      hide IsBreak;
      var rest := text[|l.body| + |l.brk|..];
      assert OnlyLF(rest) by {
        forall i | 0 <= i < |rest| ensures IsBreak(rest[i]) ==> rest[i] == '\n' {
          assert rest[i] == text[|l.body| + |l.brk| + i];
        }
      }
      SplitLinesLF(rest);
      assert |l.brk| > 0 ==> l.brk[0] == text[|l.body|];
    }
  }

  /** The lines of LF text. */
  predicate LFLines(lines: seq<Line>) {
    && ValidLines(lines)
    && forall i :: 0 <= i < |lines| ==> lines[i].brk == "\n" || lines[i].brk == ""
  }

  lemma LinesLF(text: string)
    requires OnlyLF(text)
    ensures LFLines(Lines(text)) && Concat(Lines(text)) == text
  {
    LinesValid(text);
    SplitLinesLF(text);
  }

  lemma {:induction false} ConcatIsJoin(lines: seq<Line>)
    requires lines != [] && LFLines(lines)
    ensures Concat(lines) == JoinBodies(lines) + lines[|lines| - 1].brk
  {
    hide ValidLine;
    var rest := lines[1..];
    if |lines| == 1 {
      assert Concat(rest) == "";
    } else {
      assert LFLines(rest);
      ConcatIsJoin(rest);
      assert rest[|rest| - 1] == lines[|lines| - 1];
      assert Concat(lines) == lines[0].body + "\n" + (JoinBodies(rest) + lines[|lines| - 1].brk);
    }
  }

  function LastChar(s: string): Option<char> { if s == "" then None else Some(s[|s| - 1]) }

  /** The character a joined range ends with. */
  lemma {:induction false} JoinLast(lines: seq<Line>)
    requires lines != []
    ensures var last := lines[|lines| - 1].body;
            && (last != "" ==> LastChar(JoinBodies(lines)) == Some(last[|last| - 1]))
            && (last == "" && |lines| > 1 ==> LastChar(JoinBodies(lines)) == Some('\n'))
            && (last == "" && |lines| == 1 ==> JoinBodies(lines) == "")
  {
    if |lines| > 1 { JoinLast(lines[1..]); }
  }

  /** For LF text the slice is the quote without its trailing newlines, and it is the quote
      itself exactly when the last line has text or the range is one line. */
  lemma RangeSliceLF(text: string, lineStart: int, lineEnd: int)
    requires IsRange(text, lineStart, lineEnd) && OnlyLF(text)
    ensures var s := RangeSpan(text, lineStart, lineEnd, 0);
            && s.start <= s.end <= |text|
            && text[s.start..s.end] == TrimNewlines(s.quote)
            && (text[s.start..s.end] == s.quote
                <==> lineStart == lineEnd || Lines(text)[lineEnd - 1].body != "")
  {
    hide ValidLine, Concat, JoinBodies, SplitLines, Lines;
    var range := Lines(text)[lineStart - 1..lineEnd];
    var last := range[|range| - 1];
    RangeSpanSlice(text, lineStart, lineEnd);
    LinesLF(text);
    assert LFLines(range) by { assert ValidLines(range); }
    ConcatIsJoin(range);
    var quote := JoinBodies(range);
    assert (quote + "\n")[..|quote|] == quote && quote + "" == quote;
    JoinLast(range);
    if last.body != "" { RangeLastChar(last); }
    TrimNewlinesFixed(quote);
  }

  lemma RangeLastChar(l: Line)
    requires ValidLine(l) && l.body != ""
    ensures l.body[|l.body| - 1] != '\n' && l.body[|l.body| - 1] != '\r'
  {}

  lemma {:induction false} TrimNewlinesFixed(s: string)
    ensures |TrimNewlines(s)| <= |s| && (TrimNewlines(s) != s ==> |TrimNewlines(s)| < |s|)
    ensures TrimNewlines(s) == s <==> s == "" || (s[|s| - 1] != '\n' && s[|s| - 1] != '\r')
  {
    if s == "" {
    } else {
      TrimNewlinesFixed(s[..|s| - 1]);
    }
  }

  lemma LineInText(lines: seq<Line>, k: nat)
    requires k < |lines|
    ensures var s := |Concat(lines[..k])|;
            && s + |lines[k].body| + |lines[k].brk| == |Concat(lines[..k + 1])| <= |Concat(lines)|
            && Concat(lines)[s..|Concat(lines[..k + 1])|] == lines[k].body + lines[k].brk
  {
    ConcatRange(lines, k, k + 1);
    assert lines[k..k + 1] == [lines[k]] && [lines[k]][1..] == [];
  }

  lemma LineColStep(text: string, o: nat)
    requires o < |text|
    ensures LineCol(text, o + 1) == if text[o] == '\n' then Pos(LineCol(text, o).line + 1, 1)
                                    else Pos(LineCol(text, o).line, LineCol(text, o).column + 1)
  {}

  lemma NotNewlineInBody(l: Line, j: nat)
    requires ValidLine(l) && j < |l.body|
    ensures l.body[j] != '\n'
  {}

  /** Column j of line k, as LineCol computes it from the offset. */
  lemma {:induction false} PosInLine(lines: seq<Line>, k: nat, j: nat)
    requires LFLines(lines) && k < |lines| && j <= |lines[k].body|
    ensures var o := |Concat(lines[..k])| + j;
            o <= |Concat(lines)| && LineCol(Concat(lines), o) == Pos(k + 1, j + 1)
    decreases k, j
  {
    hide Concat, ValidLine, LineCol;
    var text, s := Concat(lines), |Concat(lines[..k])|;
    LineInText(lines, k);
    if j > 0 {
      NotNewlineInBody(lines[k], j - 1);
      PosInLine(lines, k, j - 1);
      assert text[s..|Concat(lines[..k + 1])|][j - 1] == lines[k].body[j - 1] == text[s + j - 1];
      LineColStep(text, s + j - 1);
    } else if k > 0 {
      PosInLine(lines, k - 1, |lines[k - 1].body|);
      LineInText(lines, k - 1);
      assert lines[k - 1].brk == "\n";
      var t := |Concat(lines[..k - 1])|;
      assert text[t..s][|lines[k - 1].body|] == '\n' == text[s - 1];
      LineColStep(text, s - 1);
    } else {
      ConcatNothing(lines);
      LineColOrigin(text);
    }
  }

  lemma LineColOrigin(text: string)
    ensures LineCol(text, 0) == Pos(1, 1)
  {}

  lemma ConcatNothing(lines: seq<Line>)
    ensures Concat(lines[..0]) == ""
  {}

  /** For LF text the stated line and column of both ends agree with LineCol, the end one
      exactly when the last line has text or the range is one line. */
  lemma RangePositionsLF(text: string, lineStart: int, lineEnd: int)
    requires IsRange(text, lineStart, lineEnd) && OnlyLF(text)
    ensures var s := RangeSpan(text, lineStart, lineEnd, 0);
            && s.startPos == LineCol(text, s.start)
            && (s.endPos == LineCol(text, s.end) <==> lineStart == lineEnd || Lines(text)[lineEnd - 1].body != "")
  {
    hide ValidLine, Concat, JoinBodies, SplitLines, Lines, TrimNewlines, TrimEnd, LineCol;
    var lines, s := Lines(text), RangeSpan(text, lineStart, lineEnd, 0);
    var range, body := lines[lineStart - 1..lineEnd], lines[lineEnd - 1].body;
    LinesLF(text);
    PosInLine(lines, lineStart - 1, 0);
    PosInLine(lines, lineEnd - 1, |body|);
    RangeSliceLF(text, lineStart, lineEnd);
    TrimNewlinesFixed(s.quote);
    ConcatRange(lines, lineStart - 1, lineEnd);
    LineInText(lines, lineEnd - 1);
    assert LFLines(range) by { assert ValidLines(range); }
    ConcatIsJoin(range);
    assert range[|range| - 1] == lines[lineEnd - 1];
    var e := |Concat(lines[..lineEnd - 1])| + |body|;
    assert s.start + |s.quote| == e;
    if s.end < e { LineColMonotone(text, s.end, e); }
  }

  // ---- validating references ----

  datatype RefFault =
    | NoEntries | NotObject | TargetIdMissing | TargetIdUnknown | TargetIdUnexpected
    | PathNotString | PathMismatch | LineStartNotInt | LineEndNotInt | RangeInvalid | Unquotable

  datatype EvidenceRef = EvidenceRef(index: nat, targetId: Option<string>, path: Option<string>,
                                     lineStart: int, lineEnd: int)

  /** `by_target_id`: the last artifact carrying the id. */
  function ByTargetId(artifacts: seq<EvidenceArtifact>, id: string): (r: Option<nat>)
    ensures r.Some? ==> r.value < |artifacts| && artifacts[r.value].targetId == Some(id)
    ensures r.Some? ==> forall i :: r.value < i < |artifacts| ==> artifacts[i].targetId != Some(id)
    ensures r.None? ==> forall i :: 0 <= i < |artifacts| ==> artifacts[i].targetId != Some(id)
  {
    if artifacts == [] then None
    else
      var n := |artifacts| - 1;
      if artifacts[n].targetId == Some(id) then Some(n) else ByTargetId(artifacts[..n], id)
  }

  /** Which artifact an entry points at. */
  function RefArtifact(multi: bool, artifacts: seq<EvidenceArtifact>, targetId: Json): (r: Result<nat, RefFault>)
    requires artifacts != []
    ensures r.Ok? ==> r.value < |artifacts|
    ensures r.Ok? && multi ==> targetId.JStr? && artifacts[r.value].targetId == Some(targetId.s)
  {
    if multi then
      if !targetId.JStr? || targetId.s == "" then Err(TargetIdMissing)
      else
        var hit := ByTargetId(artifacts, targetId.s);
        if hit.None? then Err(TargetIdUnknown) else Ok(hit.value)
    else if !targetId.JNull? then Err(TargetIdUnexpected)
    else Ok(0)
  }

  function JsonPath(path: Option<string>): Json { if path.None? then JNull else JStr(path.value) }

  /** The checks one entry passes through, in the source's order. */
  function ResolveRef(multi: bool, artifacts: seq<EvidenceArtifact>, entry: Json): (r: Result<EvidenceRef, RefFault>)
    requires artifacts != []
    ensures r.Ok? ==> ValidRef(multi, artifacts, r.value)
  {
    if !entry.JObj? then Err(NotObject)
    else
      var path := Get(entry.fields, "path");
      var first, last := Get(entry.fields, "line_start"), Get(entry.fields, "line_end");
      var hit := RefArtifact(multi, artifacts, Get(entry.fields, "target_id"));
      if hit.Err? then Err(hit.error)
      else
        var artifact := artifacts[hit.value];
        if !path.JNull? && !path.JStr? then Err(PathNotString)
        else if path != JsonPath(artifact.path) then Err(PathMismatch)
        else if !first.JInt? then Err(LineStartNotInt)
        else if !last.JInt? then Err(LineEndNotInt)
        else if first.n < 1 || last.n < 1 || first.n > last.n || last.n > |Lines(artifact.text)| then Err(RangeInvalid)
        else if !artifact.quotable then Err(Unquotable)
        else
          var id := Get(entry.fields, "target_id");
          Ok(EvidenceRef(hit.value, if multi then Some(id.s) else None, artifact.path, first.n, last.n))
  }

  /** What an accepted reference promises. */
  predicate ValidRef(multi: bool, artifacts: seq<EvidenceArtifact>, r: EvidenceRef) {
    && r.index < |artifacts|
    && artifacts[r.index].quotable
    && artifacts[r.index].path == r.path
    && (multi ==> r.targetId.Some? && artifacts[r.index].targetId == r.targetId)
    && IsRange(artifacts[r.index].text, r.lineStart, r.lineEnd)
  }

  // ---- what an entry cites ----

  /** Artifact number index is the one a target id names: on a multi-target rule the last that
      carries it, otherwise the only one, and then there is no id. */
  ghost predicate Names(multi: bool, artifacts: seq<EvidenceArtifact>, targetId: Json, index: int) {
    && 0 <= index < |artifacts|
    && (!multi ==> targetId == JNull && index == 0)
    && (multi ==>
          && targetId.JStr? && targetId.s != "" && artifacts[index].targetId == Some(targetId.s)
          && forall k :: index < k < |artifacts| ==> artifacts[k].targetId != Some(targetId.s))
  }

  predicate OwnPath(artifact: EvidenceArtifact, path: Json) {
    match artifact.path
    case None => path == JNull
    case Some(p) => path == JStr(p)
  }

  /** The entry is an object whose fields give exactly this reference: the named artifact, by its own
      path, which can be quoted, and integer lines that it has. */
  ghost predicate Cites(multi: bool, artifacts: seq<EvidenceArtifact>, entry: Json, r: EvidenceRef) {
    && entry.JObj?
    && Names(multi, artifacts, Get(entry.fields, "target_id"), r.index)
    && r.targetId == (if multi then Some(Get(entry.fields, "target_id").s) else None)
    && OwnPath(artifacts[r.index], Get(entry.fields, "path")) && r.path == artifacts[r.index].path
    && Get(entry.fields, "line_start") == JInt(r.lineStart)
    && Get(entry.fields, "line_end") == JInt(r.lineEnd)
    && 1 <= r.lineStart <= r.lineEnd <= |Lines(artifacts[r.index].text)|
    && artifacts[r.index].quotable
  }

  ghost predicate Citable(multi: bool, artifacts: seq<EvidenceArtifact>, entry: Json) {
    exists r :: Cites(multi, artifacts, entry, r)
  }

  lemma NamesIff(multi: bool, artifacts: seq<EvidenceArtifact>, targetId: Json, index: nat)
    requires artifacts != []
    ensures RefArtifact(multi, artifacts, targetId) == Ok(index) <==> Names(multi, artifacts, targetId, index)
  {}

  /** An entry resolves to a reference exactly when it cites it. */
  lemma ResolveRefIff(multi: bool, artifacts: seq<EvidenceArtifact>, entry: Json, r: EvidenceRef)
    requires artifacts != []
    ensures ResolveRef(multi, artifacts, entry) == Ok(r) <==> Cites(multi, artifacts, entry, r)
  {
    hide Lines, Get, ByTargetId;
    if entry.JObj? {
      var named := RefArtifact(multi, artifacts, Get(entry.fields, "target_id"));
      if named.Ok? { NamesIff(multi, artifacts, Get(entry.fields, "target_id"), named.value); }
      NamesIff(multi, artifacts, Get(entry.fields, "target_id"), r.index);
    }
  }

  // ---- why an entry is refused ----

  /** The position of a check among those an entry passes through. */
  function Rank(f: RefFault): nat {
    match f
    case NoEntries => 0
    case NotObject => 1
    case TargetIdMissing => 2
    case TargetIdUnknown => 3
    case TargetIdUnexpected => 4
    case PathNotString => 5
    case PathMismatch => 6
    case LineStartNotInt => 7
    case LineEndNotInt => 8
    case RangeInvalid => 9
    case Unquotable => 10
  }

  function Field(entry: Json, key: string): Json { if entry.JObj? then Get(entry.fields, key) else JNull }

  /** The entry has the fault. */
  ghost predicate Violates(multi: bool, artifacts: seq<EvidenceArtifact>, entry: Json, f: RefFault) {
    var id, path := Field(entry, "target_id"), Field(entry, "path");
    var first, last := Field(entry, "line_start"), Field(entry, "line_end");
    match f
    case NoEntries => false
    case NotObject => !entry.JObj?
    case TargetIdMissing => multi && (!id.JStr? || id.s == "")
    case TargetIdUnknown =>
      multi && id.JStr? && id.s != "" && forall k :: 0 <= k < |artifacts| ==> artifacts[k].targetId != Some(id.s)
    case TargetIdUnexpected => !multi && !id.JNull?
    case PathNotString => !path.JNull? && !path.JStr?
    case PathMismatch => exists i :: Names(multi, artifacts, id, i) && !OwnPath(artifacts[i], path)
    case LineStartNotInt => !first.JInt?
    case LineEndNotInt => !last.JInt?
    case RangeInvalid =>
      && first.JInt? && last.JInt?
      && exists i :: Names(multi, artifacts, id, i) && !(1 <= first.n <= last.n <= |Lines(artifacts[i].text)|)
    case Unquotable => exists i :: Names(multi, artifacts, id, i) && !artifacts[i].quotable
  }

  /** The fault is the first the entry has. */
  ghost predicate IsFault(multi: bool, artifacts: seq<EvidenceArtifact>, entry: Json, f: RefFault) {
    && Violates(multi, artifacts, entry, f)
    && forall g :: Violates(multi, artifacts, entry, g) ==> Rank(f) <= Rank(g)
  }

  /** An entry is refused with the first fault it has. */
  lemma ResolveRefFault(multi: bool, artifacts: seq<EvidenceArtifact>, entry: Json)
    requires artifacts != [] && ResolveRef(multi, artifacts, entry).Err?
    ensures IsFault(multi, artifacts, entry, ResolveRef(multi, artifacts, entry).error)
  {
    hide Lines, Get, ByTargetId;
    if entry.JObj? {
      var id := Get(entry.fields, "target_id");
      var named := RefArtifact(multi, artifacts, id);
      if named.Ok? {
        NamesIff(multi, artifacts, id, named.value);
        forall i: nat ensures Names(multi, artifacts, id, i) ==> i == named.value {
          NamesIff(multi, artifacts, id, i);
        }
      }
    }
  }

  /** All references of an answer: the first fault rejects them all. */
  function ResolveRefs(multi: bool, artifacts: seq<EvidenceArtifact>, entries: seq<Json>)
    : Result<seq<EvidenceRef>, RefFault>
    requires artifacts != []
  {
    if entries == [] then Ok([])
    else
      var head := ResolveRef(multi, artifacts, entries[0]);
      if head.Err? then Err(head.error)
      else
        var tail := ResolveRefs(multi, artifacts, entries[1..]);
        if tail.Err? then tail else Ok([head.value] + tail.value)
  }

  lemma {:induction false} ResolveRefsEach(multi: bool, artifacts: seq<EvidenceArtifact>, entries: seq<Json>)
    requires artifacts != [] && ResolveRefs(multi, artifacts, entries).Ok?
    ensures var refs := ResolveRefs(multi, artifacts, entries).value;
            |refs| == |entries|
            && forall i :: 0 <= i < |refs| ==>
                 ResolveRef(multi, artifacts, entries[i]) == Ok(refs[i]) && ValidRef(multi, artifacts, refs[i])
  {
    hide ResolveRef, ValidRef;
    if entries == [] {
    } else {
      ResolveRefsEach(multi, artifacts, entries[1..]);
    }
  }

  lemma {:induction false} ResolveRefsAll(multi: bool, artifacts: seq<EvidenceArtifact>, entries: seq<Json>,
                                          refs: seq<EvidenceRef>, n: nat)
    requires artifacts != [] && |refs| == n <= |entries|
    requires forall i :: 0 <= i < n ==> ResolveRef(multi, artifacts, entries[i]) == Ok(refs[i])
    ensures n == |entries| ==> ResolveRefs(multi, artifacts, entries) == Ok(refs)
    ensures n < |entries| && ResolveRef(multi, artifacts, entries[n]).Err? ==>
              ResolveRefs(multi, artifacts, entries) == Err(ResolveRef(multi, artifacts, entries[n]).error)
  {
    hide ResolveRef;
    if n == 0 {
    } else {
      ResolveRefsAll(multi, artifacts, entries[1..], refs[1..], n - 1);
      assert [refs[0]] + refs[1..] == refs;
    }
  }

  datatype RefsOutcome =
    | NoRefs
    | Rejected(fault: RefFault)
    | Accepted(quotes: seq<string>, refs: seq<EvidenceRef>, spans: seq<QuoteSpan>)

  function QuoteOf(artifacts: seq<EvidenceArtifact>, r: EvidenceRef): string
    requires r.index < |artifacts| && IsRange(artifacts[r.index].text, r.lineStart, r.lineEnd)
  {
    RangeQuote(artifacts[r.index].text, r.lineStart, r.lineEnd)
  }

  function SpanOf(artifacts: seq<EvidenceArtifact>, r: EvidenceRef): QuoteSpan
    requires r.index < |artifacts| && IsRange(artifacts[r.index].text, r.lineStart, r.lineEnd)
  {
    RangeSpan(artifacts[r.index].text, r.lineStart, r.lineEnd, r.index)
  }

  predicate AllResolved(artifacts: seq<EvidenceArtifact>, refs: seq<EvidenceRef>) {
    forall k :: 0 <= k < |refs| ==>
      refs[k].index < |artifacts| && IsRange(artifacts[refs[k].index].text, refs[k].lineStart, refs[k].lineEnd)
  }

  function QuotesOf(artifacts: seq<EvidenceArtifact>, refs: seq<EvidenceRef>): (r: seq<string>)
    requires AllResolved(artifacts, refs)
    ensures |r| == |refs| && forall k :: 0 <= k < |refs| ==> r[k] == QuoteOf(artifacts, refs[k])
  {
    seq(|refs|, i requires 0 <= i < |refs| => QuoteOf(artifacts, refs[i]))
  }

  function SpansOf(artifacts: seq<EvidenceArtifact>, refs: seq<EvidenceRef>): (r: seq<QuoteSpan>)
    requires AllResolved(artifacts, refs)
    ensures |r| == |refs| && forall k :: 0 <= k < |refs| ==> r[k] == SpanOf(artifacts, refs[k])
  {
    seq(|refs|, i requires 0 <= i < |refs| => SpanOf(artifacts, refs[i]))
  }

  function Reconstruct(verdict: bool, multi: bool, artifacts: seq<EvidenceArtifact>,
                       entries: Option<seq<Json>>): RefsOutcome
    requires artifacts != []
  {
    if entries.None? then NoRefs
    else if verdict && entries.value == [] then Rejected(NoEntries)
    else
      var r := ResolveRefs(multi, artifacts, entries.value);
      if r.Err? then Rejected(r.error)
      else
        ResolveRefsEach(multi, artifacts, entries.value);
        Accepted(QuotesOf(artifacts, r.value), r.value, SpansOf(artifacts, r.value))
  }

  /** What an answer's references come to, said of the entries alone: nothing without a list; all of
      them rebuilt when each entry cites something and a verdict has at least one; otherwise the
      first fault of the first entry that cites nothing. */
  ghost predicate Meets(verdict: bool, multi: bool, artifacts: seq<EvidenceArtifact>, entries: Option<seq<Json>>,
                        outcome: RefsOutcome) {
    match outcome
    case NoRefs => entries.None?
    case Accepted(quotes, refs, spans) =>
      && entries.Some? && (verdict ==> entries.value != [])
      && |quotes| == |refs| == |spans| == |entries.value|
      && forall i :: 0 <= i < |refs| ==>
           && Cites(multi, artifacts, entries.value[i], refs[i])
           && Rebuilt(artifacts[refs[i].index].text, refs[i].lineStart, refs[i].lineEnd, refs[i].index,
                      quotes[i], spans[i])
    case Rejected(fault) =>
      && entries.Some?
      && if verdict && entries.value == [] then fault == NoEntries
         else exists i :: FirstFault(multi, artifacts, entries.value, i, fault)
  }

  ghost predicate FirstFault(multi: bool, artifacts: seq<EvidenceArtifact>, entries: seq<Json>, i: nat, f: RefFault) {
    && i < |entries| && IsFault(multi, artifacts, entries[i], f)
    && forall k :: 0 <= k < i ==> Citable(multi, artifacts, entries[k])
  }

  lemma {:induction false} FaultyEntry(multi: bool, artifacts: seq<EvidenceArtifact>, entries: seq<Json>)
    returns (i: nat)
    requires artifacts != [] && ResolveRefs(multi, artifacts, entries).Err?
    ensures FirstFault(multi, artifacts, entries, i, ResolveRefs(multi, artifacts, entries).error)
  {
    hide ResolveRef, Cites, IsFault, ValidRef;
    var head := ResolveRef(multi, artifacts, entries[0]);
    if head.Err? {
      ResolveRefFault(multi, artifacts, entries[0]);
      i := 0;
    } else {
      ResolveRefIff(multi, artifacts, entries[0], head.value);
      var k := FaultyEntry(multi, artifacts, entries[1..]);
      i := k + 1;
      assert forall m :: 0 < m < i ==> entries[m] == entries[1..][m - 1];
    }
  }

  /** The outcome is what the entries say. */
  lemma ReconstructMeets(verdict: bool, multi: bool, artifacts: seq<EvidenceArtifact>, entries: Option<seq<Json>>)
    requires artifacts != []
    ensures Meets(verdict, multi, artifacts, entries, Reconstruct(verdict, multi, artifacts, entries))
  {
    hide ResolveRef, ResolveRefs, Cites, Rebuilt, FirstFault, RangeSpan, RangeQuote;
    if entries.Some? && !(verdict && entries.value == []) {
      if ResolveRefs(multi, artifacts, entries.value).Err? {
        var i := FaultyEntry(multi, artifacts, entries.value);
      } else {
        ResolveRefsEach(multi, artifacts, entries.value);
        var refs := ResolveRefs(multi, artifacts, entries.value).value;
        forall i | 0 <= i < |refs|
          ensures Cites(multi, artifacts, entries.value[i], refs[i])
          ensures Rebuilt(artifacts[refs[i].index].text, refs[i].lineStart, refs[i].lineEnd, refs[i].index,
                          QuoteOf(artifacts, refs[i]), SpanOf(artifacts, refs[i]))
        {
          ResolveRefIff(multi, artifacts, entries.value[i], refs[i]);
          RangeSpanRebuilt(artifacts[refs[i].index].text, refs[i].lineStart, refs[i].lineEnd, refs[i].index);
        }
      }
    }
  }

  /** And the entries determine it. */
  lemma MeetsUnique(verdict: bool, multi: bool, artifacts: seq<EvidenceArtifact>, entries: Option<seq<Json>>,
                    a: RefsOutcome, b: RefsOutcome)
    requires artifacts != []
    requires Meets(verdict, multi, artifacts, entries, a) && Meets(verdict, multi, artifacts, entries, b)
    ensures a == b
  {
    hide Cites, Rebuilt, IsFault;
    if a.Accepted? && b.Accepted? {
      forall i | 0 <= i < |a.refs|
        ensures a.refs[i] == b.refs[i] && a.quotes[i] == b.quotes[i] && a.spans[i] == b.spans[i]
      {
        ResolveRefIff(multi, artifacts, entries.value[i], a.refs[i]);
        ResolveRefIff(multi, artifacts, entries.value[i], b.refs[i]);
        var r := a.refs[i];
        RebuiltUnique(artifacts[r.index].text, r.lineStart, r.lineEnd, r.index, a.quotes[i], a.spans[i],
                      b.quotes[i], b.spans[i]);
      }
    } else if entries.Some? && !(verdict && entries.value == []) {
      var i, x := FaultIn(verdict, multi, artifacts, entries, if a.Rejected? then a else b);
      FaultCitesNothing(multi, artifacts, entries.value[i], x);
      if a.Rejected? && b.Rejected? {
        var k, y := FaultIn(verdict, multi, artifacts, entries, b);
        FaultCitesNothing(multi, artifacts, entries.value[k], y);
        OneFault(multi, artifacts, entries.value[k], x, y);
      }
    }
  }

  lemma FaultIn(verdict: bool, multi: bool, artifacts: seq<EvidenceArtifact>, entries: Option<seq<Json>>,
                out: RefsOutcome) returns (i: nat, f: RefFault)
    requires Meets(verdict, multi, artifacts, entries, out) && out.Rejected? && !(verdict && entries.value == [])
    ensures FirstFault(multi, artifacts, entries.value, i, f) && f == out.fault
  {
    f := out.fault;
    i :| FirstFault(multi, artifacts, entries.value, i, f);
  }

  lemma OneFault(multi: bool, artifacts: seq<EvidenceArtifact>, entry: Json, f: RefFault, g: RefFault)
    ensures IsFault(multi, artifacts, entry, f) && IsFault(multi, artifacts, entry, g) ==> f == g
  {
    hide Violates;
  }

  /** References are accepted exactly when each entry cites something, and a verdict's list is not
      empty. */
  lemma AcceptedIff(verdict: bool, multi: bool, artifacts: seq<EvidenceArtifact>, entries: Option<seq<Json>>)
    requires artifacts != []
    ensures Reconstruct(verdict, multi, artifacts, entries).Accepted?
        <==> entries.Some? && (verdict ==> entries.value != [])
             && forall i :: 0 <= i < |entries.value| ==> Citable(multi, artifacts, entries.value[i])
  {
    hide Cites, Rebuilt, Reconstruct, IsFault;
    ReconstructMeets(verdict, multi, artifacts, entries);
    var out := Reconstruct(verdict, multi, artifacts, entries);
    if out.Rejected? && !(verdict && entries.value == []) {
      var i: nat :| FirstFault(multi, artifacts, entries.value, i, out.fault);
      FaultCitesNothing(multi, artifacts, entries.value[i], out.fault);
    }
  }

  /** An entry with a fault cites nothing. */
  lemma FaultCitesNothing(multi: bool, artifacts: seq<EvidenceArtifact>, entry: Json, f: RefFault)
    requires IsFault(multi, artifacts, entry, f)
    ensures !Citable(multi, artifacts, entry)
  {
    hide Lines, Get, Rank;
  }

  /** The first entries resolve to the references. */
  ghost predicate ResolvedPrefix(multi: bool, artifacts: seq<EvidenceArtifact>, entries: seq<Json>,
                                 refs: seq<EvidenceRef>)
    requires artifacts != []
  {
    && |refs| <= |entries|
    && forall k :: 0 <= k < |refs| ==> ResolveRef(multi, artifacts, entries[k]) == Ok(refs[k])
  }

  lemma PrefixGrows(multi: bool, artifacts: seq<EvidenceArtifact>, entries: seq<Json>, refs: seq<EvidenceRef>)
    requires artifacts != [] && ResolvedPrefix(multi, artifacts, entries, refs) && |refs| < |entries|
    ensures var r := ResolveRef(multi, artifacts, entries[|refs|]);
            if r.Err? then ResolveRefs(multi, artifacts, entries) == Err(r.error)
            else ValidRef(multi, artifacts, r.value) && ResolvedPrefix(multi, artifacts, entries, refs + [r.value])
  {
    hide ResolveRef, ResolveRefs, ValidRef;
    ResolveRefsAll(multi, artifacts, entries, refs, |refs|);
  }

  lemma NothingRebuilt(artifacts: seq<EvidenceArtifact>)
    ensures AllResolved(artifacts, []) && QuotesOf(artifacts, []) == [] && SpansOf(artifacts, []) == []
  {}

  lemma NothingResolved(multi: bool, artifacts: seq<EvidenceArtifact>, entries: seq<Json>)
    requires artifacts != []
    ensures ResolvedPrefix(multi, artifacts, entries, [])
  {}

  lemma ValidRefResolved(multi: bool, artifacts: seq<EvidenceArtifact>, r: EvidenceRef)
    requires ValidRef(multi, artifacts, r)
    ensures r.index < |artifacts| && IsRange(artifacts[r.index].text, r.lineStart, r.lineEnd)
    ensures SpanOf(artifacts, r) == RangeSpan(artifacts[r.index].text, r.lineStart, r.lineEnd, r.index)
  {}

  lemma RebuiltGrows(artifacts: seq<EvidenceArtifact>, refs: seq<EvidenceRef>, r: EvidenceRef)
    requires AllResolved(artifacts, refs)
    requires r.index < |artifacts| && IsRange(artifacts[r.index].text, r.lineStart, r.lineEnd)
    ensures AllResolved(artifacts, refs + [r])
    ensures QuotesOf(artifacts, refs + [r]) == QuotesOf(artifacts, refs) + [QuoteOf(artifacts, r)]
    ensures SpansOf(artifacts, refs + [r]) == SpansOf(artifacts, refs) + [SpanOf(artifacts, r)]
  {
    hide QuoteOf, SpanOf, IsRange, QuotesOf, SpansOf;
  }

  lemma ResolvedAll(verdict: bool, multi: bool, artifacts: seq<EvidenceArtifact>, entries: seq<Json>,
                    refs: seq<EvidenceRef>)
    requires artifacts != [] && !(verdict && entries == [])
    requires ResolvedPrefix(multi, artifacts, entries, refs) && |refs| == |entries| && AllResolved(artifacts, refs)
    ensures Reconstruct(verdict, multi, artifacts, Some(entries))
         == Accepted(QuotesOf(artifacts, refs), refs, SpansOf(artifacts, refs))
  {
    ResolveRefsAll(multi, artifacts, entries, refs, |entries|);
    hide ResolveRefs, ResolveRef, QuotesOf, SpansOf;
  }

  lemma EarlyOutcome(verdict: bool, multi: bool, artifacts: seq<EvidenceArtifact>, entries: Option<seq<Json>>)
    requires artifacts != []
    ensures var out := Reconstruct(verdict, multi, artifacts, entries);
            && (entries.None? ==> out == NoRefs)
            && (entries.Some? && verdict && entries.value == [] ==> out == Rejected(NoEntries))
            && (entries.Some? && !(verdict && entries.value == [])
                && ResolveRefs(multi, artifacts, entries.value).Err?
                ==> out == Rejected(ResolveRefs(multi, artifacts, entries.value).error))
  {}

  /** `_validate_and_reconstruct_evidence_refs`. */
  method ValidateAndReconstruct(verdict: bool, multi: bool, artifacts: seq<EvidenceArtifact>,
                                entries: Option<seq<Json>>)
    returns (outcome: RefsOutcome)
    requires artifacts != []
    ensures outcome == Reconstruct(verdict, multi, artifacts, entries)
    ensures Meets(verdict, multi, artifacts, entries, outcome)
  {
    ReconstructMeets(verdict, multi, artifacts, entries);
    EarlyOutcome(verdict, multi, artifacts, entries);
    hide *;
    if entries.None? { return NoRefs; }
    var refsRaw := entries.value;
    if verdict && refsRaw == [] { return Rejected(NoEntries); }
    var quotes: seq<string>, refs: seq<EvidenceRef>, spans: seq<QuoteSpan> := [], [], [];
    NothingResolved(multi, artifacts, refsRaw);
    NothingRebuilt(artifacts);
    for i := 0 to |refsRaw|
      invariant |refs| == i && ResolvedPrefix(multi, artifacts, refsRaw, refs)
      invariant AllResolved(artifacts, refs)
      invariant quotes == QuotesOf(artifacts, refs) && spans == SpansOf(artifacts, refs)
    {
      PrefixGrows(multi, artifacts, refsRaw, refs);
      var r := ResolveRef(multi, artifacts, refsRaw[i]);
      if r.Err? { return Rejected(r.error); }
      var ref := r.value;
      ValidRefResolved(multi, artifacts, ref);
      RebuiltGrows(artifacts, refs, ref);
      var span := QuoteSpanFromLineRange(artifacts[ref.index], ref.lineStart, ref.lineEnd, ref.index);
      quotes, refs, spans := quotes + [QuoteOf(artifacts, ref)], refs + [ref], spans + [span];
    }
    ResolvedAll(verdict, multi, artifacts, refsRaw, refs);
    outcome := Accepted(quotes, refs, spans);
  }

  /** Accepted references: as many as the answer gave, each naming a quotable artifact whose
      normalised text contains the rebuilt quote and, at the span's offsets, the quote. */
  lemma AcceptedRefsGrounded(verdict: bool, multi: bool, artifacts: seq<EvidenceArtifact>, entries: Option<seq<Json>>,
                             i: nat)
    requires artifacts != [] && Reconstruct(verdict, multi, artifacts, entries).Accepted?
    requires i < |Reconstruct(verdict, multi, artifacts, entries).refs|
    ensures var out := Reconstruct(verdict, multi, artifacts, entries);
            && |out.quotes| == |out.spans| == |out.refs| == |entries.value|
            && ValidRef(multi, artifacts, out.refs[i])
            && var text := artifacts[out.refs[i].index].text;
            && Contains(Normalise(text), Normalise(out.quotes[i]))
            && out.spans[i].start <= out.spans[i].end <= |text|
            && out.spans[i].quote == out.quotes[i]
            && Normalise(text[out.spans[i].start..out.spans[i].end]) == Normalise(out.quotes[i])
  {
    hide ResolveRef, RangeQuote, Normalise;
    ResolveRefsEach(multi, artifacts, entries.value);
    var r := Reconstruct(verdict, multi, artifacts, entries).refs[i];
    RangeEvidenceGrounded(artifacts[r.index].text, r.lineStart, r.lineEnd);
  }
}
