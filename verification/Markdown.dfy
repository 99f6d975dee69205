/** Fenced code blocks and ATX headings: the three scanners of `_md.py` against one fold over
    lines. */
module Markdown {
  import opened Wrappers
  import opened Text
  import opened LineText

  // ---- the regular expressions ----

  /** Length of the run of c starting at i. */
  function RunLen(s: string, i: nat, c: char): (n: nat)
    requires i <= |s|
    ensures i + n <= |s| && (forall k :: i <= k < i + n ==> s[k] == c) && (i + n < |s| ==> s[i + n] != c)
    decreases |s| - i
  {
    if i < |s| && s[i] == c then 1 + RunLen(s, i + 1, c) else 0
  }

  /** A fence run and what follows it. */
  datatype Marker = Marker(c: char, len: nat, info: string)

  predicate FenceChar(c: char) { c == '`' || c == '~' }

  function MarkerAt(line: string, i: nat): (m: Option<Marker>)
    requires i < |line|
    ensures m.Some? ==> m.value.len >= 3
  {
    var n := RunLen(line, i, line[i]);
    if n < 3 then None else Some(Marker(line[i], n, line[i + n..]))
  }

  /** `FENCE_START_RE` on a line without "\n". */
  function FenceMarker(line: string): (m: Option<Marker>)
    ensures m.Some? ==> m.value.len >= 3
  {
    var i := RunLen(line, 0, ' ');
    if i > 3 || i == |line| || !FenceChar(line[i]) then None else MarkerAt(line, i)
  }

  /** A backtick fence has no backtick in its info string. */
  predicate Opens(m: Marker) { m.c != '`' || '`' !in m.info }

  predicate Closes(m: Marker, c: char, len: nat) { m.c == c && m.len >= len && Strip(m.info) == "" }

  datatype Heading = Heading(level: nat, title: string)

  predicate Blank(c: char) { c == ' ' || c == '\t' }

  function SkipBlanks(s: string): (r: string)
    ensures |r| <= |s|
  {
    if s != "" && Blank(s[0]) then SkipBlanks(s[1..]) else s
  }

  /** Nothing, or an ATX closing sequence: blanks, hashes, blanks. */
  predicate Closing(s: string) {
    || s == ""
    || (Blank(s[0])
        && var t := SkipBlanks(s);
           var n := RunLen(t, 0, '#');
           n > 0 && SkipBlanks(t[n..]) == "")
  }

  /** The shortest title that leaves only a closing sequence. */
  function TitleLen(s: string): (n: nat)
    ensures n <= |s| && Closing(s[n..]) && forall k :: 0 <= k < n ==> !Closing(s[k..])
  {
    if Closing(s) then 0
    else
      var n := TitleLen(s[1..]);
      assert s[1..][n..] == s[n + 1..];
      assert forall k :: 0 < k <= n ==> s[k..] == s[1..][k - 1..];
      n + 1
  }

  /** `_ATX_HEADING_RE` with the title stripped, as every caller does. */
  function AtxHeading(line: string): (h: Option<Heading>)
    ensures h.Some? ==> 1 <= h.value.level <= 6
  {
    var i := RunLen(line, 0, ' ');
    var n := RunLen(line, i, '#');
    if i > 3 || n < 1 || n > 6 || i + n == |line| || !Blank(line[i + n]) then None
    else
      var rest := SkipBlanks(line[i + n..]);
      Some(Heading(n, Strip(rest[..TitleLen(rest)])))
  }

  // ---- the fold ----

  datatype Fence = Out | In(c: char, len: nat)

  /** Ordinary line, opening fence, fenced content, closing fence. */
  datatype Kind = Plain | Open | Body | Close

  function StepMarker(f: Fence, m: Option<Marker>): (Fence, Kind) {
    match f
    case Out => if m.Some? && Opens(m.value) then (In(m.value.c, m.value.len), Open) else (Out, Plain)
    case In(c, len) => if m.Some? && Closes(m.value, c, len) then (Out, Close) else (f, Body)
  }

  function StateAt(lines: seq<Line>, n: nat): Fence
    requires n <= |lines|
  {
    if n == 0 then Out else StepMarker(StateAt(lines, n - 1), FenceMarker(lines[n - 1].body)).0
  }

  function KindAt(lines: seq<Line>, i: nat): Kind
    requires i < |lines|
  {
    StepMarker(StateAt(lines, i), FenceMarker(lines[i].body)).1
  }

  /** The lines outside fences, by index. */
  function PlainIndices(lines: seq<Line>, n: nat): seq<nat>
    requires n <= |lines|
  {
    if n == 0 then [] else PlainIndices(lines, n - 1) + if KindAt(lines, n - 1) == Plain then [n - 1] else []
  }

  function PlainLines(lines: seq<Line>, n: nat): seq<Line>
    requires n <= |lines|
  {
    if n == 0 then [] else PlainLines(lines, n - 1) + if KindAt(lines, n - 1) == Plain then [lines[n - 1]] else []
  }

  /** idx lists the plain ones of the first n lines in order, and picked the lines themselves. */
  ghost predicate Picks(lines: seq<Line>, n: nat, idx: seq<nat>, picked: seq<Line>)
    requires n <= |lines|
  {
    && (forall i, j :: 0 <= i < j < |idx| ==> idx[i] < idx[j])
    && (forall i: nat :: i in idx <==> i < n && KindAt(lines, i) == Plain)
    && |picked| == |idx|
    && (forall k :: 0 <= k < |idx| ==> idx[k] < n && picked[k] == lines[idx[k]])
  }

  lemma PickPlain(lines: seq<Line>, n: nat, idx: seq<nat>, picked: seq<Line>)
    requires n < |lines| && Picks(lines, n, idx, picked) && KindAt(lines, n) == Plain
    ensures Picks(lines, n + 1, idx + [n], picked + [lines[n]])
  {
    hide KindAt;
  }

  lemma PickNothing(lines: seq<Line>, n: nat, idx: seq<nat>, picked: seq<Line>)
    requires n < |lines| && Picks(lines, n, idx, picked) && KindAt(lines, n) != Plain
    ensures Picks(lines, n + 1, idx, picked)
  {
    hide KindAt;
  }

  lemma PickedSoFar(lines: seq<Line>)
    ensures Picks(lines, 0, PlainIndices(lines, 0), PlainLines(lines, 0))
  {}

  lemma PickUnfolds(lines: seq<Line>, n: nat)
    requires n < |lines|
    ensures PlainIndices(lines, n + 1)
         == if KindAt(lines, n) == Plain then PlainIndices(lines, n) + [n] else PlainIndices(lines, n)
    ensures PlainLines(lines, n + 1)
         == if KindAt(lines, n) == Plain then PlainLines(lines, n) + [lines[n]] else PlainLines(lines, n)
  {
    hide KindAt;
  }

  lemma {:induction false} PlainIndicesPick(lines: seq<Line>, n: nat)
    requires n <= |lines|
    ensures Picks(lines, n, PlainIndices(lines, n), PlainLines(lines, n))
  {
    hide *;
    if n == 0 {
      PickedSoFar(lines);
    } else {
      PlainIndicesPick(lines, n - 1);
      PickUnfolds(lines, n - 1);
      if KindAt(lines, n - 1) == Plain {
        PickPlain(lines, n - 1, PlainIndices(lines, n - 1), PlainLines(lines, n - 1));
      } else {
        PickNothing(lines, n - 1, PlainIndices(lines, n - 1), PlainLines(lines, n - 1));
      }
    }
  }

  /** The indices are exactly the plain lines, in order, and pick out those lines. */
  lemma PlainIndicesExact(lines: seq<Line>, n: nat)
    requires n <= |lines|
    ensures var idx := PlainIndices(lines, n);
            && (forall i, j :: 0 <= i < j < |idx| ==> idx[i] < idx[j])
            && (forall i: nat :: i in idx <==> i < n && KindAt(lines, i) == Plain)
            && |PlainLines(lines, n)| == |idx|
            && (forall k :: 0 <= k < |idx| ==> idx[k] < n && PlainLines(lines, n)[k] == lines[idx[k]])
  {
    hide KindAt, PlainIndices, PlainLines;
    PlainIndicesPick(lines, n);
  }

  // ---- strip_fenced_blocks and _iter_non_fence_lines ----

  /** `s.rstrip("\r\n")`. */
  function RStripCRLF(s: string): (r: string)
    ensures r <= s
  {
    if s != "" && (s[|s| - 1] == '\r' || s[|s| - 1] == '\n') then RStripCRLF(s[..|s| - 1]) else s
  }

  lemma {:induction false} RStripKeepsBody(l: Line) returns (t: string)
    requires ValidLine(l)
    ensures RStripCRLF(l.body + l.brk) == l.body + t && AllBreaks(t)
    decreases |l.brk|
  {
    var s := l.body + l.brk;
    if l.brk == "" {
      t := "";
      assert s == l.body;
      if s != "" { assert !IsBreak(l.body[|s| - 1]); }
    } else if s[|s| - 1] == '\r' || s[|s| - 1] == '\n' {
      var shorter := Line(l.body, l.brk[..|l.brk| - 1]);
      t := RStripKeepsBody(shorter);
      assert s[..|s| - 1] == shorter.body + shorter.brk;
    } else {
      t := l.brk;
    }
  }

  lemma {:induction false} RunLenExtends(s: string, t: string, i: nat, c: char)
    requires i <= |s| && (t != "" ==> t[0] != c)
    ensures RunLen(s + t, i, c) == RunLen(s, i, c)
    decreases |s| - i
  {
    if i < |s| && s[i] == c { RunLenExtends(s, t, i + 1, c); }
  }

  /** How a line acts on a fence. */
  predicate SameMarker(a: Option<Marker>, b: Option<Marker>) {
    && a.Some? == b.Some?
    && (a.Some? ==> a.value.c == b.value.c && a.value.len == b.value.len && Opens(a.value) == Opens(b.value)
                    && (Strip(a.value.info) == "" <==> Strip(b.value.info) == ""))
  }

  predicate AllBreaks(t: string) { forall i :: 0 <= i < |t| ==> IsBreak(t[i]) }

  lemma FirstBreak(t: string)
    requires AllBreaks(t) && t != ""
    ensures t[0] != ' ' && t[0] != '#' && !FenceChar(t[0])
  {}

  /** A line break character kept at the end of a line changes nothing about its fence. */
  lemma MarkerIgnoresBreaks(s: string, t: string)
    requires AllBreaks(t)
    ensures SameMarker(FenceMarker(s), FenceMarker(s + t))
  {
    hide AllBreaks, RunLen, MarkerAt;
    if t != "" { FirstBreak(t); }
    RunLenExtends(s, t, 0, ' ');
    var i := RunLen(s, 0, ' ');
    if i < |s| {
      assert (s + t)[i] == s[i];
      if FenceChar(s[i]) { MarkerAtIgnoresBreaks(s, t, i); }
    } else if t != "" {
      assert (s + t)[i] == t[0];
    }
  }

  lemma MarkerAtIgnoresBreaks(s: string, t: string, i: nat)
    requires AllBreaks(t) && i < |s| && FenceChar(s[i])
    ensures (s + t)[i] == s[i] && SameMarker(MarkerAt(s, i), MarkerAt(s + t, i))
  {
    hide AllBreaks, RunLen, SameMarker, Opens, Strip;
    if t != "" { FirstBreak(t); }
    RunLenExtends(s, t, i, s[i]);
    var n := RunLen(s, i, s[i]);
    DropConcat(s, t, i + n);
    InfoIgnoresBreaks(s[i], n, s[i + n..], t);
    NoMarkers();
  }

  lemma NoMarkers()
    ensures SameMarker(None, None)
  {}

  lemma DropConcat(s: string, t: string, k: nat)
    requires k <= |s|
    ensures (s + t)[k..] == s[k..] + t
  {}

  lemma InfoIgnoresBreaks(c: char, n: nat, info: string, t: string)
    requires AllBreaks(t)
    ensures SameMarker(Some(Marker(c, n, info)), Some(Marker(c, n, info + t)))
  {
    hide Strip, IsSpace;
    assert !IsBreak('`');
    assert '`' in info + t <==> '`' in info;
    NormaliseEmptyIffBlank(info);
    NormaliseEmptyIffBlank(info + t);
    forall i | 0 <= i < |t| ensures IsSpace(t[i]) { BreakIsSpace(t[i]); }
    if AllSpace(info + t) {
      forall i | 0 <= i < |info| ensures IsSpace(info[i]) { assert (info + t)[i] == info[i]; }
    }
  }

  lemma StepIgnoresBreaks(f: Fence, l: Line)
    requires ValidLine(l)
    ensures StepMarker(f, FenceMarker(RStripCRLF(l.body + l.brk))) == StepMarker(f, FenceMarker(l.body))
  {
    hide FenceMarker, RStripCRLF, Opens, Strip;
    var t := RStripKeepsBody(l);
    MarkerIgnoresBreaks(l.body, t);
  }

  /** `strip_fenced_blocks`: the text of exactly the plain lines. */
  method StripFencedBlocks(text: string) returns (r: string)
    ensures r == Concat(PlainLines(SplitLines(text), |SplitLines(text)|))
  {
    hide FenceMarker, SplitLines, ValidLine, Concat, RStripCRLF;
    var lines := SplitLines(text);
    SplitLinesValid(text);
    var out: seq<Line> := [];
    var inFence, fenceChar, fenceLen := false, '\0', 0;
    for i := 0 to |lines|
      invariant out == PlainLines(lines, i)
      invariant StateAt(lines, i) == if inFence then In(fenceChar, fenceLen) else Out
    {
      var line := lines[i];
      StepIgnoresBreaks(StateAt(lines, i), line);
      var m := FenceMarker(RStripCRLF(line.body + line.brk));
      if m.Some? {
        if !inFence {
          if m.value.c == '`' && '`' in m.value.info {
            out := out + [line];
          } else {
            inFence, fenceChar, fenceLen := true, m.value.c, m.value.len;
          }
        } else if m.value.c == fenceChar && m.value.len >= fenceLen && Strip(m.value.info) == "" {
          inFence, fenceChar, fenceLen := false, '\0', 0;
        }
      } else if !inFence {
        out := out + [line];
      }
    }
    r := Concat(out);
  }

  /** `_iter_non_fence_lines`. */
  method IterNonFenceLines(lines: seq<Line>) returns (yielded: seq<nat>)
    ensures yielded == PlainIndices(lines, |lines|)
  {
    hide FenceMarker, Strip;
    yielded := [];
    var inFence, fenceChar, fenceLen := false, '\0', 0;
    for i := 0 to |lines|
      invariant yielded == PlainIndices(lines, i)
      invariant StateAt(lines, i) == if inFence then In(fenceChar, fenceLen) else Out
    {
      var m := FenceMarker(lines[i].body);
      if m.Some? {
        if !inFence {
          if m.value.c == '`' && '`' in m.value.info {
            yielded := yielded + [i];
            continue;
          }
          inFence, fenceChar, fenceLen := true, m.value.c, m.value.len;
          continue;
        }
        if m.value.c == fenceChar && m.value.len >= fenceLen && Strip(m.value.info) == "" {
          inFence, fenceChar, fenceLen := false, '\0', 0;
        }
        continue;
      }
      if !inFence {
        yielded := yielded + [i];
      }
    }
  }

  // ---- stripping is idempotent ----

  /** A line that opens no fence. */
  predicate NoFence(body: string) { FenceMarker(body).None? || !Opens(FenceMarker(body).value) }

  lemma {:induction false} AllPlain(lines: seq<Line>, n: nat)
    requires n <= |lines| && forall i :: 0 <= i < |lines| ==> NoFence(lines[i].body)
    ensures StateAt(lines, n) == Out && PlainLines(lines, n) == lines[..n]
  {
    hide FenceMarker, Opens;
    if n == 0 {
    } else {
      AllPlain(lines, n - 1);
      assert lines[..n] == lines[..n - 1] + [lines[n - 1]];
    }
  }

  lemma {:induction false} PlainLinesOpenNothing(lines: seq<Line>, n: nat)
    requires n <= |lines|
    ensures forall i :: 0 <= i < |PlainLines(lines, n)| ==> NoFence(PlainLines(lines, n)[i].body)
  {
    hide FenceMarker, Opens;
    if n == 0 {
    } else {
      PlainLinesOpenNothing(lines, n - 1);
    }
  }

  /** Lines as `splitlines` cuts them; only the last may lack a break. */
  predicate WholeLine(l: Line) {
    ValidLine(l) && (|l.brk| == 1 || l.brk == "\r\n")
  }

  ghost predicate WholeLines(lines: seq<Line>) {
    forall i :: 0 <= i < |lines| ==>
      WholeLine(lines[i]) || (i == |lines| - 1 && ValidLine(lines[i]) && lines[i].brk == "" && lines[i].body != "")
  }

  lemma {:induction false} SplitLinesWhole(text: string)
    ensures WholeLines(SplitLines(text))
  {
    if text == "" {
    } else {
      FirstLineWhole(text);
      hide WholeLines, WholeLine, ValidLine, FirstLine;
      var l := FirstLine(text);
      var rest := text[|l.body| + |l.brk|..];
      SplitLinesWhole(rest);
      WholeCons(l, SplitLines(rest));
    }
  }

  lemma WholeCons(l: Line, rest: seq<Line>)
    requires WholeLine(l) || (ValidLine(l) && l.brk == "" && l.body != "" && rest == [])
    requires WholeLines(rest)
    ensures WholeLines([l] + rest)
  {
    hide WholeLine, ValidLine;
  }

  lemma FirstLineWhole(text: string)
    requires text != ""
    ensures var l := FirstLine(text); WholeLine(l) || (ValidLine(l) && l.brk == "" && l.body == text)
  {}

  lemma {:induction false} PlainLinesWhole(lines: seq<Line>, n: nat)
    requires n <= |lines| && WholeLines(lines)
    ensures WholeLines(PlainLines(lines, n))
    ensures n < |lines| ==> forall i :: 0 <= i < |PlainLines(lines, n)| ==> WholeLine(PlainLines(lines, n)[i])
  {
    hide KindAt, WholeLine, ValidLine;
    if n == 0 {
    } else {
      PlainLinesWhole(lines, n - 1);
    }
  }

  /** The first line of whole lines glued together: the first of them, unless a "\r" meets the
      "\n" of an empty line. */
  lemma FirstLineOf(lines: seq<Line>)
    requires lines != [] && WholeLines(lines)
    ensures Concat(lines) != ""
    ensures var l := FirstLine(Concat(lines));
            && l.body == lines[0].body
            && var k := if lines[0].brk == "\r" && |lines| > 1 && lines[1] == Line("", "\n") then 2 else 1;
               Concat(lines)[|l.body| + |l.brk|..] == Concat(lines[k..])
  {
    hide *;
    FirstBody(lines);
    WholeTail(lines);
    StartsWithNewline(lines[1..]);
    FirstLineIs(Concat(lines), lines[0], Concat(lines[1..]));
    assert |lines| > 1 ==> lines[1..][1..] == lines[2..];
  }

  lemma WholeTail(lines: seq<Line>)
    requires lines != [] && WholeLines(lines)
    ensures WholeLines(lines[1..])
  {
    hide WholeLine, ValidLine;
  }

  lemma FirstBody(lines: seq<Line>)
    requires lines != [] && WholeLines(lines)
    ensures Concat(lines) == lines[0].body + (lines[0].brk + Concat(lines[1..])) && Concat(lines) != ""
    ensures BodyLen(Concat(lines)) == |lines[0].body|
    ensures WholeLine(lines[0]) || (lines[0].brk == "" && Concat(lines[1..]) == "")
  {
    var l0, tail := lines[0], Concat(lines[1..]);
    assert Concat(lines) == l0.body + (l0.brk + tail);
    if l0.brk == "" { assert tail == ""; }
    hide IsBreak, BodyLen, Concat;
    BodyLenOf(l0.body, l0.brk + tail);
  }

  lemma FirstLineIs(text: string, l0: Line, tail: string)
    requires text == l0.body + (l0.brk + tail) && BodyLen(text) == |l0.body| && text != ""
    requires WholeLine(l0) || (l0.brk == "" && tail == "")
    ensures var l := FirstLine(text);
            l.body == l0.body
            && text[|l.body| + |l.brk|..] == if l0.brk == "\r" && tail != "" && tail[0] == '\n' then tail[1..] else tail
  {
    hide ValidLine;
    var n := |l0.body|;
    assert text[..n] == l0.body && text[n..] == l0.brk + tail;
    if l0.brk != "" {
      assert text[n] == l0.brk[0];
      assert |l0.brk| == 1 && tail != "" ==> text[n + 1] == tail[0];
      assert |l0.brk| == 2 ==> text[n + 1] == l0.brk[1];
    }
  }

  lemma StartsWithNewline(lines: seq<Line>)
    requires WholeLines(lines)
    ensures var text := Concat(lines);
            && (text != "" && text[0] == '\n' <==> lines != [] && lines[0] == Line("", "\n"))
            && (text != "" && text[0] == '\n' ==> text[1..] == Concat(lines[1..]))
  {
    if lines != [] {
      var l := lines[0];
      if l.body != "" { assert !IsBreak(l.body[0]); }
    }
  }

  lemma {:induction false} BodyLenOf(body: string, rest: string)
    requires (forall i :: 0 <= i < |body| ==> !IsBreak(body[i])) && (rest != "" ==> IsBreak(rest[0]))
    ensures BodyLen(body + rest) == |body|
  {
    hide IsBreak;
    if body != "" {
      assert (body + rest)[1..] == body[1..] + rest;
      BodyLenOf(body[1..], rest);
    } else {
      assert body + rest == rest;
    }
  }

  /** Splitting glued lines again gives lines with the same contents. */
  lemma {:induction false} ResplitBodies(lines: seq<Line>)
    requires WholeLines(lines) && forall i :: 0 <= i < |lines| ==> NoFence(lines[i].body)
    ensures forall i :: 0 <= i < |SplitLines(Concat(lines))| ==> NoFence(SplitLines(Concat(lines))[i].body)
    decreases |lines|
  {
    hide NoFence, WholeLine, ValidLine, FirstLine;
    if lines == [] {
    } else {
      FirstLineOf(lines);
      var l := FirstLine(Concat(lines));
      var k := if lines[0].brk == "\r" && |lines| > 1 && lines[1] == Line("", "\n") then 2 else 1;
      ResplitBodies(lines[k..]);
      assert SplitLines(Concat(lines)) == [l] + SplitLines(Concat(lines[k..]));
    }
  }

  /** Text with its fenced blocks removed. */
  function Stripped(text: string): string { Concat(PlainLines(SplitLines(text), |SplitLines(text)|)) }

  /** Removing fenced blocks twice removes nothing more, for every text. */
  lemma StripIdempotent(text: string)
    ensures Stripped(Stripped(text)) == Stripped(text)
  {
    var lines := SplitLines(text);
    var kept := PlainLines(lines, |lines|);
    SplitLinesWhole(text);
    PlainLinesWhole(lines, |lines|);
    PlainLinesOpenNothing(lines, |lines|);
    hide *;
    StrippedIs(text);
    ResplitBodies(kept);
    var again := SplitLines(Concat(kept));
    AllPlain(again, |again|);
    assert again[..|again|] == again;
    SplitLinesValid(Concat(kept));
    StrippedIs(Concat(kept));
  }

  lemma StrippedIs(text: string)
    ensures Stripped(text) == Concat(PlainLines(SplitLines(text), |SplitLines(text)|))
  {}

  // ---- headings and the block after one ----

  /** Line i is a real heading with this title: outside every fence. */
  predicate IsHeading(lines: seq<Line>, heading: string, i: nat)
    requires i < |lines|
  {
    KindAt(lines, i) == Plain && AtxHeading(lines[i].body).Some? && AtxHeading(lines[i].body).value.title == heading
  }

  ghost predicate HasHeading(lines: seq<Line>, heading: string) {
    exists i: nat :: i < |lines| && IsHeading(lines, heading, i)
  }

  lemma HeadingFound(lines: seq<Line>, heading: string, i: nat)
    requires i < |lines| && IsHeading(lines, heading, i)
    ensures HasHeading(lines, heading)
  {
    hide IsHeading;
  }

  /** Headings are sought among the plain lines only, and that is enough. */
  lemma NoHeading(lines: seq<Line>, heading: string)
    requires forall k :: 0 <= k < |PlainIndices(lines, |lines|)| && PlainIndices(lines, |lines|)[k] < |lines| ==>
               !IsHeading(lines, heading, PlainIndices(lines, |lines|)[k])
    ensures !HasHeading(lines, heading)
  {
    hide KindAt, AtxHeading;
    PlainIndicesExact(lines, |lines|);
    forall i: nat | i < |lines| ensures !IsHeading(lines, heading, i) {
      if KindAt(lines, i) == Plain {
        assert i in PlainIndices(lines, |lines|);
      }
    }
  }

  /** `heading_present`. */
  method HeadingPresent(text: string, heading: string) returns (found: bool)
    ensures found <==> HasHeading(SplitLines(text), heading)
  {
    hide KindAt, AtxHeading, SplitLines, HasHeading;
    var lines := SplitLines(text);
    var idx := IterNonFenceLines(lines);
    PlainIndicesExact(lines, |lines|);
    for k := 0 to |idx|
      invariant forall j :: 0 <= j < k ==> !IsHeading(lines, heading, idx[j])
    {
      var h := AtxHeading(lines[idx[k]].body);
      if h.Some? && h.value.title == heading {
        assert idx[k] in idx;
        HeadingFound(lines, heading, idx[k]);
        return true;
      }
    }
    NoHeading(lines, heading);
    found := false;
  }

  datatype Block = Block(content: string, line: nat, info: Option<string>)

  /** h is the first real heading with this title. */
  ghost predicate IsSection(lines: seq<Line>, heading: string, h: nat) {
    h < |lines| && IsHeading(lines, heading, h) && forall i: nat :: i < h ==> !IsHeading(lines, heading, i)
  }

  /** A real heading at the section's level or above ends it. */
  predicate EndsSection(lines: seq<Line>, level: nat, i: nat)
    requires i < |lines|
  {
    KindAt(lines, i) == Plain && AtxHeading(lines[i].body).Some? && AtxHeading(lines[i].body).value.level <= level
  }

  /** j opens the first block after h, inside its section. */
  ghost predicate IsFirstBlock(lines: seq<Line>, h: nat, level: nat, j: nat) {
    && h < j < |lines| && KindAt(lines, j) == Open
    && forall i: nat :: h < i < j ==> KindAt(lines, i) == Plain && !EndsSection(lines, level, i)
  }

  /** The block opened at j has its content up to e: its closing fence, or the end of the text. */
  ghost predicate IsBlockEnd(lines: seq<Line>, j: nat, e: nat) {
    && j < e <= |lines|
    && (forall i: nat :: j < i < e ==> KindAt(lines, i) == Body)
    && (e < |lines| ==> KindAt(lines, e) == Close)
  }

  /** What the opening fence on a line says. */
  function InfoOf(line: Line): Option<string> {
    var m := FenceMarker(line.body);
    if m.None? || Strip(m.value.info) == "" then None else Some(Strip(m.value.info))
  }

  function LevelAt(lines: seq<Line>, h: nat): nat
    requires h < |lines|
  {
    var a := AtxHeading(lines[h].body);
    if a.Some? then a.value.level else 0
  }

  ghost predicate IsBlock(lines: seq<Line>, heading: string, h: nat, j: nat, e: nat, b: Block) {
    && IsSection(lines, heading, h) && IsFirstBlock(lines, h, LevelAt(lines, h), j) && IsBlockEnd(lines, j, e)
    && b == Block(JoinBodies(lines[j + 1..e]), j + 1, InfoOf(lines[j]))
  }

  /** The heading, the opening fence and the end are decided by the text. */
  lemma OneBlock(lines: seq<Line>, heading: string, h: nat, j: nat, e: nat, b: Block, h': nat, j': nat, e': nat,
                 b': Block)
    requires IsBlock(lines, heading, h, j, e, b) && IsBlock(lines, heading, h', j', e', b')
    ensures h == h' && j == j' && e == e' && b == b'
  {
    hide IsHeading, KindAt, AtxHeading, InfoOf, JoinBodies;
    assert h == h';
    assert j == j';
  }

  /** The scan of `find_first_fenced_block_after_heading` for its heading. */
  method FindHeading(lines: seq<Line>, heading: string) returns (h: Option<nat>)
    ensures h.Some? ==> IsSection(lines, heading, h.value)
    ensures h.None? ==> forall i: nat :: i < |lines| ==> !IsHeading(lines, heading, i)
  {
    hide KindAt, AtxHeading;
    var idx := IterNonFenceLines(lines);
    PlainIndicesExact(lines, |lines|);
    for k := 0 to |idx|
      invariant forall j :: 0 <= j < k ==> !IsHeading(lines, heading, idx[j])
    {
      var a := AtxHeading(lines[idx[k]].body);
      if a.Some? && a.value.title == heading {
        forall i: nat | i < idx[k] ensures !IsHeading(lines, heading, i) {
          if KindAt(lines, i) == Plain { assert i in idx; }
        }
        return Some(idx[k]);
      }
    }
    forall i: nat | i < |lines| ensures !IsHeading(lines, heading, i) {
      if KindAt(lines, i) == Plain { assert i in idx; }
    }
    h := None;
  }

  lemma StateStep(lines: seq<Line>, i: nat)
    requires i < |lines|
    ensures var s := StepMarker(StateAt(lines, i), FenceMarker(lines[i].body));
            StateAt(lines, i + 1) == s.0 && KindAt(lines, i) == s.1
  {}

  lemma PlainIsOut(lines: seq<Line>, h: nat)
    requires h < |lines| && KindAt(lines, h) == Plain
    ensures StateAt(lines, h + 1) == Out
  {}

  lemma HeadingIsNoFence(line: string)
    requires AtxHeading(line).Some?
    ensures FenceMarker(line).None?
  {}

  /** No block opens inside the section before line n. */
  ghost predicate OpenSection(lines: seq<Line>, h: nat, level: nat, n: nat) {
    n <= |lines| && forall i: nat :: h < i < n ==> KindAt(lines, i) == Plain && !EndsSection(lines, level, i)
  }

  lemma SameSection(lines: seq<Line>, heading: string, h: nat, h': nat)
    requires IsSection(lines, heading, h)
    ensures IsSection(lines, heading, h') ==> h == h'
  {}

  lemma NoBlock(lines: seq<Line>, heading: string, h: nat, n: nat)
    requires IsSection(lines, heading, h) && OpenSection(lines, h, LevelAt(lines, h), n)
    requires h < n && (n == |lines| || EndsSection(lines, LevelAt(lines, h), n))
    ensures forall h', j', e', b' :: !IsBlock(lines, heading, h', j', e', b')
  {
    hide AtxHeading;
    forall h', j', e', b' ensures !IsBlock(lines, heading, h', j', e', b') {
      SameSection(lines, heading, h, h');
    }
  }

  /** `find_first_fenced_block_after_heading`: exactly the block the fold opens first inside
      the section of the first such heading, or nothing when there is none. */
  method FindFirstFencedBlockAfterHeading(text: string, heading: string)
    returns (r: Option<Block>, ghost h: nat, ghost j: nat, ghost e: nat)
    ensures r.Some? ==> IsBlock(SplitLines(text), heading, h, j, e, r.value)
    ensures r.None? ==> forall h', j', e', b' :: !IsBlock(SplitLines(text), heading, h', j', e', b')
  {
    hide AtxHeading, FenceMarker, SplitLines, Strip, JoinBodies, StateAt, KindAt;
    var lines := SplitLines(text);
    h, j, e := 0, 0, 0;
    var found := FindHeading(lines, heading);
    if found.None? {
      return None, h, j, e;
    }
    h := found.value;
    var level := AtxHeading(lines[found.value].body).value.level;
    PlainIsOut(lines, h);
    var inFence, fenceChar, fenceLen := false, '\0', 0;
    var start: nat, info: Option<string> := 0, None;
    var body: seq<Line> := [];
    for i := found.value + 1 to |lines|
      invariant StateAt(lines, i) == if inFence then In(fenceChar, fenceLen) else Out
      invariant !inFence ==> OpenSection(lines, h, level, i)
      invariant inFence ==> start < i && IsFirstBlock(lines, h, level, start) && info == InfoOf(lines[start])
      invariant inFence ==> body == lines[start + 1..i] && forall k: nat :: start < k < i ==> KindAt(lines, k) == Body
    {
      var raw := lines[i];
      StateStep(lines, i);
      var m := FenceMarker(raw.body);
      if !inFence {
        var a := AtxHeading(raw.body);
        if a.Some? && a.value.level <= level {
          HeadingIsNoFence(raw.body);
          NoBlock(lines, heading, h, i);
          return None, h, j, e;
        }
        if m.Some? {
          if m.value.c == '`' && '`' in m.value.info {
            continue;
          }
          inFence, fenceChar, fenceLen := true, m.value.c, m.value.len;
          start, body := i, [];
          info := if Strip(m.value.info) == "" then None else Some(Strip(m.value.info));
        }
        continue;
      }
      if m.Some? && m.value.c == fenceChar && m.value.len >= fenceLen && Strip(m.value.info) == "" {
        j, e := start, i;
        return Some(Block(JoinBodies(body), start + 1, info)), h, j, e;
      }
      assert lines[start + 1..i + 1] == lines[start + 1..i] + [raw];
      body := body + [raw];
    }
    if inFence {
      j, e := start, |lines|;
      return Some(Block(JoinBodies(body), start + 1, info)), h, j, e;
    }
    NoBlock(lines, heading, h, |lines|);
    r := None;
  }

  // ---- what the patterns read ----

  function Repeat(c: char, n: nat): (r: string)
    ensures |r| == n && forall i :: 0 <= i < n ==> r[i] == c
  {
    seq(n, _ => c)
  }

  lemma {:induction false} RunLenIs(s: string, i: nat, n: nat, c: char)
    requires i + n <= |s| && (forall k :: i <= k < i + n ==> s[k] == c) && (i + n < |s| ==> s[i + n] != c)
    ensures RunLen(s, i, c) == n
    decreases n
  {
    if n == 0 {
    } else {
      RunLenIs(s, i + 1, n - 1, c);
    }
  }

  /** A run is what its length says. */
  lemma RunIff(s: string, c: char, n: nat, rest: string)
    requires rest != "" ==> rest[0] != c
    ensures s == Repeat(c, n) + rest <==> RunLen(s, 0, c) == n && rest == s[n..]
  {
    var k := RunLen(s, 0, c);
    assert s[..k] == Repeat(c, k) && s == s[..k] + s[k..];
    if s == Repeat(c, n) + rest { RunLenIs(s, 0, n, c); }
  }

  lemma {:induction false} RunLenFrom(s: string, i: nat, k: nat, c: char)
    requires i <= k <= |s|
    ensures RunLen(s, k, c) == RunLen(s[i..], k - i, c)
    decreases |s| - k
  {
    if k < |s| && s[k] == c { RunLenFrom(s, i, k + 1, c); }
  }

  /** The line is at most three blanks, three or more of one fence character, and the rest. */
  ghost predicate IsFence(line: string, indent: nat, m: Marker) {
    && indent <= 3 && (m.c == '`' || m.c == '~') && m.len >= 3 && (m.info != "" ==> m.info[0] != m.c)
    && line == Repeat(' ', indent) + (Repeat(m.c, m.len) + m.info)
  }

  lemma FenceTaken(line: string, m: Marker) returns (indent: nat)
    requires FenceMarker(line) == Some(m)
    ensures IsFence(line, indent, m)
  {
    hide RunLen;
    indent := RunLen(line, 0, ' ');
    var body := line[indent..];
    RunIff(line, ' ', indent, body);
    RunLenFrom(line, indent, indent, m.c);
    assert body[m.len..] == line[indent + m.len..];
    RunIff(body, m.c, m.len, m.info);
  }

  lemma FenceRead(line: string, m: Marker, indent: nat)
    requires IsFence(line, indent, m)
    ensures FenceMarker(line) == Some(m)
  {
    hide RunLen;
    var body := Repeat(m.c, m.len) + m.info;
    assert body[0] == m.c;
    RunIff(line, ' ', indent, body);
    RunIff(body, m.c, m.len, m.info);
    assert line[indent..] == body;
    RunLenFrom(line, indent, indent, m.c);
    assert line[indent] == m.c && line[indent + m.len..] == body[m.len..];
  }

  /** `FENCE_START_RE` matches exactly these lines, and reads the run and the info string off them. */
  lemma FenceIff(line: string, m: Marker)
    ensures FenceMarker(line) == Some(m) <==> exists indent :: IsFence(line, indent, m)
  {
    if FenceMarker(line) == Some(m) { var indent := FenceTaken(line, m); }
    if indent: nat :| IsFence(line, indent, m) { FenceRead(line, m, indent); }
  }

  ghost predicate OpensHere(line: string, m: Marker) {
    (exists indent :: IsFence(line, indent, m)) && (m.c == '`' ==> '`' !in m.info)
  }

  ghost predicate ClosesHere(line: string, c: char, len: nat, m: Marker) {
    (exists indent :: IsFence(line, indent, m)) && m.c == c && m.len >= len && AllSpace(m.info)
  }

  lemma OpensIff(line: string, m: Marker)
    ensures OpensHere(line, m) <==> FenceMarker(line) == Some(m) && Opens(m)
  {
    FenceIff(line, m);
    hide FenceMarker, IsFence;
  }

  lemma ClosesIff(line: string, c: char, len: nat, m: Marker)
    ensures ClosesHere(line, c, len, m) <==> FenceMarker(line) == Some(m) && Closes(m, c, len)
  {
    FenceIff(line, m);
    NormaliseEmptyIffBlank(m.info);
    hide FenceMarker, IsFence, Strip, AllSpace;
  }

  /** What a line is, and the fence after it: outside, it opens a fence or is plain; inside, it closes a
      fence of the same character that is no longer, or belongs to the block. */
  lemma KindMeaning(lines: seq<Line>, i: nat)
    requires i < |lines|
    ensures var line := lines[i].body;
            match StateAt(lines, i)
            case Out =>
              && (KindAt(lines, i) == Open <==> exists m :: OpensHere(line, m))
              && (KindAt(lines, i) == Open || (KindAt(lines, i) == Plain && StateAt(lines, i + 1) == Out))
              && forall m :: OpensHere(line, m) ==> StateAt(lines, i + 1) == In(m.c, m.len)
            case In(c, len) =>
              && (KindAt(lines, i) == Close <==> exists m :: ClosesHere(line, c, len, m))
              && (if KindAt(lines, i) == Close then StateAt(lines, i + 1) == Out
                  else KindAt(lines, i) == Body && StateAt(lines, i + 1) == In(c, len))
  {
    hide FenceMarker, OpensHere, ClosesHere, Opens, Closes;
    var line := lines[i].body;
    if FenceMarker(line).Some? {
      var m := FenceMarker(line).value;
      OpensIff(line, m);
      if StateAt(lines, i).In? { ClosesIff(line, StateAt(lines, i).c, StateAt(lines, i).len, m); }
    }
    forall m ensures OpensHere(line, m) <==> FenceMarker(line) == Some(m) && Opens(m) { OpensIff(line, m); }
    forall m, c, len ensures ClosesHere(line, c, len, m) <==> FenceMarker(line) == Some(m) && Closes(m, c, len) {
      ClosesIff(line, c, len, m);
    }
  }

  predicate AllBlank(s: string) { forall i :: 0 <= i < |s| ==> Blank(s[i]) }

  lemma BlankFirst(pre: string, t: string)
    requires AllBlank(pre) && pre != ""
    ensures Blank((pre + t)[0])
  {}

  lemma {:induction false} SkipRead(pre: string, t: string)
    requires AllBlank(pre) && (t != "" ==> !Blank(t[0]))
    ensures SkipBlanks(pre + t) == t
  {
    if pre == "" {
      assert pre + t == t;
    } else {
      assert (pre + t)[1..] == pre[1..] + t;
      SkipRead(pre[1..], t);
    }
  }

  lemma {:induction false} SkipTaken(s: string) returns (pre: string)
    ensures AllBlank(pre) && s == pre + SkipBlanks(s) && (SkipBlanks(s) != "" ==> !Blank(SkipBlanks(s)[0]))
  {
    if s != "" && Blank(s[0]) {
      var rest := SkipTaken(s[1..]);
      pre := [s[0]] + rest;
    } else {
      pre := "";
    }
  }

  /** A closing sequence: blanks, hashes, blanks. */
  ghost predicate IsClosing(s: string, pre: string, n: nat, post: string) {
    AllBlank(pre) && AllBlank(post) && pre != "" && n > 0 && s == pre + (Repeat('#', n) + post)
  }

  lemma ClosingTaken(s: string)
    requires s != "" && Closing(s)
    ensures exists pre, n, post :: IsClosing(s, pre, n, post)
  {
    hide RunLen;
    var t := SkipBlanks(s);
    var pre := SkipTaken(s);
    var n := RunLen(t, 0, '#');
    RunIff(t, '#', n, t[n..]);
    var post := SkipTaken(t[n..]);
    assert t[n..] == post;
    assert pre == "" ==> s == t;
    assert IsClosing(s, pre, n, post);
  }

  lemma ClosingRead(s: string, pre: string, n: nat, post: string)
    requires IsClosing(s, pre, n, post)
    ensures Closing(s)
  {
    hide RunLen, SkipBlanks;
    var rest := Repeat('#', n) + post;
    assert rest[0] == '#' && s[0] == pre[0];
    SkipRead(pre, rest);
    RunIff(rest, '#', n, post);
    assert post == post + "";
    SkipRead(post, "");
  }

  ghost predicate IsTail(s: string) { s == "" || exists pre, n, post :: IsClosing(s, pre, n, post) }

  lemma ClosingIff(s: string)
    ensures Closing(s) <==> IsTail(s)
  {
    if s != "" && Closing(s) { ClosingTaken(s); }
    if pre, n: nat, post :| IsClosing(s, pre, n, post) { ClosingRead(s, pre, n, post); }
  }

  /** The line is at most three blanks, one to six hashes, blanks, a title, and nothing or a closing
      sequence, and no shorter title would leave one; the heading has the title stripped. */
  ghost predicate IsAtxLine(line: string, indent: nat, h: Heading, gap: string, title: string, tail: string) {
    && indent <= 3 && 1 <= h.level <= 6 && AllBlank(gap) && gap != ""
    && line == Repeat(' ', indent) + (Repeat('#', h.level) + (gap + (title + tail)))
    && (title + tail != "" ==> !Blank((title + tail)[0]))
    && IsTail(tail) && (forall k :: 0 <= k < |title| ==> !IsTail((title + tail)[k..]))
    && h.title == Strip(title)
  }

  /** `_ATX_HEADING_RE` matches exactly these lines. */
  lemma AtxIff(line: string, h: Heading)
    ensures AtxHeading(line) == Some(h)
        <==> exists indent, gap, title, tail :: IsAtxLine(line, indent, h, gap, title, tail)
  {
    if AtxHeading(line) == Some(h) {
      var indent, gap, title, tail := AtxTaken(line, h);
    }
    if indent: nat, gap, title, tail :| IsAtxLine(line, indent, h, gap, title, tail) {
      AtxRead(line, indent, h, gap, title, tail);
    }
  }

  lemma AtxTaken(line: string, h: Heading) returns (indent: nat, gap: string, title: string, tail: string)
    requires AtxHeading(line) == Some(h)
    ensures IsAtxLine(line, indent, h, gap, title, tail)
  {
    var n;
    indent, n := HashesTaken(line, h);
    hide *;
    var after := line[indent + n..];
    gap := SkipTaken(after);
    var rest := SkipBlanks(after);
    GapNotEmpty(after, gap, rest);
    var k := TitleLen(rest);
    TitleShortest(rest);
    title, tail := rest[..k], rest[k..];
    AtxBuilt(line, indent, h, gap, rest, k);
  }

  lemma GapNotEmpty(after: string, gap: string, rest: string)
    requires after != "" && Blank(after[0]) && after == gap + rest && (rest != "" ==> !Blank(rest[0]))
    ensures gap != ""
  {
    assert gap == "" ==> after == rest;
  }

  lemma AtxBuilt(line: string, indent: nat, h: Heading, gap: string, rest: string, k: nat)
    requires indent <= 3 && 1 <= h.level <= 6 && AllBlank(gap) && gap != "" && k <= |rest|
    requires line == Repeat(' ', indent) + (Repeat('#', h.level) + (gap + rest))
    requires (rest != "" ==> !Blank(rest[0])) && h.title == Strip(rest[..k])
    requires IsTail(rest[k..]) && forall m :: 0 <= m < k ==> !IsTail(rest[m..])
    ensures IsAtxLine(line, indent, h, gap, rest[..k], rest[k..])
  {
    hide IsTail, Strip, AllBlank;
    assert rest[..k] + rest[k..] == rest;
  }

  lemma HashesTaken(line: string, h: Heading) returns (indent: nat, n: nat)
    requires AtxHeading(line) == Some(h)
    ensures indent <= 3 && 1 <= n <= 6 && n == h.level && indent + n < |line| && Blank(line[indent + n])
    ensures line == Repeat(' ', indent) + (Repeat('#', n) + line[indent + n..])
    ensures var rest := SkipBlanks(line[indent + n..]); h.title == Strip(rest[..TitleLen(rest)])
  {
    hide RunLen, Strip, TitleLen, SkipBlanks;
    indent, n := RunLen(line, 0, ' '), h.level;
    var body := line[indent..];
    RunIff(line, ' ', indent, body);
    RunLenFrom(line, indent, indent, '#');
    assert body[n..] == line[indent + n..];
    RunIff(body, '#', n, body[n..]);
  }

  lemma TitleShortest(rest: string)
    ensures var k := TitleLen(rest); IsTail(rest[k..]) && forall m :: 0 <= m < k ==> !IsTail(rest[m..])
  {
    hide IsTail, Closing;
    var k := TitleLen(rest);
    ClosingIff(rest[k..]);
    forall m | 0 <= m < k ensures !IsTail(rest[m..]) { ClosingIff(rest[m..]); }
  }

  lemma AtxRead(line: string, indent: nat, h: Heading, gap: string, title: string, tail: string)
    requires IsAtxLine(line, indent, h, gap, title, tail)
    ensures AtxHeading(line) == Some(h)
  {
    hide Strip, IsTail, Closing, TitleLen, RunLen, SkipBlanks, AllBlank;
    var rest := title + tail;
    var after := gap + rest;
    assert rest[|title|..] == tail && rest[..|title|] == title;
    TitleIs(rest, |title|);
    BlankFirst(gap, rest);
    SkipRead(gap, rest);
    HashesRead(line, indent, h.level, after);
    assert line[indent + h.level] == after[0];
  }

  lemma HashesRead(line: string, indent: nat, level: nat, after: string)
    requires level >= 1 && line == Repeat(' ', indent) + (Repeat('#', level) + after) && after != "" && after[0] != '#'
    ensures RunLen(line, 0, ' ') == indent && indent + level < |line|
    ensures RunLen(line, indent, '#') == level && line[indent + level..] == after
  {
    hide RunLen;
    var body := Repeat('#', level) + after;
    assert body[0] == '#';
    RunIff(line, ' ', indent, body);
    RunIff(body, '#', level, after);
    assert line[indent..] == body;
    RunLenFrom(line, indent, indent, '#');
  }

  lemma TitleIs(rest: string, k: nat)
    requires k <= |rest| && IsTail(rest[k..]) && forall m :: 0 <= m < k ==> !IsTail(rest[m..])
    ensures TitleLen(rest) == k
  {
    TitleShortest(rest);
    hide IsTail, TitleLen;
  }

  /** A heading written with n hashes, a blank and a trimmed title reads back exactly when no
      tail of the title is a closing sequence. */
  lemma HeadingReadsBack(n: nat, title: string)
    requires 1 <= n <= 6 && Trimmed(title)
    ensures AtxHeading(Repeat('#', n) + " " + title) == Some(Heading(n, title))
       <==> forall k :: 0 <= k < |title| ==> !Closing(title[k..])
  {
    hide Closing, IsSpace, TitleLen, Strip, SkipBlanks, RunLen, Trimmed;
    var line := Repeat('#', n) + " " + title;
    RunLenIs(line, 0, 0, ' ');
    RunLenIs(line, 0, n, '#');
    assert line[n..] == " " + title;
    FirstNotBlank(title);
    TitleReads(title);
  }

  lemma FirstNotBlank(title: string)
    requires Trimmed(title)
    ensures SkipBlanks(" " + title) == title
  {
    assert title == "" || !Blank(title[0]);
    assert (" " + title)[1..] == title;
  }

  lemma TitleReads(title: string)
    requires Trimmed(title)
    ensures Strip(title[..TitleLen(title)]) == title <==> forall k :: 0 <= k < |title| ==> !Closing(title[k..])
  {
    StripTrimmed(title);
    StripShorter(title[..TitleLen(title)]);
    hide Closing, Strip, Trimmed;
    var n := TitleLen(title);
    if n == |title| {
      assert title[..n] == title;
    } else {
      assert Closing(title[n..]);
    }
  }

  lemma StripTrimmed(s: string)
    requires Trimmed(s)
    ensures Strip(s) == s
  {
    hide IsSpace;
    assert "" + s + "" == s;
    if s == "" { StripAllSpace(s); } else { StripOf("", s, ""); }
  }

  lemma StripShorter(s: string)
    ensures |Strip(s)| <= |s|
  {
    hide IsSpace;
    var i, j := StripSplit(s);
  }

  // ---- inserting a fenced block ----

  /** An opening fence, lines that do not close it, and one that does. */
  predicate IsFencedBlock(block: seq<Line>) {
    && |block| >= 2 && FenceMarker(block[0].body).Some? && Opens(FenceMarker(block[0].body).value)
    && var m := FenceMarker(block[0].body).value;
       && (forall i :: 0 < i < |block| - 1 ==> !ClosedBy(block[i].body, m))
       && ClosedBy(block[|block| - 1].body, m)
  }

  predicate ClosedBy(line: string, m: Marker) { FenceMarker(line).Some? && Closes(FenceMarker(line).value, m.c, m.len) }

  lemma {:induction false} FoldPrefix(x: seq<Line>, y: seq<Line>, n: nat)
    requires n <= |x|
    ensures StateAt(x + y, n) == StateAt(x, n) && PlainLines(x + y, n) == PlainLines(x, n)
  {
    hide FenceMarker, StepMarker;
    if n == 0 {
    } else {
      FoldPrefix(x, y, n - 1);
    }
  }

  /** After text that ends outside a fence the fold starts afresh. */
  lemma {:induction false} FoldConcat(x: seq<Line>, y: seq<Line>, n: nat)
    requires n <= |y| && StateAt(x, |x|) == Out
    ensures StateAt(x + y, |x| + n) == StateAt(y, n)
    ensures PlainLines(x + y, |x| + n) == PlainLines(x, |x|) + PlainLines(y, n)
  {
    hide FenceMarker, StepMarker;
    if n == 0 {
      FoldPrefix(x, y, |x|);
    } else {
      FoldConcat(x, y, n - 1);
      assert (x + y)[|x| + n - 1] == y[n - 1];
    }
  }

  lemma {:induction false} BlockFold(block: seq<Line>, n: nat)
    requires IsFencedBlock(block) && 0 < n <= |block|
    ensures PlainLines(block, n) == []
    ensures StateAt(block, n)
         == if n == |block| then Out else In(FenceMarker(block[0].body).value.c, FenceMarker(block[0].body).value.len)
  {
    hide FenceMarker, Closes, Opens;
    if n > 1 {
      BlockFold(block, n - 1);
    } else {
      assert StateAt(block, 0) == Out;
    }
  }

  function KeptLines(lines: seq<Line>): seq<Line> { PlainLines(lines, |lines|) }

  function EndState(lines: seq<Line>): Fence { StateAt(lines, |lines|) }

  lemma KeptConcat(x: seq<Line>, y: seq<Line>)
    requires EndState(x) == Out
    ensures KeptLines(x + y) == KeptLines(x) + KeptLines(y) && EndState(x + y) == EndState(y)
  {
    FoldConcat(x, y, |y|);
  }

  lemma BlockEnds(block: seq<Line>)
    requires IsFencedBlock(block)
    ensures KeptLines(block) == [] && EndState(block) == Out
  {
    BlockFold(block, |block|);
  }

  /** A fenced block inserted anywhere outside fences leaves no trace. */
  lemma FencedBlockVanishes(before: seq<Line>, block: seq<Line>, after: seq<Line>)
    requires EndState(before) == Out && IsFencedBlock(block)
    ensures KeptLines(before + block + after) == KeptLines(before + after) == KeptLines(before) + KeptLines(after)
  {
    hide *;
    BlockEnds(block);
    KeptConcat(before, block);
    KeptConcat(before + block, after);
    KeptConcat(before, after);
  }
}
