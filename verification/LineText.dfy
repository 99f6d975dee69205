/** `str.splitlines`, keeping the breaks. */
module LineText {
  import opened Text

  /** The characters `str.splitlines` breaks at. */
  predicate IsBreak(c: char) {
    var n := c as int;
    10 <= n <= 13 || 28 <= n <= 30 || n == 0x85 || n == 0x2028 || n == 0x2029
  }

  /** The line breaks, one by one. */
  lemma BreakTable(c: char)
    ensures IsBreak(c) <==> c in "\n\U{B}\U{C}\r\U{1C}\U{1D}\U{1E}\U{85}\U{2028}\U{2029}"
  {}

  lemma BreakIsSpace(c: char)
    requires IsBreak(c)
    ensures IsSpace(c)
  {}

  /** One line: its text and the break that ends it, empty at the end of the text. */
  datatype Line = Line(body: string, brk: string)

  predicate ValidLine(l: Line) {
    && (forall i :: 0 <= i < |l.body| ==> !IsBreak(l.body[i]))
    && (forall i :: 0 <= i < |l.brk| ==> IsBreak(l.brk[i]))
  }

  function BodyLen(text: string): (n: nat)
    ensures n <= |text| && (n < |text| ==> IsBreak(text[n]))
    ensures forall i :: 0 <= i < n ==> !IsBreak(text[i])
  {
    if text == "" || IsBreak(text[0]) then 0 else 1 + BodyLen(text[1..])
  }

  /** The break at a position: CR LF counts as one. */
  function BreakLen(text: string, i: nat): (n: nat)
    requires i <= |text| && (i < |text| ==> IsBreak(text[i]))
    ensures i + n <= |text| && (i < |text| ==> 0 < n)
    ensures forall k :: i <= k < i + n ==> IsBreak(text[k])
  {
    if i == |text| then 0
    else if text[i] == '\r' && i + 1 < |text| && text[i + 1] == '\n' then 2
    else 1
  }

  function FirstLine(text: string): (l: Line)
    requires text != ""
    ensures ValidLine(l)
    ensures 0 < |l.body| + |l.brk| <= |text| && text[..|l.body| + |l.brk|] == l.body + l.brk
    ensures l.brk == "" ==> |l.body| == |text|
  {
    var n := BodyLen(text);
    var k := BreakLen(text, n);
    Line(text[..n], text[n..n + k])
  }

  function SplitLines(text: string): seq<Line> {
    if text == "" then []
    else
      var l := FirstLine(text);
      [l] + SplitLines(text[|l.body| + |l.brk|..])
  }

  /** `artifact.lines` with the breaks kept: never empty. */
  function Lines(text: string): (r: seq<Line>)
    ensures r != []
  {
    var split := SplitLines(text);
    if split == [] then [Line("", "")] else split
  }

  function Concat(lines: seq<Line>): string {
    if lines == [] then "" else lines[0].body + lines[0].brk + Concat(lines[1..])
  }

  /** `"\n".join(bodies)`. */
  function JoinBodies(lines: seq<Line>): string {
    if lines == [] then ""
    else if |lines| == 1 then lines[0].body
    else lines[0].body + "\n" + JoinBodies(lines[1..])
  }

  predicate ValidLines(lines: seq<Line>) {
    && (forall i :: 0 <= i < |lines| ==> ValidLine(lines[i]))
    && (forall i :: 0 <= i < |lines| - 1 ==> lines[i].brk != "")
  }

  lemma ValidCons(l: Line, rest: seq<Line>)
    requires ValidLine(l) && ValidLines(rest) && (rest != [] ==> l.brk != "")
    ensures ValidLines([l] + rest) && Concat([l] + rest) == l.body + l.brk + Concat(rest)
  {
    hide ValidLine;
    assert ([l] + rest)[1..] == rest;
  }

  lemma {:induction false} SplitLinesValid(text: string)
    ensures ValidLines(SplitLines(text)) && Concat(SplitLines(text)) == text
  {
    if text == "" {
    } else {
      hide IsBreak, FirstLine, ValidLine, ValidLines, Concat, BodyLen, BreakLen;
      var l := FirstLine(text);
      var rest := text[|l.body| + |l.brk|..];
      SplitLinesValid(rest);
      assert text == l.body + l.brk + rest;
      ValidCons(l, SplitLines(rest));
    }
  }

  /** The line ends in front of the rest of a text the way `splitlines` ends it: at its first break
      character, CR LF being one break; only the last line may have none. */
  predicate EndsBefore(l: Line, rest: string) {
    && ValidLine(l) && l.body + l.brk != ""
    && (l.brk == "" ==> rest == "")
    && (|l.brk| <= 1 || l.brk == "\r\n")
    && !(l.brk == "\r" && rest != "" && rest[0] == '\n')
  }

  predicate AreLinesOf(lines: seq<Line>, text: string) {
    && Concat(lines) == text
    && forall i :: 0 <= i < |lines| ==> EndsBefore(lines[i], Concat(lines[i + 1..]))
  }

  lemma FirstLineIff(text: string, l: Line, rest: string)
    requires text == l.body + l.brk + rest && text != ""
    ensures EndsBefore(l, rest) <==> l == FirstLine(text)
  {
    if EndsBefore(l, rest) || l == FirstLine(text) {
      assert text[..|l.body|] == l.body && text[|l.body|..] == l.brk + rest;
      assert l.brk != "" ==> text[|l.body|] == l.brk[0];
      assert forall i :: 0 <= i < |l.body| ==> text[i] == l.body[i];
    }
  }

  lemma SplitUnfolds(text: string) returns (l: Line, rest: string)
    requires text != ""
    ensures SplitLines(text) == [l] + SplitLines(rest) && text == l.body + l.brk + rest && |rest| < |text|
    ensures l == FirstLine(text) && EndsBefore(l, rest)
  {
    l := FirstLine(text);
    rest := text[|l.body| + |l.brk|..];
    FirstLineIff(text, l, rest);
    hide ValidLine, FirstLine, EndsBefore;
  }

  lemma LinesUnfold(lines: seq<Line>, text: string)
    requires lines != []
    ensures var l, tail := lines[0], lines[1..];
            AreLinesOf(lines, text)
            <==> text == l.body + l.brk + Concat(tail) && EndsBefore(l, Concat(tail)) && AreLinesOf(tail, Concat(tail))
  {
    TailLines(lines);
    hide EndsBefore;
  }

  lemma NoLines(text: string)
    ensures AreLinesOf([], text) <==> text == ""
    ensures SplitLines(text) == [] <==> text == ""
    ensures forall lines :: lines != [] && Concat(lines) == "" ==> !AreLinesOf(lines, "")
  {
    forall lines | lines != [] && Concat(lines) == "" ensures !AreLinesOf(lines, "") {
      assert !EndsBefore(lines[0], Concat(lines[1..]));
    }
  }

  lemma LinesConcat(lines: seq<Line>, text: string)
    ensures AreLinesOf(lines, text) ==> Concat(lines) == text
  {}

  lemma SameRest(l: Line, a: string, b: string)
    requires l.body + l.brk + a == l.body + l.brk + b
    ensures a == b
  {
    assert a == (l.body + l.brk + a)[|l.body + l.brk|..];
  }

  /** A list is the lines of a text exactly when it concatenates to it and each line ends where it
      has to. */
  lemma {:induction false} SplitLinesExact(lines: seq<Line>, text: string)
    ensures AreLinesOf(lines, text) <==> lines == SplitLines(text)
    decreases |text|
  {
    hide *;
    NoLines(text);
    LinesConcat(lines, text);
    if text != "" && lines != [] {
      var l, rest := SplitUnfolds(text);
      var tail := lines[1..];
      assert lines == [lines[0]] + tail;
      SplitLinesExact(tail, rest);
      LinesUnfold(lines, text);
      LinesConcat(tail, rest);
      if AreLinesOf(lines, text) {
        FirstLineIff(text, lines[0], Concat(tail));
        SameRest(l, rest, Concat(tail));
      }
    }
  }

  lemma TailLines(lines: seq<Line>)
    requires lines != []
    ensures (forall i :: 0 <= i < |lines| ==> EndsBefore(lines[i], Concat(lines[i + 1..])))
        <==> EndsBefore(lines[0], Concat(lines[1..])) && AreLinesOf(lines[1..], Concat(lines[1..]))
  {
    hide EndsBefore, Concat;
    var t := lines[1..];
    forall i | 0 <= i < |t| ensures t[i] == lines[i + 1] && t[i + 1..] == lines[i + 2..] {}
    if forall i :: 0 <= i < |t| ==> EndsBefore(t[i], Concat(t[i + 1..])) {
      forall i | 0 < i < |lines| ensures EndsBefore(lines[i], Concat(lines[i + 1..])) {
        assert EndsBefore(t[i - 1], Concat(t[i..]));
      }
    }
  }

  lemma LinesValid(text: string)
    ensures ValidLines(Lines(text)) && Concat(Lines(text)) == text
  {
    SplitLinesValid(text);
    assert Concat([Line("", "")][1..]) == "";
  }

  lemma {:induction false} ConcatSplit(lines: seq<Line>, n: nat)
    requires n <= |lines|
    ensures Concat(lines) == Concat(lines[..n]) + Concat(lines[n..])
  {
    if n == 0 {
      assert lines[0..] == lines;
    } else {
      ConcatSplit(lines[1..], n - 1);
      assert lines[..n][1..] == lines[1..][..n - 1];
    }
  }

  /** The text of a line range, cut out by the offsets of its lines. */
  lemma ConcatRange(lines: seq<Line>, a: nat, b: nat)
    requires a <= b <= |lines|
    ensures var s, e := |Concat(lines[..a])|, |Concat(lines[..b])|;
            s <= e <= |Concat(lines)| && Concat(lines)[s..e] == Concat(lines[a..b])
  {
    ConcatSplit(lines, b);
    ConcatSplit(lines[..b], a);
    assert lines[..b][..a] == lines[..a] && lines[..b][a..] == lines[a..b];
  }
}
