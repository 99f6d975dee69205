/** The rule-document parser: one pass over the lines with a fence state, a heading stack and
    paragraph collection. */
module RuleParser {
  import opened Wrappers
  import opened Json
  import opened Text
  import opened LineText
  import opened Models
  import MD = Markdown

  /** What the model leaves open: decimal digits, and the normative-wording search. */
  datatype Lexicon = Lexicon(digit: char -> bool, normative: string -> bool)

  // ---- the regular expressions ----

  datatype Heading = Heading(level: nat, title: string)

  /** `_ATX_HEADING_RE`: no indentation, and any whitespace after the hashes. */
  function AtxHeading(line: string): (h: Option<Heading>)
    ensures h.Some? ==> 1 <= h.value.level <= 6
  {
    var n := MD.RunLen(line, 0, '#');
    if 1 <= n <= 6 && n < |line| && IsSpace(line[n]) then Some(Heading(n, Strip(line[n..]))) else None
  }

  /** What follows a list marker of length n, when whitespace does. */
  function Item(s: string, n: nat): Option<string>
    requires n <= |s|
  {
    if n < |s| && IsSpace(s[n]) then Some(LStrip(s[n..])) else None
  }

  /** `_BULLET_RE`. */
  function Bullet(line: string): Option<string> {
    var s := MD.SkipBlanks(line);
    if s != "" && (s[0] == '-' || s[0] == '*' || s[0] == '+') then Item(s, 1) else None
  }

  /** `_TASK_BOX_RE`: a bullet whose item starts with a box and whitespace. */
  function TaskBox(line: string): Option<string> {
    var b := Bullet(line);
    if b.None? then None
    else
      var s := b.value;
      if |s| >= 3 && s[0] == '[' && (s[1] == ' ' || s[1] == 'x' || s[1] == 'X') && s[2] == ']' then Item(s, 3) else None
  }

  function DigitRun(digit: char -> bool, s: string): (n: nat)
    ensures n <= |s|
  {
    if s != "" && digit(s[0]) then 1 + DigitRun(digit, s[1..]) else 0
  }

  /** `_ORDERED_RE`. */
  function Ordered(digit: char -> bool, line: string): Option<string> {
    var s := MD.SkipBlanks(line);
    var n := DigitRun(digit, s);
    if 0 < n < |s| && (s[n] == '.' || s[n] == ')') then Item(s, n + 1) else None
  }

  // ---- the texts these patterns match ----

  /** Whitespace, and the text after all of it. */
  predicate Spaced(gap: string, rest: string) {
    gap != "" && AllSpace(gap) && (rest != "" ==> !IsSpace(rest[0]))
  }

  /** The parser's headings: one to six hashes, then whitespace, then anything. */
  lemma AtxIff(line: string, h: Heading)
    ensures AtxHeading(line) == Some(h)
        <==> 1 <= h.level <= 6 && exists body :: IsAtxLine(line, h, body)
  {
    hide MD.RunLen, Strip;
    var n := MD.RunLen(line, 0, '#');
    MD.RunIff(line, '#', n, line[n..]);
    if AtxHeading(line) == Some(h) {
      HashIsNoSpace();
      assert IsAtxLine(line, h, line[n..]);
    }
    if body :| 1 <= h.level <= 6 && IsAtxLine(line, h, body) {
      HashIsNoSpace();
      MD.RunIff(line, '#', h.level, body);
      assert line[h.level] == body[0];
    }
  }

  ghost predicate IsAtxLine(line: string, h: Heading, body: string) {
    line == MD.Repeat('#', h.level) + body && body != "" && IsSpace(body[0]) && h.title == Strip(body)
  }

  lemma HashIsNoSpace()
    ensures !IsSpace('#')
  {}

  lemma ItemIff(s: string, n: nat, rest: string)
    requires n <= |s|
    ensures Item(s, n) == Some(rest) <==> exists gap :: Spaced(gap, rest) && s[n..] == gap + rest
  {
    hide IsSpace;
    if Item(s, n) == Some(rest) {
      var k := LStripSplit(s[n..]);
      assert s[n..] == s[n..][..k] + rest;
      assert s[n..][0] == s[n];
      assert Spaced(s[n..][..k], rest);
    }
    if gap :| Spaced(gap, rest) && s[n..] == gap + rest {
      LStripOf(gap, rest);
      assert s[n] == s[n..][0] == gap[0];
    }
  }

  /** A bullet: blanks, a mark, whitespace, and the item. */
  ghost predicate IsBullet(line: string, pre: string, mark: char, gap: string, rest: string) {
    && MD.AllBlank(pre) && (mark == '-' || mark == '*' || mark == '+') && Spaced(gap, rest)
    && line == pre + ([mark] + (gap + rest))
  }

  lemma BulletIff(line: string, rest: string)
    ensures Bullet(line) == Some(rest) <==> exists pre, mark, gap :: IsBullet(line, pre, mark, gap, rest)
  {
    hide IsSpace, Item, MD.SkipBlanks, AllSpace, MD.AllBlank;
    if Bullet(line) == Some(rest) {
      var pre := MD.SkipTaken(line);
      var s := MD.SkipBlanks(line);
      ItemIff(s, 1, rest);
      var gap :| Spaced(gap, rest) && s[1..] == gap + rest;
      assert s == [s[0]] + (gap + rest);
      assert IsBullet(line, pre, s[0], gap, rest);
    }
    if pre, mark, gap :| IsBullet(line, pre, mark, gap, rest) {
      var s := [mark] + (gap + rest);
      MD.SkipRead(pre, s);
      assert s[1..] == gap + rest;
      ItemIff(s, 1, rest);
    }
  }

  /** A task: a bullet whose item is a box, whitespace, and the text. */
  ghost predicate IsBox(item: string, mark: char, gap: string, rest: string) {
    && (mark == ' ' || mark == 'x' || mark == 'X') && Spaced(gap, rest)
    && item == ['[', mark, ']'] + (gap + rest)
  }

  lemma TaskBoxIff(line: string, rest: string)
    ensures TaskBox(line) == Some(rest)
        <==> Bullet(line).Some? && exists mark, gap :: IsBox(Bullet(line).value, mark, gap, rest)
  {
    hide IsSpace, Item, Bullet, AllSpace;
    if TaskBox(line) == Some(rest) {
      var s := Bullet(line).value;
      ItemIff(s, 3, rest);
      var gap :| Spaced(gap, rest) && s[3..] == gap + rest;
      assert s == s[..3] + s[3..] && s[..3] == ['[', s[1], ']'];
      assert IsBox(s, s[1], gap, rest);
    }
    if Bullet(line).Some? {
      if mark, gap :| IsBox(Bullet(line).value, mark, gap, rest) {
        var s := Bullet(line).value;
        assert s[3..] == gap + rest;
        ItemIff(s, 3, rest);
      }
    }
  }

  predicate AllDigits(digit: char -> bool, s: string) { forall i :: 0 <= i < |s| ==> digit(s[i]) }

  /** Digits are neither blanks nor the marks that end a number. */
  predicate ProperDigits(digit: char -> bool) { !digit(' ') && !digit('\t') && !digit('.') && !digit(')') }

  lemma {:induction false} DigitRunTaken(digit: char -> bool, s: string)
    ensures var n := DigitRun(digit, s); AllDigits(digit, s[..n]) && (n < |s| ==> !digit(s[n]))
  {
    if s != "" && digit(s[0]) {
      DigitRunTaken(digit, s[1..]);
      var n := DigitRun(digit, s);
      assert s[..n] == [s[0]] + s[1..][..n - 1];
    }
  }

  lemma {:induction false} DigitRunRead(digit: char -> bool, ds: string, rest: string)
    requires AllDigits(digit, ds) && (rest != "" ==> !digit(rest[0]))
    ensures DigitRun(digit, ds + rest) == |ds|
  {
    if ds == "" {
      assert ds + rest == rest;
    } else {
      assert (ds + rest)[1..] == ds[1..] + rest;
      DigitRunRead(digit, ds[1..], rest);
    }
  }

  /** A numbered item: blanks, digits, a mark, whitespace, and the item. */
  ghost predicate IsNumbered(digit: char -> bool, line: string, pre: string, ds: string, mark: char, gap: string,
                             rest: string) {
    && MD.AllBlank(pre) && ds != "" && AllDigits(digit, ds) && (mark == '.' || mark == ')') && Spaced(gap, rest)
    && line == pre + (ds + ([mark] + (gap + rest)))
  }

  lemma OrderedIff(digit: char -> bool, line: string, rest: string)
    requires ProperDigits(digit)
    ensures Ordered(digit, line) == Some(rest)
        <==> exists pre, ds, mark, gap :: IsNumbered(digit, line, pre, ds, mark, gap, rest)
  {
    hide IsSpace, Item, MD.SkipBlanks, AllSpace, MD.AllBlank, DigitRun;
    if Ordered(digit, line) == Some(rest) {
      var pre := MD.SkipTaken(line);
      var s := MD.SkipBlanks(line);
      var n := DigitRun(digit, s);
      DigitRunTaken(digit, s);
      ItemIff(s, n + 1, rest);
      var gap :| Spaced(gap, rest) && s[n + 1..] == gap + rest;
      assert s == s[..n] + ([s[n]] + (gap + rest));
      assert IsNumbered(digit, line, pre, s[..n], s[n], gap, rest);
    }
    if pre, ds, mark, gap :| IsNumbered(digit, line, pre, ds, mark, gap, rest) {
      var s := ds + ([mark] + (gap + rest));
      assert s[0] == ds[0];
      MD.SkipRead(pre, s);
      DigitRunRead(digit, ds, [mark] + (gap + rest));
      assert s[|ds|] == mark && s[|ds| + 1..] == gap + rest;
      ItemIff(s, |ds| + 1, rest);
    }
  }

  // ---- target-kind annotations ----

  /** The value of a trailing `[target_kind: value]` whose bracket is at p; s ends in no
      whitespace. */
  function AnnotationAt(s: string, p: nat): Option<string>
    requires p < |s|
  {
    var q := |s| - 1;
    if s[p] != '[' || s[q] != ']' || p >= q then None
    else
      var inner := LStrip(s[p + 1..q]);
      if !("target_kind" <= inner) then None
      else
        var rest := LStrip(inner[11..]);
        if rest == "" || rest[0] != ':' || rest[1..] == "" || ']' in rest[1..] then None
        else Some(Strip(rest[1..]))
  }

  /** A bracketed annotation: whitespace may surround the word and the value, which is not empty and
      holds no closing bracket. */
  ghost predicate IsAnnotation(t: string, before: string, after: string, raw: string) {
    && AllSpace(before) && AllSpace(after) && raw != "" && ']' !in raw
    && t == "[" + (before + ("target_kind" + (after + (":" + (raw + "]")))))
  }

  /** An annotation is read exactly off such a text, its value stripped. */
  lemma AnnotationIff(s: string, p: nat, value: string)
    requires p < |s|
    ensures AnnotationAt(s, p) == Some(value)
        <==> exists before, after, raw :: IsAnnotation(s[p..], before, after, raw) && value == Strip(raw)
  {
    if AnnotationAt(s, p) == Some(value) {
      var before, after, raw := AnnotationTaken(s, p, value);
    }
    if before, after, raw :| IsAnnotation(s[p..], before, after, raw) && value == Strip(raw) {
      AnnotationRead(s, p, before, after, raw);
    }
  }

  lemma AnnotationTaken(s: string, p: nat, value: string) returns (before: string, after: string, raw: string)
    requires p < |s| && AnnotationAt(s, p) == Some(value)
    ensures IsAnnotation(s[p..], before, after, raw) && value == Strip(raw)
  {
    var body := AnnotationBody(s, p, value);
    hide *;
    before := SpacesTaken(body);
    var inner := LStrip(body);
    after := SpacesTaken(inner[11..]);
    raw := LStrip(inner[11..])[1..];
    WordTaken(inner);
    ColonTaken(LStrip(inner[11..]));
    AnnotationParts(before, inner, after, raw);
    AnnotationBuilt(s[p..], before, after, raw);
  }

  lemma AnnotationBody(s: string, p: nat, value: string) returns (body: string)
    requires p < |s| && AnnotationAt(s, p) == Some(value)
    ensures s[p..] == "[" + (body + "]") && "target_kind" <= LStrip(body)
    ensures var rest := LStrip(LStrip(body)[11..]);
            rest != "" && rest[0] == ':' && rest[1..] != "" && ']' !in rest[1..] && value == Strip(rest[1..])
  {
    hide LStrip, Strip;
    body := s[p + 1..|s| - 1];
  }

  lemma SpacesTaken(s: string) returns (pre: string)
    ensures AllSpace(pre) && s == pre + LStrip(s)
  {
    var i := LStripSplit(s);
    pre := s[..i];
  }

  lemma WordTaken(inner: string)
    requires "target_kind" <= inner
    ensures inner == "target_kind" + inner[11..]
  {}

  lemma ColonTaken(rest: string)
    requires rest != "" && rest[0] == ':'
    ensures rest == ":" + rest[1..]
  {}

  lemma AnnotationBuilt(t: string, before: string, after: string, raw: string)
    requires AllSpace(before) && AllSpace(after) && raw != "" && ']' !in raw
    requires t == "[" + (before + ("target_kind" + (after + (":" + (raw + "]")))))
    ensures IsAnnotation(t, before, after, raw)
  {}

  lemma AnnotationParts(before: string, inner: string, after: string, raw: string)
    requires inner == "target_kind" + (after + (":" + raw))
    ensures "[" + ((before + inner) + "]") == "[" + (before + ("target_kind" + (after + (":" + (raw + "]")))))
  {}

  lemma AnnotationRead(s: string, p: nat, before: string, after: string, raw: string)
    requires p < |s| && IsAnnotation(s[p..], before, after, raw)
    ensures AnnotationAt(s, p) == Some(Strip(raw))
  {
    hide IsSpace, AllSpace, Strip, LStrip;
    WordIsNoSpace();
    var rest := ":" + raw;
    var inner := "target_kind" + (after + rest);
    var q := |s| - 1;
    AnnotationParts(before, inner, after, raw);
    var t := "[" + ((before + inner) + "]");
    assert s[p..] == t;
    assert s[p] == t[0] == '[' && s[q] == t[|t| - 1] == ']' && p < q;
    assert s[p + 1..q] == t[1..|t| - 1] == before + inner;
    LStripOf(before, inner);
    assert inner[..11] == "target_kind" && inner[11..] == after + rest;
    LStripOf(after, rest);
    assert rest[1..] == raw;
  }

  lemma WordIsNoSpace()
    ensures !IsSpace('t') && !IsSpace(':')
  {}

  /** The leftmost annotation at or after p. */
  function FindAnnotation(s: string, p: nat): (r: Option<(nat, string)>)
    requires p <= |s|
    ensures r.Some? ==> p <= r.value.0 < |s| && AnnotationAt(s, r.value.0) == Some(r.value.1)
    ensures r.Some? ==> forall k :: p <= k < r.value.0 ==> AnnotationAt(s, k).None?
    ensures r.None? ==> forall k :: p <= k < |s| ==> AnnotationAt(s, k).None?
    decreases |s| - p
  {
    if p == |s| then None
    else if AnnotationAt(s, p).Some? then Some((p, AnnotationAt(s, p).value))
    else FindAnnotation(s, p + 1)
  }

  /** The text without its annotation, the kind, and the raw value when it is unknown. */
  datatype Extracted = Extracted(text: string, kind: TargetKind, warning: Option<string>)

  /** `_extract_target_kind`. */
  function ExtractTargetKind(text: string): Extracted {
    var s := RStrip(text);
    var found := FindAnnotation(s, 0);
    if found.None? then Extracted(text, Unspecified, None)
    else
      var kind := ToTargetKind(JStr(found.value.1), "target_kind");
      match kind
      case Ok(k) => Extracted(RStrip(s[..found.value.0]), k, None)
      case Err(_) => Extracted(RStrip(s[..found.value.0]), Unspecified, Some(found.value.1))
  }

  // ---- lines ----

  /** The parser's fence: any run of three opens it, and a longer run of the same character
      closes it whatever follows on the line. */
  function StepFence(f: MD.Fence, m: Option<MD.Marker>): MD.Fence {
    match f
    case Out => if m.Some? then MD.In(m.value.c, m.value.len) else f
    case In(c, len) => if m.Some? && m.value.c == c && m.value.len >= len then MD.Out else f
  }

  function FenceAt(lines: seq<Line>, n: nat): MD.Fence
    requires n <= |lines|
  {
    if n == 0 then MD.Out else StepFence(FenceAt(lines, n - 1), MD.FenceMarker(lines[n - 1].body))
  }

  datatype Class =
    | FenceLine
    | HeadingLine(h: Heading)
    | ItemLine(text: string, always: bool)
    | ParaLine
    | BlankLine

  /** A line by itself, the patterns tried in the parser's order. */
  function Classify(lex: Lexicon, line: string): Class {
    if MD.FenceMarker(line).Some? then FenceLine
    else if AtxHeading(line).Some? then HeadingLine(AtxHeading(line).value)
    else if TaskBox(line).Some? then ItemLine(Strip(TaskBox(line).value), true)
    else if Bullet(line).Some? then ItemLine(Strip(Bullet(line).value), false)
    else if Ordered(lex.digit, line).Some? then ItemLine(Strip(Ordered(lex.digit, line).value), false)
    else if Strip(line) != "" then ParaLine
    else BlankLine
  }

  /** The class of line i outside fences; inside one nothing has a class. */
  function ClassAt(lex: Lexicon, lines: seq<Line>, i: nat): Option<Class>
    requires i < |lines|
  {
    if FenceAt(lines, i).Out? then Some(Classify(lex, lines[i].body)) else None
  }

  predicate ParaAt(lex: Lexicon, lines: seq<Line>, i: nat)
    requires i < |lines|
  {
    ClassAt(lex, lines, i) == Some(ParaLine)
  }

  // ---- the heading stack ----

  predicate HeadingAt(lex: Lexicon, lines: seq<Line>, i: nat)
    requires i < |lines|
  {
    ClassAt(lex, lines, i).Some? && ClassAt(lex, lines, i).value.HeadingLine?
  }

  function HeadingOf(lex: Lexicon, lines: seq<Line>, i: nat): Heading
    requires i < |lines| && HeadingAt(lex, lines, i)
  {
    ClassAt(lex, lines, i).value.h
  }

  /** An earlier heading that no heading of its level or above has followed. */
  ghost predicate OpenAt(lex: Lexicon, lines: seq<Line>, n: nat, i: nat)
    requires n <= |lines|
  {
    && i < n && HeadingAt(lex, lines, i)
    && forall j: nat :: i < j < n && HeadingAt(lex, lines, j) ==>
         HeadingOf(lex, lines, j).level > HeadingOf(lex, lines, i).level
  }

  function Popped(stack: seq<Heading>, level: nat): seq<Heading> {
    if stack != [] && stack[|stack| - 1].level >= level then Popped(stack[..|stack| - 1], level) else stack
  }

  /** The heading stack before line n. */
  function StackAt(lex: Lexicon, lines: seq<Line>, n: nat): seq<Heading>
    requires n <= |lines|
  {
    if n == 0 then []
    else if HeadingAt(lex, lines, n - 1)
    then var h := HeadingOf(lex, lines, n - 1); Popped(StackAt(lex, lines, n - 1), h.level) + [h]
    else StackAt(lex, lines, n - 1)
  }

  /** Of the first k lines, the headings open before line n, in order. */
  ghost function OpenHeadings(lex: Lexicon, lines: seq<Line>, n: nat, k: nat): seq<Heading>
    requires k <= n <= |lines|
  {
    if k == 0 then []
    else if OpenAt(lex, lines, n, k - 1) then OpenHeadings(lex, lines, n, k - 1) + [HeadingOf(lex, lines, k - 1)]
    else OpenHeadings(lex, lines, n, k - 1)
  }

  predicate Deepening(stack: seq<Heading>) { forall i, j :: 0 <= i < j < |stack| ==> stack[i].level < stack[j].level }

  function Below(stack: seq<Heading>, level: nat): seq<Heading> {
    if stack == [] then []
    else if stack[|stack| - 1].level < level then Below(stack[..|stack| - 1], level) + [stack[|stack| - 1]]
    else Below(stack[..|stack| - 1], level)
  }

  lemma {:induction false} AllBelow(stack: seq<Heading>, level: nat)
    requires forall i :: 0 <= i < |stack| ==> stack[i].level < level
    ensures Below(stack, level) == stack
  {
    if stack == [] {
    } else {
      AllBelow(stack[..|stack| - 1], level);
    }
  }

  lemma {:induction false} PoppedIsBelow(stack: seq<Heading>, level: nat)
    requires Deepening(stack)
    ensures Popped(stack, level) == Below(stack, level) && Popped(stack, level) <= stack
    ensures forall i :: 0 <= i < |Popped(stack, level)| ==> Popped(stack, level)[i].level < level
  {
    if stack == [] {
    } else {
      var n := |stack| - 1;
      if stack[n].level >= level { PoppedIsBelow(stack[..n], level); } else { AllBelow(stack, level); }
    }
  }

  lemma BelowSnoc(stack: seq<Heading>, h: Heading, level: nat)
    ensures Below(stack + [h], level) == Below(stack, level) + if h.level < level then [h] else []
  {
    assert (stack + [h])[..|stack|] == stack;
  }

  lemma OpenAtStep(lex: Lexicon, lines: seq<Line>, n: nat, i: nat)
    requires i < n < |lines|
    ensures OpenAt(lex, lines, n + 1, i)
        <==> OpenAt(lex, lines, n, i)
             && (HeadingAt(lex, lines, n) ==> HeadingOf(lex, lines, n).level > HeadingOf(lex, lines, i).level)
  {
    hide HeadingAt, HeadingOf;
    if OpenAt(lex, lines, n + 1, i) {
      assert HeadingAt(lex, lines, n) ==> HeadingOf(lex, lines, n).level > HeadingOf(lex, lines, i).level;
    }
  }

  /** One more line keeps the open headings, unless it is a heading that closes some. */
  lemma {:induction false} OpenStep(lex: Lexicon, lines: seq<Line>, n: nat, k: nat)
    requires k <= n < |lines|
    ensures OpenHeadings(lex, lines, n + 1, k)
         == if HeadingAt(lex, lines, n) then Below(OpenHeadings(lex, lines, n, k), HeadingOf(lex, lines, n).level)
            else OpenHeadings(lex, lines, n, k)
  {
    hide HeadingAt, HeadingOf, OpenAt;
    if k == 0 {
    } else {
      OpenStep(lex, lines, n, k - 1);
      OpenAtStep(lex, lines, n, k - 1);
      OpenIsHeading(lex, lines, n, k - 1);
      if HeadingAt(lex, lines, n) && HeadingAt(lex, lines, k - 1) {
        BelowSnoc(OpenHeadings(lex, lines, n, k - 1), HeadingOf(lex, lines, k - 1), HeadingOf(lex, lines, n).level);
      }
    }
  }

  lemma OpenIsHeading(lex: Lexicon, lines: seq<Line>, n: nat, i: nat)
    requires n <= |lines|
    ensures OpenAt(lex, lines, n, i) ==> i < n && HeadingAt(lex, lines, i)
  {}

  /** The heading stack has strictly increasing levels and holds exactly the open headings. */
  lemma {:induction false} StackExact(lex: Lexicon, lines: seq<Line>, n: nat)
    requires n <= |lines|
    ensures Deepening(StackAt(lex, lines, n))
    ensures StackAt(lex, lines, n) == OpenHeadings(lex, lines, n, n)
  {
    hide HeadingAt, HeadingOf, Popped;
    if n == 0 {
    } else {
      StackExact(lex, lines, n - 1);
      OpenStep(lex, lines, n - 1, n - 1);
      if HeadingAt(lex, lines, n - 1) { PoppedIsBelow(StackAt(lex, lines, n - 1), HeadingOf(lex, lines, n - 1).level); }
    }
  }

  /** `_heading_chain`. */
  function Chain(stack: seq<Heading>): Option<string> {
    if stack == [] then None else Some(JoinTitles(stack))
  }

  function JoinTitles(stack: seq<Heading>): string
    requires stack != []
  {
    if |stack| == 1 then stack[0].title else JoinTitles(stack[..|stack| - 1]) + " > " + stack[|stack| - 1].title
  }

  /** A chain grows by " > " and the next title. */
  lemma ChainMeaning(outer: seq<Heading>, h: Heading)
    ensures Chain([]) == None && Chain([h]) == Some(h.title)
    ensures outer != [] ==> Chain(outer).Some? && Chain(outer + [h]) == Some(Chain(outer).value + " > " + h.title)
  {
    assert (outer + [h])[..|outer|] == outer;
  }

  // ---- candidates, line by line ----

  datatype Candidate = Candidate(text: string, line: nat, heading: Option<string>, kind: TargetKind,
                                 warning: Option<string>)

  /** The first line at or after i that is not part of the paragraph. */
  function ParaEnd(lex: Lexicon, lines: seq<Line>, i: nat): (e: nat)
    requires i <= |lines|
    ensures i <= e <= |lines| && forall k :: i <= k < e ==> ParaAt(lex, lines, k)
    ensures e < |lines| ==> !ParaAt(lex, lines, e)
    decreases |lines| - i
  {
    if i < |lines| && ParaAt(lex, lines, i) then ParaEnd(lex, lines, i + 1) else i
  }

  /** The stripped lines i to e joined by blanks. */
  function ParaText(lines: seq<Line>, i: nat, e: nat): string
    requires i < e <= |lines|
  {
    if e == i + 1 then Strip(lines[i].body) else ParaText(lines, i, e - 1) + " " + Strip(lines[e - 1].body)
  }

  function CandidateFrom(text: string, line: nat, heading: Option<string>): Candidate {
    var x := ExtractTargetKind(text);
    Candidate(x.text, line, heading, x.kind, x.warning)
  }

  /** What line i contributes: list items on their own, paragraphs at their first line. */
  function CandidateAt(lex: Lexicon, lines: seq<Line>, i: nat): Option<Candidate>
    requires i < |lines|
  {
    var heading := Chain(StackAt(lex, lines, i));
    match ClassAt(lex, lines, i)
    case Some(ItemLine(text, always)) =>
      if always || lex.normative(text) then Some(CandidateFrom(text, i + 1, heading)) else None
    case Some(ParaLine) =>
      if i > 0 && ParaAt(lex, lines, i - 1) then None
      else
        var text := ParaText(lines, i, ParaEnd(lex, lines, i));
        if lex.normative(text) then Some(CandidateFrom(text, i + 1, heading)) else None
    case _ => None
  }

  /** The candidates of the first n lines. */
  function Candidates(lex: Lexicon, lines: seq<Line>, n: nat): seq<Candidate>
    requires n <= |lines|
  {
    if n == 0 then []
    else
      match CandidateAt(lex, lines, n - 1)
      case Some(c) => Candidates(lex, lines, n - 1) + [c]
      case None => Candidates(lex, lines, n - 1)
  }

  /** c is what its line, one of the first n and outside fences, contributes. */
  predicate FromLine(lex: Lexicon, lines: seq<Line>, n: nat, c: Candidate)
    requires n <= |lines|
  {
    1 <= c.line <= n && FenceAt(lines, c.line - 1).Out? && CandidateAt(lex, lines, c.line - 1) == Some(c)
  }

  /** Candidates come from strictly increasing lines outside fences. */
  lemma {:induction false} CandidatesOrdered(lex: Lexicon, lines: seq<Line>, n: nat)
    requires n <= |lines|
    ensures forall i :: 0 <= i < |Candidates(lex, lines, n)| ==> FromLine(lex, lines, n, Candidates(lex, lines, n)[i])
    ensures forall i, j :: 0 <= i < j < |Candidates(lex, lines, n)| ==>
              Candidates(lex, lines, n)[i].line < Candidates(lex, lines, n)[j].line
  {
    hide CandidateAt, FenceAt;
    if n == 0 {
    } else {
      CandidatesOrdered(lex, lines, n - 1);
      CandidateLine(lex, lines, n - 1);
      var before, cs := Candidates(lex, lines, n - 1), Candidates(lex, lines, n);
      forall i | 0 <= i < |cs| ensures FromLine(lex, lines, n, cs[i]) {
        if i < |before| { assert FromLine(lex, lines, n - 1, before[i]); }
      }
    }
  }

  lemma CandidateLine(lex: Lexicon, lines: seq<Line>, i: nat)
    requires i < |lines|
    ensures CandidateAt(lex, lines, i).Some? ==>
              CandidateAt(lex, lines, i).value.line == i + 1 && FenceAt(lines, i).Out?
  {
    hide Classify, ParaText, ParaEnd, Chain, StackAt, ExtractTargetKind, FenceAt;
  }

  // ---- rules ----

  function Decimal(n: nat): string {
    if n < 10 then [('0' as int + n) as char] else Decimal(n / 10) + [('0' as int + n % 10) as char]
  }

  lemma {:induction false} DecimalInjective(a: nat, b: nat)
    ensures Decimal(a) == Decimal(b) ==> a == b
  {
    if Decimal(a) == Decimal(b) {
      assert Decimal(a)[|Decimal(a)| - 1] == Decimal(b)[|Decimal(b)| - 1];
      DecimalNonEmpty(a / 10);
      DecimalNonEmpty(b / 10);
      if a >= 10 && b >= 10 {
        assert Decimal(a)[..|Decimal(a)| - 1] == Decimal(a / 10) && Decimal(b)[..|Decimal(b)| - 1] == Decimal(b / 10);
        DecimalInjective(a / 10, b / 10);
      }
    }
  }

  lemma DecimalNonEmpty(n: nat)
    ensures Decimal(n) != ""
  {}

  /** `_make_id`; `stem` is the slug of the file name. */
  function MakeId(stem: string, line: nat): string { "rule-" + stem + "-L" + Decimal(line) }

  lemma MakeIdInjective(stem: string, a: nat, b: nat)
    ensures MakeId(stem, a) == MakeId(stem, b) ==> a == b
  {
    var prefix := "rule-" + stem + "-L";
    if MakeId(stem, a) == MakeId(stem, b) {
      assert Decimal(a) == MakeId(stem, a)[|prefix|..] == Decimal(b);
      DecimalInjective(a, b);
    }
  }

  /** The number a string of digits stands for. */
  function ValueOf(ds: string): int {
    if ds == "" then 0 else 10 * ValueOf(ds[..|ds| - 1]) + (ds[|ds| - 1] as int - '0' as int)
  }

  lemma {:induction false} DecimalMeaning(n: nat)
    ensures ValueOf(Decimal(n)) == n
    ensures forall i :: 0 <= i < |Decimal(n)| ==> '0' <= Decimal(n)[i] <= '9'
    ensures n > 0 ==> Decimal(n)[0] != '0'
  {
    if n < 10 {
      assert Decimal(n)[..0] == "";
    } else {
      DecimalMeaning(n / 10);
      assert Decimal(n)[..|Decimal(n)| - 1] == Decimal(n / 10);
    }
  }

  function RuleOf(path: string, stem: string, c: Candidate): Rule {
    var title := if |c.text| <= 80 then c.text else c.text[..80];
    Rule(MakeId(stem, c.line), title, SourceLocation(path, c.line, c.heading), c.text,
         "semantic_rubric", SevWarning, LlmRubric, Low,
         if c.warning.None? then map[] else map["target_kind_parse_warning" := JStr(c.warning.value)],
         c.kind, None, None, None)
  }

  function RulesOf(path: string, stem: string, cs: seq<Candidate>): seq<Rule> {
    seq(|cs|, i requires 0 <= i < |cs| => RuleOf(path, stem, cs[i]))
  }

  /** The rules of a document. */
  function Parsed(lex: Lexicon, path: string, stem: string, content: string): seq<Rule> {
    RulesOf(path, stem, Candidates(lex, SplitLines(content), |SplitLines(content)|))
  }

  /** Every parsed set has strictly increasing source lines and unique ids, and survives
      `to_dict` then `from_dict` unchanged. */
  lemma ParsedReloads(lex: Lexicon, path: string, stem: string, content: string)
    ensures var rules := Parsed(lex, path, stem, content);
            && (forall i, j :: 0 <= i < j < |rules| ==> rules[i].source.line < rules[j].source.line)
            && DistinctIds(rules)
            && RuleSetFromDict(RuleSetToDict(rules)) == Ok(rules)
  {
    var lines := SplitLines(content);
    var cs := Candidates(lex, lines, |lines|);
    CandidatesOrdered(lex, lines, |lines|);
    assert forall i :: 0 <= i < |cs| ==> FromLine(lex, lines, |lines|, cs[i]);
    OrderedRules(path, stem, cs);
    hide *;
    ParsedIs(lex, path, stem, content);
    RuleSetRoundTrip(Parsed(lex, path, stem, content));
  }

  /** The text line n gives rise to a rule with: a task's always, another item's or a paragraph's when
      it is normative. */
  predicate Contributes(lex: Lexicon, lines: seq<Line>, n: nat, text: string)
    requires n < |lines|
  {
    && FenceAt(lines, n).Out?
    && match Classify(lex, lines[n].body)
       case ItemLine(t, always) => text == t && (always || lex.normative(t))
       case ParaLine =>
         && (n == 0 || !ParaAt(lex, lines, n - 1))
         && text == ParaText(lines, n, ParaEnd(lex, lines, n)) && lex.normative(text)
       case _ => false
  }

  /** The annotation a text ends in, if any: the text in front of it, the kind it names, and the value
      when it names none. */
  ghost predicate Annotated(text: string, x: Extracted) {
    var s := RStrip(text);
    var p := FindAnnotation(s, 0);
    if p.None? then x == Extracted(text, Unspecified, None)
    else
      && x.text == RStrip(s[..p.value.0])
      && (x.warning.None? ==> TargetKindName(x.kind) == p.value.1)
      && (x.warning.Some? ==>
            x.warning == Some(p.value.1) && x.kind == Unspecified && forall k :: TargetKindName(k) != p.value.1)
  }

  lemma KindRead(value: string)
    ensures var kind := ToTargetKind(JStr(value), "target_kind");
            && (kind.Ok? ==> TargetKindName(kind.value) == value)
            && (kind.Err? ==> forall k :: TargetKindName(k) != value)
  {
    hide TargetKindName, ToTargetKind;
    forall k ensures TargetKindName(k) == value <==> ToTargetKind(JStr(value), "target_kind") == Ok(k) {
      TargetKindIff(JStr(value), k, "target_kind");
    }
  }

  lemma ExtractMeaning(text: string)
    ensures Annotated(text, ExtractTargetKind(text))
  {
    var found := FindAnnotation(RStrip(text), 0);
    if found.Some? { KindRead(found.value.1); }
    hide ToTargetKind, FindAnnotation, RStrip, TargetKindName;
  }

  /** Every rule: the line it comes from, its text, kind and annotation, its heading and its id. */
  ghost predicate IsRuleOf(lex: Lexicon, path: string, stem: string, lines: seq<Line>, r: Rule, n: nat,
                           text: string, x: Extracted, ds: string) {
    && n < |lines| && Contributes(lex, lines, n, text) && Annotated(text, x)
    && r.source == SourceLocation(path, n + 1, Chain(OpenHeadings(lex, lines, n, n)))
    && r.text == x.text && r.targetKind == x.kind
    && r.params == (if x.warning.None? then map[] else map["target_kind_parse_warning" := JStr(x.warning.value)])
    && r.title <= r.text && |r.title| <= 80 && (|r.title| < 80 ==> r.title == r.text)
    && r.id == "rule-" + stem + "-L" + ds && ValueOf(ds) == n + 1
    && r.kind == "semantic_rubric" && r.severity == SevWarning && r.backendHint == LlmRubric && r.confidence == Low
  }

  lemma RuleMeaning(lex: Lexicon, path: string, stem: string, content: string, i: nat)
    requires i < |Parsed(lex, path, stem, content)|
    ensures exists n, text, x, ds ::
              IsRuleOf(lex, path, stem, SplitLines(content), Parsed(lex, path, stem, content)[i], n, text, x, ds)
  {
    var lines := SplitLines(content);
    var cs := Candidates(lex, lines, |lines|);
    ParsedIs(lex, path, stem, content);
    CandidatesOrdered(lex, lines, |lines|);
    RuleFields(path, stem, cs, i);
    var c := cs[i];
    assert FromLine(lex, lines, |lines|, c);
    hide Parsed, Candidates, CandidateAt, Contributes, Annotated, ExtractTargetKind, Decimal, Chain, OpenHeadings,
         StackAt, ValueOf, RulesOf, FenceAt;
    var n := c.line - 1;
    var text := CandidateMeaning(lex, lines, n);
    StackExact(lex, lines, n);
    DecimalMeaning(c.line);
    ExtractMeaning(text);
    assert IsRuleOf(lex, path, stem, lines, Parsed(lex, path, stem, content)[i], n, text, ExtractTargetKind(text),
                    Decimal(c.line));
  }

  lemma RuleFields(path: string, stem: string, cs: seq<Candidate>, i: nat)
    requires i < |cs|
    ensures |RulesOf(path, stem, cs)| == |cs|
    ensures var r, c := RulesOf(path, stem, cs)[i], cs[i];
            && r.source == SourceLocation(path, c.line, c.heading) && r.text == c.text && r.targetKind == c.kind
            && r.title <= r.text && |r.title| <= 80 && (|r.title| < 80 ==> r.title == r.text)
            && r.id == "rule-" + stem + "-L" + Decimal(c.line)
            && r.kind == "semantic_rubric" && r.severity == SevWarning && r.backendHint == LlmRubric
            && r.confidence == Low
            && r.params == if c.warning.None? then map[] else map["target_kind_parse_warning" := JStr(c.warning.value)]
  {
    hide Decimal;
  }

  lemma CandidateMeaning(lex: Lexicon, lines: seq<Line>, n: nat) returns (text: string)
    requires n < |lines| && CandidateAt(lex, lines, n).Some?
    ensures Contributes(lex, lines, n, text)
    ensures CandidateAt(lex, lines, n).value == CandidateFrom(text, n + 1, Chain(StackAt(lex, lines, n)))
  {
    hide Classify, ParaText, ParaEnd, Chain, StackAt, ExtractTargetKind, FenceAt;
    var c := ClassAt(lex, lines, n).value;
    text := if c.ItemLine? then c.text else ParaText(lines, n, ParaEnd(lex, lines, n));
  }

  lemma ParsedIs(lex: Lexicon, path: string, stem: string, content: string)
    ensures var lines := SplitLines(content);
            Parsed(lex, path, stem, content) == RulesOf(path, stem, Candidates(lex, lines, |lines|))
  {}

  lemma OrderedRules(path: string, stem: string, cs: seq<Candidate>)
    requires forall i :: 0 <= i < |cs| ==> 1 <= cs[i].line
    requires forall i, j :: 0 <= i < j < |cs| ==> cs[i].line < cs[j].line
    ensures var rules := RulesOf(path, stem, cs);
            && (forall i, j :: 0 <= i < j < |rules| ==> rules[i].source.line < rules[j].source.line)
            && DistinctIds(rules)
            && forall i :: 0 <= i < |rules| ==> ValidRule(rules[i])
  {
    hide MakeId;
    var rules := RulesOf(path, stem, cs);
    forall i, j | 0 <= i < j < |rules| ensures rules[i].id != rules[j].id {
      MakeIdInjective(stem, cs[i].line, cs[j].line);
    }
  }

  // ---- the parser ----

  function AsSeq<T>(o: Option<T>): seq<T> { if o.Some? then [o.value] else [] }

  predicate AllPara(lex: Lexicon, lines: seq<Line>, i: nat, e: nat)
    requires i < e <= |lines|
  {
    forall k :: i <= k < e ==> ParaAt(lex, lines, k)
  }

  lemma AllParaEnds(lex: Lexicon, lines: seq<Line>, i: nat, e: nat)
    requires i < e <= |lines| && AllPara(lex, lines, i, e)
    ensures ParaAt(lex, lines, e - 1)
    ensures e > i + 1 ==> ParaAt(lex, lines, e - 2) && AllPara(lex, lines, i, e - 1)
  {
    hide ParaAt;
  }

  lemma AllParaSnoc(lex: Lexicon, lines: seq<Line>, i: nat, e: nat)
    requires i < e < |lines| && AllPara(lex, lines, i, e) && ParaAt(lex, lines, e)
    ensures AllPara(lex, lines, i, e + 1)
  {
    hide ParaAt;
  }

  /** What passing line i changes. */
  lemma Advance(lex: Lexicon, lines: seq<Line>, i: nat)
    requires i < |lines|
    ensures FenceAt(lines, i + 1) == StepFence(FenceAt(lines, i), MD.FenceMarker(lines[i].body))
    ensures Candidates(lex, lines, i + 1) == Candidates(lex, lines, i) + AsSeq(CandidateAt(lex, lines, i))
    ensures StackAt(lex, lines, i + 1)
         == if HeadingAt(lex, lines, i)
            then Popped(StackAt(lex, lines, i), HeadingOf(lex, lines, i).level) + [HeadingOf(lex, lines, i)]
            else StackAt(lex, lines, i)
  {
    hide CandidateAt, HeadingAt, HeadingOf, Popped, StepFence;
  }

  lemma ParaLineStep(lex: Lexicon, lines: seq<Line>, i: nat)
    requires i < |lines| && ParaAt(lex, lines, i)
    ensures FenceAt(lines, i + 1).Out? && StackAt(lex, lines, i + 1) == StackAt(lex, lines, i)
    ensures i > 0 && ParaAt(lex, lines, i - 1) ==> CandidateAt(lex, lines, i).None?
    ensures i == 0 || !ParaAt(lex, lines, i - 1) ==>
              CandidateAt(lex, lines, i)
                == var text := ParaText(lines, i, ParaEnd(lex, lines, i));
                   if lex.normative(text) then Some(CandidateFrom(text, i + 1, Chain(StackAt(lex, lines, i)))) else None
  {
    hide FenceAt, StackAt, Candidates, ParaText, ParaEnd, CandidateFrom, Chain, AtxHeading, TaskBox, Bullet, Ordered,
         Strip;
    Advance(lex, lines, i);
  }

  /** A paragraph adds at most one candidate, at its first line, and moves nothing else. */
  lemma {:induction false} ParagraphStep(lex: Lexicon, lines: seq<Line>, i: nat, e: nat)
    requires i < e <= |lines| && AllPara(lex, lines, i, e)
    ensures Candidates(lex, lines, e) == Candidates(lex, lines, i) + AsSeq(CandidateAt(lex, lines, i))
    ensures StackAt(lex, lines, e) == StackAt(lex, lines, i) && FenceAt(lines, e).Out?
  {
    hide *;
    AllParaEnds(lex, lines, i, e);
    Advance(lex, lines, e - 1);
    ParaLineStep(lex, lines, e - 1);
    if e > i + 1 {
      ParagraphStep(lex, lines, i, e - 1);
      NoneIsEmpty(CandidateAt(lex, lines, e - 1));
    }
  }

  lemma NoneIsEmpty<T>(o: Option<T>)
    ensures o.None? ==> AsSeq(o) == []
  {}

  /** `_is_block_start`. */
  predicate IsBlockStart(lex: Lexicon, line: string) {
    || Strip(line) == "" || AtxHeading(line).Some? || MD.FenceMarker(line).Some?
    || TaskBox(line).Some? || Bullet(line).Some? || Ordered(lex.digit, line).Some?
  }

  /** The inner loop of `parse`: a paragraph runs to the next block start. */
  method CollectParagraph(lex: Lexicon, lines: seq<Line>, start: nat) returns (text: string, next: nat)
    requires start < |lines| && ParaAt(lex, lines, start)
    ensures start < next <= |lines| && AllPara(lex, lines, start, next)
    ensures next == ParaEnd(lex, lines, start) && text == ParaText(lines, start, next)
  {
    hide *;
    text, next := Strip(lines[start].body), start + 1;
    ParaStaysOut(lex, lines, start);
    FirstParaLine(lex, lines, start);
    while next < |lines| && !IsBlockStart(lex, lines[next].body)
      invariant start < next <= |lines| && text == ParaText(lines, start, next)
      invariant AllPara(lex, lines, start, next)
      invariant FenceAt(lines, next).Out?
    {
      NotBlockStart(lex, lines, next);
      AllParaSnoc(lex, lines, start, next);
      ParaStaysOut(lex, lines, next);
      ParaTextStep(lines, start, next);
      text := text + " " + Strip(lines[next].body);
      next := next + 1;
    }
    if next < |lines| { NotBlockStart(lex, lines, next); }
    ParaEndIs(lex, lines, start, next);
  }

  lemma FirstParaLine(lex: Lexicon, lines: seq<Line>, i: nat)
    requires i < |lines| && ParaAt(lex, lines, i)
    ensures ParaText(lines, i, i + 1) == Strip(lines[i].body) && AllPara(lex, lines, i, i + 1)
  {}

  lemma ParaStaysOut(lex: Lexicon, lines: seq<Line>, i: nat)
    requires i < |lines| && ParaAt(lex, lines, i)
    ensures FenceAt(lines, i).Out? && FenceAt(lines, i + 1).Out?
  {
    hide AtxHeading, TaskBox, Bullet, Ordered, Strip;
  }

  lemma ParaTextStep(lines: seq<Line>, i: nat, e: nat)
    requires i < e < |lines|
    ensures ParaText(lines, i, e + 1) == ParaText(lines, i, e) + " " + Strip(lines[e].body)
  {
    hide Strip;
  }

  /** Outside fences, a line that starts no block is a paragraph line. */
  lemma NotBlockStart(lex: Lexicon, lines: seq<Line>, i: nat)
    requires i < |lines| && FenceAt(lines, i).Out?
    ensures ParaAt(lex, lines, i) <==> !IsBlockStart(lex, lines[i].body)
  {
    hide FenceAt, AtxHeading, TaskBox, Bullet, Ordered, Strip;
  }

  lemma {:induction false} ParaEndIs(lex: Lexicon, lines: seq<Line>, i: nat, e: nat)
    requires i < e <= |lines| && AllPara(lex, lines, i, e) && (e < |lines| ==> !ParaAt(lex, lines, e))
    ensures ParaEnd(lex, lines, i) == e
    decreases e - i
  {
    hide ParaAt;
    if i + 1 < e { ParaEndIs(lex, lines, i + 1, e); }
  }

  /** The popping loop of `parse`. */
  method PopTo(stack0: seq<Heading>, level: nat) returns (stack: seq<Heading>)
    ensures stack == Popped(stack0, level)
  {
    stack := stack0;
    while stack != [] && stack[|stack| - 1].level >= level
      invariant Popped(stack, level) == Popped(stack0, level)
      decreases |stack|
    {
      stack := stack[..|stack| - 1];
    }
  }

  /** `parse`. */
  method Parse(lex: Lexicon, path: string, stem: string, content: string) returns (rules: seq<Rule>)
    ensures rules == Parsed(lex, path, stem, content)
  {
    hide SplitLines, MD.FenceMarker, AtxHeading, TaskBox, Bullet, Ordered, Strip, ExtractTargetKind, CandidateFrom,
         Chain, StackAt, FenceAt, Candidates, ParaText, ParaEnd, Popped;
    Beginning(lex, SplitLines(content));
    var lines := SplitLines(content);
    var stack: seq<Heading> := [];
    var candidates: seq<Candidate> := [];
    var inFence, fenceChar, fenceLen := false, '\0', 0;
    var i := 0;
    while i < |lines|
      invariant i <= |lines|
      invariant FenceAt(lines, i) == if inFence then MD.In(fenceChar, fenceLen) else MD.Out
      invariant stack == StackAt(lex, lines, i) && candidates == Candidates(lex, lines, i)
      invariant 0 < i < |lines| && ParaAt(lex, lines, i) ==> !ParaAt(lex, lines, i - 1)
    {
      Advance(lex, lines, i);
      var raw := lines[i].body;
      var fence := MD.FenceMarker(raw);
      if fence.Some? {
        if !inFence {
          inFence, fenceChar, fenceLen := true, fence.value.c, fence.value.len;
        } else if fence.value.c == fenceChar && fence.value.len >= fenceLen {
          inFence, fenceChar, fenceLen := false, '\0', 0;
        }
        i := i + 1;
        continue;
      }
      if inFence {
        i := i + 1;
        continue;
      }
      var heading := AtxHeading(raw);
      if heading.Some? {
        stack := PopTo(stack, heading.value.level);
        stack := stack + [heading.value];
        i := i + 1;
        continue;
      }
      var chain := Chain(stack);
      var task := TaskBox(raw);
      if task.Some? {
        candidates := candidates + [CandidateFrom(Strip(task.value), i + 1, chain)];
        i := i + 1;
        continue;
      }
      var bullet := Bullet(raw);
      if bullet.Some? {
        if lex.normative(Strip(bullet.value)) {
          candidates := candidates + [CandidateFrom(Strip(bullet.value), i + 1, chain)];
        }
        i := i + 1;
        continue;
      }
      var ordered := Ordered(lex.digit, raw);
      if ordered.Some? {
        if lex.normative(Strip(ordered.value)) {
          candidates := candidates + [CandidateFrom(Strip(ordered.value), i + 1, chain)];
        }
        i := i + 1;
        continue;
      }
      if Strip(raw) != "" {
        ParaLineStep(lex, lines, i);
        var text, next := CollectParagraph(lex, lines, i);
        if lex.normative(text) {
          candidates := candidates + [CandidateFrom(text, i + 1, chain)];
        }
        ParagraphStep(lex, lines, i, next);
        i := next;
        continue;
      }
      i := i + 1;
    }
    rules := RulesOf(path, stem, candidates);
  }

  lemma Beginning(lex: Lexicon, lines: seq<Line>)
    ensures FenceAt(lines, 0) == MD.Out && StackAt(lex, lines, 0) == [] && Candidates(lex, lines, 0) == []
  {}

  // ---- where the parser and the Markdown scanners part ----

  /** A backtick run with a backtick after it outside a fence, or a long enough run of the
      fence's character with text after it inside one. */
  predicate Disputed(f: MD.Fence, m: Option<MD.Marker>) {
    && m.Some?
    && match f
       case Out => !MD.Opens(m.value)
       case In(c, len) => m.value.c == c && m.value.len >= len && Strip(m.value.info) != ""
  }

  ghost predicate ScannersAgree(lines: seq<Line>, n: nat)
    requires n <= |lines|
  {
    forall i: nat :: i <= n ==> FenceAt(lines, i) == MD.StateAt(lines, i)
  }

  ghost predicate Undisputed(lines: seq<Line>, n: nat)
    requires n <= |lines|
  {
    forall i: nat :: i < n ==> !Disputed(MD.StateAt(lines, i), MD.FenceMarker(lines[i].body))
  }

  lemma DisputedStep(f: MD.Fence, m: Option<MD.Marker>)
    ensures StepFence(f, m) == MD.StepMarker(f, m).0 <==> !Disputed(f, m)
  {
    hide MD.Opens, Strip;
  }

  /** The parser agrees with the Markdown scanners about every line's fence exactly on the
      documents without a disputed line. */
  lemma {:induction false} ScannersAgreeIff(lines: seq<Line>, n: nat)
    requires n <= |lines|
    ensures ScannersAgree(lines, n) <==> Undisputed(lines, n)
  {
    hide MD.FenceMarker, Disputed, StepFence, MD.StepMarker;
    if n == 0 {
    } else {
      ScannersAgreeIff(lines, n - 1);
      DisputedStep(MD.StateAt(lines, n - 1), MD.FenceMarker(lines[n - 1].body));
      assert FenceAt(lines, n) == StepFence(FenceAt(lines, n - 1), MD.FenceMarker(lines[n - 1].body));
      if ScannersAgree(lines, n) {
        assert ScannersAgree(lines, n - 1);
        assert FenceAt(lines, n - 1) == MD.StateAt(lines, n - 1) && FenceAt(lines, n) == MD.StateAt(lines, n);
      }
      if Undisputed(lines, n) { assert Undisputed(lines, n - 1); }
    }
  }

  // ---- annotations read back ----

  lemma AnnotationAtEnd(text: string, name: string)
    requires name != "" && Trimmed(name) && ']' !in name
    ensures var s := text + "[target_kind: " + name + "]"; AnnotationAt(s, |text|) == Some(name)
  {
    hide Strip, IsSpace;
    var s := text + "[target_kind: " + name + "]";
    var inner := s[|text| + 1..|s| - 1];
    assert inner == "target_kind: " + name;
    NotSpaces();
    assert LStrip(inner) == inner;
    assert "target_kind" <= inner;
    assert inner[11..] == ": " + name;
    assert LStrip(inner[11..]) == inner[11..];
    assert inner[11..][1..] == " " + name;
    assert " " + name == " " + name + "";
    StripOf(" ", name, "");
    assert ']' !in " " + name;
  }

  lemma NotSpaces()
    ensures !IsSpace('t') && !IsSpace(':') && IsSpace(' ') && !IsSpace(']') && AllSpace(" ") && AllSpace("")
  {}

  lemma KindNamesPlain(kind: TargetKind)
    ensures var name := TargetKindName(kind); name != "" && Trimmed(name) && ']' !in name && '[' !in name
  {}

  /** An annotation appended to any text without brackets is stripped off again and yields
      its kind. */
  lemma AnnotationReadsBack(text: string, kind: TargetKind)
    requires '[' !in text
    ensures ExtractTargetKind(text + "[target_kind: " + TargetKindName(kind) + "]")
         == Extracted(RStrip(text), kind, None)
  {
    KindNamesPlain(kind);
    hide *;
    var name := TargetKindName(kind);
    var s := text + "[target_kind: " + name + "]";
    AnnotationAtEnd(text, name);
    TargetKindRoundTrip(kind, "target_kind");
    assert forall k :: 0 <= k < |text| ==> s[k] == text[k];
    FirstBracket(s, |text|);
    ExtractAt(s, |text|, name);
    assert s[..|text|] == text;
  }

  lemma ExtractAt(s: string, p: nat, name: string)
    requires p <= |s| && s != "" && s[|s| - 1] == ']' && FindAnnotation(s, 0) == Some((p, name))
    ensures ToTargetKind(JStr(name), "target_kind").Ok? ==>
              ExtractTargetKind(s) == Extracted(RStrip(s[..p]), ToTargetKind(JStr(name), "target_kind").value, None)
  {
    NotSpaces();
    hide IsSpace, ToTargetKind, FindAnnotation;
    assert RStrip(s) == s;
  }

  lemma FirstBracket(s: string, p: nat)
    requires p < |s| && AnnotationAt(s, p).Some? && forall k :: 0 <= k < p ==> s[k] != '['
    ensures FindAnnotation(s, 0) == Some((p, AnnotationAt(s, p).value))
  {
    forall k | 0 <= k < p ensures AnnotationAt(s, k).None? {}
    hide AnnotationAt;
    var found := FindAnnotation(s, 0);
    assert found.Some? && found.value.0 == p;
  }
}
