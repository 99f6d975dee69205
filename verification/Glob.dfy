/** The path-glob compiler and the segment-level meaning of what it emits. */
module Glob {

  // ---- the emitted regular expression ----

  // The pieces the compiler emits: an escaped character, [^/]*, [^/], .*, and the optional
  // groups (?:.*/)? and (?:/.*)?/
  datatype Piece = Lit(c: char) | AnyInSegment | OneInSegment | AnyPath | LeadingDirs | MiddleDirs

  /** The compiler's loop from index i with the pieces emitted so far. */
  function Translate(p: string, i: nat, out: seq<Piece>): seq<Piece>
    requires i <= |p|
    decreases |p| - i
  {
    if i == |p| then out
    else if p[i] == '*' then
      if i + 1 < |p| && p[i + 1] == '*' then
        if i == 0 && i + 2 < |p| && p[i + 2] == '/' then Translate(p, i + 3, out + [LeadingDirs])
        else if out != [] && out[|out| - 1] == Lit('/') && i + 2 < |p| && p[i + 2] == '/'
        then Translate(p, i + 3, out[..|out| - 1] + [MiddleDirs])
        else Translate(p, i + 2, out + [AnyPath])
      else Translate(p, i + 1, out + [AnyInSegment])
    else if p[i] == '?' then Translate(p, i + 1, out + [OneInSegment])
    else Translate(p, i + 1, out + [Lit(p[i])])
  }

  function Compile(p: string): seq<Piece> { Translate(p, 0, []) }

  /** `_glob_to_regex`: the index walk with its look-back at the last piece and its pop. */
  method GlobToRegex(pattern: string) returns (out: seq<Piece>)
    ensures out == Compile(pattern)
  {
    var i, n := 0, |pattern|;
    out := [];
    while i < n
      invariant i <= n && Translate(pattern, i, out) == Compile(pattern)
      decreases n - i
    {
      var c := pattern[i];
      if c == '*' {
        if i + 1 < n && pattern[i + 1] == '*' {
          if i == 0 && i + 2 < n && pattern[i + 2] == '/' {
            out, i := out + [LeadingDirs], i + 3;
            continue;
          }
          if out != [] && out[|out| - 1] == Lit('/') && i + 2 < n && pattern[i + 2] == '/' {
            out := out[..|out| - 1];
            out, i := out + [MiddleDirs], i + 3;
            continue;
          }
          out, i := out + [AnyPath], i + 2;
          continue;
        }
        out, i := out + [AnyInSegment], i + 1;
        continue;
      }
      if c == '?' {
        out, i := out + [OneInSegment], i + 1;
        continue;
      }
      out, i := out + [Lit(c)], i + 1;
    }
  }

  function Weight(ps: seq<Piece>): nat {
    if ps == [] then 0
    else (match ps[0] case LeadingDirs => 3 case MiddleDirs => 4 case _ => 1) + Weight(ps[1..])
  }

  lemma PrependWeights(ps: seq<Piece>)
    ensures Weight([Lit('/')] + ps) == 1 + Weight(ps)
    ensures Weight([AnyPath, Lit('/')] + ps) == 2 + Weight(ps)
    ensures Weight([Lit('/'), AnyPath, Lit('/')] + ps) == 3 + Weight(ps)
  {
    assert ([Lit('/')] + ps)[1..] == ps;
    assert ([AnyPath, Lit('/')] + ps)[1..] == [Lit('/')] + ps;
    assert ([Lit('/'), AnyPath, Lit('/')] + ps)[1..] == [AnyPath, Lit('/')] + ps;
  }

  /** The pieces match the whole text; `.` stops at a newline. */
  predicate PiecesMatch(ps: seq<Piece>, s: string)
    decreases |s| + Weight(ps)
  {
    if ps == [] then s == ""
    else
      var rest := ps[1..];
      match ps[0]
      case Lit(c) => s != "" && s[0] == c && PiecesMatch(rest, s[1..])
      case OneInSegment => s != "" && s[0] != '/' && PiecesMatch(rest, s[1..])
      case AnyInSegment => PiecesMatch(rest, s) || (s != "" && s[0] != '/' && PiecesMatch(ps, s[1..]))
      case AnyPath => PiecesMatch(rest, s) || (s != "" && s[0] != '\n' && PiecesMatch(ps, s[1..]))
      case LeadingDirs =>
        PrependWeights(rest);
        PiecesMatch(rest, s) || PiecesMatch([AnyPath, Lit('/')] + rest, s)
      case MiddleDirs =>
        PrependWeights(rest);
        PiecesMatch([Lit('/')] + rest, s) || PiecesMatch([Lit('/'), AnyPath, Lit('/')] + rest, s)
  }

  // ---- the pieces as a regular expression ----

  ghost predicate Cuts(ps: seq<Piece>, qs: seq<Piece>, s: string, i: int) {
    0 <= i <= |s| && PiecesMatch(ps, s[..i]) && PiecesMatch(qs, s[i..])
  }

  ghost predicate CutSomewhere(ps: seq<Piece>, qs: seq<Piece>, s: string) { exists i :: Cuts(ps, qs, s, i) }

  /** The characters a piece takes one at a time. */
  predicate Takes(p: Piece, c: char) {
    match p
    case Lit(l) => c == l
    case OneInSegment => c != '/'
    case AnyInSegment => c != '/'
    case AnyPath => c != '\n'
    case LeadingDirs => false
    case MiddleDirs => false
  }

  /** The first character of a text left of a cut. */
  lemma CutShift(ps: seq<Piece>, qs: seq<Piece>, s: string, i: int)
    requires 0 < i <= |s|
    ensures s[..i][0] == s[0]
    ensures Cuts(ps, qs, s[1..], i - 1) <==> PiecesMatch(ps, s[..i][1..]) && PiecesMatch(qs, s[i..])
  {
    assert s[..i][1..] == s[1..][..i - 1] && s[i..] == s[1..][i - 1..];
  }

  lemma CutNothing(qs: seq<Piece>, s: string)
    ensures CutSomewhere([], qs, s) <==> PiecesMatch(qs, s)
  {
    assert s[0..] == s && s[..0] == "";
    if PiecesMatch(qs, s) { assert Cuts([], qs, s, 0); }
    hide PiecesMatch;
    forall i | Cuts([], qs, s, i) ensures i == 0 { OnlyEmpty(s[..i]); }
  }

  lemma OnlyEmpty(t: string)
    ensures PiecesMatch([], t) <==> t == ""
  {}

  lemma CutOne(ps: seq<Piece>, qs: seq<Piece>, s: string)
    requires ps != [] && (ps[0].Lit? || ps[0].OneInSegment?)
    ensures CutSomewhere(ps, qs, s) <==> s != "" && Takes(ps[0], s[0]) && CutSomewhere(ps[1..], qs, s[1..])
  {
    if i :| Cuts(ps, qs, s, i) {
      CutShift(ps[1..], qs, s, i);
      assert Cuts(ps[1..], qs, s[1..], i - 1);
    }
    if s != "" && Takes(ps[0], s[0]) && CutSomewhere(ps[1..], qs, s[1..]) {
      var i :| Cuts(ps[1..], qs, s[1..], i);
      CutShift(ps[1..], qs, s, i + 1);
      assert Cuts(ps, qs, s, i + 1);
    }
  }

  lemma CutMany(ps: seq<Piece>, qs: seq<Piece>, s: string)
    requires ps != [] && (ps[0].AnyInSegment? || ps[0].AnyPath?)
    ensures CutSomewhere(ps, qs, s)
        <==> CutSomewhere(ps[1..], qs, s) || (s != "" && Takes(ps[0], s[0]) && CutSomewhere(ps, qs, s[1..]))
  {
    if i :| Cuts(ps, qs, s, i) {
      if PiecesMatch(ps[1..], s[..i]) {
        assert Cuts(ps[1..], qs, s, i);
      } else {
        CutShift(ps, qs, s, i);
        assert Cuts(ps, qs, s[1..], i - 1);
      }
    }
    if i :| Cuts(ps[1..], qs, s, i) { assert Cuts(ps, qs, s, i); }
    if s != "" && Takes(ps[0], s[0]) && CutSomewhere(ps, qs, s[1..]) {
      var i :| Cuts(ps, qs, s[1..], i);
      CutShift(ps, qs, s, i + 1);
      assert Cuts(ps, qs, s, i + 1);
    }
  }

  lemma CutEither(ps: seq<Piece>, a: seq<Piece>, b: seq<Piece>, qs: seq<Piece>, s: string)
    requires forall t :: PiecesMatch(ps, t) <==> PiecesMatch(a, t) || PiecesMatch(b, t)
    ensures CutSomewhere(ps, qs, s) <==> CutSomewhere(a, qs, s) || CutSomewhere(b, qs, s)
  {
    hide PiecesMatch;
    if i :| Cuts(ps, qs, s, i) { assert Cuts(a, qs, s, i) || Cuts(b, qs, s, i); }
    if i :| Cuts(a, qs, s, i) { assert Cuts(ps, qs, s, i); }
    if i :| Cuts(b, qs, s, i) { assert Cuts(ps, qs, s, i); }
  }

  /** The two readings of an optional group. */
  function Without(p: Piece): seq<Piece> { if p == LeadingDirs then [] else [Lit('/')] }

  function With(p: Piece): seq<Piece> {
    if p == LeadingDirs then [AnyPath, Lit('/')] else [Lit('/'), AnyPath, Lit('/')]
  }

  lemma GroupUnfolds(ps: seq<Piece>, t: string)
    requires ps != [] && (ps[0] == LeadingDirs || ps[0] == MiddleDirs)
    ensures PiecesMatch(ps, t) <==> PiecesMatch(Without(ps[0]) + ps[1..], t) || PiecesMatch(With(ps[0]) + ps[1..], t)
    ensures Weight(Without(ps[0]) + ps[1..]) < Weight(ps) && Weight(With(ps[0]) + ps[1..]) < Weight(ps)
  {
    PrependWeights(ps[1..]);
    assert [] + ps[1..] == ps[1..];
  }

  lemma ConcatGroup(ps: seq<Piece>, qs: seq<Piece>, s: string)
    requires ps != [] && (ps[0] == LeadingDirs || ps[0] == MiddleDirs)
    requires var a := Without(ps[0]) + ps[1..]; PiecesMatch(a + qs, s) <==> CutSomewhere(a, qs, s)
    requires var b := With(ps[0]) + ps[1..]; PiecesMatch(b + qs, s) <==> CutSomewhere(b, qs, s)
    ensures PiecesMatch(ps + qs, s) <==> CutSomewhere(ps, qs, s)
  {
    hide *;
    var a, b := Without(ps[0]) + ps[1..], With(ps[0]) + ps[1..];
    GroupUnfolds(ps + qs, s);
    forall t ensures PiecesMatch(ps, t) <==> PiecesMatch(a, t) || PiecesMatch(b, t) { GroupUnfolds(ps, t); }
    assert (ps + qs)[1..] == ps[1..] + qs;
    assert a + qs == Without(ps[0]) + (ps[1..] + qs) && b + qs == With(ps[0]) + (ps[1..] + qs);
    CutEither(ps, a, b, qs, s);
  }

  lemma OneUnfolds(ps: seq<Piece>, s: string)
    requires ps != [] && (ps[0].Lit? || ps[0].OneInSegment?)
    ensures PiecesMatch(ps, s) <==> s != "" && Takes(ps[0], s[0]) && PiecesMatch(ps[1..], s[1..])
    ensures Weight(ps[1..]) <= Weight(ps)
  {}

  lemma ManyUnfolds(ps: seq<Piece>, s: string)
    requires ps != [] && (ps[0].AnyInSegment? || ps[0].AnyPath?)
    ensures PiecesMatch(ps, s)
        <==> PiecesMatch(ps[1..], s) || (s != "" && Takes(ps[0], s[0]) && PiecesMatch(ps, s[1..]))
    ensures Weight(ps[1..]) < Weight(ps)
  {}

  /** Pieces one after the other match exactly the texts that can be cut in two. */
  lemma {:induction false} PiecesConcat(ps: seq<Piece>, qs: seq<Piece>, s: string)
    ensures PiecesMatch(ps + qs, s) <==> CutSomewhere(ps, qs, s)
    decreases |s| + Weight(ps)
  {
    hide *;
    if ps == [] {
      assert [] + qs == qs;
      CutNothing(qs, s);
    } else if ps[0] == LeadingDirs || ps[0] == MiddleDirs {
      GroupUnfolds(ps, s);
      PiecesConcat(Without(ps[0]) + ps[1..], qs, s);
      PiecesConcat(With(ps[0]) + ps[1..], qs, s);
      ConcatGroup(ps, qs, s);
    } else {
      assert (ps + qs)[0] == ps[0] && (ps + qs)[1..] == ps[1..] + qs;
      if ps[0].Lit? || ps[0].OneInSegment? {
        OneUnfolds(ps + qs, s);
        OneUnfolds(ps, s);
        if s != "" { PiecesConcat(ps[1..], qs, s[1..]); }
        CutOne(ps, qs, s);
      } else {
        ManyUnfolds(ps + qs, s);
        ManyUnfolds(ps, s);
        PiecesConcat(ps[1..], qs, s);
        if s != "" { PiecesConcat(ps, qs, s[1..]); }
        CutMany(ps, qs, s);
      }
    }
  }

  /** What each piece matches by itself. */
  lemma PieceMeaning(p: Piece, s: string)
    ensures PiecesMatch([p], s)
        <==> match p
             case Lit(c) => s == [c]
             case OneInSegment => |s| == 1 && s[0] != '/'
             case AnyInSegment => '/' !in s
             case AnyPath => '\n' !in s
             case LeadingDirs => s == "" || EndsDirs(s)
             case MiddleDirs => s == "/" || (s != "" && s[0] == '/' && EndsDirs(s[1..]))
  {
    assert [p][1..] == [];
    match p {
      case Lit(_) => assert s != "" ==> s == [s[0]] + s[1..];
      case OneInSegment =>
      case AnyInSegment => RunMeaning(p, s);
      case AnyPath => RunMeaning(p, s);
      case LeadingDirs =>
        assert [AnyPath, Lit('/')] + [] == [AnyPath, Lit('/')];
        DirsMeaning(s);
      case MiddleDirs =>
        assert [Lit('/')] + [] == [Lit('/')] && [Lit('/')][1..] == [];
        assert [Lit('/'), AnyPath, Lit('/')] + [] == [Lit('/'), AnyPath, Lit('/')];
        assert [Lit('/'), AnyPath, Lit('/')][1..] == [AnyPath, Lit('/')];
        if s != "" {
          assert s == [s[0]] + s[1..];
          DirsMeaning(s[1..]);
          OnlyEmpty(s[1..]);
          assert PiecesMatch([Lit('/')], s) <==> s == "/";
          assert PiecesMatch([Lit('/'), AnyPath, Lit('/')], s) <==> s[0] == '/' && EndsDirs(s[1..]);
        }
    }
  }

  /** Directories with their slash. */
  predicate EndsDirs(s: string) { s != "" && s[|s| - 1] == '/' && '\n' !in s }

  lemma {:induction false} RunMeaning(p: Piece, s: string)
    requires p == AnyInSegment || p == AnyPath
    ensures PiecesMatch([p], s) <==> forall i :: 0 <= i < |s| ==> Takes(p, s[i])
  {
    assert [p][1..] == [];
    if s == "" {
    } else {
      RunMeaning(p, s[1..]);
      assert forall i :: 0 < i < |s| ==> s[i] == s[1..][i - 1];
      assert forall i :: 0 <= i < |s[1..]| ==> s[1..][i] == s[i + 1];
    }
  }

  lemma {:induction false} DirsMeaning(s: string)
    ensures PiecesMatch([AnyPath, Lit('/')], s) <==> EndsDirs(s)
  {
    assert [AnyPath, Lit('/')][1..] == [Lit('/')] && [Lit('/')][1..] == [];
    if s == "" {
    } else {
      DirsMeaning(s[1..]);
      OnlyEmpty(s[1..]);
      assert s == [s[0]] + s[1..];
      assert PiecesMatch([Lit('/')], s) <==> s == "/";
      assert '\n' in s <==> s[0] == '\n' || '\n' in s[1..];
      assert |s| > 1 ==> s[1..][|s| - 2] == s[|s| - 1];
    }
  }

  /** `_match_glob`, case-sensitive: `$` also accepts one trailing newline. */
  predicate MatchGlob(path: string, pattern: string) {
    var ps := Compile(pattern);
    PiecesMatch(ps, path) || (path != "" && path[|path| - 1] == '\n' && PiecesMatch(ps, path[..|path| - 1]))
  }

  /** A path matches when the pieces match it, or match it up to one newline at its end, as `$` allows. */
  lemma MatchGlobIff(path: string, pattern: string)
    ensures MatchGlob(path, pattern)
        <==> || PiecesMatch(Compile(pattern), path)
             || exists front :: path == front + "\n" && PiecesMatch(Compile(pattern), front)
  {
    hide PiecesMatch, Compile;
    if path != "" && path[|path| - 1] == '\n' {
      assert path == path[..|path| - 1] + "\n";
    }
    forall front | path == front + "\n" ensures front == path[..|path| - 1] && path[|path| - 1] == '\n' {}
  }

  // ---- the segment-level meaning ----

  function SlashAt(s: string): (k: nat)
    ensures k <= |s| && (k < |s| ==> s[k] == '/')
    ensures forall i :: 0 <= i < k ==> s[i] != '/'
  {
    if s == "" || s[0] == '/' then 0 else 1 + SlashAt(s[1..])
  }

  /** `s.split("/")`. */
  function Split(s: string): (r: seq<string>)
    ensures r != []
    decreases |s|
  {
    var k := SlashAt(s);
    if k == |s| then [s] else [s[..k]] + Split(s[k + 1..])
  }

  /** `*` and `?` inside one segment. */
  predicate WildMatch(p: string, s: string)
    decreases |p| + |s|
  {
    if p == "" then s == ""
    else if p[0] == '*' then WildMatch(p[1..], s) || (s != "" && WildMatch(p, s[1..]))
    else s != "" && (p[0] == '?' || p[0] == s[0]) && WildMatch(p[1..], s[1..])
  }

  const STARS := "**"

  /** Segments against segments. A "**" stands for zero or more segments, but for one or
      more when it is the last segment of the pattern or directly follows a "**" that
      stood for zero or more and swallowed the slash (slashed is false). */
  predicate SegMatch(pats: seq<string>, slashed: bool, segs: seq<string>)
    decreases |pats| + |segs|
  {
    if pats == [] then segs == []
    else if pats[0] != STARS then segs != [] && WildMatch(pats[0], segs[0]) && SegMatch(pats[1..], true, segs[1..])
    else if |pats| == 1 || !slashed then
      segs != [] && (SegMatch(pats[1..], true, segs[1..]) || SegMatch(pats, slashed, segs[1..]))
    else SegMatch(pats[1..], false, segs) || (segs != [] && SegMatch(pats, true, segs[1..]))
  }

  predicate NoDoubleStar(p: string) { forall i :: 0 <= i < |p| - 1 ==> !(p[i] == '*' && p[i + 1] == '*') }

  predicate NoSlash(p: string) { forall i :: 0 <= i < |p| ==> p[i] != '/' }

  /** Every "**" of the pattern is a whole segment. */
  predicate WholeStars(pats: seq<string>) {
    forall i :: 0 <= i < |pats| ==> NoSlash(pats[i]) && (pats[i] == STARS || NoDoubleStar(pats[i]))
  }

  predicate NoNewline(s: string) { forall i :: 0 <= i < |s| ==> s[i] != '\n' }

  // ---- what each pattern compiles to ----

  /** A segment without "**", character by character. */
  function SegmentPieces(p: string): seq<Piece> {
    if p == "" then []
    else [if p[0] == '*' then AnyInSegment else if p[0] == '?' then OneInSegment else Lit(p[0])] + SegmentPieces(p[1..])
  }

  /** Segments still to come, each with the slash before it. */
  function Tail(pats: seq<string>): seq<Piece>
    decreases |pats|, 0
  {
    if pats == [] then []
    else if pats[0] != STARS then [Lit('/')] + SegmentPieces(pats[0]) + Tail(pats[1..])
    else if |pats| == 1 then [Lit('/'), AnyPath]
    else [MiddleDirs] + Start(pats[1..])
  }

  /** Segments to come when the slash before the first is already emitted, as part of an
      optional group. */
  function Start(pats: seq<string>): seq<Piece>
    decreases |pats|, 1
  {
    if pats == [] then []
    else if pats[0] != STARS then SegmentPieces(pats[0]) + Tail(pats[1..])
    else [AnyPath] + Tail(pats[1..])
  }

  function Head(pats: seq<string>): seq<Piece> {
    if pats == [] || pats[0] != STARS || |pats| == 1 then Start(pats) else [LeadingDirs] + Start(pats[1..])
  }

  lemma SplitStep(s: string)
    ensures var k := SlashAt(s);
            Split(s)[0] == s[..k] && Split(s)[1..] == if k < |s| then Split(s[k + 1..]) else []
  {
    hide SlashAt;
    var k := SlashAt(s);
    var tail := if k < |s| then Split(s[k + 1..]) else [];
    assert k == |s| ==> s[..k] == s;
    assert Split(s) == [s[..k]] + tail;
    hide Split;
    assert ([s[..k]] + tail)[1..] == tail;
  }

  lemma WholeStarsTail(pats: seq<string>)
    requires pats != [] && WholeStars(pats)
    ensures WholeStars(pats[1..])
  {
    hide NoSlash, NoDoubleStar;
    assert forall i :: 0 <= i < |pats[1..]| ==> pats[1..][i] == pats[i + 1];
  }

  /** Where the segment starting at index i of the pattern ends. */
  function SegEnd(p: string, i: nat): (e: nat)
    requires i <= |p|
    ensures i <= e <= |p| && (e < |p| ==> p[e] == '/')
  {
    i + SlashAt(p[i..])
  }

  /** The segments from index i on, in the coordinates of the whole pattern. */
  lemma SplitFrom(p: string, i: nat)
    requires i <= |p|
    ensures var e, pats := SegEnd(p, i), Split(p[i..]);
            && pats[0] == p[i..e]
            && pats[1..] == (if e < |p| then Split(p[e + 1..]) else [])
            && (WholeStars(pats) ==> WholeStars(pats[1..]))
            && (pats[0] == STARS ==> e == i + 2 && p[i] == '*' && p[i + 1] == '*')
  {
    hide SlashAt, Split, WholeStars;
    var u := p[i..];
    SplitStep(u);
    var k := SlashAt(u);
    assert u[..k] == p[i..i + k];
    if k < |u| { assert u[k + 1..] == p[i + k + 1..]; }
    if WholeStars(Split(u)) { WholeStarsTail(Split(u)); }
    if p[i..i + k] == STARS { assert p[i..i + k][0] == p[i] && p[i..i + k][1] == p[i + 1]; }
  }

  lemma {:induction false} SegmentRun(p: string, i: nat, j: nat, out: seq<Piece>)
    requires i <= j <= |p| && (j == |p| || p[j] == '/')
    requires NoDoubleStar(p[i..j]) && NoSlash(p[i..j])
    ensures Translate(p, i, out) == Translate(p, j, out + SegmentPieces(p[i..j]))
    decreases j - i
  {
    var w := p[i..j];
    if i == j {
      assert out + SegmentPieces(w) == out;
    } else {
      assert w[0] == p[i] && w[1..] == p[i + 1..j];
      if i + 1 < j { assert w[1] == p[i + 1]; }
      assert NoDoubleStar(w[1..]) && NoSlash(w[1..]) by {
        forall k | 0 <= k < |w[1..]| - 1 ensures !(w[1..][k] == '*' && w[1..][k + 1] == '*') {
          assert w[1..][k] == w[k + 1] && w[1..][k + 1] == w[k + 2];
        }
      }
      SegmentRun(p, i + 1, j, out + [SegmentPieces(w)[0]]);
      assert out + [SegmentPieces(w)[0]] + SegmentPieces(w[1..]) == out + SegmentPieces(w);
    }
  }

  /** A slash is emitted as it is, and popped again by a "**" segment in the middle. */
  lemma SlashThenStars(p: string, i: nat, out: seq<Piece>)
    requires i < |p| && p[i] == '/'
    ensures Translate(p, i, out) == Translate(p, i + 1, out + [Lit('/')])
    ensures i + 3 == |p| && p[i + 1] == '*' && p[i + 2] == '*' ==>
              Translate(p, i, out) == out + [Lit('/')] + [AnyPath]
    ensures i + 3 < |p| && p[i + 1] == '*' && p[i + 2] == '*' && p[i + 3] == '/' ==>
              Translate(p, i, out) == Translate(p, i + 4, out + [MiddleDirs])
  {
    assert (out + [Lit('/')])[..|out|] == out;
  }

  /** From a slash on, the compiler emits Tail of the segments that follow. */
  lemma {:induction false} TailRun(p: string, i: nat, out: seq<Piece>)
    requires i < |p| && p[i] == '/' && WholeStars(Split(p[i + 1..]))
    ensures Translate(p, i, out) == out + Tail(Split(p[i + 1..]))
    decreases |p| - i, 1
  {
    hide WholeStars, Split, SegEnd, SegmentPieces, Translate, Start;
    var pats, e, out' := Split(p[i + 1..]), SegEnd(p, i + 1), out + [Lit('/')];
    SplitFrom(p, i + 1);
    SlashThenStars(p, i, out);
    if pats[0] != STARS {
      PlainRun(p, i + 1, out');
      assert out' + SegmentPieces(pats[0]) + Tail(pats[1..])
          == out + ([Lit('/')] + SegmentPieces(pats[0]) + Tail(pats[1..]));
    } else if e == |p| {
      assert out' + [AnyPath] == out + [Lit('/'), AnyPath];
    } else {
      StartRun(p, i + 4, out + [MiddleDirs]);
      assert out + [MiddleDirs] + Start(pats[1..]) == out + ([MiddleDirs] + Start(pats[1..]));
    }
  }

  lemma {:induction false} PlainRun(p: string, i: nat, out: seq<Piece>)
    requires i <= |p| && WholeStars(Split(p[i..])) && Split(p[i..])[0] != STARS
    ensures Translate(p, i, out) == out + SegmentPieces(Split(p[i..])[0]) + Tail(Split(p[i..])[1..])
    decreases |p| - i, 2
  {
    hide Split, SegEnd, SegmentPieces;
    var e := SegEnd(p, i);
    SplitFrom(p, i);
    assert NoSlash(Split(p[i..])[0]) && NoDoubleStar(Split(p[i..])[0]);
    hide NoSlash, NoDoubleStar, WholeStars;
    SegmentRun(p, i, e, out);
    if e < |p| {
      TailRun(p, e, out + SegmentPieces(p[i..e]));
    } else {
      assert out + SegmentPieces(p[i..e]) + [] == out + SegmentPieces(p[i..e]);
    }
  }

  /** After an optional group, the compiler emits Start of the segments that follow. */
  lemma {:induction false} StartRun(p: string, i: nat, out: seq<Piece>)
    requires 0 < i <= |p| && WholeStars(Split(p[i..]))
    requires out != [] && out[|out| - 1] != Lit('/')
    ensures Translate(p, i, out) == out + Start(Split(p[i..]))
    decreases |p| - i, 3
  {
    hide *;
    var pats, e := Split(p[i..]), SegEnd(p, i);
    SplitFrom(p, i);
    StartUnfolds(pats);
    if pats[0] != STARS {
      PlainRun(p, i, out);
      assert out + SegmentPieces(pats[0]) + Tail(pats[1..]) == out + (SegmentPieces(pats[0]) + Tail(pats[1..]));
    } else {
      StarsFirst(p, i, out);
      if e == |p| {
        AtEnd(p, out + [AnyPath]);
        assert out + [AnyPath] == out + ([AnyPath] + []);
      } else {
        TailRun(p, i + 2, out + [AnyPath]);
        assert out + [AnyPath] + Tail(pats[1..]) == out + ([AnyPath] + Tail(pats[1..]));
      }
    }
  }

  lemma StartUnfolds(pats: seq<string>)
    requires pats != []
    ensures Start(pats) == (if pats[0] != STARS then SegmentPieces(pats[0]) else [AnyPath]) + Tail(pats[1..])
    ensures Tail([]) == []
  {}

  lemma AtEnd(p: string, out: seq<Piece>)
    ensures Translate(p, |p|, out) == out
  {}

  /** Stars that follow no slash become `.*`. */
  lemma StarsFirst(p: string, i: nat, out: seq<Piece>)
    requires 0 < i < |p| - 1 && p[i] == '*' && p[i + 1] == '*'
    requires out != [] && out[|out| - 1] != Lit('/')
    ensures Translate(p, i, out) == Translate(p, i + 2, out + [AnyPath])
  {}

  /** The whole pattern compiles to Head of its segments. */
  lemma CompileIsHead(p: string)
    requires WholeStars(Split(p))
    ensures Compile(p) == Head(Split(p))
  {
    hide WholeStars, Split, SegEnd, SegmentPieces;
    var pats, e := Split(p), SegEnd(p, 0);
    assert p[0..] == p;
    SplitFrom(p, 0);
    if pats[0] != STARS {
      PlainRun(p, 0, []);
      assert [] + SegmentPieces(pats[0]) + Tail(pats[1..]) == SegmentPieces(pats[0]) + Tail(pats[1..]);
    } else if e < |p| {
      assert [] + [LeadingDirs] == [LeadingDirs];
      assert Translate(p, 0, []) == Translate(p, 3, [LeadingDirs]);
      StartRun(p, 3, [LeadingDirs]);
    } else {
      assert [] + [AnyPath] == [AnyPath] + Tail(pats[1..]);
      assert Translate(p, 0, []) == Translate(p, 2, [AnyPath]) == [AnyPath];
    }
  }

  // ---- what the pieces match ----

  /** The pieces only match nothing or a text that starts with a slash. */
  ghost predicate AtBoundary(ps: seq<Piece>) { forall t :: PiecesMatch(ps, t) ==> t == "" || t[0] == '/' }

  lemma TailBoundary(pats: seq<string>)
    ensures AtBoundary(Tail(pats))
  {
    hide SegmentPieces;
    forall t | PiecesMatch(Tail(pats), t) ensures t == "" || t[0] == '/' {
      if pats != [] && pats[0] == STARS && |pats| > 1 && t != "" {
        MiddleDirsUnfold(Start(pats[1..]), t);
      } else if pats != [] {
        assert Tail(pats)[0] == if pats[0] == STARS && |pats| > 1 then MiddleDirs else Lit('/');
      }
    }
  }

  lemma {:induction false} SegmentPiecesMatch(p: string, ps: seq<Piece>, s: string)
    requires NoSlash(p) && AtBoundary(ps)
    ensures var k := SlashAt(s);
            PiecesMatch(SegmentPieces(p) + ps, s) <==> WildMatch(p, s[..k]) && PiecesMatch(ps, s[k..])
    decreases |p| + |s|
  {
    var k := SlashAt(s);
    if p == "" {
      assert SegmentPieces(p) + ps == ps;
      assert k == 0 ==> s[k..] == s;
    } else {
      var rest := SegmentPieces(p[1..]) + ps;
      assert (SegmentPieces(p) + ps)[0] == SegmentPieces(p)[0] && (SegmentPieces(p) + ps)[1..] == rest;
      assert NoSlash(p[1..]) by { assert forall i :: 0 <= i < |p[1..]| ==> p[1..][i] == p[i + 1]; }
      if p[0] == '*' { SegmentPiecesMatch(p[1..], ps, s); }
      if k > 0 {
        assert s[..k][1..] == s[1..][..k - 1] && s[k..] == s[1..][k - 1..];
        if p[0] == '*' { SegmentPiecesMatch(p, ps, s[1..]); } else { SegmentPiecesMatch(p[1..], ps, s[1..]); }
      }
    }
  }

  lemma {:induction false} AnyPathAll(s: string)
    requires NoNewline(s)
    ensures PiecesMatch([AnyPath], s)
  {
    assert [AnyPath][1..] == [];
    if s == "" {
    } else {
      assert NoNewline(s[1..]) by { assert forall i :: 0 <= i < |s[1..]| ==> s[1..][i] == s[i + 1]; }
      AnyPathAll(s[1..]);
    }
  }

  lemma NoNewlineFrom(s: string, i: nat)
    requires i <= |s| && NoNewline(s)
    ensures NoNewline(s[i..])
  {
    assert forall k :: 0 <= k < |s[i..]| ==> s[i..][k] == s[i + k];
  }

  /** `.*` followed by something anchored at slashes skips whole segments. */
  lemma {:induction false} AnyPathStep(ps: seq<Piece>, u: string)
    requires NoNewline(u) && AtBoundary(ps)
    ensures var k := SlashAt(u);
            PiecesMatch([AnyPath] + ps, u)
            <==> PiecesMatch(ps, u[k..]) || (k < |u| && PiecesMatch([AnyPath] + ps, u[k + 1..]))
    decreases |u|
  {
    var k := SlashAt(u);
    assert ([AnyPath] + ps)[1..] == ps;
    if k > 0 {
      NoNewlineFrom(u, 1);
      AnyPathStep(ps, u[1..]);
      assert u[1..][k - 1..] == u[k..];
      assert k < |u| ==> u[1..][k..] == u[k + 1..];
    } else {
      assert u[0..] == u;
    }
  }

  /** Skipping over the first segment with `.*` and a slash. */
  lemma {:induction false} SlashStep(ps: seq<Piece>, u: string)
    requires NoNewline(u)
    ensures var k, any := SlashAt(u), [AnyPath, Lit('/')] + ps;
            PiecesMatch(any, u) <==> k < |u| && (PiecesMatch(ps, u[k + 1..]) || PiecesMatch(any, u[k + 1..]))
    decreases |u|
  {
    var k, any := SlashAt(u), [AnyPath, Lit('/')] + ps;
    assert any[1..] == [Lit('/')] + ps && ([Lit('/')] + ps)[1..] == ps;
    if k == 0 {
    } else {
      NoNewlineFrom(u, 1);
      SlashStep(ps, u[1..]);
      assert k < |u| ==> u[1..][k..] == u[k + 1..];
    }
  }

  lemma {:induction false} SegMatchNil(pats: seq<string>, slashed: bool)
    ensures SegMatch(pats, slashed, []) <==> pats == []
    decreases |pats|
  {
    if pats == [] {
    } else {
      SegMatchNil(pats[1..], false);
    }
  }

  /** An optional group of directories in front of a matcher for the remaining segments. */
  lemma {:induction false} GroupMeaning(pats: seq<string>, u: string)
    requires |pats| > 1 && pats[0] == STARS && WholeStars(pats) && NoNewline(u)
    ensures PiecesMatch(Start(pats[1..]), u) || PiecesMatch([AnyPath, Lit('/')] + Start(pats[1..]), u)
       <==> SegMatch(pats, true, Split(u))
    decreases |pats|, 1, |u|
  {
    hide NoSlash, NoDoubleStar, PiecesMatch;
    var ps, k := Start(pats[1..]), SlashAt(u);
    StartMeaning(pats[1..], u);
    SlashStep(ps, u);
    SplitStep(u);
    if k < |u| {
      NoNewlineFrom(u, k + 1);
      GroupMeaning(pats, u[k + 1..]);
    } else {
      SegMatchNil(pats, true);
    }
  }

  lemma {:induction false} PlainMeaning(pats: seq<string>, u: string)
    requires pats != [] && pats[0] != STARS && WholeStars(pats) && NoNewline(u)
    ensures PiecesMatch(SegmentPieces(pats[0]) + Tail(pats[1..]), u) <==> SegMatch(pats, true, Split(u))
    decreases |pats|, 0
  {
    hide NoSlash, NoDoubleStar, PiecesMatch, SegmentPieces;
    var k := SlashAt(u);
    TailBoundary(pats[1..]);
    SegmentPiecesMatch(pats[0], Tail(pats[1..]), u);
    SplitStep(u);
    NoNewlineFrom(u, k);
    TailMeaning(pats[1..], u[k..]);
    SegMatchNil(pats[1..], true);
    assert k < |u| ==> u[k..][1..] == u[k + 1..];
  }

  lemma {:induction false} TailMeaning(pats: seq<string>, t: string)
    requires WholeStars(pats) && NoNewline(t)
    ensures PiecesMatch(Tail(pats), t)
        <==> if t == "" then pats == [] else t[0] == '/' && SegMatch(pats, true, Split(t[1..]))
    decreases |pats|, 2
  {
    hide NoSlash, NoDoubleStar, SegmentPieces;
    TailBoundary(pats);
    if t != "" { NoNewlineFrom(t, 1); }
    if pats != [] && t != "" {
      var u := t[1..];
      if pats[0] != STARS {
        PlainMeaning(pats, u);
        assert Tail(pats) == [Lit('/')] + (SegmentPieces(pats[0]) + Tail(pats[1..]));
      } else if |pats| == 1 {
        AnyPathAll(u);
        LastStars(Split(u));
        assert pats == [STARS];
        assert [Lit('/'), AnyPath][1..] == [AnyPath];
      } else {
        GroupMeaning(pats, u);
        MiddleDirsUnfold(Start(pats[1..]), t);
      }
    }
  }

  lemma MiddleDirsUnfold(ps: seq<Piece>, t: string)
    requires t != ""
    ensures PiecesMatch([MiddleDirs] + ps, t)
       <==> t[0] == '/' && (PiecesMatch(ps, t[1..]) || PiecesMatch([AnyPath, Lit('/')] + ps, t[1..]))
  {
    assert ([MiddleDirs] + ps)[1..] == ps;
    assert ([Lit('/')] + ps)[1..] == ps;
    assert ([Lit('/'), AnyPath, Lit('/')] + ps)[1..] == [AnyPath, Lit('/')] + ps;
  }

  lemma {:induction false} LastStars(segs: seq<string>)
    requires segs != []
    ensures SegMatch([STARS], true, segs) && SegMatch([STARS], false, segs)
  {
    assert [STARS][1..] == [];
    if |segs| > 1 { LastStars(segs[1..]); }
  }

  lemma {:induction false} StartMeaning(pats: seq<string>, u: string)
    requires pats != [] && WholeStars(pats) && NoNewline(u)
    ensures PiecesMatch(Start(pats), u) <==> SegMatch(pats, false, Split(u))
    decreases |pats|, 3, |u|
  {
    hide NoSlash, NoDoubleStar, SegmentPieces, PiecesMatch, Split, WildMatch;
    if pats[0] != STARS {
      PlainMeaning(pats, u);
    } else if |pats| == 1 {
      AnyPathAll(u);
      LastStars(Split(u));
      assert pats == [STARS];
      assert [AnyPath] + Tail(pats[1..]) == [AnyPath];
    } else {
      var ps, k := Tail(pats[1..]), SlashAt(u);
      TailBoundary(pats[1..]);
      AnyPathStep(ps, u);
      SplitStep(u);
      NoNewlineFrom(u, k);
      TailMeaning(pats[1..], u[k..]);
      SegMatchNil(pats[1..], true);
      SegMatchNil(pats, false);
      if k < |u| {
        assert u[k..][1..] == u[k + 1..];
        NoNewlineFrom(u, k + 1);
        StartMeaning(pats, u[k + 1..]);
      }
    }
  }

  /** The compiled glob means what its segments say: for every pattern whose "**" are whole
      segments and every path without a newline. */
  lemma GlobMeaning(pattern: string, path: string)
    requires WholeStars(Split(pattern)) && NoNewline(path)
    ensures MatchGlob(path, pattern) <==> SegMatch(Split(pattern), true, Split(path))
  {
    hide NoSlash, NoDoubleStar, SegmentPieces, Split;
    var pats := Split(pattern);
    CompileIsHead(pattern);
    if pats[0] != STARS {
      PlainMeaning(pats, path);
    } else if |pats| == 1 {
      StartMeaning(pats, path);
      LastStars(Split(path));
      assert pats == [STARS];
    } else {
      GroupMeaning(pats, path);
      assert ([LeadingDirs] + Start(pats[1..]))[1..] == Start(pats[1..]);
    }
  }

  // ---- stars that are no whole segment ----

  predicate NoStarPair(p: string) { NoDoubleStar(p) && (p == "" || (p[0] != '*' && p[|p| - 1] != '*')) }

  lemma {:induction false} PairFreeRun(p: string, i: nat, j: nat, out: seq<Piece>)
    requires i <= j <= |p| && NoDoubleStar(p[i..j]) && (i < j < |p| ==> !(p[j - 1] == '*' && p[j] == '*'))
    ensures Translate(p, i, out) == Translate(p, j, out + SegmentPieces(p[i..j]))
    decreases j - i
  {
    var w := p[i..j];
    if i == j {
      assert out + SegmentPieces(w) == out;
    } else {
      assert w[0] == p[i] && w[1..] == p[i + 1..j];
      if i + 1 < j { assert w[1] == p[i + 1]; }
      assert NoDoubleStar(w[1..]) by {
        forall k | 0 <= k < |w[1..]| - 1 ensures !(w[1..][k] == '*' && w[1..][k + 1] == '*') {
          assert w[1..][k] == w[k + 1] && w[1..][k + 1] == w[k + 2];
        }
      }
      PairFreeRun(p, i + 1, j, out + [SegmentPieces(w)[0]]);
      assert out + [SegmentPieces(w)[0]] + SegmentPieces(w[1..]) == out + SegmentPieces(w);
    }
  }

  lemma {:induction false} LastPiece(w: string)
    ensures |SegmentPieces(w)| == |w|
    ensures w != "" ==> (SegmentPieces(w)[|w| - 1] == Lit('/') <==> w[|w| - 1] == '/')
  {
    if |w| > 1 { LastPiece(w[1..]); }
  }

  lemma StarsStep(p: string, i: nat, out: seq<Piece>)
    requires i + 2 <= |p| && p[i] == '*' && p[i + 1] == '*'
    requires i + 2 < |p| && p[i + 2] == '/' ==> i > 0 && out != [] && out[|out| - 1] != Lit('/')
    ensures Translate(p, i, out) == Translate(p, i + 2, out + [AnyPath])
  {}

  lemma StarsPlace(a: string, b: string)
    ensures var p, n := a + STARS + b, |a|;
            && |p| == n + 2 + |b| && p[..n] == p[0..n] == a && p[n..n + 2] == STARS && p[n + 2..|p|] == b
            && p[n] == '*' && p[n + 1] == '*'
            && (b != "" ==> p[n + 2] == b[0]) && (a != "" ==> p[n - 1] == a[n - 1])
  {}

  lemma StarsCompile(a: string, b: string)
    requires NoStarPair(a) && NoStarPair(b) && (b != "" && b[0] == '/' ==> a != "" && a[|a| - 1] != '/')
    ensures Compile(a + STARS + b) == SegmentPieces(a) + [AnyPath] + SegmentPieces(b)
  {
    hide Translate, SegmentPieces, NoDoubleStar;
    var p, n, out := a + STARS + b, |a|, SegmentPieces(a);
    StarsPlace(a, b);
    PairFreeRun(p, 0, n, []);
    LastPiece(a);
    assert [] + out == out;
    StarsStep(p, n, out);
    PairFreeRun(p, n + 2, |p|, out + [AnyPath]);
    AtEnd(p, out + [AnyPath] + SegmentPieces(b));
  }

  /** A "**" between two texts, other than as a whole segment followed by more, stands for any part of
      the path, slashes included, as between "src/" and ".py". */
  lemma StarsInside(a: string, b: string, path: string)
    requires NoStarPair(a) && NoStarPair(b) && NoNewline(path)
    requires b != "" && b[0] == '/' ==> a != "" && a[|a| - 1] != '/'
    ensures MatchGlob(path, a + STARS + b)
        <==> exists i, k :: SpansStars(SegmentPieces(a), SegmentPieces(b), path, i, k)
  {
    StarsCompile(a, b);
    hide *;
    ThreeParts(SegmentPieces(a), SegmentPieces(b), path);
    MatchesPieces(path, a + STARS + b);
  }

  lemma MatchesPieces(path: string, pattern: string)
    requires NoNewline(path)
    ensures MatchGlob(path, pattern) <==> PiecesMatch(Compile(pattern), path)
  {}

  ghost predicate SpansStars(ps: seq<Piece>, qs: seq<Piece>, s: string, i: int, k: int) {
    0 <= i <= k <= |s| && PiecesMatch(ps, s[..i]) && PiecesMatch(qs, s[k..])
  }

  lemma ThreeParts(ps: seq<Piece>, qs: seq<Piece>, s: string)
    requires NoNewline(s)
    ensures PiecesMatch(ps + [AnyPath] + qs, s) <==> exists i, k :: SpansStars(ps, qs, s, i, k)
  {
    PiecesConcat(ps + [AnyPath], qs, s);
    forall t ensures PiecesMatch(ps + [AnyPath], t) <==> CutSomewhere(ps, [AnyPath], t) {
      PiecesConcat(ps, [AnyPath], t);
    }
    forall t ensures PiecesMatch([AnyPath], t) <==> '\n' !in t { PieceMeaning(AnyPath, t); }
    hide PiecesMatch;
    if k :| Cuts(ps + [AnyPath], qs, s, k) {
      var i :| Cuts(ps, [AnyPath], s[..k], i);
      assert s[..k][..i] == s[..i];
      assert SpansStars(ps, qs, s, i, k);
    }
    if i, k :| SpansStars(ps, qs, s, i, k) {
      assert s[..k][..i] == s[..i] && '\n' !in s[..k][i..];
      assert Cuts(ps, [AnyPath], s[..k], i);
      assert Cuts(ps + [AnyPath], qs, s, k);
    }
  }

  // ---- the documented reading ----

  /** The docstring's reading: every "**" stands for zero or more segments. */
  predicate DocMatch(pats: seq<string>, segs: seq<string>)
    decreases |pats| + |segs|
  {
    if pats == [] then segs == []
    else if pats[0] == STARS then DocMatch(pats[1..], segs) || (segs != [] && DocMatch(pats, segs[1..]))
    else segs != [] && WildMatch(pats[0], segs[0]) && DocMatch(pats[1..], segs[1..])
  }

  /** How many of the "**" need a segment of their own. */
  function Extra(pats: seq<string>, slashed: bool): nat {
    if pats == [] then 0
    else if pats[0] != STARS then Extra(pats[1..], true)
    else if |pats| == 1 || !slashed then 1 + Extra(pats[1..], true)
    else Extra(pats[1..], false)
  }

  /** The patterns for which code and docstring agree: the pattern does not end in "**" and
      no two "**" are adjacent, or it is nothing but one or two "**". */
  predicate ReadsAsDocumented(pats: seq<string>) {
    || pats == [STARS] || pats == [STARS, STARS]
    || forall i :: 0 <= i < |pats| && pats[i] == STARS ==> i + 1 < |pats| && pats[i + 1] != STARS
  }

  function Plain(pats: seq<string>): nat {
    if pats == [] then 0 else (if pats[0] == STARS then 0 else 1) + Plain(pats[1..])
  }

  lemma {:induction false} ExtraIff(pats: seq<string>)
    ensures Extra(pats, true) == 0
        <==> forall i :: 0 <= i < |pats| && pats[i] == STARS ==> i + 1 < |pats| && pats[i + 1] != STARS
  {
    if pats == [] {
    } else {
      ExtraIff(pats[1..]);
      if pats[0] == STARS && |pats| > 1 && pats[1] != STARS {
        assert Extra(pats[1..], false) == Extra(pats[1..], true);
      }
      assert forall i :: 0 <= i < |pats[1..]| ==> pats[1..][i] == pats[i + 1];
    }
  }

  lemma {:induction false} ExtraZeroAgrees(pats: seq<string>, slashed: bool, segs: seq<string>)
    requires Extra(pats, slashed) == 0
    ensures SegMatch(pats, slashed, segs) <==> DocMatch(pats, segs)
    decreases |pats| + |segs|
  {
    if pats == [] {
    } else {
      if pats[0] == STARS {
        ExtraZeroAgrees(pats[1..], false, segs);
        if segs != [] { ExtraZeroAgrees(pats, true, segs[1..]); }
      } else if segs != [] {
        ExtraZeroAgrees(pats[1..], true, segs[1..]);
      }
    }
  }

  lemma {:induction false} StarsMatchAll(pats: seq<string>, segs: seq<string>)
    requires pats != [] && Plain(pats) == 0
    ensures DocMatch(pats, segs)
    decreases |pats| + |segs|
  {
    if segs != [] {
      StarsMatchAll(pats, segs[1..]);
    } else if |pats| > 1 {
      StarsMatchAll(pats[1..], segs);
    }
  }

  /** The compiled glob never matches a path with fewer segments than its plain segments and
      needy "**" together. */
  lemma {:induction false} MinSegments(pats: seq<string>, slashed: bool, segs: seq<string>)
    requires SegMatch(pats, slashed, segs)
    ensures |segs| >= Plain(pats) + Extra(pats, slashed)
    decreases |pats| + |segs|
  {
    if pats == [] {
    } else {
      if pats[0] != STARS {
        MinSegments(pats[1..], true, segs[1..]);
      } else if |pats| == 1 || !slashed {
        if SegMatch(pats[1..], true, segs[1..]) { MinSegments(pats[1..], true, segs[1..]); }
        else { MinSegments(pats, slashed, segs[1..]); }
      } else if SegMatch(pats[1..], false, segs) {
        MinSegments(pats[1..], false, segs);
      } else {
        MinSegments(pats, true, segs[1..]);
      }
    }
  }

  /** A text a segment pattern matches. */
  function Sample(p: string): string {
    if p == "" then "" else (if p[0] == '*' then "" else if p[0] == '?' then "a" else [p[0]]) + Sample(p[1..])
  }

  lemma {:induction false} SampleMatches(p: string)
    requires NoSlash(p) && NoNewline(p)
    ensures WildMatch(p, Sample(p)) && NoSlash(Sample(p)) && NoNewline(Sample(p))
  {
    if p == "" {
    } else {
      assert forall i :: 0 <= i < |p[1..]| ==> p[1..][i] == p[i + 1];
      SampleMatches(p[1..]);
      if p[0] == '*' {
        assert "" + Sample(p[1..]) == Sample(p[1..]);
      } else {
        assert Sample(p)[1..] == Sample(p[1..]);
        assert forall i :: 1 <= i < |Sample(p)| ==> Sample(p)[i] == Sample(p[1..])[i - 1];
      }
    }
  }

  function Samples(pats: seq<string>): seq<string> {
    if pats == [] then [] else (if pats[0] == STARS then [] else [Sample(pats[0])]) + Samples(pats[1..])
  }

  function JoinSegments(segs: seq<string>): string {
    if segs == [] then "" else if |segs| == 1 then segs[0] else segs[0] + "/" + JoinSegments(segs[1..])
  }

  predicate PlainTexts(segs: seq<string>) {
    forall i :: 0 <= i < |segs| ==> NoSlash(segs[i]) && NoNewline(segs[i])
  }

  lemma {:induction false} SplitJoin(segs: seq<string>)
    requires segs != [] && PlainTexts(segs)
    ensures Split(JoinSegments(segs)) == segs && NoNewline(JoinSegments(segs))
  {
    hide WildMatch, Split, SlashAt;
    var s := JoinSegments(segs);
    SplitStep(s);
    if |segs| == 1 {
      assert SlashAt(s) == |s|;
      assert s[..|s|] == s;
      assert Split(s) == [Split(s)[0]] + Split(s)[1..];
    } else {
      var n := |segs[0]|;
      assert PlainTexts(segs[1..]);
      SplitJoin(segs[1..]);
      assert s[n] == '/' && s[..n] == segs[0] && s[n + 1..] == JoinSegments(segs[1..]);
      assert forall i :: 0 <= i < n ==> s[i] == segs[0][i];
      assert forall i :: n < i < |s| ==> s[i] == s[n + 1..][i - n - 1];
      assert SlashAt(s) == n;
      assert Split(s) == [Split(s)[0]] + Split(s)[1..];
    }
  }

  lemma {:induction false} SamplesMatch(pats: seq<string>)
    requires WholeStars(pats) && forall i :: 0 <= i < |pats| ==> NoNewline(pats[i])
    ensures DocMatch(pats, Samples(pats)) && |Samples(pats)| == Plain(pats) && PlainTexts(Samples(pats))
  {
    hide NoSlash, NoNewline, NoDoubleStar, WildMatch;
    if pats == [] {
    } else {
      WholeStarsTail(pats);
      SamplesMatch(pats[1..]);
      if pats[0] != STARS {
        SampleMatches(pats[0]);
        assert Samples(pats)[1..] == Samples(pats[1..]);
      } else {
        assert Samples(pats) == Samples(pats[1..]);
      }
    }
  }

  ghost predicate AgreesWithDoc(pattern: string) {
    forall path :: NoNewline(path) ==> (MatchGlob(path, pattern) <==> DocMatch(Split(pattern), Split(path)))
  }

  /** The docstring's "zero or more" holds on all paths exactly for the patterns that read as
      documented; every other pattern misses a path the docstring promises. */
  lemma DocumentedIff(pattern: string)
    requires WholeStars(Split(pattern)) && forall i :: 0 <= i < |Split(pattern)| ==> NoNewline(Split(pattern)[i])
    ensures AgreesWithDoc(pattern) <==> ReadsAsDocumented(Split(pattern))
  {
    hide MatchGlob, Split, WholeStars, NoNewline, WildMatch;
    var pats := Split(pattern);
    ExtraIff(pats);
    if ReadsAsDocumented(pats) {
      forall path | NoNewline(path) ensures MatchGlob(path, pattern) <==> DocMatch(pats, Split(path)) {
        GlobMeaning(pattern, path);
        AgreeOn(pats, Split(path));
      }
    } else {
      DisagreeOn(pattern);
    }
  }

  lemma AgreeOn(pats: seq<string>, segs: seq<string>)
    requires segs != [] && ReadsAsDocumented(pats)
    ensures SegMatch(pats, true, segs) <==> DocMatch(pats, segs)
  {
    hide WildMatch;
    ExtraIff(pats);
    if Extra(pats, true) == 0 {
      ExtraZeroAgrees(pats, true, segs);
    } else {
      assert Plain([STARS]) == 0 && Plain([STARS, STARS]) == 0 by { assert [STARS, STARS][1..] == [STARS]; }
      StarsMatchAll(pats, segs);
      LastStars(segs);
      assert [STARS, STARS][1..] == [STARS];
    }
  }

  lemma ExtraPositive(pats: seq<string>, slashed: bool)
    requires pats != [] && Plain(pats) == 0
    ensures Extra(pats, slashed) >= 1
  {}

  lemma AllStars(pats: seq<string>)
    requires Plain(pats) == 0 && Extra(pats, true) <= 1
    ensures pats == [] || pats == [STARS] || pats == [STARS, STARS]
  {
    if |pats| > 2 {
      assert pats[1..][1..] == pats[2..];
      ExtraPositive(pats[2..], true);
      assert false;
    }
  }

  lemma DisagreeOn(pattern: string)
    requires WholeStars(Split(pattern)) && forall i :: 0 <= i < |Split(pattern)| ==> NoNewline(Split(pattern)[i])
    requires !ReadsAsDocumented(Split(pattern))
    ensures exists path :: NoNewline(path) && !MatchGlob(path, pattern) && DocMatch(Split(pattern), Split(path))
  {
    hide MatchGlob, Split, WildMatch;
    var pats := Split(pattern);
    ExtraIff(pats);
    SamplesMatch(pats);
    var segs := if Plain(pats) == 0 then ["a"] else Samples(pats);
    if Plain(pats) == 0 {
      StarsMatchAll(pats, segs);
      if Extra(pats, true) <= 1 { AllStars(pats); assert false; }
    }
    assert PlainTexts(["a"]);
    SplitJoin(segs);
    var path := JoinSegments(segs);
    GlobMeaning(pattern, path);
    if SegMatch(pats, true, segs) { MinSegments(pats, true, segs); assert false; }
    assert NoNewline(path) && !MatchGlob(path, pattern) && DocMatch(pats, Split(path));
  }
}
