/** Strings as the grounding code reads them: whitespace, quote folding, `strip`,
    `re.sub(r"\s+", " ", ...)` and `str.find`. */
module Text {
  import opened Wrappers

  /** Python's `str.isspace` on one character, which is also what `\s` matches. */
  predicate IsSpace(c: char) {
    var n := c as int;
    || 9 <= n <= 13 || 28 <= n <= 32 || n == 0x85 || n == 0xA0 || n == 0x1680
    || 0x2000 <= n <= 0x200A || 0x2028 <= n <= 0x2029 || n == 0x202F || n == 0x205F || n == 0x3000
  }

  /** The whitespace characters, one by one. */
  lemma SpaceTable(c: char)
    ensures IsSpace(c)
        <==> || c in "\t\n\U{B}\U{C}\r\U{1C}\U{1D}\U{1E}\U{1F} \U{85}\U{A0}\U{1680}"
             || c in "\U{2000}\U{2001}\U{2002}\U{2003}\U{2004}\U{2005}\U{2006}\U{2007}\U{2008}\U{2009}\U{200A}"
             || c in "\U{2028}\U{2029}\U{202F}\U{205F}\U{3000}"
  {}

  /** One entry of `_QUOTE_FOLDING`; every other character maps to itself. */
  function FoldChar(c: char): (r: char)
    ensures IsSpace(r) <==> IsSpace(c)
    ensures IsSpace(c) ==> r == c
  {
    var n := c as int;
    if n == 0x2018 || n == 0x2019 || n == 0x2032 then '\''
    else if n == 0x201C || n == 0x201D || n == 0x2033 then '"'
    else if n == 0x2013 || n == 0x2014 then '-'
    else c
  }

  /** The folding table: curly and prime quotes, and the two long dashes; folding is idempotent and
      leaves everything else alone. */
  lemma FoldTable(c: char)
    ensures c in "\U{2018}\U{2019}\U{2032}" ==> FoldChar(c) == '\''
    ensures c in "\U{201C}\U{201D}\U{2033}" ==> FoldChar(c) == '"'
    ensures c in "\U{2013}\U{2014}" ==> FoldChar(c) == '-'
    ensures c !in "\U{2018}\U{2019}\U{2032}\U{201C}\U{201D}\U{2033}\U{2013}\U{2014}" <==> FoldChar(c) == c
    ensures FoldChar(FoldChar(c)) == FoldChar(c)
  {}

  /** `text.translate(_QUOTE_FOLDING)`. */
  function Fold(s: string): (r: string)
    ensures |r| == |s|
    ensures forall i :: 0 <= i < |s| ==> r[i] == FoldChar(s[i])
  {
    seq(|s|, i requires 0 <= i < |s| => FoldChar(s[i]))
  }

  lemma SliceOfSlice<T>(a: seq<T>, s: nat, e: nat, i: nat, j: nat)
    requires s <= e <= |a| && i <= j <= e - s
    ensures a[s..e][i..j] == a[s + i..s + j]
  {
    forall k | 0 <= k < j - i ensures a[s..e][i..j][k] == a[s + i..s + j][k] {
      assert a[s..e][i + k] == a[s + i + k];
    }
  }

  lemma FoldSlice(s: string, i: nat, j: nat)
    requires i <= j <= |s|
    ensures Fold(s)[i..j] == Fold(s[i..j])
  {}

  predicate AllSpace(s: string) { forall i :: 0 <= i < |s| ==> IsSpace(s[i]) }

  /** No whitespace at either end. */
  predicate Trimmed(s: string) { s == "" || (!IsSpace(s[0]) && !IsSpace(s[|s| - 1])) }

  function LStrip(s: string): string {
    if s != "" && IsSpace(s[0]) then LStrip(s[1..]) else s
  }

  function RStrip(s: string): string {
    if s != "" && IsSpace(s[|s| - 1]) then RStrip(s[..|s| - 1]) else s
  }

  /** `s.strip()`. */
  function Strip(s: string): string { RStrip(LStrip(s)) }

  /** `re.sub(r"\s+", " ", s)`: of every whitespace run one blank remains. */
  function Collapse(s: string): string {
    if s == "" then ""
    else if !IsSpace(s[0]) then [s[0]] + Collapse(s[1..])
    else if |s| > 1 && IsSpace(s[1]) then Collapse(s[1..])
    else " " + Collapse(s[1..])
  }

  /** `_normalise_for_substring`. */
  function Normalise(s: string): string { Strip(Collapse(Fold(s))) }

  ghost predicate IsAt(h: string, n: string, i: int) {
    0 <= i <= i + |n| <= |h| && h[i..i + |n|] == n
  }

  ghost predicate Contains(h: string, n: string) { exists i :: IsAt(h, n, i) }

  function FindFrom(h: string, n: string, i: nat): (r: Option<nat>)
    requires i <= |h|
    ensures r.Some? ==> i <= r.value && IsAt(h, n, r.value)
    ensures r.Some? ==> forall k :: i <= k < r.value ==> !IsAt(h, n, k)
    ensures r.None? ==> forall k :: i <= k ==> !IsAt(h, n, k)
    decreases |h| - i
  {
    if i + |n| > |h| then None
    else if h[i..i + |n|] == n then Some(i)
    else if i == |h| then None
    else FindFrom(h, n, i + 1)
  }

  /** `h.find(n)`: the leftmost occurrence. */
  function Find(h: string, n: string): (r: Option<nat>)
    ensures r.Some? <==> Contains(h, n)
    ensures r.Some? ==> IsAt(h, n, r.value) && forall k :: 0 <= k < r.value ==> !IsAt(h, n, k)
  {
    FindFrom(h, n, 0)
  }

  // ---- substrings ----

  lemma ContainsPart(pre: string, mid: string, post: string)
    ensures Contains(pre + mid + post, mid)
  {
    assert IsAt(pre + mid + post, mid, |pre|);
  }

  lemma ContainsTransitive(a: string, b: string, c: string)
    requires Contains(a, b) && Contains(b, c)
    ensures Contains(a, c)
  {
    var i :| IsAt(a, b, i);
    var j :| IsAt(b, c, j);
    forall k | 0 <= k < |c| ensures a[i + j + k] == c[k] {
      assert c[k] == b[j..j + |c|][k] == b[j + k] == a[i..i + |b|][j + k];
    }
    assert IsAt(a, c, i + j);
  }

  // ---- strip ----

  lemma {:induction false} LStripSplit(s: string) returns (i: nat)
    ensures i <= |s| && LStrip(s) == s[i..] && AllSpace(s[..i]) && (i < |s| ==> !IsSpace(s[i]))
  {
    if s != "" && IsSpace(s[0]) {
      var k := LStripSplit(s[1..]);
      i := k + 1;
      assert s[..i] == [s[0]] + s[1..][..k];
    } else {
      i := 0;
    }
  }

  lemma {:induction false} RStripSplit(s: string) returns (j: nat)
    ensures j <= |s| && RStrip(s) == s[..j] && AllSpace(s[j..]) && (j > 0 ==> !IsSpace(s[j - 1]))
  {
    if s != "" && IsSpace(s[|s| - 1]) {
      j := RStripSplit(s[..|s| - 1]);
      assert s[..|s| - 1][..j] == s[..j];
      assert s[j..] == s[..|s| - 1][j..] + [s[|s| - 1]];
    } else {
      j := |s|;
      assert s[..j] == s;
    }
  }

  /** What is stripped is whitespace, and what remains starts and ends with none. */
  lemma StripSplit(s: string) returns (i: nat, j: nat)
    ensures i <= j <= |s| && Strip(s) == s[i..j] && AllSpace(s[..i]) && AllSpace(s[j..])
    ensures Trimmed(s[i..j])
    ensures i == j ==> AllSpace(s)
  {
    i := LStripSplit(s);
    var k := RStripSplit(s[i..]);
    j := i + k;
    assert s[i..][..k] == s[i..j];
    assert s[i..][k..] == s[j..];
    if k > 0 { assert s[i..][k - 1] == s[j - 1]; }
    assert i < j ==> s[i..j][0] == s[i] && s[i..j][|s[i..j]| - 1] == s[j - 1];
    if i == j { assert s == s[..i] + s[j..]; }
  }

  lemma {:induction false} LStripOf(pre: string, rest: string)
    requires AllSpace(pre)
    requires rest != "" ==> !IsSpace(rest[0])
    ensures LStrip(pre + rest) == rest
  {
    if pre != "" {
      assert (pre + rest)[1..] == pre[1..] + rest;
      LStripOf(pre[1..], rest);
    } else {
      assert pre + rest == rest;
    }
  }

  lemma {:induction false} RStripOf(rest: string, post: string)
    requires AllSpace(post)
    requires rest != "" ==> !IsSpace(rest[|rest| - 1])
    ensures RStrip(rest + post) == rest
  {
    if post != "" {
      var n := |post| - 1;
      assert (rest + post)[..|rest + post| - 1] == rest + post[..n];
      RStripOf(rest, post[..n]);
    } else {
      assert rest + post == rest;
    }
  }

  /** `strip` undoes any padding of a trimmed text. */
  lemma StripOf(pre: string, mid: string, post: string)
    requires AllSpace(pre) && AllSpace(post) && mid != "" && Trimmed(mid)
    ensures Strip(pre + mid + post) == mid
  {
    assert pre + mid + post == pre + (mid + post);
    LStripOf(pre, mid + post);
    RStripOf(mid, post);
  }

  lemma StripAllSpace(s: string)
    requires AllSpace(s)
    ensures Strip(s) == ""
  {
    assert s + "" == s;
    LStripOf(s, "");
  }

  // ---- collapse ----

  /** Runs do not straddle the cut between a and b. */
  predicate CleanCut(a: string, b: string) {
    a == "" || b == "" || !IsSpace(a[|a| - 1]) || !IsSpace(b[0])
  }

  lemma {:induction false} CollapseConcat(a: string, b: string)
    requires CleanCut(a, b)
    ensures Collapse(a + b) == Collapse(a) + Collapse(b)
  {
    if a == "" {
      assert a + b == b;
    } else {
      assert (a + b)[1..] == a[1..] + b;
      CollapseConcat(a[1..], b);
    }
  }

  lemma {:induction false} CollapseSnocSpace(a: string, c: char)
    requires a != "" && IsSpace(a[|a| - 1]) && IsSpace(c)
    ensures Collapse(a + [c]) == Collapse(a)
  {
    assert (a + [c])[1..] == a[1..] + [c];
    if |a| == 1 {
      assert a[1..] + [c] == [c] && a[1..] == "";
      assert [c][1..] == "";
    } else {
      CollapseSnocSpace(a[1..], c);
    }
  }

  lemma {:induction false} CollapseAllSpace(s: string)
    requires AllSpace(s)
    ensures Collapse(s) == if s == "" then "" else " "
  {
    if |s| > 1 {
      CollapseAllSpace(s[1..]);
    } else if |s| == 1 {
      assert s[1..] == "";
    }
  }

  lemma {:induction false} CollapseTrimmed(s: string)
    requires s != "" && Trimmed(s)
    ensures Collapse(s) != "" && Trimmed(Collapse(s))
  {
    var n := |s| - 1;
    assert s == s[..n] + [s[n]];
    CollapseConcat(s[..n], [s[n]]);
    assert s == [s[0]] + s[1..];
    assert [s[n]][1..] == "";
  }

  lemma CollapsePadded(pre: string, mid: string, post: string)
    requires AllSpace(pre) && AllSpace(post) && mid != "" && Trimmed(mid)
    ensures Collapse(pre + mid + post) == Collapse(pre) + Collapse(mid) + Collapse(post)
  {
    CollapseConcat(pre + mid, post);
    CollapseConcat(pre, mid);
  }

  /** Collapsing then stripping is stripping then collapsing. */
  lemma StripCollapse(s: string)
    ensures Strip(Collapse(s)) == Collapse(Strip(s))
  {
    var i, j := StripSplit(s);
    if i == j {
      CollapseAllSpace(s);
      StripAllSpace(Collapse(s));
      StripAllSpace(s);
    } else {
      var pre, mid, post := s[..i], s[i..j], s[j..];
      assert s == pre + mid + post;
      CollapsePadded(pre, mid, post);
      CollapseAllSpace(pre);
      CollapseAllSpace(post);
      CollapseTrimmed(mid);
      StripOf(Collapse(pre), Collapse(mid), Collapse(post));
    }
  }

  /** Normalising a padded text only sees its core. */
  lemma NormalisePadded(pre: string, mid: string, post: string)
    requires AllSpace(pre) && AllSpace(post) && mid != "" && Trimmed(mid)
    ensures Normalise(pre + mid + post) == Collapse(Fold(mid))
  {
    assert Fold(pre + mid + post) == Fold(pre) + Fold(mid) + Fold(post);
    StripCollapse(Fold(pre + mid + post));
    StripOf(Fold(pre), Fold(mid), Fold(post));
  }

  lemma NormaliseBlank(s: string)
    requires AllSpace(s)
    ensures Normalise(s) == ""
  {
    StripCollapse(Fold(s));
    StripAllSpace(Fold(s));
  }

  /** A text normalises to nothing exactly when it is blank. */
  lemma NormaliseEmptyIffBlank(s: string)
    ensures Normalise(s) == "" <==> AllSpace(s)
    ensures Strip(s) == "" <==> AllSpace(s)
  {
    hide IsSpace, Collapse, LStrip, RStrip;
    var i, j := StripSplit(s);
    if i == j {
      NormaliseBlank(s);
    } else {
      assert s == s[..i] + s[i..j] + s[j..];
      NormalisePadded(s[..i], s[i..j], s[j..]);
      CollapseTrimmed(Fold(s[i..j]));
    }
  }

  /** Cutting a text at non-whitespace characters cuts its collapsed form. */
  lemma CollapseMiddle(f: string, x: nat, y: nat)
    requires x < y <= |f| && !IsSpace(f[x]) && !IsSpace(f[y - 1])
    ensures Collapse(f) == Collapse(f[..x]) + Collapse(f[x..y]) + Collapse(f[y..])
  {
    hide IsSpace, Collapse;
    assert f == f[..y] + f[y..] && f[..y] == f[..x] + f[x..y];
    CollapseConcat(f[..y], f[y..]);
    CollapseConcat(f[..x], f[x..y]);
  }

  /** Every text normalises to the collapsed folding of its core. */
  lemma NormaliseCore(a: string) returns (p: nat, q: nat)
    ensures p <= q <= |a|
    ensures forall k :: 0 <= k < p || q <= k < |a| ==> IsSpace(a[k])
    ensures p < q ==> !IsSpace(a[p]) && !IsSpace(a[q - 1])
    ensures Normalise(a) == Collapse(Fold(a[p..q]))
    ensures p == q ==> Normalise(a) == ""
  {
    hide IsSpace;
    p, q := StripSplit(a);
    forall k | 0 <= k < p || q <= k < |a| ensures IsSpace(a[k]) {
      if k < p { assert a[..p][k] == a[k]; } else { assert a[q..][k - q] == a[k]; }
    }
    if p == q {
      NormaliseBlank(a);
    } else {
      assert a == a[..p] + a[p..q] + a[q..];
      NormalisePadded(a[..p], a[p..q], a[q..]);
      assert a[p..q][0] == a[p];
    }
  }

  /** The core of a slice, in the coordinates of the whole text. */
  lemma SliceCore(a: string, s: nat, e: nat) returns (x: nat, y: nat)
    requires s <= e <= |a|
    ensures s <= x <= y <= e
    ensures forall k :: s <= k < x || y <= k < e ==> IsSpace(a[k])
    ensures x < y ==> !IsSpace(a[x]) && !IsSpace(a[y - 1])
    ensures Normalise(a[s..e]) == Collapse(Fold(a[x..y]))
    ensures x == y ==> Normalise(a[s..e]) == ""
  {
    var w := a[s..e];
    var i, j := NormaliseCore(w);
    x, y := s + i, s + j;
    SliceOfSlice(a, s, e, i, j);
    forall k | s <= k < x || y <= k < e ensures IsSpace(a[k]) {
      assert w[k - s] == a[k];
    }
  }

  /** Normalisation is monotone: a slice of a text stays a substring of it. */
  lemma NormaliseSlice(a: string, s: nat, e: nat)
    requires s <= e <= |a|
    ensures Contains(Normalise(a), Normalise(a[s..e]))
  {
    var x, y := SliceCore(a, s, e);
    if x == y {
      assert IsAt(Normalise(a), "", 0);
    } else {
      var p, q := NormaliseCore(a);
      NormaliseInner(a, p, q, x, y);
    }
  }

  lemma NormaliseInner(a: string, p: nat, q: nat, x: nat, y: nat)
    requires p <= x < y <= q <= |a| && !IsSpace(a[x]) && !IsSpace(a[y - 1])
    ensures Contains(Collapse(Fold(a[p..q])), Collapse(Fold(a[x..y])))
  {
    hide IsSpace, Collapse;
    var f := Fold(a[p..q]);
    CollapseMiddle(f, x - p, y - p);
    FoldSlice(a[p..q], x - p, y - p);
    SliceOfSlice(a, p, q, x - p, y - p);
    ContainsPart(Collapse(f[..x - p]), Collapse(f[x - p..y - p]), Collapse(f[y - p..]));
  }

  lemma NormaliseContains(a: string, b: string)
    requires Contains(a, b)
    ensures Contains(Normalise(a), Normalise(b))
  {
    hide IsSpace;
    var i :| IsAt(a, b, i);
    NormaliseSlice(a, i, i + |b|);
  }
}
