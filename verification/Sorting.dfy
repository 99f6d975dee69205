/** Stable sorting by a total preorder, and the code-point order on strings. */
module Sorting {

  ghost predicate TotalPreorder<T(!new)>(le: (T, T) -> bool) {
    && (forall a, b :: le(a, b) || le(b, a))
    && (forall a, b, c :: le(a, b) && le(b, c) ==> le(a, c))
  }

  ghost predicate Sorted<T>(le: (T, T) -> bool, s: seq<T>) {
    forall i, j :: 0 <= i < j < |s| ==> le(s[i], s[j])
  }

  /** x goes after everything it does not precede. */
  function Insert<T>(le: (T, T) -> bool, s: seq<T>, x: T): seq<T> {
    if s == [] || le(s[|s| - 1], x) then s + [x]
    else Insert(le, s[..|s| - 1], x) + [s[|s| - 1]]
  }

  /** `sorted(s)`, stable. */
  function Sort<T>(le: (T, T) -> bool, s: seq<T>): seq<T> {
    if s == [] then [] else Insert(le, Sort(le, s[..|s| - 1]), s[|s| - 1])
  }

  lemma Compare<T(!new)>(le: (T, T) -> bool, a: T, b: T)
    requires TotalPreorder(le) && !le(a, b)
    ensures le(b, a)
  {}

  lemma Chain<T(!new)>(le: (T, T) -> bool, a: T, b: T, c: T)
    requires TotalPreorder(le) && le(a, b) && le(b, c)
    ensures le(a, c)
  {}

  lemma SortedSnoc<T(!new)>(le: (T, T) -> bool, s: seq<T>, x: T)
    requires Sorted(le, s) && forall y :: y in s ==> le(y, x)
    ensures Sorted(le, s + [x])
  {}

  lemma {:induction false} InsertElements<T>(le: (T, T) -> bool, s: seq<T>, x: T)
    ensures multiset(Insert(le, s, x)) == multiset(s) + multiset{x}
  {
    if s != [] && !le(s[|s| - 1], x) {
      InsertElements(le, s[..|s| - 1], x);
      assert s == s[..|s| - 1] + [s[|s| - 1]];
    }
  }

  lemma {:induction false} InsertKeeps<T(!new)>(le: (T, T) -> bool, s: seq<T>, x: T)
    requires TotalPreorder(le) && Sorted(le, s)
    ensures Sorted(le, Insert(le, s, x))
  {
    hide TotalPreorder;
    if s == [] {
    } else {
      var n := |s| - 1;
      if le(s[n], x) {
        forall y | y in s ensures le(y, x) {
          var i :| 0 <= i <= n && s[i] == y;
          if i < n { Chain(le, s[i], s[n], x); }
        }
        SortedSnoc(le, s, x);
      } else {
        Compare(le, s[n], x);
        InsertKeeps(le, s[..n], x);
        InsertElements(le, s[..n], x);
        var r := Insert(le, s[..n], x);
        forall y | y in r ensures le(y, s[n]) {
          assert y in multiset(r);
          if y != x { assert y in s[..n]; }
        }
        SortedSnoc(le, r, s[n]);
      }
    }
  }

  /** Sorting permutes into order. */
  lemma {:induction false} SortSorts<T(!new)>(le: (T, T) -> bool, s: seq<T>)
    requires TotalPreorder(le)
    ensures Sorted(le, Sort(le, s)) && multiset(Sort(le, s)) == multiset(s)
  {
    hide TotalPreorder, Sorted, Insert;
    if s == [] {
      SortedNothing(le);
    } else {
      var n := |s| - 1;
      SortSorts(le, s[..n]);
      InsertKeeps(le, Sort(le, s[..n]), s[n]);
      InsertElements(le, Sort(le, s[..n]), s[n]);
      assert s == s[..n] + [s[n]];
    }
  }

  lemma SortedNothing<T>(le: (T, T) -> bool)
    ensures Sorted(le, [])
  {}

  lemma SameElements<T>(a: seq<T>, b: seq<T>)
    requires multiset(a) == multiset(b)
    ensures |a| == |b| && forall x :: x in a <==> x in b
  {
    assert |multiset(a)| == |multiset(b)|;
    forall x ensures x in a <==> x in b { assert x in multiset(a) <==> x in multiset(b); }
  }

  // ---- strings ----

  /** `a <= b` on Python strings. */
  predicate LexLe(a: string, b: string) {
    if a == "" then true
    else if b == "" then false
    else a[0] < b[0] || (a[0] == b[0] && LexLe(a[1..], b[1..]))
  }

  /** The code-point order: a prefix comes first, otherwise the first difference decides. */
  lemma {:induction false} LexIff(a: string, b: string)
    ensures LexLe(a, b) <==> a <= b || exists i :: FirstLess(a, b, i)
  {
    if a != "" && b != "" {
      LexIff(a[1..], b[1..]);
      if exists i :: FirstLess(a, b, i) {
        var i :| FirstLess(a, b, i);
        if i > 0 {
          assert a[1..][..i - 1] == a[..i][1..] && b[1..][..i - 1] == b[..i][1..];
          assert a[..i][0] == b[..i][0];
          assert FirstLess(a[1..], b[1..], i - 1);
        }
      }
      if a[0] < b[0] {
        assert FirstLess(a, b, 0);
      } else if a[0] == b[0] && exists i :: FirstLess(a[1..], b[1..], i) {
        var i :| FirstLess(a[1..], b[1..], i);
        assert a[..i + 1] == [a[0]] + a[1..][..i] && b[..i + 1] == [b[0]] + b[1..][..i];
        assert FirstLess(a, b, i + 1);
      }
    }
  }

  predicate FirstLess(a: string, b: string, i: int) { 0 <= i < |a| && i < |b| && a[..i] == b[..i] && a[i] < b[i] }

  lemma {:induction false} LexTotal(a: string, b: string)
    ensures LexLe(a, b) || LexLe(b, a)
  {
    if a != "" && b != "" { LexTotal(a[1..], b[1..]); }
  }

  lemma {:induction false} LexTransitive(a: string, b: string, c: string)
    requires LexLe(a, b) && LexLe(b, c)
    ensures LexLe(a, c)
  {
    if a != "" && b != "" && c != "" && a[0] == b[0] == c[0] { LexTransitive(a[1..], b[1..], c[1..]); }
  }

  lemma {:induction false} LexAntisymmetric(a: string, b: string)
    requires LexLe(a, b) && LexLe(b, a)
    ensures a == b
  {
    if a != "" && b != "" {
      LexAntisymmetric(a[1..], b[1..]);
      assert a == [a[0]] + a[1..] && b == [b[0]] + b[1..];
    }
  }

  /** Ordering by a string key. */
  function ByKey<T>(key: T -> string): (T, T) -> bool { (a, b) => LexLe(key(a), key(b)) }

  lemma ByKeyTotal<T(!new)>(key: T -> string)
    ensures TotalPreorder(ByKey(key))
  {
    var le := ByKey(key);
    forall a, b ensures le(a, b) || le(b, a) { LexTotal(key(a), key(b)); }
    forall a, b, c | le(a, b) && le(b, c) ensures le(a, c) { LexTransitive(key(a), key(b), key(c)); }
  }
}
