/** The changed-file policy driven by the glob compiler. */
module Policy {
  import opened Wrappers
  import opened Glob

  /** One manifest entry as the loader admits it: a forbidden entry has a pattern, an exception
      both fields; other kinds have neither. */
  datatype Entry = Entry(kind: string, pattern: string, exempts: string)

  datatype Violation = Violation(path: string, pattern: string)

  const FORBIDDEN := "forbidden_path_pattern"
  const EXCEPTION := "known_allowed_exception"

  function OfKind(entries: seq<Entry>, kind: string): seq<Entry> {
    if entries == [] then []
    else
      var n := |entries| - 1;
      OfKind(entries[..n], kind) + if entries[n].kind == kind then [entries[n]] else []
  }

  /** One exception covers both the file and the forbidden glob's own text. */
  predicate Exempted(entries: seq<Entry>, path: string, pattern: string) {
    exists e :: e in entries && e.kind == EXCEPTION && MatchGlob(path, e.pattern) && MatchGlob(pattern, e.exempts)
  }

  /** The entry forbids the file and no exception saves it. */
  predicate Triggers(entries: seq<Entry>, e: Entry, path: string) {
    e.kind == FORBIDDEN && MatchGlob(path, e.pattern) && !Exempted(entries, path, e.pattern)
  }

  /** The file is in breach of the policy. */
  predicate Offends(entries: seq<Entry>, path: string) { exists e :: e in entries && Triggers(entries, e, path) }

  /** The first entry, in manifest order, that the file triggers. */
  predicate IsFirst(entries: seq<Entry>, path: string, i: int) {
    && 0 <= i < |entries| && Triggers(entries, entries[i], path)
    && forall j :: 0 <= j < i ==> !Triggers(entries, entries[j], path)
  }

  predicate FirstPattern(entries: seq<Entry>, path: string, pattern: string) {
    exists i :: 0 <= i < |entries| && IsFirst(entries, path, i) && entries[i].pattern == pattern
  }

  function Offenders(entries: seq<Entry>, files: seq<string>): seq<string> {
    if files == [] then []
    else
      var n := |files| - 1;
      Offenders(entries, files[..n]) + if Offends(entries, files[n]) then [files[n]] else []
  }

  function Paths(vs: seq<Violation>): seq<string> { seq(|vs|, i requires 0 <= i < |vs| => vs[i].path) }

  lemma {:induction false} OfKindElements(entries: seq<Entry>, kind: string)
    ensures forall e :: e in OfKind(entries, kind) <==> e in entries && e.kind == kind
  {
    if entries == [] {
    } else {
      var n := |entries| - 1;
      OfKindElements(entries[..n], kind);
      assert entries == entries[..n] + [entries[n]];
    }
  }

  /** The k-th entry of a kind, in the whole manifest: those of its kind before it are the
      first k. */
  lemma {:induction false} OfKindIndex(entries: seq<Entry>, kind: string, k: nat) returns (i: nat)
    requires k < |OfKind(entries, kind)|
    ensures i < |entries| && entries[i] == OfKind(entries, kind)[k]
    ensures OfKind(entries[..i], kind) == OfKind(entries, kind)[..k]
  {
    var n := |entries| - 1;
    if k < |OfKind(entries[..n], kind)| {
      i := OfKindIndex(entries[..n], kind, k);
      assert entries[..n][..i] == entries[..i];
    } else {
      i := n;
    }
  }

  /** The inner loops for one file: exceptions are searched for every forbidden glob the file
      matches, and the first unexempted one is reported. */
  method FirstViolation(entries: seq<Entry>, path: string) returns (v: Option<Violation>)
    ensures v.Some? <==> Offends(entries, path)
    ensures v.Some? ==> v.value.path == path && FirstPattern(entries, path, v.value.pattern)
  {
    hide MatchGlob;
    var forbidden, exceptions := OfKind(entries, FORBIDDEN), OfKind(entries, EXCEPTION);
    OfKindElements(entries, FORBIDDEN);
    OfKindElements(entries, EXCEPTION);
    for k := 0 to |forbidden|
      invariant forall m :: 0 <= m < k ==> !Triggers(entries, forbidden[m], path)
    {
      var pattern := forbidden[k].pattern;
      if !MatchGlob(path, pattern) { continue; }
      var exempted := false;
      for m := 0 to |exceptions|
        invariant !exempted
        invariant forall n :: 0 <= n < m ==>
                    !(MatchGlob(path, exceptions[n].pattern) && MatchGlob(pattern, exceptions[n].exempts))
      {
        if MatchGlob(path, exceptions[m].pattern) && MatchGlob(pattern, exceptions[m].exempts) {
          exempted := true;
          break;
        }
      }
      if !exempted {
        assert forbidden[k] in forbidden;
        assert Triggers(entries, forbidden[k], path);
        var i := OfKindIndex(entries, FORBIDDEN, k);
        OfKindElements(entries[..i], FORBIDDEN);
        forall j | 0 <= j < i ensures !Triggers(entries, entries[j], path) {
          assert entries[j] in entries[..i];
        }
        assert IsFirst(entries, path, i);
        return Some(Violation(path, pattern));
      }
    }
    v := None;
  }

  /** `_evaluate_manifest_policy`: the reported files are exactly the offending ones, in
      input order, each with the first manifest entry it triggers. */
  method Evaluate(entries: seq<Entry>, files: seq<string>) returns (violations: seq<Violation>)
    ensures Paths(violations) == Offenders(entries, files)
    ensures forall v :: v in violations ==> FirstPattern(entries, v.path, v.pattern)
  {
    hide FirstPattern, Offends;
    violations := [];
    for n := 0 to |files|
      invariant Paths(violations) == Offenders(entries, files[..n])
      invariant forall v :: v in violations ==> FirstPattern(entries, v.path, v.pattern)
    {
      assert files[..n + 1][..n] == files[..n];
      var v := FirstViolation(entries, files[n]);
      if v.Some? { violations := violations + [v.value]; }
    }
    assert files[..|files|] == files;
  }

  /** A file is reported exactly when it is in the input and some forbidden glob matches it
      that no single exception, matching both the file and that glob's text, exempts. */
  lemma {:induction false} ReportedIff(entries: seq<Entry>, files: seq<string>, path: string)
    ensures path in Offenders(entries, files)
        <==> path in files && exists f :: f in entries && Triggers(entries, f, path)
  {
    hide Triggers;
    if files == [] {
    } else {
      ReportedIff(entries, files[..|files| - 1], path);
      assert files == files[..|files| - 1] + [files[|files| - 1]];
    }
  }

  /** Offending files keep their multiplicity: reported once per occurrence. */
  lemma {:induction false} ReportedOnce(entries: seq<Entry>, files: seq<string>, path: string)
    ensures multiset(Offenders(entries, files))[path] == if Offends(entries, path) then multiset(files)[path] else 0
  {
    hide Offends;
    if files == [] {
    } else {
      ReportedOnce(entries, files[..|files| - 1], path);
      assert files == files[..|files| - 1] + [files[|files| - 1]];
    }
  }
}
