/** Running a check several times and keeping the majority: `validator._run_n` and
    `llm_rubric.run_n`. The check is an arbitrary function of the run number. */
module Reproducibility {
  import opened Wrappers
  import opened Json
  import opened Models

  predicate IsVerdict(d: Diagnostic) { d.status == PASS || d.status == FAIL }

  function PassCount(diags: seq<Diagnostic>): nat {
    if diags == [] then 0
    else PassCount(diags[..|diags| - 1]) + if diags[|diags| - 1].status == PASS then 1 else 0
  }

  /** The first diagnostic with a status. */
  function FirstWith(diags: seq<Diagnostic>, s: Status): (r: Option<nat>)
    ensures r.Some? ==> r.value < |diags| && diags[r.value].status == s
    ensures r.Some? ==> forall k :: 0 <= k < r.value ==> diags[k].status != s
    ensures r.None? ==> forall k :: 0 <= k < |diags| ==> diags[k].status != s
  {
    if diags == [] then None
    else if diags[0].status == s then Some(0)
    else
      var rest := FirstWith(diags[1..], s);
      if rest.Some? then Some(rest.value + 1) else None
  }

  function ScoreEvidence(pass: nat, n: nat): Evidence
    requires 1 <= n && pass <= n
  {
    var majorityIsPass := 2 * pass > n;
    Evidence("reproducibility_score",
             map["score" := JReal((if majorityIsPass then pass else n - pass) as real / n as real),
                 "n" := JInt(n), "pass_count" := JInt(pass),
                 "majority_judgment" := JStr(if majorityIsPass then "pass" else "fail")])
  }

  ghost predicate Settles(check: nat -> Diagnostic, n: nat, k: nat) {
    k < n && !IsVerdict(check(k)) && forall j :: 0 <= j < k ==> IsVerdict(check(j))
  }

  function Runs(check: nat -> Diagnostic, n: nat): seq<Diagnostic> { seq(n, i requires 0 <= i < n => check(i)) }

  /** Run k is the first whose status is the majority's, ties going to fail. */
  ghost predicate Represents(check: nat -> Diagnostic, n: nat, k: nat) {
    && k < n
    && check(k).status == (if 2 * PassCount(Runs(check, n)) > n then PASS else FAIL)
    && forall j :: 0 <= j < k ==> check(j).status != check(k).status
  }

  /** What n runs aggregate to: the first non-verdict as it is, or the representative with
      the score appended. */
  ghost predicate Aggregates(check: nat -> Diagnostic, n: nat, r: Diagnostic)
    requires n >= 1
  {
    || (exists k :: Settles(check, n, k) && r == check(k))
    || (&& (forall k :: 0 <= k < n ==> IsVerdict(check(k)))
        && PassCount(Runs(check, n)) <= n
        && exists k :: Represents(check, n, k)
             && r == check(k).(evidence := check(k).evidence + [ScoreEvidence(PassCount(Runs(check, n)), n)]))
  }

  lemma {:induction false} PassCountBounds(diags: seq<Diagnostic>)
    requires forall d :: d in diags ==> IsVerdict(d)
    ensures PassCount(diags) <= |diags|
    ensures PassCount(diags) > 0 ==> exists k :: 0 <= k < |diags| && diags[k].status == PASS
    ensures PassCount(diags) < |diags| ==> exists k :: 0 <= k < |diags| && diags[k].status == FAIL
  {
    if diags == [] {
    } else {
      var n := |diags| - 1;
      PassCountBounds(diags[..n]);
      assert IsVerdict(diags[n]);
      assert forall k :: 0 <= k < n ==> diags[..n][k] == diags[k];
    }
  }

  /** Vote, pick the representative, append the score. */
  method Majority(check: nat -> Diagnostic, diags: seq<Diagnostic>, n: nat) returns (r: Diagnostic)
    requires n >= 1 && diags == Runs(check, n) && forall k :: 0 <= k < n ==> IsVerdict(check(k))
    ensures Aggregates(check, n, r)
  {
    hide ScoreEvidence, FirstWith, PassCount;
    var pass := PassCount(diags);
    PassCountBounds(diags);
    var majorityIsPass := pass > n - pass;
    var k := FirstWith(diags, if majorityIsPass then PASS else FAIL);
    assert forall j :: 0 <= j < n ==> diags[j] == check(j);
    assert majorityIsPass <==> 2 * PassCount(Runs(check, n)) > n;
    assert Represents(check, n, k.value);
    r := diags[k.value].(evidence := diags[k.value].evidence + [ScoreEvidence(pass, n)]);
  }

  /** `_run_n`: the loop and its early return. */
  method RunN(check: nat -> Diagnostic, n: nat) returns (r: Diagnostic)
    requires n >= 1
    ensures Aggregates(check, n, r)
  {
    hide PassCount;
    var diags: seq<Diagnostic> := [];
    for i := 0 to n
      invariant diags == Runs(check, i)
      invariant forall k :: 0 <= k < i ==> IsVerdict(check(k))
    {
      var d := check(i);
      if !IsVerdict(d) {
        assert Settles(check, n, i);
        return d;
      }
      diags := diags + [d];
    }
    r := Majority(check, diags, n);
  }

  /** `run_n`: rejects n < 1, passes a single check through, and otherwise aggregates. */
  method RunNBackend(check: nat -> Diagnostic, n: int) returns (r: Result<Diagnostic, string>)
    ensures r.Err? <==> n < 1
    ensures n == 1 ==> r == Ok(check(0))
    ensures n >= 2 ==> r.Ok? && Aggregates(check, n, r.value)
  {
    hide PassCount;
    if n < 1 { return Err("reproducibility n must be >= 1"); }
    if n == 1 { return Ok(check(0)); }
    var diags: seq<Diagnostic> := [];
    for i := 0 to n
      invariant diags == Runs(check, i)
      invariant forall k :: 0 <= k < i ==> IsVerdict(check(k))
    {
      var d := check(i);
      if !IsVerdict(d) {
        assert Settles(check, n, i);
        return Ok(d);
      }
      diags := diags + [d];
    }
    var majority := Majority(check, diags, n);
    r := Ok(majority);
  }

  /** The aggregate is unique, so both routines return the same diagnostic. */
  lemma AggregateUnique(check: nat -> Diagnostic, n: nat, a: Diagnostic, b: Diagnostic)
    requires n >= 1 && Aggregates(check, n, a) && Aggregates(check, n, b)
    ensures a == b
  {
    hide ScoreEvidence, PassCount;
    if forall k :: 0 <= k < n ==> IsVerdict(check(k)) {
      var score := ScoreEvidence(PassCount(Runs(check, n)), n);
      var i :| Represents(check, n, i) && a == check(i).(evidence := check(i).evidence + [score]);
      var j :| Represents(check, n, j) && b == check(j).(evidence := check(j).evidence + [score]);
      assert i == j;
    }
  }

  /** The runs that pass. */
  ghost function Passes(check: nat -> Diagnostic, n: nat): set<nat> {
    set k: nat | k < n && check(k).status == PASS
  }

  lemma {:induction false} PassesCounted(check: nat -> Diagnostic, n: nat)
    ensures PassCount(Runs(check, n)) == |Passes(check, n)|
  {
    if n == 0 {
    } else {
      var m := n - 1;
      PassesCounted(check, m);
      assert Runs(check, n) == Runs(check, m) + [check(m)];
      assert Runs(check, n)[..m] == Runs(check, m);
      assert Passes(check, n) == Passes(check, m) + if check(m).status == PASS then {m} else {};
    }
  }

  /** The score record over n runs of which pass passed: both counts, the majority, and the share that
      agrees with it, at least one half. */
  predicate IsScore(e: Evidence, pass: nat, n: nat) {
    && e.kind == "reproducibility_score"
    && Get(e.data, "n") == JInt(n) && Get(e.data, "pass_count") == JInt(pass)
    && Get(e.data, "majority_judgment") == JStr(if pass > n - pass then "pass" else "fail")
    && Get(e.data, "score").JReal?
    && Get(e.data, "score").r * n as real == (if pass > n - pass then pass as real else (n - pass) as real)
    && 0.5 <= Get(e.data, "score").r <= 1.0
  }

  /** Whatever is aggregated from n verdicts passes exactly when more than half of the runs do, so that
      ties break to fail, and ends in their score. */
  lemma ScoreBounds(check: nat -> Diagnostic, n: nat, r: Diagnostic)
    requires n >= 1 && Aggregates(check, n, r) && forall k :: 0 <= k < n ==> IsVerdict(check(k))
    ensures r.status == if 2 * |Passes(check, n)| > n then PASS else FAIL
    ensures |Passes(check, n)| <= n
    ensures r.evidence != [] && IsScore(r.evidence[|r.evidence| - 1], |Passes(check, n)|, n)
  {
    hide PassCount, ScoreEvidence;
    PassesCounted(check, n);
    var pass := PassCount(Runs(check, n));
    Halves(pass, n);
    ScoreField(pass, n);
  }

  lemma ScoreField(pass: nat, n: nat)
    requires 1 <= n && pass <= n
    ensures IsScore(ScoreEvidence(pass, n), pass, n)
  {
    Halves(pass, n);
    var e, m := ScoreEvidence(pass, n), if 2 * pass > n then pass else n - pass;
    assert e.data["score"] == JReal(m as real / n as real);
    Quotient(m as real, n as real);
  }

  lemma Quotient(x: real, y: real)
    requires y > 0.0
    ensures x / y * y == x
  {}

  lemma Halves(pass: nat, n: nat)
    requires 1 <= n && pass <= n
    ensures 0.5 <= (if 2 * pass > n then pass else n - pass) as real / n as real <= 1.0
  {
    var m := if 2 * pass > n then pass else n - pass;
    assert n as real <= 2.0 * (m as real) && m as real <= n as real;
    RatioBounds(m as real, n as real);
  }

  lemma RatioBounds(x: real, y: real)
    requires 0.0 < y && y <= 2.0 * x && x <= y
    ensures 0.5 <= x / y <= 1.0
  {
    var q := x / y;
    assert x == q * y;
    if q < 0.5 { BelowHalf(q, y); assert false; }
    if q > 1.0 { AboveOne(q, y); assert false; }
  }

  lemma BelowHalf(q: real, y: real)
    requires q < 0.5 && 0.0 < y
    ensures 2.0 * (q * y) < y
  {
    ScaleStrictly(q, 0.5, y);
    assert q * y < 0.5 * y;
  }

  lemma AboveOne(q: real, y: real)
    requires 1.0 < q && 0.0 < y
    ensures y < q * y
  {
    ScaleStrictly(1.0, q, y);
    assert 1.0 * y < q * y;
  }

  lemma ScaleStrictly(a: real, b: real, y: real)
    requires a < b && 0.0 < y
    ensures a * y < b * y
  {}
}
