/** Declared targets in the key: an unreadable artifact is keyed by its placeholder text. */
module Placeholders {
  import opened Wrappers
  import opened Models
  import opened CacheKey
  import opened Text
  import opened Grounding
  import S = Strategies

  const NO_PATH := "(no path declared)"

  function UnableToRead(path: string): string { "(unable to read artifact at " + path + ")" }

  /** How `_load_multi_target_texts` can have produced the target: an unreadable one carries
      its placeholder, a readable one has a path. */
  predicate Loaded(t: S.Target) {
    if t.readable then t.path.Some?
    else t.text == if t.path.None? then NO_PATH else UnableToRead(t.path.value)
  }

  function EntryOfTarget(t: S.Target, kind: TargetKind): TargetEntry {
    SpecEntry(t.id, kind, t.path, Sha256(t.text))
  }

  /** A readable artifact that reads like the placeholder of its own path. */
  predicate Lookalike(t: S.Target) { t.readable && t.path.Some? && t.text == UnableToRead(t.path.value) }

  /** An entry determines its target, readability included, unless one of two is a lookalike. */
  lemma TargetDetermined(a: S.Target, b: S.Target, kindA: TargetKind, kindB: TargetKind)
    requires Loaded(a) && Loaded(b) && EntryOfTarget(a, kindA) == EntryOfTarget(b, kindB)
    ensures kindA == kindB
    ensures !Lookalike(a) && !Lookalike(b) ==> a == b
    ensures a.readable != b.readable ==> Lookalike(a) || Lookalike(b)
  {}

  /** The key forgets whether an artifact was readable exactly when its content is the
      placeholder of its own path. */
  lemma KeyForgetsReadability(id: string, kind: TargetKind, path: Option<string>, text: string)
    ensures (exists a: S.Target, b: S.Target :: Loaded(a) && Loaded(b) && a.readable && !b.readable
               && EntryOfTarget(a, kind) == SpecEntry(id, kind, path, Sha256(text)) == EntryOfTarget(b, kind))
        <==> path.Some? && text == UnableToRead(path.value)
  {
    if path.Some? && text == UnableToRead(path.value) {
      var a, b := S.Target(id, path, text, true), S.Target(id, path, text, false);
      assert Loaded(a) && Loaded(b) && a.readable && !b.readable
        && EntryOfTarget(a, kind) == SpecEntry(id, kind, path, Sha256(text)) == EntryOfTarget(b, kind);
    }
  }

  /** A one-target rule and a passing answer with one quote that names the target. */
  function OneTarget(t: S.Target): S.Request { S.Request("m", false, [t], "", None, None, false) }

  function OneQuote(id: string, quote: string): S.Judgment {
    S.Judgment(S.VPass, "x", [quote], None, Some([Some(id)]), None, false)
  }

  lemma OneQuoteOutcome(t: S.Target, quote: string)
    ensures S.SingleOutcome(OneTarget(t), S.Answer(OneQuote(t.id, quote), S.Telemetry(0, None))).status
         == if t.readable && Grounded(t.text, quote) then PASS else UNSUPPORTED
  {
    hide Grounded;
    var req, j := OneTarget(t), OneQuote(t.id, quote);
    assert req.targets[0] == t && t in req.targets;
    assert S.StrictId(req, j, 0) == t.id;
    S.PerTargetUngroundedEmpty(req, j, 1);
    assert S.GroundedIn(req.targets, t.id, quote) <==> t.readable && Grounded(t.text, quote);
    assert forall i :: 0 <= i < 1 ==> j.quotes[i] == quote && S.StrictId(req, j, i) == t.id;
  }

  /** Then equal keys do not mean equal verdicts: a quote from a file that reads like a
      placeholder is grounded, the same quote from the unreadable file is not. */
  lemma SameKeyDifferentVerdict(kind: TargetKind) returns (a: S.Target, b: S.Target, reply: S.Reply)
    ensures S.AdmissibleReply(reply) && Loaded(a) && Loaded(b) && EntryOfTarget(a, kind) == EntryOfTarget(b, kind)
    ensures S.SingleOutcome(OneTarget(a), reply).status == PASS
    ensures S.SingleOutcome(OneTarget(b), reply).status == UNSUPPORTED
  {
    var text := UnableToRead("p");
    a, b := S.Target("t", Some("p"), text, true), S.Target("t", Some("p"), text, false);
    reply := S.Answer(OneQuote("t", "("), S.Telemetry(0, None));
    S.CharNormal('x');
    OpeningGrounded(text);
    hide Grounded, S.SingleOutcome;
    OneQuoteOutcome(a, "(");
    OneQuoteOutcome(b, "(");
  }

  lemma OpeningGrounded(text: string)
    requires text != "" && text[0] == '('
    ensures Grounded(text, "(")
  {
    S.CharNormal('(');
    assert text[0..1] == "(";
    NormaliseSlice(text, 0, 1);
  }
}
