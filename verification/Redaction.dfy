/** Replacing what the scan finds, on a finished text: `redact_range`, `redact_complete`, the straddle
    guard and the hold-back. */
module Redaction {
  import opened Symbols
  import opened Patterns
  import opened Scanner

  const DEFAULT_PLACEHOLDER: Text := [
    Ascii('['), Ascii('R'), Ascii('E'), Ascii('D'), Ascii('A'), Ascii('C'), Ascii('T'), Ascii('E'), Ascii('D'),
    Ascii(']')]

  /** `t[cursor..end]` with every span that lies wholly inside it replaced, up to the first span that
      overruns it. */
  function Redacted(t: Text, cursor: nat, end: nat, ms: seq<Match>, placeholder: Text): Text
    requires cursor <= end <= |t| && InOrder(ms, cursor, |t|)
    decreases |ms|
  {
    if ms == [] || ms[0].end > end then t[cursor..end]
    else t[cursor..ms[0].start] + placeholder + Redacted(t, ms[0].end, end, ms[1..], placeholder)
  }

  /** `redact_complete_from` and, with `start` 0, `redact_complete`. */
  function RedactFrom(rules: RuleSet, t: Text, start: nat, placeholder: Text): Text
    requires start <= |t|
  {
    var ds := Decide(rules, t);
    ScanInOrder(ds, start);
    Redacted(t, start, |t|, Scan(ds, start), placeholder)
  }

  function RedactComplete(rules: RuleSet, t: Text, placeholder: Text): Text {
    RedactFrom(rules, t, 0, placeholder)
  }

  /** The labels recorded while emitting up to `end`. */
  function Labels(ms: seq<Match>): multiset<Label> {
    if ms == [] then multiset{} else multiset{ms[0].name} + Labels(ms[1..])
  }

  method RedactRange(t: Text, start: nat, end: nat, ms: seq<Match>, placeholder: Text)
    returns (out: Text, recorded: multiset<Label>)
    requires start <= end <= |t| && InOrder(ms, start, |t|)
    ensures out == Redacted(t, start, end, ms, placeholder)
    ensures recorded == Labels(UpTo(ms, end))
  {
    out, recorded := [], multiset{};
    var cursor, i := start, 0;
    while i < |ms| && ms[i].end <= end
      invariant 0 <= i <= |ms| && start <= cursor <= end && InOrder(ms[i..], cursor, |t|)
      invariant out + Redacted(t, cursor, end, ms[i..], placeholder) == Redacted(t, start, end, ms, placeholder)
      invariant recorded + Labels(UpTo(ms[i..], end)) == Labels(UpTo(ms, end))
      decreases |ms| - i
    {
      assert ms[i..][1..] == ms[i + 1..];
      Associative(out, t[cursor..ms[i].start], placeholder);
      Associative(out, t[cursor..ms[i].start] + placeholder, Redacted(t, ms[i].end, end, ms[i + 1..], placeholder));
      out := out + t[cursor..ms[i].start];
      out := out + placeholder;
      recorded := recorded + multiset{ms[i].name};
      cursor := ms[i].end;
      i := i + 1;
    }
    out := out + t[cursor..end];
  }

  /** The straddle guard: `split` moved back so that no span crosses it. */
  function PullBack(ms: seq<Match>, split: nat): nat {
    if ms == [] then split
    else PullBack(ms[1..], if ms[0].start < split < ms[0].end then ms[0].start else split)
  }

  method PullBackBehindStraddlingMatch(ms: seq<Match>, split: nat, offset: nat, ghost limit: nat)
    returns (safe: nat)
    requires InOrder(ms, offset, limit) && offset <= split
    ensures safe == PullBack(ms, split)
    ensures offset <= safe <= split && !Interior(ms, safe)
  {
    safe := split;
    var i := 0;
    while i < |ms|
      invariant 0 <= i <= |ms| && offset <= safe <= split
      invariant PullBack(ms[i..], safe) == PullBack(ms, split)
    {
      SpansWithin(ms, offset, limit);
      assert ms[i] in ms && ms[i..][1..] == ms[i + 1..];
      if ms[i].start < safe < ms[i].end {
        safe := ms[i].start;
      }
      i := i + 1;
    }
    PullBackFacts(ms, split, offset, limit);
    if safe < offset {
      safe := offset;
    }
  }

  lemma {:induction false} PullBackStays(ms: seq<Match>, split: nat, from: nat, limit: nat)
    requires InOrder(ms, from, limit) && split <= from
    ensures PullBack(ms, split) == split
    ensures !Interior(ms, split) && UpTo(ms, split) == []
  {
    SpansWithin(ms, from, limit);
    if ms != [] {
      PullBackStays(ms[1..], split, ms[0].end, limit);
    }
  }

  /** The guard only moves backwards, never before the first span, and no span crosses the result. A
      span that made it move ends after the old split. */
  lemma {:induction false} PullBackFacts(ms: seq<Match>, split: nat, from: nat, limit: nat)
    requires InOrder(ms, from, limit) && from <= split
    ensures var safe := PullBack(ms, split);
            && from <= safe <= split
            && !Interior(ms, safe)
            && (safe < split ==> exists m <- ms :: m.start == safe && split < m.end)
  {
    if ms != [] {
      var m, rest := ms[0], ms[1..];
      if m.start < split < m.end {
        PullBackStays(rest, m.start, m.end, limit);
      } else if split <= m.start {
        PullBackStays(rest, split, m.end, limit);
      } else {
        PullBackFacts(rest, split, m.end, limit);
      }
      assert forall x <- ms :: x == m || x in rest;
      assert m in ms && forall x <- rest :: x in ms;
    }
  }
}
