/** How much of the end of the buffer is withheld because it may still grow into a match. */
module Holdback {
  import opened Symbols
  import opened Regex
  import opened Patterns
  import opened Scanner

  /** `w[j..]` is a run that the tail rule matches. */
  predicate IsTail(rule: TailRule, w: Text, j: nat) {
    j < |w| && Consists(w, j, |w|, rule.head, rule.rest)
  }

  /** The leftmost, hence longest, run at the end of `w` that the tail rule matches. */
  function TailFrom(rule: TailRule, w: Text, j: nat): nat
    decreases |w| - j
  {
    if j >= |w| || IsTail(rule, w, j) then j else TailFrom(rule, w, j + 1)
  }

  function TailLength(rule: TailRule, w: Text): nat {
    TailBounds(rule, w, 0);
    |w| - TailFrom(rule, w, 0)
  }

  lemma {:induction false} TailBounds(rule: TailRule, w: Text, j: nat)
    requires j <= |w|
    ensures j <= TailFrom(rule, w, j) <= |w|
    ensures forall k | j <= k && IsTail(rule, w, k) :: TailFrom(rule, w, j) <= k
    decreases |w| - j
  {
    if j < |w| && !IsTail(rule, w, j) {
      TailBounds(rule, w, j + 1);
    }
  }

  function HoldbackOf(buffer: Text, maxHoldback: nat): nat {
    if buffer == [] then 0
    else
      var window := LastN(buffer, maxHoldback);
      Min(Max(TailLength(TAIL_TOKEN, window), TailLength(TAIL_DIGITS, window)), maxHoldback)
  }

  lemma HoldbackBounded(buffer: Text, maxHoldback: nat)
    ensures HoldbackOf(buffer, maxHoldback) <= Min(|buffer|, maxHoldback)
  {
    TailBounds(TAIL_TOKEN, LastN(buffer, maxHoldback), 0);
    TailBounds(TAIL_DIGITS, LastN(buffer, maxHoldback), 0);
  }

  /** The same run in a longer text. */
  lemma {:induction false} RunMoves(t: Text, w: Text, k: nat, j: nat, head: CharClass, rest: CharClass)
    requires k + |w| <= |t| && t[k..k + |w|] == w && j <= |w|
    ensures Consists(t, k + j, k + |w|, head, rest) == Consists(w, j, |w|, head, rest)
    decreases |w| - j
  {
    if j < |w| {
      assert t[k..k + |w|][j] == t[k + j];
      RunMoves(t, w, k, j + 1, rest, rest);
    }
  }

  /** A run within the cap that a tail rule matches is withheld as a whole. */
  lemma TailWithheld(rule: TailRule, buffer: Text, maxHoldback: nat, j: nat)
    requires rule == TAIL_TOKEN || rule == TAIL_DIGITS
    requires |buffer| - j <= maxHoldback && IsTail(rule, buffer, j)
    ensures |buffer| - j <= HoldbackOf(buffer, maxHoldback) <= |buffer|
  {
    var window := LastN(buffer, maxHoldback);
    var skipped := |buffer| - |window|;
    assert buffer[skipped..skipped + |window|] == window;
    RunMoves(buffer, window, skipped, j - skipped, rule.head, rule.rest);
    TailBounds(TAIL_TOKEN, window, 0);
    TailBounds(TAIL_DIGITS, window, 0);
    assert IsTail(rule, window, j - skipped);
  }

  predicate AnyTail(w: Text, j: nat) {
    IsTail(TAIL_TOKEN, w, j) || IsTail(TAIL_DIGITS, w, j)
  }

  lemma {:induction false} TailIsTail(rule: TailRule, w: Text, j: nat)
    requires j <= |w|
    ensures TailFrom(rule, w, j) >= |w| || IsTail(rule, w, TailFrom(rule, w, j))
    decreases |w| - j
  {
    if j < |w| && !IsTail(rule, w, j) {
      TailIsTail(rule, w, j + 1);
    }
  }

  lemma WithheldIsTail(buffer: Text, maxHoldback: nat)
    requires HoldbackOf(buffer, maxHoldback) > 0
    ensures AnyTail(buffer, |buffer| - HoldbackOf(buffer, maxHoldback))
  {
    var hold, window := HoldbackOf(buffer, maxHoldback), LastN(buffer, maxHoldback);
    var rule := if TailLength(TAIL_TOKEN, window) >= TailLength(TAIL_DIGITS, window) then TAIL_TOKEN else TAIL_DIGITS;
    var skipped := |buffer| - |window|;
    assert hold == TailLength(rule, window);
    TailBounds(rule, window, 0);
    TailIsTail(rule, window, 0);
    assert buffer[skipped..skipped + |window|] == window;
    RunMoves(buffer, window, skipped, |window| - hold, rule.head, rule.rest);
  }

  /** What is withheld is exactly the longest run within the cap that a tail rule matches: no less, and
      no more. */
  lemma HoldbackIsLongestTail(buffer: Text, maxHoldback: nat)
    ensures var hold := HoldbackOf(buffer, maxHoldback);
            && hold <= maxHoldback && hold <= |buffer|
            && (hold > 0 ==> AnyTail(buffer, |buffer| - hold))
            && (forall j: nat | j < |buffer| && |buffer| - j <= maxHoldback && AnyTail(buffer, j) ::
                  |buffer| - j <= hold)
  {
    HoldbackBounded(buffer, maxHoldback);
    if HoldbackOf(buffer, maxHoldback) > 0 {
      WithheldIsTail(buffer, maxHoldback);
    }
    forall j: nat | j < |buffer| && |buffer| - j <= maxHoldback && AnyTail(buffer, j)
      ensures |buffer| - j <= HoldbackOf(buffer, maxHoldback)
    {
      TailWithheld(if IsTail(TAIL_TOKEN, buffer, j) then TAIL_TOKEN else TAIL_DIGITS, buffer, maxHoldback, j);
    }
  }

  predicate TouchesAny(rules: RuleSet, t: Text, i: nat) {
    rules != [] && (Touches(rules[0].re, t, i) || TouchesAny(rules[1..], t, i))
  }

  function RuleFor(re: Re): TailRule {
    if FitsTail(re, TAIL_TOKEN) then TAIL_TOKEN else TAIL_DIGITS
  }

  /** A position within the cap where some pattern looks at the end of the text is withheld. */
  lemma {:induction false} TouchWithheld(rules: RuleSet, left: Text, buffer: Text, maxHoldback: nat, j: nat)
    requires Fitting(rules) && j < |buffer| && |buffer| - j <= maxHoldback
    requires TouchesAny(rules, left + buffer, |left| + j)
    ensures |buffer| - j <= HoldbackOf(buffer, maxHoldback) <= |buffer|
  {
    var t, re := left + buffer, rules[0].re;
    if Touches(re, t, |left| + j) {
      TouchConsists(re, t, |left| + j, RuleFor(re).head, RuleFor(re).rest);
      assert t[|left|..|left| + |buffer|] == buffer;
      RunMoves(t, buffer, |left|, j, RuleFor(re).head, RuleFor(re).rest);
      TailWithheld(RuleFor(re), buffer, maxHoldback, j);
    } else {
      TouchWithheld(rules[1..], left, buffer, maxHoldback, j);
    }
  }

  /** The match found at `i` goes to the end of the text, where it may still grow. */
  predicate Growing(rules: RuleSet, t: Text, i: nat) {
    i < |t| && Found(rules, t, i).Some? && Found(rules, t, i).value.end == |t| && TOKEN.Has(t[|t| - 1])
  }

  /** The cap is large enough for the rules: a position beyond it where some pattern looks at the end of
      the text has a match that already goes there, so that the straddle guard keeps it. */
  ghost predicate HoldsEnough(rules: RuleSet, maxHoldback: nat) {
    && Fitting(rules)
    && (forall t: Text, i: nat | i < |t| && TouchesAny(rules, t, i) && |t| - i > maxHoldback ::
          maxHoldback > 0 && Growing(rules, t, i))
  }

  lemma {:induction false} TouchNotTooFar(rules: RuleSet, t: Text, i: nat, longest: nat)
    requires Fitting(rules) && Longest(rules, longest) && i <= |t| && TouchesAny(rules, t, i)
    ensures |t| - i < longest
  {
    if Touches(rules[0].re, t, i) {
      TouchConsists(rules[0].re, t, i, RuleFor(rules[0].re).head, RuleFor(rules[0].re).rest);
    } else {
      TouchNotTooFar(rules[1..], t, i, longest);
    }
  }

  /** A cap of one less than the longest match is large enough for any rules. */
  lemma LongestHoldsEnough(rules: RuleSet, maxHoldback: nat)
    requires Fitting(rules) && Longest(rules, maxHoldback + 1)
    ensures HoldsEnough(rules, maxHoldback)
  {
    forall t: Text, i: nat | i < |t| && TouchesAny(rules, t, i)
      ensures |t| - i <= maxHoldback
    {
      TouchNotTooFar(rules, t, i, maxHoldback + 1);
    }
  }

  /** `s` is the beginning of something a pattern matches in full: what `fullmatch(..., partial=True)`
      asks. */
  ghost predicate Partial(rules: RuleSet, s: Text) {
    rules != [] && ((exists more: Text :: |s + more| in Ends(rules[0].re, s + more, 0)) || Partial(rules[1..], s))
  }

  /** The exact hold-back: the longest suffix within the cap that could become a match. */
  ghost function HoldbackExact(rules: RuleSet, buffer: Text, maxHoldback: nat): nat {
    HoldbackExactFrom(rules, buffer, if |buffer| > maxHoldback then |buffer| - maxHoldback else 0)
  }

  ghost function HoldbackExactFrom(rules: RuleSet, buffer: Text, index: nat): nat
    decreases |buffer| - index
  {
    if index >= |buffer| then 0
    else if Partial(rules, buffer[index..]) then |buffer| - index
    else HoldbackExactFrom(rules, buffer, index + 1)
  }

  lemma {:induction false} RunStops(t: Text, i: nat, e: nat, head: CharClass, rest: CharClass)
    requires e <= |t| && Consists(t, i, |t|, head, rest)
    ensures Consists(t, i, e, head, rest)
    decreases |t| - i
  {
    if i < e {
      RunStops(t, i + 1, e, rest, rest);
    }
  }

  /** Every suffix of the buffer that is the beginning of some match is withheld. */
  lemma {:induction false} PartialWithheld(rules: RuleSet, buffer: Text, maxHoldback: nat, j: nat)
    requires Fitting(rules) && j < |buffer| && Partial(rules, buffer[j..])
    requires |buffer| - j <= maxHoldback || Longest(rules, maxHoldback)
    ensures |buffer| - j <= HoldbackOf(buffer, maxHoldback)
  {
    var s, re := buffer[j..], rules[0].re;
    if more: Text :| |s + more| in Ends(re, s + more, 0) {
      EndsBounded(re, s + more, 0, |s + more|);
      EndsConsist(re, s + more, 0, |s + more|, RuleFor(re).head, RuleFor(re).rest);
      RunStops(s + more, 0, |s|, RuleFor(re).head, RuleFor(re).rest);
      assert (s + more)[0..|s|] == s && buffer[j..|buffer|] == s;
      RunMoves(s + more, s, 0, 0, RuleFor(re).head, RuleFor(re).rest);
      RunMoves(buffer, s, j, 0, RuleFor(re).head, RuleFor(re).rest);
      TailWithheld(RuleFor(re), buffer, maxHoldback, j);
    } else {
      PartialWithheld(rules[1..], buffer, maxHoldback, j);
    }
  }

  /** The heuristic never withholds less than the exact rule does, under any cap. */
  lemma HoldbackOverApproximates(rules: RuleSet, buffer: Text, maxHoldback: nat)
    requires Fitting(rules)
    ensures HoldbackExact(rules, buffer, maxHoldback) <= HoldbackOf(buffer, maxHoldback)
  {
    ExactFromWithheld(rules, buffer, maxHoldback, if |buffer| > maxHoldback then |buffer| - maxHoldback else 0);
  }

  lemma {:induction false} ExactFromWithheld(rules: RuleSet, buffer: Text, maxHoldback: nat, index: nat)
    requires Fitting(rules) && |buffer| - index <= maxHoldback
    ensures HoldbackExactFrom(rules, buffer, index) <= HoldbackOf(buffer, maxHoldback)
    decreases |buffer| - index
  {
    if index < |buffer| {
      if Partial(rules, buffer[index..]) {
        PartialWithheld(rules, buffer, maxHoldback, index);
      } else {
        ExactFromWithheld(rules, buffer, maxHoldback, index + 1);
      }
    }
  }
}
