/** What the five patterns match at a position: which of the shapes, and how much of it. */
module ShapeTheorems {
  import opened Symbols
  import opened Regex
  import opened Patterns
  import opened Scanner
  import opened Shapes
  import opened Greedy
  import opened TokenShapes
  import opened DigitShapes

  ghost predicate Shaped(name: Label, t: Text, i: nat, e: nat) {
    match name
    case EMAIL => EmailShape(t, i, e)
    case API_KEY => ApiKeyShape(t, i, e)
    case CREDIT_CARD => CardShape(t, i, e)
    case SSN => SsnShape(t, i, e)
    case PHONE => PhoneShape(t, i, e)
  }

  /** The longest stretch from `i` on that has the shape. */
  ghost predicate Preferred(name: Label, t: Text, i: nat, e: nat) {
    Shaped(name, t, i, e) && forall f: nat | Shaped(name, t, i, f) :: f <= e
  }

  /** Addresses before keys before cards before social security numbers before phone numbers. */
  function Rank(name: Label): nat {
    match name
    case EMAIL => 0
    case API_KEY => 1
    case CREDIT_CARD => 2
    case SSN => 3
    case PHONE => 4
  }

  function PatternOf(name: Label): Re {
    match name
    case EMAIL => EmailPattern()
    case API_KEY => ApiKeyPattern()
    case CREDIT_CARD => CreditCardPattern()
    case SSN => Ssn()
    case PHONE => Phone()
  }

  lemma SsnShapes(t: Text, i: nat)
    requires i <= |t|
    ensures forall e: nat :: e in Ends(Ssn(), t, i) <==> SsnShape(t, i, e)
    ensures Descending(Ends(Ssn(), t, i))
  {
    hide Ends, Ssn, FencedAt, Numerals, TextAt;
    SsnMatches(t, i);
    assert Ends(Ssn(), t, i) != [] ==> Ends(Ssn(), t, i)[1..] == [];
  }

  lemma PhoneShapes(t: Text, i: nat)
    requires i <= |t|
    ensures forall e: nat :: e in Ends(Phone(), t, i) <==> PhoneShape(t, i, e)
    ensures Descending(Ends(Phone(), t, i))
  {
    hide Ends, Phone, PhoneShape, NumberShape, FencedAt, NumberEnd, PastCode;
    PhoneMatches(t, i);
    forall e: nat | PhoneShape(t, i, e) ensures e == NumberEnd(t, PastCode(t, i)) { PhoneShapeIs(t, i, e); }
    assert Ends(Phone(), t, i) != [] ==> Ends(Phone(), t, i)[1..] == [];
  }

  lemma KeyShapes(t: Text, i: nat)
    requires Ends(ApiKeyPattern(), t, i) != []
    ensures forall f: nat | ApiKeyShape(t, i, f) :: f == Ends(ApiKeyPattern(), t, i)[0]
  {
    hide Ends, ApiKeyPattern, ApiKeyShape;
    ApiKeyMatches(t, i);
    var e := Ends(ApiKeyPattern(), t, i)[0];
    forall f: nat | ApiKeyShape(t, i, f) ensures f == e { OneKey(t, i, e, f); }
  }

  /** Each pattern matches exactly the stretches of its shape, and reports the longest one. */
  lemma PatternFindsShape(name: Label, t: Text, i: nat)
    requires i <= |t|
    ensures forall e: nat :: e in Ends(PatternOf(name), t, i) <==> Shaped(name, t, i, e)
    ensures Ends(PatternOf(name), t, i) != [] ==> Preferred(name, t, i, Ends(PatternOf(name), t, i)[0])
  {
    hide Ends, EmailPattern, ApiKeyPattern, CreditCardPattern, Ssn, Phone;
    hide EmailShape, ApiKeyShape, CardShape, SsnShape, PhoneShape, Descending;
    var es := Ends(PatternOf(name), t, i);
    match name
    case EMAIL => EmailMatches(t, i); HeadIsGreatest(es);
    case API_KEY => ApiKeyMatches(t, i); if es != [] { KeyShapes(t, i); }
    case CREDIT_CARD => CardMatches(t, i); HeadIsGreatest(es);
    case SSN => SsnShapes(t, i); HeadIsGreatest(es);
    case PHONE => PhoneShapes(t, i); HeadIsGreatest(es);
  }

  /** The rules from rank `k` on. */
  predicate Ranked(rules: RuleSet, k: nat) {
    hide PatternOf;
    if rules == [] then k == 5
    else Rank(rules[0].name) == k && rules[0].re == PatternOf(rules[0].name) && Ranked(rules[1..], k + 1)
  }

  lemma {:induction false} FirstShape(rules: RuleSet, t: Text, i: nat, k: nat)
    requires i <= |t| && Ranked(rules, k)
    ensures match MatchAt(rules, t, i)
            case None => forall name: Label, e: nat | Rank(name) >= k :: !Shaped(name, t, i, e)
            case Some(m) =>
              && m.start == i && Rank(m.name) >= k && Preferred(m.name, t, i, m.end)
              && forall name: Label, e: nat | k <= Rank(name) < Rank(m.name) :: !Shaped(name, t, i, e)
  {
    hide Ends, PatternOf, Shaped, Preferred;
    if rules != [] {
      var first := rules[0].name;
      var es := Ends(PatternOf(first), t, i);
      PatternFindsShape(first, t, i);
      if es == [] {
        assert forall e: nat :: !Shaped(first, t, i, e);
        FirstShape(rules[1..], t, i, k + 1);
        assert forall name: Label | Rank(name) == k :: name == first;
      }
    }
  }

  lemma PatternsRanked()
    ensures Ranked(AllPatterns(), 0)
  {
    hide EmailPattern, ApiKeyPattern, CreditCardPattern, Ssn, Phone;
  }

  /** A scan that arrives at `i` finds the first of the shapes that is there, in the order of the policy,
      and the longest stretch of it; it finds nothing if and only if none of them is there. */
  lemma PatternsMatchShapes(t: Text, i: nat)
    requires i <= |t|
    ensures match MatchAt(AllPatterns(), t, i)
            case None => forall name: Label, e: nat :: !Shaped(name, t, i, e)
            case Some(m) =>
              && m.start == i && Preferred(m.name, t, i, m.end)
              && forall name: Label, e: nat | Rank(name) < Rank(m.name) :: !Shaped(name, t, i, e)
  {
    hide MatchAt, AllPatterns, Shaped, Preferred, PatternOf;
    PatternsRanked();
    FirstShape(AllPatterns(), t, i, 0);
  }
}
