/** What the Luhn filter rejects. */
module CardTheorems {
  import opened Symbols
  import opened Regex
  import opened Patterns
  import opened Luhn
  import opened Scanner

  function Count(t: Text): nat {
    |DigitsOf(t)|
  }

  lemma {:induction false} CountJoins(a: Text, b: Text)
    ensures Count(a + b) == Count(a) + Count(b)
  {
    if a == [] {
      assert a + b == b;
    } else {
      CountJoins(a[1..], b);
      assert (a + b)[1..] == a[1..] + b;
    }
  }

  lemma CountBetween(t: Text, i: nat, m: nat, e: nat)
    requires i <= m <= e <= |t|
    ensures Count(t[i..e]) == Count(t[i..m]) + Count(t[m..e])
  {
    CountJoins(t[i..m], t[m..e]);
    assert t[i..m] + t[m..e] == t[i..e];
  }

  lemma CountOne(t: Text, i: nat)
    requires i < |t|
    ensures Count(t[i..i + 1]) == if IsDigit(t[i]) then 1 else 0
  {
    assert t[i..i + 1] == [t[i]] && [t[i]][1..] == [] && DigitsOf([]) == [];
  }

  lemma GroupHasOneDigit(t: Text, i: nat, e: nat)
    requires i <= |t| && e in Ends(CardGroup(), t, i)
    ensures i < e <= |t| && Count(t[i..e]) == 1
  {
    var separator := Optional(One(SEPARATOR));
    EndsBounded(CardGroup(), t, i, e);
    EndsAllMembers(separator, t, Ends(One(DIGIT), t, i), e);
    CountOne(t, i);
    assert e in Ends(separator, t, i + 1);
    if e == i + 2 {
      CountBetween(t, i, i + 1, e);
      CountOne(t, i + 1);
    }
  }

  lemma CatMember(a: Re, b: Re, t: Text, i: nat, e: nat)
    requires e in Ends(Cat(a, b), t, i)
    ensures exists m <- Ends(a, t, i) :: e in Ends(b, t, m)
  {
    EndsAllMembers(b, t, Ends(a, t, i), e);
  }

  lemma RepeatOnce(re: Re, least: nat, most: nat, t: Text, i: nat, e: nat)
    requires e in Ends(Repeat(re, least, most), t, i)
    ensures (e == i && (least == 0 || most == 0))
            || (most > 0 && e in Ends(Cat(re, Repeat(re, if least > 0 then least - 1 else 0, most - 1)), t, i))
  {}

  lemma {:induction false} GroupsHaveDigits(least: nat, most: nat, t: Text, i: nat, e: nat)
    requires least <= most && i <= |t| && e in Ends(Repeat(CardGroup(), least, most), t, i)
    ensures i <= e <= |t| && least <= Count(t[i..e]) <= most
    decreases most
  {
    hide CardGroup, Ends, Repeat;
    var fewer := Repeat(CardGroup(), if least > 0 then least - 1 else 0, if most > 0 then most - 1 else 0);
    RepeatOnce(CardGroup(), least, most, t, i, e);
    if most > 0 && e in Ends(Cat(CardGroup(), fewer), t, i) {
      CatMember(CardGroup(), fewer, t, i, e);
      var m :| m in Ends(CardGroup(), t, i) && e in Ends(fewer, t, m);
      GroupHasOneDigit(t, i, m);
      GroupsHaveDigits(if least > 0 then least - 1 else 0, most - 1, t, m, e);
      CountBetween(t, i, m, e);
    } else {
      assert e == i && least == 0;
      assert t[i..e] == [];
    }
  }

  lemma LastDigitIsOne(t: Text, m: nat, e: nat)
    requires m <= |t| && e in Ends(FinalDigit(), t, m)
    ensures e == m + 1 <= |t| && Count(t[m..e]) == 1
  {
    EndsAllMembers(NotAhead(One(DIGIT_OR_DASH)), t, Ends(One(DIGIT), t, m), e);
    var d :| d in Ends(One(DIGIT), t, m) && e in Ends(NotAhead(One(DIGIT_OR_DASH)), t, d);
    CountOne(t, m);
  }

  lemma CandidateHasDigits(least: nat, most: nat, t: Text, i: nat, e: nat)
    requires 0 < least <= most && i <= |t| && e in Ends(CreditCard(least, most), t, i)
    ensures i < e <= |t| && least + 1 <= Count(t[i..e]) <= most + 1
  {
    hide CardGroup, Repeat, FinalDigit, Count;
    var groups := Repeat(CardGroup(), least, most);
    EndsAllMembers(Cat(groups, FinalDigit()), t, Ends(NotBehind(DIGIT_OR_DASH), t, i), e);
    assert e in Ends(Cat(groups, FinalDigit()), t, i);
    EndsAllMembers(FinalDigit(), t, Ends(groups, t, i), e);
    var m :| m in Ends(groups, t, i) && e in Ends(FinalDigit(), t, m);
    GroupsHaveDigits(least, most, t, i, m);
    LastDigitIsOne(t, m, e);
    CountBetween(t, i, m, e);
  }

  /** The rules named after cards are the one card pattern. */
  predicate OneCardPattern(rules: RuleSet) {
    rules == [] ||
    ((rules[0].name == CREDIT_CARD ==> rules[0].re == CreditCardPattern()) && OneCardPattern(rules[1..]))
  }

  lemma PatternsHaveOneCard()
    ensures OneCardPattern(AllPatterns())
  {
    hide EmailPattern, ApiKeyPattern, CreditCardPattern, Ssn, Phone;
  }

  /** A candidate always has 13 to 19 digits, whatever separates them, so only the check digit decides
      whether it is rejected. */
  lemma {:induction false} LuhnAloneRejects(rules: RuleSet, t: Text, i: nat)
    requires OneCardPattern(rules) && i <= |t|
    ensures var found := MatchAt(rules, t, i);
            found.Some? && found.value.name == CREDIT_CARD ==>
              && i <= found.value.end <= |t| && 13 <= Count(t[i..found.value.end]) <= 19
              && (RejectedCard(t, found.value) <==> !LuhnOk(DigitsOf(t[i..found.value.end])))
  {
    if rules != [] {
      var es := Ends(rules[0].re, t, i);
      if es == [] {
        LuhnAloneRejects(rules[1..], t, i);
      } else if rules[0].name == CREDIT_CARD {
        CandidateHasDigits(12, 18, t, i, es[0]);
      }
    }
  }

  lemma CandidateFoundIffValid(rules: RuleSet, t: Text, i: nat, m: Match)
    requires OneCardPattern(rules) && i <= |t| && MatchAt(rules, t, i) == Some(m) && m.name == CREDIT_CARD
    ensures i <= m.end <= |t| && 13 <= Count(t[i..m.end]) <= 19
    ensures Found(rules, t, i) == None <==> !LuhnOk(DigitsOf(t[i..m.end]))
  {
    LuhnAloneRejects(rules, t, i);
  }

  /** The same for the five patterns: a candidate is left alone if and only if its check digit is wrong. */
  lemma PatternsRejectByLuhnAlone(t: Text, i: nat, m: Match)
    requires i <= |t| && MatchAt(AllPatterns(), t, i) == Some(m) && m.name == CREDIT_CARD
    ensures i <= m.end <= |t| && 13 <= Count(t[i..m.end]) <= 19
    ensures Found(AllPatterns(), t, i) == None <==> !LuhnOk(DigitsOf(t[i..m.end]))
  {
    hide AllPatterns, MatchAt, Found, DigitsOf, LuhnOk;
    PatternsHaveOneCard();
    CandidateFoundIffValid(AllPatterns(), t, i, m);
  }
}
