/** The digits of a candidate in the order in which they are written, and what the scan makes of a number
    that someone writes down. */
module CardWriting {
  import opened Symbols
  import opened Patterns
  import opened Luhn
  import opened Scanner
  import opened Shapes
  import opened ShapeTheorems

  // Digits by position

  /** How many digits stand before `k`. */
  function DigitsBefore(t: Text, k: nat): nat
    requires k <= |t|
  {
    if k == 0 then 0 else DigitsBefore(t, k - 1) + if Numeral(t[k - 1]) then 1 else 0
  }

  lemma {:induction false} DigitsJoin(a: Text, b: Text)
    ensures DigitsOf(a + b) == DigitsOf(a) + DigitsOf(b)
  {
    hide ValueOf, IsDigit;
    if a == [] {
      assert a + b == b;
    } else {
      var first := if IsDigit(a[0]) then [ValueOf(a[0])] else [];
      DigitsJoin(a[1..], b);
      assert (a + b)[1..] == a[1..] + b;
      Associative(first, DigitsOf(a[1..]), DigitsOf(b));
    }
  }

  lemma OneDigit(s: Symbol)
    ensures DigitsOf([s]) == if Numeral(s) then [ValueOf(s)] else []
  {
    assert [s][1..] == [] && DigitsOf([]) == [];
  }

  lemma {:induction false} DigitsCounted(t: Text, k: nat)
    requires k <= |t|
    ensures |DigitsOf(t[..k])| == DigitsBefore(t, k)
  {
    if k > 0 {
      DigitsCounted(t, k - 1);
      assert t[..k] == t[..k - 1] + [t[k - 1]];
      DigitsJoin(t[..k - 1], [t[k - 1]]);
      OneDigit(t[k - 1]);
    }
  }

  /** The digits that are checked are those of the text, all of them, in the order of the text, each with
      its own value. */
  lemma DigitsInOrder(t: Text, k: nat)
    requires NumeralAt(t, k)
    ensures DigitsBefore(t, k) < |DigitsOf(t)| == DigitsBefore(t, |t|)
    ensures var d := DigitsOf(t)[DigitsBefore(t, k)];
            if t[k].Decimal? then d == t[k].value else '0' + d as char == t[k].c
  {
    hide DigitsOf, DigitsBefore;
    assert t[..|t|] == t;
    DigitsCounted(t, |t|);
    DigitsCounted(t, k);
    DigitsJoin(t[..k], t[k..]);
    DigitsJoin([t[k]], t[k + 1..]);
    assert t[..k] + t[k..] == t && [t[k]] + t[k + 1..] == t[k..];
    OneDigit(t[k]);
  }

  // Numbers as they are written

  predicate Gap(gap: Text) {
    gap == [] || gap == [Ascii(' ')] || gap == [Ascii('-')]
  }

  function DigitSymbol(d: DigitValue): Symbol {
    Ascii('0' + d as char)
  }

  /** The digits with the gaps between them. */
  function Written(ds: Digits, gaps: seq<Text>): Text
    requires |ds| == |gaps| + 1
  {
    [DigitSymbol(ds[0])] + if gaps == [] then [] else gaps[0] + Written(ds[1..], gaps[1..])
  }

  lemma {:induction false} WrittenDigits(ds: Digits, gaps: seq<Text>)
    requires |ds| == |gaps| + 1 && forall gap <- gaps :: Gap(gap)
    ensures DigitsOf(Written(ds, gaps)) == ds
  {
    OneDigit(DigitSymbol(ds[0]));
    if gaps == [] {
      assert ds == [ds[0]];
    } else {
      WrittenDigits(ds[1..], gaps[1..]);
      DigitsJoin([DigitSymbol(ds[0])], gaps[0] + Written(ds[1..], gaps[1..]));
      DigitsJoin(gaps[0], Written(ds[1..], gaps[1..]));
      assert gaps[0] in gaps;
      GapHasNoDigits(gaps[0]);
      assert ds == [ds[0]] + ([] + ds[1..]);
    }
  }

  lemma GapHasNoDigits(gap: Text)
    requires Gap(gap)
    ensures DigitsOf(gap) == []
  {
    OneDigit(Ascii(' '));
    OneDigit(Ascii('-'));
  }

  /** Digits, blanks and dashes, and first of all a digit. */
  lemma {:induction false} WrittenSymbols(ds: Digits, gaps: seq<Text>)
    requires |ds| == |gaps| + 1 && forall gap <- gaps :: Gap(gap)
    ensures Written(ds, gaps) != [] && Numeral(Written(ds, gaps)[0])
    ensures forall s <- Written(ds, gaps) :: Numeral(s) || s == Ascii(' ') || s == Ascii('-')
  {
    if gaps != [] {
      assert gaps[0] in gaps;
      WrittenSymbols(ds[1..], gaps[1..]);
    }
  }

  lemma {:induction false} WrittenIsSpaced(ds: Digits, gaps: seq<Text>, left: Text, t: Text)
    requires |ds| == |gaps| + 1 && (forall gap <- gaps :: Gap(gap)) && t == left + Written(ds, gaps)
    ensures SpacedNumerals(t, |left|, |ds|, |t|)
    decreases |ds|
  {
    assert t[|left|] == DigitSymbol(ds[0]);
    if gaps != [] {
      var rest := Written(ds[1..], gaps[1..]);
      assert gaps[0] in gaps;
      WrittenSymbols(ds[1..], gaps[1..]);
      var left' := left + ([DigitSymbol(ds[0])] + gaps[0]);
      assert t == left' + rest;
      assert t[|left'|] == rest[0];
      WrittenIsSpaced(ds[1..], gaps[1..], left', t);
      assert gaps[0] != [] ==> t[|left| + 1] == gaps[0][0];
      assert PastSeparator(t, |left| + 1) == |left'|;
    }
  }

  lemma {:induction false} SpacedWithin(t: Text, k: nat, n: nat, e: nat)
    requires SpacedNumerals(t, k, n, e)
    ensures e <= |t|
    decreases n
  {
    if n > 1 {
      SpacedWithin(t, PastSeparator(t, k + 1), n - 1, e);
    }
  }

  lemma NoTokenShapes(t: Text, e: nat)
    requires t != [] && Numeral(t[0]) && forall s <- t :: Numeral(s) || s == Ascii(' ') || s == Ascii('-')
    ensures !EmailShape(t, 0, e) && !ApiKeyShape(t, 0, e)
  {
    hide Numeral;
    forall k: nat ensures !IsChar(t, k, '@') {
      if k < |t| {
        assert t[k] in t;
        if Numeral(t[k]) { NumeralIsNoLetter(t[k], '@'); }
      }
    }
    NumeralIsNoLetter(t[0], 's');
    NumeralIsNoLetter(t[0], 'p');
    NumeralIsNoLetter(t[0], 'r');
    assert !TextAt(t, 0, "sk-") && !TextAt(t, 0, "pk-") && !TextAt(t, 0, "rk-");
  }

  lemma NumeralIsNoLetter(s: Symbol, c: AsciiChar)
    requires Numeral(s) && !('0' <= c <= '9')
    ensures s != Ascii(c)
  {}

  /** What the first shape at the start has to be when the whole text is a run of digits. */
  lemma CandidateIsFirst(t: Text, n: nat, found: Option<Match>)
    requires t != [] && Numeral(t[0]) && forall s <- t :: Numeral(s) || s == Ascii(' ') || s == Ascii('-')
    requires 13 <= n <= 19 && SpacedNumerals(t, 0, n, |t|)
    requires match found
             case None => forall name: Label, e: nat :: !Shaped(name, t, 0, e)
             case Some(m) =>
               && m.start == 0 && Preferred(m.name, t, 0, m.end)
               && forall name: Label, e: nat | Rank(name) < Rank(m.name) :: !Shaped(name, t, 0, e)
    ensures found == Some(Match(CREDIT_CARD, 0, |t|))
  {
    hide SpacedNumerals, EmailShape, ApiKeyShape, SsnShape, PhoneShape;
    assert CardShape(t, 0, |t|) && Shaped(CREDIT_CARD, t, 0, |t|);
    var m := found.value;
    NoTokenShapes(t, m.end);
    var k: nat :| 13 <= k <= 19 && SpacedNumerals(t, 0, k, m.end);
    SpacedWithin(t, 0, k, m.end);
  }

  lemma WrittenIsCandidate(ds: Digits, gaps: seq<Text>)
    requires 13 <= |ds| <= 19 && |ds| == |gaps| + 1 && forall gap <- gaps :: Gap(gap)
    ensures MatchAt(AllPatterns(), Written(ds, gaps), 0) == Some(Match(CREDIT_CARD, 0, |Written(ds, gaps)|))
  {
    hide MatchAt, AllPatterns, Written, SpacedNumerals, Shaped, Preferred, Rank, Numeral;
    var t := Written(ds, gaps);
    WrittenSymbols(ds, gaps);
    assert [] + t == t;
    WrittenIsSpaced(ds, gaps, [], t);
    PatternsMatchShapes(t, 0);
    CandidateIsFirst(t, |ds|, MatchAt(AllPatterns(), t, 0));
  }

  /** A number of 13 to 19 digits, written with a blank, a dash or nothing between any two of them, is
      found as a card if and only if it is valid. */
  lemma CardFoundIffValid(ds: Digits, gaps: seq<Text>)
    requires 13 <= |ds| <= 19 && |ds| == |gaps| + 1 && forall gap <- gaps :: Gap(gap)
    ensures Found(AllPatterns(), Written(ds, gaps), 0)
         == if LuhnOk(ds) then Some(Match(CREDIT_CARD, 0, |Written(ds, gaps)|)) else None
  {
    hide MatchAt, AllPatterns, Written, LuhnOk, DigitsOf;
    var t := Written(ds, gaps);
    WrittenIsCandidate(ds, gaps);
    WrittenDigits(ds, gaps);
    assert t[0..|t|] == t;
  }

  /** Of the ten last digits that can be appended to a number, one makes it a card that is found. */
  lemma OneLastDigit(ds: Digits, gaps: seq<Text>) returns (c: DigitValue)
    requires 12 <= |ds| <= 18 && |ds| == |gaps| && forall gap <- gaps :: Gap(gap)
    ensures forall d: DigitValue :: Found(AllPatterns(), Written(ds + [d], gaps), 0).Some? <==> d == c
  {
    hide Found, AllPatterns, Written, LuhnOk;
    c := CheckDigit(ds);
    forall d: DigitValue ensures Found(AllPatterns(), Written(ds + [d], gaps), 0).Some? <==> d == c {
      CardFoundIffValid(ds + [d], gaps);
    }
  }
}
