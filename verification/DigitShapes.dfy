/** The card, social security and phone patterns match exactly the shapes they are meant to match. */
module DigitShapes {
  import opened Symbols
  import opened Regex
  import opened Patterns
  import opened Shapes
  import opened Greedy

  // The character classes of the patterns

  lemma ClassesAre(s: Symbol)
    ensures DIGIT.Has(s) <==> Numeral(s)
    ensures SEPARATOR.Has(s) <==> s == Ascii(' ') || s == Ascii('-')
    ensures DIGIT_OR_DASH.Has(s) <==> Numeral(s) || s == Ascii('-')
  {}

  lemma DigitAt(t: Text, i: nat, re: Re)
    ensures Ends(Cat(One(DIGIT), re), t, i) == if NumeralAt(t, i) then Ends(re, t, i + 1) else []
  {
    OneThen(DIGIT, re, t, i);
    if i < |t| { ClassesAre(t[i]); }
  }

  lemma SeparatorThen(t: Text, i: nat, re: Re)
    ensures Ends(Cat(One(SEPARATOR), re), t, i) == if SeparatorAt(t, i) then Ends(re, t, i + 1) else []
  {
    OneThen(SEPARATOR, re, t, i);
    if i < |t| { ClassesAre(t[i]); }
  }

  lemma {:induction false} DigitsThen(n: nat, re: Re, t: Text, i: nat)
    ensures Ends(Cat(Digits(n), re), t, i) == if Numerals(t, i, n) then Ends(re, t, i + n) else []
    decreases n
  {
    hide Ends, NumeralAt;
    if n == 0 {
      EmptyThen(re, t, i);
    } else {
      CatAssociates(One(DIGIT), Digits(n - 1), re, t, i);
      DigitAt(t, i, Cat(Digits(n - 1), re));
      DigitsThen(n - 1, re, t, i + 1);
    }
  }

  lemma OptionalSeparatorThen(t: Text, i: nat, re: Re)
    requires SeparatorAt(t, i) ==> Ends(re, t, i) == []
    ensures Ends(Cat(Optional(One(SEPARATOR)), re), t, i) == Ends(re, t, PastSeparator(t, i))
  {
    hide Ends, Optional;
    OptionalThen(One(SEPARATOR), re, t, i);
    SeparatorThen(t, i, re);
  }

  lemma OptionalCharThen(c: char, t: Text, i: nat, re: Re)
    requires IsChar(t, i, c) ==> Ends(re, t, i) == []
    ensures Ends(Cat(Optional(Char(c)), re), t, i) == Ends(re, t, if IsChar(t, i, c) then i + 1 else i)
  {
    hide Ends, Optional;
    OptionalThen(Char(c), re, t, i);
    CharThen(c, re, t, i);
  }

  lemma SeparatorIsNoNumeral(t: Text, i: nat)
    ensures SeparatorAt(t, i) ==> !NumeralAt(t, i)
    ensures IsChar(t, i, '(') || IsChar(t, i, ')') || IsChar(t, i, '+') ==> !NumeralAt(t, i) && !SeparatorAt(t, i)
  {}

  lemma FenceBehind(t: Text, i: nat, re: Re)
    requires i <= |t|
    ensures Ends(Cat(NotBehind(DIGIT_OR_DASH), re), t, i) == if FencedAt(t, i - 1) then Ends(re, t, i) else []
  {
    NotBehindThen(DIGIT_OR_DASH, re, t, i);
    if i > 0 { ClassesAre(t[i - 1]); }
  }

  lemma FenceAhead(t: Text, e: nat)
    ensures Ends(NotAhead(One(DIGIT_OR_DASH)), t, e) == if FencedAt(t, e) then [e] else []
  {
    if e < |t| { ClassesAre(t[e]); }
  }

  // Social security numbers

  lemma NumeralFirst(t: Text, k: nat, n: nat)
    requires n > 0 && Numerals(t, k, n)
    ensures NumeralAt(t, k)
  {}

  /** Some digits and nothing like a digit after them. */
  function LastDigits(n: nat): Re {
    Cat(Digits(n), NotAhead(One(DIGIT_OR_DASH)))
  }

  lemma LastDigitsEnd(n: nat, t: Text, k: nat)
    ensures Ends(LastDigits(n), t, k) == if Numerals(t, k, n) && FencedAt(t, k + n) then [k + n] else []
  {
    hide Ends, Digits, Numerals, FencedAt;
    DigitsThen(n, NotAhead(One(DIGIT_OR_DASH)), t, k);
    FenceAhead(t, k + n);
  }

  function Serial(): Re {
    Cat(NotAhead(Literal("0000")), LastDigits(4))
  }

  lemma SerialEnds(t: Text, k: nat)
    ensures Ends(Serial(), t, k) ==
              if Numerals(t, k, 4) && !TextAt(t, k, "0000") && FencedAt(t, k + 4) then [k + 4] else []
  {
    hide Ends, LastDigits, Literal, Numerals, TextAt, FencedAt;
    NotAheadThen(Literal("0000"), LastDigits(4), t, k);
    LiteralEnds("0000", t, k);
    LastDigitsEnd(4, t, k);
  }

  lemma SsnSerialIs()
    ensures SsnSerial() == Cat(Digits(2), Cat(Optional(One(SEPARATOR)), Serial()))
  {
    hide Digits, Literal;
  }

  lemma SsnSerialEnds(t: Text, group: nat)
    ensures var serial := PastSeparator(t, group + 2);
            Ends(SsnSerial(), t, group) ==
              if Numerals(t, group, 2) && Numerals(t, serial, 4) && !TextAt(t, serial, "0000")
                 && FencedAt(t, serial + 4)
              then [serial + 4] else []
  {
    hide Ends, Digits, Serial, SsnSerial, Optional, Numerals, TextAt, FencedAt;
    SsnSerialIs();
    var gap := group + 2;
    DigitsThen(2, Cat(Optional(One(SEPARATOR)), Serial()), t, group);
    SerialEnds(t, gap);
    SerialEnds(t, PastSeparator(t, gap));
    if Numerals(t, gap, 4) { NumeralFirst(t, gap, 4); }
    SeparatorIsNoNumeral(t, gap);
    OptionalSeparatorThen(t, gap, Serial());
  }

  lemma SsnAreaEnds(t: Text, i: nat)
    requires Numerals(t, i, 3)
    ensures Ends(SsnArea(), t, i) == [] <==> !TextAt(t, i, "000") && !TextAt(t, i, "666") && !IsChar(t, i, '9')
  {
    LiteralEnds("000", t, i);
    LiteralEnds("666", t, i);
    CharThen('9', Digits(2), t, i);
    ThenNothing(Digits(2), t, i + 1);
    DigitsThen(2, Empty, t, i + 1);
    assert Numerals(t, i + 1, 2);
  }

  function SsnGroup(): Re {
    Cat(NotAhead(Literal("00")), SsnSerial())
  }

  predicate GroupShape(t: Text, group: nat) {
    var serial := PastSeparator(t, group + 2);
    && Numerals(t, group, 2) && !TextAt(t, group, "00")
    && Numerals(t, serial, 4) && !TextAt(t, serial, "0000") && FencedAt(t, serial + 4)
  }

  lemma SsnGroupEnds(t: Text, k: nat)
    ensures Ends(SsnGroup(), t, k) == if GroupShape(t, k) then [PastSeparator(t, k + 2) + 4] else []
    ensures !NumeralAt(t, k) ==> Ends(SsnGroup(), t, k) == []
  {
    hide Ends, SsnSerial, Literal, Numerals, TextAt, FencedAt;
    NotAheadThen(Literal("00"), SsnSerial(), t, k);
    LiteralEnds("00", t, k);
    SsnSerialEnds(t, k);
    if Numerals(t, k, 2) { NumeralFirst(t, k, 2); }
  }

  lemma SsnIs()
    ensures Ssn() == Cat(NotBehind(DIGIT_OR_DASH),
                         Cat(NotAhead(SsnArea()), Cat(Digits(3), Cat(Optional(One(SEPARATOR)), SsnGroup()))))
  {
    hide Digits, Literal, SsnArea, SsnSerial;
  }

  lemma SsnShapeIs(t: Text, i: nat, e: nat)
    ensures SsnShape(t, i, e) <==>
            && FencedAt(t, i - 1)
            && Numerals(t, i, 3) && !TextAt(t, i, "000") && !TextAt(t, i, "666") && !IsChar(t, i, '9')
            && GroupShape(t, PastSeparator(t, i + 3)) && e == PastSeparator(t, PastSeparator(t, i + 3) + 2) + 4
  {
    hide Numerals, TextAt, FencedAt;
  }

  /** The pattern finds at most one match at a position, and finds it exactly where the shape is. */
  lemma SsnMatches(t: Text, i: nat)
    requires i <= |t|
    ensures var end := PastSeparator(t, PastSeparator(t, i + 3) + 2) + 4;
            Ends(Ssn(), t, i) == if SsnShape(t, i, end) then [end] else []
  {
    hide Ends, Ssn, SsnGroup, SsnArea, Digits, Optional, Numerals, TextAt, FencedAt, SsnShape, GroupShape;
    SsnIs();
    var tail := Cat(Optional(One(SEPARATOR)), SsnGroup());
    FenceBehind(t, i, Cat(NotAhead(SsnArea()), Cat(Digits(3), tail)));
    NotAheadThen(SsnArea(), Cat(Digits(3), tail), t, i);
    DigitsThen(3, tail, t, i);
    if Numerals(t, i, 3) { SsnAreaEnds(t, i); }
    SsnGroupEnds(t, i + 3);
    SsnGroupEnds(t, PastSeparator(t, i + 3));
    SeparatorIsNoNumeral(t, i + 3);
    OptionalSeparatorThen(t, i + 3, SsnGroup());
    SsnShapeIs(t, i, PastSeparator(t, PastSeparator(t, i + 3) + 2) + 4);
  }

  // Phone numbers

  predicate LineShape(t: Text, k: nat) {
    Numerals(t, k, 3) && SeparatorAt(t, k + 3) && Numerals(t, k + 4, 4) && FencedAt(t, k + 8)
  }

  lemma LineEnds(t: Text, k: nat)
    ensures Ends(PhoneLine(), t, k) == if LineShape(t, k) then [k + 8] else []
  {
    hide Ends, Digits, LastDigits, Numerals, FencedAt;
    PhoneLineIs();
    DigitsThen(3, Cat(One(SEPARATOR), LastDigits(4)), t, k);
    SeparatorThen(t, k + 3, LastDigits(4));
    LastDigitsEnd(4, t, k + 4);
  }

  lemma PhoneLineIs()
    ensures PhoneLine() == Cat(Digits(3), Cat(One(SEPARATOR), LastDigits(4)))
  {
    hide Digits;
  }

  function AfterArea(): Re {
    Cat(Optional(Char(')')), Cat(One(SEPARATOR), PhoneLine()))
  }

  function PastClosing(t: Text, k: nat): nat {
    if IsChar(t, k, ')') then k + 1 else k
  }

  lemma AfterAreaEnds(t: Text, k: nat)
    ensures var past := PastClosing(t, k);
            Ends(AfterArea(), t, k) == if SeparatorAt(t, past) && LineShape(t, past + 1) then [past + 9] else []
  {
    hide Ends, PhoneLine, LineShape, Optional;
    var rest := Cat(One(SEPARATOR), PhoneLine());
    var past := PastClosing(t, k);
    SeparatorThen(t, k, PhoneLine());
    SeparatorThen(t, past, PhoneLine());
    LineEnds(t, past + 1);
    OptionalCharThen(')', t, k, rest);
  }

  function Number(): Re {
    Cat(Optional(Char('(')), Cat(Digits(3), AfterArea()))
  }

  function PastOpening(t: Text, k: nat): nat {
    if IsChar(t, k, '(') then k + 1 else k
  }

  predicate NumberShape(t: Text, k: nat) {
    var area := PastOpening(t, k);
    var past := PastClosing(t, area + 3);
    Numerals(t, area, 3) && SeparatorAt(t, past) && LineShape(t, past + 1)
  }

  function NumberEnd(t: Text, k: nat): nat {
    PastClosing(t, PastOpening(t, k) + 3) + 9
  }

  lemma NumberEnds(t: Text, k: nat)
    ensures Ends(Number(), t, k) == if NumberShape(t, k) then [NumberEnd(t, k)] else []
    ensures IsChar(t, k, '+') || SeparatorAt(t, k) ==> Ends(Number(), t, k) == []
  {
    hide Ends, AfterArea, Digits, Optional, Numerals, LineShape;
    var area := PastOpening(t, k);
    if Numerals(t, k, 3) { NumeralFirst(t, k, 3); }
    SeparatorIsNoNumeral(t, k);
    DigitsThen(3, AfterArea(), t, k);
    DigitsThen(3, AfterArea(), t, area);
    AfterAreaEnds(t, area + 3);
    OptionalCharThen('(', t, k, Cat(Digits(3), AfterArea()));
  }

  function PastCode(t: Text, i: nat): nat {
    if TextAt(t, i, "+1") then PastSeparator(t, i + 2) else i
  }

  lemma CodeThen(t: Text, i: nat)
    ensures Ends(Cat(Optional(CountryCode()), Number()), t, i) == Ends(Number(), t, PastCode(t, i))
  {
    hide Ends, Number, Optional, Literal, TextAt;
    OptionalThen(CountryCode(), Number(), t, i);
    CatAssociates(Literal("+1"), Optional(One(SEPARATOR)), Number(), t, i);
    LiteralThen("+1", Cat(Optional(One(SEPARATOR)), Number()), t, i);
    NumberEnds(t, i);
    NumberEnds(t, i + 2);
    OptionalSeparatorThen(t, i + 2, Number());
    if TextAt(t, i, "+1") { TextFirst(t, i, "+1"); }
  }

  lemma TextFirst(t: Text, i: nat, s: string)
    requires s != "" && TextAt(t, i, s)
    ensures IsChar(t, i, s[0])
  {}

  lemma PhoneIs()
    ensures Phone() == Cat(NotBehind(DIGIT_OR_DASH), Cat(Optional(CountryCode()), Number()))
  {
    hide Digits, CountryCode, PhoneLine;
  }

  lemma PhoneShapeIs(t: Text, i: nat, e: nat)
    ensures PhoneShape(t, i, e) <==>
            FencedAt(t, i - 1) && NumberShape(t, PastCode(t, i)) && e == NumberEnd(t, PastCode(t, i))
  {
    hide Numerals, TextAt, FencedAt;
  }

  /** The pattern finds at most one match at a position, and finds it exactly where the shape is. */
  lemma PhoneMatches(t: Text, i: nat)
    requires i <= |t|
    ensures var end := NumberEnd(t, PastCode(t, i));
            Ends(Phone(), t, i) == if PhoneShape(t, i, end) then [end] else []
  {
    hide Ends, Phone, Number, NumberShape, NumberEnd, PastCode, PhoneShape;
    PhoneIs();
    FenceBehind(t, i, Cat(Optional(CountryCode()), Number()));
    CodeThen(t, i);
    NumberEnds(t, PastCode(t, i));
    PhoneShapeIs(t, i, NumberEnd(t, PastCode(t, i)));
  }

  // Cards

  lemma FinalDigitEnds(t: Text, k: nat)
    ensures Ends(FinalDigit(), t, k) == if NumeralAt(t, k) && FencedAt(t, k + 1) then [k + 1] else []
  {
    hide Ends, NumeralAt, FencedAt;
    DigitAt(t, k, NotAhead(One(DIGIT_OR_DASH)));
    FenceAhead(t, k + 1);
  }

  lemma GroupThen(t: Text, k: nat, re: Re)
    requires SeparatorAt(t, k + 1) ==> Ends(re, t, k + 1) == []
    ensures Ends(Cat(CardGroup(), re), t, k) ==
              if NumeralAt(t, k) then Ends(re, t, PastSeparator(t, k + 1)) else []
  {
    hide Ends, NumeralAt, Optional;
    CatAssociates(One(DIGIT), Optional(One(SEPARATOR)), re, t, k);
    DigitAt(t, k, Cat(Optional(One(SEPARATOR)), re));
    OptionalSeparatorThen(t, k + 1, re);
  }

  function Cards(lo: nat, hi: nat): Re {
    Cat(Repeat(CardGroup(), lo, hi), FinalDigit())
  }

  /** More than `lo` and at most `hi + 1` digits up to `e`, and nothing like a digit there. */
  predicate CardRun(t: Text, k: nat, lo: nat, hi: nat, e: nat) {
    FencedAt(t, e) && exists n: nat | lo < n <= hi + 1 :: SpacedNumerals(t, k, n, e)
  }

  lemma {:induction false} SpacedGoesOn(t: Text, k: nat, n: nat, e: nat)
    requires SpacedNumerals(t, k, n, e)
    ensures k < e && NumeralAt(t, k)
    decreases n
  {
    if n > 1 {
      SpacedGoesOn(t, PastSeparator(t, k + 1), n - 1, e);
    }
  }

  lemma CardRunStep(t: Text, k: nat, lo: nat, hi: nat, e: nat)
    requires lo <= hi && hi > 0
    ensures CardRun(t, k, lo, hi, e) <==>
            || (NumeralAt(t, k) && CardRun(t, PastSeparator(t, k + 1), if lo > 0 then lo - 1 else 0, hi - 1, e))
            || (lo == 0 && NumeralAt(t, k) && e == k + 1 && FencedAt(t, e))
  {
    hide FencedAt, NumeralAt;
    var next, less: nat := PastSeparator(t, k + 1), if lo > 0 then lo - 1 else 0;
    if CardRun(t, k, lo, hi, e) {
      var n: nat :| lo < n <= hi + 1 && SpacedNumerals(t, k, n, e);
      if n > 1 {
        assert SpacedNumerals(t, next, n - 1, e);
      }
    }
    if NumeralAt(t, k) && CardRun(t, next, less, hi - 1, e) {
      var n: nat :| less < n <= hi && SpacedNumerals(t, next, n, e);
      assert SpacedNumerals(t, k, n + 1, e);
    }
    if lo == 0 && NumeralAt(t, k) && e == k + 1 && FencedAt(t, e) {
      assert SpacedNumerals(t, k, 1, e);
    }
  }

  lemma CardRunOne(t: Text, k: nat, e: nat)
    ensures CardRun(t, k, 0, 0, e) <==> NumeralAt(t, k) && e == k + 1 && FencedAt(t, e)
  {
    if NumeralAt(t, k) && e == k + 1 {
      assert SpacedNumerals(t, k, 1, e);
    }
  }

  lemma CardRunGoesOn(t: Text, k: nat, lo: nat, hi: nat, e: nat)
    requires CardRun(t, k, lo, hi, e)
    ensures k < e && NumeralAt(t, k)
  {
    var n: nat :| lo < n <= hi + 1 && SpacedNumerals(t, k, n, e);
    SpacedGoesOn(t, k, n, e);
  }

  lemma CardsUnfold(lo: nat, hi: nat, t: Text, k: nat)
    requires lo <= hi && hi > 0
    requires SeparatorAt(t, k + 1) ==> Ends(Cards(if lo > 0 then lo - 1 else 0, hi - 1), t, k + 1) == []
    ensures var more := Ends(Cards(if lo > 0 then lo - 1 else 0, hi - 1), t, PastSeparator(t, k + 1));
            Ends(Cards(lo, hi), t, k) ==
              (if NumeralAt(t, k) then more else [])
              + if lo == 0 && NumeralAt(t, k) && FencedAt(t, k + 1) then [k + 1] else []
  {
    hide Ends, CardGroup, FinalDigit, NumeralAt, FencedAt;
    var fewer := Repeat(CardGroup(), if lo > 0 then lo - 1 else 0, hi - 1);
    CatAssociates(CardGroup(), fewer, FinalDigit(), t, k);
    GroupThen(t, k, Cat(fewer, FinalDigit()));
    AltThen(Cat(CardGroup(), fewer), Empty, FinalDigit(), t, k);
    EmptyThen(FinalDigit(), t, k);
    FinalDigitEnds(t, k);
  }

  /** Greedy groups find the longest run of digits first, then the shorter ones. */
  lemma {:induction false} CardsEnds(lo: nat, hi: nat, t: Text, k: nat)
    requires lo <= hi
    ensures Descending(Ends(Cards(lo, hi), t, k))
    ensures forall e: nat :: e in Ends(Cards(lo, hi), t, k) <==> CardRun(t, k, lo, hi, e)
    decreases hi
  {
    hide Ends, Cards, NumeralAt, FencedAt, CardRun;
    var es := Ends(Cards(lo, hi), t, k);
    if hi == 0 {
      CardsOne(t, k);
    } else {
      var less: nat, next := if lo > 0 then lo - 1 else 0, PastSeparator(t, k + 1);
      CardsEnds(less, hi - 1, t, k + 1);
      CardsEnds(less, hi - 1, t, next);
      NoCardAtSeparator(less, hi - 1, t, k + 1);
      CardsUnfold(lo, hi, t, k);
      var more := Ends(Cards(less, hi - 1), t, next);
      forall e: nat ensures e in es <==> CardRun(t, k, lo, hi, e) { CardRunStep(t, k, lo, hi, e); }
      if lo == 0 && NumeralAt(t, k) && FencedAt(t, k + 1) {
        forall e <- more ensures k + 1 < e { CardRunGoesOn(t, next, less, hi - 1, e); }
        DescendingPlus(more, k + 1);
      } else {
        assert more + [] == more;
        assert es == if NumeralAt(t, k) then more else [];
      }
    }
  }

  lemma CardsOne(t: Text, k: nat)
    ensures Descending(Ends(Cards(0, 0), t, k))
    ensures forall e: nat :: e in Ends(Cards(0, 0), t, k) <==> CardRun(t, k, 0, 0, e)
  {
    hide Ends, FinalDigit, NumeralAt, FencedAt, CardRun;
    EmptyThen(FinalDigit(), t, k);
    FinalDigitEnds(t, k);
    assert [k + 1][1..] == [];
    forall e: nat ensures e in Ends(Cards(0, 0), t, k) <==> CardRun(t, k, 0, 0, e) { CardRunOne(t, k, e); }
  }

  lemma NoCardAtSeparator(lo: nat, hi: nat, t: Text, k: nat)
    requires forall e: nat :: e in Ends(Cards(lo, hi), t, k) <==> CardRun(t, k, lo, hi, e)
    ensures SeparatorAt(t, k) ==> Ends(Cards(lo, hi), t, k) == []
  {
    hide Ends, CardRun;
    SeparatorIsNoNumeral(t, k);
    var es := Ends(Cards(lo, hi), t, k);
    if SeparatorAt(t, k) && es != [] {
      CardRunGoesOn(t, k, lo, hi, es[0]);
    }
  }

  /** The pattern finds the shape wherever it is, the longest one first. */
  lemma CardMatches(t: Text, i: nat)
    requires i <= |t|
    ensures Descending(Ends(CreditCardPattern(), t, i))
    ensures forall e: nat :: e in Ends(CreditCardPattern(), t, i) <==> CardShape(t, i, e)
  {
    hide Ends, Cards, FencedAt;
    assert CreditCardPattern() == Cat(NotBehind(DIGIT_OR_DASH), Cards(12, 18)) by { CreditCardIs(); }
    FenceBehind(t, i, Cards(12, 18));
    CardsEnds(12, 18, t, i);
  }

  lemma CreditCardIs()
    ensures CreditCardPattern() == Cat(NotBehind(DIGIT_OR_DASH), Cards(12, 18))
  {
    hide Repeat;
  }
}
