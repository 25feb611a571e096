/** The start-up check of the patterns against the tail rules, what it rejects, and why the property it is
    meant to ensure is not enough. */
module AlphabetCheck {
  import opened Symbols
  import opened Regex
  import opened Patterns
  import opened Greedy
  import opened Shapes
  import opened Scanner
  import opened Redaction
  import opened Holdback
  import opened Streaming
  import opened Threshold

  // The check itself reads the texts of the patterns

  /** `_TAIL_ALPHABET`: the ASCII letters and digits and nine marks. */
  predicate InTailAlphabet(c: char) {
    AsciiLetter(c) || AsciiDigit(c) || c in {'@', '.', '_', '%', '+', '-', '(', ')', ' '}
  }

  /** The characters that the check looks at: letters, digits and a few marks. `wide` are the letters and
      digits beyond ASCII. */
  predicate LooksAt(c: char, wide: set<char>) {
    AsciiLetter(c) || AsciiDigit(c) || (c as int >= 128 && c in wide)
    || c in {'@', '.', '_', '%', '+', '-', ' ', '(', ')'}
  }

  /** `assert_holdback_covers_patterns`, for the texts that are left of the patterns when escapes, counts
      and group openings have been taken out. */
  predicate Accepts(texts: seq<string>, wide: set<char>) {
    forall text <- texts, c <- text :: LooksAt(c, wide) ==> InTailAlphabet(c)
  }

  /** The check rejects patterns if and only if one of them contains a letter or digit beyond ASCII: all
      the other characters it looks at are in the alphabet, and those outside it, a slash say, it skips. */
  lemma RejectsOnlyWideCharacters(texts: seq<string>, wide: set<char>)
    ensures Accepts(texts, wide) <==> forall text <- texts, c <- text :: c as int < 128 || c !in wide
  {
    assert forall c: char :: LooksAt(c, wide) ==> InTailAlphabet(c) || (c as int >= 128 && c in wide);
    assert forall c: char :: c as int >= 128 && c in wide ==> LooksAt(c, wide) && !InTailAlphabet(c);
  }

  // What it is meant to ensure

  /** The characters that one tail rule or the other lets in. */
  const ALPHABET := CharClass(true, true, true, {'@', '.', '_', '%', '+', '-', '(', ')', ' '})

  /** No character of a pattern is missing from both tail rules. */
  predicate Covered(re: Re) {
    match re
    case One(cc) => cc.Within(ALPHABET)
    case Cat(a, b) => Covered(a) && Covered(b)
    case Alt(a, b) => Covered(a) && Covered(b)
    case _ => true
  }

  lemma {:induction false} LengthsInOrder(re: Re)
    ensures MinLen(re) <= Extent(re)
  {
    match re
    case Cat(a, b) => LengthsInOrder(a); LengthsInOrder(b);
    case Alt(a, b) => LengthsInOrder(a); LengthsInOrder(b);
    case _ =>
  }

  /** What fits one tail rule is covered. */
  lemma {:induction false} FittingIsCovered(re: Re, head: CharClass, rest: CharClass)
    requires Fits(re, head, rest) && head.Within(ALPHABET) && rest.Within(ALPHABET)
    ensures Covered(re)
  {
    match re
    case Cat(a, b) =>
      FittingIsCovered(a, head, rest);
      LengthsInOrder(a);
      if MinLen(a) == 0 { FittingIsCovered(b, head, rest); } else { FittingIsCovered(b, rest, rest); }
    case Alt(a, b) =>
      FittingIsCovered(a, head, rest);
      FittingIsCovered(b, head, rest);
    case _ =>
  }

  /** What fits the tail rules one by one has no character that both of them lack. */
  lemma {:induction false} FittingRulesPass(rules: RuleSet)
    requires Fitting(rules)
    ensures forall rule <- rules :: Covered(rule.re)
  {
    if rules != [] {
      var tail := RuleFor(rules[0].re);
      FittingIsCovered(rules[0].re, tail.head, tail.rest);
      FittingRulesPass(rules[1..]);
    }
  }

  /** A letter, a blank and a digit: each tail rule lets in a part of it. */
  function Seat(): Re {
    Cat(One(LETTERS), Cat(Char(' '), One(DIGIT)))
  }

  const SEAT := [Rule(PHONE, Seat())]

  lemma SeatEnds(t: Text, i: nat)
    ensures Ends(Seat(), t, i) ==
              if i + 2 < |t| && LETTERS.Has(t[i]) && IsChar(t, i + 1, ' ') && DIGIT.Has(t[i + 2]) then [i + 3] else []
  {
    OneThen(LETTERS, Cat(Char(' '), One(DIGIT)), t, i);
    CharThen(' ', One(DIGIT), t, i + 1);
  }

  function SeatConfig(maxHoldback: nat, context: nat, placeholder: Text): Config {
    Config(SEAT, maxHoldback, context, placeholder)
  }

  function Half(letter: LetterChar): Text {
    [Ascii(letter), Ascii(' ')]
  }

  lemma BlankEndsTail(letter: LetterChar, w: Text, j: nat)
    requires j < |w| && (w == Half(letter) || w == [Ascii(' ')])
    ensures !AnyTail(w, j)
  {
    assert w[|w| - 1] == Ascii(' ');
    if IsTail(TAIL_TOKEN, w, j) {
      ConsistsAt(w, j, |w|, TOKEN, |w| - 1);
    }
  }

  lemma NothingHeld(letter: LetterChar, maxHoldback: nat)
    ensures HoldbackOf(Half(letter), maxHoldback) == 0
  {
    HoldbackIsLongestTail(Half(letter), maxHoldback);
    var hold := HoldbackOf(Half(letter), maxHoldback);
    if hold > 0 {
      BlankEndsTail(letter, Half(letter), 2 - hold);
    }
  }

  lemma NoSeatYet(letter: LetterChar, i: nat)
    requires i < 2
    ensures Found(SEAT, Half(letter), i) == None
  {
    SeatEnds(Half(letter), i);
    assert SEAT[0].re == Seat() && SEAT[1..] == [] && MatchAt(SEAT[1..], Half(letter), i) == None;
  }

  lemma HalfIsSent(cfg: Config, letter: LetterChar)
    requires cfg.rules == SEAT
    ensures Feed(cfg, FRESH, Half(letter)).1 == Some(Half(letter))
  {
    var t := Half(letter);
    var ds := Decide(SEAT, t);
    forall i | 0 <= i < 2 ensures ds[i] == None {
      NoSeatYet(letter, i);
      DecidesFound(SEAT, t, 2, i);
    }
    hide Found, DecideUpTo;
    NothingToScan(ds, 0);
    NothingHeld(letter, cfg.maxHoldback);
    assert [] + t == t && t[0..2] == t;
  }

  lemma SeatIsRedacted(letter: LetterChar, placeholder: Text)
    ensures RedactComplete(SEAT, Half(letter) + [Ascii('1')], placeholder) == placeholder
  {
    var t := Half(letter) + [Ascii('1')];
    var ds := Decide(SEAT, t);
    DecidesFound(SEAT, t, 3, 0);
    SeatEnds(t, 0);
    var ms := Scan(ds, 0);
    assert Scan(ds, 3) == [] && ms == [Match(PHONE, 0, 3)] && ms[1..] == [];
    ScanInOrder(ds, 0);
    assert Redacted(t, 3, 3, [], placeholder) == t[3..3] == [];
    assert t[0..0] + placeholder + [] == placeholder;
  }

  /** A pattern all of whose characters are let in by one tail rule or the other and which yet, under any
      cap, reaches the client when it arrives in two chunks: a run is held by one rule, not by both. */
  lemma CheckIsNotEnough(maxHoldback: nat, context: nat, placeholder: Text) returns (chunks: seq<Text>)
    ensures Covered(Seat())
    ensures Streamed(SeatConfig(maxHoldback, context, placeholder), chunks).1
         != RedactComplete(SEAT, Concat(chunks), placeholder)
  {
    var cfg, letter := SeatConfig(maxHoldback, context, placeholder), Avoiding(placeholder);
    HalfIsSent(cfg, letter);
    SeatIsRedacted(letter, placeholder);
    chunks := [Half(letter), [Ascii('1')]];
    StreamedTwice(cfg, chunks[0], chunks[1]);
    hide Streamed, RedactComplete, Feed, Concat;
  }
}
