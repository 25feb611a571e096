/** The five patterns of the redactor and the two rules for a trailing run of text that may still
    grow into a match. */
module Patterns {
  import opened Symbols
  import opened Regex

  datatype Label = EMAIL | API_KEY | CREDIT_CARD | SSN | PHONE

  datatype Rule = Rule(name: Label, re: Re)

  /** Rules in order of preference; none of them matches the empty string. */
  type RuleSet = rs: seq<Rule> | NeverEmpty(rs) witness []

  predicate NeverEmpty(rs: seq<Rule>) {
    rs == [] || (MinLen(rs[0].re) > 0 && NeverEmpty(rs[1..]))
  }

  // Character classes

  const LETTERS := CharClass(true, false, false, {})
  const ALPHANUMERICS := CharClass(true, true, false, {})
  const LOCAL_PART := CharClass(true, true, false, {'.', '_', '%', '+', '-'})
  const DOMAIN := CharClass(true, true, false, {'.', '-'})
  const DIGIT := CharClass(false, false, true, {})
  const SEPARATOR := CharClass(false, false, false, {' ', '-'})
  const DASH := CharClass(false, false, false, {'-'})
  const DIGIT_OR_DASH := CharClass(false, false, true, {'-'})

  // Pattern syntax

  function Char(c: char): Re {
    One(CharClass(false, false, false, {c}))
  }

  function Literal(s: string): Re {
    if s == "" then Empty else Cat(Char(s[0]), Literal(s[1..]))
  }

  function Words(words: seq<string>): Re
    requires words != []
  {
    if |words| == 1 then Literal(words[0]) else Alt(Literal(words[0]), Words(words[1..]))
  }

  function Optional(re: Re): Re {
    Alt(re, Empty)
  }

  function Digits(n: nat): Re {
    Repeat(One(DIGIT), n, n)
  }

  function Host(domain: nat, tld: nat): Re {
    Cat(Repeat(One(DOMAIN), 1, domain),
        Cat(Char('.'), Repeat(One(LETTERS), 2, tld)))
  }

  function Email(local: nat, domain: nat, tld: nat): Re {
    Cat(Repeat(One(LOCAL_PART), 1, local),
        Cat(Char('@'), Host(domain, tld)))
  }

  const KEY_PREFIXES := ["sk", "pk", "rk"]
  const KEY_KINDS := ["live", "test", "proj", "ant"]

  function CardGroup(): Re {
    Cat(One(DIGIT), Optional(One(SEPARATOR)))
  }

  function ApiKey(prefixes: seq<string>, kinds: seq<string>, least: nat, most: nat): Re
    requires prefixes != [] && kinds != []
  {
    Cat(Boundary,
        Cat(Words(prefixes),
            Cat(Char('-'),
                Cat(Optional(Words(kinds)),
                    Cat(Optional(Char('-')),
                        Cat(Repeat(One(ALPHANUMERICS), least, most), Boundary))))))
  }

  /** A digit with nothing like a digit after it. */
  function FinalDigit(): Re {
    Cat(One(DIGIT), NotAhead(One(DIGIT_OR_DASH)))
  }

  function CreditCard(least: nat, most: nat): Re {
    Cat(NotBehind(DIGIT_OR_DASH),
        Cat(Repeat(CardGroup(), least, most), FinalDigit()))
  }

  function SsnSerial(): Re {
    Cat(Digits(2),
        Cat(Optional(One(SEPARATOR)),
            Cat(NotAhead(Literal("0000")),
                Cat(Digits(4), NotAhead(One(DIGIT_OR_DASH))))))
  }

  /** Areas that are never issued. */
  function SsnArea(): Re {
    Alt(Literal("000"), Alt(Literal("666"), Cat(Char('9'), Digits(2))))
  }

  function Ssn(): Re {
    Cat(NotBehind(DIGIT_OR_DASH),
        Cat(NotAhead(SsnArea()),
            Cat(Digits(3),
                Cat(Optional(One(SEPARATOR)),
                    Cat(NotAhead(Literal("00")), SsnSerial())))))
  }

  function PhoneLine(): Re {
    Cat(Digits(3),
        Cat(One(SEPARATOR),
            Cat(Digits(4), NotAhead(One(DIGIT_OR_DASH)))))
  }

  function CountryCode(): Re {
    Cat(Literal("+1"), Optional(One(SEPARATOR)))
  }

  function Phone(): Re {
    Cat(NotBehind(DIGIT_OR_DASH),
        Cat(Optional(CountryCode()),
            Cat(Optional(Char('(')),
                Cat(Digits(3),
                    Cat(Optional(Char(')')),
                        Cat(One(SEPARATOR), PhoneLine()))))))
  }

  /** A run of characters up to the end of the text: one of `head`, then any number of `rest`. */
  datatype TailRule = TailRule(head: CharClass, rest: CharClass)

  const TOKEN := CharClass(true, true, false, {'@', '.', '_', '%', '+', '-'})
  const TAIL_TOKEN := TailRule(TOKEN, TOKEN)
  const TAIL_DIGITS := TailRule(
                         CharClass(false, false, true, {'+', '('}),
                         CharClass(false, false, true, {' ', '(', ')', '-'}))

  /** The whole of one pattern is covered by one and the same tail rule. */
  predicate FitsTail(re: Re, rule: TailRule) {
    Fits(re, rule.head, rule.rest)
  }

  /** Every pattern is covered by one of the two tail rules. */
  predicate Fitting(rs: RuleSet) {
    rs == [] || ((FitsTail(rs[0].re, TAIL_TOKEN) || FitsTail(rs[0].re, TAIL_DIGITS)) && Fitting(rs[1..]))
  }

  /** No pattern matches, or looks at, more than `length` characters. */
  predicate Longest(rs: RuleSet, length: nat) {
    rs == [] || (Extent(rs[0].re) <= length && Longest(rs[1..], length))
  }

  lemma Distribute(n: int, len: int)
    ensures n * len == (n - 1) * len + len
  {}

  lemma {:induction false} RepeatLengths(re: Re, lo: nat, hi: nat)
    requires lo <= hi
    ensures MinLen(Repeat(re, lo, hi)) == lo * MinLen(re)
    ensures Extent(Repeat(re, lo, hi)) == hi * Extent(re)
    decreases hi
  {
    if hi > 0 {
      RepeatLengths(re, if lo > 0 then lo - 1 else 0, hi - 1);
      Distribute(lo, MinLen(re));
      Distribute(hi, Extent(re));
    }
  }

  lemma {:induction false} RepeatFits(re: Re, lo: nat, hi: nat, head: CharClass, rest: CharClass)
    requires Fits(re, head, rest) && Fits(re, rest, rest)
    ensures Fits(Repeat(re, lo, hi), head, rest)
    decreases hi
  {
    if hi > 0 {
      RepeatFits(re, if lo > 0 then lo - 1 else 0, hi - 1, head, rest);
      RepeatFits(re, if lo > 0 then lo - 1 else 0, hi - 1, rest, rest);
    }
  }

  lemma RepeatFacts(re: Re, lo: nat, hi: nat, rule: TailRule)
    requires lo <= hi
    requires Fits(re, rule.head, rule.rest) && Fits(re, rule.rest, rule.rest)
    ensures MinLen(Repeat(re, lo, hi)) == lo * MinLen(re)
    ensures Extent(Repeat(re, lo, hi)) == hi * Extent(re)
    ensures Fits(Repeat(re, lo, hi), rule.head, rule.rest) && Fits(Repeat(re, lo, hi), rule.rest, rule.rest)
  {
    RepeatLengths(re, lo, hi);
    RepeatFits(re, lo, hi, rule.head, rule.rest);
    RepeatFits(re, lo, hi, rule.rest, rule.rest);
  }

  lemma CatFacts(a: Re, b: Re, rule: TailRule)
    requires FitsTail(a, rule)
    requires MinLen(a) == 0 ==> FitsTail(b, rule)
    requires Extent(a) > 0 ==> Fits(b, rule.rest, rule.rest)
    ensures MinLen(Cat(a, b)) == MinLen(a) + MinLen(b)
    ensures Extent(Cat(a, b)) == Extent(a) + Extent(b)
    ensures FitsTail(Cat(a, b), rule)
  {}

  lemma OneFacts(cc: CharClass, least: nat, most: nat)
    requires cc.Within(TOKEN) && least <= most
    ensures var re := Repeat(One(cc), least, most);
            MinLen(re) == least && Extent(re) == most && FitsTail(re, TAIL_TOKEN)
  {
    RepeatFacts(One(cc), least, most, TAIL_TOKEN);
    assert least * 1 == least && most * 1 == most;
  }

  lemma HostFacts(domain: nat, tld: nat)
    requires domain > 0 && tld > 1
    ensures MinLen(Host(domain, tld)) == 4 && Extent(Host(domain, tld)) == domain + tld + 1
    ensures FitsTail(Host(domain, tld), TAIL_TOKEN)
  {
    OneFacts(DOMAIN, 1, domain);
    OneFacts(LETTERS, 2, tld);
    hide Repeat;
    var t := Cat(Char('.'), Repeat(One(LETTERS), 2, tld));
    CatFacts(Char('.'), Repeat(One(LETTERS), 2, tld), TAIL_TOKEN);
    CatFacts(Repeat(One(DOMAIN), 1, domain), t, TAIL_TOKEN);
  }

  lemma EmailFacts(local: nat, domain: nat, tld: nat)
    requires local > 0 && domain > 0 && tld > 1
    ensures MinLen(Email(local, domain, tld)) == 6
    ensures Extent(Email(local, domain, tld)) == local + domain + tld + 2
    ensures FitsTail(Email(local, domain, tld), TAIL_TOKEN)
  {
    OneFacts(LOCAL_PART, 1, local);
    HostFacts(domain, tld);
    hide Repeat, Host;
    CatFacts(Char('@'), Host(domain, tld), TAIL_TOKEN);
    CatFacts(Repeat(One(LOCAL_PART), 1, local), Cat(Char('@'), Host(domain, tld)), TAIL_TOKEN);
  }

  lemma KeyParts(prefix: Re, dash: Re, kind: Re, dash': Re, key: Re, rule: TailRule)
    requires rule.head == rule.rest
    requires FitsTail(prefix, rule) && FitsTail(dash, rule) && FitsTail(kind, rule)
    requires FitsTail(dash', rule) && FitsTail(key, rule)
    ensures var re := Cat(Boundary, Cat(prefix, Cat(dash, Cat(Optional(kind), Cat(dash', Cat(key, Boundary))))));
            && FitsTail(re, rule)
            && Extent(re) == 2 + Extent(prefix) + Extent(dash) + Extent(kind) + Extent(dash') + Extent(key)
  {
    var kinds := Optional(kind);
    assert Extent(kinds) == Extent(kind) && FitsTail(kinds, rule);
    CatFacts(key, Boundary, rule);
    CatFacts(dash', Cat(key, Boundary), rule);
    CatFacts(kinds, Cat(dash', Cat(key, Boundary)), rule);
    CatFacts(dash, Cat(kinds, Cat(dash', Cat(key, Boundary))), rule);
    CatFacts(prefix, Cat(dash, Cat(kinds, Cat(dash', Cat(key, Boundary)))), rule);
  }

  predicate Letters(s: string) {
    s == "" || (AsciiLetter(s[0]) && Letters(s[1..]))
  }

  predicate LetterWords(words: seq<string>, longest: nat) {
    words == [] || (|words[0]| <= longest && Letters(words[0]) && LetterWords(words[1..], longest))
  }

  lemma {:induction false} LiteralFacts(s: string)
    requires Letters(s)
    ensures MinLen(Literal(s)) == Extent(Literal(s)) == |s|
    ensures FitsTail(Literal(s), TAIL_TOKEN)
  {
    if s != "" {
      LiteralFacts(s[1..]);
    }
  }

  lemma {:induction false} WordsFacts(words: seq<string>, longest: nat)
    requires words != [] && LetterWords(words, longest)
    ensures Extent(Words(words)) <= longest && FitsTail(Words(words), TAIL_TOKEN)
  {
    LiteralFacts(words[0]);
    if |words| > 1 {
      WordsFacts(words[1..], longest);
    }
  }

  lemma KeyBodyFacts(least: nat, most: nat)
    requires 0 < least <= most
    ensures var key := Repeat(One(ALPHANUMERICS), least, most);
            FitsTail(key, TAIL_TOKEN) && Extent(key) == most
    ensures FitsTail(Optional(Char('-')), TAIL_TOKEN) && Extent(Optional(Char('-'))) == 1
  {
    OneFacts(ALPHANUMERICS, least, most);
  }

  lemma ApiKeyFacts(prefixes: seq<string>, kinds: seq<string>, least: nat, most: nat)
    requires 0 < least <= most && prefixes != [] && kinds != []
    requires LetterWords(prefixes, 2) && LetterWords(kinds, 4)
    ensures Extent(ApiKey(prefixes, kinds, least, most)) <= 10 + most
    ensures FitsTail(ApiKey(prefixes, kinds, least, most), TAIL_TOKEN)
  {
    WordsFacts(prefixes, 2);
    WordsFacts(kinds, 4);
    KeyBodyFacts(least, most);
    KeyParts(Words(prefixes), Char('-'), Words(kinds), Optional(Char('-')),
             Repeat(One(ALPHANUMERICS), least, most), TAIL_TOKEN);
  }

  lemma ApiKeyNonempty(prefixes: seq<string>, kinds: seq<string>, least: nat, most: nat)
    requires prefixes != [] && kinds != []
    ensures MinLen(ApiKey(prefixes, kinds, least, most)) > 0
  {
    assert MinLen(Cat(Char('-'), Cat(Optional(Words(kinds)),
                                     Cat(Optional(Char('-')),
                                         Cat(Repeat(One(ALPHANUMERICS), least, most), Boundary))))) > 0;
  }

  lemma CardParts(behind: Re, groups: Re, last: Re, rule: TailRule)
    requires behind.NotBehind? && MinLen(groups) > 0
    requires FitsTail(groups, rule) && Fits(last, rule.rest, rule.rest)
    ensures var re := Cat(behind, Cat(groups, last));
            MinLen(re) > 0 && Extent(re) == Extent(groups) + Extent(last) && FitsTail(re, rule)
  {
    CatFacts(groups, last, rule);
    CatFacts(behind, Cat(groups, last), rule);
  }

  lemma CardGroupFacts()
    ensures MinLen(CardGroup()) == 1 && Extent(CardGroup()) == 2
    ensures FitsTail(CardGroup(), TAIL_DIGITS) && Fits(CardGroup(), TAIL_DIGITS.rest, TAIL_DIGITS.rest)
  {}

  lemma CreditCardFacts(least: nat, most: nat)
    requires 0 < least <= most
    ensures MinLen(CreditCard(least, most)) > 0
    ensures Extent(CreditCard(least, most)) == 2 * most + 2
    ensures FitsTail(CreditCard(least, most), TAIL_DIGITS)
  {
    CardGroupFacts();
    RepeatFacts(CardGroup(), least, most, TAIL_DIGITS);
    CardParts(NotBehind(DIGIT_OR_DASH), Repeat(CardGroup(), least, most), FinalDigit(), TAIL_DIGITS);
  }

  lemma DigitsFacts(n: nat)
    ensures MinLen(Digits(n)) == Extent(Digits(n)) == n
    ensures Fits(Digits(n), TAIL_DIGITS.head, TAIL_DIGITS.rest) && Fits(Digits(n), TAIL_DIGITS.rest, TAIL_DIGITS.rest)
  {
    RepeatFacts(One(DIGIT), n, n, TAIL_DIGITS);
    hide Repeat, Fits;
    assert MinLen(One(DIGIT)) == Extent(One(DIGIT)) == 1;
    assert n * 1 == n;
  }

  /** What follows the first digit of a number: it fits the rest of the number tail. */
  predicate Follows(re: Re) {
    Fits(re, TAIL_DIGITS.rest, TAIL_DIGITS.rest)
  }

  lemma CatFollows(a: Re, b: Re)
    requires Follows(a) && Follows(b)
    ensures Follows(Cat(a, b))
    ensures MinLen(Cat(a, b)) == MinLen(a) + MinLen(b) && Extent(Cat(a, b)) == Extent(a) + Extent(b)
  {}

  lemma SeparatorFacts()
    ensures Follows(One(SEPARATOR)) && MinLen(One(SEPARATOR)) == Extent(One(SEPARATOR)) == 1
    ensures Follows(Optional(One(SEPARATOR)))
    ensures MinLen(Optional(One(SEPARATOR))) == 0 && Extent(Optional(One(SEPARATOR))) == 1
    ensures Follows(NotAhead(One(DIGIT_OR_DASH)))
    ensures MinLen(NotAhead(One(DIGIT_OR_DASH))) == 0 && Extent(NotAhead(One(DIGIT_OR_DASH))) == 1
  {}

  predicate AllDigits(s: string) {
    s == "" || (AsciiDigit(s[0]) && AllDigits(s[1..]))
  }

  lemma {:induction false} DigitsOfLiteral(s: string)
    requires AllDigits(s)
    ensures MinLen(Literal(s)) == Extent(Literal(s)) == |s|
    ensures FitsTail(Literal(s), TAIL_DIGITS) && Follows(Literal(s))
  {
    if s != "" {
      DigitsOfLiteral(s[1..]);
    }
  }

  lemma NeverIssued(s: string)
    requires AllDigits(s)
    ensures Follows(NotAhead(Literal(s))) && MinLen(NotAhead(Literal(s))) == 0 && Extent(NotAhead(Literal(s))) == |s|
  {
    DigitsOfLiteral(s);
  }

  lemma SsnSerialFacts()
    ensures MinLen(SsnSerial()) == 6 && Extent(SsnSerial()) == 12 && Follows(SsnSerial())
  {
    hide Digits, Optional, Literal, Follows, Fits, MinLen, Extent;
    DigitsFacts(2);
    DigitsFacts(4);
    SeparatorFacts();
    NeverIssued("0000");
    var last := Cat(Digits(4), NotAhead(One(DIGIT_OR_DASH)));
    var serial := Cat(NotAhead(Literal("0000")), last);
    CatFollows(Digits(4), NotAhead(One(DIGIT_OR_DASH)));
    CatFollows(NotAhead(Literal("0000")), last);
    CatFollows(Optional(One(SEPARATOR)), serial);
    CatFollows(Digits(2), Cat(Optional(One(SEPARATOR)), serial));
  }

  lemma SsnAreaFacts()
    ensures Extent(SsnArea()) == 3 && FitsTail(SsnArea(), TAIL_DIGITS)
  {
    hide Digits, Literal;
    DigitsFacts(2);
    DigitsOfLiteral("000");
    DigitsOfLiteral("666");
    CatFacts(Char('9'), Digits(2), TAIL_DIGITS);
  }

  lemma SsnFacts()
    ensures MinLen(Ssn()) == 9 && Extent(Ssn()) == 21 && FitsTail(Ssn(), TAIL_DIGITS)
  {
    hide Digits, Optional, Literal, SsnArea, SsnSerial;
    DigitsFacts(3);
    SsnAreaFacts();
    SsnSerialFacts();
    SeparatorFacts();
    NeverIssued("00");
    var serial := Cat(NotAhead(Literal("00")), SsnSerial());
    var tail := Cat(Optional(One(SEPARATOR)), serial);
    CatFollows(NotAhead(Literal("00")), SsnSerial());
    CatFollows(Optional(One(SEPARATOR)), serial);
    CatFollows(Digits(3), tail);
    FencedFacts(NotAhead(SsnArea()), Digits(3), tail);
  }

  /** Digits after a look ahead, fenced on the left. */
  lemma FencedFacts(ahead: Re, digits: Re, tail: Re)
    requires FitsTail(ahead, TAIL_DIGITS) && MinLen(ahead) == 0
    requires FitsTail(digits, TAIL_DIGITS) && MinLen(digits) > 0 && Follows(Cat(digits, tail)) && Follows(tail)
    ensures var re := Cat(NotBehind(DIGIT_OR_DASH), Cat(ahead, Cat(digits, tail)));
            && MinLen(re) == MinLen(digits) + MinLen(tail)
            && Extent(re) == Extent(ahead) + Extent(digits) + Extent(tail) && FitsTail(re, TAIL_DIGITS)
  {
    CatFacts(digits, tail, TAIL_DIGITS);
    CatFacts(ahead, Cat(digits, tail), TAIL_DIGITS);
    CatFacts(NotBehind(DIGIT_OR_DASH), Cat(ahead, Cat(digits, tail)), TAIL_DIGITS);
  }

  lemma PhoneLineFacts()
    ensures MinLen(PhoneLine()) == 8 && Extent(PhoneLine()) == 9 && Follows(PhoneLine())
  {
    hide Digits, Follows, Fits, MinLen, Extent;
    DigitsFacts(3);
    DigitsFacts(4);
    SeparatorFacts();
    var last := Cat(Digits(4), NotAhead(One(DIGIT_OR_DASH)));
    CatFollows(Digits(4), NotAhead(One(DIGIT_OR_DASH)));
    CatFollows(One(SEPARATOR), last);
    CatFollows(Digits(3), Cat(One(SEPARATOR), last));
  }

  lemma PrefixFacts()
    ensures FitsTail(Optional(CountryCode()), TAIL_DIGITS)
    ensures MinLen(Optional(CountryCode())) == 0 && Extent(Optional(CountryCode())) == 3
    ensures FitsTail(Optional(Char('(')), TAIL_DIGITS) && Follows(Optional(Char('(')))
    ensures MinLen(Optional(Char('('))) == 0 && Extent(Optional(Char('('))) == 1
    ensures Follows(Optional(Char(')'))) && MinLen(Optional(Char(')'))) == 0 && Extent(Optional(Char(')'))) == 1
  {}

  lemma PhoneFacts()
    ensures MinLen(Phone()) == 12 && Extent(Phone()) == 18 && FitsTail(Phone(), TAIL_DIGITS)
  {
    hide Digits, Optional, CountryCode, PhoneLine;
    DigitsFacts(3);
    SeparatorFacts();
    PhoneLineFacts();
    PrefixFacts();
    var line := Cat(One(SEPARATOR), PhoneLine());
    var tail := Cat(Optional(Char(')')), line);
    CatFollows(One(SEPARATOR), PhoneLine());
    CatFollows(Optional(Char(')')), line);
    CatFollows(Digits(3), tail);
    CatFacts(Digits(3), tail, TAIL_DIGITS);
    CatFollows(Optional(Char('(')), Cat(Digits(3), tail));
    CatFacts(Optional(Char('(')), Cat(Digits(3), tail), TAIL_DIGITS);
    FencedPrefix(Optional(CountryCode()), Cat(Optional(Char('(')), Cat(Digits(3), tail)));
  }

  lemma FencedPrefix(prefix: Re, number: Re)
    requires FitsTail(prefix, TAIL_DIGITS) && FitsTail(number, TAIL_DIGITS) && Follows(number)
    ensures var re := Cat(NotBehind(DIGIT_OR_DASH), Cat(prefix, number));
            && MinLen(re) == MinLen(prefix) + MinLen(number) && Extent(re) == Extent(prefix) + Extent(number)
            && FitsTail(re, TAIL_DIGITS)
  {
    CatFacts(prefix, number, TAIL_DIGITS);
    CatFacts(NotBehind(DIGIT_OR_DASH), Cat(prefix, number), TAIL_DIGITS);
  }

  function EmailPattern(): Re { Email(64, 255, 24) }
  function ApiKeyPattern(): Re { ApiKey(KEY_PREFIXES, KEY_KINDS, 16, 64) }
  function CreditCardPattern(): Re { CreditCard(12, 18) }

  predicate Good(re: Re, extent: nat) {
    MinLen(re) > 0 && Extent(re) <= extent && (FitsTail(re, TAIL_TOKEN) || FitsTail(re, TAIL_DIGITS))
  }

  lemma EmailGood()
    ensures Good(EmailPattern(), 345)
  {
    EmailFacts(64, 255, 24);
  }

  lemma KeyWords()
    ensures LetterWords(KEY_PREFIXES, 2) && LetterWords(KEY_KINDS, 4)
  {}

  lemma ApiKeyNeeds(prefixes: seq<string>, kinds: seq<string>, least: nat, most: nat)
    requires prefixes != [] && kinds != []
    ensures Needs(ApiKey(prefixes, kinds, least, most), DASH)
  {
    hide Words;
    var key := ApiKey(prefixes, kinds, least, most);
    assert Needs(key.second.second.first, DASH);
    assert Needs(key.second.second, DASH);
  }

  lemma DigitsNeed(n: nat)
    requires n > 0
    ensures Needs(Digits(n), DIGIT)
  {}

  lemma SsnNeeds()
    ensures Needs(Ssn(), DIGIT)
  {
    hide Digits, SsnArea, SsnSerial;
    DigitsNeed(3);
  }

  lemma PhoneNeeds()
    ensures Needs(Phone(), DIGIT)
  {
    hide Digits, CountryCode, PhoneLine;
    DigitsNeed(3);
  }

  lemma ApiKeyGood()
    ensures Good(ApiKeyPattern(), 74) && Needs(ApiKeyPattern(), DASH)
  {
    hide ApiKey, LetterWords, MinLen, Extent;
    KeyWords();
    ApiKeyNonempty(KEY_PREFIXES, KEY_KINDS, 16, 64);
    ApiKeyFacts(KEY_PREFIXES, KEY_KINDS, 16, 64);
    ApiKeyNeeds(KEY_PREFIXES, KEY_KINDS, 16, 64);
  }

  lemma CreditCardGood()
    ensures Good(CreditCardPattern(), 74) && Needs(CreditCardPattern(), DIGIT)
  {
    CreditCardFacts(12, 18);
  }

  lemma SsnGood()
    ensures Good(Ssn(), 74) && Needs(Ssn(), DIGIT)
  {
    SsnFacts();
    SsnNeeds();
  }

  lemma PhoneGood()
    ensures Good(Phone(), 74) && Needs(Phone(), DIGIT)
  {
    PhoneFacts();
    PhoneNeeds();
  }

  /** A rule that matches something, at most 345 characters of it, and fits one tail rule. */
  type GoodRule = r: Rule | Good(r.re, 345) witness Rule(EMAIL, Char('a'))

  function EmailRule(): GoodRule { hide EmailPattern; EmailGood(); Rule(EMAIL, EmailPattern()) }

  /** Every rule asks for a dash or a digit. */
  predicate AllNeed(rules: RuleSet) {
    rules == [] || ((Needs(rules[0].re, DASH) || Needs(rules[0].re, DIGIT)) && AllNeed(rules[1..]))
  }

  /** A rule for matches of at most 74 characters, with a dash or a digit among them. */
  type ShortRule = r: GoodRule | Extent(r.re) <= 74 && (Needs(r.re, DASH) || Needs(r.re, DIGIT))
    witness Rule(PHONE, One(DIGIT))

  function ApiKeyRule(): ShortRule { hide ApiKeyPattern; ApiKeyGood(); Rule(API_KEY, ApiKeyPattern()) }
  function CreditCardRule(): ShortRule {
    hide CreditCardPattern;
    CreditCardGood();
    Rule(CREDIT_CARD, CreditCardPattern())
  }

  function SsnRule(): ShortRule { hide Ssn; SsnGood(); Rule(SSN, Ssn()) }
  function PhoneRule(): ShortRule { hide Phone; PhoneGood(); Rule(PHONE, Phone()) }

  function OtherPatterns(): seq<ShortRule> {
    [ApiKeyRule(), CreditCardRule(), SsnRule(), PhoneRule()]
  }

  /** Email first and the card before the social security number: order is part of the policy. */
  function GoodPatterns(): seq<GoodRule> {
    [EmailRule()] + OtherPatterns()
  }

  lemma {:induction false} ShortRules(rules: seq<ShortRule>, longest: nat)
    requires longest >= 74
    ensures NeverEmpty(rules) && Longest(rules, longest) && AllNeed(rules)
  {
    if rules != [] {
      ShortRules(rules[1..], longest);
    }
  }

  lemma {:induction false} GoodRules(rules: seq<GoodRule>)
    ensures NeverEmpty(rules) && Fitting(rules) && Longest(rules, 345)
  {
    if rules != [] {
      GoodRules(rules[1..]);
    }
  }

  function AsRules(rules: seq<GoodRule>): (rs: RuleSet)
    ensures Fitting(rs) && Longest(rs, 345)
  {
    GoodRules(rules);
    rules
  }

  function AllPatterns(): RuleSet {
    AsRules(GoodPatterns())
  }

  /** The five patterns fit the tail rules one by one, and none of them matches, or looks at, more
      than 345 characters. */
  lemma PatternsCovered()
    ensures Fitting(AllPatterns()) && Longest(AllPatterns(), 345)
  {}
}
