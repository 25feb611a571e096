/** The smallest cap on the hold-back with which streaming is exact. */
module Threshold {
  import opened Symbols
  import opened Regex
  import opened Patterns
  import opened Greedy
  import opened Shapes
  import opened Scanner
  import opened Redaction
  import opened Holdback
  import opened Streaming
  import opened StreamTheorems

  // An address that goes to the end of the text

  predicate MatchesToEnd(re: Re, t: Text, i: nat) {
    Ends(re, t, i) != [] && Ends(re, t, i)[0] == |t|
  }

  /** `t[a..]` is a host name whose last dot is at `m`. */
  predicate HostTail(domain: nat, tld: nat, t: Text, a: nat, m: nat) {
    && a < m <= a + domain && IsChar(t, m, '.') && m + 3 <= |t| <= m + 1 + tld
    && Consists(t, a, m, DOMAIN, DOMAIN) && Consists(t, m + 1, |t|, LETTERS, LETTERS)
  }

  lemma TldToEnd(tld: nat, t: Text, m: nat)
    requires m + 2 <= |t| <= m + tld && Consists(t, m, |t|, LETTERS, LETTERS)
    ensures MatchesToEnd(Repeat(One(LETTERS), 2, tld), t, m)
  {
    RunEnds(LETTERS, 2, tld, t, m);
    var es := Ends(Repeat(One(LETTERS), 2, tld), t, m);
    assert es[0] in es && |t| in [es[0]] + es[1..];
  }

  lemma HostToEnd(domain: nat, tld: nat, t: Text, a: nat, m: nat)
    requires domain > 0 && tld > 1 && HostTail(domain, tld, t, a, m)
    ensures MatchesToEnd(Host(domain, tld), t, a)
  {
    var rest := Cat(Char('.'), Repeat(One(LETTERS), 2, tld));
    var starts := Ends(Repeat(One(DOMAIN), 1, domain), t, a);
    RunEnds(DOMAIN, 1, domain, t, a);
    TldToEnd(tld, t, m + 1);
    CharThen('.', Repeat(One(LETTERS), 2, tld), t, m);
    forall x <- starts | x > m ensures Ends(rest, t, x) == [] {
      CharThen('.', Repeat(One(LETTERS), 2, tld), t, x);
      if x < |t| {
        ConsistsAt(t, m + 1, |t|, LETTERS, x);
      }
    }
    FirstEnd(rest, t, starts, m);
  }

  lemma EmailToEnd(local: nat, domain: nat, tld: nat, t: Text, i: nat, a: nat, m: nat)
    requires local > 0 && domain > 0 && tld > 1
    requires i < a <= i + local && IsChar(t, a, '@') && Consists(t, i, a, LOCAL_PART, LOCAL_PART)
    requires HostTail(domain, tld, t, a + 1, m)
    ensures MatchesToEnd(Email(local, domain, tld), t, i)
  {
    var starts := Ends(Repeat(One(LOCAL_PART), 1, local), t, i);
    var rest := Cat(Char('@'), Host(domain, tld));
    RunEnds(LOCAL_PART, 1, local, t, i);
    HostToEnd(domain, tld, t, a + 1, m);
    CharThen('@', Host(domain, tld), t, a);
    assert forall x <- starts :: x <= a by {
      forall x <- starts | x > a ensures LOCAL_PART.Has(t[a]) {
        ConsistsAt(t, i, x, LOCAL_PART, a);
      }
    }
    FirstEnd(rest, t, starts, a);
  }

  // A long unfinished address already is an address

  lemma RunTouch(cc: CharClass, lo: nat, hi: nat, t: Text, i: nat)
    requires lo <= hi && i <= |t| && Touches(Repeat(One(cc), lo, hi), t, i)
    ensures |t| - i < hi && Consists(t, i, |t|, cc, cc)
  {
    var rule := TailRule(cc, cc);
    RepeatFacts(One(cc), lo, hi, rule);
    assert hi * 1 == hi;
    TouchConsists(Repeat(One(cc), lo, hi), t, i, cc, cc);
  }

  lemma HostShape(domain: nat, tld: nat, t: Text, a: nat) returns (m: nat)
    requires domain > 0 && tld > 1 && a <= |t| && |t| - a > domain + 2 && Touches(Host(domain, tld), t, a)
    ensures HostTail(domain, tld, t, a, m)
  {
    var run, rest := Repeat(One(DOMAIN), 1, domain), Cat(Char('.'), Repeat(One(LETTERS), 2, tld));
    if Touches(run, t, a) {
      RunTouch(DOMAIN, 1, domain, t, a);
    }
    m :| m in Ends(run, t, a) && Touches(rest, t, m);
    RunEnds(DOMAIN, 1, domain, t, a);
    CharThen('.', Repeat(One(LETTERS), 2, tld), t, m);
    RunTouch(LETTERS, 2, tld, t, m + 1);
  }

  /** With more characters left than an address has whose last part is one letter, an address pattern
      that looks at the end of the text matches up to there. */
  lemma EmailGrows(local: nat, domain: nat, tld: nat, t: Text, i: nat)
    requires local > 0 && domain > 0 && tld > 1
    requires i <= |t| && |t| - i > local + domain + 3 && Touches(Email(local, domain, tld), t, i)
    ensures MatchesToEnd(Email(local, domain, tld), t, i) && LETTERS.Has(t[|t| - 1])
  {
    var run, rest := Repeat(One(LOCAL_PART), 1, local), Cat(Char('@'), Host(domain, tld));
    if Touches(run, t, i) {
      RunTouch(LOCAL_PART, 1, local, t, i);
    }
    var a: nat :| a in Ends(run, t, i) && Touches(rest, t, a);
    RunEnds(LOCAL_PART, 1, local, t, i);
    CharThen('@', Host(domain, tld), t, a);
    var m := HostShape(domain, tld, t, a + 1);
    EmailToEnd(local, domain, tld, t, i, a, m);
    ConsistsAt(t, m + 1, |t|, LETTERS, |t| - 1);
  }

  /** When all the other rules are short, the address rule decides how large the cap has to be. */
  lemma EmailHoldsEnough(rules: RuleSet, local: nat, domain: nat, tld: nat, maxHoldback: nat)
    requires local > 0 && domain > 0 && tld > 1 && maxHoldback >= local + domain + 3
    requires Fitting(rules) && rules != [] && rules[0] == Rule(EMAIL, Email(local, domain, tld))
    requires Longest(rules[1..], maxHoldback + 1)
    ensures HoldsEnough(rules, maxHoldback)
  {
    forall t: Text, i: nat | i < |t| && TouchesAny(rules, t, i) && |t| - i > maxHoldback
      ensures Growing(rules, t, i)
    {
      if Touches(rules[0].re, t, i) {
        EmailGrows(local, domain, tld, t, i);
      } else {
        TouchNotTooFar(rules[1..], t, i, maxHoldback + 1);
      }
    }
  }

  lemma PatternsAre(longest: nat) returns (others: RuleSet)
    requires longest >= 74
    ensures AllPatterns() == [Rule(EMAIL, Email(64, 255, 24))] + others
    ensures Longest(others, longest) && AllNeed(others)
  {
    hide OtherPatterns, Extent, Email;
    ShortRules(OtherPatterns(), longest);
    others := OtherPatterns();
  }

  /** Streaming with the five patterns is exact with any cap from 322 on. */
  lemma PatternsHoldEnough(maxHoldback: nat)
    requires maxHoldback >= 322
    ensures HoldsEnough(AllPatterns(), maxHoldback)
  {
    PatternsCovered();
    var others := PatternsAre(maxHoldback + 1);
    EmailHoldsEnough(AllPatterns(), 64, 255, 24, maxHoldback);
  }

  /** For the five patterns, any cap from 322 on, any retained context and any placeholder, streaming
      refines whole-string redaction. */
  lemma StreamingRedactsPatterns(maxHoldback: nat, context: nat, placeholder: Text, chunks: seq<Text>)
    requires maxHoldback >= 322
    ensures Streamed(Config(AllPatterns(), maxHoldback, context, placeholder), chunks).1
         == RedactComplete(AllPatterns(), Concat(chunks), placeholder)
  {
    PatternsHoldEnough(maxHoldback);
    StreamingIsComplete(Config(AllPatterns(), maxHoldback, context, placeholder), chunks);
  }

  const MAX_HOLDBACK := 400
  const LOOKBEHIND_CONTEXT := 400
  const MAX_BUFFER := 800

  /** With the default sizes at most 744 characters are held, and at most 400 retained. */
  lemma DefaultsFitMaxBuffer(placeholder: Text, chunks: seq<Text>)
    ensures var s := Fed(Config(AllPatterns(), MAX_HOLDBACK, LOOKBEHIND_CONTEXT, placeholder), chunks).0;
            |s.buffer| <= 744 < MAX_BUFFER && |s.leftContext| <= LOOKBEHIND_CONTEXT
  {
    PatternsCovered();
    HeldIsBounded(Config(AllPatterns(), MAX_HOLDBACK, LOOKBEHIND_CONTEXT, placeholder), chunks, 345);
    hide Fed, AllPatterns;
  }

  // A smaller cap is too small

  lemma {:induction false} NothingToFind(rules: RuleSet, t: Text, i: nat)
    requires AllNeed(rules) && i <= |t| && forall k | 0 <= k < |t| :: !DASH.Has(t[k]) && !DIGIT.Has(t[k])
    ensures MatchAt(rules, t, i) == None
  {
    if rules != [] {
      var es := Ends(rules[0].re, t, i);
      if es != [] {
        var k := NeededIsThere(rules[0].re, if Needs(rules[0].re, DASH) then DASH else DIGIT, t, i, es[0]);
        assert false;
      }
      NothingToFind(rules[1..], t, i);
    }
  }

  type LetterChar = c: AsciiChar | AsciiLetter(c) witness 'a'

  /** A letter that the placeholder does not begin with. */
  function Avoiding(placeholder: Text): (c: LetterChar)
    ensures placeholder == [] || placeholder[0] != Ascii(c)
  {
    if placeholder != [] && placeholder[0] == Ascii('a') then 'b' else 'a'
  }

  function Times(c: AsciiChar, n: nat): Text {
    seq(n, _ => Ascii(c))
  }

  /** The longest text that is the beginning of an address and contains none: its last part has only one
      letter so far. */
  function Unfinished(letter: LetterChar, local: nat, domain: nat): (t: Text)
    ensures |t| == local + domain + 3
    ensures forall k | 0 <= k < |t| ::
              t[k] == if k < local then Ascii(letter) else if k == local then Ascii('@')
                      else if k <= local + domain then Ascii('b')
                      else if k == local + domain + 1 then Ascii('.') else Ascii('c')
  {
    Times(letter, local) + [Ascii('@')] + Times('b', domain) + [Ascii('.'), Ascii('c')]
  }

  lemma NoHostYet(domain: nat, tld: nat, t: Text, a: nat, e: nat)
    requires a <= |t| && domain > 0 && tld > 1
    requires forall k | a <= k < |t| && IsChar(t, k, '.') :: k + 2 >= |t|
    ensures e !in Ends(Host(domain, tld), t, a)
  {
    var run, last := Repeat(One(DOMAIN), 1, domain), Repeat(One(LETTERS), 2, tld);
    if e in Ends(Host(domain, tld), t, a) {
      EndsAllMembers(Cat(Char('.'), last), t, Ends(run, t, a), e);
      var m :| m in Ends(run, t, a) && e in Ends(Cat(Char('.'), last), t, m);
      RunEnds(DOMAIN, 1, domain, t, a);
      CharThen('.', last, t, m);
      RunEnds(LETTERS, 2, tld, t, m + 1);
    }
  }

  lemma NoAddressYet(letter: LetterChar, local: nat, domain: nat, tld: nat, i: nat)
    requires local > 0 && domain > 0 && tld > 1 && i <= |Unfinished(letter, local, domain)|
    ensures Ends(Email(local, domain, tld), Unfinished(letter, local, domain), i) == []
  {
    var t, re := Unfinished(letter, local, domain), Email(local, domain, tld);
    var run, rest := Repeat(One(LOCAL_PART), 1, local), Cat(Char('@'), Host(domain, tld));
    if Ends(re, t, i) != [] {
      var e := Ends(re, t, i)[0];
      EndsAllMembers(rest, t, Ends(run, t, i), e);
      var a :| a in Ends(run, t, i) && e in Ends(rest, t, a);
      EndsBounded(run, t, i, a);
      CharThen('@', Host(domain, tld), t, a);
      NoHostYet(domain, tld, t, a + 1, e);
    }
  }

  lemma NothingFoundYet(rules: RuleSet, letter: LetterChar, local: nat, domain: nat, tld: nat, i: nat)
    requires local > 0 && domain > 0 && tld > 1 && i < |Unfinished(letter, local, domain)|
    requires rules != [] && rules[0] == Rule(EMAIL, Email(local, domain, tld)) && AllNeed(rules[1..])
    ensures Found(rules, Unfinished(letter, local, domain), i) == None
  {
    NoAddressYet(letter, local, domain, tld, i);
    NothingToFind(rules[1..], Unfinished(letter, local, domain), i);
  }

  lemma {:induction false} NothingToScan(ds: Decisions, pos: nat)
    requires forall i | 0 <= i < |ds| :: ds[i] == None
    ensures Scan(ds, pos) == []
    decreases |ds| - pos
  {
    if pos < |ds| {
      NothingToScan(ds, pos + 1);
    }
  }

  /** One more letter makes it an address. */
  lemma FoundNow(rules: RuleSet, letter: LetterChar, local: nat, domain: nat, tld: nat)
    requires local > 0 && domain > 0 && tld > 1
    requires rules != [] && rules[0] == Rule(EMAIL, Email(local, domain, tld))
    ensures var t := Unfinished(letter, local, domain) + [Ascii('c')];
            Found(rules, t, 0) == Some(Match(EMAIL, 0, |t|))
  {
    var t, dot := Unfinished(letter, local, domain) + [Ascii('c')], local + domain + 1;
    RunOf(LOCAL_PART, t, 0, local);
    RunOf(DOMAIN, t, local + 1, dot);
    RunOf(LETTERS, t, dot + 1, |t|);
    EmailToEnd(local, domain, tld, t, 0, local, dot);
  }

  lemma {:induction false} RunOf(cc: CharClass, t: Text, i: nat, e: nat)
    requires i <= e <= |t| && forall k | i <= k < e :: cc.Has(t[k])
    ensures Consists(t, i, e, cc, cc)
    decreases e - i
  {
    if i < e {
      RunOf(cc, t, i + 1, e);
    }
  }

  /** With a smaller cap, the beginning of the unfinished address has been sent when the last letter
      arrives. */
  lemma SentTooEarly(cfg: Config, letter: LetterChar, local: nat, domain: nat, tld: nat)
    requires local > 0 && domain > 0 && tld > 1 && cfg.maxHoldback < local + domain + 3
    requires var rules := cfg.rules;
             rules != [] && rules[0] == Rule(EMAIL, Email(local, domain, tld)) && AllNeed(rules[1..])
    ensures var emitted := Feed(cfg, FRESH, Unfinished(letter, local, domain)).1;
            emitted.Some? && emitted.value != [] && emitted.value[0] == Ascii(letter)
  {
    var t := Unfinished(letter, local, domain);
    var ds := Decide(cfg.rules, t);
    forall i | 0 <= i < |t| ensures ds[i] == None {
      NothingFoundYet(cfg.rules, letter, local, domain, tld, i);
      DecidesFound(cfg.rules, t, |t|, i);
    }
    NothingToScan(ds, 0);
    assert [] + t == t;
    HoldbackBounded(t, cfg.maxHoldback);
    assert Feed(cfg, FRESH, t).1 == Some(t[0..Cut(cfg, [], t)]);
  }

  lemma RedactedWhole(cfg: Config, letter: LetterChar, local: nat, domain: nat, tld: nat)
    requires local > 0 && domain > 0 && tld > 1
    requires cfg.rules != [] && cfg.rules[0] == Rule(EMAIL, Email(local, domain, tld))
    ensures RedactComplete(cfg.rules, Unfinished(letter, local, domain) + [Ascii('c')], cfg.placeholder)
         == cfg.placeholder
  {
    var t := Unfinished(letter, local, domain) + [Ascii('c')];
    var ds := Decide(cfg.rules, t);
    FoundNow(cfg.rules, letter, local, domain, tld);
    DecidesFound(cfg.rules, t, |t|, 0);
    var ms := Scan(ds, 0);
    assert Scan(ds, |t|) == [] && ms == [Match(EMAIL, 0, |t|)] && ms[1..] == [];
    ScanInOrder(ds, 0);
    assert Redacted(t, |t|, |t|, [], cfg.placeholder) == t[|t|..|t|] == [];
    assert t[0..0] + cfg.placeholder + [] == cfg.placeholder;
  }

  lemma StreamedTwice(cfg: Config, a: Text, b: Text)
    ensures var emitted := Feed(cfg, FRESH, a).1;
            emitted.Some? ==> emitted.value <= Streamed(cfg, [a, b]).1
    ensures Concat([a, b]) == a + b
  {
    hide Feed, Flush;
    assert [a, b][..1] == [a] && [a][..0] == [];
    var (s, emitted) := Feed(cfg, FRESH, a);
    assert Fed(cfg, [a]) == (s, [] + if emitted.Some? then emitted.value else []);
    assert Concat([a]) == [] + a;
  }

  /** No smaller cap will do: two chunks, the second of one letter, whose redaction as a stream shows the
      beginning of an address that the redaction of the whole text hides. */
  lemma SmallerCapShows(cfg: Config, local: nat, domain: nat, tld: nat) returns (chunks: seq<Text>)
    requires local > 0 && domain > 0 && tld > 1 && cfg.maxHoldback < local + domain + 3
    requires var rules := cfg.rules;
             rules != [] && rules[0] == Rule(EMAIL, Email(local, domain, tld)) && AllNeed(rules[1..])
    ensures Streamed(cfg, chunks).1 != RedactComplete(cfg.rules, Concat(chunks), cfg.placeholder)
  {
    var letter := Avoiding(cfg.placeholder);
    SentTooEarly(cfg, letter, local, domain, tld);
    RedactedWhole(cfg, letter, local, domain, tld);
    chunks := [Unfinished(letter, local, domain), [Ascii('c')]];
    StreamedTwice(cfg, chunks[0], chunks[1]);
    hide Feed, Streamed, RedactComplete, Concat;
  }

  ghost predicate StreamingIsExact(maxHoldback: nat, context: nat, placeholder: Text) {
    forall chunks: seq<Text> ::
      Streamed(Config(AllPatterns(), maxHoldback, context, placeholder), chunks).1
      == RedactComplete(AllPatterns(), Concat(chunks), placeholder)
  }

  /** Streaming is exact for every text and every way of splitting it if and only if the cap is at least
      322, the length of the longest unfinished address. */
  lemma ExactFrom322(maxHoldback: nat, context: nat, placeholder: Text)
    ensures StreamingIsExact(maxHoldback, context, placeholder) <==> maxHoldback >= 322
  {
    if maxHoldback >= 322 {
      forall chunks: seq<Text>
        ensures Streamed(Config(AllPatterns(), maxHoldback, context, placeholder), chunks).1
             == RedactComplete(AllPatterns(), Concat(chunks), placeholder)
      {
        StreamingRedactsPatterns(maxHoldback, context, placeholder, chunks);
      }
    } else {
      var others := PatternsAre(345);
      assert AllPatterns()[1..] == others;
      var chunks := SmallerCapShows(Config(AllPatterns(), maxHoldback, context, placeholder), 64, 255, 24);
    }
  }
}
