/** The address and key patterns match exactly the shapes they are meant to match. */
module TokenShapes {
  import opened Symbols
  import opened Regex
  import opened Patterns
  import opened Shapes
  import opened Greedy

  lemma ClassesAre(s: Symbol)
    ensures LOCAL_PART.Has(s) <==> LocalPart(s)
    ensures DOMAIN.Has(s) <==> DomainPart(s)
    ensures LETTERS.Has(s) <==> Latin(s)
    ensures ALPHANUMERICS.Has(s) <==> Latin(s) || AsciiNumeral(s)
    ensures IsWord(s) <==> WordPart(s)
  {}

  lemma {:induction false} ConsistsIff(t: Text, i: nat, e: nat, cc: CharClass)
    requires e <= |t|
    ensures Consists(t, i, e, cc, cc) <==> forall k | i <= k < e :: cc.Has(t[k])
    decreases e - i
  {
    if i < e {
      ConsistsIff(t, i + 1, e, cc);
    }
  }

  // Addresses

  predicate Latins(t: Text, k: nat, e: nat) {
    e <= |t| && forall j | k <= j < e :: Latin(t[j])
  }

  predicate DomainParts(t: Text, k: nat, e: nat) {
    e <= |t| && forall j | k <= j < e :: DomainPart(t[j])
  }

  predicate LocalParts(t: Text, k: nat, e: nat) {
    e <= |t| && forall j | k <= j < e :: LocalPart(t[j])
  }

  lemma LastPartEnds(t: Text, k: nat)
    requires k <= |t|
    ensures var es := Ends(Repeat(One(LETTERS), 2, 24), t, k);
            Descending(es) && forall e: nat :: e in es <==> k + 2 <= e <= k + 24 && Latins(t, k, e)
  {
    hide Ends, Repeat, Descending;
    RunEnds(LETTERS, 2, 24, t, k);
    forall e: nat | e <= |t| ensures Consists(t, k, e, LETTERS, LETTERS) <==> Latins(t, k, e) {
      ConsistsIff(t, k, e, LETTERS);
      forall s: Symbol ensures LETTERS.Has(s) <==> Latin(s) { ClassesAre(s); }
    }
  }

  lemma DomainEnds(t: Text, k: nat)
    requires k <= |t|
    ensures var es := Ends(Repeat(One(DOMAIN), 1, 255), t, k);
            Descending(es) && forall e: nat :: e in es <==> k + 1 <= e <= k + 255 && DomainParts(t, k, e)
  {
    hide Ends, Repeat, Descending;
    RunEnds(DOMAIN, 1, 255, t, k);
    forall e: nat | e <= |t| ensures Consists(t, k, e, DOMAIN, DOMAIN) <==> DomainParts(t, k, e) {
      ConsistsIff(t, k, e, DOMAIN);
      forall s: Symbol ensures DOMAIN.Has(s) <==> DomainPart(s) { ClassesAre(s); }
    }
  }

  lemma LocalEnds(t: Text, k: nat)
    requires k <= |t|
    ensures var es := Ends(Repeat(One(LOCAL_PART), 1, 64), t, k);
            Descending(es) && forall e: nat :: e in es <==> k + 1 <= e <= k + 64 && LocalParts(t, k, e)
  {
    hide Ends, Repeat, Descending;
    RunEnds(LOCAL_PART, 1, 64, t, k);
    forall e: nat | e <= |t| ensures Consists(t, k, e, LOCAL_PART, LOCAL_PART) <==> LocalParts(t, k, e) {
      ConsistsIff(t, k, e, LOCAL_PART);
      forall s: Symbol ensures LOCAL_PART.Has(s) <==> LocalPart(s) { ClassesAre(s); }
    }
  }

  function DotThen(): Re {
    Cat(Char('.'), Repeat(One(LETTERS), 2, 24))
  }

  predicate DotShape(t: Text, m: nat, e: nat) {
    IsChar(t, m, '.') && m + 3 <= e <= m + 25 && Latins(t, m + 1, e)
  }

  lemma DotThenEnds(t: Text, m: nat)
    ensures Descending(Ends(DotThen(), t, m))
    ensures forall e: nat :: e in Ends(DotThen(), t, m) <==> DotShape(t, m, e)
  {
    hide Ends, Repeat, Latins;
    CharThen('.', Repeat(One(LETTERS), 2, 24), t, m);
    if IsChar(t, m, '.') { LastPartEnds(t, m + 1); }
  }

  ghost predicate HostShape(t: Text, k: nat, e: nat) {
    exists m: nat :: k + 1 <= m <= k + 255 && DomainParts(t, k, m) && DotShape(t, m, e)
  }

  lemma DotsOrdered(t: Text, m: nat, n: nat, e: nat, f: nat)
    requires m > n && DotShape(t, m, e) && DotShape(t, n, f)
    ensures e > f
  {
    assert !Latin(t[m]);
  }

  lemma HostEnds(t: Text, k: nat)
    requires k <= |t|
    ensures Descending(Ends(Host(255, 24), t, k))
    ensures forall e: nat :: e in Ends(Host(255, 24), t, k) <==> HostShape(t, k, e)
  {
    hide Ends, Repeat, DotThen, DotShape, DomainParts, Descending;
    HostIs();
    var run := Repeat(One(DOMAIN), 1, 255);
    var starts := Ends(run, t, k);
    DomainEnds(t, k);
    CatEnds(run, DotThen(), t, k);
    forall m: nat
      ensures Descending(Ends(DotThen(), t, m))
      ensures forall e: nat :: e in Ends(DotThen(), t, m) <==> DotShape(t, m, e)
    {
      DotThenEnds(t, m);
    }
    forall x <- starts, y <- starts | x > y
      ensures forall e <- Ends(DotThen(), t, x), f <- Ends(DotThen(), t, y) :: e > f
    {
      forall e <- Ends(DotThen(), t, x), f <- Ends(DotThen(), t, y) ensures e > f { DotsOrdered(t, x, y, e, f); }
    }
    EndsAllDescending(DotThen(), t, starts);
    forall e: nat ensures e in Ends(Host(255, 24), t, k) <==> HostShape(t, k, e) {
      EndsAllMembers(DotThen(), t, starts, e);
    }
  }

  lemma HostIs()
    ensures Host(255, 24) == Cat(Repeat(One(DOMAIN), 1, 255), DotThen())
  {
    hide Repeat;
  }

  lemma CatEnds(a: Re, b: Re, t: Text, i: nat)
    ensures Ends(Cat(a, b), t, i) == EndsAll(b, t, Ends(a, t, i))
  {}

  function AtThen(): Re {
    Cat(Char('@'), Host(255, 24))
  }

  ghost predicate AtShape(t: Text, a: nat, e: nat) {
    IsChar(t, a, '@') && HostShape(t, a + 1, e)
  }

  lemma AtThenEnds(t: Text, a: nat)
    ensures Descending(Ends(AtThen(), t, a))
    ensures forall e: nat :: e in Ends(AtThen(), t, a) <==> AtShape(t, a, e)
  {
    hide Ends, Host, HostShape;
    CharThen('@', Host(255, 24), t, a);
    if IsChar(t, a, '@') { HostEnds(t, a + 1); }
  }

  lemma EmailIs()
    ensures EmailPattern() == Cat(Repeat(One(LOCAL_PART), 1, 64), AtThen())
  {
    hide Repeat, Host;
  }

  lemma EmailShapeIs(t: Text, i: nat, e: nat)
    ensures EmailShape(t, i, e) <==>
            exists a: nat :: i + 1 <= a <= i + 64 && LocalParts(t, i, a) && AtShape(t, a, e)
  {
    if EmailShape(t, i, e) {
      var a: nat, m: nat :| EmailParts(t, i, a, m, e);
      assert DomainParts(t, a + 1, m) && DotShape(t, m, e);
      assert LocalParts(t, i, a) && AtShape(t, a, e);
    }
    if a: nat :| i + 1 <= a <= i + 64 && LocalParts(t, i, a) && AtShape(t, a, e) {
      var m: nat :| a + 2 <= m <= a + 256 && DomainParts(t, a + 1, m) && DotShape(t, m, e);
      assert EmailParts(t, i, a, m, e);
    }
  }

  /** The pattern finds the shape wherever it is, the longest one first. */
  lemma EmailMatches(t: Text, i: nat)
    requires i <= |t|
    ensures Descending(Ends(EmailPattern(), t, i))
    ensures forall e: nat :: e in Ends(EmailPattern(), t, i) <==> EmailShape(t, i, e)
  {
    hide Ends, Repeat, AtThen, AtShape, EmailPattern, EmailShape, Descending;
    EmailIs();
    var run := Repeat(One(LOCAL_PART), 1, 64);
    var starts := Ends(run, t, i);
    LocalEnds(t, i);
    CatEnds(run, AtThen(), t, i);
    forall a: nat
      ensures Descending(Ends(AtThen(), t, a))
      ensures forall e: nat :: e in Ends(AtThen(), t, a) <==> AtShape(t, a, e)
    {
      AtThenEnds(t, a);
    }
    forall x <- starts, y <- starts | x > y
      ensures forall e <- Ends(AtThen(), t, x), f <- Ends(AtThen(), t, y) :: e > f
    {
      OneAt(t, i, x, y);
    }
    EndsAllDescending(AtThen(), t, starts);
    forall e: nat ensures e in Ends(EmailPattern(), t, i) <==> EmailShape(t, i, e) {
      EndsAllMembers(AtThen(), t, starts, e);
      EmailShapeIs(t, i, e);
    }
  }

  lemma OneAt(t: Text, i: nat, x: nat, y: nat)
    requires i <= y < x && LocalParts(t, i, x)
    ensures Ends(AtThen(), t, y) == []
  {
    hide Ends, Host;
    assert LocalPart(t[y]);
    CharThen('@', Host(255, 24), t, y);
  }

  // Keys

  predicate Alphanumerics(t: Text, k: nat, e: nat) {
    e <= |t| && forall j | k <= j < e :: Latin(t[j]) || AsciiNumeral(t[j])
  }

  lemma BoundaryHere(t: Text, i: nat)
    ensures WordAt(t, i) <==> WordPartAt(t, i)
    ensures WordAt(t, i - 1) <==> WordPartAt(t, i - 1)
  {
    if i < |t| { ClassesAre(t[i]); }
    if 0 < i <= |t| { ClassesAre(t[i - 1]); }
  }

  function BodyThen(): Re {
    Cat(Repeat(One(ALPHANUMERICS), 16, 64), Boundary)
  }

  predicate BodyShape(t: Text, a: nat, e: nat) {
    KeyBody(t, a, e) && !WordPartAt(t, e)
  }

  lemma RunOfAlphanumerics(t: Text, k: nat)
    requires k <= |t|
    ensures forall e: nat :: e in Ends(Repeat(One(ALPHANUMERICS), 16, 64), t, k) <==> KeyBody(t, k, e)
  {
    hide Ends, Repeat, Descending;
    RunEnds(ALPHANUMERICS, 16, 64, t, k);
    forall e: nat | e <= |t| ensures Consists(t, k, e, ALPHANUMERICS, ALPHANUMERICS) <==> Alphanumerics(t, k, e) {
      ConsistsIff(t, k, e, ALPHANUMERICS);
      forall s: Symbol ensures ALPHANUMERICS.Has(s) <==> Latin(s) || AsciiNumeral(s) { ClassesAre(s); }
    }
  }

  lemma BoundaryEnds(t: Text, a: nat, e: nat)
    requires KeyBody(t, a, e)
    ensures Ends(Boundary, t, e) == if WordPartAt(t, e) then [] else [e]
  {
    BoundaryHere(t, e);
    assert WordPart(t[e - 1]);
  }

  lemma BodyThenEnds(t: Text, a: nat, e: nat)
    requires a <= |t|
    ensures e in Ends(BodyThen(), t, a) <==> BodyShape(t, a, e)
  {
    hide Ends, Repeat, KeyBody, WordPartAt;
    var run := Repeat(One(ALPHANUMERICS), 16, 64);
    CatEnds(run, Boundary, t, a);
    EndsAllMembers(Boundary, t, Ends(run, t, a), e);
    RunOfAlphanumerics(t, a);
    forall x <- Ends(run, t, a) ensures Ends(Boundary, t, x) == if WordPartAt(t, x) then [] else [x] {
      BoundaryEnds(t, a, x);
    }
  }

  /** A key starts at `a` or, past a dash there, at `a + 1`. */
  ghost predicate DashShape(t: Text, b: nat, e: nat) {
    exists a: nat :: PastDash(t, b, a) && BodyShape(t, a, e)
  }

  function DashThen(): Re {
    Cat(Optional(Char('-')), BodyThen())
  }

  lemma DashThenEnds(t: Text, b: nat, e: nat)
    requires b <= |t|
    ensures e in Ends(DashThen(), t, b) <==> DashShape(t, b, e)
  {
    hide Ends, Optional, BodyThen, BodyShape;
    OptionalThen(Char('-'), BodyThen(), t, b);
    CharThen('-', BodyThen(), t, b);
    BodyThenEnds(t, b, e);
    if IsChar(t, b, '-') { BodyThenEnds(t, b + 1, e); }
    assert PastDash(t, b, b);
    assert IsChar(t, b, '-') ==> PastDash(t, b, b + 1);
  }

  ghost predicate KindShape(t: Text, k: nat, e: nat) {
    || DashShape(t, k, e)
    || (TextAt(t, k, "live") && DashShape(t, k + 4, e))
    || (TextAt(t, k, "test") && DashShape(t, k + 4, e))
    || (TextAt(t, k, "proj") && DashShape(t, k + 4, e))
    || (TextAt(t, k, "ant") && DashShape(t, k + 3, e))
  }

  function KindThen(): Re {
    Cat(Optional(Words(KEY_KINDS)), DashThen())
  }

  lemma {:induction false} TextWithin(t: Text, k: nat, s: string)
    requires TextAt(t, k, s) && k <= |t|
    ensures k + |s| <= |t|
    decreases |s|
  {
    if s != "" {
      TextWithin(t, k + 1, s[1..]);
    }
  }

  lemma {:induction false} WordsThen(words: seq<string>, re: Re, t: Text, i: nat, e: nat)
    requires words != []
    ensures e in Ends(Cat(Words(words), re), t, i) <==>
            exists w <- words :: TextAt(t, i, w) && e in Ends(re, t, i + |w|)
  {
    hide Ends, Literal, TextAt;
    LiteralThen(words[0], re, t, i);
    if |words| > 1 {
      AltThen(Literal(words[0]), Words(words[1..]), re, t, i);
      WordsThen(words[1..], re, t, i, e);
      assert forall w <- words :: w == words[0] || w in words[1..];
      assert words[0] in words && forall w <- words[1..] :: w in words;
    } else {
      assert words == [words[0]];
    }
  }

  ghost predicate AfterWord(words: seq<string>, t: Text, k: nat, e: nat) {
    exists w <- words :: TextAt(t, k, w) && DashShape(t, k + |w|, e)
  }

  lemma KindShapeIs(t: Text, k: nat, e: nat)
    ensures KindShape(t, k, e) <==> DashShape(t, k, e) || AfterWord(KEY_KINDS, t, k, e)
  {
    hide TextAt, DashShape;
    KindsAre();
    assert "live" in KEY_KINDS && "test" in KEY_KINDS && "proj" in KEY_KINDS && "ant" in KEY_KINDS;
  }

  lemma KindThenEnds(t: Text, k: nat, e: nat)
    requires k <= |t|
    ensures e in Ends(KindThen(), t, k) <==> KindShape(t, k, e)
  {
    hide Ends, Optional, DashThen, DashShape, TextAt, Words, KindShape;
    OptionalThen(Words(KEY_KINDS), DashThen(), t, k);
    WordsThen(KEY_KINDS, DashThen(), t, k, e);
    DashThenEnds(t, k, e);
    forall w: string | TextAt(t, k, w) ensures e in Ends(DashThen(), t, k + |w|) <==> DashShape(t, k + |w|, e) {
      TextWithin(t, k, w);
      DashThenEnds(t, k + |w|, e);
    }
    KindShapeIs(t, k, e);
  }

  lemma KindsAre()
    ensures forall w: string :: w in KEY_KINDS <==> w == "live" || w == "test" || w == "proj" || w == "ant"
    ensures forall w: string :: w in KEY_PREFIXES <==> w == "sk" || w == "pk" || w == "rk"
  {}

  // The whole key

  function PrefixThen(): Re {
    Cat(Words(KEY_PREFIXES), Cat(Char('-'), KindThen()))
  }

  lemma {:induction false} TextJoins(t: Text, k: nat, s: string, c: char)
    ensures TextAt(t, k, s + [c]) <==> TextAt(t, k, s) && IsChar(t, k + |s|, c)
    decreases |s|
  {
    if s == "" {
      assert s + [c] == [c] && [c][1..] == "";
      assert TextAt(t, k + 1, "");
    } else {
      assert (s + [c])[1..] == s[1..] + [c];
      TextJoins(t, k + 1, s[1..], c);
    }
  }

  ghost predicate PrefixShape(t: Text, i: nat, e: nat) {
    && (TextAt(t, i, "sk-") || TextAt(t, i, "pk-") || TextAt(t, i, "rk-"))
    && KindShape(t, i + 3, e)
  }

  ghost predicate AfterPrefix(words: seq<string>, t: Text, i: nat, e: nat) {
    exists w <- words :: TextAt(t, i, w) && IsChar(t, i + |w|, '-') && KindShape(t, i + |w| + 1, e)
  }

  lemma PrefixShapeIs(t: Text, i: nat, e: nat)
    ensures PrefixShape(t, i, e) <==> AfterPrefix(KEY_PREFIXES, t, i, e)
  {
    hide TextAt, KindShape;
    KindsAre();
    TextJoins(t, i, "sk", '-');
    TextJoins(t, i, "pk", '-');
    TextJoins(t, i, "rk", '-');
    assert "sk" + ['-'] == "sk-" && "pk" + ['-'] == "pk-" && "rk" + ['-'] == "rk-";
    assert "sk" in KEY_PREFIXES && "pk" in KEY_PREFIXES && "rk" in KEY_PREFIXES;
  }

  lemma PrefixThenEnds(t: Text, i: nat, e: nat)
    ensures e in Ends(PrefixThen(), t, i) <==> PrefixShape(t, i, e)
  {
    hide Ends, KindThen, KindShape, TextAt, Words, PrefixShape;
    var rest := Cat(Char('-'), KindThen());
    WordsThen(KEY_PREFIXES, rest, t, i, e);
    forall k: nat ensures e in Ends(rest, t, k) <==> IsChar(t, k, '-') && KindShape(t, k + 1, e) {
      CharThen('-', KindThen(), t, k);
      if IsChar(t, k, '-') { KindThenEnds(t, k + 1, e); }
    }
    PrefixShapeIs(t, i, e);
  }

  lemma DashHasStart(t: Text, b: nat, e: nat) returns (a: nat)
    requires DashShape(t, b, e)
    ensures PastDash(t, b, a) && BodyShape(t, a, e)
  {
    a :| PastDash(t, b, a) && BodyShape(t, a, e);
  }

  /** The kinds and the dash, written out. */
  lemma KindShapeParts(t: Text, i: nat, e: nat)
    ensures PrefixShape(t, i, e) && !WordPartAt(t, i - 1) <==> ApiKeyShape(t, i, e)
  {
    hide TextAt, KeyBody, WordPartAt;
    if PrefixShape(t, i, e) && !WordPartAt(t, i - 1) {
      var b: nat :| DashShape(t, b, e) && (forall a: nat :: PastDash(t, b, a) ==> KeyStart(t, i, a));
      var a := DashHasStart(t, b, e);
    }
    if ApiKeyShape(t, i, e) {
      var a: nat :| KeyStart(t, i, a) && KeyBody(t, a, e);
      assert BodyShape(t, a, e);
    }
  }

  lemma PrefixIsWord(t: Text, i: nat, e: nat)
    requires PrefixShape(t, i, e)
    ensures WordPartAt(t, i)
  {
    hide KindShape;
    assert IsChar(t, i, 's') || IsChar(t, i, 'p') || IsChar(t, i, 'r');
  }

  lemma ApiKeyIs()
    ensures ApiKeyPattern() == Cat(Boundary, PrefixThen())
  {
    hide Repeat, Words;
  }

  /** The pattern finds the shape wherever it is. */
  lemma ApiKeyMatches(t: Text, i: nat)
    ensures forall e: nat :: e in Ends(ApiKeyPattern(), t, i) <==> ApiKeyShape(t, i, e)
  {
    hide Ends, PrefixThen, PrefixShape, ApiKeyPattern, ApiKeyShape, WordAt, WordPartAt;
    ApiKeyIs();
    BoundaryThen(PrefixThen(), t, i);
    BoundaryHere(t, i);
    forall e: nat ensures e in Ends(ApiKeyPattern(), t, i) <==> ApiKeyShape(t, i, e) {
      PrefixThenEnds(t, i, e);
      KindShapeParts(t, i, e);
      if PrefixShape(t, i, e) { PrefixIsWord(t, i, e); }
    }
  }

  lemma KeyGoesOn(t: Text, a: nat, e: nat, b: nat, f: nat)
    requires KeyBody(t, a, e) && KeyBody(t, b, f) && b <= a + 5 && !WordPartAt(t, e)
    ensures f <= e
  {
    assert forall k | b <= k < f :: WordPart(t[k]);
  }

  /** There is at most one key at a position: it goes as far as letters and digits go. */
  lemma OneKey(t: Text, i: nat, e: nat, f: nat)
    requires ApiKeyShape(t, i, e) && ApiKeyShape(t, i, f)
    ensures e == f
  {
    hide TextAt;
    var a: nat :| KeyStart(t, i, a) && KeyBody(t, a, e);
    var b: nat :| KeyStart(t, i, b) && KeyBody(t, b, f);
    KeyGoesOn(t, a, e, b, f);
    KeyGoesOn(t, b, f, a, e);
  }
}
