/** What an address, a key, a card, a social security number and a phone number look like, character by
    character. Nothing here refers to patterns or to how they are searched for. */
module Shapes {
  import opened Symbols

  // Characters

  predicate IsChar(t: Text, k: nat, c: char) {
    k < |t| && t[k].Ascii? && t[k].c == c
  }

  /** The characters of `s` stand at `k`. */
  predicate TextAt(t: Text, k: nat, s: string)
    decreases |s|
  {
    s == "" || (IsChar(t, k, s[0]) && TextAt(t, k + 1, s[1..]))
  }

  predicate Latin(s: Symbol) {
    s.Ascii? && ('a' <= s.c <= 'z' || 'A' <= s.c <= 'Z')
  }

  predicate AsciiNumeral(s: Symbol) {
    s.Ascii? && '0' <= s.c <= '9'
  }

  predicate Numeral(s: Symbol) {
    s.Decimal? || AsciiNumeral(s)
  }

  /** A character that `\b` takes for part of a word. */
  predicate WordPart(s: Symbol) {
    s.Letter? || Numeral(s) || Latin(s) || s == Ascii('_')
  }

  predicate LocalPart(s: Symbol) {
    || Latin(s) || AsciiNumeral(s)
    || s == Ascii('.') || s == Ascii('_') || s == Ascii('%') || s == Ascii('+') || s == Ascii('-')
  }

  predicate DomainPart(s: Symbol) {
    Latin(s) || AsciiNumeral(s) || s == Ascii('.') || s == Ascii('-')
  }

  /** What an address or a key is made of. */
  predicate TokenPart(s: Symbol) {
    LocalPart(s) || s == Ascii('@')
  }

  predicate NumberStart(s: Symbol) {
    Numeral(s) || s == Ascii('+') || s == Ascii('(')
  }

  predicate NumberPart(s: Symbol) {
    Numeral(s) || s == Ascii(' ') || s == Ascii('(') || s == Ascii(')') || s == Ascii('-')
  }

  // Stretches of text

  predicate NumeralAt(t: Text, k: nat) {
    k < |t| && Numeral(t[k])
  }

  predicate WordPartAt(t: Text, k: int) {
    0 <= k < |t| && WordPart(t[k])
  }

  predicate SeparatorAt(t: Text, k: nat) {
    IsChar(t, k, ' ') || IsChar(t, k, '-')
  }

  function PastSeparator(t: Text, k: nat): nat {
    if SeparatorAt(t, k) then k + 1 else k
  }

  /** No digit and no dash at `k`. */
  predicate FencedAt(t: Text, k: int) {
    0 <= k < |t| ==> !Numeral(t[k]) && t[k] != Ascii('-')
  }

  predicate Numerals(t: Text, k: nat, n: nat)
    decreases n
  {
    n == 0 || (NumeralAt(t, k) && Numerals(t, k + 1, n - 1))
  }

  /** `n` digits from `k` on, at most one blank or dash between two of them, the last one just before `e`. */
  predicate SpacedNumerals(t: Text, k: nat, n: nat, e: nat)
    decreases n
  {
    && n > 0 && NumeralAt(t, k)
    && if n == 1 then e == k + 1 else SpacedNumerals(t, PastSeparator(t, k + 1), n - 1, e)
  }

  // The shapes of `t[i..e]`

  ghost predicate EmailShape(t: Text, i: nat, e: nat) {
    exists a: nat, m: nat :: EmailParts(t, i, a, m, e)
  }

  /** A local part up to the `@` at `a`, a domain up to the dot at `m`, and two to 24 letters. */
  predicate EmailParts(t: Text, i: nat, a: nat, m: nat, e: nat) {
    && i < a <= i + 64 && a + 1 < m <= a + 256 && m + 3 <= e <= m + 25 && e <= |t|
    && (forall k | i <= k < a :: LocalPart(t[k]))
    && IsChar(t, a, '@')
    && (forall k | a < k < m :: DomainPart(t[k]))
    && IsChar(t, m, '.')
    && (forall k | m < k < e :: Latin(t[k]))
  }

  /** `a` is past `sk-`, an optional kind and an optional dash. */
  predicate KeyStart(t: Text, i: nat, a: nat) {
    && (TextAt(t, i, "sk-") || TextAt(t, i, "pk-") || TextAt(t, i, "rk-"))
    && (PastDash(t, i + 3, a)
        || (TextAt(t, i + 3, "live") && PastDash(t, i + 7, a))
        || (TextAt(t, i + 3, "test") && PastDash(t, i + 7, a))
        || (TextAt(t, i + 3, "proj") && PastDash(t, i + 7, a))
        || (TextAt(t, i + 3, "ant") && PastDash(t, i + 6, a)))
  }

  predicate PastDash(t: Text, b: nat, a: nat) {
    a == b || (IsChar(t, b, '-') && a == b + 1)
  }

  ghost predicate ApiKeyShape(t: Text, i: nat, e: nat) {
    && !WordPartAt(t, i - 1) && !WordPartAt(t, e)
    && exists a: nat :: KeyStart(t, i, a) && KeyBody(t, a, e)
  }

  predicate KeyBody(t: Text, a: nat, e: nat) {
    a + 16 <= e <= a + 64 && e <= |t| && forall k | a <= k < e :: Latin(t[k]) || AsciiNumeral(t[k])
  }

  predicate CardShape(t: Text, i: nat, e: nat) {
    && FencedAt(t, i - 1) && FencedAt(t, e)
    && exists n: nat | 13 <= n <= 19 :: SpacedNumerals(t, i, n, e)
  }

  /** Areas 000, 666 and 900 to 999, group 00 and serial 0000 are never issued. */
  predicate SsnShape(t: Text, i: nat, e: nat) {
    && FencedAt(t, i - 1)
    && Numerals(t, i, 3) && !TextAt(t, i, "000") && !TextAt(t, i, "666") && !IsChar(t, i, '9')
    && var group := PastSeparator(t, i + 3);
       && Numerals(t, group, 2) && !TextAt(t, group, "00")
       && var serial := PastSeparator(t, group + 2);
          Numerals(t, serial, 4) && !TextAt(t, serial, "0000") && e == serial + 4 && FencedAt(t, e)
  }

  /** `+1` and a parenthesis may come first, and the area may be in parentheses. */
  predicate PhoneShape(t: Text, i: nat, e: nat) {
    && FencedAt(t, i - 1)
    && var open := if TextAt(t, i, "+1") then PastSeparator(t, i + 2) else i;
       var area := if IsChar(t, open, '(') then open + 1 else open;
       var past := if IsChar(t, area + 3, ')') then area + 4 else area + 3;
       && Numerals(t, area, 3) && SeparatorAt(t, past)
       && Numerals(t, past + 1, 3) && SeparatorAt(t, past + 4)
       && Numerals(t, past + 5, 4) && e == past + 9 && FencedAt(t, e)
  }
}
