// The characters a Python str is made of, as far as the redactor can tell them apart.
module Symbols {

  type AsciiChar = c: char | c as int < 128 witness ' '
  type DigitValue = v: nat | v < 10

  /** A Unicode character. ASCII characters keep their identity; any other one is a decimal digit
      (what `\d` matches, with the value `int()` gives it), another word character (what `\w`
      matches), or neither. `glyph` tells characters of the same kind apart. */
  datatype Symbol =
    | Ascii(c: AsciiChar)
    | Decimal(value: DigitValue, glyph: nat)
    | Letter(glyph: nat)
    | Other(glyph: nat)

  type Text = seq<Symbol>

  predicate AsciiLetter(c: char) {
    'a' <= c <= 'z' || 'A' <= c <= 'Z'
  }

  predicate AsciiDigit(c: char) {
    '0' <= c <= '9'
  }

  predicate IsDigit(s: Symbol) {
    s.Decimal? || (s.Ascii? && AsciiDigit(s.c))
  }

  predicate IsWord(s: Symbol) {
    s.Letter? || IsDigit(s) || (s.Ascii? && (AsciiLetter(s.c) || s.c == '_'))
  }

  /** `int(char)` of a decimal digit. */
  function ValueOf(s: Symbol): DigitValue
    requires IsDigit(s)
  {
    if s.Decimal? then s.value else s.c as int - '0' as int
  }

  /** A bracketed character class, such as `[A-Za-z0-9.\-]`. `decimals` stands for `\d`. */
  datatype CharClass = CharClass(letters: bool, asciiDigits: bool, decimals: bool, chars: set<char>) {
    predicate Has(s: Symbol) {
      || (s.Ascii? && ((letters && AsciiLetter(s.c)) || (asciiDigits && AsciiDigit(s.c)) || s.c in chars))
      || (decimals && IsDigit(s))
    }

    /** Every character of this class is one of that class. */
    predicate Within(that: CharClass) {
      && (letters ==> that.letters)
      && (asciiDigits ==> that.asciiDigits || that.decimals)
      && (decimals ==> that.decimals)
      && forall c <- chars ::
           || c in that.chars
           || (AsciiLetter(c) && that.letters)
           || (AsciiDigit(c) && (that.asciiDigits || that.decimals))
    }
  }

  /** Python's `s[-n:]` for a non-negative n; `s[-0:]` is all of s. */
  function LastN<T>(s: seq<T>, n: nat): seq<T> {
    if n == 0 || n >= |s| then s else s[|s| - n..]
  }

  lemma Associative<T>(a: seq<T>, b: seq<T>, c: seq<T>)
    ensures a + (b + c) == a + b + c
  {}
}
