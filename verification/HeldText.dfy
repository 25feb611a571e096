/** Which endings of the buffer are withheld, character by character. */
module HeldText {
  import opened Symbols
  import opened Regex
  import opened Patterns
  import opened Holdback
  import opened Shapes

  /** From `j` to the end, nothing but characters of addresses and keys. */
  predicate TokenTail(w: Text, j: nat) {
    j < |w| && forall k | j <= k < |w| :: TokenPart(w[k])
  }

  /** From `j` to the end, the beginning of a number and nothing but characters of numbers after it. */
  predicate NumberTail(w: Text, j: nat) {
    j < |w| && NumberStart(w[j]) && forall k | j < k < |w| :: NumberPart(w[k])
  }

  lemma TailClasses(s: Symbol)
    ensures TAIL_TOKEN.head == TAIL_TOKEN.rest && (TAIL_TOKEN.rest.Has(s) <==> TokenPart(s))
    ensures TAIL_DIGITS.head.Has(s) <==> NumberStart(s)
    ensures TAIL_DIGITS.rest.Has(s) <==> NumberPart(s)
  {}

  lemma {:induction false} RunOfClass(w: Text, j: nat, cc: CharClass)
    requires j <= |w|
    ensures Consists(w, j, |w|, cc, cc) <==> forall k | j <= k < |w| :: cc.Has(w[k])
    decreases |w| - j
  {
    if j < |w| {
      RunOfClass(w, j + 1, cc);
    }
  }

  lemma TailsByCharacter(w: Text, j: nat)
    ensures IsTail(TAIL_TOKEN, w, j) <==> TokenTail(w, j)
    ensures IsTail(TAIL_DIGITS, w, j) <==> NumberTail(w, j)
  {
    forall s: Symbol
      ensures TAIL_TOKEN.rest.Has(s) <==> TokenPart(s)
      ensures TAIL_DIGITS.rest.Has(s) <==> NumberPart(s)
    {
      TailClasses(s);
    }
    if j < |w| {
      TailClasses(w[j]);
      RunOfClass(w, j, TAIL_TOKEN.rest);
      RunOfClass(w, j + 1, TAIL_DIGITS.rest);
    }
  }

  /** What is withheld is the longest ending within the cap that is such a run, and nothing if there is none. */
  lemma HeldIsLongestEnding(buffer: Text, maxHoldback: nat)
    ensures var hold := HoldbackOf(buffer, maxHoldback);
            && hold <= maxHoldback && hold <= |buffer|
            && (hold > 0 ==> TokenTail(buffer, |buffer| - hold) || NumberTail(buffer, |buffer| - hold))
            && (forall j: nat | |buffer| - j <= maxHoldback && (TokenTail(buffer, j) || NumberTail(buffer, j)) ::
                  |buffer| - j <= hold)
  {
    hide HoldbackOf, IsTail, TokenTail, NumberTail;
    HoldbackIsLongestTail(buffer, maxHoldback);
    var hold := HoldbackOf(buffer, maxHoldback);
    TailsByCharacter(buffer, |buffer| - hold);
    forall j: nat | |buffer| - j <= maxHoldback && (TokenTail(buffer, j) || NumberTail(buffer, j))
      ensures |buffer| - j <= hold
    {
      TailsByCharacter(buffer, j);
      TailIsWithin(buffer, j);
    }
  }

  lemma TailIsWithin(w: Text, j: nat)
    ensures IsTail(TAIL_TOKEN, w, j) || IsTail(TAIL_DIGITS, w, j) ==> j < |w| && AnyTail(w, j)
  {}

  /** A buffer that ends in any other character holds nothing back, whatever comes before. */
  lemma OtherEndingIsSent(buffer: Text, maxHoldback: nat)
    requires buffer != []
    requires var last := buffer[|buffer| - 1]; !TokenPart(last) && !NumberPart(last) && !NumberStart(last)
    ensures HoldbackOf(buffer, maxHoldback) == 0
  {
    hide HoldbackOf, TokenPart, NumberPart, NumberStart;
    HeldIsLongestEnding(buffer, maxHoldback);
  }
}
