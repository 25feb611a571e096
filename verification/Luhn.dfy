/** The Luhn check (ISO/IEC 7812-1, Annex B) that decides whether a digit run is a payment card. */
module Luhn {
  import opened Symbols

  type Digits = seq<DigitValue>

  function Doubled(d: DigitValue): DigitValue {
    if 2 * d > 9 then 2 * d - 9 else 2 * d
  }

  /** What a digit adds when `index` digits follow it. */
  function Weight(d: DigitValue, index: nat): DigitValue {
    if index % 2 == 1 then Doubled(d) else d
  }

  function Total(ds: Digits): nat {
    if ds == [] then 0 else Weight(ds[0], |ds| - 1) + Total(ds[1..])
  }

  predicate LuhnOk(ds: Digits) {
    Total(ds) % 10 == 0
  }

  method CheckLuhn(ds: Digits) returns (ok: bool)
    ensures ok == LuhnOk(ds)
  {
    var total, index := 0, 0;
    while index < |ds|
      invariant 0 <= index <= |ds|
      invariant total == Total(ds[|ds| - index..])
    {
      var value: nat := ds[|ds| - 1 - index];
      if index % 2 == 1 {
        value := value * 2;
        if value > 9 {
          value := value - 9;
        }
      }
      assert ds[|ds| - 1 - index..][1..] == ds[|ds| - index..];
      total := total + value;
      index := index + 1;
    }
    assert ds[0..] == ds;
    ok := total % 10 == 0;
  }

  lemma {:induction false} TotalUpdate(ds: Digits, k: nat, d: DigitValue)
    requires k < |ds|
    ensures Total(ds[k := d]) == Total(ds) - Weight(ds[k], |ds| - 1 - k) + Weight(d, |ds| - 1 - k)
  {
    hide Weight;
    if k == 0 {
      assert ds[k := d][1..] == ds[1..];
    } else {
      TotalUpdate(ds[1..], k - 1, d);
      assert ds[k := d][1..] == ds[1..][k - 1 := d];
    }
  }

  lemma Exchange(total: nat, out: DigitValue, into: DigitValue)
    requires total % 10 == 0
    ensures (total - out + into) % 10 == 0 <==> out == into
  {
    assert total == 10 * (total / 10);
  }

  /** Changing one digit of a valid number always makes it invalid. */
  lemma SingleDigitError(ds: Digits, k: nat, d: DigitValue)
    requires k < |ds| && LuhnOk(ds)
    ensures LuhnOk(ds[k := d]) <==> d == ds[k]
  {
    TotalUpdate(ds, k, d);
    Exchange(Total(ds), Weight(ds[k], |ds| - 1 - k), Weight(d, |ds| - 1 - k));
  }

  /** A number of zeros only is valid. */
  lemma {:induction false} ZerosAreValid(n: nat)
    ensures Total(seq(n, _ => 0)) == 0 && LuhnOk(seq(n, _ => 0))
    decreases n
  {
    if n > 0 {
      var zeros: Digits := seq(n, _ => 0);
      var fewer: Digits := seq(n - 1, _ => 0);
      assert zeros[1..] == fewer;
      ZerosAreValid(n - 1);
    }
  }

  /** So a number with one digit that is not 0 is not valid. */
  lemma OneDigitIsInvalid(n: nat, k: nat, d: DigitValue)
    requires k < n && d != 0
    ensures var zeros: Digits := seq(n, _ => 0); !LuhnOk(zeros[k := d])
  {
    ZerosAreValid(n);
    SingleDigitError(seq(n, _ => 0), k, d);
  }

  function Swapped(ds: Digits, k: nat): Digits
    requires k + 1 < |ds|
  {
    ds[k := ds[k + 1]][k + 1 := ds[k]]
  }

  /** Swapping two adjacent digits of a valid number is noticed unless they are equal, or 0 and 9. */
  lemma AdjacentSwapError(ds: Digits, k: nat)
    requires k + 1 < |ds| && LuhnOk(ds)
    ensures LuhnOk(Swapped(ds, k)) <==>
            ds[k] == ds[k + 1] || (ds[k] == 0 && ds[k + 1] == 9) || (ds[k] == 9 && ds[k + 1] == 0)
  {
    var a, b, index := ds[k], ds[k + 1], |ds| - 1 - k;
    hide Weight;
    TotalUpdate(ds, k, b);
    TotalUpdate(ds[k := b], k + 1, a);
    ExchangePair(Total(ds), a, b, index);
  }

  /** What a digit gains by being doubled. */
  function Gain(d: DigitValue): int {
    Doubled(d) - d
  }

  lemma SameGain(a: DigitValue, b: DigitValue)
    ensures -4 <= Gain(a) <= 4
    ensures Gain(a) == Gain(b) <==> a == b || (a == 0 && b == 9) || (a == 9 && b == 0)
  {}

  lemma SmallChange(total: nat, change: int)
    requires total % 10 == 0 && -10 < change < 10
    ensures (total + change) % 10 == 0 <==> change == 0
  {
    assert total == 10 * (total / 10);
  }

  lemma ExchangePair(total: nat, a: DigitValue, b: DigitValue, index: nat)
    requires total % 10 == 0 && index > 0
    ensures (total - Weight(a, index) + Weight(b, index) - Weight(b, index - 1) + Weight(a, index - 1)) % 10 == 0
            <==> a == b || (a == 0 && b == 9) || (a == 9 && b == 0)
  {
    hide Doubled;
    SameGain(a, b);
    SameGain(b, a);
    SmallChange(total, if index % 2 == 1 then Gain(b) - Gain(a) else Gain(a) - Gain(b));
  }

  /** Every number has exactly one check digit. */
  lemma CheckDigit(ds: Digits) returns (c: DigitValue)
    ensures forall d: DigitValue :: LuhnOk(ds + [d]) <==> d == c
  {
    hide Weight;
    var t := Total(ds + [0]);
    c := (10 - t % 10) % 10;
    forall d: DigitValue
      ensures LuhnOk(ds + [d]) <==> d == c
    {
      TotalUpdate(ds + [0], |ds|, d);
      assert (ds + [0])[|ds| := d] == ds + [d];
      LastDigit(d);
      LastDigit(0);
      Completes(t, d);
    }
  }

  lemma LastDigit(d: DigitValue)
    ensures Weight(d, 0) == d
  {}

  lemma Completes(t: nat, d: DigitValue)
    ensures (t + d) % 10 == 0 <==> d == (10 - t % 10) % 10
  {
    assert t == 10 * (t / 10) + t % 10;
  }

  /** `_is_card`: the digits of a candidate span, whatever separates them. */
  function DigitsOf(t: Text): Digits {
    if t == [] then []
    else (if IsDigit(t[0]) then [ValueOf(t[0])] else []) + DigitsOf(t[1..])
  }

  predicate IsCard(t: Text) {
    13 <= |DigitsOf(t)| <= 19 && LuhnOk(DigitsOf(t))
  }
}
