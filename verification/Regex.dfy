/** Backtracking regular expressions: the fragment of Python's `re` that the redactor's patterns use,
    and what a match at one position can depend on. */
module Regex {
  import opened Symbols

  datatype Re =
    | Empty
    | One(cc: CharClass)             // one character of a class
    | Cat(first: Re, second: Re)
    | Alt(left: Re, right: Re)       // ordered alternation
    | NotBehind(cc: CharClass)       // (?<![...])
    | NotAhead(body: Re)             // (?!...)
    | Boundary                       // \b

  /** Greedy `re{lo,hi}`: as many as possible first. */
  function Repeat(re: Re, lo: nat, hi: nat): Re
    decreases hi
  {
    if hi == 0 then Empty
    else if lo > 0 then Cat(re, Repeat(re, lo - 1, hi - 1))
    else Alt(Cat(re, Repeat(re, 0, hi - 1)), Empty)
  }

  predicate WordAt(t: Text, i: int) {
    0 <= i < |t| && IsWord(t[i])
  }

  /** The ends of all matches of `re` that start at `i`, in the order in which backtracking finds
      them; the first one is the match that `re` reports. */
  function Ends(re: Re, t: Text, i: nat): seq<nat>
    decreases re, 0
  {
    match re
    case Empty => [i]
    case One(cc) => if i < |t| && cc.Has(t[i]) then [i + 1] else []
    case Cat(a, b) => EndsAll(b, t, Ends(a, t, i))
    case Alt(a, b) => Ends(a, t, i) + Ends(b, t, i)
    case NotBehind(cc) => if 0 < i <= |t| && cc.Has(t[i - 1]) then [] else [i]
    case NotAhead(r) => if Ends(r, t, i) == [] then [i] else []
    case Boundary => if WordAt(t, i - 1) != WordAt(t, i) then [i] else []
  }

  function EndsAll(re: Re, t: Text, starts: seq<nat>): seq<nat>
    decreases re, 1 + |starts|
  {
    if starts == [] then [] else Ends(re, t, starts[0]) + EndsAll(re, t, starts[1..])
  }

  /** Evaluating `re` at `i` looks at the end of the text, or beyond it. */
  predicate Touches(re: Re, t: Text, i: nat) {
    match re
    case Empty => false
    case One(_) => i >= |t|
    case Cat(a, b) => Touches(a, t, i) || exists m <- Ends(a, t, i) :: Touches(b, t, m)
    case Alt(a, b) => Touches(a, t, i) || Touches(b, t, i)
    case NotBehind(_) => false
    case NotAhead(r) => Touches(r, t, i)
    case Boundary => i >= |t|
  }

  function Max(a: nat, b: nat): nat { if a < b then b else a }
  function Min(a: nat, b: nat): nat { if a < b then a else b }

  function MinLen(re: Re): nat {
    match re
    case One(_) => 1
    case Cat(a, b) => MinLen(a) + MinLen(b)
    case Alt(a, b) => Min(MinLen(a), MinLen(b))
    case _ => 0
  }

  /** How many characters from its starting position on evaluation can look at. No match is longer. */
  function Extent(re: Re): nat {
    match re
    case One(_) => 1
    case Boundary => 1
    case Cat(a, b) => Extent(a) + Extent(b)
    case Alt(a, b) => Max(Extent(a), Extent(b))
    case NotAhead(r) => Extent(r)
    case _ => 0
  }

  /** Everything `re` reads ahead is a character of `head` at its starting position and a character
      of `rest` after it. */
  predicate Fits(re: Re, head: CharClass, rest: CharClass) {
    match re
    case One(cc) => cc.Within(head)
    case Cat(a, b) =>
      && Fits(a, head, rest)
      && (MinLen(a) == 0 ==> Fits(b, head, rest))
      && (Extent(a) > 0 ==> Fits(b, rest, rest))
    case Alt(a, b) => Fits(a, head, rest) && Fits(b, head, rest)
    case NotAhead(r) => Fits(r, head, rest)
    case _ => true
  }

  /** `t[i..e]` starts with a character of `head` and goes on with characters of `rest`. */
  predicate Consists(t: Text, i: nat, e: nat, head: CharClass, rest: CharClass)
    requires e <= |t|
    decreases e - i
  {
    i >= e || (head.Has(t[i]) && Consists(t, i + 1, e, rest, rest))
  }

  lemma {:induction false} ConsistsJoin(t: Text, i: nat, m: nat, e: nat, head: CharClass, rest: CharClass)
    requires i <= m <= e <= |t| && Consists(t, i, m, head, rest)
    requires Consists(t, m, e, if m == i then head else rest, rest)
    ensures Consists(t, i, e, head, rest)
    decreases m - i
  {
    if i < m {
      ConsistsJoin(t, i + 1, m, e, rest, rest);
    }
  }

  lemma {:induction false} EndsAllMembers(re: Re, t: Text, starts: seq<nat>, e: nat)
    ensures e in EndsAll(re, t, starts) <==> exists m <- starts :: e in Ends(re, t, m)
  {
    if starts != [] {
      EndsAllMembers(re, t, starts[1..], e);
      assert starts[0] in starts && forall m :: m in starts ==> m == starts[0] || m in starts[1..];
      assert e in EndsAll(re, t, starts) <==> e in Ends(re, t, starts[0]) || e in EndsAll(re, t, starts[1..]);
    }
  }

  /** Lengths of matches. */
  lemma {:induction false} EndsBounded(re: Re, t: Text, i: nat, e: nat)
    requires i <= |t| && e in Ends(re, t, i)
    ensures i + MinLen(re) <= e <= i + Extent(re)
    ensures e <= |t|
  {
    match re
    case Cat(a, b) =>
      EndsAllMembers(b, t, Ends(a, t, i), e);
      var m :| m in Ends(a, t, i) && e in Ends(b, t, m);
      EndsBounded(a, t, i, m);
      EndsBounded(b, t, m, e);
    case Alt(a, b) =>
      if e in Ends(a, t, i) { EndsBounded(a, t, i, e); } else { EndsBounded(b, t, i, e); }
    case _ =>
  }

  /** Every match of `re` has a character of the class. */
  predicate Needs(re: Re, cc: CharClass) {
    match re
    case One(c) => c == cc
    case Cat(a, b) => Needs(a, cc) || Needs(b, cc)
    case Alt(a, b) => Needs(a, cc) && Needs(b, cc)
    case _ => false
  }

  lemma {:induction false} NeededIsThere(re: Re, cc: CharClass, t: Text, i: nat, e: nat) returns (k: nat)
    requires i <= |t| && e in Ends(re, t, i) && Needs(re, cc)
    ensures k < |t| && cc.Has(t[k])
  {
    match re
    case One(_) => k := i;
    case Cat(a, b) =>
      EndsAllMembers(b, t, Ends(a, t, i), e);
      var m :| m in Ends(a, t, i) && e in Ends(b, t, m);
      EndsBounded(a, t, i, m);
      if Needs(a, cc) { k := NeededIsThere(a, cc, t, i, m); } else { k := NeededIsThere(b, cc, t, m, e); }
    case Alt(a, b) =>
      if e in Ends(a, t, i) { k := NeededIsThere(a, cc, t, i, e); } else { k := NeededIsThere(b, cc, t, i, e); }
  }

  /** What a match consumes. */
  lemma {:induction false} EndsConsist(re: Re, t: Text, i: nat, e: nat, head: CharClass, rest: CharClass)
    requires i <= |t| && e in Ends(re, t, i) && Fits(re, head, rest)
    ensures e <= |t| && Consists(t, i, e, head, rest)
  {
    EndsBounded(re, t, i, e);
    match re
    case Cat(a, b) =>
      EndsAllMembers(b, t, Ends(a, t, i), e);
      var m :| m in Ends(a, t, i) && e in Ends(b, t, m);
      EndsBounded(a, t, i, m);
      EndsConsist(a, t, i, m, head, rest);
      EndsConsist(b, t, m, e, if m == i then head else rest, rest);
      EndsBounded(b, t, m, e);
      ConsistsJoin(t, i, m, e, head, rest);
    case Alt(a, b) =>
      if e in Ends(a, t, i) {
        EndsConsist(a, t, i, e, head, rest);
      } else {
        EndsConsist(b, t, i, e, head, rest);
      }
    case _ =>
  }

  /** A pattern that looks at the end of the text could read all of the text before it: what is left
      is shorter than its extent and made of its characters. */
  lemma {:induction false} TouchConsists(re: Re, t: Text, i: nat, head: CharClass, rest: CharClass)
    requires i <= |t| && Touches(re, t, i) && Fits(re, head, rest)
    ensures |t| - i < Extent(re)
    ensures Consists(t, i, |t|, head, rest)
  {
    match re
    case Cat(a, b) =>
      if Touches(a, t, i) {
        TouchConsists(a, t, i, head, rest);
      } else {
        var m :| m in Ends(a, t, i) && Touches(b, t, m);
        EndsBounded(a, t, i, m);
        EndsConsist(a, t, i, m, head, rest);
        TouchConsists(b, t, m, if m == i then head else rest, rest);
        ConsistsJoin(t, i, m, |t|, head, rest);
      }
    case Alt(a, b) =>
      if Touches(a, t, i) {
        TouchConsists(a, t, i, head, rest);
      } else {
        TouchConsists(b, t, i, head, rest);
      }
    case NotAhead(r) => TouchConsists(r, t, i, head, rest);
    case _ =>
  }

  function Shifted(es: seq<nat>, k: nat): seq<nat> {
    seq(|es|, j requires 0 <= j < |es| => es[j] + k)
  }

  /** A match depends only on the text it looks at: text far to the left never matters, except the
      one character before the starting position, and text to the right matters only to a pattern
      that looks at the end. */
  lemma {:induction false} EndsLocal(re: Re, left: Text, t: Text, right: Text, i: nat)
    requires i <= |t| && (left == [] || i > 0)
    requires right == [] || !Touches(re, t, i)
    ensures Ends(re, left + t + right, |left| + i) == Shifted(Ends(re, t, i), |left|)
    decreases re, 0
  {
    match re
    case Cat(a, b) =>
      EndsLocal(a, left, t, right, i);
      forall m | m in Ends(a, t, i) ensures i <= m <= |t| { EndsBounded(a, t, i, m); }
      EndsAllLocal(b, left, t, right, Ends(a, t, i));
    case Alt(a, b) =>
      EndsLocal(a, left, t, right, i);
      EndsLocal(b, left, t, right, i);
      ShiftedConcat(Ends(a, t, i), Ends(b, t, i), |left|);
    case NotAhead(r) => EndsLocal(r, left, t, right, i);
    case _ => LeafLocal(re, left, t, right, i);
  }

  lemma ShiftedConcat(a: seq<nat>, b: seq<nat>, k: nat)
    ensures Shifted(a + b, k) == Shifted(a, k) + Shifted(b, k)
  {}

  lemma LeafLocal(re: Re, left: Text, t: Text, right: Text, i: nat)
    requires re.Empty? || re.One? || re.NotBehind? || re.Boundary?
    requires i <= |t| && (left == [] || i > 0)
    requires right == [] || !Touches(re, t, i)
    ensures Ends(re, left + t + right, |left| + i) == Shifted(Ends(re, t, i), |left|)
  {
    var whole := left + t + right;
    assert i < |t| ==> whole[|left| + i] == t[i];
    assert i > 0 ==> whole[|left| + i - 1] == t[i - 1];
  }

  lemma {:induction false} EndsAllLocal(re: Re, left: Text, t: Text, right: Text, starts: seq<nat>)
    requires forall m | m in starts :: m <= |t| && (left == [] || m > 0) && (right == [] || !Touches(re, t, m))
    ensures EndsAll(re, left + t + right, Shifted(starts, |left|)) == Shifted(EndsAll(re, t, starts), |left|)
    decreases re, 1 + |starts|
  {
    if starts != [] {
      hide Touches, Ends;
      assert starts[0] in starts && forall m | m in starts[1..] :: m in starts;
      EndsLocal(re, left, t, right, starts[0]);
      EndsAllLocal(re, left, t, right, starts[1..]);
      assert Shifted(starts, |left|)[1..] == Shifted(starts[1..], |left|);
      ShiftedConcat(Ends(re, t, starts[0]), EndsAll(re, t, starts[1..]), |left|);
    }
  }
}
