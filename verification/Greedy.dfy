/** How the search goes on after each kind of pattern: which ends it finds, and in which order. */
module Greedy {
  import opened Symbols
  import opened Regex
  import opened Patterns
  import opened Shapes

  // Greedy repetition tries the longest run first

  predicate Descending(es: seq<nat>) {
    es == [] || ((forall e <- es[1..] :: e < es[0]) && Descending(es[1..]))
  }

  lemma {:induction false} DescendingPlus(es: seq<nat>, e: nat)
    requires Descending(es) && forall x <- es :: e < x
    ensures Descending(es + [e])
  {
    if es == [] {
      assert [e][1..] == [];
    } else {
      assert (es + [e])[1..] == es[1..] + [e] && forall x <- es[1..] :: x in es;
      DescendingPlus(es[1..], e);
      assert es[0] in es;
    }
  }

  lemma OneThen(cc: CharClass, re: Re, t: Text, i: nat)
    ensures Ends(Cat(One(cc), re), t, i) == if i < |t| && cc.Has(t[i]) then Ends(re, t, i + 1) else []
    ensures Touches(Cat(One(cc), re), t, i) <==> i >= |t| || (cc.Has(t[i]) && Touches(re, t, i + 1))
  {
    var es := Ends(One(cc), t, i);
    assert EndsAll(re, t, es) == if es == [] then [] else Ends(re, t, i + 1) + EndsAll(re, t, es[1..]);
  }

  lemma {:induction false} RunEnds(cc: CharClass, lo: nat, hi: nat, t: Text, i: nat)
    requires lo <= hi && i <= |t|
    ensures var es := Ends(Repeat(One(cc), lo, hi), t, i);
            && Descending(es)
            && (forall e: nat :: e in es <==> i + lo <= e <= i + hi && e <= |t| && Consists(t, i, e, cc, cc))
    decreases hi
  {
    if hi == 0 {
      assert [i][1..] == [];
    } else {
      var more := Repeat(One(cc), if lo > 0 then lo - 1 else 0, hi - 1);
      var es := if i < |t| && cc.Has(t[i]) then Ends(more, t, i + 1) else [];
      if i < |t| {
        RunEnds(cc, if lo > 0 then lo - 1 else 0, hi - 1, t, i + 1);
      }
      OneThen(cc, more, t, i);
      if lo == 0 {
        DescendingPlus(es, i);
      }
    }
  }

  /** Of several starts in descending order, the first one that has a match at all gives the match. */
  lemma {:induction false} FirstEnd(re: Re, t: Text, starts: seq<nat>, m: nat)
    requires Descending(starts) && m in starts && Ends(re, t, m) != []
    requires forall x <- starts | x > m :: Ends(re, t, x) == []
    ensures EndsAll(re, t, starts) != [] && EndsAll(re, t, starts)[0] == Ends(re, t, m)[0]
  {
    if starts[0] != m {
      assert m in starts[1..] && forall x <- starts[1..] :: x in starts;
      FirstEnd(re, t, starts[1..], m);
    }
  }

  lemma {:induction false} ConsistsAt(t: Text, i: nat, e: nat, cc: CharClass, k: nat)
    requires i <= k < e <= |t| && Consists(t, i, e, cc, cc)
    ensures cc.Has(t[k])
    decreases k - i
  {
    if i < k {
      ConsistsAt(t, i + 1, e, cc, k);
    }
  }

  // One thing and then another

  lemma {:induction false} EndsAllJoin(re: Re, t: Text, a: seq<nat>, b: seq<nat>)
    ensures EndsAll(re, t, a + b) == EndsAll(re, t, a) + EndsAll(re, t, b)
  {
    if a == [] {
      assert a + b == b;
    } else {
      hide Ends;
      EndsAllJoin(re, t, a[1..], b);
      assert (a + b)[1..] == a[1..] + b;
      Associative(Ends(re, t, a[0]), EndsAll(re, t, a[1..]), EndsAll(re, t, b));
    }
  }

  lemma EndsAllOne(re: Re, t: Text, i: nat)
    ensures EndsAll(re, t, [i]) == Ends(re, t, i)
  {
    assert [i][1..] == [] && EndsAll(re, t, []) == [];
  }

  lemma {:induction false} EndsAllNest(b: Re, c: Re, t: Text, starts: seq<nat>)
    ensures EndsAll(c, t, EndsAll(b, t, starts)) == EndsAll(Cat(b, c), t, starts)
  {
    if starts != [] {
      EndsAllNest(b, c, t, starts[1..]);
      EndsAllJoin(c, t, Ends(b, t, starts[0]), EndsAll(b, t, starts[1..]));
    }
  }

  lemma CatAssociates(a: Re, b: Re, c: Re, t: Text, i: nat)
    ensures Ends(Cat(Cat(a, b), c), t, i) == Ends(Cat(a, Cat(b, c)), t, i)
  {
    EndsAllNest(b, c, t, Ends(a, t, i));
  }

  lemma AltThen(a: Re, b: Re, re: Re, t: Text, i: nat)
    ensures Ends(Cat(Alt(a, b), re), t, i) == Ends(Cat(a, re), t, i) + Ends(Cat(b, re), t, i)
  {
    EndsAllJoin(re, t, Ends(a, t, i), Ends(b, t, i));
  }

  lemma EmptyThen(re: Re, t: Text, i: nat)
    ensures Ends(Cat(Empty, re), t, i) == Ends(re, t, i)
  {
    EndsAllOne(re, t, i);
  }

  lemma OptionalThen(a: Re, re: Re, t: Text, i: nat)
    ensures Ends(Cat(Optional(a), re), t, i) == Ends(Cat(a, re), t, i) + Ends(re, t, i)
  {
    AltThen(a, Empty, re, t, i);
    EmptyThen(re, t, i);
  }

  lemma NotBehindThen(cc: CharClass, re: Re, t: Text, i: nat)
    ensures Ends(Cat(NotBehind(cc), re), t, i) == if 0 < i <= |t| && cc.Has(t[i - 1]) then [] else Ends(re, t, i)
  {
    EndsAllOne(re, t, i);
    assert Ends(NotBehind(cc), t, i) == if 0 < i <= |t| && cc.Has(t[i - 1]) then [] else [i];
  }

  lemma NotAheadThen(a: Re, re: Re, t: Text, i: nat)
    ensures Ends(Cat(NotAhead(a), re), t, i) == if Ends(a, t, i) == [] then Ends(re, t, i) else []
  {
    EndsAllOne(re, t, i);
    assert Ends(NotAhead(a), t, i) == if Ends(a, t, i) == [] then [i] else [];
  }

  lemma BoundaryThen(re: Re, t: Text, i: nat)
    ensures Ends(Cat(Boundary, re), t, i) == if WordAt(t, i - 1) != WordAt(t, i) then Ends(re, t, i) else []
  {
    EndsAllOne(re, t, i);
    assert Ends(Boundary, t, i) == if WordAt(t, i - 1) != WordAt(t, i) then [i] else [];
  }

  lemma CharThen(c: char, re: Re, t: Text, i: nat)
    ensures Ends(Cat(Char(c), re), t, i) == if IsChar(t, i, c) then Ends(re, t, i + 1) else []
    ensures Touches(Cat(Char(c), re), t, i) <==> i >= |t| || (IsChar(t, i, c) && Touches(re, t, i + 1))
  {
    OneThen(CharClass(false, false, false, {c}), re, t, i);
  }

  lemma {:induction false} LiteralThen(s: string, re: Re, t: Text, i: nat)
    ensures Ends(Cat(Literal(s), re), t, i) == if TextAt(t, i, s) then Ends(re, t, i + |s|) else []
  {
    hide Ends, IsChar;
    if s == "" {
      EmptyThen(re, t, i);
    } else {
      CatAssociates(Char(s[0]), Literal(s[1..]), re, t, i);
      CharThen(s[0], Cat(Literal(s[1..]), re), t, i);
      LiteralThen(s[1..], re, t, i + 1);
    }
  }

  lemma LiteralEnds(s: string, t: Text, i: nat)
    ensures Ends(Literal(s), t, i) == if TextAt(t, i, s) then [i + |s|] else []
  {
    LiteralThen(s, Empty, t, i);
    ThenNothing(Literal(s), t, i);
    assert Ends(Empty, t, i + |s|) == [i + |s|];
  }

  lemma {:induction false} AllThenNothing(t: Text, starts: seq<nat>)
    ensures EndsAll(Empty, t, starts) == starts
  {
    if starts != [] {
      AllThenNothing(t, starts[1..]);
      assert starts == [starts[0]] + starts[1..];
    }
  }

  lemma ThenNothing(re: Re, t: Text, i: nat)
    ensures Ends(Cat(re, Empty), t, i) == Ends(re, t, i)
  {
    AllThenNothing(t, Ends(re, t, i));
  }

  // Several starts

  lemma {:induction false} DescendingJoin(a: seq<nat>, b: seq<nat>)
    requires Descending(a) && Descending(b) && forall x <- a, y <- b :: x > y
    ensures Descending(a + b)
  {
    if a == [] {
      assert a + b == b;
    } else {
      assert (a + b)[1..] == a[1..] + b && a[0] in a && forall x <- a[1..] :: x in a;
      DescendingJoin(a[1..], b);
    }
  }

  /** What is found from a start is descending, and beyond what is found from any earlier position. */
  ghost predicate Ordered(re: Re, t: Text, starts: seq<nat>) {
    && (forall x <- starts :: Descending(Ends(re, t, x)))
    && (forall x <- starts, y <- starts | x > y :: forall e <- Ends(re, t, x), f <- Ends(re, t, y) :: e > f)
  }

  lemma {:induction false} EndsAllDescending(re: Re, t: Text, starts: seq<nat>)
    requires Descending(starts) && Ordered(re, t, starts)
    ensures Descending(EndsAll(re, t, starts))
  {
    if starts != [] {
      hide Ends;
      var first, rest := starts[0], starts[1..];
      assert first in starts && forall x <- rest :: x in starts;
      EndsAllDescending(re, t, rest);
      forall e <- Ends(re, t, first), f <- EndsAll(re, t, rest) ensures e > f {
        EndsAllMembers(re, t, rest, f);
      }
      DescendingJoin(Ends(re, t, first), EndsAll(re, t, rest));
    }
  }

  lemma {:induction false} HeadIsGreatest(es: seq<nat>)
    requires Descending(es)
    ensures forall e <- es :: e <= es[0]
  {
    if es != [] {
      HeadIsGreatest(es[1..]);
      assert forall e <- es :: e == es[0] || e in es[1..];
    }
  }
}
