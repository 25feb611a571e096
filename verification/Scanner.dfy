/** `iter_matches`: the scan for personal data, left to right, with the Luhn filter. */
module Scanner {
  import opened Symbols
  import opened Regex
  import opened Patterns
  import opened Luhn

  datatype Option<T> = None | Some(value: T)

  datatype Match = Match(name: Label, start: nat, end: nat)

  /** COMBINED.match at one position: the first pattern that matches there, and its first match. */
  function MatchAt(rules: RuleSet, t: Text, i: nat): Option<Match> {
    if rules == [] then None
    else
      var es := Ends(rules[0].re, t, i);
      if es != [] then Some(Match(rules[0].name, i, es[0])) else MatchAt(rules[1..], t, i)
  }

  predicate RejectedCard(t: Text, m: Match) {
    m.name == CREDIT_CARD && m.start <= m.end <= |t| && !IsCard(t[m.start..m.end])
  }

  /** What the scan makes of one position: a match, unless the first one is a run of digits that is
      not a card. */
  function Found(rules: RuleSet, t: Text, i: nat): Option<Match> {
    match MatchAt(rules, t, i)
    case None => None
    case Some(m) => if RejectedCard(t, m) then None else Some(m)
  }

  lemma {:induction false} MatchBounded(rules: RuleSet, t: Text, i: nat)
    requires i <= |t| && MatchAt(rules, t, i).Some?
    ensures var m := MatchAt(rules, t, i).value; m.start == i < m.end <= |t|
  {
    var es := Ends(rules[0].re, t, i);
    if es != [] {
      EndsBounded(rules[0].re, t, i, es[0]);
    } else {
      MatchBounded(rules[1..], t, i);
    }
  }

  lemma {:induction false} MatchNotTooLong(rules: RuleSet, t: Text, i: nat, longest: nat)
    requires i <= |t| && MatchAt(rules, t, i).Some? && Longest(rules, longest)
    ensures MatchAt(rules, t, i).value.end - i <= longest
  {
    var es := Ends(rules[0].re, t, i);
    if es != [] {
      EndsBounded(rules[0].re, t, i, es[0]);
    } else {
      MatchNotTooLong(rules[1..], t, i, longest);
    }
  }

  /** COMBINED.search from `pos`: the leftmost position with a match. */
  function Search(rules: RuleSet, t: Text, pos: nat): Option<Match>
    decreases |t| - pos
  {
    if pos > |t| then None
    else if MatchAt(rules, t, pos).Some? then MatchAt(rules, t, pos)
    else Search(rules, t, pos + 1)
  }

  /** One decision for every position of a text: the match that a scan arriving there yields. */
  type Decisions = ds: seq<Option<Match>> | Proper(ds) witness []

  predicate Proper(ds: seq<Option<Match>>) {
    forall i | 0 <= i < |ds| && ds[i].Some? :: ds[i].value.start == i < ds[i].value.end <= |ds|
  }

  function DecideUpTo(rules: RuleSet, t: Text, n: nat): (ds: seq<Option<Match>>)
    requires n <= |t|
    ensures |ds| == n
  {
    if n == 0 then [] else DecideUpTo(rules, t, n - 1) + [Found(rules, t, n - 1)]
  }

  function Decide(rules: RuleSet, t: Text): (ds: Decisions)
    ensures |ds| == |t|
  {
    DecideProper(rules, t);
    DecideUpTo(rules, t, |t|)
  }

  lemma {:induction false} DecidesFound(rules: RuleSet, t: Text, n: nat, i: nat)
    requires i < n <= |t|
    ensures DecideUpTo(rules, t, n)[i] == Found(rules, t, i)
    decreases n
  {
    if i < n - 1 {
      DecidesFound(rules, t, n - 1, i);
    }
  }

  lemma DecideProper(rules: RuleSet, t: Text)
    ensures Proper(DecideUpTo(rules, t, |t|))
  {
    forall i | 0 <= i < |t| && DecideUpTo(rules, t, |t|)[i].Some?
      ensures var m := DecideUpTo(rules, t, |t|)[i].value; m.start == i < m.end <= |t|
    {
      DecidesFound(rules, t, |t|, i);
      MatchBounded(rules, t, i);
    }
  }

  /** The matches that a scan from `pos` yields. */
  function Scan(ds: Decisions, pos: nat): seq<Match>
    decreases |ds| - pos
  {
    if pos >= |ds| then []
    else match ds[pos]
      case None => Scan(ds, pos + 1)
      case Some(m) => [m] + Scan(ds, m.end)
  }

  lemma {:induction false} SearchSkips(rules: RuleSet, t: Text, pos: nat)
    requires pos <= |t|
    ensures match Search(rules, t, pos)
            case None => Scan(Decide(rules, t), pos) == []
            case Some(m) =>
              && pos <= m.start < m.end <= |t|
              && MatchAt(rules, t, m.start) == Some(m)
              && Scan(Decide(rules, t), pos) == Scan(Decide(rules, t), m.start)
    decreases |t| - pos
  {
    if MatchAt(rules, t, pos).Some? {
      MatchBounded(rules, t, pos);
    } else if pos < |t| {
      DecidesFound(rules, t, |t|, pos);
      SearchSkips(rules, t, pos + 1);
    }
  }

  method IterMatches(rules: RuleSet, t: Text, start: nat) returns (ms: seq<Match>)
    requires start <= |t|
    ensures ms == Scan(Decide(rules, t), start)
  {
    ghost var ds := Decide(rules, t);
    ms := [];
    var pos := start;
    while true
      invariant start <= pos <= |t|
      invariant ms + Scan(ds, pos) == Scan(ds, start)
      decreases |t| - pos
    {
      SearchSkips(rules, t, pos);
      var found := Search(rules, t, pos);
      if found == None {
        return;
      }
      var m := found.value;
      DecidesFound(rules, t, |t|, m.start);
      if RejectedCard(t, m) {
        pos := m.start + 1;
      } else {
        ms := ms + [m];
        pos := m.end;
      }
    }
  }

  /** Spans in order, disjoint, not empty, from `from` on and within `limit`. */
  predicate InOrder(ms: seq<Match>, from: nat, limit: nat) {
    ms == [] || (from <= ms[0].start < ms[0].end <= limit && InOrder(ms[1..], ms[0].end, limit))
  }

  lemma {:induction false} ScanInOrder(ds: Decisions, pos: nat)
    ensures InOrder(Scan(ds, pos), pos, |ds|)
    decreases |ds| - pos
  {
    if pos < |ds| {
      match ds[pos]
      case None =>
        ScanInOrder(ds, pos + 1);
      case Some(m) =>
        ScanInOrder(ds, m.end);
        assert Scan(ds, pos)[1..] == Scan(ds, m.end);
    }
  }

  lemma {:induction false} SpansWithin(ms: seq<Match>, from: nat, limit: nat)
    requires InOrder(ms, from, limit)
    ensures forall m <- ms :: from <= m.start < m.end <= limit
  {
    if ms != [] {
      SpansWithin(ms[1..], ms[0].end, limit);
      assert forall m <- ms :: m == ms[0] || m in ms[1..];
    }
  }

  predicate Inside(ms: seq<Match>, p: nat) {
    exists m <- ms :: m.start <= p < m.end
  }

  predicate Interior(ms: seq<Match>, p: nat) {
    exists m <- ms :: m.start < p < m.end
  }

  /** What a scan has to be, whatever computes it: spans in order, each of them what its own position
      offers, and nothing to be found at any position outside them. */
  predicate IsScan(ds: Decisions, pos: nat, ms: seq<Match>) {
    && InOrder(ms, pos, |ds|)
    && (forall m <- ms :: m.start < |ds| && ds[m.start] == Some(m))
    && (forall p | pos <= p < |ds| && !Inside(ms, p) :: ds[p] == None)
  }

  lemma {:induction false} ScanIsScan(ds: Decisions, pos: nat)
    ensures IsScan(ds, pos, Scan(ds, pos))
    decreases |ds| - pos
  {
    ScanInOrder(ds, pos);
    if pos < |ds| {
      match ds[pos]
      case None =>
        ScanIsScan(ds, pos + 1);
      case Some(m) =>
        ScanIsScan(ds, m.end);
        var ms, rest := Scan(ds, pos), Scan(ds, m.end);
        assert ms == [m] + rest;
        forall p | pos <= p < |ds| && !Inside(ms, p)
          ensures ds[p] == None
        {
          assert m in ms && p >= m.end;
          assert Inside(rest, p) ==> Inside(ms, p);
        }
    }
  }

  lemma ScanTail(ds: Decisions, pos: nat, ms: seq<Match>)
    requires IsScan(ds, pos, ms) && ms != [] && ms[0].start == pos
    ensures ds[pos] == Some(ms[0]) && IsScan(ds, ms[0].end, ms[1..])
  {
    var m, rest := ms[0], ms[1..];
    SpansWithin(rest, m.end, |ds|);
    assert m in ms && forall x <- rest :: x in ms;
    assert forall x <- ms :: x == m || x in rest;
    assert forall p | m.end <= p && Inside(ms, p) :: Inside(rest, p);
  }

  lemma ScanLater(ds: Decisions, pos: nat, ms: seq<Match>)
    requires IsScan(ds, pos, ms) && pos < |ds| && (ms == [] || ms[0].start != pos)
    ensures ds[pos] == None && IsScan(ds, pos + 1, ms)
  {
    assert InOrder(ms, pos + 1, |ds|);
    SpansWithin(ms, pos + 1, |ds|);
    assert !Inside(ms, pos);
  }

  /** There is only one such scan, so `iter_matches` yields it. */
  lemma {:induction false} ScanUnique(ds: Decisions, pos: nat, ms: seq<Match>)
    requires IsScan(ds, pos, ms)
    ensures ms == Scan(ds, pos)
    decreases |ds| - pos
  {
    if ms != [] && ms[0].start == pos {
      ScanTail(ds, pos, ms);
      ScanUnique(ds, ms[0].end, ms[1..]);
    } else if pos < |ds| {
      ScanLater(ds, pos, ms);
      ScanUnique(ds, pos + 1, ms);
    }
  }

  function UpTo(ms: seq<Match>, end: nat): seq<Match> {
    if ms == [] || ms[0].end > end then [] else [ms[0]] + UpTo(ms[1..], end)
  }

  /** Restarting the scan anywhere but strictly inside a span yields exactly the remaining spans. */
  lemma {:induction false} ScanRestarts(ds: Decisions, pos: nat, p: nat)
    requires pos <= p && !Interior(Scan(ds, pos), p)
    ensures Scan(ds, pos) == UpTo(Scan(ds, pos), p) + Scan(ds, p)
    decreases |ds| - pos
  {
    var ms := Scan(ds, pos);
    if pos == p || pos >= |ds| {
      ScanInOrder(ds, pos);
    } else {
      match ds[pos]
      case None =>
        ScanRestarts(ds, pos + 1, p);
      case Some(m) =>
        assert m in ms && ms[1..] == Scan(ds, m.end);
        assert forall x <- ms[1..] :: x in ms;
        ScanRestarts(ds, m.end, p);
    }
  }
}
