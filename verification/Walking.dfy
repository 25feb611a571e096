/** Redaction as a walk along the text, one position at a time: the reference that the scan, the
    emitter and the straddle guard are compared with. */
module Walking {
  import opened Symbols
  import opened Patterns
  import opened Scanner
  import opened Redaction

  /** What becomes of a stretch of text, character by character and match by match. */
  datatype Trace =
    | Done
    | Copied(s: Symbol, rest: Trace)
    | Replaced(name: Label, rest: Trace)
  {
    function Then(next: Trace): Trace {
      match this
      case Done => next
      case Copied(s, rest) => Copied(s, rest.Then(next))
      case Replaced(name, rest) => Replaced(name, rest.Then(next))
    }

    function Render(placeholder: Text): Text {
      match this
      case Done => []
      case Copied(s, rest) => [s] + rest.Render(placeholder)
      case Replaced(_, rest) => placeholder + rest.Render(placeholder)
    }

    function Names(): multiset<Label> {
      match this
      case Done => multiset{}
      case Copied(_, rest) => rest.Names()
      case Replaced(name, rest) => multiset{name} + rest.Names()
    }
  }

  lemma {:induction false} RenderThen(a: Trace, b: Trace, placeholder: Text)
    ensures a.Then(b).Render(placeholder) == a.Render(placeholder) + b.Render(placeholder)
    ensures a.Then(b).Names() == a.Names() + b.Names()
  {
    match a
    case Done =>
    case Copied(s, rest) =>
      RenderThen(rest, b, placeholder);
      Associative([s], rest.Render(placeholder), b.Render(placeholder));
    case Replaced(_, rest) =>
      RenderThen(rest, b, placeholder);
      Associative(placeholder, rest.Render(placeholder), b.Render(placeholder));
  }

  /** A match is replaced as a whole, any other character is copied; the walk ends at a match that goes
      beyond `end`. */
  function Walk(ds: Decisions, t: Text, p: nat, end: nat): Trace
    requires p <= end <= |t| == |ds|
    decreases end - p
  {
    if p == end then Done
    else match ds[p]
      case None => Copied(t[p], Walk(ds, t, p + 1, end))
      case Some(m) => if m.end > end then Done else Replaced(m.name, Walk(ds, t, m.end, end))
  }

  /** The walk from `p` stops at `q`: no match crosses it. */
  predicate Passes(ds: Decisions, p: nat, q: nat)
    requires p <= q <= |ds|
    decreases q - p
  {
    p == q ||
    match ds[p]
    case None => Passes(ds, p + 1, q)
    case Some(m) => m.end <= q && Passes(ds, m.end, q)
  }

  lemma EmitOne(t: Text, cursor: nat, end: nat, ms: seq<Match>, placeholder: Text)
    requires cursor < end <= |t| && InOrder(ms, cursor + 1, |t|)
    ensures InOrder(ms, cursor, |t|)
    ensures Redacted(t, cursor, end, ms, placeholder) == [t[cursor]] + Redacted(t, cursor + 1, end, ms, placeholder)
  {}

  lemma EmitMatch(t: Text, cursor: nat, end: nat, ms: seq<Match>, placeholder: Text)
    requires ms != [] && InOrder(ms, cursor, |t|) && ms[0].start == cursor && ms[0].end <= end <= |t|
    ensures Redacted(t, cursor, end, ms, placeholder) == placeholder + Redacted(t, ms[0].end, end, ms[1..], placeholder)
    ensures Labels(UpTo(ms, end)) == multiset{ms[0].name} + Labels(UpTo(ms[1..], end))
  {
    assert t[cursor..cursor] + placeholder == placeholder;
    assert ([ms[0]] + UpTo(ms[1..], end))[1..] == UpTo(ms[1..], end);
  }

  /** The emitter walks. */
  lemma {:induction false} RedactedWalks(ds: Decisions, t: Text, p: nat, end: nat, placeholder: Text)
    requires p <= end <= |t| == |ds| && InOrder(Scan(ds, p), p, |t|) && Passes(ds, p, end)
    ensures var ms, trace := Scan(ds, p), Walk(ds, t, p, end);
            && Redacted(t, p, end, ms, placeholder) == trace.Render(placeholder)
            && Labels(UpTo(ms, end)) == trace.Names()
    decreases end - p
  {
    var ms := Scan(ds, p);
    if p == end {
      PullBackStays(ms, p, p, |t|);
    } else if ds[p] == None {
      ScanInOrder(ds, p + 1);
      RedactedWalks(ds, t, p + 1, end, placeholder);
      EmitOne(t, p, end, ms, placeholder);
    } else {
      var m := ds[p].value;
      assert ms[1..] == Scan(ds, m.end);
      RedactedWalks(ds, t, m.end, end, placeholder);
      EmitMatch(t, p, end, ms, placeholder);
    }
  }

  /** The walk stops exactly where no span crosses. */
  lemma {:induction false} PassesIffClean(ds: Decisions, p: nat, q: nat)
    requires p <= q <= |ds|
    ensures Passes(ds, p, q) <==> !Interior(Scan(ds, p), q)
    decreases q - p
  {
    var ms := Scan(ds, p);
    ScanInOrder(ds, p);
    if p == q {
      PullBackStays(ms, p, p, |ds|);
    } else if ds[p] == None {
      PassesIffClean(ds, p + 1, q);
    } else {
      var m := ds[p].value;
      assert ms[1..] == Scan(ds, m.end) && m in ms;
      assert forall x <- ms :: x == m || x in ms[1..];
      assert forall x <- ms[1..] :: x in ms;
      if m.end <= q {
        PassesIffClean(ds, m.end, q);
      }
    }
  }

  /** Two consecutive stretches, cut where the walk stops, are one. */
  lemma {:induction false} WalksJoin(ds: Decisions, t: Text, p: nat, a: nat, b: nat)
    requires p <= a <= b <= |t| == |ds| && Passes(ds, p, a)
    ensures Passes(ds, p, b) <==> Passes(ds, a, b)
    ensures Walk(ds, t, p, b) == Walk(ds, t, p, a).Then(Walk(ds, t, a, b))
    decreases a - p
  {
    if p < a {
      WalksJoin(ds, t, if ds[p] == None then p + 1 else ds[p].value.end, a, b);
    }
  }

  function Moved(found: Option<Match>, k: nat): Option<Match> {
    match found
    case None => None
    case Some(m) => Some(Match(m.name, m.start + k, m.end + k))
  }

  /** The text `w` stands at offset `k` of the text `t`, and from `i` up to `cut` it has the same
      characters and the same decisions, except for matches that go beyond the cut. */
  predicate Agree(dw: Decisions, w: Text, dt: Decisions, t: Text, k: nat, i: nat, cut: nat)
    decreases cut - i
  {
    && i <= cut <= |w| == |dw| && k + |w| <= |t| == |dt|
    && (i == cut ||
        (&& (dt[k + i] == Moved(dw[i], k) || (dw[i].Some? && dw[i].value.end > cut))
         && t[k + i] == w[i] && Agree(dw, w, dt, t, k, i + 1, cut)))
  }

  lemma {:induction false} AgreeWithin(dw: Decisions, w: Text, dt: Decisions, t: Text, k: nat, i: nat, cut: nat,
                                       j: nat, split: nat)
    requires Agree(dw, w, dt, t, k, i, cut) && i <= j <= split <= cut
    ensures Agree(dw, w, dt, t, k, j, split)
    decreases cut - i
  {
    if i < j {
      AgreeWithin(dw, w, dt, t, k, i + 1, cut, j, split);
    } else if j < split {
      AgreeWithin(dw, w, dt, t, k, i + 1, cut, j + 1, split);
    }
  }

  /** If they agree up to a position where the walk along `w` stops, then it is the walk along `t`. */
  lemma {:induction false} WalksAgree(dw: Decisions, w: Text, dt: Decisions, t: Text, k: nat, i: nat, split: nat)
    requires Agree(dw, w, dt, t, k, i, split) && Passes(dw, i, split)
    ensures Passes(dt, k + i, k + split) && Walk(dt, t, k + i, k + split) == Walk(dw, w, i, split)
    decreases split - i
  {
    if i < split {
      var next := if dw[i] == None then i + 1 else dw[i].value.end;
      AgreeWithin(dw, w, dt, t, k, i, split, next, split);
      WalksAgree(dw, w, dt, t, k, next, split);
    }
  }

  /** What the emitter makes of `w[offset..]`, cut at `cut` and pulled back by the straddle guard. */
  function Window(ds: Decisions, w: Text, offset: nat, cut: nat, placeholder: Text): (Text, multiset<Label>)
    requires offset <= cut <= |w| == |ds|
  {
    var ms := Scan(ds, offset);
    ScanInOrder(ds, offset);
    PullBackFacts(ms, cut, offset, |w|);
    (Redacted(w, offset, PullBack(ms, cut), ms, placeholder), Labels(UpTo(ms, PullBack(ms, cut))))
  }

  /** The same for the scan of `w`, stopped by the straddle guard. */
  lemma WindowIsExact(dw: Decisions, w: Text, dt: Decisions, t: Text, k: nat, i: nat, cut: nat, placeholder: Text)
    requires Agree(dw, w, dt, t, k, i, cut)
    ensures var split := PullBack(Scan(dw, i), cut);
            && i <= split <= cut && k + split <= |t| == |dt|
            && Passes(dt, k + i, k + split)
            && var trace := Walk(dt, t, k + i, k + split);
               Window(dw, w, i, cut, placeholder) == (trace.Render(placeholder), trace.Names())
  {
    var split := PullBack(Scan(dw, i), cut);
    ScanInOrder(dw, i);
    PullBackFacts(Scan(dw, i), cut, i, |w|);
    PassesIffClean(dw, i, split);
    AgreeWithin(dw, w, dt, t, k, i, cut, i, split);
    WalksAgree(dw, w, dt, t, k, i, split);
    RedactedWalks(dw, w, i, split, placeholder);
  }
}
