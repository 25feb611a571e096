/** The streaming redactor refines redaction of the whole text. */
module Streaming {
  import opened Symbols
  import opened Regex
  import opened Patterns
  import opened Scanner
  import opened Redaction
  import opened Holdback
  import opened Walking

  lemma {:induction false} MatchLocal(rules: RuleSet, left: Text, w: Text, right: Text, i: nat)
    requires i <= |w| && (left == [] || i > 0) && (right == [] || !TouchesAny(rules, w, i))
    ensures MatchAt(rules, left + w + right, |left| + i) == Moved(MatchAt(rules, w, i), |left|)
  {
    if rules != [] {
      EndsLocal(rules[0].re, left, w, right, i);
      MatchLocal(rules[1..], left, w, right, i);
    }
  }

  lemma MiddleSlice<T>(left: seq<T>, w: seq<T>, right: seq<T>, a: nat, b: nat)
    requires a <= b <= |w|
    ensures (left + w + right)[|left| + a..|left| + b] == w[a..b]
  {
    assert (left + w + right)[|left|..|left| + |w|] == w;
    assert w[a..b] == (left + w + right)[|left|..|left| + |w|][a..b];
  }

  lemma FoundLocal(rules: RuleSet, left: Text, w: Text, right: Text, i: nat)
    requires i <= |w| && (left == [] || i > 0) && (right == [] || !TouchesAny(rules, w, i))
    ensures Found(rules, left + w + right, |left| + i) == Moved(Found(rules, w, i), |left|)
  {
    hide MatchAt, TouchesAny;
    MatchLocal(rules, left, w, right, i);
    if MatchAt(rules, w, i).Some? {
      var m := MatchAt(rules, w, i).value;
      MatchBounded(rules, w, i);
      MiddleSlice(left, w, right, m.start, m.end);
    }
  }

  lemma DecisionLocal(rules: RuleSet, left: Text, w: Text, right: Text, t: Text, p: nat)
    requires t == left + w + right && p < |w| && (left == [] || p > 0)
    requires right == [] || !TouchesAny(rules, w, p)
    ensures Decide(rules, t)[|left| + p] == Moved(Decide(rules, w)[p], |left|)
  {
    FoundLocal(rules, left, w, right, p);
    DecidesFound(rules, t, |t|, |left| + p);
    DecidesFound(rules, w, |w|, p);
  }

  predicate Overruns(rules: RuleSet, t: Text, i: nat, cut: nat) {
    Found(rules, t, i).Some? && Found(rules, t, i).value.end > cut
  }

  lemma {:induction false} DecisionsLocal(rules: RuleSet, left: Text, w: Text, right: Text, t: Text, i: nat, cut: nat)
    requires t == left + w + right && i <= cut <= |w| && (left == [] || i > 0)
    requires right == [] || forall p | i <= p < cut :: !TouchesAny(rules, w, p) || Overruns(rules, w, p, cut)
    ensures Agree(Decide(rules, w), w, Decide(rules, t), t, |left|, i, cut)
    decreases cut - i
  {
    if i < cut {
      DecidesFound(rules, w, |w|, i);
      if right == [] || !TouchesAny(rules, w, i) {
        DecisionLocal(rules, left, w, right, t, i);
      } else {
        assert Overruns(rules, w, i, cut);
      }
      assert t[|left| + i] == w[i];
      DecisionsLocal(rules, left, w, right, t, i + 1, cut);
    }
  }

  // The redactor

  datatype Config = Config(rules: RuleSet, maxHoldback: nat, context: nat, placeholder: Text)

  datatype Stats = Stats(
    chunksIn: nat, charactersIn: nat, charactersOut: nat, redactions: multiset<Label>, maxBuffer: nat)

  datatype Redactor = Redactor(buffer: Text, leftContext: Text, closed: bool, stats: Stats)

  const FRESH := Redactor([], [], false, Stats(0, 0, 0, multiset{}, 0))

  /** Where the hold-back cuts the context and the buffer. */
  function Cut(cfg: Config, leftContext: Text, buffer: Text): (cut: nat)
    ensures |leftContext| <= cut <= |leftContext + buffer|
  {
    HoldbackBounded(buffer, cfg.maxHoldback);
    |leftContext| + |buffer| - HoldbackOf(buffer, cfg.maxHoldback)
  }

  /** Sending `piece`, which stands for the grown buffer up to `split`, and keeping the rest. */
  function Send(cfg: Config, s: Redactor, chunk: Text, split: nat, piece: (Text, multiset<Label>)): Redactor
    requires |s.leftContext| <= split <= |s.leftContext| + |s.buffer| + |chunk|
  {
    var buffer, safe := s.buffer + chunk, split - |s.leftContext|;
    var stats := Stats(
                   s.stats.chunksIn + 1, s.stats.charactersIn + |chunk|, s.stats.charactersOut + |piece.0|,
                   s.stats.redactions + piece.1, Max(s.stats.maxBuffer, Max(|buffer|, |buffer[safe..]|)));
    Redactor(buffer[safe..], LastN(s.leftContext + buffer[..safe], cfg.context), false, stats)
  }

  /** `feed` of a chunk that is not empty, given the decisions for the context and the grown buffer and
      the position where the hold-back cuts them. */
  function FeedWith(cfg: Config, s: Redactor, chunk: Text, ds: Decisions, cut: nat): (Redactor, Text)
    requires |s.leftContext| <= cut <= |s.leftContext + (s.buffer + chunk)| == |ds|
  {
    var whole, offset := s.leftContext + (s.buffer + chunk), |s.leftContext|;
    ScanInOrder(ds, offset);
    PullBackFacts(Scan(ds, offset), cut, offset, |whole|);
    var piece := Window(ds, whole, offset, cut, cfg.placeholder);
    (Send(cfg, s, chunk, PullBack(Scan(ds, offset), cut), piece), piece.0)
  }

  /** `feed`; None is the error of feeding a closed redactor. */
  function Feed(cfg: Config, s: Redactor, chunk: Text): (Redactor, Option<Text>) {
    if s.closed then (s, None)
    else if chunk == [] then (s, Some([]))
    else
      var ds := Decide(cfg.rules, s.leftContext + (s.buffer + chunk));
      var (s', emit) := FeedWith(cfg, s, chunk, ds, Cut(cfg, s.leftContext, s.buffer + chunk));
      (s', Some(emit))
  }

  /** Feeding neither closes a redactor nor fails, unless it was closed. */
  lemma FeedStaysOpen(cfg: Config, s: Redactor, chunk: Text)
    requires !s.closed
    ensures var (s', emitted) := Feed(cfg, s, chunk); !s'.closed && emitted.Some?
  {
    hide Decide, Window, Cut, Scan, PullBack;
  }

  function Flush(cfg: Config, s: Redactor): (Redactor, Text) {
    if s.closed then (s, [])
    else
      var whole, offset := s.leftContext + s.buffer, |s.leftContext|;
      var remainder := RedactFrom(cfg.rules, whole, offset, cfg.placeholder);
      var recorded := Labels(Scan(Decide(cfg.rules, whole), offset));
      var stats := s.stats.(charactersOut := s.stats.charactersOut + |remainder|,
                            redactions := s.stats.redactions + recorded);
      (Redactor([], [], true, stats), remainder)
  }

  function Concat(chunks: seq<Text>): Text {
    if chunks == [] then [] else Concat(chunks[..|chunks| - 1]) + chunks[|chunks| - 1]
  }

  /** A fresh redactor that has been fed the chunks one by one, and all that it has emitted. */
  function Fed(cfg: Config, chunks: seq<Text>): (Redactor, Text) {
    if chunks == [] then (FRESH, [])
    else
      var (s, out) := Fed(cfg, chunks[..|chunks| - 1]);
      var (s', emitted) := Feed(cfg, s, chunks[|chunks| - 1]);
      (s', out + if emitted.Some? then emitted.value else [])
  }

  /** The whole stream: all chunks, then the flush. */
  function Streamed(cfg: Config, chunks: seq<Text>): (Redactor, Text) {
    var (s, out) := Fed(cfg, chunks);
    var (s', tail) := Flush(cfg, s);
    (s', out + tail)
  }

  /** After `n` characters of the text `t`, the buffer is what was not sent and the context is what was
      sent last. */
  predicate Placed(context: nat, s: Redactor, n: nat, t: Text) {
    && |s.buffer| <= n <= |t|
    && s.buffer == t[n - |s.buffer|..n]
    && s.leftContext == LastN(t[..n - |s.buffer|], context)
  }

  /** After the first `n` characters of a stream whose full text is `t` and has the decisions `ds`: no
      match of the full text crosses the boundary between what was sent and what is held, and what was
      sent is the redaction of the full text up to it. */
  predicate InStep(cfg: Config, s: Redactor, n: nat, t: Text, ds: Decisions, out: Text)
    requires |ds| == |t|
  {
    && !s.closed && Placed(cfg.context, s, n, t)
    && Passes(ds, 0, n - |s.buffer|)
    && var trace := Walk(ds, t, 0, n - |s.buffer|);
       out == trace.Render(cfg.placeholder) && Counted(s.stats, n, out, trace.Names())
  }

  predicate Counted(stats: Stats, n: nat, out: Text, names: multiset<Label>) {
    stats.charactersIn == n && stats.charactersOut == |out| && stats.redactions == names
  }

  /** Before the cut, whatever could still change is a match that goes beyond the cut. */
  lemma CutIsSafe(cfg: Config, leftContext: Text, buffer: Text, p: nat)
    requires HoldsEnough(cfg.rules, cfg.maxHoldback)
    requires |leftContext| <= p < Cut(cfg, leftContext, buffer) && TouchesAny(cfg.rules, leftContext + buffer, p)
    ensures Overruns(cfg.rules, leftContext + buffer, p, Cut(cfg, leftContext, buffer))
  {
    var whole := leftContext + buffer;
    if |whole| - p <= cfg.maxHoldback {
      TouchWithheld(cfg.rules, leftContext, buffer, cfg.maxHoldback, p - |leftContext|);
    } else {
      assert Growing(cfg.rules, whole, p);
      assert TOKEN.Has(buffer[|buffer| - 1]) && IsTail(TAIL_TOKEN, buffer, |buffer| - 1);
      TailWithheld(TAIL_TOKEN, buffer, cfg.maxHoldback, |buffer| - 1);
    }
  }

  lemma JoinSlices<T>(t: seq<T>, a: nat, b: nat, c: nat)
    requires a <= b <= c <= |t|
    ensures t[a..b] + t[b..c] == t[a..c]
  {}

  lemma ThreeParts<T>(t: seq<T>, a: nat, b: nat)
    requires a <= b <= |t|
    ensures t[..a] + t[a..b] + t[b..] == t
  {}

  lemma LastNIsSlice<T>(t: seq<T>, sent: nat, n: nat)
    requires sent <= |t|
    ensures LastN(t[..sent], n) == t[if n == 0 || n >= sent then 0 else sent - n..sent]
  {}

  /** Moving the boundary between context and buffer. */
  lemma Slide(t: Text, sent: nat, n: nat, m: nat, safe: nat, context: nat)
    requires sent <= n <= m <= |t| && sent + safe <= m
    ensures var grown := t[sent..n] + t[n..m];
            && grown == t[sent..m] && grown[safe..] == t[sent + safe..m]
            && LastN(LastN(t[..sent], context) + grown[..safe], context) == LastN(t[..sent + safe], context)
  {
    hide LastN;
    JoinSlices(t, sent, n, m);
    JoinSlices(t, 0, sent, sent + safe);
    assert t[sent..m][..safe] == t[sent..sent + safe] && t[sent..m][safe..] == t[sent + safe..m];
    LastNAppend(t[..sent], t[sent..m][..safe], context);
  }

  lemma LastNAppend<T>(s: seq<T>, more: seq<T>, n: nat)
    ensures LastN(LastN(s, n) + more, n) == LastN(s + more, n)
  {}

  /** Where the context and the grown buffer stand in the full text. */
  lemma WindowInText(t: Text, sent: nat, n: nat, m: nat, context: nat) returns (left: Text, right: Text)
    requires sent <= n <= m <= |t|
    ensures var before := LastN(t[..sent], context);
            && t == left + (before + (t[sent..n] + t[n..m])) + right
            && |left| + |before| == sent && (left == [] || before != [])
  {
    var c := if context == 0 || context >= sent then 0 else sent - context;
    hide LastN;
    left, right := t[..c], t[m..];
    LastNIsSlice(t, sent, context);
    JoinSlices(t, sent, n, m);
    JoinSlices(t, c, sent, m);
    ThreeParts(t, c, m);
  }

  lemma SendPlaced(cfg: Config, s: Redactor, n: nat, m: nat, t: Text, split: nat, piece: (Text, multiset<Label>))
    requires Placed(cfg.context, s, n, t) && n <= m <= |t|
    requires |s.leftContext| <= split <= |s.leftContext| + |s.buffer| + |t[n..m]|
    ensures var s' := Send(cfg, s, t[n..m], split, piece);
            && Placed(cfg.context, s', m, t)
            && m - |s'.buffer| == n - |s.buffer| + (split - |s.leftContext|)
  {
    hide LastN;
    var sent, safe := n - |s.buffer|, split - |s.leftContext|;
    Slide(t, sent, n, m, safe, cfg.context);
    var s' := Send(cfg, s, t[n..m], split, piece);
    assert s'.buffer == t[sent + safe..m] && |s'.buffer| == m - (sent + safe);
  }

  lemma SendCounted(cfg: Config, s: Redactor, n: nat, m: nat, t: Text, split: nat, piece: (Text, multiset<Label>),
                    out: Text, names: multiset<Label>)
    requires Counted(s.stats, n, out, names) && n <= m <= |t|
    requires |s.leftContext| <= split <= |s.leftContext| + |s.buffer| + |t[n..m]|
    ensures var s' := Send(cfg, s, t[n..m], split, piece);
            !s'.closed && Counted(s'.stats, m, out + piece.0, names + piece.1)
  {}

  lemma WalkedMore(ds: Decisions, t: Text, sent: nat, more: nat, placeholder: Text)
    requires sent <= more <= |t| == |ds| && Passes(ds, 0, sent) && Passes(ds, sent, more)
    ensures Passes(ds, 0, more)
    ensures var before, next, trace := Walk(ds, t, 0, sent), Walk(ds, t, sent, more), Walk(ds, t, 0, more);
            && trace.Render(placeholder) == before.Render(placeholder) + next.Render(placeholder)
            && trace.Names() == before.Names() + next.Names()
  {
    WalksJoin(ds, t, 0, sent, more);
    RenderThen(Walk(ds, t, 0, sent), Walk(ds, t, sent, more), placeholder);
  }

  lemma SendInStep(cfg: Config, s: Redactor, n: nat, m: nat, t: Text, ds: Decisions, out: Text, split: nat,
                   more: nat)
    requires |ds| == |t| && InStep(cfg, s, n, t, ds, out) && n <= m <= |t|
    requires |s.leftContext| <= split <= |s.leftContext| + |s.buffer| + |t[n..m]|
    requires more == n - |s.buffer| + (split - |s.leftContext|) && more <= |t| && Passes(ds, n - |s.buffer|, more)
    ensures var trace := Walk(ds, t, n - |s.buffer|, more);
            var emit := trace.Render(cfg.placeholder);
            InStep(cfg, Send(cfg, s, t[n..m], split, (emit, trace.Names())), m, t, ds, out + emit)
  {
    hide Walk, Passes, Send, Counted, LastN;
    var sent: nat := n - |s.buffer|;
    var before, next := Walk(ds, t, 0, sent), Walk(ds, t, sent, more);
    var piece := (next.Render(cfg.placeholder), next.Names());
    SendPlaced(cfg, s, n, m, t, split, piece);
    SendCounted(cfg, s, n, m, t, split, piece, out, before.Names());
    WalkedMore(ds, t, sent, more, cfg.placeholder);
  }

  lemma FeedDecisions(cfg: Config, s: Redactor, chunk: Text, left: Text, right: Text, t: Text) returns (dw: Decisions)
    requires HoldsEnough(cfg.rules, cfg.maxHoldback)
    requires t == left + (s.leftContext + (s.buffer + chunk)) + right && (left == [] || s.leftContext != [])
    ensures dw == Decide(cfg.rules, s.leftContext + (s.buffer + chunk))
    ensures Agree(dw, s.leftContext + (s.buffer + chunk), Decide(cfg.rules, t), t, |left|, |s.leftContext|,
                  Cut(cfg, s.leftContext, s.buffer + chunk))
  {
    var whole, cut := s.leftContext + (s.buffer + chunk), Cut(cfg, s.leftContext, s.buffer + chunk);
    dw := Decide(cfg.rules, whole);
    forall p | |s.leftContext| <= p < cut && TouchesAny(cfg.rules, whole, p)
      ensures Overruns(cfg.rules, whole, p, cut)
    {
      CutIsSafe(cfg, s.leftContext, s.buffer + chunk, p);
    }
    DecisionsLocal(cfg.rules, left, whole, right, t, |s.leftContext|, cut);
  }

  lemma FeedWithInStep(cfg: Config, s: Redactor, n: nat, m: nat, t: Text, dw: Decisions, ds: Decisions, k: nat,
                       cut: nat, out: Text)
    requires |ds| == |t| && InStep(cfg, s, n, t, ds, out) && n <= m <= |t|
    requires |s.leftContext| <= cut <= |dw| && k + |s.leftContext| == n - |s.buffer|
    requires Agree(dw, s.leftContext + (s.buffer + t[n..m]), ds, t, k, |s.leftContext|, cut)
    ensures var (s', emit) := FeedWith(cfg, s, t[n..m], dw, cut);
            InStep(cfg, s', m, t, ds, out + emit)
  {
    hide Window, Send, InStep, Scan, PullBack, Walk, Passes;
    var whole, offset := s.leftContext + (s.buffer + t[n..m]), |s.leftContext|;
    var split := PullBack(Scan(dw, offset), cut);
    WindowIsExact(dw, whole, ds, t, k, offset, cut, cfg.placeholder);
    assert n - |s.buffer| == k + offset && n - |s.buffer| + (split - offset) == k + split;
    SendInStep(cfg, s, n, m, t, ds, out, split, k + split);
  }

  /** Feeding keeps the redactor in step with every possible full text. */
  lemma FeedInStep(cfg: Config, s: Redactor, n: nat, m: nat, t: Text, out: Text)
    requires HoldsEnough(cfg.rules, cfg.maxHoldback)
    requires InStep(cfg, s, n, t, Decide(cfg.rules, t), out) && n <= m <= |t|
    ensures var (s', emitted) := Feed(cfg, s, t[n..m]);
            emitted.Some? && InStep(cfg, s', m, t, Decide(cfg.rules, t), out + emitted.value)
  {
    if n == m {
      assert out + [] == out;
    } else {
      var left, right := WindowInText(t, n - |s.buffer|, n, m, cfg.context);
      var dw := FeedDecisions(cfg, s, t[n..m], left, right, t);
      var cut := Cut(cfg, s.leftContext, s.buffer + t[n..m]);
      FeedWithInStep(cfg, s, n, m, t, dw, Decide(cfg.rules, t), |left|, cut, out);
    }
  }
}
