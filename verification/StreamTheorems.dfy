/** What the streaming redactor guarantees over every text, every split of it into chunks and every
    placeholder. */
module StreamTheorems {
  import opened Symbols
  import opened Regex
  import opened Patterns
  import opened Scanner
  import opened Redaction
  import opened Holdback
  import opened Walking
  import opened Streaming

  lemma {:induction false} UpToAll(ms: seq<Match>, from: nat, limit: nat)
    requires InOrder(ms, from, limit)
    ensures UpTo(ms, limit) == ms && PullBack(ms, limit) == limit
  {
    if ms != [] {
      SpansWithin(ms, from, limit);
      assert ms[0] in ms;
      UpToAll(ms[1..], ms[0].end, limit);
    }
  }

  lemma PassesToTheEnd(ds: Decisions, p: nat)
    requires p <= |ds|
    ensures Passes(ds, p, |ds|)
  {
    ScanInOrder(ds, p);
    SpansWithin(Scan(ds, p), p, |ds|);
    PassesIffClean(ds, p, |ds|);
  }

  /** Redacting in one pass is walking along the whole text. */
  lemma CompleteIsWalk(ds: Decisions, t: Text, start: nat, placeholder: Text)
    requires start <= |t| == |ds| && InOrder(Scan(ds, start), start, |t|)
    ensures Redacted(t, start, |t|, Scan(ds, start), placeholder) == Walk(ds, t, start, |t|).Render(placeholder)
    ensures Labels(Scan(ds, start)) == Walk(ds, t, start, |t|).Names()
  {
    PassesToTheEnd(ds, start);
    RedactedWalks(ds, t, start, |t|, placeholder);
    UpToAll(Scan(ds, start), start, |t|);
  }

  lemma TailIsExact(dw: Decisions, w: Text, ds: Decisions, t: Text, k: nat, offset: nat, placeholder: Text)
    requires Agree(dw, w, ds, t, k, offset, |w|) && k + |w| == |t| && InOrder(Scan(dw, offset), offset, |w|)
    ensures Redacted(w, offset, |w|, Scan(dw, offset), placeholder)
         == Walk(ds, t, k + offset, |t|).Render(placeholder)
    ensures Labels(Scan(dw, offset)) == Walk(ds, t, k + offset, |t|).Names()
  {
    PassesToTheEnd(dw, offset);
    WalksAgree(dw, w, ds, t, k, offset, |w|);
    CompleteIsWalk(dw, w, offset, placeholder);
  }

  /** The redaction of a text, cut where the walk stops. */
  lemma CompleteSplits(ds: Decisions, t: Text, p: nat, placeholder: Text)
    requires p <= |t| == |ds| && Passes(ds, 0, p)
    ensures InOrder(Scan(ds, 0), 0, |t|)
    ensures Redacted(t, 0, |t|, Scan(ds, 0), placeholder)
         == Walk(ds, t, 0, p).Render(placeholder) + Walk(ds, t, p, |t|).Render(placeholder)
    ensures Labels(Scan(ds, 0)) == Walk(ds, t, 0, p).Names() + Walk(ds, t, p, |t|).Names()
  {
    WalksJoin(ds, t, 0, p, |t|);
    RenderThen(Walk(ds, t, 0, p), Walk(ds, t, p, |t|), placeholder);
    ScanInOrder(ds, 0);
    CompleteIsWalk(ds, t, 0, placeholder);
  }

  /** Nothing follows a flushed buffer, so its decisions are those for the full text. */
  lemma FlushAgrees(rules: RuleSet, left: Text, whole: Text, offset: nat, t: Text)
    requires t == left + whole && offset <= |whole| && (left == [] || offset > 0)
    ensures Agree(Decide(rules, whole), whole, Decide(rules, t), t, |left|, offset, |whole|)
  {
    assert t == left + whole + [];
    DecisionsLocal(rules, left, whole, [], t, offset, |whole|);
  }

  lemma FlushCompletes(cfg: Config, s: Redactor, t: Text, out: Text)
    requires InStep(cfg, s, |t|, t, Decide(cfg.rules, t), out)
    ensures var (s', tail) := Flush(cfg, s);
            && out + tail == RedactComplete(cfg.rules, t, cfg.placeholder)
            && s'.closed && Counted(s'.stats, |t|, out + tail, Labels(Scan(Decide(cfg.rules, t), 0)))
  {
    hide Decide, Walk, Passes, Labels, Scan, InOrder, Redacted;
    var ds, sent := Decide(cfg.rules, t), |t| - |s.buffer|;
    var left, right := WindowInText(t, sent, |t|, |t|, cfg.context);
    var whole := s.leftContext + s.buffer;
    assert t == left + whole by { assert t[sent..|t|] + t[|t|..|t|] == s.buffer; }
    FlushAgrees(cfg.rules, left, whole, |s.leftContext|, t);
    ScanInOrder(Decide(cfg.rules, whole), |s.leftContext|);
    TailIsExact(Decide(cfg.rules, whole), whole, ds, t, |left|, |s.leftContext|, cfg.placeholder);
    CompleteSplits(ds, t, sent, cfg.placeholder);
    var (s', tail) := Flush(cfg, s);
    assert tail == Walk(ds, t, sent, |t|).Render(cfg.placeholder);
    assert s'.stats.redactions == Walk(ds, t, 0, sent).Names() + Walk(ds, t, sent, |t|).Names();
    assert s'.stats.charactersOut == |out| + |tail|;
    hide Flush, InStep;
  }

  lemma {:induction false} FedStaysOpen(cfg: Config, chunks: seq<Text>)
    ensures !Fed(cfg, chunks).0.closed
    decreases |chunks|
  {
    if chunks != [] {
      FedStaysOpen(cfg, chunks[..|chunks| - 1]);
      FeedStaysOpen(cfg, Fed(cfg, chunks[..|chunks| - 1]).0, chunks[|chunks| - 1]);
    }
  }

  lemma {:induction false} ConcatPrefix(chunks: seq<Text>, k: nat)
    requires k <= |chunks|
    ensures Concat(chunks[..k]) <= Concat(chunks)
    decreases |chunks| - k
  {
    if k == |chunks| {
      assert chunks[..k] == chunks;
    } else {
      ConcatPrefix(chunks, k + 1);
      assert chunks[..k + 1][..k] == chunks[..k];
    }
  }

  /** After any number of chunks, the redactor is in step with every text that begins with them. */
  lemma {:induction false} FedInStep(cfg: Config, chunks: seq<Text>, t: Text)
    requires HoldsEnough(cfg.rules, cfg.maxHoldback) && Concat(chunks) <= t
    ensures var (s, out) := Fed(cfg, chunks);
            InStep(cfg, s, |Concat(chunks)|, t, Decide(cfg.rules, t), out)
    decreases |chunks|
  {
    if chunks != [] {
      hide Feed, Decide, InStep;
      var before, last := chunks[..|chunks| - 1], chunks[|chunks| - 1];
      var n, m := |Concat(before)|, |Concat(chunks)|;
      assert Concat(before) <= Concat(chunks);
      FedInStep(cfg, before, t);
      assert last == t[n..m];
      FeedInStep(cfg, Fed(cfg, before).0, n, m, t, Fed(cfg, before).1);
    }
  }

  /** Streaming refines whole-string redaction: the same text, the same labels and the same character
      counts, for every way of splitting the text into chunks. */
  lemma StreamingIsComplete(cfg: Config, chunks: seq<Text>)
    requires HoldsEnough(cfg.rules, cfg.maxHoldback)
    ensures var t := Concat(chunks); var (s, out) := Streamed(cfg, chunks);
            && out == RedactComplete(cfg.rules, t, cfg.placeholder)
            && s.closed && Counted(s.stats, |t|, out, Labels(Scan(Decide(cfg.rules, t), 0)))
  {
    FedInStep(cfg, chunks, Concat(chunks));
    FlushCompletes(cfg, Fed(cfg, chunks).0, Concat(chunks), Fed(cfg, chunks).1);
  }

  lemma InStepIsFinal(cfg: Config, s: Redactor, n: nat, t: Text, ds: Decisions, out: Text)
    requires ds == Decide(cfg.rules, t) && InStep(cfg, s, n, t, ds, out)
    ensures out <= RedactComplete(cfg.rules, t, cfg.placeholder)
    ensures !Interior(Scan(ds, 0), n - |s.buffer|)
  {
    PassesIffClean(ds, 0, n - |s.buffer|);
    CompleteSplits(ds, t, n - |s.buffer|, cfg.placeholder);
  }

  /** Nothing sent is ever wrong: whatever arrives later, what was emitted is a prefix of the final
      result, and the boundary of what was sent does not fall inside a match of the final text. */
  lemma EmittedIsFinal(cfg: Config, chunks: seq<Text>, later: Text)
    requires HoldsEnough(cfg.rules, cfg.maxHoldback)
    ensures var t := Concat(chunks) + later; var (s, out) := Fed(cfg, chunks);
            && out <= RedactComplete(cfg.rules, t, cfg.placeholder)
            && |s.buffer| <= |Concat(chunks)|
            && !Interior(Scan(Decide(cfg.rules, t), 0), |Concat(chunks)| - |s.buffer|)
  {
    var t := Concat(chunks) + later;
    FedInStep(cfg, chunks, t);
    InStepIsFinal(cfg, Fed(cfg, chunks).0, |Concat(chunks)|, t, Decide(cfg.rules, t), Fed(cfg, chunks).1);
  }

  // Memory

  lemma SpanNotTooLong(rules: RuleSet, t: Text, pos: nat, m: Match, longest: nat)
    requires Longest(rules, longest) && m in Scan(Decide(rules, t), pos)
    ensures m.end - m.start <= longest
  {
    var ds := Decide(rules, t);
    ScanIsScan(ds, pos);
    DecidesFound(rules, t, |t|, m.start);
    MatchNotTooLong(rules, t, m.start, longest);
  }

  lemma FeedKeeps(cfg: Config, s: Redactor, chunk: Text) returns (split: nat)
    requires !s.closed && chunk != []
    ensures |s.leftContext| <= split <= Cut(cfg, s.leftContext, s.buffer + chunk)
    ensures Feed(cfg, s, chunk).0.buffer == (s.buffer + chunk)[split - |s.leftContext|..]
    ensures split == PullBack(Scan(Decide(cfg.rules, s.leftContext + (s.buffer + chunk)), |s.leftContext|),
                              Cut(cfg, s.leftContext, s.buffer + chunk))
  {
    var whole, offset := s.leftContext + (s.buffer + chunk), |s.leftContext|;
    var ms, cut := Scan(Decide(cfg.rules, whole), offset), Cut(cfg, s.leftContext, s.buffer + chunk);
    ScanInOrder(Decide(cfg.rules, whole), offset);
    PullBackFacts(ms, cut, offset, |whole|);
    split := PullBack(ms, cut);
    hide Decide, Scan, PullBack, Redacted, Labels, UpTo, LastN;
  }

  lemma LastNBounded<T>(s: seq<T>, n: nat)
    ensures n > 0 ==> |LastN(s, n)| <= n
  {}

  lemma FeedRetains(cfg: Config, s: Redactor, chunk: Text)
    requires !s.closed && chunk != []
    ensures cfg.context > 0 ==> |Feed(cfg, s, chunk).0.leftContext| <= cfg.context
  {
    hide Decide, Scan, PullBack, Window, LastN;
    var whole, offset := s.leftContext + (s.buffer + chunk), |s.leftContext|;
    var safe := PullBack(Scan(Decide(cfg.rules, whole), offset), Cut(cfg, s.leftContext, s.buffer + chunk)) - offset;
    var split := FeedKeeps(cfg, s, chunk);
    LastNBounded(s.leftContext + (s.buffer + chunk)[..safe], cfg.context);
  }

  /** The guard goes back at most one match behind the cut. */
  lemma SplitNotTooFar(rules: RuleSet, t: Text, offset: nat, cut: nat, longest: nat)
    requires Longest(rules, longest) && offset <= cut <= |t|
    ensures cut - PullBack(Scan(Decide(rules, t), offset), cut) <= Max(longest, 1) - 1
  {
    var ms := Scan(Decide(rules, t), offset);
    ScanInOrder(Decide(rules, t), offset);
    PullBackFacts(ms, cut, offset, |t|);
    if PullBack(ms, cut) < cut {
      var m :| m in ms && m.start == PullBack(ms, cut) && cut < m.end;
      SpanNotTooLong(rules, t, offset, m, longest);
    }
  }

  lemma FeedBounded(cfg: Config, s: Redactor, chunk: Text, longest: nat)
    requires Longest(cfg.rules, longest) && !s.closed && chunk != []
    ensures var s' := Feed(cfg, s, chunk).0;
            && |s'.buffer| <= cfg.maxHoldback + Max(longest, 1) - 1
            && (cfg.context > 0 ==> |s'.leftContext| <= cfg.context)
  {
    hide Feed, Decide, Scan, PullBack, HoldbackOf, Longest;
    var split := FeedKeeps(cfg, s, chunk);
    FeedRetains(cfg, s, chunk);
    HoldbackBounded(s.buffer + chunk, cfg.maxHoldback);
    SplitNotTooFar(cfg.rules, s.leftContext + (s.buffer + chunk), |s.leftContext|,
                   Cut(cfg, s.leftContext, s.buffer + chunk), longest);
  }

  lemma MatchKeeps(rules: RuleSet, t: Text, offset: nat, cut: nat, split: nat)
    requires exists m <- Scan(Decide(rules, t), offset) :: m.start == split && cut < m.end
    ensures split < |t| && Found(rules, t, split).Some? && Found(rules, t, split).value.end > cut
  {
    var ds := Decide(rules, t);
    var m :| m in Scan(ds, offset) && m.start == split && cut < m.end;
    ScanIsScan(ds, offset);
    DecidesFound(rules, t, |t|, split);
  }

  /** Nothing is held without a reason: a feed keeps the hold-back, or else the buffer from the start of a
      match that goes on into it. */
  lemma HeldForAReason(cfg: Config, s: Redactor, chunk: Text)
    requires !s.closed && chunk != []
    ensures var kept, grown := Feed(cfg, s, chunk).0.buffer, s.buffer + chunk;
            var hold, split := HoldbackOf(grown, cfg.maxHoldback), |s.leftContext + grown| - |kept|;
            && hold <= |kept| <= |grown| && kept == grown[|grown| - |kept|..]
            && (hold < |kept| ==>
                  && Found(cfg.rules, s.leftContext + grown, split).Some?
                  && Found(cfg.rules, s.leftContext + grown, split).value.end > |s.leftContext + grown| - hold)
  {
    hide Feed, Scan, PullBack, Found, Decide, HoldbackOf;
    var split := FeedKeeps(cfg, s, chunk);
    var whole, offset := s.leftContext + (s.buffer + chunk), |s.leftContext|;
    var ds, cut := Decide(cfg.rules, whole), Cut(cfg, s.leftContext, s.buffer + chunk);
    HoldbackBounded(s.buffer + chunk, cfg.maxHoldback);
    ScanInOrder(ds, offset);
    PullBackFacts(Scan(ds, offset), cut, offset, |whole|);
    if split < cut {
      MatchKeeps(cfg.rules, whole, offset, cut, split);
    }
  }

  /** However long the stream and whatever the cap, what is held stays below the cap plus one match. */
  lemma {:induction false} HeldIsBounded(cfg: Config, chunks: seq<Text>, longest: nat)
    requires Longest(cfg.rules, longest)
    ensures var s := Fed(cfg, chunks).0;
            && |s.buffer| <= cfg.maxHoldback + Max(longest, 1) - 1
            && (cfg.context > 0 ==> |s.leftContext| <= cfg.context)
    decreases |chunks|
  {
    if chunks != [] {
      var before, last := chunks[..|chunks| - 1], chunks[|chunks| - 1];
      HeldIsBounded(cfg, before, longest);
      FedStaysOpen(cfg, before);
      if last != [] {
        FeedBounded(cfg, Fed(cfg, before).0, last, longest);
      }
    }
  }

  // Accounting

  function Matched(ms: seq<Match>): int {
    if ms == [] then 0 else ms[0].end - ms[0].start + Matched(ms[1..])
  }

  lemma {:induction false} LabelsCount(ms: seq<Match>)
    ensures |Labels(ms)| == |ms|
  {
    if ms != [] {
      LabelsCount(ms[1..]);
    }
  }

  lemma {:induction false} RedactedLength(t: Text, cursor: nat, ms: seq<Match>, placeholder: Text)
    requires cursor <= |t| && InOrder(ms, cursor, |t|)
    ensures |Redacted(t, cursor, |t|, ms, placeholder)| + Matched(ms) == |t| - cursor + |placeholder| * |ms|
    decreases |ms|
  {
    if ms != [] {
      RedactedLength(t, ms[0].end, ms[1..], placeholder);
      Distribute(|ms|, |placeholder|);
      assert |t[cursor..ms[0].start]| == ms[0].start - cursor;
    }
  }

  /** The character counts of a finished stream add up: each redaction takes its match out and puts one
      placeholder in. */
  lemma CountsAddUp(cfg: Config, chunks: seq<Text>)
    requires HoldsEnough(cfg.rules, cfg.maxHoldback)
    ensures var stats, ms := Streamed(cfg, chunks).0.stats, Scan(Decide(cfg.rules, Concat(chunks)), 0);
            stats.charactersOut + Matched(ms)
            == stats.charactersIn + |cfg.placeholder| * |stats.redactions|
  {
    var t := Concat(chunks);
    StreamingIsComplete(cfg, chunks);
    ScanInOrder(Decide(cfg.rules, t), 0);
    LabelsCount(Scan(Decide(cfg.rules, t), 0));
    RedactedLength(t, 0, Scan(Decide(cfg.rules, t), 0), cfg.placeholder);
  }
}
