/** The redactor as the object that a stream is fed to. */
module StreamRedactors {
  import opened Symbols
  import opened Regex
  import opened Patterns
  import opened Scanner
  import opened Redaction
  import opened Holdback
  import opened Streaming
  import opened StreamTheorems

  class StreamRedactor {
    const rules: RuleSet
    const maxHoldback: nat
    const context: nat
    const placeholder: Text
    var buffer: Text
    var leftContext: Text
    var closed: bool
    var stats: Stats

    function Cfg(): Config {
      Config(rules, maxHoldback, context, placeholder)
    }

    function State(): Redactor
      reads this
    {
      Redactor(buffer, leftContext, closed, stats)
    }

    constructor (rules: RuleSet, maxHoldback: nat, context: nat, placeholder: Text)
      ensures Cfg() == Config(rules, maxHoldback, context, placeholder) && State() == FRESH
    {
      this.rules, this.maxHoldback, this.context, this.placeholder := rules, maxHoldback, context, placeholder;
      buffer, leftContext, closed := [], [], false;
      stats := Stats(0, 0, 0, multiset{}, 0);
    }

    /** Emits the buffer up to `split`, a position in the context and the buffer, and keeps the rest. */
    method Release(matches: seq<Match>, split: nat) returns (emit: Text)
      requires InOrder(matches, |leftContext|, |leftContext + buffer|)
      requires |leftContext| <= split <= |leftContext + buffer|
      modifies this
      ensures var s, safe := old(State()), split - old(|leftContext|);
              && emit == Redacted(s.leftContext + s.buffer, |s.leftContext|, split, matches, placeholder)
              && State() == Redactor(
                   s.buffer[safe..], LastN(s.leftContext + s.buffer[..safe], context), s.closed,
                   s.stats.(redactions := s.stats.redactions + Labels(UpTo(matches, split)),
                            maxBuffer := Max(s.stats.maxBuffer, Max(|s.buffer|, |s.buffer[safe..]|)),
                            charactersOut := s.stats.charactersOut + |emit|))
    {
      var preTrim := |buffer|;
      var safeLen := split - |leftContext|;
      var safeRaw := buffer[..safeLen];
      var recorded;
      emit, recorded := RedactRange(leftContext + buffer, |leftContext|, split, matches, placeholder);
      leftContext := LastN(leftContext + safeRaw, context);
      buffer := buffer[safeLen..];
      stats := stats.(redactions := stats.redactions + recorded,
                      maxBuffer := Max(stats.maxBuffer, Max(preTrim, |buffer|)),
                      charactersOut := stats.charactersOut + |emit|);
    }

    /** None is the error of feeding a closed redactor. */
    method FeedChunk(chunk: Text) returns (emitted: Option<Text>)
      modifies this
      ensures (State(), emitted) == Feed(Cfg(), old(State()), chunk)
    {
      hide FeedWith, Cut, Decide, Scan, InOrder, Redacted, UpTo, Labels;
      if closed {
        return None;
      }
      if chunk == [] {
        return Some([]);
      }
      hide Feed;
      stats := stats.(chunksIn := stats.chunksIn + 1, charactersIn := stats.charactersIn + |chunk|);
      buffer := buffer + chunk;
      var whole, offset := leftContext + buffer, |leftContext|;
      var matches := IterMatches(rules, whole, offset);
      ScanInOrder(Decide(rules, whole), offset);
      var split := Cut(Cfg(), leftContext, buffer);
      split := PullBackBehindStraddlingMatch(matches, split, offset, |whole|);
      var emit := Release(matches, split);
      emitted := Some(emit);
      FeedIs(Cfg(), old(State()), chunk, matches, split, emit, Labels(UpTo(matches, split)));
    }

    method FlushTail() returns (remainder: Text)
      modifies this
      ensures (State(), remainder) == Flush(Cfg(), old(State()))
    {
      if closed {
        return [];
      }
      closed := true;
      var combined, offset := leftContext + buffer, |leftContext|;
      var matches := IterMatches(rules, combined, offset);
      ScanInOrder(Decide(rules, combined), offset);
      var recorded;
      remainder, recorded := RedactRange(combined, offset, |combined|, matches, placeholder);
      UpToAll(matches, offset, |combined|);
      leftContext, buffer := [], [];
      stats := stats.(redactions := stats.redactions + recorded,
                      charactersOut := stats.charactersOut + |remainder|);
    }
  }

  /** The steps of a feed, one after the other. */
  lemma FeedIs(cfg: Config, s: Redactor, chunk: Text, ms: seq<Match>, split: nat, emit: Text, names: multiset<Label>)
    requires !s.closed && chunk != []
    requires var whole := s.leftContext + (s.buffer + chunk);
             && ms == Scan(Decide(cfg.rules, whole), |s.leftContext|) && InOrder(ms, |s.leftContext|, |whole|)
             && split == PullBack(ms, Cut(cfg, s.leftContext, s.buffer + chunk))
             && |s.leftContext| <= split <= |whole|
             && emit == Redacted(whole, |s.leftContext|, split, ms, cfg.placeholder)
             && names == Labels(UpTo(ms, split))
    ensures Feed(cfg, s, chunk) == (Send(cfg, s, chunk, split, (emit, names)), Some(emit))
  {}

  lemma FedOneMore(cfg: Config, chunks: seq<Text>, i: nat)
    requires i < |chunks|
    ensures var (s, out) := Fed(cfg, chunks[..i]);
            var (s', emitted) := Feed(cfg, s, chunks[i]);
            Fed(cfg, chunks[..i + 1]) == (s', out + if emitted.Some? then emitted.value else [])
  {
    assert chunks[..i + 1][..i] == chunks[..i];
  }

  /** The documented use: feed every chunk, emit what comes back, then emit the flush. */
  method RedactStream(rules: RuleSet, maxHoldback: nat, context: nat, placeholder: Text, chunks: seq<Text>)
    returns (out: Text)
    requires HoldsEnough(rules, maxHoldback)
    ensures out == RedactComplete(rules, Concat(chunks), placeholder)
  {
    hide Feed, Flush, RedactComplete;
    var redactor := new StreamRedactor(rules, maxHoldback, context, placeholder);
    ghost var cfg := redactor.Cfg();
    out := [];
    var i := 0;
    while i < |chunks|
      invariant 0 <= i <= |chunks| && redactor.Cfg() == cfg
      invariant (redactor.State(), out) == Fed(cfg, chunks[..i])
    {
      FedOneMore(cfg, chunks, i);
      var safe := redactor.FeedChunk(chunks[i]);
      if safe.Some? {
        out := out + safe.value;
      } else {
        assert out + [] == out;
      }
      i := i + 1;
    }
    assert chunks[..i] == chunks;
    var tail := redactor.FlushTail();
    out := out + tail;
    StreamingIsComplete(cfg, chunks);
  }
}
