/** What the redactor reports about a stream, and what it does when the stream is over. */
module StreamStats {
  import opened Symbols
  import opened Regex
  import opened Scanner
  import opened Redaction
  import opened Walking
  import opened Streaming
  import opened StreamTheorems

  /** The chunks that are not empty. */
  function NotEmpty(chunks: seq<Text>): nat {
    if chunks == [] then 0
    else NotEmpty(chunks[..|chunks| - 1]) + if chunks[|chunks| - 1] == [] then 0 else 1
  }

  /** The most that was ever in the buffer: what was held before a chunk, and the chunk. */
  function Peak(cfg: Config, chunks: seq<Text>): nat {
    if chunks == [] then 0
    else
      var before, last := chunks[..|chunks| - 1], chunks[|chunks| - 1];
      var held := |Fed(cfg, before).0.buffer|;
      if last == [] || held + |last| < Peak(cfg, before) then Peak(cfg, before) else held + |last|
  }

  lemma FeedCounts(cfg: Config, s: Redactor, chunk: Text)
    requires !s.closed
    ensures var s' := Feed(cfg, s, chunk).0;
            if chunk == [] then s' == s
            else
              && s'.stats.chunksIn == s.stats.chunksIn + 1
              && s'.stats.charactersIn == s.stats.charactersIn + |chunk|
              && s'.stats.maxBuffer == Max(s.stats.maxBuffer, |s.buffer| + |chunk|)
              && |s'.buffer| <= |s.buffer| + |chunk|
  {
    if chunk != [] {
      hide Decide, Window, PullBack, Scan, Cut, LastN;
      var split := FeedKeeps(cfg, s, chunk);
    }
  }

  /** After any chunks, the counts are those of the chunks that are not empty, and the peak is the largest
      buffer there ever was, the chunk just fed included. */
  lemma {:induction false} StatsAreRight(cfg: Config, chunks: seq<Text>)
    ensures var stats := Fed(cfg, chunks).0.stats;
            && stats.chunksIn == NotEmpty(chunks) && stats.charactersIn == |Concat(chunks)|
            && stats.maxBuffer == Peak(cfg, chunks)
    decreases |chunks|
  {
    if chunks != [] {
      hide Feed;
      var before, last := chunks[..|chunks| - 1], chunks[|chunks| - 1];
      StatsAreRight(cfg, before);
      FedStaysOpen(cfg, before);
      FeedCounts(cfg, Fed(cfg, before).0, last);
    }
  }

  /** A finished redactor refuses every chunk, the empty one too, without changing, holds nothing any
      more and has nothing more to flush; an open one refuses none. */
  lemma OnlyFinishedRefuses(cfg: Config, chunks: seq<Text>, chunk: Text)
    ensures Feed(cfg, Fed(cfg, chunks).0, chunk).1.Some?
    ensures var s := Streamed(cfg, chunks).0;
            && s.closed && s.buffer == [] && s.leftContext == []
            && Feed(cfg, s, chunk) == (s, None) && Flush(cfg, s) == (s, [])
  {
    FedStaysOpen(cfg, chunks);
    FeedStaysOpen(cfg, Fed(cfg, chunks).0, chunk);
    hide Fed, RedactFrom, FeedWith;
  }
}
