/** `redact_sse_stream`, line by line, over the redactor object. */
module SseStream {
  import opened Symbols
  import opened Scanner
  import opened Redaction
  import opened Streaming
  import opened StreamRedactors
  import opened Sse

  lemma {:induction false} FailureEndsStream(cfg: Config, lines: seq<Line>, i: nat)
    requires i <= |lines| && Steps(cfg, lines[..i]).0.failed
    ensures Steps(cfg, lines) == Steps(cfg, lines[..i])
    decreases |lines| - i
  {
    if i < |lines| {
      StepsOneMore(cfg, lines, i);
      assert Steps(cfg, lines[..i]).1 + [] == Steps(cfg, lines[..i]).1;
      FailureEndsStream(cfg, lines, i + 1);
    } else {
      assert lines[..i] == lines;
    }
  }

  lemma StepsOneMore(cfg: Config, lines: seq<Line>, i: nat)
    requires i < |lines|
    ensures var (s, out) := Steps(cfg, lines[..i]);
            var (s', more) := StepLine(cfg, s, lines[i]);
            Steps(cfg, lines[..i + 1]) == (s', out + more)
  {
    assert lines[..i + 1][..i] == lines[..i];
  }

  method CloseStream(redactor: StreamRedactor, ghost s: State, frame: Frame) returns (tail: seq<Output>)
    requires s.redactor == redactor.State() && !s.flushed
    modifies redactor
    ensures (s.(redactor := redactor.State(), flushed := true), tail) == Close(redactor.Cfg(), s, frame)
  {
    var text := redactor.FlushTail();
    tail := [];
    if text != [] {
      tail := [Sent(WithContent(frame, text))];
    }
  }

  method SafeContent(redactor: StreamRedactor, flushed: bool, text: Text, closing: bool)
    returns (flushed': bool, safe: Option<Text>)
    modifies redactor
    ensures (redactor.State(), flushed', safe)
         == SafeText(redactor.Cfg(), old(redactor.State()), flushed, text, closing)
  {
    if flushed {
      return true, Some(RedactComplete(redactor.rules, text, DEFAULT_PLACEHOLDER));
    }
    safe := redactor.FeedChunk(text);
    flushed' := false;
    if safe.Some? && closing {
      var tail := redactor.FlushTail();
      safe, flushed' := Some(safe.value + tail), true;
    }
  }

  method RedactChoices(redactor: StreamRedactor, wasFlushed: bool, closing: bool, choices: seq<Choice>)
    returns (flushed: bool, failed: bool, emittedAny: bool, rebuilt: seq<Choice>)
    modifies redactor
    ensures Batch(redactor.State(), flushed, failed, emittedAny, rebuilt)
         == ProcessChoices(redactor.Cfg(), Batch(old(redactor.State()), wasFlushed, false, false, []), closing, choices)
  {
    ghost var cfg, b0 := redactor.Cfg(), Batch(redactor.State(), wasFlushed, false, false, []);
    flushed, failed, emittedAny, rebuilt := wasFlushed, false, false, [];
    var i := 0;
    while i < |choices|
      invariant 0 <= i <= |choices| && redactor.Cfg() == cfg
      invariant Batch(redactor.State(), flushed, failed, emittedAny, rebuilt)
             == ProcessChoices(cfg, b0, closing, choices[..i])
    {
      assert choices[..i + 1][..i] == choices[..i];
      var choice := choices[i];
      if !failed {
        var content := ContentOf(choice);
        if content == None {
          rebuilt := rebuilt + [Scrubbed(choice)];
        } else {
          var safe;
          flushed, safe := SafeContent(redactor, flushed, content.value, closing);
          if safe == None {
            failed := true;
          } else if safe.value != [] {
            emittedAny := true;
            rebuilt := rebuilt + [SetContent(choice, Str(safe.value))];
          } else if closing {
            rebuilt := rebuilt + [SetContent(choice, Absent)];
          }
        }
      }
      i := i + 1;
    }
    assert choices[..i] == choices;
  }

  method RedactSseStream(lines: seq<Line>, redactor: StreamRedactor) returns (out: seq<Output>)
    requires redactor.State() == FRESH
    modifies redactor
    ensures out == Transform(redactor.Cfg(), lines).1
    ensures redactor.State() == Transform(redactor.Cfg(), lines).0.redactor
  {
    ghost var cfg := redactor.Cfg();
    var lastFrame, flushed := None, false;
    out := [];
    for i := 0 to |lines|
      invariant redactor.Cfg() == cfg
      invariant (State(redactor.State(), flushed, lastFrame, false), out) == Steps(cfg, lines[..i])
    {
      StepsOneMore(cfg, lines, i);
      ghost var s := State(redactor.State(), flushed, lastFrame, false);
      var line := lines[i];
      match line
      case Blank =>
        assert out + [] == out;
      case Other(_) =>
        out := out + [Forwarded(line)];
      case Unparsed(_) =>
        out := out + [Forwarded(line)];
      case DoneMarker =>
        var tail := [];
        if !flushed {
          tail := CloseStream(redactor, s, if lastFrame.Some? then lastFrame.value else NO_FRAME);
          flushed := true;
        }
        out := out + (tail + [Forwarded(line)]);
      case Data(frame) =>
        lastFrame := Some(frame);
        var choices, closing := ChoicesOf(frame), FinishReasonOf(frame).Some?;
        var failed, emittedAny, rebuilt;
        flushed, failed, emittedAny, rebuilt := RedactChoices(redactor, flushed, closing, choices);
        if failed {
          assert out + [] == out;
          FailureEndsStream(cfg, lines, i + 1);
          return;
        }
        if choices == [] {
          out := out + [Sent(frame)];
        } else if emittedAny || closing || !HasText(choices) {
          out := out + [Sent(frame.(choices := Items(AsItems(rebuilt))))];
        } else {
          assert out + [] == out;
        }
    }
    assert lines[..|lines|] == lines;
    if !flushed {
      ghost var s := State(redactor.State(), flushed, lastFrame, false);
      var tail := CloseStream(redactor, s, if lastFrame.Some? then lastFrame.value else NO_FRAME);
      out := out + tail;
    } else {
      assert out + [] == out;
    }
  }
}
