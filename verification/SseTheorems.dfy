/** What reaches the client: no text lost, none of it before it was redacted, one flush. */
module SseTheorems {
  import opened Symbols
  import opened Patterns
  import opened Scanner
  import opened Redaction
  import opened Holdback
  import opened Streaming
  import opened StreamTheorems
  import opened Sse

  // The text of frames

  function Last<T>(s: seq<T>): T requires s != [] { s[|s| - 1] }
  function Init<T>(s: seq<T>): seq<T> requires s != [] { s[..|s| - 1] }

  function ContentText(choice: Choice): Text {
    if ContentOf(choice).Some? then ContentOf(choice).value else []
  }

  /** The content of choices, in order. */
  function TextOf(choices: seq<Choice>): Text {
    if choices == [] then [] else TextOf(Init(choices)) + ContentText(Last(choices))
  }

  function OutputText(output: Output): Text {
    if output.Sent? then TextOf(ChoicesOf(output.frame)) else []
  }

  /** The delta text that the client receives. */
  function ClientText(out: seq<Output>): Text {
    if out == [] then [] else ClientText(Init(out)) + OutputText(Last(out))
  }

  lemma {:induction false} ClientTextJoins(a: seq<Output>, b: seq<Output>)
    ensures ClientText(a + b) == ClientText(a) + ClientText(b)
  {
    if b == [] {
      assert a + b == a;
    } else {
      ClientTextJoins(a, Init(b));
      assert Init(a + b) == a + Init(b) && Last(a + b) == Last(b);
      Associative(ClientText(a), ClientText(Init(b)), OutputText(Last(b)));
    }
  }

  lemma {:induction false} GoodAsItems(choices: seq<Choice>)
    ensures GoodOf(AsItems(choices)) == choices
  {
    if choices != [] {
      GoodAsItems(choices[1..]);
      assert AsItems(choices)[1..] == AsItems(choices[1..]);
    }
  }

  lemma OneOutput(output: Output)
    ensures ClientText([output]) == OutputText(output)
  {
    assert Init([output]) == [];
  }

  lemma WithContentText(frame: Frame, text: Text)
    ensures OutputText(Sent(WithContent(frame, text))) == text
  {
    var choice := WithContent(frame, text).choices.items[0].choice;
    GoodAsItems([choice]);
    assert WithContent(frame, text).choices.items == [Good(choice)] + AsItems([]) == AsItems([choice]);
    assert Init([choice]) == [] && TextOf([choice]) == [] + ContentText(choice);
  }

  // What a stream asks of the redactor

  /** A content string, which closes the redactor when its frame carries a finish reason; or the end of
      the stream. */
  datatype Event = Text(text: Text, closing: bool) | End

  function ChoiceEvent(choice: Choice, closing: bool): seq<Event> {
    if ContentOf(choice).Some? then [Text(ContentOf(choice).value, closing)] else []
  }

  function ChoiceEvents(choices: seq<Choice>, closing: bool): seq<Event> {
    if choices == [] then []
    else ChoiceEvents(Init(choices), closing) + ChoiceEvent(Last(choices), closing)
  }

  /** Some choice of the frame has a finish reason. */
  predicate Finishes(frame: Frame) {
    exists c <- ChoicesOf(frame) :: c.finishReason.Some?
  }

  lemma {:induction false} FirstReasonIff(choices: seq<Choice>)
    ensures FirstReason(choices).Some? <==> exists c <- choices :: c.finishReason.Some?
  {
    if choices != [] {
      FirstReasonIff(choices[1..]);
      assert forall c <- choices :: c == choices[0] || c in choices[1..];
    }
  }

  lemma FinishesIff(frame: Frame)
    ensures FinishReasonOf(frame).Some? <==> Finishes(frame)
  {
    FirstReasonIff(ChoicesOf(frame));
  }

  function LineEvents(line: Line): seq<Event> {
    match line
    case DoneMarker => [End]
    case Data(frame) => ChoiceEvents(ChoicesOf(frame), Finishes(frame))
    case _ => []
  }

  function Events(lines: seq<Line>): seq<Event> {
    if lines == [] then [] else Events(Init(lines)) + LineEvents(Last(lines))
  }

  /** The text up to the point where the redactor is closed, and the content strings after it. */
  datatype Script = Script(closed: bool, before: Text, after: seq<Text>)

  function ScriptOf(evs: seq<Event>): Script {
    if evs == [] then Script(false, [], [])
    else
      var s := ScriptOf(Init(evs));
      match Last(evs)
      case End => s.(closed := true)
      case Text(text, closing) =>
        if s.closed then s.(after := s.after + [text])
        else Script(closing, s.before + text, s.after)
  }

  function Separately(cfg: Config, texts: seq<Text>): Text {
    if texts == [] then []
    else Separately(cfg, Init(texts)) + RedactComplete(cfg.rules, Last(texts), DEFAULT_PLACEHOLDER)
  }

  /** What the client must receive. */
  function Expected(cfg: Config, s: Script): Text {
    RedactComplete(cfg.rules, s.before, cfg.placeholder) + Separately(cfg, s.after)
  }

  // The redactor at work on events

  datatype Player = Player(redactor: Redactor, flushed: bool, failed: bool, text: Text)

  const READY := Player(FRESH, false, false, [])

  function Play(cfg: Config, p: Player, e: Event): Player {
    if p.failed then p
    else
      match e
      case End =>
        if p.flushed then p
        else Player(Flush(cfg, p.redactor).0, true, false, p.text + Flush(cfg, p.redactor).1)
      case Text(text, closing) =>
        var (r, flushed, safe) := SafeText(cfg, p.redactor, p.flushed, text, closing);
        if safe == None then Player(r, flushed, true, p.text) else Player(r, flushed, false, p.text + safe.value)
  }

  function PlayAll(cfg: Config, p: Player, evs: seq<Event>): Player {
    if evs == [] then p else Play(cfg, PlayAll(cfg, p, Init(evs)), Last(evs))
  }

  lemma {:induction false} PlayJoins(cfg: Config, p: Player, a: seq<Event>, b: seq<Event>)
    ensures PlayAll(cfg, p, a + b) == PlayAll(cfg, PlayAll(cfg, p, a), b)
  {
    hide Play;
    if b == [] {
      assert a + b == a;
    } else {
      PlayJoins(cfg, p, a, Init(b));
      assert Init(a + b) == a + Init(b);
    }
  }

  /** Before the redactor is closed it is in step with the text to come; after that, the client has
      what it must receive. In particular it is never fed when closed. */
  predicate OnTrack(cfg: Config, p: Player, s: Script, t: Text) {
    && !p.failed && p.flushed == s.closed == p.redactor.closed
    && (if s.closed then p.text == Expected(cfg, s)
        else s.after == [] && s.before <= t && InStep(cfg, p.redactor, |s.before|, t, Decide(cfg.rules, t), p.text))
  }

  lemma FeedOnTrack(cfg: Config, p: Player, s: Script, text: Text, t: Text)
    requires HoldsEnough(cfg.rules, cfg.maxHoldback)
    requires !s.closed && OnTrack(cfg, p, s, t) && s.before + text <= t
    ensures var (fed, safe) := Feed(cfg, p.redactor, text);
            safe.Some? && InStep(cfg, fed, |s.before + text|, t, Decide(cfg.rules, t), p.text + safe.value)
  {
    assert text == t[|s.before|..|s.before + text|];
    FeedInStep(cfg, p.redactor, |s.before|, |s.before + text|, t, p.text);
  }

  lemma ContentOnTrack(cfg: Config, p: Player, s: Script, text: Text, closing: bool, t: Text)
    requires HoldsEnough(cfg.rules, cfg.maxHoldback)
    requires !s.closed && OnTrack(cfg, p, s, t) && s.before + text <= t && (closing ==> t == s.before + text)
    ensures OnTrack(cfg, Play(cfg, p, Text(text, closing)), Script(closing, s.before + text, s.after), t)
  {
    FeedOnTrack(cfg, p, s, text, t);
    if closing {
      var (fed, safe) := Feed(cfg, p.redactor, text);
      FlushCompletes(cfg, fed, t, p.text + safe.value);
      Associative(p.text, safe.value, Flush(cfg, fed).1);
    }
  }

  lemma LateContentOnTrack(cfg: Config, p: Player, s: Script, text: Text, closing: bool, t: Text)
    requires s.closed && OnTrack(cfg, p, s, t)
    ensures OnTrack(cfg, Play(cfg, p, Text(text, closing)), s.(after := s.after + [text]), t)
  {
    assert Init(s.after + [text]) == s.after;
    assert Expected(cfg, s.(after := s.after + [text]))
        == Expected(cfg, s) + RedactComplete(cfg.rules, text, DEFAULT_PLACEHOLDER);
  }

  lemma EndOnTrack(cfg: Config, p: Player, s: Script)
    requires !s.closed && OnTrack(cfg, p, s, s.before)
    ensures OnTrack(cfg, Play(cfg, p, End), s.(closed := true), s.before)
  {
    FlushCompletes(cfg, p.redactor, s.before, p.text);
  }

  lemma {:induction false} PlayOnTrack(cfg: Config, evs: seq<Event>, t: Text)
    requires HoldsEnough(cfg.rules, cfg.maxHoldback)
    requires ScriptOf(evs).closed || ScriptOf(evs).before <= t
    ensures OnTrack(cfg, PlayAll(cfg, READY, evs), ScriptOf(evs), t)
    decreases |evs|
  {
    if evs != [] {
      var s, now := ScriptOf(Init(evs)), ScriptOf(evs);
      var u := if now.closed then now.before else t;
      PlayOnTrack(cfg, Init(evs), u);
      var p := PlayAll(cfg, READY, Init(evs));
      match Last(evs)
      case End => if !s.closed { EndOnTrack(cfg, p, s); }
      case Text(text, closing) =>
        if s.closed {
          LateContentOnTrack(cfg, p, s, text, closing, u);
        } else {
          ContentOnTrack(cfg, p, s, text, closing, u);
        }
    }
  }

  // The transformer asks the redactor for exactly the events of its lines

  function PlayerOf(b: Batch, text: Text): Player {
    Player(b.redactor, b.flushed, b.failed, text + TextOf(b.rebuilt))
  }

  lemma TextOfPlus(choices: seq<Choice>, choice: Choice)
    ensures TextOf(choices + [choice]) == TextOf(choices) + ContentText(choice)
  {
    assert Init(choices + [choice]) == choices;
  }

  lemma AbsorbIsPlay(b: Batch, closing: bool, choice: Choice, r: Redactor, flushed: bool, safe: Option<Text>,
                     text: Text)
    requires choice.delta.Object?
    ensures PlayerOf(Absorb(b, closing, choice, r, flushed, safe), text)
         == Player(r, flushed, safe == None, text + TextOf(b.rebuilt) + if safe.Some? then safe.value else [])
  {
    if safe.Some? {
      TextOfPlus(b.rebuilt, SetContent(choice, Str(safe.value)));
      TextOfPlus(b.rebuilt, SetContent(choice, Absent));
      Associative(text, TextOf(b.rebuilt), safe.value);
    } else {
      assert text + TextOf(b.rebuilt) + [] == text + TextOf(b.rebuilt);
    }
  }

  lemma PlayOne(cfg: Config, p: Player, e: Event)
    ensures PlayAll(cfg, p, [e]) == Play(cfg, p, e)
  {
    assert Init([e]) == [];
  }

  lemma ProcessOneIsPlay(cfg: Config, b: Batch, closing: bool, choice: Choice, text: Text)
    ensures PlayerOf(ProcessChoice(cfg, b, closing, choice), text)
         == PlayAll(cfg, PlayerOf(b, text), ChoiceEvent(choice, closing))
  {
    if ContentOf(choice) == None {
      TextOfPlus(b.rebuilt, Scrubbed(choice));
    } else {
      PlayOne(cfg, PlayerOf(b, text), Text(ContentOf(choice).value, closing));
      if !b.failed {
        var (r, flushed, safe) := SafeText(cfg, b.redactor, b.flushed, ContentOf(choice).value, closing);
        AbsorbIsPlay(b, closing, choice, r, flushed, safe, text);
        assert text + TextOf(b.rebuilt) + [] == text + TextOf(b.rebuilt);
      }
    }
  }

  lemma AbsorbEmits(b: Batch, closing: bool, choice: Choice, r: Redactor, flushed: bool, safe: Option<Text>)
    requires choice.delta.Object? && (b.emitted || TextOf(b.rebuilt) == [])
    ensures var b' := Absorb(b, closing, choice, r, flushed, safe); b'.emitted || TextOf(b'.rebuilt) == []
  {
    TextOfPlus(b.rebuilt, SetContent(choice, Absent));
  }

  /** As long as no text was emitted, the choices rebuilt carry none. */
  lemma NothingEmitted(cfg: Config, b: Batch, closing: bool, choice: Choice)
    requires b.emitted || TextOf(b.rebuilt) == []
    ensures var b' := ProcessChoice(cfg, b, closing, choice); b'.emitted || TextOf(b'.rebuilt) == []
  {
    if !b.failed {
      if ContentOf(choice) == None {
        TextOfPlus(b.rebuilt, Scrubbed(choice));
      } else {
        var (r, flushed, safe) := SafeText(cfg, b.redactor, b.flushed, ContentOf(choice).value, closing);
        AbsorbEmits(b, closing, choice, r, flushed, safe);
      }
    }
  }

  lemma {:induction false} NothingEmittedByAll(cfg: Config, b: Batch, closing: bool, choices: seq<Choice>)
    requires b.emitted || TextOf(b.rebuilt) == []
    ensures var b' := ProcessChoices(cfg, b, closing, choices); b'.emitted || TextOf(b'.rebuilt) == []
    decreases |choices|
  {
    if choices != [] {
      NothingEmittedByAll(cfg, b, closing, Init(choices));
      NothingEmitted(cfg, ProcessChoices(cfg, b, closing, Init(choices)), closing, Last(choices));
    }
  }

  lemma {:induction false} ProcessIsPlay(cfg: Config, b: Batch, closing: bool, choices: seq<Choice>, text: Text)
    ensures PlayerOf(ProcessChoices(cfg, b, closing, choices), text)
         == PlayAll(cfg, PlayerOf(b, text), ChoiceEvents(choices, closing))
    decreases |choices|
  {
    if choices != [] {
      ProcessIsPlay(cfg, b, closing, Init(choices), text);
      ProcessOneIsPlay(cfg, ProcessChoices(cfg, b, closing, Init(choices)), closing, Last(choices), text);
      PlayJoins(cfg, PlayerOf(b, text), ChoiceEvents(Init(choices), closing), ChoiceEvent(Last(choices), closing));
    }
  }

  function PlayerAt(s: State, text: Text): Player {
    Player(s.redactor, s.flushed, s.failed, text)
  }

  lemma CloseIsPlay(cfg: Config, s: State, frame: Frame, text: Text)
    requires !s.failed
    ensures var (s', tail) := Close(cfg, s, frame);
            !s'.failed && PlayerAt(s', text + ClientText(tail)) == Play(cfg, PlayerAt(s, text), End)
  {
    if s.flushed {
      assert text + [] == text;
    } else {
      var tail := Flush(cfg, s.redactor).1;
      OneOutput(Sent(WithContent(frame, tail)));
      WithContentText(frame, tail);
    }
  }

  lemma RebuiltText(frame: Frame, rebuilt: seq<Choice>)
    ensures OutputText(Sent(frame.(choices := Items(AsItems(rebuilt))))) == TextOf(rebuilt)
  {
    GoodAsItems(rebuilt);
  }

  lemma FrameIsPlay(cfg: Config, s: State, frame: Frame, text: Text)
    requires !s.failed
    ensures var (s', out) := StepFrame(cfg, s, frame);
            !s'.failed ==>
              PlayerAt(s', text + ClientText(out)) == PlayAll(cfg, PlayerAt(s, text), LineEvents(Data(frame)))
    ensures StepFrame(cfg, s, frame).0.failed ==
              PlayAll(cfg, PlayerAt(s, text), LineEvents(Data(frame))).failed
  {
    FinishesIff(frame);
    hide Play, PlayAll, ProcessChoice, HasText, GoodOf, Finishes;
    var choices, closing := ChoicesOf(frame), FinishReasonOf(frame).Some?;
    var b0 := Batch(s.redactor, s.flushed, s.failed, false, []);
    var b := ProcessChoices(cfg, b0, closing, choices);
    assert text + TextOf([]) == text;
    ProcessIsPlay(cfg, b0, closing, choices, text);
    NothingEmittedByAll(cfg, b0, closing, choices);
    RebuiltText(frame, b.rebuilt);
    OneOutput(Sent(frame.(choices := Items(AsItems(b.rebuilt)))));
    OneOutput(Sent(frame));
  }

  lemma LineIsPlay(cfg: Config, s: State, line: Line, text: Text)
    requires !s.failed
    ensures var (s', out) := StepLine(cfg, s, line);
            !s'.failed ==>
              PlayerAt(s', text + ClientText(out)) == PlayAll(cfg, PlayerAt(s, text), LineEvents(line))
    ensures StepLine(cfg, s, line).0.failed == PlayAll(cfg, PlayerAt(s, text), LineEvents(line)).failed
  {
    assert text + [] == text;
    match line
    case Data(frame) =>
      FrameIsPlay(cfg, s, frame, text);
    case DoneMarker =>
      var frame := if s.lastFrame.Some? then s.lastFrame.value else NO_FRAME;
      CloseIsPlay(cfg, s, frame, text);
      assert Init([End]) == [];
      ClientTextJoins(Close(cfg, s, frame).1, [Forwarded(line)]);
      OneOutput(Forwarded(line));
    case _ =>
      if !line.Blank? { OneOutput(Forwarded(line)); }
  }

  lemma {:induction false} StepsArePlay(cfg: Config, lines: seq<Line>)
    requires HoldsEnough(cfg.rules, cfg.maxHoldback)
    ensures var (s, out) := Steps(cfg, lines);
            !s.failed && PlayerAt(s, ClientText(out)) == PlayAll(cfg, READY, Events(lines))
    decreases |lines|
  {
    if lines != [] {
      var before, line := Init(lines), Last(lines);
      StepsArePlay(cfg, before);
      var (s, out) := Steps(cfg, before);
      LineIsPlay(cfg, s, line, ClientText(out));
      PlayJoins(cfg, READY, Events(before), LineEvents(line));
      PlayOnTrack(cfg, Events(lines), ScriptOf(Events(lines)).before);
      ClientTextJoins(out, StepLine(cfg, s, line).1);
    }
  }

  // The flag and the redactor

  predicate FlagHolds(failed: bool, flushed: bool, r: Redactor) {
    !failed && flushed == r.closed
  }

  lemma SafeTextKeepsFlag(cfg: Config, r: Redactor, flushed: bool, text: Text, closing: bool)
    requires flushed == r.closed
    ensures var (r', flushed', safe) := SafeText(cfg, r, flushed, text, closing);
            && safe.Some? && flushed' == r'.closed && flushed' == (flushed || closing)
  {
    if !flushed {
      FeedStaysOpen(cfg, r, text);
      hide Feed, RedactFrom;
    }
  }

  lemma ChoiceKeepsFlag(cfg: Config, b: Batch, closing: bool, choice: Choice)
    requires FlagHolds(b.failed, b.flushed, b.redactor)
    ensures var b' := ProcessChoice(cfg, b, closing, choice);
            && FlagHolds(b'.failed, b'.flushed, b'.redactor)
            && b'.flushed == (b.flushed || (closing && ContentOf(choice).Some?))
  {
    hide SafeText;
    if ContentOf(choice).Some? {
      SafeTextKeepsFlag(cfg, b.redactor, b.flushed, ContentOf(choice).value, closing);
    }
  }

  predicate HasContent(choices: seq<Choice>) {
    choices != [] && (HasContent(Init(choices)) || ContentOf(Last(choices)).Some?)
  }

  lemma {:induction false} ChoicesKeepFlag(cfg: Config, b: Batch, closing: bool, choices: seq<Choice>)
    requires FlagHolds(b.failed, b.flushed, b.redactor)
    ensures var b' := ProcessChoices(cfg, b, closing, choices);
            && FlagHolds(b'.failed, b'.flushed, b'.redactor)
            && b'.flushed == (b.flushed || (closing && HasContent(choices)))
    decreases |choices|
  {
    if choices != [] {
      hide ProcessChoice;
      ChoicesKeepFlag(cfg, b, closing, Init(choices));
      ChoiceKeepsFlag(cfg, ProcessChoices(cfg, b, closing, Init(choices)), closing, Last(choices));
    }
  }

  lemma {:induction false} HasContentMeans(choices: seq<Choice>)
    ensures HasContent(choices) <==> exists choice <- choices :: ContentOf(choice).Some?
  {
    if choices != [] {
      HasContentMeans(Init(choices));
      assert choices == Init(choices) + [Last(choices)];
    }
  }

  /** A frame closes the redactor if and only if it has a finish reason and, in some choice, a content
      string: a finish frame without content leaves the redactor open, and what it holds unsent. */
  lemma FrameClosesIff(cfg: Config, s: State, frame: Frame)
    requires FlagHolds(s.failed, s.flushed, s.redactor)
    ensures var s' := StepFrame(cfg, s, frame).0;
            && FlagHolds(s'.failed, s'.flushed, s'.redactor)
            && (s'.flushed <==>
                s.flushed || (Finishes(frame) && exists c <- ChoicesOf(frame) :: ContentOf(c).Some?))
  {
    var choices, closing := ChoicesOf(frame), FinishReasonOf(frame).Some?;
    ChoicesKeepFlag(cfg, Batch(s.redactor, s.flushed, s.failed, false, []), closing, choices);
    HasContentMeans(choices);
    FinishesIff(frame);
    hide ProcessChoices, HasContent, HasText, Flush, Finishes;
  }

  lemma LineKeepsFlag(cfg: Config, s: State, line: Line)
    requires FlagHolds(s.failed, s.flushed, s.redactor)
    ensures var s' := StepLine(cfg, s, line).0; FlagHolds(s'.failed, s'.flushed, s'.redactor)
  {
    if line.Data? {
      FrameClosesIff(cfg, s, line.frame);
    }
    hide StepFrame;
  }

  /** In every state that a stream of lines leads to, under any rules and any cap, the transformer's flag
      says whether the redactor is closed; no closed redactor was ever fed. */
  lemma {:induction false} NeverFedWhenClosed(cfg: Config, lines: seq<Line>)
    ensures var s := Steps(cfg, lines).0; !s.failed && s.flushed == s.redactor.closed
    decreases |lines|
  {
    if lines != [] {
      hide StepLine;
      NeverFedWhenClosed(cfg, Init(lines));
      LineKeepsFlag(cfg, Steps(cfg, Init(lines)).0, Last(lines));
    }
  }

  /** The client receives the redaction of all the content up to the point where the redactor is
      closed, as one text however it was cut into frames and choices, and then every later content
      string redacted on its own. */
  lemma ClientReceives(cfg: Config, lines: seq<Line>)
    requires HoldsEnough(cfg.rules, cfg.maxHoldback)
    ensures var (s, out) := Transform(cfg, lines);
            && ClientText(out) == Expected(cfg, ScriptOf(Events(lines)))
            && !s.failed && s.flushed && s.redactor.closed
  {
    StepsArePlay(cfg, lines);
    var (s, out) := Steps(cfg, lines);
    var frame := if s.lastFrame.Some? then s.lastFrame.value else NO_FRAME;
    CloseIsPlay(cfg, s, frame, ClientText(out));
    ClientTextJoins(out, Close(cfg, s, frame).1);
    var evs := Events(lines) + [End];
    assert Init(evs) == Events(lines);
    PlayOnTrack(cfg, evs, ScriptOf(evs).before);
  }

  /** All the content of a stream. */
  function AllContent(evs: seq<Event>): Text {
    if evs == [] then [] else AllContent(Init(evs)) + if Last(evs).Text? then Last(evs).text else []
  }

  lemma {:induction false} ContentSplits(evs: seq<Event>)
    requires ScriptOf(evs).after == []
    ensures ScriptOf(evs).before == AllContent(evs)
    decreases |evs|
  {
    if evs != [] {
      ContentSplits(Init(evs));
    }
  }

  /** A stream without content after its end is redacted as the whole text is: streaming or not, the
      policy is the same. */
  lemma StreamingAgreesWithWhole(cfg: Config, lines: seq<Line>)
    requires HoldsEnough(cfg.rules, cfg.maxHoldback)
    requires ScriptOf(Events(lines)).after == []
    ensures ClientText(Transform(cfg, lines).1)
         == RedactComplete(cfg.rules, AllContent(Events(lines)), cfg.placeholder)
  {
    ClientReceives(cfg, lines);
    ContentSplits(Events(lines));
  }

  // The finish frame and the tail

  function OneChoice(content: Content, finishReason: Option<Value>): Frame {
    Frame(Items([Good(Choice(Object(content, map[]), finishReason, map[]))]), map[])
  }

  const LETTER := [Ascii('a')]
  const TEXT_FRAME := OneChoice(Str(LETTER), None)
  const FINISH_FRAME := OneChoice(Absent, Some(Opaque(0)))

  lemma LetterIsHeld(cfg: Config)
    requires cfg.maxHoldback > 0
    ensures var (s, emitted) := Feed(cfg, FRESH, LETTER);
            s.buffer == LETTER && s.leftContext == [] && !s.closed && emitted == Some([])
  {
    TailWithheld(TAIL_TOKEN, LETTER, cfg.maxHoldback, 0);
    HoldbackBounded(LETTER, cfg.maxHoldback);
    assert [] + LETTER == LETTER;
    var ms := Scan(Decide(cfg.rules, LETTER), 0);
    ScanInOrder(Decide(cfg.rules, LETTER), 0);
    PullBackFacts(ms, 0, 0, 1);
    assert Redacted(LETTER, 0, 0, ms, cfg.placeholder) == LETTER[0..0] == [];
    assert LETTER[0..] == LETTER && [] + LETTER[..0] == [];
    hide Decide, Scan, HoldbackOf, Redacted, Labels, UpTo;
  }

  lemma OneChoiceFrame(content: Content, finishReason: Option<Value>)
    ensures var frame, choice := OneChoice(content, finishReason), Choice(Object(content, map[]), finishReason, map[]);
            && ChoicesOf(frame) == [choice] && FinishReasonOf(frame) == finishReason
            && frame.(choices := Items(AsItems([choice]))) == frame
  {
    var choice := Choice(Object(content, map[]), finishReason, map[]);
    assert [Good(choice)][1..] == [] && [choice][1..] == [];
    assert GoodOf([Good(choice)]) == [choice] + GoodOf([]) == [choice];
    assert AsItems([choice]) == [Good(choice)] + AsItems([]) == [Good(choice)];
    assert FirstReason([choice]) == finishReason by { assert FirstReason([]) == None; }
  }

  lemma ProcessOne(cfg: Config, b: Batch, closing: bool, choice: Choice)
    ensures ProcessChoices(cfg, b, closing, [choice]) == ProcessChoice(cfg, b, closing, choice)
  {
    hide ProcessChoice;
    assert [choice][..0] == [];
  }

  lemma TextFrameIsHeld(cfg: Config)
    requires cfg.maxHoldback > 0
    ensures StepFrame(cfg, START, TEXT_FRAME) == (State(Feed(cfg, FRESH, LETTER).0, false, Some(TEXT_FRAME), false), [])
  {
    hide Feed, ProcessChoices;
    var choice := Choice(Object(Str(LETTER), map[]), None, map[]);
    LetterIsHeld(cfg);
    OneChoiceFrame(Str(LETTER), None);
    ProcessOne(cfg, Batch(FRESH, false, false, false, []), false, choice);
    assert choice in [choice] && HasText([choice]);
  }

  lemma FinishFrameIsSent(cfg: Config, s: State)
    requires !s.failed && !s.flushed
    ensures StepFrame(cfg, s, FINISH_FRAME) == (s.(lastFrame := Some(FINISH_FRAME)), [Sent(FINISH_FRAME)])
  {
    hide ProcessChoices, SafeText;
    var choice := Choice(Object(Absent, map[]), Some(Opaque(0)), map[]);
    OneChoiceFrame(Absent, Some(Opaque(0)));
    ProcessOne(cfg, Batch(s.redactor, false, false, false, []), true, choice);
    assert [] + [choice] == [choice];
  }

  lemma TwoSteps(cfg: Config, a: Line, b: Line)
    ensures var (s, out) := StepLine(cfg, START, a);
            var (s', more) := StepLine(cfg, s, b);
            Steps(cfg, [a, b]) == (s', out + more)
  {
    hide StepLine;
    assert [a, b][..1] == [a] && [a][..0] == [];
    assert Steps(cfg, [a]) == (StepLine(cfg, START, a).0, [] + StepLine(cfg, START, a).1);
    assert [] + StepLine(cfg, START, a).1 == StepLine(cfg, START, a).1;
  }

  /** The usual last frame has a finish reason and an empty delta. It goes out while text is still held,
      and that text follows it, with the end marker. */
  lemma TailFollowsFinish(cfg: Config)
    requires cfg.maxHoldback > 0
    ensures var (s, out) := Steps(cfg, [Data(TEXT_FRAME), Data(FINISH_FRAME)]);
            && out == [Sent(FINISH_FRAME)] && !s.flushed && s.redactor.buffer == LETTER
            && StepLine(cfg, s, DoneMarker).1 ==
               Tail(s, FINISH_FRAME, RedactComplete(cfg.rules, LETTER, cfg.placeholder)) + [Forwarded(DoneMarker)]
  {
    hide Feed, StepFrame, RedactFrom, Decide;
    LetterIsHeld(cfg);
    TextFrameIsHeld(cfg);
    FinishFrameIsSent(cfg, State(Feed(cfg, FRESH, LETTER).0, false, Some(TEXT_FRAME), false));
    TwoSteps(cfg, Data(TEXT_FRAME), Data(FINISH_FRAME));
    assert [] + [Sent(FINISH_FRAME)] == [Sent(FINISH_FRAME)] && [] + LETTER == LETTER;
  }

  // Lines that are not frames

  /** What is forwarded as it came. */
  function ForwardedIn(out: seq<Output>): seq<Line> {
    if out == [] then []
    else ForwardedIn(Init(out)) + if Last(out).Forwarded? then [Last(out).line] else []
  }

  function NotFrames(lines: seq<Line>): seq<Line> {
    if lines == [] then []
    else NotFrames(Init(lines)) + if Last(lines).Blank? || Last(lines).Data? then [] else [Last(lines)]
  }

  lemma {:induction false} ForwardedJoins(a: seq<Output>, b: seq<Output>)
    ensures ForwardedIn(a + b) == ForwardedIn(a) + ForwardedIn(b)
  {
    if b == [] {
      assert a + b == a;
    } else {
      ForwardedJoins(a, Init(b));
      assert Init(a + b) == a + Init(b) && Last(a + b) == Last(b);
    }
  }

  lemma ForwardedByStep(cfg: Config, s: State, line: Line)
    requires !s.failed
    ensures ForwardedIn(StepLine(cfg, s, line).1) == if line.Blank? || line.Data? then [] else [line]
  {
    hide ProcessChoices, HasText, Flush;
    match line
    case Data(frame) =>
      var out := StepFrame(cfg, s, frame).1;
      assert |out| <= 1 && (out != [] ==> out[0].Sent? && Init(out) == []);
    case DoneMarker =>
      var frame := if s.lastFrame.Some? then s.lastFrame.value else NO_FRAME;
      var tail := Close(cfg, s, frame).1;
      ForwardedJoins(tail, [Forwarded(line)]);
      assert tail != [] ==> tail[0].Sent? && Init(tail) == [];
      assert Init([Forwarded(line)]) == [];
    case _ =>
      assert Init([Forwarded(line)]) == [];
  }

  /** Every line that is neither blank nor a frame, the end marker included, is forwarded unchanged, once
      and in order. */
  lemma {:induction false} OtherLinesPassThrough(cfg: Config, lines: seq<Line>)
    ensures ForwardedIn(Steps(cfg, lines).1) == NotFrames(lines)
    decreases |lines|
  {
    if lines != [] {
      OtherLinesPassThrough(cfg, Init(lines));
      NeverFedWhenClosed(cfg, Init(lines));
      ForwardedByStep(cfg, Steps(cfg, Init(lines)).0, Last(lines));
      ForwardedJoins(Steps(cfg, Init(lines)).1, StepLine(cfg, Steps(cfg, Init(lines)).0, Last(lines)).1);
    }
  }

  // What frames look like

  /** A string is replaced by a string that is not empty, or removed; other content is removed. */
  predicate Replaces(was: Content, content: Content) {
    match was
    case Absent => content == Absent
    case Null => content == Null
    case Str(_) => content == Absent || (content.Str? && content.text != [])
    case NotText(_) => content == Absent
  }

  /** The same choice, except perhaps for its content. */
  predicate SameButContent(a: Choice, b: Choice) {
    && a.finishReason == b.finishReason && a.others == b.others
    && if a.delta.Object?
       then b.delta.Object? && a.delta.others == b.delta.others && Replaces(a.delta.content, b.delta.content)
       else a.delta == b.delta
  }

  predicate SameChoices(as_: seq<Choice>, bs: seq<Choice>) {
    |as_| == |bs| && forall i | 0 <= i < |as_| :: SameButContent(as_[i], bs[i])
  }

  lemma ClosingKeepsChoice(cfg: Config, b: Batch, choice: Choice)
    requires !ProcessChoice(cfg, b, true, choice).failed
    ensures !b.failed
    ensures var b' := ProcessChoice(cfg, b, true, choice);
            b'.rebuilt != [] && b'.rebuilt == b.rebuilt + [Last(b'.rebuilt)] && SameButContent(choice, Last(b'.rebuilt))
  {
    hide SafeText;
    if ContentOf(choice).Some? {
      var (r, flushed, safe) := SafeText(cfg, b.redactor, b.flushed, ContentOf(choice).value, true);
      assert !b.failed ==> !Absorb(b, true, choice, r, flushed, safe).failed;
    }
  }

  lemma SameChoicesPlus(as_: seq<Choice>, bs: seq<Choice>, a: Choice, b: Choice)
    requires SameChoices(as_, bs) && SameButContent(a, b)
    ensures SameChoices(as_ + [a], bs + [b])
  {}

  lemma {:induction false} ClosingKeepsChoices(cfg: Config, b: Batch, choices: seq<Choice>)
    requires b.rebuilt == [] && !ProcessChoices(cfg, b, true, choices).failed
    ensures SameChoices(choices, ProcessChoices(cfg, b, true, choices).rebuilt)
    decreases |choices|
  {
    hide ProcessChoice, SameChoices, SameButContent;
    if choices != [] {
      var before := ProcessChoices(cfg, b, true, Init(choices));
      ClosingKeepsChoice(cfg, before, Last(choices));
      ClosingKeepsChoices(cfg, b, Init(choices));
      var rebuilt := ProcessChoices(cfg, b, true, choices).rebuilt;
      SameChoicesPlus(Init(choices), before.rebuilt, Last(choices), Last(rebuilt));
      assert choices == Init(choices) + [Last(choices)];
    } else {
      NoChoicesSame();
    }
  }

  lemma NoChoicesSame()
    ensures SameChoices([], [])
  {}

  lemma FinishFrameStep(cfg: Config, s: State, frame: Frame)
    requires FinishReasonOf(frame).Some? && !StepFrame(cfg, s, frame).0.failed
    ensures var out := StepFrame(cfg, s, frame).1;
            && |out| == 1 && out[0].Sent? && out[0].frame.others == frame.others
            && SameChoices(ChoicesOf(frame), ChoicesOf(out[0].frame))
  {
    hide ProcessChoices, SameChoices, GoodOf;
    var b := Batch(s.redactor, s.flushed, s.failed, false, []);
    ClosingKeepsChoices(cfg, b, ChoicesOf(frame));
    GoodAsItems(ProcessChoices(cfg, b, true, ChoicesOf(frame)).rebuilt);
  }

  /** After any lines, under any rules and any cap, a frame with a finish reason goes out, with all its
      well-formed choices in order. */
  lemma FinishFrameGoesOut(cfg: Config, lines: seq<Line>, frame: Frame)
    requires Finishes(frame)
    ensures var out := StepLine(cfg, Steps(cfg, lines).0, Data(frame)).1;
            && Steps(cfg, lines + [Data(frame)]).1 == Steps(cfg, lines).1 + out
            && |out| == 1 && out[0].Sent? && out[0].frame.others == frame.others
            && SameChoices(ChoicesOf(frame), ChoicesOf(out[0].frame))
  {
    hide StepFrame, SameChoices, Finishes, ChoicesOf, FinishReasonOf;
    var s := Steps(cfg, lines).0;
    NeverFedWhenClosed(cfg, lines);
    FrameClosesIff(cfg, s, frame);
    FinishesIff(frame);
    FinishFrameStep(cfg, s, frame);
    assert (lines + [Data(frame)])[..|lines|] == lines;
  }

  /** No content that is not a string, and no empty string. */
  predicate Presentable(choice: Choice) {
    choice.delta.Object? ==> !choice.delta.content.NotText? && choice.delta.content != Str([])
  }

  predicate AllPresentable(choices: seq<Choice>) {
    forall choice <- choices :: Presentable(choice)
  }

  lemma AbsorbPresentable(b: Batch, closing: bool, choice: Choice, r: Redactor, flushed: bool, safe: Option<Text>)
    requires choice.delta.Object? && AllPresentable(b.rebuilt)
    ensures AllPresentable(Absorb(b, closing, choice, r, flushed, safe).rebuilt)
  {}

  lemma {:induction false} ProcessedPresentable(cfg: Config, b: Batch, closing: bool, choices: seq<Choice>)
    requires AllPresentable(b.rebuilt)
    ensures AllPresentable(ProcessChoices(cfg, b, closing, choices).rebuilt)
    decreases |choices|
  {
    if choices != [] {
      ProcessedPresentable(cfg, b, closing, Init(choices));
      var before, choice := ProcessChoices(cfg, b, closing, Init(choices)), Last(choices);
      if ContentOf(choice).Some? {
        var (r, flushed, safe) := SafeText(cfg, before.redactor, before.flushed, ContentOf(choice).value, closing);
        AbsorbPresentable(before, closing, choice, r, flushed, safe);
      }
    }
  }

  lemma TailPresentable(s: State, frame: Frame, tail: Text)
    ensures forall output <- Tail(s, frame, tail) :: output.Sent? && AllPresentable(ChoicesOf(output.frame))
  {
    if tail != [] {
      var choice := WithContent(frame, tail).choices.items[0].choice;
      assert WithContent(frame, tail).choices.items == [Good(choice)] + AsItems([]) == AsItems([choice]);
      GoodAsItems([choice]);
    }
  }

  /** Nothing that the transformer sends has a choice with content that is not a string, which could
      not be inspected, or with an empty string. */
  lemma LineSendsPresentable(cfg: Config, s: State, line: Line)
    ensures forall output <- StepLine(cfg, s, line).1 :: output.Sent? ==> AllPresentable(ChoicesOf(output.frame))
  {
    if line.Data? {
      var b0 := Batch(s.redactor, s.flushed, s.failed, false, []);
      var b := ProcessChoices(cfg, b0, FinishReasonOf(line.frame).Some?, ChoicesOf(line.frame));
      ProcessedPresentable(cfg, b0, FinishReasonOf(line.frame).Some?, ChoicesOf(line.frame));
      GoodAsItems(b.rebuilt);
    } else if line.DoneMarker? {
      TailPresentable(s, if s.lastFrame.Some? then s.lastFrame.value else NO_FRAME, Flush(cfg, s.redactor).1);
    }
  }
}
