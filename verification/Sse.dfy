/** The server-sent-event transformer that puts the redactor on the wire. */
module Sse {
  import opened Symbols
  import opened Scanner
  import opened Redaction
  import opened Streaming

  // Frames, as far as the transformer looks into them

  datatype Value = Number(n: int) | Opaque(id: nat)

  type Fields = map<string, Value>

  datatype Content = Absent | Null | Str(text: Text) | NotText(value: Value)

  datatype Delta = NoDelta | NotAnObject(value: Value) | Object(content: Content, others: Fields)

  datatype Choice = Choice(delta: Delta, finishReason: Option<Value>, others: Fields)

  datatype Item = Junk(value: Value) | Good(choice: Choice)

  datatype Choices = NotAList(value: Option<Value>) | Items(items: seq<Item>)

  datatype Frame = Frame(choices: Choices, others: Fields)

  /** An upstream line: blank, not `data:`, the end marker, a payload that is not a JSON object, or a
      frame. */
  datatype Line = Blank | Other(raw: nat) | DoneMarker | Unparsed(raw: nat) | Data(frame: Frame)

  datatype Output = Forwarded(line: Line) | Sent(frame: Frame)

  function GoodOf(items: seq<Item>): seq<Choice> {
    if items == [] then []
    else (if items[0].Good? then [items[0].choice] else []) + GoodOf(items[1..])
  }

  /** `_choices_of` */
  function ChoicesOf(frame: Frame): seq<Choice> {
    if frame.choices.Items? then GoodOf(frame.choices.items) else []
  }

  /** `_content_of` */
  function ContentOf(choice: Choice): Option<Text> {
    if choice.delta.Object? && choice.delta.content.Str? then Some(choice.delta.content.text) else None
  }

  function FirstReason(choices: seq<Choice>): Option<Value> {
    if choices == [] then None
    else if choices[0].finishReason.Some? then choices[0].finishReason
    else FirstReason(choices[1..])
  }

  /** `_finish_reason_of` */
  function FinishReasonOf(frame: Frame): Option<Value> {
    FirstReason(ChoicesOf(frame))
  }

  function AsItems(choices: seq<Choice>): seq<Item> {
    if choices == [] then [] else [Good(choices[0])] + AsItems(choices[1..])
  }

  const NO_FRAME := Frame(NotAList(None), map[])

  /** `_with_content`: the frame with one choice, which carries the text. */
  function WithContent(frame: Frame, text: Text): Frame {
    var others := if ChoicesOf(frame) == [] then map[] else ChoicesOf(frame)[0].others;
    var indexed := if "index" in others then others else others["index" := Number(0)];
    frame.(choices := Items([Good(Choice(Object(Str(text), map[]), None, indexed))]))
  }

  // The transformer

  /** What becomes of a content string; None is the error of feeding a closed redactor. */
  function SafeText(cfg: Config, r: Redactor, flushed: bool, text: Text, closing: bool)
    : (Redactor, bool, Option<Text>)
  {
    if flushed then (r, true, Some(RedactComplete(cfg.rules, text, DEFAULT_PLACEHOLDER)))
    else
      match Feed(cfg, r, text)
      case (fed, None) => (fed, false, None)
      case (fed, Some(safe)) =>
        if closing then (Flush(cfg, fed).0, true, Some(safe + Flush(cfg, fed).1)) else (fed, false, Some(safe))
  }

  datatype Batch = Batch(redactor: Redactor, flushed: bool, failed: bool, emitted: bool, rebuilt: seq<Choice>)

  function SetContent(choice: Choice, content: Content): Choice
    requires choice.delta.Object?
  {
    choice.(delta := choice.delta.(content := content))
  }

  /** Content that is not a string is not forwarded. */
  function Scrubbed(choice: Choice): Choice {
    if choice.delta.Object? && choice.delta.content.NotText? then SetContent(choice, Absent) else choice
  }

  /** What a choice becomes, given what became of its content. */
  function Absorb(b: Batch, closing: bool, choice: Choice, r: Redactor, flushed: bool, safe: Option<Text>): Batch
    requires choice.delta.Object?
  {
    if safe == None then Batch(r, flushed, true, b.emitted, b.rebuilt)
    else if safe.value != [] then
      Batch(r, flushed, false, true, b.rebuilt + [SetContent(choice, Str(safe.value))])
    else if closing then
      Batch(r, flushed, false, b.emitted, b.rebuilt + [SetContent(choice, Absent)])
    else Batch(r, flushed, false, b.emitted, b.rebuilt)
  }

  function ProcessChoice(cfg: Config, b: Batch, closing: bool, choice: Choice): Batch {
    if b.failed then b
    else
      match ContentOf(choice)
      case None => b.(rebuilt := b.rebuilt + [Scrubbed(choice)])
      case Some(text) =>
        var (r, flushed, safe) := SafeText(cfg, b.redactor, b.flushed, text, closing);
        Absorb(b, closing, choice, r, flushed, safe)
  }

  function ProcessChoices(cfg: Config, b: Batch, closing: bool, choices: seq<Choice>): Batch {
    if choices == [] then b
    else
      var last := |choices| - 1;
      ProcessChoice(cfg, ProcessChoices(cfg, b, closing, choices[..last]), closing, choices[last])
  }

  /** Some content of the frame is a string that is not empty. */
  predicate HasText(choices: seq<Choice>) {
    exists choice <- choices :: ContentOf(choice).Some? && ContentOf(choice).value != []
  }

  datatype State = State(redactor: Redactor, flushed: bool, lastFrame: Option<Frame>, failed: bool)

  const START := State(FRESH, false, None, false)

  function Tail(s: State, frame: Frame, tail: Text): seq<Output> {
    if tail == [] then [] else [Sent(WithContent(frame, tail))]
  }

  /** Closing the redactor, unless that has been done, and sending what it still held in a frame of its
      own. */
  function Close(cfg: Config, s: State, frame: Frame): (State, seq<Output>) {
    if s.flushed then (s, [])
    else
      var (r, tail) := Flush(cfg, s.redactor);
      (s.(redactor := r, flushed := true), Tail(s, frame, tail))
  }

  function StepFrame(cfg: Config, s: State, frame: Frame): (State, seq<Output>) {
    var choices, closing := ChoicesOf(frame), FinishReasonOf(frame).Some?;
    var b := ProcessChoices(cfg, Batch(s.redactor, s.flushed, s.failed, false, []), closing, choices);
    var s' := State(b.redactor, b.flushed, Some(frame), b.failed);
    if b.failed then (s', [])
    else if choices == [] then
      if closing then var (closed, tail) := Close(cfg, s', frame); (closed, tail + [Sent(frame)])
      else (s', [Sent(frame)])
    else if b.emitted || closing || !HasText(choices) then
      (s', [Sent(frame.(choices := Items(AsItems(b.rebuilt))))])
    else (s', [])
  }

  function StepLine(cfg: Config, s: State, line: Line): (State, seq<Output>) {
    if s.failed then (s, [])
    else
      match line
      case Blank => (s, [])
      case Other(_) => (s, [Forwarded(line)])
      case Unparsed(_) => (s, [Forwarded(line)])
      case DoneMarker =>
        var (s', tail) := Close(cfg, s, if s.lastFrame.Some? then s.lastFrame.value else NO_FRAME);
        (s', tail + [Forwarded(line)])
      case Data(frame) => StepFrame(cfg, s, frame)
  }

  function Steps(cfg: Config, lines: seq<Line>): (State, seq<Output>) {
    if lines == [] then (START, [])
    else
      var (s, out) := Steps(cfg, lines[..|lines| - 1]);
      var (s', more) := StepLine(cfg, s, lines[|lines| - 1]);
      (s', out + more)
  }

  /** The whole stream, ended by the upstream. */
  function Transform(cfg: Config, lines: seq<Line>): (State, seq<Output>) {
    var (s, out) := Steps(cfg, lines);
    if s.failed then (s, out)
    else
      var (s', tail) := Close(cfg, s, if s.lastFrame.Some? then s.lastFrame.value else NO_FRAME);
      (s', out + tail)
  }
}
