/** Which frames go out, and what they carry besides text. */
module SseFrames {
  import opened Symbols
  import opened Patterns
  import opened Scanner
  import opened Redaction
  import opened Streaming
  import opened Sse
  import opened SseTheorems

  /** Some choices that have a content string are left out; all others come in the same order and differ at
      most in content. */
  predicate Thinned(choices: seq<Choice>, sent: seq<Choice>)
    decreases |choices|
  {
    if choices == [] then sent == []
    else
      || (ContentOf(Last(choices)).Some? && Thinned(Init(choices), sent))
      || (sent != [] && SameButContent(Last(choices), Last(sent)) && Thinned(Init(choices), Init(sent)))
  }

  /** Processing a choice adds at most one, and adds text exactly when it says so. */
  lemma ProcessedChoice(cfg: Config, b: Batch, closing: bool, choice: Choice)
    requires FlagHolds(b.failed, b.flushed, b.redactor)
    ensures var b' := ProcessChoice(cfg, b, closing, choice);
            && ((b'.rebuilt == b.rebuilt && ContentOf(choice).Some?)
                || (&& b'.rebuilt != [] && b'.rebuilt == b.rebuilt + [Last(b'.rebuilt)]
                    && SameButContent(choice, Last(b'.rebuilt))))
            && (b'.emitted && !b.emitted ==>
                  b'.rebuilt != [] && b'.rebuilt != b.rebuilt && ContentText(Last(b'.rebuilt)) != [])
            && (b.emitted ==> b'.emitted)
  {
    hide SafeText;
    if ContentOf(choice).Some? {
      SafeTextKeepsFlag(cfg, b.redactor, b.flushed, ContentOf(choice).value, closing);
      var (r, flushed, safe) := SafeText(cfg, b.redactor, b.flushed, ContentOf(choice).value, closing);
      assert b.rebuilt + [SetContent(choice, Str(safe.value))] != b.rebuilt;
    }
  }

  lemma ThinnedMore(choices: seq<Choice>, sent: seq<Choice>, sent': seq<Choice>)
    requires choices != [] && Thinned(Init(choices), sent)
    requires || (sent' == sent && ContentOf(Last(choices)).Some?)
             || (sent' != [] && sent' == sent + [Last(sent')] && SameButContent(Last(choices), Last(sent')))
    ensures Thinned(choices, sent')
  {
    if sent' != sent {
      assert Init(sent') == sent;
    }
  }

  lemma {:induction false} ProcessedChoices(cfg: Config, b: Batch, closing: bool, choices: seq<Choice>)
    requires FlagHolds(b.failed, b.flushed, b.redactor) && b.rebuilt == [] && !b.emitted
    ensures var b' := ProcessChoices(cfg, b, closing, choices);
            && FlagHolds(b'.failed, b'.flushed, b'.redactor) && Thinned(choices, b'.rebuilt)
            && (b'.emitted ==> TextOf(b'.rebuilt) != [])
    decreases |choices|
  {
    if choices != [] {
      hide ProcessChoice, SameButContent, Thinned;
      var before := ProcessChoices(cfg, b, closing, Init(choices));
      var after := ProcessChoices(cfg, b, closing, choices);
      ProcessedChoices(cfg, b, closing, Init(choices));
      ProcessedChoice(cfg, before, closing, Last(choices));
      ChoiceKeepsFlag(cfg, before, closing, Last(choices));
      ThinnedMore(choices, before.rebuilt, after.rebuilt);
      if after.emitted && after.rebuilt != before.rebuilt {
        assert Init(after.rebuilt) == before.rebuilt;
      }
    } else {
      assert Thinned([], []);
    }
  }

  /** The batch that a frame starts with. */
  function Fresh(s: State): Batch {
    Batch(s.redactor, s.flushed, s.failed, false, [])
  }

  /** A frame is answered by one frame at most, which has its other fields, its choices in order, except for
      some with a content string, and in them everything but content. Without well-formed choices it goes out
      as it came. */
  lemma FrameKeepsFields(cfg: Config, lines: seq<Line>, frame: Frame)
    ensures var out := StepLine(cfg, Steps(cfg, lines).0, Data(frame)).1;
            && |out| <= 1
            && (out != [] ==>
                  && out[0].Sent? && out[0].frame.others == frame.others
                  && Thinned(ChoicesOf(frame), ChoicesOf(out[0].frame)))
            && (ChoicesOf(frame) == [] ==> out == [Sent(frame)])
  {
    hide Thinned, HasText, Flush, ProcessChoice, Steps;
    var s, closing := Steps(cfg, lines).0, FinishReasonOf(frame).Some?;
    NeverFedWhenClosed(cfg, lines);
    ProcessedChoices(cfg, Fresh(s), closing, ChoicesOf(frame));
    GoodAsItems(ProcessChoices(cfg, Fresh(s), closing, ChoicesOf(frame)).rebuilt);
  }

  /** A frame is held back if and only if it has no finish reason, has content that is not empty, and
      nothing of that content can be sent yet. */
  lemma FrameHeldIff(cfg: Config, lines: seq<Line>, frame: Frame)
    ensures var s := Steps(cfg, lines).0;
            StepLine(cfg, s, Data(frame)).1 == [] <==>
              && !Finishes(frame) && !Silent(ChoicesOf(frame))
              && PlayAll(cfg, PlayerAt(s, []), LineEvents(Data(frame))).text == []
  {
    FinishesIff(frame);
    SilentIff(ChoicesOf(frame));
    hide Thinned, HasText, Silent, Finishes, Flush, ProcessChoice, Steps, Play, PlayAll;
    var s, choices, closing := Steps(cfg, lines).0, ChoicesOf(frame), FinishReasonOf(frame).Some?;
    var b := ProcessChoices(cfg, Fresh(s), closing, choices);
    NeverFedWhenClosed(cfg, lines);
    ProcessedChoices(cfg, Fresh(s), closing, choices);
    NothingEmittedByAll(cfg, Fresh(s), closing, choices);
    ProcessIsPlay(cfg, Fresh(s), closing, choices, []);
    assert [] + TextOf([]) == [] && [] + TextOf(b.rebuilt) == TextOf(b.rebuilt);
    assert choices == [] ==> !HasText(choices) by { NoChoicesNoText(); }
  }

  lemma NoChoicesNoText()
    ensures !HasText([])
  {}

  /** No choice has a content string other than the empty one. */
  predicate Silent(choices: seq<Choice>) {
    forall c <- choices :: ContentOf(c) == None || ContentOf(c) == Some([])
  }

  lemma SilentIff(choices: seq<Choice>)
    ensures Silent(choices) <==> !HasText(choices)
  {}

  // Choices by position

  /** How many well-formed choices stand before `k`. */
  function GoodBefore(items: seq<Item>, k: nat): nat
    requires k <= |items|
  {
    if k == 0 then 0 else GoodBefore(items, k - 1) + if items[k - 1].Good? then 1 else 0
  }

  lemma {:induction false} GoodJoin(a: seq<Item>, b: seq<Item>)
    ensures GoodOf(a + b) == GoodOf(a) + GoodOf(b)
  {
    if a == [] {
      assert a + b == b;
    } else {
      GoodJoin(a[1..], b);
      assert (a + b)[1..] == a[1..] + b;
      Associative(if a[0].Good? then [a[0].choice] else [], GoodOf(a[1..]), GoodOf(b));
    }
  }

  lemma OneGood(item: Item)
    ensures GoodOf([item]) == if item.Good? then [item.choice] else []
  {
    assert [item][1..] == [] && GoodOf([]) == [];
  }

  lemma {:induction false} GoodCounted(items: seq<Item>, k: nat)
    requires k <= |items|
    ensures |GoodOf(items[..k])| == GoodBefore(items, k)
  {
    if k > 0 {
      GoodCounted(items, k - 1);
      assert items[..k] == items[..k - 1] + [items[k - 1]];
      GoodJoin(items[..k - 1], [items[k - 1]]);
      OneGood(items[k - 1]);
    }
  }

  /** The choices that the transformer looks at are all the well-formed ones of the frame, in its order. */
  lemma ChoicesInOrder(frame: Frame, k: nat)
    requires frame.choices.Items? && k < |frame.choices.items| && frame.choices.items[k].Good?
    ensures var items, choices := frame.choices.items, ChoicesOf(frame);
            GoodBefore(items, k) < |choices| == GoodBefore(items, |items|)
            && choices[GoodBefore(items, k)] == items[k].choice
  {
    hide GoodOf, GoodBefore;
    var items := frame.choices.items;
    assert items[..|items|] == items;
    GoodCounted(items, |items|);
    GoodCounted(items, k);
    GoodJoin(items[..k], items[k..]);
    GoodJoin([items[k]], items[k + 1..]);
    assert items[..k] + items[k..] == items && [items[k]] + items[k + 1..] == items[k..];
    OneGood(items[k]);
  }

  // Frames without text

  /** The choices without a content string, without the content that is not a string. */
  function Quiet(choices: seq<Choice>): seq<Choice> {
    if choices == [] then []
    else Quiet(Init(choices)) + if ContentOf(Last(choices)) == None then [Scrubbed(Last(choices))] else []
  }

  lemma NothingOfNothing(rules: RuleSet, placeholder: Text)
    ensures RedactComplete(rules, [], placeholder) == []
  {}

  lemma QuietChoice(cfg: Config, b: Batch, choice: Choice)
    requires !b.failed && (ContentOf(choice).Some? ==> ContentOf(choice).value == [])
    requires b.flushed == b.redactor.closed
    ensures var b' := ProcessChoice(cfg, b, false, choice);
            && !b'.failed && b'.emitted == b.emitted && b'.flushed == b'.redactor.closed
            && b'.rebuilt == b.rebuilt + if ContentOf(choice) == None then [Scrubbed(choice)] else []
  {
    hide RedactComplete, FeedWith, Flush;
    NothingOfNothing(cfg.rules, DEFAULT_PLACEHOLDER);
    assert b.rebuilt + [] == b.rebuilt;
  }

  lemma {:induction false} QuietChoices(cfg: Config, b: Batch, choices: seq<Choice>)
    requires FlagHolds(b.failed, b.flushed, b.redactor) && b.rebuilt == [] && !b.emitted && !HasText(choices)
    ensures var b' := ProcessChoices(cfg, b, false, choices);
            FlagHolds(b'.failed, b'.flushed, b'.redactor) && !b'.emitted && b'.rebuilt == Quiet(choices)
    decreases |choices|
  {
    if choices != [] {
      hide ProcessChoice;
      assert forall c <- Init(choices) :: c in choices;
      assert Last(choices) in choices;
      QuietChoices(cfg, b, Init(choices));
      QuietChoice(cfg, ProcessChoices(cfg, b, false, Init(choices)), Last(choices));
    }
  }

  /** A frame without a finish reason and without text goes out, after any lines, with its other fields and
      with the choices that have no content string. */
  lemma QuietFrameGoesOut(cfg: Config, lines: seq<Line>, frame: Frame)
    requires !Finishes(frame) && Silent(ChoicesOf(frame))
    ensures var out := StepLine(cfg, Steps(cfg, lines).0, Data(frame)).1;
            && |out| == 1 && out[0].Sent? && out[0].frame.others == frame.others
            && ChoicesOf(out[0].frame) == Quiet(ChoicesOf(frame))
  {
    FinishesIff(frame);
    SilentIff(ChoicesOf(frame));
    hide ProcessChoices, HasText, Silent, Finishes, Flush, Steps, Quiet;
    var s, choices := Steps(cfg, lines).0, ChoicesOf(frame);
    NeverFedWhenClosed(cfg, lines);
    QuietChoices(cfg, Fresh(s), choices);
    GoodAsItems(Quiet(choices));
    assert choices == [] ==> Quiet(choices) == [] by { QuietOfNone(); }
  }

  lemma QuietOfNone()
    ensures Quiet([]) == []
  {}

  lemma {:induction false} QuietIsThinner(choices: seq<Choice>)
    ensures |Quiet(choices)| <= |choices|
    ensures |Quiet(choices)| == |choices| <==> forall c <- choices :: ContentOf(c) == None
    ensures |Quiet(choices)| == |choices| ==> SameChoices(choices, Quiet(choices))
    decreases |choices|
  {
    if choices != [] {
      hide SameChoices;
      var before, last := Init(choices), Last(choices);
      QuietIsThinner(before);
      assert choices == before + [last] && last in choices && forall c <- before :: c in choices;
      assert forall c <- choices :: c == last || c in before;
      if ContentOf(last) == None && |Quiet(before)| == |before| {
        SameChoicesPlus(before, Quiet(before), last, Scrubbed(last));
      }
    } else {
      assert SameChoices([], []);
    }
  }

  /** Such a frame goes out with all its choices if and only if none of them has an empty content string: a
      choice with one is dropped, and its role with it. */
  lemma QuietFrameIsWholeIff(cfg: Config, lines: seq<Line>, frame: Frame)
    requires !Finishes(frame) && Silent(ChoicesOf(frame))
    ensures var out := StepLine(cfg, Steps(cfg, lines).0, Data(frame)).1;
            && |out| == 1 && out[0].Sent?
            && (SameChoices(ChoicesOf(frame), ChoicesOf(out[0].frame)) <==>
                forall c <- ChoicesOf(frame) :: ContentOf(c) != Some([]))
  {
    hide StepLine, Steps;
    var choices := ChoicesOf(frame);
    QuietFrameGoesOut(cfg, lines, frame);
    QuietIsThinner(choices);
    assert (forall c <- choices :: ContentOf(c) == None) <==> (forall c <- choices :: ContentOf(c) != Some([]));
  }

  predicate NoContent(choice: Choice) {
    choice.delta.Object? ==> choice.delta.content.Absent? || choice.delta.content.Null?
  }

  lemma {:induction false} QuietVerbatim(choices: seq<Choice>)
    requires forall c <- choices :: NoContent(c)
    ensures Quiet(choices) == choices
    decreases |choices|
  {
    if choices != [] {
      assert Last(choices) in choices && forall c <- Init(choices) :: c in choices;
      QuietVerbatim(Init(choices));
      assert choices == Init(choices) + [Last(choices)];
    }
  }

  /** Role frames and all others without content, and without a finish reason, go out with their choices as
      they came. */
  lemma RoleFrameIsVerbatim(cfg: Config, lines: seq<Line>, frame: Frame)
    requires !Finishes(frame) && forall c <- ChoicesOf(frame) :: NoContent(c)
    ensures var out := StepLine(cfg, Steps(cfg, lines).0, Data(frame)).1;
            && |out| == 1 && out[0].Sent? && out[0].frame.others == frame.others
            && ChoicesOf(out[0].frame) == ChoicesOf(frame)
  {
    hide StepLine, Steps;
    assert Silent(ChoicesOf(frame));
    QuietFrameGoesOut(cfg, lines, frame);
    QuietVerbatim(ChoicesOf(frame));
  }

  // The frame of the tail

  function LastData(lines: seq<Line>): Option<Frame> {
    if lines == [] then None
    else if Last(lines).Data? then Some(Last(lines).frame)
    else LastData(Init(lines))
  }

  lemma {:induction false} LastFrameIs(cfg: Config, lines: seq<Line>)
    ensures Steps(cfg, lines).0.lastFrame == LastData(lines)
    decreases |lines|
  {
    if lines != [] {
      hide ProcessChoices, Flush, HasText;
      LastFrameIs(cfg, Init(lines));
      NeverFedWhenClosed(cfg, Init(lines));
    }
  }

  /** A tail goes out in a frame with the fields of `model`, in one choice with the fields of its first
      well-formed one, the index 0 if that has none, no finish reason, and nothing but the text in its delta. */
  predicate CarriesTail(f: Frame, model: Frame, text: Text) {
    && f.others == model.others && |ChoicesOf(f)| == 1
    && var c := ChoicesOf(f)[0];
       && c.delta == Object(Str(text), map[]) && c.finishReason == None && "index" in c.others
       && var fields := if ChoicesOf(model) == [] then map[] else ChoicesOf(model)[0].others;
          && (forall name: string | name in fields :: name in c.others && c.others[name] == fields[name])
          && (forall name: string | name in c.others ::
                name in fields || (name == "index" && c.others[name] == Number(0)))
  }

  lemma WithContentCarries(frame: Frame, text: Text)
    ensures CarriesTail(WithContent(frame, text), frame, text)
  {
    var choice := WithContent(frame, text).choices.items[0].choice;
    GoodAsItems([choice]);
    assert WithContent(frame, text).choices.items == [Good(choice)] + AsItems([]) == AsItems([choice]);
  }

  /** The tail that goes out with the end marker, or at the end of the stream, is modelled on the last frame
      that came, or on an empty one. */
  lemma TailIsModelled(cfg: Config, lines: seq<Line>)
    ensures var s, out := Steps(cfg, lines).0, StepLine(cfg, Steps(cfg, lines).0, DoneMarker).1;
            var model := if LastData(lines).Some? then LastData(lines).value else Frame(NotAList(None), map[]);
            var tail := Flush(cfg, s.redactor).1;
            if s.flushed || tail == [] then out == [Forwarded(DoneMarker)]
            else
              && |out| == 2 && out[0].Sent? && CarriesTail(out[0].frame, model, tail)
              && out[1] == Forwarded(DoneMarker)
    ensures Transform(cfg, lines).1 == Steps(cfg, lines).1 + Init(StepLine(cfg, Steps(cfg, lines).0, DoneMarker).1)
  {
    hide Flush, ProcessChoices, Steps, CarriesTail;
    var s := Steps(cfg, lines).0;
    var model := if LastData(lines).Some? then LastData(lines).value else NO_FRAME;
    NeverFedWhenClosed(cfg, lines);
    LastFrameIs(cfg, lines);
    WithContentCarries(model, Flush(cfg, s.redactor).1);
    var tail := Close(cfg, s, model).1;
    assert Init(tail + [Forwarded(DoneMarker)]) == tail;
  }
}
