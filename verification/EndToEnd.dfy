/** What the client of the guardrail receives, over whole streams. */
module EndToEnd {
  import opened CharTables
  import opened Wrappers
  import opened Matching
  import opened Substitution
  import opened Chunking
  import opened Hold
  import opened Lines
  import opened Sse
  import opened Redactor

  // ----- What the client sees of the frames -----

  predicate CarriesText(out: Out) {
    out.Data? && out.frame.text.Some?
  }

  function TextFree(outs: seq<Out>): seq<Out> {
    if outs == [] then []
    else (if CarriesText(outs[0]) then [] else [outs[0]]) + TextFree(outs[1..])
  }

  lemma {:induction false} TextFreeConcat(a: seq<Out>, b: seq<Out>)
    ensures TextFree(a + b) == TextFree(a) + TextFree(b)
  {
    if a == [] {
      assert a + b == b;
    } else {
      assert (a + b)[1..] == a[1..] + b;
      TextFreeConcat(a[1..], b);
    }
  }

  // ----- What the upstream sent -----

  /** The message texts, divided where the tail is flushed. */
  datatype Texts = Texts(ended: seq<string>, current: string)

  function TextsOf(events: seq<Event>): Texts {
    if events == [] then Texts([], "") else
      var e, before := events[|events| - 1], TextsOf(events[..|events| - 1]);
      if Flushes(e) then Texts(before.ended + [before.current], "")
      else before.(current := before.current + TextOf(e))
  }

  function RedactedAll(cfg: Config, texts: seq<string>): string {
    if texts == [] then ""
    else RedactedAll(cfg, texts[..|texts| - 1]) + Substitute(cfg, texts[|texts| - 1])
  }

  function RedactedTexts(cfg: Config, texts: Texts): string {
    RedactedAll(cfg, texts.ended) + Substitute(cfg, texts.current)
  }

  function ForwardedAll(events: seq<Event>): seq<Out> {
    if events == [] then [] else ForwardedAll(events[..|events| - 1]) + Forwarded(events[|events| - 1])
  }

  ghost predicate Fits(cfg: Config, texts: Texts) {
    && (forall j :: 0 <= j < |texts.ended| ==> RunsWithin(cfg.u, texts.ended[j], cfg.hold))
    && RunsWithin(cfg.u, texts.current, cfg.hold)
  }

  /** Every line was understood, and no text-free event carries text. */
  predicate WellFormed(events: seq<Event>) {
    forall j :: 0 <= j < |events| ==>
      && !events[j].Malformed?
      && (events[j].Silent? ==> events[j].frame.text.None?)
      && (events[j].Content? ==> events[j].frame.text.Some?)
  }

  /** Every frame in these lines decodes. */
  predicate Understood(u: Unicode, decode: Decoder, lines: seq<string>) {
    forall j :: 0 <= j < |lines| ==> !Classify(u, decode, lines[j]).Malformed?
  }

  lemma {:induction false} EventsWellFormed(u: Unicode, decode: Decoder, lines: seq<string>)
    ensures WellFormed(Events(u, decode, lines)) <==> Understood(u, decode, lines)
  {
    var events := Events(u, decode, lines);
    assert forall j :: 0 <= j < |lines| ==> events[j] == Classify(u, decode, lines[j]);
  }

  lemma {:induction false} FitsPrefix(cfg: Config, events: seq<Event>)
    requires events != [] && Fits(cfg, TextsOf(events))
    ensures Fits(cfg, TextsOf(events[..|events| - 1]))
  {
    var e, before, after := events[|events| - 1], TextsOf(events[..|events| - 1]), TextsOf(events);
    if Flushes(e) {
      assert after.ended[|before.ended|] == before.current;
      assert forall j :: 0 <= j < |before.ended| ==> before.ended[j] == after.ended[j];
    } else {
      RunsWithinPrefix(cfg.u, before.current, TextOf(e), cfg.hold);
    }
  }

  // ----- The invariant of the pipeline -----

  /** What has gone out, and the redaction of what is held with anything still to
      come, is the redaction of the texts with anything still to come. */
  ghost predicate Delivering(cfg: Config, outs: seq<Out>, buffer: string, texts: Texts, more: string) {
    ContentOf(outs) + Substitute(cfg, buffer + more)
    == RedactedAll(cfg, texts.ended) + Substitute(cfg, texts.current + more)
  }

  lemma {:induction false} TailContent(cfg: Config, buffer: string, forwarded: seq<Out>)
    requires TextFree(forwarded) == forwarded && ContentOf(forwarded) == ""
    ensures ContentOf(Tail(cfg, buffer) + forwarded) == Substitute(cfg, buffer)
    ensures TextFree(Tail(cfg, buffer) + forwarded) == forwarded
  {
    var tail := Tail(cfg, buffer);
    ContentConcat(tail, forwarded);
    TextFreeConcat(tail, forwarded);
    if tail != [] {
      assert tail[1..] == [];
    }
  }

  lemma {:induction false} ForwardedIsTextFree(e: Event)
    requires WellFormed([e])
    ensures TextFree(Forwarded(e)) == Forwarded(e) && ContentOf(Forwarded(e)) == ""
  {
    assert [e][0] == e;
    if Forwarded(e) != [] {
      assert Forwarded(e)[1..] == [];
    }
  }

  lemma {:induction false} FlushDelivers(
    cfg: Config, outs: seq<Out>, buffer: string, texts: Texts, e: Event, more: string)
    requires WellFormed([e]) && Flushes(e) && Delivering(cfg, outs, buffer, texts, "")
    ensures Delivering(cfg, outs + Reply(cfg, buffer, e), "", Texts(texts.ended + [texts.current], ""), more)
  {
    ForwardedIsTextFree(e);
    TailContent(cfg, buffer, Forwarded(e));
    ContentConcat(outs, Reply(cfg, buffer, e));
    assert buffer + "" == buffer && texts.current + "" == texts.current;
    var ended := texts.ended + [texts.current];
    assert ended[..|ended| - 1] == texts.ended;
  }

  lemma {:induction false} ContentDelivers(
    cfg: Config, outs: seq<Out>, buffer: string, texts: Texts, e: Event, more: string)
    requires e.Content? && e.frame.text.Some? && IsSuffix(buffer, texts.current)
    requires RunsWithin(cfg.u, texts.current + TextOf(e), cfg.hold)
    requires Delivering(cfg, outs, buffer, texts, TextOf(e) + more)
    ensures Delivering(cfg, outs + Reply(cfg, buffer, e), Held(cfg, buffer, e),
                       texts.(current := texts.current + TextOf(e)), more)
  {
    var text := TextOf(e);
    var before := BeforeSuffix(buffer, texts.current, text);
    DeltaIsFinal(cfg, before, buffer, text, more);
    Reassociate(texts.current, text, more);
    ContentConcat(outs, Reply(cfg, buffer, e));
    ContentReply(cfg, buffer, e);
    Reassociate(ContentOf(outs), Sent(cfg, buffer, text), Substitute(cfg, Held(cfg, buffer, e) + more));
  }

  lemma {:induction false} ContentReply(cfg: Config, buffer: string, e: Event)
    requires e.Content?
    ensures ContentOf(Reply(cfg, buffer, e)) == Sent(cfg, buffer, TextOf(e))
  {
    if Reply(cfg, buffer, e) != [] {
      assert Reply(cfg, buffer, e)[1..] == [];
    }
  }

  lemma {:induction false} OtherDelivers(
    cfg: Config, outs: seq<Out>, buffer: string, texts: Texts, e: Event, more: string)
    requires WellFormed([e]) && !e.Content? && !Flushes(e) && Delivering(cfg, outs, buffer, texts, more)
    ensures Delivering(cfg, outs + Reply(cfg, buffer, e), buffer, texts, more)
  {
    assert ContentOf(outs + Reply(cfg, buffer, e)) == ContentOf(outs) by {
      ForwardedIsTextFree(e);
      assert [] + Forwarded(e) == Forwarded(e);
      ContentConcat(outs, Forwarded(e));
    }
  }

  lemma {:induction false} HeldIsSuffix(cfg: Config, buffer: string, current: string, e: Event)
    requires IsSuffix(buffer, current)
    ensures IsSuffix(Held(cfg, buffer, e), if Flushes(e) then "" else current + TextOf(e))
  {
    SuffixGrows(buffer, current, TextOf(e), 0);
    SuffixGrows(buffer, current, TextOf(e), Cut(cfg, buffer + TextOf(e)));
  }

  lemma {:induction false} PipelineRuns(cfg: Config, events: seq<Event>)
    requires WellFormed(events)
    ensures !Process(cfg, events).failed
    ensures IsSuffix(Process(cfg, events).buffer, TextsOf(events).current)
  {
    if events != [] {
      var e, init := events[|events| - 1], events[..|events| - 1];
      PipelineRuns(cfg, init);
      HeldIsSuffix(cfg, Process(cfg, init).buffer, TextsOf(init).current, e);
      assert !e.Malformed?;
    }
  }

  lemma {:induction false} EventDelivers(
    cfg: Config, outs: seq<Out>, buffer: string, texts: Texts, after: Texts, e: Event, more: string)
    requires WellFormed([e]) && IsSuffix(buffer, texts.current) && Fits(cfg, after)
    requires after == if Flushes(e) then Texts(texts.ended + [texts.current], "")
                      else texts.(current := texts.current + TextOf(e))
    requires Delivering(cfg, outs, buffer, texts, if Flushes(e) then "" else TextOf(e) + more)
    ensures Delivering(cfg, outs + Reply(cfg, buffer, e), Held(cfg, buffer, e), after, more)
  {
    assert [e][0] == e;
    if Flushes(e) {
      FlushDelivers(cfg, outs, buffer, texts, e, more);
    } else if e.Content? {
      ContentDelivers(cfg, outs, buffer, texts, e, more);
    } else {
      assert "" + more == more && texts.current + "" == texts.current;
      OtherDelivers(cfg, outs, buffer, texts, e, more);
    }
  }

  /** After any events, whatever comes next: the client's message and the redaction
      of the held tail make up the redaction of the texts. */
  lemma {:induction false} PipelineDelivers(cfg: Config, events: seq<Event>, more: string)
    requires WellFormed(events) && Fits(cfg, TextsOf(events))
    ensures Delivering(cfg, Process(cfg, events).outs, Process(cfg, events).buffer, TextsOf(events), more)
  {
    if events != [] {
      var e, init := events[|events| - 1], events[..|events| - 1];
      var p := Process(cfg, init);
      PipelineRuns(cfg, init);
      FitsPrefix(cfg, events);
      PipelineDelivers(cfg, init, if Flushes(e) then "" else TextOf(e) + more);
      EventDelivers(cfg, p.outs, p.buffer, TextsOf(init), TextsOf(events), e, more);
    }
  }

  // ----- Theorems -----

  lemma {:induction false} ReplyForwards(cfg: Config, buffer: string, e: Event)
    requires WellFormed([e])
    ensures TextFree(Reply(cfg, buffer, e)) == Forwarded(e)
  {
    ForwardedIsTextFree(e);
    TailContent(cfg, buffer, Forwarded(e));
    assert [] + Forwarded(e) == Forwarded(e);
    assert [e][0] == e;
    if e.Content? && Reply(cfg, buffer, e) != [] {
      assert Reply(cfg, buffer, e)[1..] == [];
    }
  }

  /** Text-free frames appear exactly once each, in order. */
  lemma {:induction false} TextFreeFramesSurvive(cfg: Config, events: seq<Event>)
    requires WellFormed(events)
    ensures TextFree(Process(cfg, events).outs) == ForwardedAll(events)
  {
    if events != [] {
      var e, init := events[|events| - 1], events[..|events| - 1];
      var p := Process(cfg, init);
      PipelineRuns(cfg, init);
      TextFreeFramesSurvive(cfg, init);
      ReplyForwards(cfg, p.buffer, e);
      TextFreeConcat(p.outs, Reply(cfg, p.buffer, e));
    }
  }

  /** ... including when the upstream ends without a terminator. */
  lemma {:induction false} EndAddsOnlyText(cfg: Config, events: seq<Event>)
    requires WellFormed(events)
    ensures TextFree(Ended(cfg, Process(cfg, events))) == ForwardedAll(events)
  {
    var p := Process(cfg, events);
    TextFreeFramesSurvive(cfg, events);
    TailContent(cfg, p.buffer, []);
    assert Tail(cfg, p.buffer) + [] == Tail(cfg, p.buffer);
    TextFreeConcat(p.outs, Tail(cfg, p.buffer));
  }

  /** At any point, what the client has and a flush would give it is the redaction of the texts. */
  lemma {:induction false} FlushCompletes(cfg: Config, events: seq<Event>)
    requires WellFormed(events) && Fits(cfg, TextsOf(events))
    ensures ContentOf(Process(cfg, events).outs + Tail(cfg, Process(cfg, events).buffer))
         == RedactedTexts(cfg, TextsOf(events))
  {
    PipelineDelivers(cfg, events, "");
    TailDelivers(cfg, Process(cfg, events).outs, Process(cfg, events).buffer, TextsOf(events));
  }

  lemma {:induction false} TailDelivers(cfg: Config, outs: seq<Out>, buffer: string, texts: Texts)
    requires Delivering(cfg, outs, buffer, texts, "")
    ensures ContentOf(outs + Tail(cfg, buffer)) == RedactedTexts(cfg, texts)
  {
    TailContent(cfg, buffer, []);
    assert Tail(cfg, buffer) + [] == Tail(cfg, buffer);
    ContentConcat(outs, Tail(cfg, buffer));
    assert buffer + "" == buffer && texts.current + "" == texts.current;
  }

  /** When a text-free terminal frame or `[DONE]` goes out, nothing is held back and
      the client already has the whole redacted message. */
  lemma {:induction false} NothingHeldAtTerminal(cfg: Config, events: seq<Event>, e: Event)
    requires WellFormed(events) && Fits(cfg, TextsOf(events))
    requires e.Done? || (e.Silent? && e.frame.terminal)
    ensures Process(cfg, events + [e]).buffer == ""
    ensures Process(cfg, events + [e]).outs
         == (Process(cfg, events).outs + Tail(cfg, Process(cfg, events).buffer)) + Forwarded(e)
    ensures ContentOf(Process(cfg, events).outs + Tail(cfg, Process(cfg, events).buffer))
         == RedactedTexts(cfg, TextsOf(events))
  {
    FlushCompletes(cfg, events);
    PipelineRuns(cfg, events);
    ProcessFlush(cfg, events, e);
  }

  lemma {:induction false} ProcessFlush(cfg: Config, events: seq<Event>, e: Event)
    requires Flushes(e) && !Process(cfg, events).failed
    ensures Process(cfg, events + [e]).buffer == ""
    ensures Process(cfg, events + [e]).outs
         == (Process(cfg, events).outs + Tail(cfg, Process(cfg, events).buffer)) + Forwarded(e)
  {
    assert (events + [e])[..|events|] == events;
  }

  lemma {:induction false} SubstituteIsEmpty(cfg: Config, t: string)
    ensures Substitute(cfg, t) == "" <==> t == ""
  {
    if t != "" {
      var segments := Scan(cfg, t, 0, |t|);
      assert segments[0].text != "";
      assert Shown(segments[0]) != "";
    }
  }

  // ----- What is held, and what is lost -----

  /** What is held back is the longest suffix of the current text that could still
      continue a match. */
  lemma {:induction false} HeldIsLive(cfg: Config, events: seq<Event>)
    requires WellFormed(events) && Fits(cfg, TextsOf(events))
    ensures var (held, current) := (Process(cfg, events).buffer, TextsOf(events).current);
            IsSuffix(held, current) && LongestLiveSuffix(cfg.u, current, |current| - |held|)
  {
    hide CanContinue, IsSuffix, Held, Reply, RunsWithin;
    PipelineRuns(cfg, events);
    if events != [] {
      var e, init := events[|events| - 1], events[..|events| - 1];
      PipelineRuns(cfg, init);
      FitsPrefix(cfg, events);
      HeldIsLive(cfg, init);
      HeldStaysLive(cfg, Process(cfg, init).buffer, TextsOf(init).current, e);
    }
  }

  lemma {:induction false} HeldStaysLive(cfg: Config, held: string, current: string, e: Event)
    requires IsSuffix(held, current) && LongestLiveSuffix(cfg.u, current, |current| - |held|)
    requires !Flushes(e) ==> RunsWithin(cfg.u, current + TextOf(e), cfg.hold)
    ensures var current' := if Flushes(e) then "" else current + TextOf(e);
            var s := |current'| - |Held(cfg, held, e)|;
            s >= 0 && LongestLiveSuffix(cfg.u, current', s)
  {
    hide Scan, CutAt, MatchAt, CanContinue, Substitute;
    if !Flushes(e) {
      if TextOf(e) == "" {
        assert current + TextOf(e) == current;
      } else {
        LiveSuffixGrows(cfg, current, |current| - |held|, TextOf(e));
      }
    }
  }

  /** The text ends in a character that could still continue a match. */
  predicate EndsLive(u: Unicode, t: string) {
    t != "" && CanContinue(u, t, |t| - 1)
  }

  /** After any event, a terminal frame that carries text included, the tail is
      empty exactly when the text since the last flush does not end live. */
  lemma {:induction false} NothingHeldExactly(cfg: Config, events: seq<Event>)
    requires WellFormed(events) && Fits(cfg, TextsOf(events))
    ensures Process(cfg, events).buffer == "" <==> !EndsLive(cfg.u, TextsOf(events).current)
  {
    hide Process, TextsOf, CanContinue;
    HeldIsLive(cfg, events);
  }

  /** A frame with text is forwarded exactly when that text is not empty and some
      character of the tail and the text cannot continue a match; its terminal mark
      makes no difference. */
  lemma {:induction false} TextFrameGoesOut(cfg: Config, events: seq<Event>, e: Event)
    requires e.Content? && WellFormed(events + [e]) && Fits(cfg, TextsOf(events + [e]))
    ensures var p := Process(cfg, events);
            var b := p.buffer + TextOf(e);
            Process(cfg, events + [e]).outs != p.outs
            <==> TextOf(e) != "" && exists j: nat :: j < |b| && !CanContinue(cfg.u, b, j)
  {
    hide TextsOf, CanContinue, Fits;
    var p, text := Process(cfg, events), TextOf(e);
    assert (events + [e])[..|events|] == events;
    assert WellFormed(events) by {
      assert forall j :: 0 <= j < |events| ==> (events + [e])[j] == events[j];
    }
    PipelineRuns(cfg, events);
    TextsAfterContent(cfg, events, e);
    var before := BeforeSuffix(p.buffer, TextsOf(events).current, text);
    SentExactly(cfg, before, p.buffer, text);
  }

  lemma {:induction false} TextsAfterContent(cfg: Config, events: seq<Event>, e: Event)
    requires e.Content? && Fits(cfg, TextsOf(events + [e]))
    ensures RunsWithin(cfg.u, TextsOf(events).current + TextOf(e), cfg.hold)
  {
    assert (events + [e])[..|events|] == events;
  }

  lemma {:induction false} SentExactly(cfg: Config, before: string, buffer: string, text: string)
    requires RunsWithin(cfg.u, before + (buffer + text), cfg.hold)
    ensures var b := buffer + text;
            Sent(cfg, buffer, text) != ""
            <==> text != "" && exists j: nat :: j < |b| && !CanContinue(cfg.u, b, j)
  {
    hide CanContinue, RunsWithin;
    var b := buffer + text;
    var c := Cut(cfg, b);
    WalkFindsLiveSuffix(cfg, before, b);
    ReleasedIsEmpty(cfg, b, c);
    if c > 0 {
      assert !CanContinue(cfg.u, b, c - 1);
    }
  }

  lemma {:induction false} ReleasedIsEmpty(cfg: Config, b: string, c: nat)
    requires c <= |b|
    ensures Render(Scan(cfg, b, 0, c)) == "" <==> c == 0
  {
    if c > 0 {
      var segments := Scan(cfg, b, 0, c);
      assert segments[0].text != "";
      assert Shown(segments[0]) != "";
    }
  }

  /** A terminal frame that carries text does not flush: it goes out while the end
      of the message is still held. */
  lemma {:induction false} TerminalTextIsHeld(cfg: Config, frame: Frame)
    requires cfg.hold >= 1 && frame.terminal && frame.text == Some("! a")
    ensures var events := [Content(frame)];
            && WellFormed(events) && Fits(cfg, TextsOf(events))
            && Process(cfg, events).outs == [Data(WithText(frame, "! "))]
            && Process(cfg, events).buffer == "a"
  {
    hide Released, Retained, Substitute, RunsWithin;
    var events, t := [Content(frame)], "! a";
    assert events[..0] == [] && TextsOf([]) == Texts([], "");
    assert "" + t == t && [] + Reply(cfg, "", events[0]) == Reply(cfg, "", events[0]);
    ShoutFits(cfg, t);
    ShoutIsCut(cfg, t);
  }

  lemma {:induction false} ShoutIsCut(cfg: Config, t: string)
    requires t == "! a" && cfg.hold >= 1
    ensures Render(Released(cfg, t)) == "! " && Retained(cfg, t) == "a"
  {
    hide MatchAt, Scan, CutAt, RunsWithin;
    ShoutFits(cfg, t);
    WalkFindsLiveSuffix(cfg, "", t);
    assert !CanContinue(cfg.u, t, 1) && CanContinue(cfg.u, t, 2);
    ScanKeeps(cfg, t, 0, 2);
    assert t[0..2] == "! ";
  }

  lemma {:induction false} ShoutFits(cfg: Config, t: string)
    requires t == "! a" && cfg.hold >= 1
    ensures RunsWithin(cfg.u, t, cfg.hold) && RunsWithin(cfg.u, "" + t, cfg.hold)
  {
    assert "" + t == t;
    assert !Eligible(cfg.u, t, 0) && !Eligible(cfg.u, t, 1);
    forall a: nat, b: nat | a < b && EligibleRun(cfg.u, t, a, b) ensures b - a <= cfg.hold {
      assert Eligible(cfg.u, t, a);
    }
  }

  /** ... and one whose text is empty never goes out at all. */
  lemma {:induction false} EmptyTerminalIsDropped(cfg: Config, frame: Frame)
    requires frame.terminal && frame.text == Some("")
    ensures Ended(cfg, Process(cfg, [Content(frame)])) == []
  {
    assert [Content(frame)][..0] == [];
    assert Process(cfg, [Content(frame)]).outs == [];
  }

  predicate SeesDone(events: seq<Event>) {
    exists j :: 0 <= j < |events| && events[j].Done?
  }

  /** The stream said `[DONE]` and yet the text since the last flush is still open:
      its end will never be sent. */
  predicate LosesText(u: Unicode, events: seq<Event>) {
    SeesDone(events) && EndsLive(u, TextsOf(events).current)
  }

  lemma {:induction false} SawDoneExactly(cfg: Config, events: seq<Event>)
    requires WellFormed(events)
    ensures Process(cfg, events).sawDone <==> SeesDone(events)
  {
    hide Held, Reply, TextsOf, IsSuffix;
    PipelineRuns(cfg, events);
    if events != [] {
      var e, init := events[|events| - 1], events[..|events| - 1];
      PipelineRuns(cfg, init);
      SawDoneExactly(cfg, init);
      assert SeesDone(init) ==> SeesDone(events);
    }
  }

  /** What the client has is everything exactly when nothing is held after `[DONE]`. */
  lemma {:induction false} HeldTextIsLost(cfg: Config, events: seq<Event>)
    requires WellFormed(events) && Fits(cfg, TextsOf(events))
    ensures var p := Process(cfg, events);
            ContentOf(Ended(cfg, p)) == RedactedTexts(cfg, TextsOf(events)) <==> (p.sawDone ==> p.buffer == "")
  {
    var p := Process(cfg, events);
    PipelineRuns(cfg, events);
    FlushCompletes(cfg, events);
    SubstituteIsEmpty(cfg, p.buffer);
    TailContent(cfg, p.buffer, []);
    assert Tail(cfg, p.buffer) + [] == Tail(cfg, p.buffer);
    ContentConcat(p.outs, Tail(cfg, p.buffer));
    LongerUnlessEmpty(ContentOf(p.outs), Substitute(cfg, p.buffer));
  }

  lemma LongerUnlessEmpty(a: string, b: string)
    ensures a == a + b <==> b == ""
  {
    assert |a + b| == |a| + |b|;
  }

  /** The client receives the redaction of every text between flushes, in order,
      exactly when the stream does not end, some time after a `[DONE]`, on a
      character that could continue a match. */
  lemma {:induction false} ClientReceivesRedaction(cfg: Config, events: seq<Event>)
    requires WellFormed(events) && Fits(cfg, TextsOf(events))
    ensures ContentOf(Ended(cfg, Process(cfg, events))) == RedactedTexts(cfg, TextsOf(events))
            <==> !LosesText(cfg.u, events)
  {
    hide Process, Ended, ContentOf, RedactedTexts, TextsOf;
    HeldTextIsLost(cfg, events);
    SawDoneExactly(cfg, events);
    HeldIsLive(cfg, events);
  }

  /** Such streams exist: one letter after `[DONE]` never reaches the client. */
  lemma {:induction false} TextAfterDoneIsLost(cfg: Config, frame: Frame)
    requires cfg.hold >= 1 && frame.text == Some("a")
    ensures var events := [Done, Content(frame)];
            && WellFormed(events) && Fits(cfg, TextsOf(events))
            && ContentOf(Ended(cfg, Process(cfg, events))) != RedactedTexts(cfg, TextsOf(events))
  {
    hide Process, Ended, ContentOf, RedactedTexts;
    var events := [Done, Content(frame)];
    assert events[..1] == [Done] && [Done][..0] == [];
    assert TextsOf([]) == Texts([], "") && TextsOf([Done]) == Texts([""], "");
    assert TextsOf(events) == Texts([""], "a");
    assert events[0].Done?;
    ClientReceivesRedaction(cfg, events);
  }

  /** No text arrives once `[DONE]` has been seen. */
  predicate NoContentAfterDone(events: seq<Event>) {
    forall i, j :: 0 <= i < j < |events| && events[i].Done? ==> TextOf(events[j]) == ""
  }

  lemma {:induction false} DoneLeavesNothing(cfg: Config, events: seq<Event>)
    requires NoContentAfterDone(events)
    ensures Process(cfg, events).sawDone ==> Process(cfg, events).buffer == ""
    ensures Process(cfg, events).sawDone ==> exists i :: 0 <= i < |events| && events[i].Done?
  {
    if events != [] {
      var init := events[..|events| - 1];
      DoneLeavesNothing(cfg, init);
      assert Process(cfg, init).sawDone ==> exists i :: 0 <= i < |init| && events[i].Done? by {
        assert forall i :: 0 <= i < |init| ==> init[i] == events[i];
      }
    }
  }

  lemma {:induction false} NothingAfterDone(cfg: Config, events: seq<Event>)
    requires WellFormed(events) && Fits(cfg, TextsOf(events)) && NoContentAfterDone(events)
    ensures !LosesText(cfg.u, events)
  {
    hide Process, TextsOf;
    DoneLeavesNothing(cfg, events);
    SawDoneExactly(cfg, events);
    HeldIsLive(cfg, events);
  }

  // ----- From the transport's chunks to the client's message -----

  /** The events of an upstream that was read to its end. */
  function Received(cfg: Config, decode: Decoder, chunks: seq<string>): seq<Event> {
    Events(cfg.u, decode, LinesOf(Joined(chunks)))
  }

  /** The frames that answer it. */
  function Response(cfg: Config, decode: Decoder, chunks: seq<string>): seq<Out> {
    Ended(cfg, Process(cfg, Received(cfg, decode, chunks)))
  }

  lemma {:induction false} FailsExactly(cfg: Config, events: seq<Event>)
    ensures Process(cfg, events).failed <==> exists j :: 0 <= j < |events| && events[j].Malformed?
  {
    hide Held, Reply;
    if events != [] {
      var init := events[..|events| - 1];
      FailsExactly(cfg, init);
      assert forall j :: 0 <= j < |init| ==> init[j] == events[j];
    }
  }

  lemma {:induction false} FailsUnlessUnderstood(cfg: Config, decode: Decoder, lines: seq<string>)
    ensures Process(cfg, Events(cfg.u, decode, lines)).failed <==> !Understood(cfg.u, decode, lines)
  {
    hide Process;
    var events := Events(cfg.u, decode, lines);
    FailsExactly(cfg, events);
    assert forall j :: 0 <= j < |lines| ==> events[j] == Classify(cfg.u, decode, lines[j]);
  }

  /** The events before the first malformed frame, or all of them. */
  function Sound(events: seq<Event>): (sound: seq<Event>)
    ensures sound <= events
    ensures forall j :: 0 <= j < |sound| ==> !sound[j].Malformed?
    ensures sound == events || events[|sound|].Malformed?
  {
    if events == [] || events[0].Malformed? then [] else
      var sound := Sound(events[1..]);
      assert forall j :: 0 < j < |sound| + 1 ==> ([events[0]] + sound)[j] == sound[j - 1];
      [events[0]] + sound
  }

  lemma {:induction false} MalformedAdvance(cfg: Config, p: Pipe, e: Event)
    requires !p.failed && e.Malformed?
    ensures Advance(cfg, p, e) == p.(failed := true)
  {
    assert p.said + "" == p.said && p.outs + [] == p.outs;
  }

  /** A malformed frame sends nothing and leaves the tail as it was. */
  lemma {:induction false} MalformedSendsNothing(cfg: Config, events: seq<Event>)
    ensures Process(cfg, events).outs == Process(cfg, Sound(events)).outs
    ensures Process(cfg, events).buffer == Process(cfg, Sound(events)).buffer
  {
    hide Advance, Process;
    var sound := Sound(events);
    var n := |sound|;
    assert events[..n] == sound;
    if n < |events| {
      ProcessNext(cfg, events, n);
      FailsExactly(cfg, sound);
      MalformedAdvance(cfg, Process(cfg, sound), events[n]);
      FailureIsFinal(cfg, events, n + 1);
    } else {
      assert events[..n] == events;
    }
  }

  /** What went out is the redaction of these events' texts up to the tail, whatever
      might have followed, and their text-free frames: nothing else was let through. */
  ghost predicate SentBefore(cfg: Config, events: seq<Event>, outs: seq<Out>) {
    && TextFree(outs) == ForwardedAll(events)
    && (Fits(cfg, TextsOf(events)) ==>
          forall more: string :: Delivering(cfg, outs, Process(cfg, events).buffer, TextsOf(events), more))
  }

  lemma {:induction false} EventIsTyped(u: Unicode, decode: Decoder, line: string)
    ensures var e := Classify(u, decode, line);
            (e.Silent? ==> e.frame.text.None?) && (e.Content? ==> e.frame.text.Some?)
  {
  }

  lemma {:induction false} SoundIsWellFormed(u: Unicode, decode: Decoder, lines: seq<string>)
    ensures WellFormed(Sound(Events(u, decode, lines)))
  {
    var events := Events(u, decode, lines);
    var sound := Sound(events);
    hide Classify;
    forall j | 0 <= j < |sound|
      ensures sound[j] == Classify(u, decode, lines[j])
      ensures (sound[j].Silent? ==> sound[j].frame.text.None?) && (sound[j].Content? ==> sound[j].frame.text.Some?)
    {
      assert sound[j] == events[j];
      EventIsTyped(u, decode, lines[j]);
    }
  }

  /** A stream that fails, wherever it fails, has sent no more than that of the
      frames before the failure. */
  lemma {:induction false} FailureSendsOnlyRedacted(cfg: Config, decode: Decoder, lines: seq<string>)
    ensures var events := Events(cfg.u, decode, lines);
            SentBefore(cfg, Sound(events), Process(cfg, events).outs)
  {
    hide Process, TextsOf, ContentOf, TextFree, Fits, Delivering;
    var events := Events(cfg.u, decode, lines);
    var sound := Sound(events);
    SoundIsWellFormed(cfg.u, decode, lines);
    MalformedSendsNothing(cfg, events);
    TextFreeFramesSurvive(cfg, sound);
    if Fits(cfg, TextsOf(sound)) {
      forall more: string
        ensures Delivering(cfg, Process(cfg, events).outs, Process(cfg, sound).buffer, TextsOf(sound), more)
      {
        PipelineDelivers(cfg, sound, more);
      }
    }
  }

  /** Everything the frames said, whatever the texts and the hold. */
  lemma {:induction false} SaidIsEveryText(cfg: Config, events: seq<Event>)
    requires WellFormed(events)
    ensures Process(cfg, events).said == Joined(TextsOf(events).ended) + TextsOf(events).current
  {
    hide Reply, Held;
    if events != [] {
      var e, init := events[|events| - 1], events[..|events| - 1];
      var before := TextsOf(init);
      SaidIsEveryText(cfg, init);
      PipelineRuns(cfg, init);
      assert (before.ended + [before.current])[..|before.ended|] == before.ended;
      Reassociate(Joined(before.ended), before.current, TextOf(e));
    }
  }

  /** Whatever went out uninspected is an upstream line without its trailing
      carriage returns, and not a data field. */
  lemma {:induction false} PassedIsForwarded(cfg: Config, decode: Decoder, lines: seq<string>, n: nat, s: string)
    requires n <= |lines| && Passed(s) in Process(cfg, Events(cfg.u, decode, lines)[..n]).outs
    ensures exists line :: line in lines && ForwardedAs(line, s)
  {
    hide Classify, ForwardedAs, Reply, Held;
    var events := Events(cfg.u, decode, lines);
    if n > 0 {
      ProcessNext(cfg, events, n - 1);
      var p := Process(cfg, events[..n - 1]);
      if Passed(s) in p.outs {
        PassedIsForwarded(cfg, decode, lines, n - 1, s);
      } else {
        ReplyPasses(cfg, p.buffer, events[n - 1], s);
        LineIs(cfg.u, decode, lines[n - 1]);
        assert ForwardedAs(lines[n - 1], s);
      }
    }
  }

  lemma {:induction false} ReplyPasses(cfg: Config, buffer: string, e: Event, s: string)
    ensures Passed(s) in Reply(cfg, buffer, e) <==> e == Other(s)
  {
  }

  lemma {:induction false} OutsPass(cfg: Config, decode: Decoder, lines: seq<string>, s: string)
    requires var p := Process(cfg, Events(cfg.u, decode, lines));
             Passed(s) in p.outs || Passed(s) in Ended(cfg, p)
    ensures exists line :: line in lines && ForwardedAs(line, s)
  {
    hide Process, ForwardedAs, Substitute;
    var events := Events(cfg.u, decode, lines);
    assert events[..|lines|] == events;
    PassedIsForwarded(cfg, decode, lines, |lines|, s);
  }

  lemma {:induction false} UnderstoodIsDecodable(u: Unicode, decode: Decoder, lines: seq<string>)
    ensures Understood(u, decode, lines) <==> forall line :: line in lines ==> !Undecodable(u, decode, line)
  {
    hide Classify, Undecodable;
    forall j | 0 <= j < |lines|
      ensures Classify(u, decode, lines[j]).Malformed? <==> Undecodable(u, decode, lines[j])
    {
      LineIs(u, decode, lines[j]);
    }
  }

  /** An upstream that was read and understood to its end is answered in full: every
      text-free frame once and in order, and the redaction of every text unless the
      stream leaves some behind after its `[DONE]`. */
  ghost predicate AnsweredInFull(cfg: Config, events: seq<Event>, outs: seq<Out>) {
    var texts := TextsOf(events);
    && TextFree(outs) == ForwardedAll(events)
    && (Fits(cfg, texts) ==> (ContentOf(outs) == RedactedTexts(cfg, texts) <==> !LosesText(cfg.u, events)))
    && (Fits(cfg, texts) && NoContentAfterDone(events) ==> ContentOf(outs) == RedactedTexts(cfg, texts))
  }

  lemma {:induction false} EndedAnswersInFull(cfg: Config, events: seq<Event>)
    requires WellFormed(events)
    ensures AnsweredInFull(cfg, events, Ended(cfg, Process(cfg, events)))
  {
    hide Process, Ended, TextsOf, ContentOf, TextFree, LosesText, Fits, NoContentAfterDone;
    EndAddsOnlyText(cfg, events);
    if Fits(cfg, TextsOf(events)) {
      ClientReceivesRedaction(cfg, events);
      if NoContentAfterDone(events) {
        NothingAfterDone(cfg, events);
      }
    }
  }

  /** The guardrail between a transport that cuts the upstream anywhere and a client
      that concatenates the content it receives.  `stop` is the chunk at which
      reading stopped. */
  method Guard(chunks: seq<string>, decode: Decoder, redactor: StreamingRedactor)
    returns (outs: seq<Out>, ok: bool, ghost stop: nat)
    requires redactor.Valid() && redactor.buffer == ""
    modifies redactor
    ensures redactor.Valid() && StopsAt(chunks, stop)
    ensures ok <==> Uncapped(chunks) && Understood(redactor.cfg.u, decode, LinesOf(Joined(chunks)))
    ensures ok <==> && !Overflows(chunks)
                    && forall line :: line in LinesOf(Joined(chunks)) ==> !Undecodable(redactor.cfg.u, decode, line)
    ensures forall s :: Passed(s) in outs ==>
              exists line :: line in LinesRead(chunks, stop) && ForwardedAs(line, s)
    ensures Uncapped(chunks) ==> outs == Response(redactor.cfg, decode, chunks)
    ensures ok ==> AnsweredInFull(redactor.cfg, Received(redactor.cfg, decode, chunks), outs)
    ensures var events := Events(redactor.cfg.u, decode, LinesRead(chunks, stop));
            && (!ok ==> SentBefore(redactor.cfg, Sound(events), outs))
            && redactor.absorbed == old(redactor.absorbed) + Process(redactor.cfg, events).said
    ensures Render(redactor.sent) == old(Render(redactor.sent)) + ContentOf(outs)
  {
    hide Process, AnsweredInFull, SentBefore, Sound, WellFormed, Understood, LinesOf, Complete, CapHit, ContentOf,
         Render, Source, HiddenCount, Undecodable, ForwardedAs, Overflows;
    outs, ok, stop := RedactStream(chunks, decode, redactor);
    ghost var cfg, events := redactor.cfg, Received(redactor.cfg, decode, chunks);
    assert Uncapped(chunks) <==> stop == |chunks|;
    EventsWellFormed(cfg.u, decode, LinesOf(Joined(chunks)));
    FailsUnlessUnderstood(cfg, decode, LinesOf(Joined(chunks)));
    CapIsOverflow(chunks);
    UnderstoodIsDecodable(cfg.u, decode, LinesOf(Joined(chunks)));
    forall s | Passed(s) in outs ensures exists line :: line in LinesRead(chunks, stop) && ForwardedAs(line, s) {
      OutsPass(cfg, decode, LinesRead(chunks, stop), s);
    }
    if ok {
      EndedAnswersInFull(cfg, events);
    } else {
      FailureSendsOnlyRedacted(cfg, decode, LinesRead(chunks, stop));
    }
  }

  /** The client's message depends only on the texts between flushes. */
  lemma {:induction false} OnlyTextsMatter(cfg: Config, events: seq<Event>, events': seq<Event>)
    requires WellFormed(events) && WellFormed(events')
    requires TextsOf(events) == TextsOf(events') && Fits(cfg, TextsOf(events))
    requires !LosesText(cfg.u, events) && !LosesText(cfg.u, events')
    ensures ContentOf(Ended(cfg, Process(cfg, events)))
         == ContentOf(Ended(cfg, Process(cfg, events')))
         == RedactedTexts(cfg, TextsOf(events))
  {
    ClientReceivesRedaction(cfg, events);
    ClientReceivesRedaction(cfg, events');
  }

  /** Neither how the transport cut the upstream nor how the provider divided the
      message between its frames can be told from the message the client receives. */
  lemma {:induction false} DivisionDoesNotMatter(
    cfg: Config, decode: Decoder, chunks: seq<string>, chunks': seq<string>)
    requires Understood(cfg.u, decode, LinesOf(Joined(chunks)))
    requires Understood(cfg.u, decode, LinesOf(Joined(chunks')))
    requires TextsOf(Received(cfg, decode, chunks)) == TextsOf(Received(cfg, decode, chunks'))
    requires Fits(cfg, TextsOf(Received(cfg, decode, chunks)))
    requires NoContentAfterDone(Received(cfg, decode, chunks)) && NoContentAfterDone(Received(cfg, decode, chunks'))
    ensures ContentOf(Response(cfg, decode, chunks))
         == ContentOf(Response(cfg, decode, chunks'))
         == RedactedTexts(cfg, TextsOf(Received(cfg, decode, chunks)))
  {
    hide Process, Ended, TextsOf, ContentOf, TextFree, LosesText, Fits, NoContentAfterDone, LinesOf;
    EventsWellFormed(cfg.u, decode, LinesOf(Joined(chunks)));
    EventsWellFormed(cfg.u, decode, LinesOf(Joined(chunks')));
    NothingAfterDone(cfg, Received(cfg, decode, chunks));
    NothingAfterDone(cfg, Received(cfg, decode, chunks'));
    OnlyTextsMatter(cfg, Received(cfg, decode, chunks), Received(cfg, decode, chunks'));
  }
}
