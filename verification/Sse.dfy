/** The guardrail over server-sent events: upstream lines in, frames out. */
module Sse {
  import opened CharTables
  import opened Wrappers
  import opened Substitution
  import opened Chunking
  import opened Lines
  import opened Redactor

  /** A decoded chunk: the assistant text of its first choice, if it carries any;
      whether it ends the message; and every other field, left opaque. */
  datatype Frame = Frame(text: Option<string>, terminal: bool, fields: string)

  /** What the JSON decoder makes of a payload. */
  datatype Payload = NotJson | NotAnObject | Object(frame: Frame)

  type Decoder = string -> Payload

  datatype Out = Passed(line: string) | Data(frame: Frame) | DoneFrame

  /** What one upstream line is. */
  datatype Event = Blank | Other(line: string) | Done | Malformed | Content(frame: Frame) | Silent(frame: Frame)

  const DATA_PREFIX := "data: "
  const DONE := "[DONE]"
  const SYNTHETIC := "chat.completion.chunk"

  // ----- Reading a line -----

  function StripCR(line: string): string {
    if line != "" && line[|line| - 1] == '\r' then StripCR(line[..|line| - 1]) else line
  }

  function Strip(u: Unicode, s: string): string
    decreases |s|
  {
    if s != "" && s[0] in u.space then Strip(u, s[1..])
    else if s != "" && s[|s| - 1] in u.space then Strip(u, s[..|s| - 1])
    else s
  }

  function Classify(u: Unicode, decode: Decoder, line: string): Event {
    var stripped := StripCR(line);
    if stripped == "" then Blank
    else if !(DATA_PREFIX <= stripped) then Other(stripped)
    else
      var payload := Strip(u, stripped[|DATA_PREFIX|..]);
      if payload == DONE then Done else
        match decode(payload)
        case NotJson => Malformed
        case NotAnObject => Malformed
        case Object(frame) => if frame.text.None? then Silent(frame) else Content(frame)
  }

  // ----- ... by its characters -----

  /** `body` is `line` without the carriage returns at its end. */
  predicate BareOf(line: string, body: string) {
    && body <= line && (forall j :: |body| <= j < |line| ==> line[j] == '\r')
    && (body != "" ==> body[|body| - 1] != '\r')
  }

  /** `middle` is what lies at `a` in `s` between white space on both sides. */
  predicate TrimmedAt(u: Unicode, s: string, middle: string, a: nat) {
    && a + |middle| <= |s| && middle == s[a..a + |middle|]
    && (forall j :: 0 <= j < |s| && !(a <= j < a + |middle|) ==> s[j] in u.space)
    && (middle != "" ==> middle[0] !in u.space && middle[|middle| - 1] !in u.space)
  }

  ghost predicate TrimmedOf(u: Unicode, s: string, middle: string) {
    exists a: nat :: TrimmedAt(u, s, middle, a)
  }

  lemma {:induction false} StripCRIsBare(line: string, body: string)
    ensures BareOf(line, body) <==> body == StripCR(line)
  {
    if line != "" && line[|line| - 1] == '\r' {
      var init := line[..|line| - 1];
      StripCRIsBare(init, body);
      if BareOf(line, body) {
        assert |body| < |line|;
      }
    } else if BareOf(line, body) {
      assert |body| == |line|;
    }
  }

  lemma {:induction false} TrimsWithMore(u: Unicode, s: string, middle: string, a: nat)
    requires s != ""
    ensures s[0] in u.space && TrimmedAt(u, s[1..], middle, a) ==> TrimmedAt(u, s, middle, a + 1)
    ensures s[|s| - 1] in u.space && TrimmedAt(u, s[..|s| - 1], middle, a) ==> TrimmedAt(u, s, middle, a)
  {
    assert forall j :: 1 <= j < |s| ==> s[j] == s[1..][j - 1];
  }

  lemma {:induction false} StripIsTrimmed(u: Unicode, s: string)
    ensures TrimmedOf(u, s, Strip(u, s))
    decreases |s|
  {
    if s != "" && (s[0] in u.space || s[|s| - 1] in u.space) {
      hide TrimmedAt;
      var inner := if s[0] in u.space then s[1..] else s[..|s| - 1];
      StripIsTrimmed(u, inner);
      var a: nat :| TrimmedAt(u, inner, Strip(u, s), a);
      TrimsWithMore(u, s, Strip(u, s), a);
    } else {
      assert TrimmedAt(u, s, s, 0);
    }
  }

  lemma {:induction false} TrimmedIsUnique(u: Unicode, s: string, m: string, a: nat, m': string, a': nat)
    requires TrimmedAt(u, s, m, a) && TrimmedAt(u, s, m', a')
    ensures m == m'
  {
    if m != "" {
      assert s[a] !in u.space && s[a + |m| - 1] !in u.space;
      assert a' <= a && a + |m| <= a' + |m'|;
    }
    if m' != "" {
      assert s[a'] !in u.space && s[a' + |m'| - 1] !in u.space;
      assert a <= a' && a' + |m'| <= a + |m|;
    }
  }

  lemma {:induction false} StripIs(u: Unicode, s: string, middle: string)
    ensures TrimmedOf(u, s, middle) <==> middle == Strip(u, s)
  {
    StripIsTrimmed(u, s);
    if TrimmedOf(u, s, middle) {
      var a: nat :| TrimmedAt(u, s, middle, a);
      var b: nat :| TrimmedAt(u, s, Strip(u, s), b);
      TrimmedIsUnique(u, s, middle, a, Strip(u, s), b);
    }
  }

  /** The line is a data field with this payload. */
  ghost predicate PayloadOf(u: Unicode, line: string, payload: string) {
    exists body :: BareOf(line, body) && "data: " <= body && TrimmedOf(u, body[6..], payload)
  }

  /** The line is not a data field, and not empty. */
  predicate ForwardedAs(line: string, body: string) {
    BareOf(line, body) && body != "" && !("data: " <= body)
  }

  /** Its payload is neither the terminator nor a frame. */
  ghost predicate Undecodable(u: Unicode, decode: Decoder, line: string) {
    exists payload :: PayloadOf(u, line, payload) && payload != "[DONE]" && !decode(payload).Object?
  }

  ghost predicate Carries(u: Unicode, decode: Decoder, line: string, frame: Frame) {
    exists payload :: PayloadOf(u, line, payload) && payload != "[DONE]" && decode(payload) == Object(frame)
  }

  lemma {:induction false} PayloadIs(u: Unicode, line: string, payload: string)
    ensures PayloadOf(u, line, payload) <==>
            "data: " <= StripCR(line) && payload == Strip(u, StripCR(line)[6..])
  {
    hide StripCR, Strip, BareOf, TrimmedOf;
    var bare := StripCR(line);
    StripCRIsBare(line, bare);
    if "data: " <= bare {
      StripIs(u, bare[6..], payload);
    }
    if PayloadOf(u, line, payload) {
      var body :| BareOf(line, body) && "data: " <= body && TrimmedOf(u, body[6..], payload);
      StripCRIsBare(line, body);
    }
  }

  /** What a line is, from its characters and what the decoder makes of its payload. */
  lemma {:induction false} LineIs(u: Unicode, decode: Decoder, line: string)
    ensures var e := Classify(u, decode, line);
            && (e.Blank? <==> BareOf(line, ""))
            && (forall body :: e == Other(body) <==> ForwardedAs(line, body))
            && (e.Done? <==> PayloadOf(u, line, "[DONE]"))
            && (e.Malformed? <==> Undecodable(u, decode, line))
            && (forall frame :: e == Content(frame) <==> Carries(u, decode, line, frame) && frame.text.Some?)
            && (forall frame :: e == Silent(frame) <==> Carries(u, decode, line, frame) && frame.text.None?)
  {
    hide StripCR, Strip, BareOf, PayloadOf;
    var bare := StripCR(line);
    forall body ensures BareOf(line, body) <==> body == bare {
      StripCRIsBare(line, body);
    }
    forall payload
      ensures PayloadOf(u, line, payload) <==> "data: " <= bare && payload == Strip(u, bare[6..])
    {
      PayloadIs(u, line, payload);
    }
    if "data: " <= bare {
      assert PayloadOf(u, line, Strip(u, bare[6..]));
    }
  }

  /** The field name is matched with its space: a line that an event stream also
      reads as data, but without the space, is not inspected and goes out as it is. */
  lemma {:induction false} UnspacedDataIsNotInspected(u: Unicode, decode: Decoder, line: string)
    requires "data:" <= StripCR(line)
    ensures Classify(u, decode, line) == Other(StripCR(line)) <==> !(DATA_PREFIX <= StripCR(line))
  {
  }

  // ----- Acting on it -----

  function WithText(frame: Frame, text: string): Frame {
    frame.(text := Some(text))
  }

  function SyntheticDelta(text: string): Frame {
    Frame(Some(text), false, SYNTHETIC)
  }

  /** The frame that carries flushed text, if there is any. */
  function Tail(cfg: Config, buffer: string): seq<Out> {
    if Substitute(cfg, buffer) == "" then [] else [Data(SyntheticDelta(Substitute(cfg, buffer)))]
  }

  predicate Flushes(e: Event) {
    e.Done? || (e.Silent? && e.frame.terminal)
  }

  /** The text-free frame that an event forwards. */
  function Forwarded(e: Event): seq<Out> {
    match e
    case Other(line) => [Passed(line)]
    case Done => [DoneFrame]
    case Silent(frame) => [Data(frame)]
    case _ => []
  }

  function TextOf(e: Event): string {
    if e.Content? && e.frame.text.Some? then e.frame.text.value else ""
  }

  /** The frames that an event produces with this much text held back. */
  function Reply(cfg: Config, buffer: string, e: Event): seq<Out> {
    if e.Content? then
      var safe := Sent(cfg, buffer, TextOf(e));
      if safe == "" then [] else [Data(WithText(e.frame, safe))]
    else (if Flushes(e) then Tail(cfg, buffer) else []) + Forwarded(e)
  }

  function Held(cfg: Config, buffer: string, e: Event): string {
    if Flushes(e) then "" else Left(cfg, buffer, TextOf(e))
  }

  /** What must become of a line, by its characters: `outs` goes out, `held'` is held
      back where `held` was, and the stream goes on if `ok`. */
  ghost predicate Transforms(
    cfg: Config, decode: Decoder, line: string, held: string, outs: seq<Out>, held': string, ok: bool)
  {
    var tail := if Substitute(cfg, held) == "" then []
                else [Data(Frame(Some(Substitute(cfg, held)), false, "chat.completion.chunk"))];
    && (ok <==> !Undecodable(cfg.u, decode, line))
    && (BareOf(line, "") || !ok ==> outs == [] && held' == held)
    && (forall body :: ForwardedAs(line, body) ==> outs == [Passed(body)] && held' == held)
    && (PayloadOf(cfg.u, line, "[DONE]") ==> outs == tail + [DoneFrame] && held' == "")
    && (forall frame :: Carries(cfg.u, decode, line, frame) ==>
          match frame.text
          case None =>
            if frame.terminal then outs == tail + [Data(frame)] && held' == ""
            else outs == [Data(frame)] && held' == held
          case Some(text) =>
            var safe := Sent(cfg, held, text);
            && outs == (if safe == "" then [] else [Data(Frame(Some(safe), frame.terminal, frame.fields))])
            && held' == Left(cfg, held, text))
  }

  lemma {:induction false} ReplyTransforms(cfg: Config, decode: Decoder, line: string, held: string)
    ensures var e := Classify(cfg.u, decode, line);
            Transforms(cfg, decode, line, held, Reply(cfg, held, e), Held(cfg, held, e), !e.Malformed?)
  {
    hide Classify, BareOf, PayloadOf, Carries, Undecodable, Released, Retained, Substitute, Render;
    var e := Classify(cfg.u, decode, line);
    LineIs(cfg.u, decode, line);
    assert [] + Forwarded(e) == Forwarded(e);
  }

  // ----- What the client reads -----

  function TextIn(out: Out): string {
    if out.Data? && out.frame.text.Some? then out.frame.text.value else ""
  }

  /** The message, as the client concatenates it. */
  function ContentOf(outs: seq<Out>): string {
    if outs == [] then "" else TextIn(outs[0]) + ContentOf(outs[1..])
  }

  lemma {:induction false} ContentConcat(a: seq<Out>, b: seq<Out>)
    ensures ContentOf(a + b) == ContentOf(a) + ContentOf(b)
  {
    if a == [] {
      assert a + b == b;
    } else {
      assert (a + b)[1..] == a[1..] + b;
      ContentConcat(a[1..], b);
      Reassociate(TextIn(a[0]), ContentOf(a[1..]), ContentOf(b));
    }
  }

  lemma {:induction false} OneFrame(out: Out)
    ensures ContentOf([out]) == TextIn(out)
  {
    assert [out][1..] == [];
  }

  method TransformLine(line: string, decode: Decoder, redactor: StreamingRedactor)
    returns (outs: seq<Out>, ok: bool)
    requires redactor.Valid()
    modifies redactor
    ensures redactor.Valid()
    ensures var e := Classify(redactor.cfg.u, decode, line);
            ok == !e.Malformed?
            && outs == Reply(redactor.cfg, old(redactor.buffer), e)
            && redactor.buffer == Held(redactor.cfg, old(redactor.buffer), e)
            && redactor.absorbed == old(redactor.absorbed) + TextOf(e)
    ensures Transforms(redactor.cfg, decode, line, old(redactor.buffer), outs, redactor.buffer, ok)
    ensures Render(redactor.sent) == old(Render(redactor.sent)) + ContentOf(outs)
  {
    hide Released, Retained, Render, Source, HiddenCount, Substitute, Strip, StripCR, Transforms;
    ReplyTransforms(redactor.cfg, decode, line, redactor.buffer);
    outs, ok := [], true;
    assert old(Render(redactor.sent)) + "" == Render(redactor.sent);
    var stripped := StripCR(line);
    if stripped == "" {
      return;
    }
    if !(DATA_PREFIX <= stripped) {
      outs := [Passed(stripped)];
      OneFrame(Passed(stripped));
      return;
    }
    var payload := Strip(redactor.cfg.u, stripped[|DATA_PREFIX|..]);
    if payload == DONE {
      outs := FlushFrames(redactor);
      ContentConcat(outs, [DoneFrame]);
      OneFrame(DoneFrame);
      outs := outs + [DoneFrame];
      return;
    }
    var decoded := decode(payload);
    if !decoded.Object? {
      ok := false;
      return;
    }
    var frame := decoded.frame;
    if frame.text.None? {
      if frame.terminal {
        outs := FlushFrames(redactor);
      }
      ContentConcat(outs, [Data(frame)]);
      OneFrame(Data(frame));
      outs := outs + [Data(frame)];
      return;
    }
    var safe := redactor.Feed(frame.text.value);
    OneFrame(Data(WithText(frame, safe)));
    if safe != "" {
      outs := [Data(WithText(frame, safe))];
    }
  }

  method FlushFrames(redactor: StreamingRedactor) returns (outs: seq<Out>)
    requires redactor.Valid()
    modifies redactor
    ensures redactor.Valid() && redactor.buffer == ""
    ensures outs == Tail(redactor.cfg, old(redactor.buffer))
    ensures redactor.absorbed == old(redactor.absorbed)
    ensures Render(redactor.sent) == old(Render(redactor.sent)) + ContentOf(outs)
  {
    var tail := redactor.Flush();
    OneFrame(Data(SyntheticDelta(tail)));
    outs := if tail == "" then [] else [Data(SyntheticDelta(tail))];
  }

  // ----- A whole stream -----

  /** `said` is the text of the message so far, from every frame that carried some. */
  datatype Pipe = Pipe(outs: seq<Out>, buffer: string, sawDone: bool, failed: bool, said: string)

  function Advance(cfg: Config, p: Pipe, e: Event): Pipe {
    if p.failed then p
    else Pipe(p.outs + Reply(cfg, p.buffer, e), Held(cfg, p.buffer, e), p.sawDone || e.Done?, e.Malformed?,
              p.said + TextOf(e))
  }

  function Process(cfg: Config, events: seq<Event>): Pipe {
    if events == [] then Pipe([], "", false, false, "")
    else Advance(cfg, Process(cfg, events[..|events| - 1]), events[|events| - 1])
  }

  function Events(u: Unicode, decode: Decoder, lines: seq<string>): (events: seq<Event>)
    ensures |events| == |lines|
  {
    seq(|lines|, i requires 0 <= i < |lines| => Classify(u, decode, lines[i]))
  }

  /** The frames of a stream whose upstream has ended: without a `[DONE]`, the
      held text still goes out. */
  function Ended(cfg: Config, p: Pipe): seq<Out> {
    if p.failed || p.sawDone then p.outs else p.outs + Tail(cfg, p.buffer)
  }

  lemma {:induction false} ReplyIsDone(cfg: Config, buffer: string, e: Event)
    ensures DoneFrame in Reply(cfg, buffer, e) <==> e.Done?
  {
  }

  lemma {:induction false} ProcessNext(cfg: Config, events: seq<Event>, i: nat)
    requires i < |events|
    ensures Process(cfg, events[..i + 1]) == Advance(cfg, Process(cfg, events[..i]), events[i])
  {
    assert events[..i + 1][..i] == events[..i];
  }

  lemma {:induction false} FailureIsFinal(cfg: Config, events: seq<Event>, i: nat)
    requires i <= |events| && Process(cfg, events[..i]).failed
    ensures Process(cfg, events) == Process(cfg, events[..i])
    decreases |events| - i
  {
    if i < |events| {
      ProcessNext(cfg, events, i);
      FailureIsFinal(cfg, events, i + 1);
    } else {
      assert events[..i] == events;
    }
  }

  /** Transform every line, stopping at the first malformed frame. */
  method TransformLines(lines: seq<string>, decode: Decoder, redactor: StreamingRedactor)
    returns (outs: seq<Out>, ok: bool, sawDone: bool, ghost said: string)
    requires redactor.Valid() && redactor.buffer == ""
    modifies redactor
    ensures redactor.Valid()
    ensures Process(redactor.cfg, Events(redactor.cfg.u, decode, lines))
         == Pipe(outs, redactor.buffer, sawDone, !ok, said)
    ensures redactor.absorbed == old(redactor.absorbed) + said
    ensures Render(redactor.sent) == old(Render(redactor.sent)) + ContentOf(outs)
  {
    hide Reply, Held, Classify, TextOf, Render, Source, HiddenCount;
    outs, ok, sawDone, said := [], true, false, "";
    assert old(Render(redactor.sent)) + "" == Render(redactor.sent);
    assert old(redactor.absorbed) + "" == redactor.absorbed;
    ghost var cfg := redactor.cfg;
    ghost var events := Events(cfg.u, decode, lines);
    for i := 0 to |lines|
      invariant redactor.Valid() && ok
      invariant Process(cfg, events[..i]) == Pipe(outs, redactor.buffer, sawDone, !ok, said)
      invariant redactor.absorbed == old(redactor.absorbed) + said
      invariant Render(redactor.sent) == old(Render(redactor.sent)) + ContentOf(outs)
    {
      ProcessNext(cfg, events, i);
      ReplyIsDone(cfg, redactor.buffer, events[i]);
      var frames;
      frames, ok := TransformLine(lines[i], decode, redactor);
      if DoneFrame in frames {
        sawDone := true;
      }
      ContentConcat(outs, frames);
      Reassociate(old(Render(redactor.sent)), ContentOf(outs), ContentOf(frames));
      Reassociate(old(redactor.absorbed), said, TextOf(events[i]));
      outs := outs + frames;
      said := said + TextOf(events[i]);
      if !ok {
        FailureIsFinal(cfg, events, i + 1);
        return;
      }
    }
    assert events[..|lines|] == events;
  }

  method RedactStream(chunks: seq<string>, decode: Decoder, redactor: StreamingRedactor)
    returns (outs: seq<Out>, ok: bool, ghost stop: nat)
    requires redactor.Valid() && redactor.buffer == ""
    modifies redactor
    ensures redactor.Valid()
    ensures StopsAt(chunks, stop)
    ensures var p := Process(redactor.cfg, Events(redactor.cfg.u, decode, LinesRead(chunks, stop)));
            && outs == (if stop == |chunks| then Ended(redactor.cfg, p) else p.outs)
            && ok == (stop == |chunks| && !p.failed)
            && redactor.buffer == (if ok && !p.sawDone then "" else p.buffer)
            && redactor.absorbed == old(redactor.absorbed) + p.said
    ensures Render(redactor.sent) == old(Render(redactor.sent)) + ContentOf(outs)
  {
    hide Process, LinesRead, ContentOf, Render, Source, HiddenCount, Substitute;
    var lines, capped, sawDone;
    ghost var said;
    lines, capped, stop := IterLines(chunks);
    outs, ok, sawDone, said := TransformLines(lines, decode, redactor);
    ok := ok && !capped;
    if ok && !sawDone {
      var tail := FlushFrames(redactor);
      ContentConcat(outs, tail);
      Reassociate(old(Render(redactor.sent)), ContentOf(outs), ContentOf(tail));
      outs := outs + tail;
    }
  }
}
