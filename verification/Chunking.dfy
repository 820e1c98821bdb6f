/** The streaming redactor as a run over deltas, and when its output does not
    depend on how the text was divided. */
module Chunking {
  import opened CharTables
  import opened Wrappers
  import opened Matching
  import opened Substitution

  function Joined(chunks: seq<string>): string {
    if chunks == [] then "" else Joined(chunks[..|chunks| - 1]) + chunks[|chunks| - 1]
  }

  datatype Stream = Stream(buffer: string, sent: seq<Segment>)

  /** `feed`: absorb a delta and release what is safe. */
  function Fed(cfg: Config, s: Stream, text: string): Stream {
    if text == "" then s else
      var buffer := s.buffer + text;
      Stream(Retained(cfg, buffer), s.sent + Released(cfg, buffer))
  }

  function FeedAll(cfg: Config, chunks: seq<string>): Stream {
    if chunks == [] then Stream("", [])
    else Fed(cfg, FeedAll(cfg, chunks[..|chunks| - 1]), chunks[|chunks| - 1])
  }

  /** Everything the client receives: the released text and then the flush. */
  function Output(cfg: Config, chunks: seq<string>): string {
    var s := FeedAll(cfg, chunks);
    Render(s.sent) + Substitute(cfg, s.buffer)
  }

  /** `text` was a real match of the buffer that one of the deltas was scanned in. */
  ghost predicate WasMatched(cfg: Config, chunks: seq<string>, text: string) {
    exists n: nat :: n < |chunks| && IsRealMatch(cfg, FeedAll(cfg, chunks[..n]).buffer + chunks[n], text)
  }

  /** In every run, for any hold: whatever was redacted was a real pattern match
      of the buffer that was then scanned. */
  lemma {:induction false} SentHiddenWasMatched(cfg: Config, chunks: seq<string>, k: nat)
    requires k < |FeedAll(cfg, chunks).sent| && FeedAll(cfg, chunks).sent[k].Hidden?
    ensures WasMatched(cfg, chunks, FeedAll(cfg, chunks).sent[k].text)
  {
    hide Scan, IsRealMatch, UnsafeStart, CutAt;
    var n := |chunks| - 1;
    var init, last := chunks[..n], chunks[n];
    var s, text := FeedAll(cfg, init), FeedAll(cfg, chunks).sent[k].text;
    if k < |s.sent| {
      SentHiddenWasMatched(cfg, init, k);
      var m: nat :| m < |init| && IsRealMatch(cfg, FeedAll(cfg, init[..m]).buffer + init[m], text);
      assert init[..m] == chunks[..m];
    } else {
      var buffer := s.buffer + last;
      HiddenWasMatched(cfg, buffer, 0, Cut(cfg, buffer), k - |s.sent|);
    }
  }

  // ----- The side condition -----

  /** A character that some match could contain, judged by what precedes it: a
      space counts when the character before it is a digit. */
  predicate Eligible(u: Unicode, t: string, i: nat) {
    i < |t| && (Alphabetic(u, t[i]) || (t[i] == ' ' && i > 0 && IsDigit(u, t[i - 1])))
  }

  predicate EligibleRun(u: Unicode, t: string, a: nat, b: nat) {
    a <= b <= |t| && forall j: nat :: a <= j < b ==> Eligible(u, t, j)
  }

  /** No run of eligible characters is longer than `bound`. */
  ghost predicate RunsWithin(u: Unicode, t: string, bound: int) {
    forall a: nat, b: nat :: a < b && EligibleRun(u, t, a, b) ==> b - a <= bound
  }

  lemma {:induction false} RunsWithinPrefix(u: Unicode, t: string, more: string, bound: int)
    requires RunsWithin(u, t + more, bound)
    ensures RunsWithin(u, t, bound)
  {
    forall a: nat, b: nat | a < b && EligibleRun(u, t, a, b) ensures b - a <= bound {
      forall j: nat | a <= j < b ensures Eligible(u, t + more, j) {
        assert Eligible(u, t, j);
      }
      assert EligibleRun(u, t + more, a, b);
    }
  }

  /** When eligible runs fit the hold, the walk back always ends at a character
      that no match can cross, never at the cap. */
  lemma {:induction false} WalkEndsSafely(cfg: Config, before: string, buffer: string)
    requires RunsWithin(cfg.u, before + buffer, cfg.hold)
    ensures SafeCut(cfg.u, buffer, UnsafeStart(cfg, buffer))
    ensures Cut(cfg, buffer) == UnsafeStart(cfg, buffer)
  {
    var u, t, off := cfg.u, before + buffer, |before|;
    var floor := Max(0, |buffer| - cfg.hold);
    var s := UnsafeStart(cfg, buffer);
    if s > 0 && CanContinue(u, buffer, s - 1) {
      forall j: nat | off + s - 1 <= j < |t| ensures Eligible(u, t, j) {
        assert CanContinue(u, buffer, j - off);
        assert t[j] == buffer[j - off];
        assert j > off ==> t[j - 1] == buffer[j - off - 1];
      }
      assert EligibleRun(u, t, off + s - 1, |t|);
      assert false;
    }
    SafeCutIsTaken(u, buffer, 0, s);
  }

  // ----- Chunk independence -----

  /** What one delta releases, rendered. */
  function Sent(cfg: Config, buffer: string, text: string): string {
    if text == "" then "" else Render(Released(cfg, buffer + text))
  }

  function Left(cfg: Config, buffer: string, text: string): string {
    if text == "" then buffer else Retained(cfg, buffer + text)
  }

  /** One delta: sending the released prefix leaves the redaction of everything
      still to come unchanged. */
  lemma {:induction false} DeltaIsFinal(cfg: Config, before: string, buffer: string, text: string, more: string)
    requires RunsWithin(cfg.u, before + (buffer + text), cfg.hold)
    ensures Substitute(cfg, buffer + (text + more))
         == Sent(cfg, buffer, text) + Substitute(cfg, Left(cfg, buffer, text) + more)
  {
    if text == "" {
      assert text + more == more;
    } else {
      Reassociate(buffer, text, more);
      WalkEndsSafely(cfg, before, buffer + text);
      SubstituteSplits(cfg, buffer + text, more, Cut(cfg, buffer + text));
    }
  }

  lemma {:induction false} FeedIsFinal(cfg: Config, before: string, s: Stream, text: string, more: string)
    requires RunsWithin(cfg.u, before + (s.buffer + text), cfg.hold)
    ensures Render(s.sent) + Substitute(cfg, s.buffer + (text + more))
         == Render(Fed(cfg, s, text).sent) + Substitute(cfg, Fed(cfg, s, text).buffer + more)
  {
    DeltaIsFinal(cfg, before, s.buffer, text, more);
    if text != "" {
      RenderConcat(s.sent, Released(cfg, s.buffer + text));
      Reassociate(Render(s.sent), Sent(cfg, s.buffer, text), Substitute(cfg, Left(cfg, s.buffer, text) + more));
    }
  }

  ghost predicate IsSuffix(b: string, t: string) {
    |b| <= |t| && b == t[|t| - |b|..]
  }

  /** `s` has sent the redaction of `t`, whatever follows, up to its buffer. */
  ghost predicate Final(cfg: Config, s: Stream, t: string, more: string) {
    Substitute(cfg, t + more) == Render(s.sent) + Substitute(cfg, s.buffer + more)
  }

  lemma {:induction false} FinalStep(cfg: Config, s: Stream, t: string, text: string, more: string)
    requires RunsWithin(cfg.u, t + text, cfg.hold) && IsSuffix(s.buffer, t)
    requires Final(cfg, s, t, text + more)
    ensures Final(cfg, Fed(cfg, s, text), t + text, more)
  {
    var before := BeforeSuffix(s.buffer, t, text);
    FeedIsFinal(cfg, before, s, text, more);
    Reassociate(t, text, more);
  }

  lemma BeforeSuffix(b: string, t: string, text: string) returns (before: string)
    requires IsSuffix(b, t)
    ensures before + (b + text) == t + text
  {
    before := t[..|t| - |b|];
  }

  /** After any deltas, whatever comes next: what has been sent is final, and
      redacting the retained tail with the rest completes it. */
  lemma {:induction false} SentIsFinal(cfg: Config, chunks: seq<string>, more: string)
    requires RunsWithin(cfg.u, Joined(chunks), cfg.hold)
    ensures Final(cfg, FeedAll(cfg, chunks), Joined(chunks), more)
  {
    if chunks == [] {
      assert Joined(chunks) + more == more;
    } else {
      var last, init := chunks[|chunks| - 1], chunks[..|chunks| - 1];
      RunsWithinPrefix(cfg.u, Joined(init), last, cfg.hold);
      SentIsFinal(cfg, init, last + more);
      BufferIsSuffix(cfg, init);
      FinalStep(cfg, FeedAll(cfg, init), Joined(init), last, more);
    }
  }

  lemma {:induction false} BufferIsSuffix(cfg: Config, chunks: seq<string>)
    ensures IsSuffix(FeedAll(cfg, chunks).buffer, Joined(chunks))
  {
    if chunks != [] {
      var init, last := chunks[..|chunks| - 1], chunks[|chunks| - 1];
      BufferIsSuffix(cfg, init);
      var b := FeedAll(cfg, init).buffer;
      SuffixGrows(b, Joined(init), last, 0);
      SuffixGrows(b, Joined(init), last, Cut(cfg, b + last));
    }
  }

  lemma SuffixGrows(b: string, t: string, text: string, c: nat)
    requires IsSuffix(b, t) && c <= |b + text|
    ensures IsSuffix((b + text)[c..], t + text)
    ensures text == "" ==> b + text == b
  {
  }

  /** The redacted stream is the redacted text, however the text was divided. */
  lemma {:induction false} ChunkIndependence(cfg: Config, chunks: seq<string>)
    requires RunsWithin(cfg.u, Joined(chunks), cfg.hold)
    ensures Output(cfg, chunks) == Substitute(cfg, Joined(chunks))
  {
    SentIsFinal(cfg, chunks, "");
    assert Joined(chunks) + "" == Joined(chunks);
    var s := FeedAll(cfg, chunks);
    assert s.buffer + "" == s.buffer;
  }
}
