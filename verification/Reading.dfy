/** Which stretches of a text are redacted and which characters are kept, read off
    the characters alone. */
module Reading {
  import opened CharTables
  import opened Wrappers
  import opened Matching
  import opened Shapes
  import opened Substitution
  import opened Chunking

  ghost predicate Begins(u: Unicode, kind: Kind, t: string, off: nat) {
    exists e: nat :: HasShape(u, kind, t, off, e)
  }

  /** What must become of the text at `off`: the longest email there is hidden; if
      there is none, the longest card number, unless the Luhn gate is on and its
      digits fail the checksum; if there is none either, the SSN; otherwise one
      character is kept. */
  ghost predicate Verdict(cfg: Config, t: string, off: nat, segment: Segment) {
    var (u, e) := (cfg.u, off + |segment.text|);
    && off < e <= |t| && segment.text == t[off..e]
    && if Begins(u, Email, t, off) then LongestShape(u, Email, t, off, e) && segment.Hidden?
       else if Begins(u, Card, t, off) then
         && LongestShape(u, Card, t, off, e)
         && (segment.Hidden? <==> !cfg.requireLuhn || PassesChecksum(u, segment.text))
       else if Begins(u, Ssn, t, off) then LongestShape(u, Ssn, t, off, e) && segment.Hidden?
       else e == off + 1 && segment.Kept?
  }

  lemma {:induction false} BeginsWhereItEnds(u: Unicode, kind: Kind, t: string, i: nat)
    requires i <= |t|
    ensures Begins(u, kind, t, i) <==> EndOf(u, kind, t, i).Some?
    ensures forall e: nat :: EndOf(u, kind, t, i) == Some(e) <==> LongestShape(u, kind, t, i, e)
  {
    hide EndOf, HasShape;
    EndIsLongestShape(u, kind, t, i);
  }

  /** The step of the scan is the one segment that the characters call for. */
  lemma {:induction false} StepIsVerdict(cfg: Config, t: string, off: nat, segment: Segment)
    requires off < |t|
    ensures Verdict(cfg, t, off, segment) <==> segment == StepAt(cfg, t, off).segment
  {
    hide EndOf, LongestShape, Begins, PassesChecksum;
    BeginsWhereItEnds(cfg.u, Email, t, off);
    BeginsWhereItEnds(cfg.u, Card, t, off);
    BeginsWhereItEnds(cfg.u, Ssn, t, off);
    var step := StepAt(cfg, t, off);
    GateIsChecksum(cfg.u, step.segment.text);
    if Verdict(cfg, t, off, segment) {
      assert off + |segment.text| == step.next;
    }
  }

  /** The segments are the reading of `t` from `off` on. */
  ghost predicate Reads(cfg: Config, t: string, off: nat, segments: seq<Segment>)
    decreases |segments|
  {
    if segments == [] then off == |t|
    else Verdict(cfg, t, off, segments[0]) && Reads(cfg, t, off + |segments[0].text|, segments[1..])
  }

  /** Every text has exactly one reading, and the scan finds it. */
  lemma {:induction false} ScanIsReading(cfg: Config, t: string, off: nat, segments: seq<Segment>)
    requires off <= |t|
    ensures Reads(cfg, t, off, segments) <==> segments == Scan(cfg, t, off, |t|)
    decreases |t| - off
  {
    hide StepAt, LongestShape, Begins, PassesChecksum;
    if off < |t| && segments != [] {
      var step := StepAt(cfg, t, off);
      StepIsVerdict(cfg, t, off, segments[0]);
      if segments[0] == step.segment {
        ScanIsReading(cfg, t, step.next, segments[1..]);
      }
    }
  }

  lemma {:induction false} SubstituteHasReading(cfg: Config, t: string)
    ensures exists segments: seq<Segment> :: Reads(cfg, t, 0, segments) && Substitute(cfg, t) == Render(segments)
  {
    ScanIsReading(cfg, t, 0, Scan(cfg, t, 0, |t|));
  }

  /** The redacted text is the rendering of the reading. */
  lemma {:induction false} SubstituteRendersReading(cfg: Config, t: string, segments: seq<Segment>)
    requires Reads(cfg, t, 0, segments)
    ensures Substitute(cfg, t) == Render(segments) && Source(segments) == t
  {
    ScanIsReading(cfg, t, 0, segments);
    WholeIsClean(cfg, t, 0);
    ScanCovers(cfg, t, 0, |t|);
    assert t[0..|t|] == t;
  }

  /** Each segment of any scan is the verdict at its place in the text. */
  lemma {:induction false} SegmentIsVerdict(cfg: Config, t: string, i: nat, c: nat, k: nat)
    requires i <= |t| && c <= |t| && k < |Scan(cfg, t, i, c)|
    ensures Verdict(cfg, t, i + |Source(Scan(cfg, t, i, c)[..k])|, Scan(cfg, t, i, c)[k])
    decreases k
  {
    hide StepAt, Verdict;
    var segments, step := Scan(cfg, t, i, c), StepAt(cfg, t, i);
    if k == 0 {
      StepIsVerdict(cfg, t, i, step.segment);
    } else {
      SegmentIsVerdict(cfg, t, step.next, c, k - 1);
      assert segments[..k] == [step.segment] + segments[1..][..k - 1];
      assert segments[..k][1..] == segments[1..][..k - 1];
    }
  }

  /** What a scan of a whole text leaves standing is a character at which no shape
      begins, or a card number that the Luhn gate turned down. */
  lemma {:induction false} KeptIsNoMatch(cfg: Config, t: string, k: nat)
    requires k < |Scan(cfg, t, 0, |t|)| && Scan(cfg, t, 0, |t|)[k].Kept?
    ensures var (text, off) := (Scan(cfg, t, 0, |t|)[k].text, |Source(Scan(cfg, t, 0, |t|)[..k])|);
            && off + |text| <= |t| && text == t[off..off + |text|]
            && (|| (|text| == 1 && forall kind: Kind, e: nat :: !HasShape(cfg.u, kind, t, off, e))
                || (&& cfg.requireLuhn && !PassesChecksum(cfg.u, text)
                    && LongestShape(cfg.u, Card, t, off, off + |text|)
                    && forall e: nat :: !HasShape(cfg.u, Email, t, off, e)))
  {
    hide Scan, HasShape, PassesChecksum, Source;
    SegmentIsVerdict(cfg, t, 0, |t|, k);
    var off := |Source(Scan(cfg, t, 0, |t|)[..k])|;
    forall kind: Kind, e: nat | !Begins(cfg.u, kind, t, off) ensures !HasShape(cfg.u, kind, t, off, e) {
    }
    if !Begins(cfg.u, Card, t, off) {
      forall kind: Kind ensures !Begins(cfg.u, kind, t, off) {
        match kind
        case Email =>
        case Card =>
        case Ssn =>
      }
    }
  }

  /** `segment` is the verdict at some place of the buffer of one of the deltas. */
  ghost predicate WasDecided(cfg: Config, chunks: seq<string>, segment: Segment) {
    exists n: nat, off: nat :: n < |chunks| && DecidedIn(cfg, chunks, segment, n, off)
  }

  ghost predicate DecidedIn(cfg: Config, chunks: seq<string>, segment: Segment, n: nat, off: nat)
    requires n < |chunks|
  {
    Verdict(cfg, FeedAll(cfg, chunks[..n]).buffer + chunks[n], off, segment)
  }

  /** In every run, for any hold: whatever went out, redacted or not, is what the
      characters of the buffer that was then scanned call for. */
  lemma {:induction false} SentIsVerdict(cfg: Config, chunks: seq<string>, k: nat)
    requires k < |FeedAll(cfg, chunks).sent|
    ensures WasDecided(cfg, chunks, FeedAll(cfg, chunks).sent[k])
  {
    hide Scan, Verdict, UnsafeStart, CutAt, Source;
    var n := |chunks| - 1;
    var init, last := chunks[..n], chunks[n];
    var s, segment := FeedAll(cfg, init), FeedAll(cfg, chunks).sent[k];
    if k < |s.sent| {
      SentIsVerdict(cfg, init, k);
      var m: nat, off: nat :| m < |init| && DecidedIn(cfg, init, segment, m, off);
      assert init[..m] == chunks[..m];
      assert DecidedIn(cfg, chunks, segment, m, off);
    } else {
      var buffer := s.buffer + last;
      SegmentIsVerdict(cfg, buffer, 0, Cut(cfg, buffer), k - |s.sent|);
      var off := |Source(Released(cfg, buffer)[..k - |s.sent|])|;
      assert DecidedIn(cfg, chunks, segment, n, off);
    }
  }
}
