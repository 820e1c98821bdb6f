/** `StreamingRedactor`: the buffer it holds back, its statistics, and the loops
    that decide what to release. */
module Redactor {
  import opened CharTables
  import opened Wrappers
  import opened Patterns
  import opened Matching
  import opened Luhn
  import opened Substitution
  import opened Chunking
  import opened Reading

  class StreamingRedactor {
    const cfg: Config
    var buffer: string
    var emittedChars: nat
    var redactions: nat
    var peakBuffer: nat

    /** Everything absorbed so far, and what became of the part already sent. */
    ghost var absorbed: string
    ghost var sent: seq<Segment>

    /** Nothing is lost, duplicated or reordered, and the statistics are true. */
    ghost predicate Valid()
      reads this
    {
      && Source(sent) + buffer == absorbed
      && emittedChars == |Render(sent)|
      && redactions == HiddenCount(sent)
      && |buffer| <= peakBuffer
    }

    constructor (u: Unicode, hold: Option<int>, requireLuhn: bool)
      ensures Valid()
      ensures cfg == Config(u, if hold.Some? then hold.value else MaxPatternLength(), requireLuhn)
      ensures buffer == "" && absorbed == "" && sent == [] && peakBuffer == 0
    {
      cfg := Config(u, if hold.Some? then hold.value else MaxPatternLength(), requireLuhn);
      buffer, emittedChars, redactions, peakBuffer := "", 0, 0, 0;
      absorbed, sent := "", [];
    }

    method Feed(text: string) returns (out: string)
      requires Valid()
      modifies this
      ensures Valid()
      ensures absorbed == old(absorbed) + text
      ensures Stream(buffer, sent) == Fed(cfg, Stream(old(buffer), old(sent)), text)
      ensures out == if text == "" then "" else Render(Released(cfg, old(buffer) + text))
      ensures Render(sent) == old(Render(sent)) + out
      ensures peakBuffer == Max(old(peakBuffer), |old(buffer) + text|)
    {
      hide Scan, CutAt, Source;
      if text == "" {
        assert old(Render(sent)) + "" == Render(sent);
        return "";
      }
      buffer := buffer + text;
      peakBuffer := Max(peakBuffer, |buffer|);
      absorbed := absorbed + text;
      assert Source(sent) + buffer == absorbed;
      out := EmitSafePrefix();
    }

    method Flush() returns (out: string)
      requires Valid()
      modifies this
      ensures Valid()
      ensures buffer == "" && absorbed == old(absorbed) && peakBuffer == old(peakBuffer)
      ensures out == Substitute(cfg, old(buffer))
      ensures sent == old(sent) + Scan(cfg, old(buffer), 0, |old(buffer)|)
      ensures Render(sent) == old(Render(sent)) + out
    {
      hide CleanCut, Source;
      var remaining := buffer;
      buffer := "";
      ghost var last := Scan(cfg, remaining, 0, |remaining|);
      WholeIsClean(cfg, remaining, 0);
      AccountForRelease(cfg, sent, remaining, |remaining|);
      assert Source(sent + last) + "" == absorbed;
      if remaining == "" {
        sent := sent + last;
        return "";
      }
      out := SubstituteAll(remaining);
      sent := sent + last;
      emittedChars := emittedChars + |out|;
    }

    method EmitSafePrefix() returns (out: string)
      requires Source(sent) + buffer == absorbed && |buffer| <= peakBuffer
      requires emittedChars == |Render(sent)| && redactions == HiddenCount(sent)
      modifies this
      ensures Valid()
      ensures buffer == Retained(cfg, old(buffer))
      ensures sent == old(sent) + Released(cfg, old(buffer))
      ensures out == Render(Released(cfg, old(buffer)))
      ensures Render(sent) == old(Render(sent)) + out
      ensures absorbed == old(absorbed) && peakBuffer == old(peakBuffer)
    {
      hide CleanCut, Source, Scan, CutAt;
      var b := buffer;
      ghost var c := Cut(cfg, b);
      ghost var released := Released(cfg, b);
      CutIsClean(cfg, b, 0, UnsafeStart(cfg, b));
      AccountForRelease(cfg, sent, b, c);
      NothingToRelease(cfg, b);
      var safe := ComputeUnsafeStart(b);
      if safe <= 0 {
        sent := sent + released;
        return "";
      }
      out, safe := RedactUpTo(b, safe);
      buffer := b[safe..];
      sent := sent + released;
      emittedChars := emittedChars + |out|;
    }

    /** The loop of the safe prefix: redact what ends by `limit`, and lower the
        cut to the start of a match that straddles it. */
    method RedactUpTo(b: string, limit: nat) returns (out: string, safe: nat)
      requires limit <= |b|
      modifies this`redactions
      ensures safe == CutAt(cfg.u, b, 0, limit)
      ensures out == Render(Scan(cfg, b, 0, safe))
      ensures redactions == old(redactions) + HiddenCount(Scan(cfg, b, 0, safe))
    {
      hide Scan, CutAt;
      var pieces := "";
      var cursor: nat, pos: nat := 0, 0;
      safe := limit;
      ghost var done: seq<Segment> := [];
      StartRedacting(cfg, b, limit);
      while true
        invariant safe == limit && redactions >= old(redactions)
        invariant Redacting(cfg, b, limit, done, pieces, cursor, pos, redactions - old(redactions))
        decreases |b| - pos
      {
        var start, found := FindNext(b, pos);
        if found.None? || start >= safe {
          FinishRedacting(cfg, b, limit, done, pieces, cursor, pos, redactions - old(redactions), limit);
          break;
        }
        if found.value.end > safe {
          FinishRedacting(cfg, b, limit, done, pieces, cursor, pos, redactions - old(redactions), start);
          safe := start;
          break;
        }
        var end := found.value.end;
        done := RedactMatch(cfg, b, limit, done, pieces, cursor, pos, redactions - old(redactions), start);
        pos := end;
        var genuine := ComputeIsReal(found.value.kind, b[start..end]);
        if !genuine {
          continue;
        }
        pieces := pieces + b[cursor..start] + REDACTED;
        redactions := redactions + 1;
        cursor := end;
      }
      pieces := pieces + b[cursor..safe];
      out := pieces;
    }

    /** The same loop over a text that nothing can follow. */
    method SubstituteAll(text: string) returns (out: string)
      modifies this`redactions
      ensures out == Substitute(cfg, text)
      ensures exists segments: seq<Segment> :: Reads(cfg, text, 0, segments) && out == Render(segments)
      ensures redactions == old(redactions) + HiddenCount(Scan(cfg, text, 0, |text|))
    {
      hide Scan, CutAt, Reads;
      var pieces := "";
      var cursor: nat, pos: nat := 0, 0;
      ghost var done: seq<Segment> := [];
      StartRedacting(cfg, text, |text|);
      while true
        invariant redactions >= old(redactions)
        invariant Redacting(cfg, text, |text|, done, pieces, cursor, pos, redactions - old(redactions))
        decreases |text| - pos
      {
        var start, found := FindNext(text, pos);
        if found.None? {
          FinishRedacting(cfg, text, |text|, done, pieces, cursor, pos, redactions - old(redactions), |text|);
          break;
        }
        var end := found.value.end;
        done := RedactMatch(cfg, text, |text|, done, pieces, cursor, pos, redactions - old(redactions), start);
        pos := end;
        var genuine := ComputeIsReal(found.value.kind, text[start..end]);
        if !genuine {
          continue;
        }
        pieces := pieces + text[cursor..start] + REDACTED;
        redactions := redactions + 1;
        cursor := end;
      }
      pieces := pieces + text[cursor..];
      assert text[cursor..] == text[cursor..|text|];
      SubstituteHasReading(cfg, text);
      out := pieces;
    }

    /** Back from the end while the character could continue a match. */
    method ComputeUnsafeStart(b: string) returns (index: nat)
      ensures index == UnsafeStart(cfg, b)
    {
      var floor := Max(0, |b| - cfg.hold);
      index := |b|;
      while index > floor && CanContinue(cfg.u, b, index - 1)
        invariant index <= |b|
        invariant WalkBack(cfg.u, b, index, floor) == UnsafeStart(cfg, b)
      {
        index := index - 1;
      }
    }

    /** `finditer`: the leftmost match starting at or after `pos`. */
    method FindNext(t: string, pos: nat) returns (start: nat, found: Option<Match>)
      requires pos <= |t|
      ensures pos <= start <= |t|
      ensures found == MatchAt(cfg.u, t, start)
      ensures forall p: nat :: pos <= p < start ==> MatchAt(cfg.u, t, p).None?
      ensures found.None? ==> start == |t|
    {
      start := pos;
      found := MatchAt(cfg.u, t, start);
      while found.None? && start < |t|
        invariant pos <= start <= |t|
        invariant found == MatchAt(cfg.u, t, start)
        invariant forall p: nat :: pos <= p < start ==> MatchAt(cfg.u, t, p).None?
      {
        start := start + 1;
        found := MatchAt(cfg.u, t, start);
      }
    }

    method ComputeIsReal(kind: Kind, text: string) returns (genuine: bool)
      ensures genuine == IsReal(cfg, kind, text)
      ensures genuine <==> !(kind == Card && cfg.requireLuhn && !PassesChecksum(cfg.u, text))
    {
      GateIsChecksum(cfg.u, text);
      if !cfg.requireLuhn || kind != Card {
        return true;
      }
      genuine := ComputeLuhn(DigitValues(cfg.u, text));
    }
  }

  lemma {:induction false} NothingToRelease(cfg: Config, b: string)
    ensures UnsafeStart(cfg, b) == 0 ==> Cut(cfg, b) == 0 && Released(cfg, b) == []
  {
  }

  /** Releasing up to a clean cut moves text from the buffer to the sent segments. */
  lemma {:induction false} AccountForRelease(cfg: Config, sent: seq<Segment>, b: string, c: nat)
    requires c <= |b| && CleanCut(cfg, b, 0, c)
    ensures Source(sent + Scan(cfg, b, 0, c)) + b[c..] == Source(sent) + b
    ensures Render(sent + Scan(cfg, b, 0, c)) == Render(sent) + Render(Scan(cfg, b, 0, c))
    ensures HiddenCount(sent + Scan(cfg, b, 0, c)) == HiddenCount(sent) + HiddenCount(Scan(cfg, b, 0, c))
  {
    ScanCovers(cfg, b, 0, c);
    MoveText(sent, Scan(cfg, b, 0, c), b, c);
  }

  lemma {:induction false} MoveText(sent: seq<Segment>, released: seq<Segment>, b: string, c: nat)
    requires c <= |b| && Source(released) == b[0..c]
    ensures Source(sent + released) + b[c..] == Source(sent) + b
    ensures Render(sent + released) == Render(sent) + Render(released)
    ensures HiddenCount(sent + released) == HiddenCount(sent) + HiddenCount(released)
  {
    SourceConcat(sent, released);
    RenderConcat(sent, released);
    Reassociate(Source(sent), b[0..c], b[c..]);
    assert b[0..c] + b[c..] == b;
  }

  /** `redact`: a whole text through a fresh redactor with the default settings. */
  method Redact(u: Unicode, text: string) returns (out: string)
    ensures out == Output(Config(u, MaxPatternLength(), false), [text])
  {
    var redactor := new StreamingRedactor(u, None, false);
    FirstFeed(redactor.cfg, text);
    var first := redactor.Feed(text);
    assert "" + first == first;
    var last := redactor.Flush();
    out := first + last;
  }

  lemma {:induction false} FirstFeed(cfg: Config, text: string)
    ensures FeedAll(cfg, [text]) == Fed(cfg, Stream("", []), text)
  {
    assert [text][..0] == [];
  }

  /** What the redacting loop knows at `pos`: `done` is the scan so far, already
      rendered except for the text since `cursor`. */
  ghost predicate Redacting(
    cfg: Config, b: string, limit: nat, done: seq<Segment>, pieces: string, cursor: nat, pos: nat, hidden: nat)
  {
    && cursor <= pos <= limit <= |b|
    && CutAt(cfg.u, b, pos, limit) == CutAt(cfg.u, b, 0, limit)
    && Scan(cfg, b, 0, CutAt(cfg.u, b, 0, limit)) == done + Scan(cfg, b, pos, CutAt(cfg.u, b, 0, limit))
    && Render(done) == pieces + b[cursor..pos]
    && HiddenCount(done) == hidden
  }

  lemma {:induction false} StartRedacting(cfg: Config, b: string, limit: nat)
    requires limit <= |b|
    ensures Redacting(cfg, b, limit, [], "", 0, 0, 0)
  {
    var c := CutAt(cfg.u, b, 0, limit);
    assert [] + Scan(cfg, b, 0, c) == Scan(cfg, b, 0, c);
  }

  lemma {:induction false} FinishRedacting(
    cfg: Config, b: string, limit: nat, done: seq<Segment>, pieces: string, cursor: nat, pos: nat, hidden: nat, c: nat)
    requires Redacting(cfg, b, limit, done, pieces, cursor, pos, hidden)
    requires pos <= c <= limit && (forall p: nat :: pos <= p < c ==> MatchAt(cfg.u, b, p).None?)
    requires c < limit ==> MatchAt(cfg.u, b, c).Some? && MatchAt(cfg.u, b, c).value.end > limit
    ensures c == CutAt(cfg.u, b, 0, limit)
    ensures Render(Scan(cfg, b, 0, c)) == pieces + b[cursor..c]
    ensures HiddenCount(Scan(cfg, b, 0, c)) == hidden
  {
    ScanSkips(cfg, b, pos, c, limit);
    ScanSkips(cfg, b, pos, c, c);
    ScanKeeps(cfg, b, pos, c);
    FinishPieces(done, Scan(cfg, b, pos, c), pieces, b, cursor, pos, c);
  }

  lemma {:induction false} RedactMatch(
    cfg: Config, b: string, limit: nat, done: seq<Segment>, pieces: string, cursor: nat, pos: nat, hidden: nat,
    start: nat)
    returns (done': seq<Segment>)
    requires Redacting(cfg, b, limit, done, pieces, cursor, pos, hidden)
    requires pos <= start < limit && (forall p: nat :: pos <= p < start ==> MatchAt(cfg.u, b, p).None?)
    requires MatchAt(cfg.u, b, start).Some? && MatchAt(cfg.u, b, start).value.end <= limit
    ensures var m := MatchAt(cfg.u, b, start).value;
            if IsReal(cfg, m.kind, b[start..m.end])
            then Redacting(cfg, b, limit, done', pieces + b[cursor..start] + REDACTED, m.end, m.end, hidden + 1)
            else Redacting(cfg, b, limit, done', pieces, cursor, m.end, hidden)
  {
    var m := MatchAt(cfg.u, b, start).value;
    var gap, verdict := Scan(cfg, b, pos, start), Decide(cfg, m.kind, b[start..m.end]);
    ScanPastMatch(cfg, b, limit, pos, start);
    ExtendPieces(done, gap, verdict, pieces, b, cursor, pos, start, m.end);
    done' := done + gap + [verdict];
    AppendThree(done, gap, [verdict], Scan(cfg, b, m.end, CutAt(cfg.u, b, 0, limit)));
  }

  lemma AppendThree(a: seq<Segment>, b: seq<Segment>, c: seq<Segment>, d: seq<Segment>)
    ensures a + (b + c + d) == (a + b + c) + d
  {
  }

  lemma {:induction false} ScanPastMatch(cfg: Config, b: string, limit: nat, pos: nat, start: nat)
    requires pos <= start < limit <= |b| && (forall p: nat :: pos <= p < start ==> MatchAt(cfg.u, b, p).None?)
    requires MatchAt(cfg.u, b, start).Some? && MatchAt(cfg.u, b, start).value.end <= limit
    ensures var m := MatchAt(cfg.u, b, start).value;
            && CutAt(cfg.u, b, pos, limit) == CutAt(cfg.u, b, m.end, limit)
            && Scan(cfg, b, pos, CutAt(cfg.u, b, pos, limit))
            == Scan(cfg, b, pos, start) + [Decide(cfg, m.kind, b[start..m.end])]
               + Scan(cfg, b, m.end, CutAt(cfg.u, b, pos, limit))
    ensures Render(Scan(cfg, b, pos, start)) == b[pos..start] && HiddenCount(Scan(cfg, b, pos, start)) == 0
  {
    ScanSkips(cfg, b, pos, start, limit);
    ScanSkips(cfg, b, pos, start, CutAt(cfg.u, b, pos, limit));
    ScanKeeps(cfg, b, pos, start);
  }

  lemma {:induction false} FinishPieces(
    done: seq<Segment>, gap: seq<Segment>, pieces: string, b: string, cursor: nat, pos: nat, c: nat)
    requires cursor <= pos <= c <= |b|
    requires Render(done) == pieces + b[cursor..pos]
    requires Render(gap) == b[pos..c] && HiddenCount(gap) == 0
    ensures Render(done + gap) == pieces + b[cursor..c]
    ensures HiddenCount(done + gap) == HiddenCount(done)
  {
    RenderConcat(done, gap);
    SourceConcat(done, gap);
    Reassociate(pieces, b[cursor..pos], b[pos..c]);
    Slices(b, cursor, pos, c);
  }

  lemma {:induction false} ExtendPieces(
    done: seq<Segment>, gap: seq<Segment>, verdict: Segment,
    pieces: string, b: string, cursor: nat, pos: nat, start: nat, end: nat)
    requires cursor <= pos <= start <= end <= |b|
    requires Render(done) == pieces + b[cursor..pos]
    requires Render(gap) == b[pos..start] && HiddenCount(gap) == 0
    requires verdict.text == b[start..end]
    ensures verdict.Hidden? ==>
              Render(done + gap + [verdict]) == (pieces + b[cursor..start] + REDACTED) + b[end..end]
    ensures verdict.Kept? ==> Render(done + gap + [verdict]) == pieces + b[cursor..end]
    ensures HiddenCount(done + gap + [verdict]) == HiddenCount(done) + if verdict.Hidden? then 1 else 0
  {
    FinishPieces(done, gap, pieces, b, cursor, pos, start);
    RenderConcat(done + gap, [verdict]);
    SourceConcat(done + gap, [verdict]);
    assert [verdict][1..] == [];
    assert Render([verdict]) == Shown(verdict) + "";
    Reassociate(pieces, b[cursor..start], Shown(verdict));
    Slices(b, cursor, start, end);
  }
}
