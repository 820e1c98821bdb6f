/** From the chunks of a stream to its lines, split at LF. */
module Lines {
  import opened Chunking
  import opened Substitution

  const LF := '\n'

  predicate NoBreak(line: string) {
    LF !in line
  }

  /** The position of the first LF, or the length. */
  function FirstBreak(t: string): (n: nat)
    ensures n <= |t| && NoBreak(t[..n])
    ensures n < |t| ==> t[n] == LF
    ensures n == |t| ==> NoBreak(t)
  {
    if t == "" || t[0] == LF then 0 else
      var n := 1 + FirstBreak(t[1..]);
      assert t[..n] == [t[0]] + t[1..][..n - 1];
      assert t[..|t|] == t;
      n
  }

  /** The lines of `t` that end in LF, without it. */
  function Complete(t: string): seq<string> {
    var n := FirstBreak(t);
    if n == |t| then [] else [t[..n]] + Complete(t[n + 1..])
  }

  /** What follows the last LF. */
  function Rest(t: string): (r: string)
    ensures NoBreak(r) && |r| <= |t|
  {
    var n := FirstBreak(t);
    if n == |t| then t else Rest(t[n + 1..])
  }

  /** All lines; an empty piece after the last LF is dropped. */
  function LinesOf(t: string): seq<string> {
    Complete(t) + if Rest(t) == "" then [] else [Rest(t)]
  }

  function Terminated(lines: seq<string>): string {
    if lines == [] then "" else lines[0] + [LF] + Terminated(lines[1..])
  }

  lemma {:induction false} FirstBreakIs(line: string, more: string)
    requires NoBreak(line)
    ensures FirstBreak(line + [LF] + more) == |line|
  {
    var t := line + [LF] + more;
    if line != "" {
      assert t[1..] == line[1..] + [LF] + more;
      FirstBreakIs(line[1..], more);
    }
  }

  /** Splitting is the inverse of joining: it recovers any lines and any rest
      that contain no LF, and it is defined on every text that way. */
  lemma {:induction false} SplitInvertsJoin(lines: seq<string>, rest: string)
    requires NoBreak(rest) && forall j :: 0 <= j < |lines| ==> NoBreak(lines[j])
    ensures Complete(Terminated(lines) + rest) == lines
    ensures Rest(Terminated(lines) + rest) == rest
    ensures LinesOf(Terminated(lines) + rest) == lines + if rest == "" then [] else [rest]
  {
    var t := Terminated(lines) + rest;
    if lines == [] {
      assert t == rest;
      assert FirstBreak(rest) == |rest|;
    } else {
      var more := Terminated(lines[1..]) + rest;
      assert t == lines[0] + [LF] + more;
      FirstBreakIs(lines[0], more);
      assert t[..|lines[0]|] == lines[0] && t[|lines[0]| + 1..] == more;
      SplitInvertsJoin(lines[1..], rest);
    }
  }

  lemma {:induction false} JoinInvertsSplit(t: string)
    ensures Terminated(Complete(t)) + Rest(t) == t
    decreases |t|
  {
    var n := FirstBreak(t);
    if n < |t| {
      var more := t[n + 1..];
      JoinInvertsSplit(more);
      TerminatedCons(t[..n], Complete(more));
      Reassociate(t[..n] + [LF], Terminated(Complete(more)), Rest(more));
      SplitAtBreak(t, n);
    }
  }

  lemma SplitAtBreak(t: string, n: nat)
    requires n < |t| && t[n] == LF
    ensures t[..n] + [LF] + t[n + 1..] == t
  {
  }

  lemma {:induction false} LinesHaveNoBreak(t: string)
    ensures forall j :: 0 <= j < |Complete(t)| ==> NoBreak(Complete(t)[j])
    decreases |t|
  {
    var n := FirstBreak(t);
    if n < |t| {
      LinesHaveNoBreak(t[n + 1..]);
      assert Complete(t) == [t[..n]] + Complete(t[n + 1..]);
    }
  }

  lemma TerminatedCons(line: string, lines: seq<string>)
    ensures Terminated([line] + lines) == line + [LF] + Terminated(lines)
  {
    assert ([line] + lines)[1..] == lines;
  }

  lemma {:induction false} TerminatedConcat(a: seq<string>, b: seq<string>)
    ensures Terminated(a + b) == Terminated(a) + Terminated(b)
  {
    if a == [] {
      assert a + b == b;
    } else {
      assert (a + b)[1..] == a[1..] + b;
      TerminatedConcat(a[1..], b);
    }
  }

  /** Text that arrives later only extends the rest. */
  lemma {:induction false} SplitContinues(a: string, b: string)
    ensures Complete(a + b) == Complete(a) + Complete(Rest(a) + b)
    ensures Rest(a + b) == Rest(Rest(a) + b)
  {
    var tail := Rest(a) + b;
    JoinInvertsSplit(a);
    JoinInvertsSplit(tail);
    LinesHaveNoBreak(a);
    LinesHaveNoBreak(tail);
    var lines := Complete(a) + Complete(tail);
    TerminatedConcat(Complete(a), Complete(tail));
    Reassociate(Terminated(Complete(a)), Rest(a), b);
    Reassociate(Terminated(Complete(a)), Terminated(Complete(tail)), Rest(tail));
    SplitInvertsJoin(lines, Rest(tail));
  }

  // ----- Reading lines from chunks -----

  const MAX_LINE := 0x10_0000

  /** Appending chunk `k` to the pending line exceeds the cap. */
  predicate CapHit(chunks: seq<string>, k: nat) {
    k < |chunks| && |Rest(Joined(chunks[..k]))| + |chunks[k]| > MAX_LINE
  }

  /** No chunk hits the cap. */
  predicate Uncapped(chunks: seq<string>) {
    forall k: nat :: k < |chunks| ==> !CapHit(chunks, k)
  }

  /** The chunk at which reading stops: the first to hit the cap, or the end. */
  ghost predicate StopsAt(chunks: seq<string>, k: nat) {
    && k <= |chunks|
    && (forall j: nat :: j < k ==> !CapHit(chunks, j))
    && (k < |chunks| ==> CapHit(chunks, k))
  }

  /** `a` is where the line that `t` ends in begins. */
  predicate LineStart(t: string, a: nat) {
    && a <= |t| && (a > 0 ==> t[a - 1] == '\n')
    && forall j :: a <= j < |t| ==> t[j] != '\n'
  }

  /** Some chunk makes the line that is being read, and all of the chunk, longer
      than a mebi-character. */
  ghost predicate Overflows(chunks: seq<string>) {
    exists k: nat, a: nat :: k < |chunks| && OverflowsAt(chunks, k, a)
  }

  ghost predicate OverflowsAt(chunks: seq<string>, k: nat, a: nat)
    requires k < |chunks|
  {
    var before := Joined(chunks[..k]);
    LineStart(before, a) && |before| - a + |chunks[k]| > 0x10_0000
  }

  lemma {:induction false} LineStartAfterBreak(t: string, n: nat, a: nat)
    requires n < |t| && t[n] == '\n' && LineStart(t[n + 1..], a)
    ensures LineStart(t, n + 1 + a) && t[n + 1 + a..] == t[n + 1..][a..]
  {
    var more := t[n + 1..];
    assert a > 0 ==> t[n + a] == more[a - 1];
    assert forall j :: n + 1 + a <= j < |t| ==> t[j] == more[j - (n + 1)];
  }

  lemma {:induction false} RestIsLastLine(t: string)
    ensures LineStart(t, |t| - |Rest(t)|) && t[|t| - |Rest(t)|..] == Rest(t)
    decreases |t|
  {
    hide LineStart;
    var n := FirstBreak(t);
    if n < |t| {
      RestIsLastLine(t[n + 1..]);
      LineStartAfterBreak(t, n, |t| - n - 1 - |Rest(t)|);
    } else {
      NoBreakStarts(t);
    }
  }

  lemma NoBreakStarts(t: string)
    requires NoBreak(t)
    ensures LineStart(t, 0) && t[0..] == t
  {
  }

  lemma LineStartIsUnique(t: string, a: nat, b: nat)
    requires LineStart(t, a) && LineStart(t, b)
    ensures a == b
  {
  }

  /** Reading stops early exactly when a chunk overflows the line being read. */
  lemma {:induction false} CapIsOverflow(chunks: seq<string>)
    ensures Uncapped(chunks) <==> !Overflows(chunks)
  {
    hide Rest, Joined, LineStart;
    if k: nat :| k < |chunks| && CapHit(chunks, k) {
      var before := Joined(chunks[..k]);
      RestIsLastLine(before);
      assert OverflowsAt(chunks, k, |before| - |Rest(before)|);
    }
    if k: nat, a: nat :| k < |chunks| && OverflowsAt(chunks, k, a) {
      var before := Joined(chunks[..k]);
      RestIsLastLine(before);
      LineStartIsUnique(before, a, |before| - |Rest(before)|);
      assert CapHit(chunks, k);
    }
  }

  lemma {:induction false} JoinedConcat(a: seq<string>, b: seq<string>)
    ensures Joined(a + b) == Joined(a) + Joined(b)
  {
    if b == [] {
      assert a + b == a;
    } else {
      var init := b[..|b| - 1];
      assert (a + b)[..|a + b| - 1] == a + init;
      JoinedConcat(a, init);
      Reassociate(Joined(a), Joined(init), b[|b| - 1]);
    }
  }

  /** The line being read is the beginning of a line of the whole text. */
  lemma {:induction false} RestGrows(a: string, b: string)
    ensures Rest(a) != "" ==> exists line :: line in LinesOf(a + b) && Rest(a) <= line
  {
    if Rest(a) != "" {
      var t := Rest(a) + b;
      SplitContinues(a, b);
      var n := FirstBreak(t);
      assert n >= |Rest(a)| by {
        assert forall j :: 0 <= j < |Rest(a)| ==> t[j] == Rest(a)[j];
      }
      var line := if n == |t| then t else t[..n];
      assert Rest(a) <= line;
      if n == |t| {
        assert Rest(t) == t;
      } else {
        assert Complete(t)[0] == line;
      }
      assert line in LinesOf(a + b);
    }
  }

  /** With lines of at most `most` and chunks that leave room for such a line, no
      stream is too long. */
  lemma {:induction false} ShortLinesNeverStop(chunks: seq<string>, most: nat)
    requires forall line :: line in LinesOf(Joined(chunks)) ==> |line| <= most
    requires forall k :: 0 <= k < |chunks| ==> |chunks[k]| <= 0x10_0000 - most
    ensures !Overflows(chunks)
  {
    hide Rest, Joined, Complete, LinesOf;
    forall k: nat | k < |chunks| ensures !CapHit(chunks, k) {
      var before, after := Joined(chunks[..k]), Joined(chunks[k..]);
      assert chunks[..k] + chunks[k..] == chunks;
      JoinedConcat(chunks[..k], chunks[k..]);
      RestGrows(before, after);
      if Rest(before) != "" {
        var line :| line in LinesOf(before + after) && Rest(before) <= line;
      }
    }
    CapIsOverflow(chunks);
  }

  /** The lines that were read when reading stopped at chunk `stop`. */
  function LinesRead(chunks: seq<string>, stop: nat): seq<string>
    requires stop <= |chunks|
  {
    if stop == |chunks| then LinesOf(Joined(chunks)) else Complete(Joined(chunks[..stop]))
  }

  /** The inner loop: take every complete line off the pending text. */
  method TakeLines(text: string) returns (lines: seq<string>, pending: string)
    ensures lines == Complete(text) && pending == Rest(text)
  {
    lines, pending := [], text;
    while LF in pending
      invariant lines + Complete(pending) == Complete(text) && Rest(pending) == Rest(text)
      decreases |pending|
    {
      var n := FirstBreak(pending);
      assert lines + [pending[..n]] + Complete(pending[n + 1..]) == lines + Complete(pending);
      lines := lines + [pending[..n]];
      pending := pending[n + 1..];
    }
  }

  /** What has been read of the first `k` chunks. */
  predicate ReadSoFar(chunks: seq<string>, k: nat, lines: seq<string>, pending: string)
    requires k <= |chunks|
  {
    lines == Complete(Joined(chunks[..k])) && pending == Rest(Joined(chunks[..k]))
  }

  lemma {:induction false} NothingRead(chunks: seq<string>)
    ensures ReadSoFar(chunks, 0, [], "")
  {
    assert chunks[..0] == [];
  }

  lemma {:induction false} NextChunk(chunks: seq<string>, k: nat, lines: seq<string>, pending: string)
    requires k < |chunks| && ReadSoFar(chunks, k, lines, pending)
    ensures ReadSoFar(chunks, k + 1, lines + Complete(pending + chunks[k]), Rest(pending + chunks[k]))
  {
    assert chunks[..k + 1][..k] == chunks[..k];
    SplitContinues(Joined(chunks[..k]), chunks[k]);
  }

  lemma {:induction false} ReadAll(chunks: seq<string>, lines: seq<string>, pending: string)
    requires ReadSoFar(chunks, |chunks|, lines, pending)
    ensures LinesOf(Joined(chunks)) == lines + if pending == "" then [] else [pending]
  {
    assert chunks[..|chunks|] == chunks;
  }

  method IterLines(chunks: seq<string>) returns (lines: seq<string>, failed: bool, ghost stop: nat)
    ensures StopsAt(chunks, stop) && (failed <==> stop < |chunks|)
    ensures lines == LinesRead(chunks, stop)
    ensures failed <==> !Uncapped(chunks)
    ensures failed <==> Overflows(chunks)
    ensures !failed ==> lines == LinesOf(Joined(chunks))
  {
    hide Complete, Rest, Joined, Overflows;
    CapIsOverflow(chunks);
    var pending := "";
    lines := [];
    stop := 0;
    NothingRead(chunks);
    for k := 0 to |chunks|
      invariant stop == k
      invariant forall j: nat :: j < k ==> !CapHit(chunks, j)
      invariant ReadSoFar(chunks, k, lines, pending) && |pending| <= MAX_LINE
    {
      NextChunk(chunks, k, lines, pending);
      pending := pending + chunks[k];
      if |pending| > MAX_LINE {
        return lines, true, k;
      }
      var more;
      more, pending := TakeLines(pending);
      lines := lines + more;
      stop := k + 1;
    }
    ReadAll(chunks, lines, pending);
    failed := false;
    if pending != "" {
      lines := lines + [pending];
    }
  }

  lemma {:induction false} LinesAreShorter(t: string)
    ensures forall j :: 0 <= j < |Complete(t)| ==> |Complete(t)[j]| <= |t|
    decreases |t|
  {
    var n := FirstBreak(t);
    if n < |t| {
      LinesAreShorter(t[n + 1..]);
      assert Complete(t) == [t[..n]] + Complete(t[n + 1..]);
    }
  }

  lemma {:induction false} NextLinesFit(lines: seq<string>, rest: string, chunk: string)
    requires |rest| + |chunk| <= MAX_LINE && forall line :: line in lines ==> |line| <= MAX_LINE
    ensures |Rest(rest + chunk)| <= MAX_LINE
    ensures forall line :: line in lines + Complete(rest + chunk) ==> |line| <= MAX_LINE
  {
    hide Complete;
    LinesAreShorter(rest + chunk);
  }

  lemma {:induction false} UncappedLinesFit(chunks: seq<string>, k: nat)
    requires Uncapped(chunks) && k <= |chunks|
    ensures |Rest(Joined(chunks[..k]))| <= MAX_LINE
    ensures forall line :: line in Complete(Joined(chunks[..k])) ==> |line| <= MAX_LINE
  {
    if k > 0 {
      UncappedLinesFit(chunks, k - 1);
      var before := Joined(chunks[..k - 1]);
      assert !CapHit(chunks, k - 1);
      NextChunk(chunks, k - 1, Complete(before), Rest(before));
      NextLinesFit(Complete(before), Rest(before), chunks[k - 1]);
    }
  }

  /** A line over the cap stops the stream, however it is divided ... */
  lemma {:induction false} LongLineStops(chunks: seq<string>)
    requires Uncapped(chunks)
    ensures forall line :: line in LinesOf(Joined(chunks)) ==> |line| <= MAX_LINE
  {
    UncappedLinesFit(chunks, |chunks|);
    assert chunks[..|chunks|] == chunks;
  }

  lemma {:induction false} BreaksAreEmptyLines(t: string)
    requires forall j :: 0 <= j < |t| ==> t[j] == LF
    ensures Rest(t) == "" && forall j :: 0 <= j < |Complete(t)| ==> Complete(t)[j] == ""
  {
    if t != "" {
      BreaksAreEmptyLines(t[1..]);
    }
  }

  /** ... but a long line is not needed: one large chunk stops the stream although
      every line in it is empty. */
  lemma {:induction false} CapStopsEmptyLines(chunk: string)
    requires chunk == seq(MAX_LINE + 1, _ => LF)
    ensures CapHit([chunk], 0) && StopsAt([chunk], 0)
    ensures forall line :: line in LinesOf(Joined([chunk])) ==> line == ""
  {
    assert [chunk][..0] == [] && Joined([]) == "";
    assert Joined([chunk]) == "" + chunk == chunk;
    BreaksAreEmptyLines(chunk);
  }

  // ----- Framing the output -----

  /** The wire form of a sequence of frames: each followed by a blank line. */
  function Wire(frames: seq<string>): string {
    if frames == [] then "" else frames[0] + [LF, LF] + Wire(frames[1..])
  }

  function Framed(frames: seq<string>): seq<string> {
    if frames == [] then [] else [frames[0], ""] + Framed(frames[1..])
  }

  lemma {:induction false} WireIsTerminated(frames: seq<string>)
    requires forall j :: 0 <= j < |frames| ==> NoBreak(frames[j])
    ensures Wire(frames) == Terminated(Framed(frames))
    ensures forall j :: 0 <= j < |Framed(frames)| ==> NoBreak(Framed(frames)[j])
  {
    if frames != [] {
      WireIsTerminated(frames[1..]);
      var framed := Framed(frames);
      assert framed[1..] == [""] + Framed(frames[1..]);
      assert framed[1..][1..] == Framed(frames[1..]);
      assert Terminated(framed) == frames[0] + [LF] + ("" + [LF] + Terminated(Framed(frames[1..])));
    }
  }

  /** Reading the output back as lines gives each frame followed by a blank line. */
  lemma {:induction false} WireRoundTrip(frames: seq<string>)
    requires forall j :: 0 <= j < |frames| ==> NoBreak(frames[j])
    ensures LinesOf(Wire(frames)) == Framed(frames)
  {
    WireIsTerminated(frames);
    SplitInvertsJoin(Framed(frames), "");
    assert Terminated(Framed(frames)) + "" == Wire(frames);
  }
}
