/** For every hold, exactly which texts stream correctly however they are divided:
    those whose eligible runs are within a bound that the hold determines. */
module Threshold {
  import opened CharTables
  import opened Wrappers
  import opened Regex
  import opened Patterns
  import opened Matching
  import opened Longest
  import opened Substitution
  import opened Chunking
  import opened Hold

  /** The longest eligible runs that a hold handles.  No run of fewer than six
      characters can match at all, and a hold of 5 survives runs of 6 because a
      match that fills the run straddles the cut. */
  function CoveredRun(hold: int): int {
    if hold <= 4 then 5 else if hold == 5 then 6 else hold
  }

  /** Every division of every text with runs up to `bound` is redacted correctly. */
  ghost predicate Correct(cfg: Config, bound: int) {
    forall chunks: seq<string> :: RunsWithin(cfg.u, Joined(chunks), bound) ==>
      Output(cfg, chunks) == Substitute(cfg, Joined(chunks))
  }

  // ----- Matches are eligible runs -----

  lemma {:induction false} MatchIsEligible(u: Unicode, t: string, p: nat)
    requires p <= |t| && MatchAt(u, t, p).Some?
    ensures EligibleRun(u, t, p, MatchAt(u, t, p).value.end)
  {
    var end := MatchAt(u, t, p).value.end;
    forall j: nat | p <= j < end ensures Eligible(u, t, j) {
      if !CanContinue(u, t, j) {
        MatchStopsAt(u, t, t, p, j);
      }
    }
  }

  lemma {:induction false} ShortRunsNoMatch(u: Unicode, t: string, p: nat)
    requires RunsWithin(u, t, 5) && p <= |t|
    ensures MatchAt(u, t, p).None?
  {
    if MatchAt(u, t, p).Some? {
      MatchIsEligible(u, t, p);
      assert false;
    }
  }

  lemma {:induction false} RunsWithinSuffix(u: Unicode, before: string, b: string, bound: int)
    requires RunsWithin(u, before + b, bound)
    ensures RunsWithin(u, b, bound)
  {
    var t, off := before + b, |before|;
    forall i: nat, j: nat | i < j && EligibleRun(u, b, i, j) ensures j - i <= bound {
      forall k: nat | off + i <= k < off + j ensures Eligible(u, t, k) {
        assert Eligible(u, b, k - off);
        assert t[k] == b[k - off];
        assert k > off ==> t[k - 1] == b[k - off - 1];
      }
      assert EligibleRun(u, t, off + i, off + j);
    }
  }

  lemma {:induction false} ShortRunsStayRaw(cfg: Config, b: string)
    requires RunsWithin(cfg.u, b, 5)
    ensures Render(Released(cfg, b)) == b[..Cut(cfg, b)] && Substitute(cfg, b) == b
  {
    forall p: nat | p <= |b| ensures MatchAt(cfg.u, b, p).None? {
      ShortRunsNoMatch(cfg.u, b, p);
    }
    var c := Cut(cfg, b);
    ScanKeeps(cfg, b, 0, c);
    ScanKeeps(cfg, b, 0, |b|);
    assert b[0..c] == b[..c] && b[0..|b|] == b;
  }

  lemma {:induction false} ShortRunsPassThrough(cfg: Config, chunks: seq<string>)
    requires RunsWithin(cfg.u, Joined(chunks), 5)
    ensures Render(FeedAll(cfg, chunks).sent) + FeedAll(cfg, chunks).buffer == Joined(chunks)
  {
    if chunks != [] {
      var init, last := chunks[..|chunks| - 1], chunks[|chunks| - 1];
      RunsWithinPrefix(cfg.u, Joined(init), last, 5);
      ShortRunsPassThrough(cfg, init);
      RawStep(cfg, FeedAll(cfg, init), Joined(init), last);
    }
  }

  lemma {:induction false} RawStep(cfg: Config, s: Stream, t: string, text: string)
    requires Render(s.sent) + s.buffer == t && RunsWithin(cfg.u, t + text, 5)
    ensures Render(Fed(cfg, s, text).sent) + Fed(cfg, s, text).buffer == t + text
  {
    hide Scan, MatchAt, CutAt, RunsWithin;
    if text == "" {
      assert t + text == t;
    } else {
      var b := s.buffer + text;
      Reassociate(Render(s.sent), s.buffer, text);
      RunsWithinSuffix(cfg.u, Render(s.sent), b, 5);
      ShortRunsStayRaw(cfg, b);
      RenderConcat(s.sent, Released(cfg, b));
      SplitAndJoin(Render(s.sent), b, Cut(cfg, b));
    }
  }

  lemma SplitAndJoin(a: string, b: string, c: nat)
    requires c <= |b|
    ensures (a + b[..c]) + b[c..] == a + b
  {
  }

  /** Text with no run of six eligible characters is never touched, by any hold. */
  lemma {:induction false} ShortRunsAreCorrect(cfg: Config, chunks: seq<string>)
    requires RunsWithin(cfg.u, Joined(chunks), 5)
    ensures Output(cfg, chunks) == Substitute(cfg, Joined(chunks))
  {
    ShortRunsPassThrough(cfg, chunks);
    ShortRunsStayRaw(cfg, Joined(chunks));
    BufferIsSuffix(cfg, chunks);
    var t, b := Joined(chunks), FeedAll(cfg, chunks).buffer;
    assert t[..|t| - |b|] + b == t;
    RunsWithinSuffix(cfg.u, t[..|t| - |b|], b, 5);
    ShortRunsStayRaw(cfg, b);
  }

  // ----- A hold that is too small -----

  /** All but the last character of an address with a local part of `n` characters. */
  function AlmostAddress(n: nat): (t: string)
    requires 1 <= n <= 2
    ensures |t| == n + 4
  {
    if n == 1 then "a@b.c" else "aa@b.c"
  }

  /** The character at `p` of an almost-address with a local part of `n` characters. */
  function AlmostChar(n: nat, p: nat): char {
    if p < n then 'a' else if p == n then '@' else if p == n + 1 then 'b' else if p == n + 2 then '.' else 'c'
  }

  lemma {:induction false} AlmostAddressChars(u: Unicode, n: nat, p: nat)
    requires 1 <= n <= 2 && p < n + 4
    ensures var c := AlmostAddress(n)[p];
            && Alphabetic(u, c) && In(u, BEFORE_EMAIL, c) && !In(u, DIGIT, c)
            && c == AlmostChar(n, p)
  {
  }

  lemma {:induction false} AlmostAddressHasNoMatch(u: Unicode, n: nat, p: nat)
    requires 1 <= n <= 2 && p <= n + 4
    ensures MatchAt(u, AlmostAddress(n), p).None?
  {
    var t := AlmostAddress(n);
    forall j: nat | j < |t| ensures t[j] == AlmostChar(n, j) {
      AlmostAddressChars(u, n, j);
    }
    if p < |t| { AlmostAddressChars(u, n, p); }
    if p > 0 { AlmostAddressChars(u, n, p - 1); }
    NoDigitsNoNumber(u, t, p);
    EmailIsEngine(u, t, p);
    if p == 0 {
      AlmostDomain(u, t, n, 4);
    }
  }

  lemma {:induction false} AlmostDomain(u: Unicode, t: string, n: nat, k: nat)
    requires 1 <= n <= 2 && |t| == n + 4 && k > 0
    requires forall j: nat :: j < |t| ==> t[j] == AlmostChar(n, j)
    ensures AddressEnd(u, t, 0, k).None?
  {
    RunEndIs(u, LOCAL, t, 0, n);
    RunEndIs(u, LABEL, t, n + 1, n + 2);
    RunEndIs(u, LABEL, t, n + 3, n + 4);
    RunEndIs(u, LETTER, t, n + 3, n + 4);
    assert TldEnd(u, t, n + 2).None?;
    assert DomainEnd(u, t, n + 4, k - 1).None?;
  }

  lemma {:induction false} WholeDomain(u: Unicode, t: string, n: nat, k: nat)
    requires 1 <= n <= 2 && t == AlmostAddress(n) + "o" && k > 0
    ensures DomainEnd(u, t, n + 2, k) == Some(n + 5)
  {
    assert t[n + 2] == '.' && t[n + 3] == 'c' && t[n + 4] == 'o';
    RunEndIs(u, LABEL, t, n + 3, n + 5);
    RunEndIs(u, LETTER, t, n + 3, n + 5);
    assert TldEnd(u, t, n + 2) == Some(n + 5);
    assert DomainEnd(u, t, n + 5, k - 1).None?;
  }

  lemma {:induction false} WholeAddress(u: Unicode, t: string, n: nat, k: nat)
    requires 1 <= n <= 2 && t == AlmostAddress(n) + "o" && k > 0
    ensures AddressEnd(u, t, 0, k) == Some(n + 5)
  {
    hide DomainEnd;
    assert t[n] == '@' && t[n + 1] == 'b' && t[n + 2] == '.';
    RunEndIs(u, LOCAL, t, 0, n);
    RunEndIs(u, LABEL, t, n + 1, n + 2);
    WholeDomain(u, t, n, k);
  }

  lemma {:induction false} TwoPieces(cfg: Config, a: string, b: string)
    requires a != ""
    ensures Joined([a, b]) == a + b
    ensures Render(Released(cfg, a)) <= Output(cfg, [a, b])
  {
    assert [a, b][..1] == [a] && [a][..0] == [];
    OnePiece(cfg, a);
    var s := Stream(Retained(cfg, a), Released(cfg, a));
    assert FeedAll(cfg, [a]) == s by {
      assert "" + a == a && [] + Released(cfg, a) == Released(cfg, a);
    }
    assert FeedAll(cfg, [a, b]) == Fed(cfg, s, b);
    if b != "" {
      RenderConcat(s.sent, Released(cfg, s.buffer + b));
    }
  }

  lemma {:induction false} AlmostAddressGoesOut(cfg: Config, n: nat, a: string)
    requires 1 <= n <= 2 && a == AlmostAddress(n) && cfg.hold < n + 4
    ensures var raw := Render(Released(cfg, a));
            raw != "" && raw[0] == 'a'
  {
    forall p: nat | p < |a| ensures MatchAt(cfg.u, a, p).None? && Alphabetic(cfg.u, a[p]) {
      AlmostAddressHasNoMatch(cfg.u, n, p);
      AlmostAddressChars(cfg.u, n, p);
    }
    ReleasedRaw(cfg, a);
    AlmostAddressChars(cfg.u, n, 0);
  }

  lemma {:induction false} WholeAddressIsHidden(cfg: Config, n: nat, t: string)
    requires 1 <= n <= 2 && t == AlmostAddress(n) + "o"
    ensures REDACTED <= Substitute(cfg, t)
  {
    hide Engine, AddressEnd;
    WholeAddress(cfg.u, t, n, 4);
    EmailIsEngine(cfg.u, t, 0);
    EmailIsHidden(cfg, t, n + 5);
  }

  /** The first characters of an address go out before its last one arrives. */
  lemma {:induction false} SmallHoldLeaks(cfg: Config, n: nat)
    requires 1 <= n <= 2 && cfg.hold < n + 4
    ensures |Joined([AlmostAddress(n), "o"])| == n + 5
    ensures Output(cfg, [AlmostAddress(n), "o"]) != Substitute(cfg, Joined([AlmostAddress(n), "o"]))
  {
    hide Scan, Substitute, FeedAll, Joined;
    var a := AlmostAddress(n);
    AlmostAddressGoesOut(cfg, n, a);
    TwoPieces(cfg, a, "o");
    WholeAddressIsHidden(cfg, n, a + "o");
    var raw, out := Render(Released(cfg, a)), Output(cfg, [a, "o"]);
    assert out == raw + out[|raw|..];
    DifferentBeginnings(raw, out[|raw|..], Substitute(cfg, a + "o"));
  }

  // ----- The case of a hold of 5 -----

  /** A match stays a match of the text cut off right after it. */
  lemma {:induction false} DerivesTruncated(u: Unicode, k: Items, t: string, i: nat, e: nat)
    requires i <= |t| && Derives(u, k, t, i, e) && e <= |t|
    ensures i <= e && Derives(u, k, t[..e], i, e)
    decreases Weight(k)
  {
    DerivesForward(u, k, t, i, e);
    match k
    case End =>
    case Then(r, rest) =>
      match r
      case Chr(c) => DerivesForward(u, rest, t, i + 1, e); DerivesTruncated(u, rest, t, i + 1, e);
      case Cat(a, b) => DerivesTruncated(u, Opened(a, b, rest), t, i, e);
      case Rep(body, lo, hi) =>
        if hi > 0 && Derives(u, Again(body, lo, hi, rest), t, i, e) {
          DerivesTruncated(u, Again(body, lo, hi, rest), t, i, e);
        } else {
          DerivesTruncated(u, rest, t, i, e);
        }
      case _ => DerivesTruncated(u, rest, t, i, e);
  }

  lemma {:induction false} MatchTruncated(u: Unicode, t: string, p: nat)
    requires p <= |t| && MatchAt(u, t, p).Some?
    ensures var e := MatchAt(u, t, p).value.end;
            MatchAt(u, t[..e], p).Some?
  {
    var m := MatchAt(u, t, p).value;
    MatchIsLongest(u, m.kind, t, p, m.end);
    DerivesTruncated(u, Pattern(m.kind), t, p, m.end);
    MatchIsLongest(u, m.kind, t[..m.end], p, m.end);
  }

  /** A run of six, cut after its first character: nothing in it matches, before or
      after the cut, whatever comes next. */
  lemma {:induction false} RunOfSixHasNoMatch(u: Unicode, b: string, t: string, p: nat, q: nat)
    requires b <= t && |b| == p + 6 && p <= q < |b| && RunsWithin(u, t, 6)
    requires EligibleRun(u, t, p, p + 6) && MatchAt(u, b, p).None?
    ensures MatchAt(u, t, q).None?
  {
    assert t[..|b|] == b;
    if MatchAt(u, t, q).Some? {
      MatchIsEligible(u, t, q);
      assert EligibleRun(u, t, p, MatchAt(u, t, q).value.end);
      MatchTruncated(u, t, q);
    }
  }

  lemma {:induction false} CutAtFromSafe(u: Unicode, b: string, i: nat, p: nat, safe: nat)
    requires i <= p <= safe <= |b| && SafeCut(u, b, p)
    ensures CutAt(u, b, i, safe) == CutAt(u, b, p, safe)
    decreases p - i
  {
    if i < p {
      MatchStopsAt(u, b, b, i, p - 1);
      match MatchAt(u, b, i)
      case None => CutAtFromSafe(u, b, i + 1, p, safe);
      case Some(m) => CutAtFromSafe(u, b, m.end, p, safe);
    }
  }

  lemma {:induction false} SplitInsideRun(cfg: Config, b: string, more: string, p: nat)
    requires |b| == p + 6 && SafeCut(cfg.u, b, p) && MatchAt(cfg.u, b, p).None?
    requires RunsWithin(cfg.u, b + more, 6) && EligibleRun(cfg.u, b + more, p, p + 6)
    ensures Substitute(cfg, b + more)
         == Render(Scan(cfg, b, 0, p + 1)) + Substitute(cfg, b[p + 1..] + more)
  {
    hide Scan, MatchAt, EligibleRun;
    var t := b + more;
    assert t[p + 1..] == b[p + 1..] + more;
    RunOfSixHasNoMatch(cfg.u, b, t, p, p);
    RunOfSixHasNoMatch(cfg.u, b, t, p, p + 1);
    HeadOfRun(cfg, b, t, p);
    TailOfRun(cfg, b, t, p);
    RenderConcat(Scan(cfg, b, 0, p + 1), Scan(cfg, t, p + 1, |t|));
  }

  lemma {:induction false} HeadOfRun(cfg: Config, b: string, t: string, p: nat)
    requires b <= t && |b| == p + 6 && SafeCut(cfg.u, b, p)
    requires MatchAt(cfg.u, b, p).None? && MatchAt(cfg.u, t, p).None?
    ensures Scan(cfg, t, 0, |t|) == Scan(cfg, b, 0, p + 1) + Scan(cfg, t, p + 1, |t|)
  {
    hide CanContinue;
    ScanSplitsAtSafeCut(cfg, b, t, 0, p);
    ScanTo(cfg, b, 0, p);
    var step := [Kept(b[p..p + 1])];
    assert t[p..p + 1] == b[p..p + 1];
    Rejoin(Scan(cfg, b, 0, p), step, Scan(cfg, t, p + 1, |t|));
  }

  /** The scan up to one character past a safe cut where nothing matches. */
  lemma {:induction false} ScanTo(cfg: Config, b: string, i: nat, p: nat)
    requires i <= p < |b| && SafeCut(cfg.u, b, p) && MatchAt(cfg.u, b, p).None?
    ensures Scan(cfg, b, i, p + 1) == Scan(cfg, b, i, p) + [Kept(b[p..p + 1])]
    decreases p - i
  {
    if i < p {
      StepBehindWall(cfg, b, b, i, p - 1);
      var step := StepAt(cfg, b, i);
      ScanTo(cfg, b, step.next, p);
      Rejoin([step.segment], Scan(cfg, b, step.next, p), [Kept(b[p..p + 1])]);
    }
  }

  lemma {:induction false} TailOfRun(cfg: Config, b: string, t: string, p: nat)
    requires b <= t && |b| == p + 6 && RunsWithin(cfg.u, t, 6)
    requires EligibleRun(cfg.u, t, p, p + 6) && MatchAt(cfg.u, t, p + 1).None?
    ensures Render(Scan(cfg, t, p + 1, |t|)) == Substitute(cfg, t[p + 1..])
  {
    var rest := t[p + 1..];
    NoMatchAfterCut(cfg.u, t, p);
    ScanShift(cfg, t, p + 1, 1);
    assert rest[0..1] == t[p + 1..p + 2];
  }

  lemma {:induction false} NoMatchAfterCut(u: Unicode, t: string, p: nat)
    requires p + 6 <= |t| && RunsWithin(u, t, 6) && EligibleRun(u, t, p, p + 6)
    ensures MatchAt(u, t[p + 1..], 0).None?
  {
    var before, rest := t[..p + 1], t[p + 1..];
    assert before + rest == t;
    if MatchAt(u, rest, 0).Some? {
      MatchIsEligible(u, rest, 0);
      var e := MatchAt(u, rest, 0).value.end;
      forall j: nat | p <= j < p + 1 + e ensures Eligible(u, t, j) {
        if j > p {
          assert Eligible(u, rest, j - p - 1);
          assert t[j] == rest[j - p - 1];
          assert j > p + 1 ==> t[j - 1] == rest[j - p - 2];
        }
      }
      assert EligibleRun(u, t, p, p + 1 + e);
      assert false;
    }
  }

  lemma {:induction false} DeltaWithHoldFive(cfg: Config, before: string, buffer: string, text: string, more: string)
    requires cfg.hold == 5 && RunsWithin(cfg.u, before + (buffer + text) + more, 6)
    ensures Substitute(cfg, buffer + (text + more))
         == Sent(cfg, buffer, text) + Substitute(cfg, Left(cfg, buffer, text) + more)
  {
    if text == "" {
      assert text + more == more;
    } else {
      var b := buffer + text;
      Reassociate(buffer, text, more);
      Reassociate(before, b, more);
      RunsWithinSuffix(cfg.u, before, b + more, 6);
      CutWithHoldFive(cfg, b, more);
      SplitWithHoldFive(cfg, b, more);
    }
  }

  /** With a hold of 5 and runs of at most 6, the cut is safe or one character
      into a run of six in which nothing matches. */
  predicate SixRunCut(cfg: Config, b: string) {
    var c := Cut(cfg, b);
    && c > 0 && |b| == c + 5 && SafeCut(cfg.u, b, c - 1) && MatchAt(cfg.u, b, c - 1).None?
    && EligibleRun(cfg.u, b, c - 1, |b|)
  }

  lemma {:induction false} CutWithHoldFive(cfg: Config, b: string, more: string)
    requires cfg.hold == 5 && RunsWithin(cfg.u, b + more, 6)
    ensures SafeCut(cfg.u, b, Cut(cfg, b)) || SixRunCut(cfg, b)
  {
    hide MatchAt;
    var u, s := cfg.u, UnsafeStart(cfg, b);
    if SafeCut(u, b, s) {
      SafeCutIsTaken(u, b, 0, s);
    } else {
      var p := s - 1;
      forall j: nat | p <= j < |b| ensures Eligible(u, b, j) {
        assert CanContinue(u, b, j);
      }
      RunsWithinPrefix(u, b, more, 6);
      assert |b| == p + 6;
      if p > 0 && CanContinue(u, b, p - 1) {
        OneLonger(u, b, p);
      }
      CutAtFromSafe(u, b, 0, p, s);
    }
  }

  lemma {:induction false} OneLonger(u: Unicode, b: string, p: nat)
    requires 0 < p <= |b| && EligibleRun(u, b, p, |b|) && CanContinue(u, b, p - 1)
    ensures EligibleRun(u, b, p - 1, |b|)
  {
  }

  lemma {:induction false} SplitWithHoldFive(cfg: Config, b: string, more: string)
    requires RunsWithin(cfg.u, b + more, 6) && (SafeCut(cfg.u, b, Cut(cfg, b)) || SixRunCut(cfg, b))
    ensures Substitute(cfg, b + more) == Render(Released(cfg, b)) + Substitute(cfg, Retained(cfg, b) + more)
  {
    var c := Cut(cfg, b);
    if SafeCut(cfg.u, b, c) {
      SubstituteSplits(cfg, b, more, c);
    } else {
      forall j: nat | c - 1 <= j < |b| ensures Eligible(cfg.u, b + more, j) {
        assert Eligible(cfg.u, b, j);
      }
      SplitInsideRun(cfg, b, more, c - 1);
    }
  }

  lemma {:induction false} FinalWithHoldFive(cfg: Config, chunks: seq<string>, more: string)
    requires cfg.hold == 5 && RunsWithin(cfg.u, Joined(chunks) + more, 6)
    ensures Final(cfg, FeedAll(cfg, chunks), Joined(chunks), more)
  {
    if chunks == [] {
      assert Joined(chunks) + more == more;
    } else {
      var last, init := chunks[|chunks| - 1], chunks[..|chunks| - 1];
      var s, t := FeedAll(cfg, init), Joined(init);
      Reassociate(t, last, more);
      FinalWithHoldFive(cfg, init, last + more);
      BufferIsSuffix(cfg, init);
      var before := BeforeSuffix(s.buffer, t, last);
      DeltaWithHoldFive(cfg, before, s.buffer, last, more);
      DeltaKeepsFinal(cfg, s, t, last, more);
    }
  }

  lemma {:induction false} DeltaKeepsFinal(cfg: Config, s: Stream, t: string, text: string, more: string)
    requires Final(cfg, s, t, text + more)
    requires Substitute(cfg, s.buffer + (text + more))
          == Sent(cfg, s.buffer, text) + Substitute(cfg, Left(cfg, s.buffer, text) + more)
    ensures Final(cfg, Fed(cfg, s, text), t + text, more)
  {
    Reassociate(t, text, more);
    if text != "" {
      RenderConcat(s.sent, Released(cfg, s.buffer + text));
      Reassociate(Render(s.sent), Sent(cfg, s.buffer, text), Substitute(cfg, Left(cfg, s.buffer, text) + more));
    }
  }

  lemma {:induction false} HoldFiveIsCorrect(cfg: Config, chunks: seq<string>)
    requires cfg.hold == 5 && RunsWithin(cfg.u, Joined(chunks), 6)
    ensures Output(cfg, chunks) == Substitute(cfg, Joined(chunks))
  {
    assert Joined(chunks) + "" == Joined(chunks);
    FinalWithHoldFive(cfg, chunks, "");
    var s := FeedAll(cfg, chunks);
    assert s.buffer + "" == s.buffer;
  }

  // ----- The theorem -----

  lemma {:induction false} CoveredRunsAreCorrect(cfg: Config, chunks: seq<string>)
    requires RunsWithin(cfg.u, Joined(chunks), CoveredRun(cfg.hold))
    ensures Output(cfg, chunks) == Substitute(cfg, Joined(chunks))
  {
    if cfg.hold <= 4 {
      ShortRunsAreCorrect(cfg, chunks);
    } else if cfg.hold == 5 {
      HoldFiveIsCorrect(cfg, chunks);
    } else {
      ChunkIndependence(cfg, chunks);
    }
  }

  lemma {:induction false} LongerRunsGoWrong(cfg: Config) returns (chunks: seq<string>)
    ensures |Joined(chunks)| == CoveredRun(cfg.hold) + 1
    ensures Output(cfg, chunks) != Substitute(cfg, Joined(chunks))
  {
    if cfg.hold <= 5 {
      var n := if cfg.hold <= 4 then 1 else 2;
      SmallHoldLeaks(cfg, n);
      chunks := [AlmostAddress(n), "o"];
    } else {
      chunks := [BlockedAddress(cfg.hold)];
      CapForgetsLookbehind(cfg);
      OnePiece(cfg, BlockedAddress(cfg.hold));
    }
  }

  /** For every configuration: every division of every text whose eligible runs are
      at most `bound` is redacted as the whole text is, exactly when the hold
      covers runs of that length. */
  lemma {:induction false} HoldCoversRunsExactly(cfg: Config, bound: int)
    ensures Correct(cfg, bound) <==> bound <= CoveredRun(cfg.hold)
  {
    if bound <= CoveredRun(cfg.hold) {
      forall chunks: seq<string> | RunsWithin(cfg.u, Joined(chunks), bound)
        ensures Output(cfg, chunks) == Substitute(cfg, Joined(chunks))
      {
        RunsWithinWeaker(cfg.u, Joined(chunks), bound, CoveredRun(cfg.hold));
        CoveredRunsAreCorrect(cfg, chunks);
      }
    } else {
      var chunks := LongerRunsGoWrong(cfg);
      assert RunsWithin(cfg.u, Joined(chunks), bound);
    }
  }
}
