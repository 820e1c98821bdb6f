/** How large the hold has to be: the bound on memory, and the exact values for
    which the streaming form is correct. */
module Hold {
  import opened CharTables
  import opened Wrappers
  import opened Regex
  import opened Patterns
  import opened Matching
  import opened Substitution
  import opened Chunking

  // ----- Memory -----

  /** What one call retains, for any hold and any text: the hold and at most one
      match straddling it. */
  lemma {:induction false} RetainedIsBounded(cfg: Config, buffer: string)
    ensures |Retained(cfg, buffer)| <= Max(0, cfg.hold) + MaxPatternLength() - 1
  {
    var s := UnsafeStart(cfg, buffer);
    var c := CutAt(cfg.u, buffer, 0, s);
    PatternBounds(Email);
    if c < s {
      var m := MatchAt(cfg.u, buffer, c).value;
      PatternBounds(m.kind);
    }
  }

  lemma {:induction false} BufferIsBounded(cfg: Config, chunks: seq<string>)
    ensures |FeedAll(cfg, chunks).buffer| <= Max(0, cfg.hold) + MaxPatternLength() - 1
  {
    if chunks != [] {
      var init, last := chunks[..|chunks| - 1], chunks[|chunks| - 1];
      BufferIsBounded(cfg, init);
      RetainedIsBounded(cfg, FeedAll(cfg, init).buffer + last);
    }
  }

  /** `peak_buffer` after a run: the longest the buffer has been just after a delta was appended. */
  function Peak(cfg: Config, chunks: seq<string>): nat {
    if chunks == [] then 0 else
      var init, last := chunks[..|chunks| - 1], chunks[|chunks| - 1];
      if last == "" then Peak(cfg, init) else Max(Peak(cfg, init), |FeedAll(cfg, init).buffer| + |last|)
  }

  lemma {:induction false} PeakIsBounded(cfg: Config, chunks: seq<string>, longest: nat)
    requires forall i :: 0 <= i < |chunks| ==> |chunks[i]| <= longest
    ensures Peak(cfg, chunks) <= Max(0, cfg.hold) + MaxPatternLength() - 1 + longest
  {
    if chunks != [] {
      var init := chunks[..|chunks| - 1];
      PeakIsBounded(cfg, init, longest);
      BufferIsBounded(cfg, init);
    }
  }

  /** From `s` on every character of `t` could continue a match, and the one before could not. */
  predicate LongestLiveSuffix(u: Unicode, t: string, s: nat) {
    && s <= |t|
    && (s > 0 ==> !CanContinue(u, t, s - 1))
    && forall j: nat :: s <= j < |t| ==> CanContinue(u, t, j)
  }

  /** A buffer that begins just after a character that cannot continue a match
      judges its characters as the whole text does. */
  lemma {:induction false} BufferSeesEnough(u: Unicode, t: string, off: nat, j: nat)
    requires off + j < |t| && (off > 0 ==> !Alphabetic(u, t[off - 1]))
    ensures CanContinue(u, t, off + j) == CanContinue(u, t[off..], j)
  {
    var b := t[off..];
    assert b[j] == t[off + j];
    assert j > 0 ==> b[j - 1] == t[off + j - 1];
    assert j + 1 < |b| ==> b[j + 1] == t[off + j + 1];
  }

  lemma {:induction false} LiveSuffixOfBuffer(u: Unicode, t: string, off: nat, c: nat)
    requires off <= |t| && (off > 0 ==> !CanContinue(u, t, off - 1))
    requires LongestLiveSuffix(u, t[off..], c)
    ensures LongestLiveSuffix(u, t, off + c)
  {
    forall j: nat | off <= j < |t| ensures CanContinue(u, t, j) == CanContinue(u, t[off..], j - off) {
      BufferSeesEnough(u, t, off, j - off);
    }
  }

  lemma {:induction false} WalkFindsLiveSuffix(cfg: Config, before: string, buffer: string)
    requires RunsWithin(cfg.u, before + buffer, cfg.hold)
    ensures LongestLiveSuffix(cfg.u, buffer, Cut(cfg, buffer))
  {
    WalkEndsSafely(cfg, before, buffer);
  }

  lemma {:induction false} LiveSuffixGrows(cfg: Config, t: string, off: nat, text: string)
    requires LongestLiveSuffix(cfg.u, t, off)
    requires RunsWithin(cfg.u, t + text, cfg.hold)
    ensures LongestLiveSuffix(cfg.u, t + text, off + Cut(cfg, t[off..] + text))
  {
    var whole, b := t + text, t[off..] + text;
    assert whole[off..] == b;
    assert t[..off] + b == whole;
    WalkFindsLiveSuffix(cfg, t[..off], b);
    if off > 0 {
      assert whole[off - 1] == t[off - 1];
      assert off > 1 ==> whole[off - 2] == t[off - 2];
      assert off < |t| ==> whole[off] == t[off];
    }
    LiveSuffixOfBuffer(cfg.u, whole, off, Cut(cfg, b));
  }

  /** When eligible runs fit the hold, what is retained depends only on the text
      so far: its longest suffix that could still continue a match. */
  lemma {:induction false} RetainedIsLongestLiveSuffix(cfg: Config, chunks: seq<string>)
    requires RunsWithin(cfg.u, Joined(chunks), cfg.hold)
    ensures IsSuffix(FeedAll(cfg, chunks).buffer, Joined(chunks))
    ensures LongestLiveSuffix(cfg.u, Joined(chunks), |Joined(chunks)| - |FeedAll(cfg, chunks).buffer|)
  {
    hide Scan, CutAt, MatchAt, CanContinue, UnsafeStart, RunsWithin;
    BufferIsSuffix(cfg, chunks);
    if chunks != [] {
      var init, last := chunks[..|chunks| - 1], chunks[|chunks| - 1];
      RunsWithinPrefix(cfg.u, Joined(init), last, cfg.hold);
      RetainedIsLongestLiveSuffix(cfg, init);
      if last == "" {
        assert Joined(chunks) == Joined(init);
      } else {
        var b := FeedAll(cfg, init).buffer;
        LiveSuffixGrows(cfg, Joined(init), |Joined(init)| - |b|, last);
        assert |FeedAll(cfg, chunks).buffer| == |b + last| - Cut(cfg, b + last);
      }
    }
  }

  /** No letter, digit or mark, and no space that digits might go on around. */
  predicate DeadChar(u: Unicode, b: string, i: nat)
    requires i < |b|
  {
    && !IsAlnum(u, b[i]) && b[i] !in {'.', '_', '%', '+', '-', '@'}
    && (b[i] == ' ' ==>
          i == 0 || !IsDigit(u, b[i - 1]) || (i + 1 < |b| && !IsDigit(u, b[i + 1])))
  }

  lemma {:induction false} CutPassesWall(u: Unicode, b: string, p: nat, wall: nat, safe: nat)
    requires p <= wall < safe <= |b| && !CanContinue(u, b, wall)
    ensures wall < CutAt(u, b, p, safe)
    decreases wall - p
  {
    MatchStopsAt(u, b, b, p, wall);
    var next := if MatchAt(u, b, p).None? then p + 1 else MatchAt(u, b, p).value.end;
    if next <= wall {
      CutPassesWall(u, b, next, wall, safe);
    }
  }

  /** Such a character, and everything before it, goes out at once, for any hold:
      a space before a word, say, is not waited on. */
  lemma {:induction false} DeadCharacterIsReleased(cfg: Config, b: string, i: nat)
    requires i < |b| && DeadChar(cfg.u, b, i)
    ensures i < Cut(cfg, b)
  {
    assert !CanContinue(cfg.u, b, i);
    CutPassesWall(cfg.u, b, 0, i, UnsafeStart(cfg, b));
  }

  // ----- The run bound is exact -----

  /** A blocked address and then enough `@` for one run of `hold + 1` characters. */
  function BlockedAddress(hold: nat): (t: string)
    requires hold >= 6
    ensures |t| == hold + 1
  {
    "@a@b.co" + seq(hold - 6, i => '@')
  }

  lemma {:induction false} BlockedAddressChars(u: Unicode, hold: nat, i: nat)
    requires hold >= 6 && i <= hold
    ensures var c := BlockedAddress(hold)[i];
            Alphabetic(u, c) && In(u, BEFORE_EMAIL, c) && !In(u, DIGIT, c)
  {
    var c := BlockedAddress(hold)[i];
    assert c == '@' || c == 'a' || c == 'b' || c == '.' || c == 'c' || c == 'o';
  }

  lemma {:induction false} NoDigitsNoNumber(u: Unicode, t: string, i: nat)
    requires i <= |t| && !At(u, DIGIT, t, i)
    ensures EndOf(u, Card, t, i).None? && EndOf(u, Ssn, t, i).None?
  {
    CardIsEngine(u, t, i);
    SsnIsEngine(u, t, i);
    assert !Digits(u, t, i, 4) && !Digits(u, t, i, 3);
  }

  lemma {:induction false} BlockedAddressHasNoMatch(u: Unicode, hold: nat, i: nat)
    requires hold >= 6 && i <= hold + 1
    ensures MatchAt(u, BlockedAddress(hold), i).None?
  {
    var t := BlockedAddress(hold);
    if i < |t| { BlockedAddressChars(u, hold, i); }
    if i > 0 { BlockedAddressChars(u, hold, i - 1); }
    NoDigitsNoNumber(u, t, i);
    EmailIsEngine(u, t, i);
    if i == 0 {
      RunEndIs(u, LOCAL, t, 0, 0);
    }
  }

  lemma {:induction false} AddressIsMatched(u: Unicode, t: string)
    requires "a@b.co" <= t && (|t| > 6 ==> t[6] == '@')
    ensures MatchAt(u, t, 0) == Some(Match(Email, 6))
  {
    assert t[0] == 'a' && t[1] == '@' && t[2] == 'b' && t[3] == '.' && t[4] == 'c' && t[5] == 'o';
    RunEndIs(u, LOCAL, t, 0, 1);
    RunEndIs(u, LABEL, t, 2, 3);
    RunEndIs(u, LABEL, t, 4, 6);
    RunEndIs(u, LETTER, t, 4, 6);
    assert TldEnd(u, t, 3) == Some(6);
    assert DomainEnd(u, t, 6, 3).None?;
    assert DomainEnd(u, t, 3, 4) == Some(6);
    EmailIsEngine(u, t, 0);
  }

  lemma {:induction false} WalkReachesFloor(u: Unicode, t: string, index: nat, floor: nat)
    requires floor <= index <= |t|
    requires forall j: nat :: floor <= j < index ==> Alphabetic(u, t[j])
    ensures WalkBack(u, t, index, floor) == floor
    decreases index
  {
    if index > floor {
      WalkReachesFloor(u, t, index - 1, floor);
    }
  }

  lemma {:induction false} OnePiece(cfg: Config, t: string)
    requires t != ""
    ensures Joined([t]) == t
    ensures Output(cfg, [t]) == Render(Released(cfg, t)) + Substitute(cfg, Retained(cfg, t))
  {
    assert [t][..0] == [];
    assert Joined([t][..0]) == "" && FeedAll(cfg, [t][..0]) == Stream("", []);
    assert "" + t == t;
    assert [] + Released(cfg, t) == Released(cfg, t);
  }

  lemma {:induction false} EmailIsHidden(cfg: Config, t: string, end: nat)
    requires MatchAt(cfg.u, t, 0) == Some(Match(Email, end))
    ensures REDACTED <= Substitute(cfg, t)
  {
    assert StepAt(cfg, t, 0).segment.Hidden?;
    StartsWith(REDACTED, Render(Scan(cfg, t, 0, |t|)[1..]));
  }

  lemma StartsWith(a: string, b: string)
    ensures a <= a + b
  {
  }

  lemma {:induction false} BlockedAddressIsCut(cfg: Config, t: string)
    requires cfg.hold >= 6 && t == BlockedAddress(cfg.hold)
    ensures Substitute(cfg, t) == t
    ensures Cut(cfg, t) == 1 && Render(Released(cfg, t)) == t[0..1]
  {
    forall j: nat | j < |t| ensures MatchAt(cfg.u, t, j).None? && Alphabetic(cfg.u, t[j]) {
      BlockedAddressHasNoMatch(cfg.u, cfg.hold, j);
      BlockedAddressChars(cfg.u, cfg.hold, j);
    }
    ScanKeeps(cfg, t, 0, |t|);
    assert t[0..|t|] == t;
    ReleasedRaw(cfg, t);
  }

  /** Streamed in one piece, the blocked address loses the character that blocked it. */
  lemma {:induction false} CapForgetsLookbehind(cfg: Config)
    requires cfg.hold >= 6
    ensures Output(cfg, [BlockedAddress(cfg.hold)]) != Substitute(cfg, BlockedAddress(cfg.hold))
  {
    var t := BlockedAddress(cfg.hold);
    OnePiece(cfg, t);
    BlockedAddressIsCut(cfg, t);
    BlockedAddressTail(cfg.hold);
    AddressIsMatched(cfg.u, t[1..]);
    EmailIsHidden(cfg, t[1..], 6);
    SecondCharacter(t[0..1], Substitute(cfg, t[1..]));
  }

  lemma BlockedAddressTail(hold: nat)
    requires hold >= 6
    ensures var t := BlockedAddress(hold);
            t[1] == 'a' && "a@b.co" <= t[1..] && (|t| > 7 ==> t[1..][6] == '@')
  {
  }

  lemma SecondCharacter(first: string, rest: string)
    requires |first| == 1 && REDACTED <= rest
    ensures |first + rest| > 1 && (first + rest)[1] == '['
  {
    assert rest[0] == REDACTED[0];
  }

  // ----- ... as a bound over all texts, not for each text -----

  predicate AllPlain(t: string) {
    forall j :: 0 <= j < |t| ==> t[j] == 'a'
  }

  lemma {:induction false} PlainHasNoMatch(u: Unicode, t: string, i: nat)
    requires AllPlain(t) && i <= |t|
    ensures MatchAt(u, t, i).None?
  {
    NoDigitsNoNumber(u, t, i);
    EmailIsEngine(u, t, i);
  }

  lemma {:induction false} PlainIsKept(cfg: Config, t: string, c: nat)
    requires AllPlain(t) && c <= |t|
    ensures Render(Scan(cfg, t, 0, c)) == t[..c]
  {
    forall p: nat | p < c ensures MatchAt(cfg.u, t, p).None? {
      PlainHasNoMatch(cfg.u, t, p);
    }
    ScanKeeps(cfg, t, 0, c);
    assert t[0..c] == t[..c];
  }

  lemma {:induction false} PlainStream(cfg: Config, chunks: seq<string>)
    requires AllPlain(Joined(chunks))
    ensures Render(FeedAll(cfg, chunks).sent) + FeedAll(cfg, chunks).buffer == Joined(chunks)
  {
    hide Scan, CutAt, UnsafeStart;
    if chunks != [] {
      var init, last := chunks[..|chunks| - 1], chunks[|chunks| - 1];
      assert forall j :: 0 <= j < |Joined(init)| ==> Joined(chunks)[j] == Joined(init)[j];
      PlainStream(cfg, init);
      var s := FeedAll(cfg, init);
      PlainStep(cfg, Render(s.sent), s.buffer, last);
      RenderConcat(s.sent, Released(cfg, s.buffer + last));
    }
  }

  lemma {:induction false} PlainStep(cfg: Config, before: string, buffer: string, text: string)
    requires AllPlain((before + buffer) + text)
    ensures var b := buffer + text;
            (before + Render(Released(cfg, b))) + Retained(cfg, b) == (before + buffer) + text
  {
    hide Scan, CutAt, UnsafeStart, Render;
    var b := buffer + text;
    forall j | 0 <= j < |b| ensures b[j] == 'a' {
      assert b[j] == ((before + buffer) + text)[|before| + j];
    }
    PlainIsKept(cfg, b, Cut(cfg, b));
    Reassociate(before, buffer, text);
    Reassociate(before, b[..Cut(cfg, b)], Retained(cfg, b));
  }

  /** For a single text, runs within the hold are enough but not needed: a text that
      is one long run of letters comes through whole in every division. */
  lemma {:induction false} LongRunCanBeHarmless(cfg: Config, chunks: seq<string>, n: nat)
    requires n > 0 && n > cfg.hold && Joined(chunks) == seq(n, _ => 'a')
    ensures !RunsWithin(cfg.u, Joined(chunks), cfg.hold)
    ensures Output(cfg, chunks) == Substitute(cfg, Joined(chunks))
  {
    hide Scan, CutAt, UnsafeStart, Render, MatchAt;
    var t, s := Joined(chunks), FeedAll(cfg, chunks);
    assert EligibleRun(cfg.u, t, 0, n);
    PlainStream(cfg, chunks);
    assert t[..n] == t;
    PlainIsKept(cfg, t, n);
    assert s.buffer[..|s.buffer|] == s.buffer;
    forall j | 0 <= j < |s.buffer| ensures s.buffer[j] == 'a' {
      assert s.buffer[j] == t[|Render(s.sent)| + j];
    }
    PlainIsKept(cfg, s.buffer, |s.buffer|);
  }

  lemma {:induction false} RunsWithinWeaker(u: Unicode, t: string, bound: int, bound': int)
    requires RunsWithin(u, t, bound) && bound <= bound'
    ensures RunsWithin(u, t, bound')
  {
  }

  // ----- No decision is ever revised -----

  lemma {:induction false} TldHorizon(u: Unicode, t: string, t': string, p: nat)
    requires t <= t' && p + 3 <= |t|
    ensures TldEnd(u, t, p) == TldEnd(u, t', p) || TldEnd(u, t, p) == Some(|t|)
  {
    if At(u, DOT, t, p) {
      RunHorizon(u, LETTER, t, t', p + 1);
    }
  }

  /** A run that ends inside the shorter text ends at the same place in the longer one. */
  lemma {:induction false} RunHorizon(u: Unicode, k: Class, t: string, t': string, p: nat)
    requires t <= t' && p <= |t|
    ensures RunEnd(u, k, t, p) < |t| ==> RunEnd(u, k, t', p) == RunEnd(u, k, t, p)
    ensures RunEnd(u, k, t, p) == |t| ==> RunEnd(u, k, t', p) >= |t|
    decreases |t| - p
  {
    if p < |t| {
      RunHorizon(u, k, t, t', p + 1);
    }
  }

  /** Where the rest of the domain ends if it goes on with one more label. */
  function LongerDomain(u: Unicode, t: string, p: nat, n: nat): Option<nat>
    requires p <= |t| && n > 0
  {
    if !At(u, DOT, t, p) then None else
      var q := RunEnd(u, LABEL, t, p + 1);
      if 1 <= q - (p + 1) <= 63 then DomainEnd(u, t, q, n - 1) else None
  }

  lemma {:induction false} LongerHorizon(u: Unicode, t: string, t': string, p: nat, n: nat)
    requires t <= t' && n > 0 && p + 64 * n + 3 <= |t|
    ensures LongerDomain(u, t, p, n) == LongerDomain(u, t', p, n) || LongerDomain(u, t, p, n) == Some(|t|)
    decreases n, 0
  {
    if At(u, DOT, t, p) {
      RunHorizon(u, LABEL, t, t', p + 1);
      var q := RunEnd(u, LABEL, t, p + 1);
      if q - (p + 1) <= 63 {
        DomainHorizon(u, t, t', q, n - 1);
      }
    }
  }

  lemma {:induction false} DomainHorizon(u: Unicode, t: string, t': string, p: nat, n: nat)
    requires t <= t' && p + 64 * n + 3 <= |t|
    ensures DomainEnd(u, t, p, n) == DomainEnd(u, t', p, n) || DomainEnd(u, t, p, n) == Some(|t|)
    decreases n, 1
  {
    TldHorizon(u, t, t', p);
    if n > 0 {
      LongerHorizon(u, t, t', p, n);
    }
  }

  /** The longest beginning of an email whose fate is still open: everything up
      to the first letter of the top-level domain. */
  const OPEN_EMAIL := 64 + 1 + 63 + 4 * 64 + 2

  lemma {:induction false} HostHorizon(u: Unicode, t: string, t': string, p: nat, n: nat)
    requires t <= t' && p + 63 + 64 * n + 3 <= |t|
    ensures HostEnd(u, t, p, n) == HostEnd(u, t', p, n) || HostEnd(u, t, p, n) == Some(|t|)
  {
    RunHorizon(u, LABEL, t, t', p);
    var b := RunEnd(u, LABEL, t, p);
    if b - p <= 63 {
      DomainHorizon(u, t, t', b, n);
    }
  }

  lemma {:induction false} AddressHorizon(u: Unicode, t: string, t': string, p: nat, n: nat)
    requires t <= t' && p + 64 + 1 + 63 + 64 * n + 2 < |t|
    ensures AddressEnd(u, t, p, n) == AddressEnd(u, t', p, n) || AddressEnd(u, t, p, n) == Some(|t|)
  {
    hide DomainEnd, HostEnd;
    RunHorizon(u, LOCAL, t, t', p);
    var a := RunEnd(u, LOCAL, t, p);
    if a - p <= 64 && At(u, AT, t, a) {
      HostHorizon(u, t, t', a + 1, n);
    }
  }

  lemma {:induction false} EmailHorizon(u: Unicode, t: string, t': string, p: nat)
    requires t <= t' && p + OPEN_EMAIL < |t|
    ensures EndOf(u, Email, t, p) == EndOf(u, Email, t', p) || EndOf(u, Email, t, p) == Some(|t|)
  {
    EmailIsEngine(u, t, p);
    EmailIsEngine(u, t', p);
    AddressHorizon(u, t, t', p, 4);
  }

  /** Far enough from the end of the buffer, what matches is already decided,
      unless the match runs to the very end. */
  lemma {:induction false} MatchHorizon(u: Unicode, t: string, t': string, p: nat)
    requires t <= t' && p + OPEN_EMAIL < |t|
    ensures MatchAt(u, t, p) == MatchAt(u, t', p) || MatchAt(u, t, p) == Some(Match(Email, |t|))
  {
    NumberHorizon(u, Card, t, t', p);
    NumberHorizon(u, Ssn, t, t', p);
    EmailHorizon(u, t, t', p);
  }

  lemma {:induction false} NumberHorizon(u: Unicode, kind: Kind, t: string, t': string, p: nat)
    requires kind != Email && t <= t' && p + OPEN_EMAIL < |t|
    ensures EndOf(u, kind, t, p) == EndOf(u, kind, t', p)
  {
    PatternBounds(kind);
    EngineHorizon(u, Pattern(kind), t, t', p);
  }

  lemma {:induction false} ScanSplitsWhereDecided(cfg: Config, buffer: string, t: string, i: nat, c: nat)
    requires buffer <= t && i <= c <= |buffer| && CleanCut(cfg, buffer, i, c)
    requires forall p: nat :: i <= p < c ==>
               || MatchAt(cfg.u, buffer, p) == MatchAt(cfg.u, t, p)
               || (MatchAt(cfg.u, buffer, p).Some? && MatchAt(cfg.u, buffer, p).value.end > c)
    ensures Scan(cfg, t, i, |t|) == Scan(cfg, buffer, i, c) + Scan(cfg, t, c, |t|)
    decreases c - i
  {
    if i < c {
      var step := StepAt(cfg, buffer, i);
      CleanCutAhead(cfg, buffer, step.next, c);
      assert t[i..step.next] == buffer[i..step.next];
      assert StepAt(cfg, t, i) == step;
      ScanSplitsWhereDecided(cfg, buffer, t, step.next, c);
      Rejoin([step.segment], Scan(cfg, buffer, step.next, c), Scan(cfg, t, c, |t|));
    }
  }

  /** Every decision behind the cut is the one the whole text makes there. */
  lemma {:induction false} DecidedBehindCut(cfg: Config, buffer: string, t: string, p: nat)
    requires cfg.hold >= OPEN_EMAIL && buffer <= t && p < Cut(cfg, buffer)
    ensures || MatchAt(cfg.u, buffer, p) == MatchAt(cfg.u, t, p)
            || MatchAt(cfg.u, buffer, p) == Some(Match(Email, |buffer|))
    ensures Cut(cfg, buffer) < |buffer| || MatchAt(cfg.u, buffer, p) == MatchAt(cfg.u, t, p)
  {
    var s := UnsafeStart(cfg, buffer);
    if CanContinue(cfg.u, buffer, s - 1) {
      MatchHorizon(cfg.u, buffer, t, p);
    } else {
      MatchStopsAt(cfg.u, buffer, t, p, s - 1);
    }
  }

  /** Released text agrees with the redaction of the buffer and whatever follows it. */
  ghost predicate KeepsDecisions(cfg: Config, buffer: string, more: string) {
    var t := buffer + more;
    Substitute(cfg, t) == Render(Released(cfg, buffer)) + Render(Scan(cfg, t, Cut(cfg, buffer), |t|))
  }

  lemma {:induction false} LargeHoldKeepsDecisions(cfg: Config, buffer: string, more: string)
    requires cfg.hold >= OPEN_EMAIL
    ensures KeepsDecisions(cfg, buffer, more)
  {
    var t, c := buffer + more, Cut(cfg, buffer);
    CutIsClean(cfg, buffer, 0, UnsafeStart(cfg, buffer));
    forall p: nat | p < c
      ensures || MatchAt(cfg.u, buffer, p) == MatchAt(cfg.u, t, p)
              || (MatchAt(cfg.u, buffer, p).Some? && MatchAt(cfg.u, buffer, p).value.end > c)
    {
      DecidedBehindCut(cfg, buffer, t, p);
    }
    ScanSplitsWhereDecided(cfg, buffer, t, 0, c);
    RenderConcat(Scan(cfg, buffer, 0, c), Scan(cfg, t, c, |t|));
  }

  // ----- The longest email, and its longest undecided beginning -----

  function LongEmailChar(j: int): char {
    if j == 64 then '@'
    else if j == 128 || j == 192 || j == 256 || j == 320 || j == 384 then '.'
    else 'a'
  }

  /** The first `n` characters of an email that uses every repetition to the full. */
  function LongEmail(n: nat): (t: string)
    ensures |t| == n
  {
    seq(n, j => LongEmailChar(j))
  }

  lemma {:induction false} LongEmailRun(u: Unicode, n: nat, k: Class, p: nat, e: nat)
    requires k == LOCAL || k == LABEL || k == LETTER
    requires p <= e <= n && (forall j: nat :: p <= j < e ==> LongEmailChar(j) == 'a')
    requires e == n || LongEmailChar(e) == '@' || (k != LOCAL && LongEmailChar(e) == '.')
    ensures RunEnd(u, k, LongEmail(n), p) == e
  {
    RunEndIs(u, k, LongEmail(n), p, e);
  }

  lemma {:induction false} LongEmailTld(u: Unicode, n: nat, p: nat, e: nat)
    requires p < e <= n && LongEmailChar(p) == '.'
    requires forall j: nat :: p < j < e ==> LongEmailChar(j) == 'a'
    requires e == n || LongEmailChar(e) == '.'
    ensures TldEnd(u, LongEmail(n), p) == if 2 <= e - (p + 1) <= 24 then Some(e) else None
  {
    LongEmailRun(u, n, LETTER, p + 1, e);
  }

  lemma {:induction false} LongEmailGroup(u: Unicode, n: nat, p: nat, k: nat)
    requires 386 <= n && k > 0 && (p == 128 || p == 192 || p == 256 || p == 320)
    ensures DomainEnd(u, LongEmail(n), p, k) == DomainEnd(u, LongEmail(n), p + 64, k - 1)
  {
    LongEmailRun(u, n, LABEL, p + 1, p + 64);
    LongEmailTld(u, n, p, p + 64);
  }

  /** Group by group, the domain of the long email is read to its end. */
  lemma {:induction false} LongEmailDomain(u: Unicode, n: nat, k: nat)
    requires 386 <= n <= 409 && k <= 4
    ensures DomainEnd(u, LongEmail(n), 384 - 64 * k, k) == if n == 386 then None else Some(n)
    decreases k
  {
    if k == 0 {
      LongEmailTld(u, n, 384, n);
    } else {
      LongEmailGroup(u, n, 384 - 64 * k, k);
      LongEmailDomain(u, n, k - 1);
    }
  }

  lemma {:induction false} LongEmailEnds(u: Unicode, n: nat, k: nat)
    requires 386 <= n <= 409 && k == 4
    ensures AddressEnd(u, LongEmail(n), 0, k) == if n == 386 then None else Some(n)
  {
    LongEmailRun(u, n, LOCAL, 0, 64);
    LongEmailRun(u, n, LABEL, 65, 128);
    LongEmailDomain(u, n, k);
  }

  lemma {:induction false} LongEmailMatches(u: Unicode, n: nat, p: nat)
    requires 386 <= n <= 409 && p <= n
    ensures MatchAt(u, LongEmail(n), p)
         == if p == 0 && n > 386 then Some(Match(Email, n)) else None
  {
    var t := LongEmail(n);
    NoDigitsNoNumber(u, t, p);
    EmailIsEngine(u, t, p);
    if p == 0 {
      LongEmailEnds(u, n, 4);
    } else {
      assert In(u, BEFORE_EMAIL, t[p - 1]);
    }
  }

  /** A buffer of live characters with no match in it goes out as it is, down to the hold. */
  lemma {:induction false} ReleasedRaw(cfg: Config, b: string)
    requires forall p: nat :: p < |b| ==> MatchAt(cfg.u, b, p).None? && Alphabetic(cfg.u, b[p])
    requires b != "" && cfg.hold < |b|
    ensures var c := Cut(cfg, b);
            0 < c && c == Min(|b|, |b| - cfg.hold) && Render(Released(cfg, b)) == b[..c]
  {
    var floor := Max(0, |b| - cfg.hold);
    if floor <= |b| {
      WalkReachesFloor(cfg.u, b, |b|, floor);
    }
    var s := UnsafeStart(cfg, b);
    ScanKeeps(cfg, b, 0, s);
    ScanSkips(cfg, b, 0, s, s);
    assert b[0..s] == b[..s];
  }

  lemma DifferentBeginnings(a: string, b: string, c: string)
    requires a != "" && a[0] != '[' && REDACTED <= c
    ensures c != a + b
  {
    assert c[0] == REDACTED[0];
  }

  lemma {:induction false} LongEmailGrows(u: Unicode)
    ensures LongEmail(386) + "a" == LongEmail(387)
    ensures forall p: nat :: p < 386 ==> Alphabetic(u, LongEmail(386)[p])
    ensures LongEmail(386)[0] == 'a'
  {
  }

  lemma {:induction false} SmallHoldRevises(cfg: Config)
    requires cfg.hold < OPEN_EMAIL
    ensures !KeepsDecisions(cfg, LongEmail(386), "a")
  {
    hide MatchAt, LongEmail;
    var b, t := LongEmail(386), LongEmail(387);
    LongEmailGrows(cfg.u);
    forall p: nat | p < |b| ensures MatchAt(cfg.u, b, p).None? {
      LongEmailMatches(cfg.u, 386, p);
    }
    ReleasedRaw(cfg, b);
    LongEmailMatches(cfg.u, 387, 0);
    EmailIsHidden(cfg, t, 387);
    var c := Cut(cfg, b);
    DifferentBeginnings(b[..c], Render(Scan(cfg, t, c, |t|)), Substitute(cfg, t));
  }

  /** What is released is never contradicted by later text exactly when the hold
      is at least the longest open beginning of an email, 386 characters. */
  lemma {:induction false} HoldKeepsDecisionsExactly(cfg: Config)
    ensures (forall buffer: string, more: string :: KeepsDecisions(cfg, buffer, more)) <==> cfg.hold >= 386
  {
    if cfg.hold >= 386 {
      forall buffer: string, more: string ensures KeepsDecisions(cfg, buffer, more) {
        LargeHoldKeepsDecisions(cfg, buffer, more);
      }
    } else {
      SmallHoldRevises(cfg);
    }
  }

  // ----- The length bounds are attained -----

  function LongCard(): (t: string)
    ensures |t| == 34
  {
    seq(34, j => if j >= 4 && j % 2 == 0 then '-' else '1')
  }

  lemma {:induction false} LongCardTail(u: Unicode, p: nat, lo: nat, hi: nat)
    requires 4 <= p <= 34 && p + 2 * hi == 34 && lo <= hi
    ensures CardTail(u, LongCard(), p, lo, hi) == Some(34)
    decreases hi
  {
    if hi > 0 {
      assert CardStep(u, LongCard(), p) == Some(p + 2);
      LongCardTail(u, p + 2, Pred(lo), hi - 1);
    }
  }

  lemma {:induction false} LongCardEnds(u: Unicode, rest: nat)
    requires rest == 15
    ensures EndOf(u, Card, LongCard(), 0) == Some(34)
  {
    CardIsEngine(u, LongCard(), 0);
    LongCardTail(u, 4, 9, rest);
    assert Digits(u, LongCard(), 0, 4);
  }

  lemma {:induction false} LongSsnEnds(u: Unicode, t: string)
    requires t == "123-45-6789"
    ensures EndOf(u, Ssn, t, 0) == Some(11)
  {
    hide Engine;
    SsnIsEngine(u, t, 0);
    assert Digits(u, t, 0, 3) && Digits(u, t, 4, 2) && Digits(u, t, 7, 4);
  }

  lemma {:induction false} LongEmailWhole(u: Unicode, n: nat)
    requires n == 409
    ensures EndOf(u, Email, LongEmail(n), 0) == Some(n)
  {
    LongEmailMatches(u, n, 0);
  }

  function LongestText(kind: Kind): string {
    match kind
    case Email => LongEmail(409)
    case Card => LongCard()
    case Ssn => "123-45-6789"
  }

  /** Each alternative's longest possible match really occurs. */
  lemma {:induction false} LengthBoundsAttained(u: Unicode, kind: Kind, t: string)
    requires t == LongestText(kind)
    ensures EndOf(u, kind, t, 0) == Some(LengthBound(kind))
  {
    match kind
    case Email => LongEmailWhole(u, 409);
    case Card => LongCardEnds(u, 15);
    case Ssn => LongSsnEnds(u, t);
  }
}
