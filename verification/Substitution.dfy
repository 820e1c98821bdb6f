/** Redaction as a value: the reference substitution over a whole text, and the
    prefix of a buffer that the streaming form releases. */
module Substitution {
  import opened CharTables
  import opened Wrappers
  import opened Matching
  import opened Luhn

  datatype Config = Config(u: Unicode, hold: int, requireLuhn: bool)

  const REDACTED := "[REDACTED]"

  // ----- The Luhn gate -----

  /** The decimal values of a text with every other character removed. */
  function DigitValues(u: Unicode, t: string): seq<nat> {
    if t == "" then []
    else (if IsDecimal(u, t[0]) then [u.decimal[t[0]]] else []) + DigitValues(u, t[1..])
  }

  predicate IsReal(cfg: Config, kind: Kind, text: string) {
    !cfg.requireLuhn || kind != Card || LuhnOk(DigitValues(cfg.u, text))
  }

  /** The decimal at `j` is the entry that its rank among the decimals points to. */
  predicate RankedAs(u: Unicode, text: string, digits: seq<nat>, j: nat)
    requires j < |text| && IsDecimal(u, text[j])
  {
    DecimalCount(u, text[..j]) < |digits| && digits[DecimalCount(u, text[..j])] == u.decimal[text[j]]
  }

  /** `digits` are the values of the decimals in `text`, in order. */
  predicate DigitsOf(u: Unicode, text: string, digits: seq<nat>) {
    && |digits| == DecimalCount(u, text)
    && forall j: nat :: j < |text| && IsDecimal(u, text[j]) ==> RankedAs(u, text, digits, j)
  }

  lemma {:induction false} RankInRest(u: Unicode, text: string, j: nat)
    requires j < |text| - 1
    ensures DecimalCount(u, text[..j + 1])
         == (if IsDecimal(u, text[0]) then 1 else 0) + DecimalCount(u, text[1..][..j])
  {
    assert text[..j + 1] == [text[0]] + text[1..][..j] && [text[0]][..0] == "";
    CountConcat(u, [text[0]], text[1..][..j]);
  }

  lemma {:induction false} DigitsInRest(u: Unicode, text: string, digits: seq<nat>)
    requires text != ""
    ensures DigitsOf(u, text, digits) <==>
            if !IsDecimal(u, text[0]) then DigitsOf(u, text[1..], digits)
            else digits != [] && digits[0] == u.decimal[text[0]] && DigitsOf(u, text[1..], digits[1..])
  {
    hide DecimalCount;
    var rest, first := text[1..], IsDecimal(u, text[0]);
    var digits' := if first && digits != [] then digits[1..] else digits;
    assert text[..0] == "" && DecimalCount(u, "") == 0 by { NoDecimals(u); }
    if |text| > 1 {
      RankInRest(u, text, |rest| - 1);
    }
    assert DecimalCount(u, text) == (if first then 1 else 0) + DecimalCount(u, rest) by {
      assert text == [text[0]] + rest && [text[0]][..0] == "";
      OneDecimal(u, text[0]);
      CountConcat(u, [text[0]], rest);
    }
    forall j: nat | j < |rest| && IsDecimal(u, rest[j])
      ensures !first || digits != [] ==> RankedAs(u, text, digits, j + 1) == RankedAs(u, rest, digits', j)
    {
      RankInRest(u, text, j);
    }
    if DigitsOf(u, text, digits) {
      assert first ==> RankedAs(u, text, digits, 0);
      forall j: nat | j < |rest| && IsDecimal(u, rest[j]) ensures RankedAs(u, rest, digits', j) {
        assert RankedAs(u, text, digits, j + 1);
      }
    }
    if DigitsOf(u, rest, digits') && (first ==> digits != [] && digits[0] == u.decimal[text[0]]) {
      forall j: nat | j < |text| && IsDecimal(u, text[j]) ensures RankedAs(u, text, digits, j) {
        if j > 0 {
          assert RankedAs(u, rest, digits', j - 1);
        }
      }
    }
  }

  lemma NoDecimals(u: Unicode)
    ensures DecimalCount(u, "") == 0
  {
  }

  lemma OneDecimal(u: Unicode, c: char)
    ensures DecimalCount(u, [c]) == if IsDecimal(u, c) then 1 else 0
  {
    assert [c][..0] == "";
  }

  /** The decimals of a text are read by their positions. */
  lemma {:induction false} DigitsAreRead(u: Unicode, text: string, digits: seq<nat>)
    ensures DigitsOf(u, text, digits) <==> digits == DigitValues(u, text)
    decreases |text|
  {
    if text != "" {
      DigitsInRest(u, text, digits);
      if !IsDecimal(u, text[0]) {
        DigitsAreRead(u, text[1..], digits);
      } else if digits != [] {
        DigitsAreRead(u, text[1..], digits[1..]);
      }
    }
  }

  /** The decimals of `text` pass the checksum. */
  ghost predicate PassesChecksum(u: Unicode, text: string) {
    exists digits: seq<nat> :: DigitsOf(u, text, digits) && Checksum(digits) % 10 == 0
  }

  lemma {:induction false} ValuesAreDigits(u: Unicode, text: string)
    ensures AllDigits(DigitValues(u, text))
  {
    if text != "" {
      ValuesAreDigits(u, text[1..]);
    }
  }

  lemma {:induction false} GateIsChecksum(u: Unicode, text: string)
    ensures LuhnOk(DigitValues(u, text)) <==> PassesChecksum(u, text)
  {
    hide DigitsOf, DigitValues;
    var values := DigitValues(u, text);
    DigitsAreRead(u, text, values);
    ValuesAreDigits(u, text);
    LuhnIsChecksum(values);
    if PassesChecksum(u, text) {
      var digits: seq<nat> :| DigitsOf(u, text, digits) && Checksum(digits) % 10 == 0;
      DigitsAreRead(u, text, digits);
    }
  }

  // ----- Segments -----

  /** A stretch of the input, with what becomes of it. */
  datatype Segment = Kept(text: string) | Hidden(text: string)

  function Source(segments: seq<Segment>): string {
    if segments == [] then "" else segments[0].text + Source(segments[1..])
  }

  function Shown(segment: Segment): string {
    match segment
    case Kept(text) => text
    case Hidden(_) => REDACTED
  }

  function Render(segments: seq<Segment>): string {
    if segments == [] then "" else Shown(segments[0]) + Render(segments[1..])
  }

  function HiddenCount(segments: seq<Segment>): nat {
    if segments == [] then 0
    else (if segments[0].Hidden? then 1 else 0) + HiddenCount(segments[1..])
  }

  lemma Reassociate(a: string, b: string, c: string)
    ensures a + (b + c) == (a + b) + c
  {
  }

  lemma {:induction false} RenderConcat(a: seq<Segment>, b: seq<Segment>)
    ensures Render(a + b) == Render(a) + Render(b)
  {
    if a == [] {
      assert a + b == b;
    } else {
      assert a + b == [a[0]] + (a[1..] + b);
      RenderConcat(a[1..], b);
      Reassociate(Shown(a[0]), Render(a[1..]), Render(b));
    }
  }

  lemma {:induction false} SourceConcat(a: seq<Segment>, b: seq<Segment>)
    ensures Source(a + b) == Source(a) + Source(b)
    ensures HiddenCount(a + b) == HiddenCount(a) + HiddenCount(b)
  {
    if a == [] {
      assert a + b == b;
    } else {
      assert a + b == [a[0]] + (a[1..] + b);
      SourceConcat(a[1..], b);
      Reassociate(a[0].text, Source(a[1..]), Source(b));
    }
  }

  // ----- Scanning -----

  function Decide(cfg: Config, kind: Kind, text: string): Segment {
    if IsReal(cfg, kind, text) then Hidden(text) else Kept(text)
  }

  datatype Step = Step(segment: Segment, next: nat)

  /** What the scan does at position `i`: take a match with its verdict, or keep
      one character. */
  function StepAt(cfg: Config, t: string, i: nat): (step: Step)
    requires i < |t|
    ensures i < step.next <= |t|
    ensures step.segment.text == t[i..step.next]
  {
    match MatchAt(cfg.u, t, i)
    case None => Step(Kept(t[i..i + 1]), i + 1)
    case Some(m) => Step(Decide(cfg, m.kind, t[i..m.end]), m.end)
  }

  /** The leftmost non-overlapping matches of `t` from `i` on that start before
      `c`, each with its verdict, and every other character kept. */
  function Scan(cfg: Config, t: string, i: nat, c: nat): seq<Segment>
    requires i <= |t| && c <= |t|
    decreases |t| - i
  {
    if i >= c then [] else
      var step := StepAt(cfg, t, i);
      [step.segment] + Scan(cfg, t, step.next, c)
  }

  /** The reference: one leftmost pass over the whole text. */
  function Substitute(cfg: Config, t: string): string {
    Render(Scan(cfg, t, 0, |t|))
  }

  // ----- What the streaming form releases -----

  /** Back from `index` over characters that could continue a match, not past `floor`. */
  function WalkBack(u: Unicode, buffer: string, index: nat, floor: nat): (s: nat)
    requires index <= |buffer|
    ensures s <= index
    ensures floor <= index ==> floor <= s
    ensures s == index || floor <= s
    ensures s > floor ==> !CanContinue(u, buffer, s - 1)
    ensures forall j: nat :: s <= j < index ==> CanContinue(u, buffer, j)
  {
    if index > floor && CanContinue(u, buffer, index - 1) then WalkBack(u, buffer, index - 1, floor) else index
  }

  function UnsafeStart(cfg: Config, buffer: string): (s: nat)
    ensures s <= |buffer|
  {
    WalkBack(cfg.u, buffer, |buffer|, Max(0, |buffer| - cfg.hold))
  }

  /** Where the scan stops: at `safe`, or at the start of a match that straddles it. */
  function CutAt(u: Unicode, buffer: string, i: nat, safe: nat): (c: nat)
    requires i <= safe <= |buffer|
    ensures i <= c <= safe
    ensures c < safe ==> MatchAt(u, buffer, c).Some? && MatchAt(u, buffer, c).value.end > safe
    decreases safe - i
  {
    if i == safe then safe else
      match MatchAt(u, buffer, i)
      case None => CutAt(u, buffer, i + 1, safe)
      case Some(m) => if m.end > safe then i else CutAt(u, buffer, m.end, safe)
  }

  /** How much of the buffer one call releases. */
  function Cut(cfg: Config, buffer: string): (c: nat)
    ensures c <= |buffer|
  {
    CutAt(cfg.u, buffer, 0, UnsafeStart(cfg, buffer))
  }

  function Released(cfg: Config, buffer: string): seq<Segment> {
    Scan(cfg, buffer, 0, Cut(cfg, buffer))
  }

  function Retained(cfg: Config, buffer: string): string {
    buffer[Cut(cfg, buffer)..]
  }

  /** No match reported by the scan from `i` crosses `c`. */
  predicate CleanCut(cfg: Config, t: string, i: nat, c: nat)
    requires i <= |t| && c <= |t|
    decreases |t| - i
  {
    if i >= c then i == c else CleanCut(cfg, t, StepAt(cfg, t, i).next, c)
  }

  lemma {:induction false} CutIsClean(cfg: Config, buffer: string, i: nat, safe: nat)
    requires i <= safe <= |buffer|
    ensures CleanCut(cfg, buffer, i, CutAt(cfg.u, buffer, i, safe))
    decreases safe - i
  {
    if i < safe {
      var j := StepAt(cfg, buffer, i).next;
      if j <= safe { CutIsClean(cfg, buffer, j, safe); }
    }
  }

  /** Scanning loses nothing: the segments are the scanned text, in order. */
  lemma {:induction false} ScanCovers(cfg: Config, t: string, i: nat, c: nat)
    requires i <= c <= |t| && CleanCut(cfg, t, i, c)
    ensures Source(Scan(cfg, t, i, c)) == t[i..c]
    decreases |t| - i
  {
    if i < c {
      var step := StepAt(cfg, t, i);
      CleanCutAhead(cfg, t, step.next, c);
      ScanCovers(cfg, t, step.next, c);
      Slices(t, i, step.next, c);
      assert Scan(cfg, t, i, c)[1..] == Scan(cfg, t, step.next, c);
    }
  }

  lemma {:induction false} CleanCutAhead(cfg: Config, t: string, i: nat, c: nat)
    requires i <= |t| && c <= |t| && CleanCut(cfg, t, i, c)
    ensures i <= c
  {
  }

  lemma {:induction false} WholeIsClean(cfg: Config, t: string, i: nat)
    requires i <= |t|
    ensures CleanCut(cfg, t, i, |t|)
    decreases |t| - i
  {
    if i < |t| {
      WholeIsClean(cfg, t, StepAt(cfg, t, i).next);
    }
  }

  lemma Rejoin(a: seq<Segment>, b: seq<Segment>, c: seq<Segment>)
    ensures a + (b + c) == (a + b) + c
  {
  }

  lemma Slices(t: string, i: nat, j: nat, k: nat)
    requires i <= j <= k <= |t|
    ensures t[i..j] + t[j..k] == t[i..k]
  {
  }

  lemma SliceOfDrop(t: string, s: nat, i: nat, j: nat)
    requires i <= j && s + j <= |t|
    ensures t[s..][i..j] == t[s + i..s + j]
  {
  }

  /** Over a stretch with no match the scan only moves on. */
  lemma {:induction false} ScanSkips(cfg: Config, t: string, i: nat, j: nat, c: nat)
    requires i <= j <= c <= |t|
    requires forall p: nat :: i <= p < j ==> MatchAt(cfg.u, t, p).None?
    ensures Scan(cfg, t, i, c) == Scan(cfg, t, i, j) + Scan(cfg, t, j, c)
    ensures CutAt(cfg.u, t, i, c) == CutAt(cfg.u, t, j, c)
    decreases j - i
  {
    if i < j {
      ScanSkips(cfg, t, i + 1, j, c);
      Rejoin([Kept(t[i..i + 1])], Scan(cfg, t, i + 1, j), Scan(cfg, t, j, c));
    }
  }

  /** ... and keeps every character. */
  lemma {:induction false} ScanKeeps(cfg: Config, t: string, i: nat, j: nat)
    requires i <= j <= |t|
    requires forall p: nat :: i <= p < j ==> MatchAt(cfg.u, t, p).None?
    ensures Render(Scan(cfg, t, i, j)) == t[i..j] && HiddenCount(Scan(cfg, t, i, j)) == 0
    decreases j - i
  {
    if i < j {
      ScanKeeps(cfg, t, i + 1, j);
      Slices(t, i, i + 1, j);
      assert Scan(cfg, t, i, j)[1..] == Scan(cfg, t, i + 1, j);
    }
  }

  /** `text` is a real pattern match of `t` at some position. */
  ghost predicate IsRealMatch(cfg: Config, t: string, text: string) {
    exists p: nat :: p < |t| && RealMatchAt(cfg, t, p, text)
  }

  predicate RealMatchAt(cfg: Config, t: string, p: nat, text: string)
    requires p < |t|
  {
    match MatchAt(cfg.u, t, p)
    case None => false
    case Some(m) => text == t[p..m.end] && IsReal(cfg, m.kind, text)
  }

  /** Whatever the scan hides is a real pattern match of the scanned text. */
  lemma {:induction false} HiddenWasMatched(cfg: Config, t: string, i: nat, c: nat, k: nat)
    requires i <= |t| && c <= |t| && k < |Scan(cfg, t, i, c)| && Scan(cfg, t, i, c)[k].Hidden?
    ensures IsRealMatch(cfg, t, Scan(cfg, t, i, c)[k].text)
    decreases |t| - i
  {
    if k > 0 {
      HiddenWasMatched(cfg, t, StepAt(cfg, t, i).next, c, k - 1);
    } else {
      assert RealMatchAt(cfg, t, i, Scan(cfg, t, i, c)[k].text);
    }
  }

  // ----- Cutting where no match can cross -----

  /** A cut just after a character that cannot continue a match (or no cut at all). */
  predicate SafeCut(u: Unicode, buffer: string, c: nat) {
    c <= |buffer| && (c > 0 ==> !CanContinue(u, buffer, c - 1))
  }

  lemma {:induction false} StepBehindWall(cfg: Config, buffer: string, t: string, i: nat, wall: nat)
    requires buffer <= t && i <= wall < |buffer| && !CanContinue(cfg.u, buffer, wall)
    ensures StepAt(cfg, buffer, i) == StepAt(cfg, t, i) && StepAt(cfg, t, i).next <= wall + 1
  {
    MatchStopsAt(cfg.u, buffer, t, i, wall);
    var j := StepAt(cfg, buffer, i).next;
    assert t[i..j] == buffer[i..j];
  }

  lemma {:induction false} ScanSplitsAtSafeCut(cfg: Config, buffer: string, t: string, i: nat, c: nat)
    requires buffer <= t && i <= c && SafeCut(cfg.u, buffer, c)
    ensures Scan(cfg, t, i, |t|) == Scan(cfg, buffer, i, c) + Scan(cfg, t, c, |t|)
    decreases c - i
  {
    if i < c {
      StepBehindWall(cfg, buffer, t, i, c - 1);
      var step := StepAt(cfg, t, i);
      ScanSplitsAtSafeCut(cfg, buffer, t, step.next, c);
      Rejoin([step.segment], Scan(cfg, buffer, step.next, c), Scan(cfg, t, c, |t|));
    }
  }

  lemma {:induction false} SafeCutIsTaken(u: Unicode, buffer: string, i: nat, c: nat)
    requires i <= c && SafeCut(u, buffer, c)
    ensures CutAt(u, buffer, i, c) == c
    decreases c - i
  {
    if i < c {
      MatchStopsAt(u, buffer, buffer, i, c - 1);
      match MatchAt(u, buffer, i)
      case None => SafeCutIsTaken(u, buffer, i + 1, c);
      case Some(m) => SafeCutIsTaken(u, buffer, m.end, c);
    }
  }

  lemma {:induction false} StepShift(cfg: Config, t: string, s: nat, i: nat)
    requires s + i < |t|
    requires i > 0 || s == 0 || !Alphabetic(cfg.u, t[s - 1])
    ensures StepAt(cfg, t, s + i).segment == StepAt(cfg, t[s..], i).segment
    ensures StepAt(cfg, t, s + i).next == s + StepAt(cfg, t[s..], i).next
  {
    MatchShift(cfg.u, t, s, i);
    SliceOfDrop(t, s, i, StepAt(cfg, t[s..], i).next);
  }

  lemma {:induction false} ScanShift(cfg: Config, t: string, s: nat, i: nat)
    requires s + i <= |t|
    requires i > 0 || s == 0 || !Alphabetic(cfg.u, t[s - 1])
    ensures Scan(cfg, t, s + i, |t|) == Scan(cfg, t[s..], i, |t[s..]|)
    decreases |t| - i
  {
    hide StepAt;
    if s + i < |t| {
      StepShift(cfg, t, s, i);
      ScanShift(cfg, t, s, StepAt(cfg, t[s..], i).next);
    }
  }

  lemma {:induction false} SubstituteRest(cfg: Config, t: string, c: nat)
    requires c <= |t| && (c > 0 ==> !Alphabetic(cfg.u, t[c - 1]))
    ensures Render(Scan(cfg, t, c, |t|)) == Substitute(cfg, t[c..])
  {
    ScanShift(cfg, t, c, 0);
  }

  /** Redacting a buffer with anything after it is redacting up to a safe cut
      and, independently, what remains. */
  lemma {:induction false} SubstituteSplits(cfg: Config, buffer: string, more: string, c: nat)
    requires SafeCut(cfg.u, buffer, c)
    ensures Substitute(cfg, buffer + more)
         == Render(Scan(cfg, buffer, 0, c)) + Substitute(cfg, buffer[c..] + more)
  {
    var t := buffer + more;
    assert t[c..] == buffer[c..] + more;
    ScanSplitsAtSafeCut(cfg, buffer, t, 0, c);
    SubstituteRest(cfg, t, c);
    RenderConcat(Scan(cfg, buffer, 0, c), Scan(cfg, t, c, |t|));
  }
}
