/** `PATTERN`: the ordered alternation of the three patterns at one position, and
    which characters of a buffer it can depend on. */
module Matching {
  import opened CharTables
  import opened Wrappers
  import opened Regex
  import opened Patterns

  datatype Kind = Email | Card | Ssn

  function Pattern(kind: Kind): Items {
    match kind
    case Email => EMAIL
    case Card => CARD
    case Ssn => SSN
  }

  datatype Match = Match(kind: Kind, end: nat)

  function LengthBound(kind: Kind): nat {
    match kind
    case Email => MAX_EMAIL
    case Card => MAX_CARD
    case Ssn => MAX_SSN
  }

  function LengthFloor(kind: Kind): nat {
    match kind
    case Email => 6
    case Card => 13
    case Ssn => 11
  }

  lemma {:induction false} PatternBounds(kind: Kind)
    ensures MaxLength(Pattern(kind)) == LengthBound(kind) <= MaxPatternLength()
    ensures MinLength(Pattern(kind)) == LengthFloor(kind)
  {
    match kind
    case Email => EmailBounds();
    case Card => CardBounds();
    case Ssn => SsnBounds();
  }

  lemma {:induction false} CardBounds()
    ensures MaxLength(CARD) == MAX_CARD && MinLength(CARD) == 13
  {
    TimesOf(0, 1); TimesOf(1, 1);
    assert ReMax(CARD_REST) == 2 && ReMin(CARD_REST) == 1;
    TimesOf(15, 2); TimesOf(9, 1);
    assert MaxLength(CARD_TAIL) == 30 && MinLength(CARD_TAIL) == 9;
    TimesOf(4, 1);
  }

  lemma {:induction false} SsnBounds()
    ensures MaxLength(SSN) == MAX_SSN && MinLength(SSN) == MAX_SSN
  {
    TimesOf(4, 1); TimesOf(3, 1); TimesOf(2, 1);
    assert MaxLength(SSN_SERIAL) == MinLength(SSN_SERIAL) == 4;
    assert MaxLength(SSN_GROUP) == MinLength(SSN_GROUP) == 7;
    assert MaxLength(SSN_AREA) == MinLength(SSN_AREA) == 11;
  }

  lemma {:induction false} EmailBounds()
    ensures MaxLength(EMAIL) == MAX_EMAIL && MinLength(EMAIL) == 6
  {
    TimesOf(24, 1); TimesOf(2, 1);
    assert MaxLength(TLD) == 24 && MinLength(TLD) == 2;
    TimesOf(63, 1); TimesOf(1, 1);
    assert ReMax(SUBDOMAIN) == 64;
    TimesOf(4, 64);
    assert MaxLength(DOMAIN_TAIL) == 4 * 64 + 25 && MinLength(DOMAIN_TAIL) == 3;
    assert MaxLength(HOST) == 63 + 4 * 64 + 25 && MinLength(HOST) == 4;
    TimesOf(64, 1);
    assert MaxLength(ADDRESS) == MAX_EMAIL && MinLength(ADDRESS) == 6;
  }

  /** Where the alternative `kind` ends when tried at position `i`. */
  function EndOf(u: Unicode, kind: Kind, t: string, i: nat): (e: Option<nat>)
    requires i <= |t|
    ensures e.Some? ==> i + LengthFloor(kind) <= e.value <= i + LengthBound(kind) && e.value <= |t|
  {
    PatternBounds(kind);
    EngineBounds(u, Pattern(kind), t, i);
    Engine(u, Pattern(kind), t, i)
  }

  /** Ordered choice: email before card before SSN. */
  function FirstOf(email: Option<nat>, card: Option<nat>, ssn: Option<nat>): Option<Match> {
    if email.Some? then Some(Match(Email, email.value))
    else if card.Some? then Some(Match(Card, card.value))
    else if ssn.Some? then Some(Match(Ssn, ssn.value))
    else None
  }

  /** What `PATTERN` matches at position `i`. */
  function MatchAt(u: Unicode, t: string, i: nat): (m: Option<Match>)
    requires i <= |t|
    ensures m.Some? ==>
              && i + LengthFloor(m.value.kind) <= m.value.end <= i + LengthBound(m.value.kind)
              && m.value.end <= |t|
  {
    FirstOf(EndOf(u, Email, t, i), EndOf(u, Card, t, i), EndOf(u, Ssn, t, i))
  }

  // ----- Characters that end every match -----

  const MARKS: set<char> := {'.', '_', '%', '+', '-', '@'}

  /** The test of the backward walk: letters, digits and marks pass, and a space
      passes after a digit unless something other than a digit follows. */
  predicate CanContinue(u: Unicode, buffer: string, i: nat)
    requires i < |buffer|
  {
    if IsAlnum(u, buffer[i]) || buffer[i] in MARKS then true
    else if buffer[i] != ' ' then false
    else if i == 0 || !IsDigit(u, buffer[i - 1]) then false
    else i + 1 >= |buffer| || IsDigit(u, buffer[i + 1])
  }

  predicate Alphabetic(u: Unicode, c: char) {
    IsAlnum(u, c) || c in MARKS
  }

  lemma {:induction false} RepeatedClass(u: Unicode, k: Class, lo: nat, hi: nat, c: char)
    ensures ReConsumes(u, Rep(Chr(k), lo, hi), c) == In(u, k, c)
    ensures !ReBlocks(u, Rep(Chr(k), lo, hi), c)
  {
  }

  lemma {:induction false} FirstAndRest(u: Unicode, r: Re, rest: Items, c: char)
    ensures Consumes(u, Then(r, rest), c) == (ReConsumes(u, r, c) || Consumes(u, rest, c))
    ensures Blocks(u, Then(r, rest), c) == (ReBlocks(u, r, c) || Blocks(u, rest, c))
  {
  }

  lemma {:induction false} EitherPart(u: Unicode, a: Re, b: Re, c: char)
    ensures ReConsumes(u, Cat(a, b), c) == (ReConsumes(u, a, c) || ReConsumes(u, b, c))
    ensures ReBlocks(u, Cat(a, b), c) == (ReBlocks(u, a, c) || ReBlocks(u, b, c))
  {
  }

  /** The characters that the email pattern takes, and those its lookbehind rejects. */
  lemma {:induction false} EmailCharacters(u: Unicode, c: char)
    ensures Consumes(u, EMAIL, c) ==>
              In(u, LOCAL, c) || In(u, AT, c) || In(u, LABEL, c) || In(u, DOT, c) || In(u, LETTER, c)
    ensures Blocks(u, EMAIL, c) ==> In(u, BEFORE_EMAIL, c)
  {
    FirstAndRest(u, NotAhead(AFTER_EMAIL), End, c);
    RepeatedClass(u, LETTER, 2, 24, c);
    FirstAndRest(u, Rep(Chr(LETTER), 2, 24), TLD_CLOSED, c);
    FirstAndRest(u, Chr(DOT), TLD, c);
    RepeatedClass(u, LABEL, 1, 63, c);
    EitherPart(u, Chr(DOT), Rep(Chr(LABEL), 1, 63), c);
    FirstAndRest(u, Rep(SUBDOMAIN, 0, 4), TLD_TAIL, c);
    FirstAndRest(u, Rep(Chr(LABEL), 1, 63), DOMAIN_TAIL, c);
    FirstAndRest(u, Chr(AT), HOST, c);
    RepeatedClass(u, LOCAL, 1, 64, c);
    FirstAndRest(u, Rep(Chr(LOCAL), 1, 64), Then(Chr(AT), HOST), c);
    FirstAndRest(u, NotBehind(BEFORE_EMAIL), ADDRESS, c);
  }

  lemma {:induction false} CardCharacters(u: Unicode, c: char)
    ensures Consumes(u, CARD, c) ==> In(u, DIGIT, c) || In(u, SEPARATOR, c)
    ensures Blocks(u, CARD, c) ==> In(u, DIGIT, c)
  {
    FirstAndRest(u, NotAhead(DIGIT), End, c);
    RepeatedClass(u, SEPARATOR, 0, 1, c);
    EitherPart(u, Rep(Chr(SEPARATOR), 0, 1), Chr(DIGIT), c);
    FirstAndRest(u, Rep(CARD_REST, 9, 15), NO_DIGIT, c);
    RepeatedClass(u, DIGIT, 4, 4, c);
    FirstAndRest(u, Rep(Chr(DIGIT), 4, 4), CARD_TAIL, c);
    FirstAndRest(u, NotBehind(DIGIT), Then(Rep(Chr(DIGIT), 4, 4), CARD_TAIL), c);
  }

  lemma {:induction false} SsnCharacters(u: Unicode, c: char)
    ensures Consumes(u, SSN, c) ==> In(u, DIGIT, c) || In(u, SEPARATOR, c)
    ensures Blocks(u, SSN, c) ==> In(u, DIGIT, c)
  {
    FirstAndRest(u, NotAhead(DIGIT), End, c);
    RepeatedClass(u, DIGIT, 4, 4, c);
    FirstAndRest(u, Rep(Chr(DIGIT), 4, 4), NO_DIGIT, c);
    FirstAndRest(u, Chr(SEPARATOR), SSN_SERIAL, c);
    RepeatedClass(u, DIGIT, 2, 2, c);
    FirstAndRest(u, Rep(Chr(DIGIT), 2, 2), Then(Chr(SEPARATOR), SSN_SERIAL), c);
    FirstAndRest(u, Chr(SEPARATOR), SSN_GROUP, c);
    RepeatedClass(u, DIGIT, 3, 3, c);
    FirstAndRest(u, Rep(Chr(DIGIT), 3, 3), Then(Chr(SEPARATOR), SSN_GROUP), c);
    FirstAndRest(u, NotBehind(DIGIT), SSN_AREA, c);
  }

  /** No class in the patterns accepts a character outside the alphabet, except
      that a card or SSN may contain a space. */
  lemma {:induction false} OutsideAlphabet(u: Unicode, kind: Kind, c: char)
    requires !Alphabetic(u, c)
    requires kind == Email || c != ' '
    ensures !Consumes(u, Pattern(kind), c)
  {
    match kind
    case Email => EmailCharacters(u, c);
    case Card => CardCharacters(u, c);
    case Ssn => SsnCharacters(u, c);
  }

  /** ... and no lookbehind rejects it. */
  lemma {:induction false} NothingBlocks(u: Unicode, kind: Kind, c: char)
    requires !Alphabetic(u, c)
    ensures !Blocks(u, Pattern(kind), c)
  {
    match kind
    case Email => EmailCharacters(u, c);
    case Card => CardCharacters(u, c);
    case Ssn => SsnCharacters(u, c);
  }

  // ----- A space that is not between digits -----

  /** A space with no digit before it, or with something other than a digit after it. */
  predicate LooseSpace(u: Unicode, t: string, i: nat) {
    && i < |t| && t[i] == ' '
    && ((i > 0 ==> !IsDecimal(u, t[i - 1])) || (i + 1 < |t| && !IsDecimal(u, t[i + 1])))
  }

  lemma {:induction false} CardTailStopsAtSpace(
    u: Unicode, t: string, t': string, p: nat, lo: nat, hi: nat, wall: nat)
    requires 0 < p <= wall && t <= t'
    requires LooseSpace(u, t, wall) && At(u, DIGIT, t, p - 1)
    ensures p <= |t| && CardTail(u, t, p, lo, hi) == CardTail(u, t', p, lo, hi)
    ensures CardTail(u, t, p, lo, hi).Some? ==> CardTail(u, t, p, lo, hi).value <= wall
    decreases hi
  {
    assert IsDecimal(u, t[p - 1]) && !IsDecimal(u, ' ');
    assert CardStep(u, t, p) == CardStep(u, t', p);
    if CardStep(u, t, p).Some? && hi > 0 {
      var q := CardStep(u, t, p).value;
      assert At(u, DIGIT, t, q - 1);
      assert q <= wall;
      CardTailStopsAtSpace(u, t, t', q, Pred(lo), hi - 1, wall);
    }
  }

  lemma {:induction false} CardStopsAtSpace(u: Unicode, t: string, t': string, p: nat, wall: nat)
    requires p <= wall && t <= t' && LooseSpace(u, t, wall)
    ensures CardEnd(u, t, p) == CardEnd(u, t', p)
    ensures CardEnd(u, t, p).Some? ==> CardEnd(u, t, p).value <= wall
  {
    assert !At(u, DIGIT, t, wall) && !At(u, DIGIT, t', wall);
    if wall < p + 4 {
      assert !Digits(u, t, p, 4) && !Digits(u, t', p, 4);
    } else {
      assert Digits(u, t, p, 4) <==> Digits(u, t', p, 4) by {
        assert forall j: nat :: j < p + 4 ==> At(u, DIGIT, t, j) == At(u, DIGIT, t', j);
      }
      if Digits(u, t, p, 4) {
        assert At(u, DIGIT, t, p + 3);
        CardTailStopsAtSpace(u, t, t', p + 4, 9, 15, wall);
      }
    }
  }

  lemma {:induction false} SsnStopsAtSpace(u: Unicode, t: string, t': string, p: nat, wall: nat)
    requires p <= wall && t <= t' && LooseSpace(u, t, wall)
    ensures SsnEnd(u, t, p) == SsnEnd(u, t', p)
    ensures SsnEnd(u, t, p).Some? ==> SsnEnd(u, t, p).value <= wall
  {
    assert forall j: nat :: j <= wall ==> At(u, DIGIT, t, j) == At(u, DIGIT, t', j);
    assert forall j: nat :: j <= wall ==> At(u, SEPARATOR, t, j) == At(u, SEPARATOR, t', j);
    if wall < p + 11 {
      assert !At(u, DIGIT, t, wall) && !At(u, DIGIT, t', wall);
      SsnCrossesNoSpace(u, t, p, wall);
      SsnCrossesNoSpace(u, t', p, wall);
    } else {
      assert Digits(u, t, p, 3) == Digits(u, t', p, 3);
      assert Digits(u, t, p + 4, 2) == Digits(u, t', p + 4, 2);
      assert Digits(u, t, p + 7, 4) == Digits(u, t', p + 7, 4);
    }
  }

  lemma {:induction false} SsnCrossesNoSpace(u: Unicode, t: string, p: nat, wall: nat)
    requires p <= wall < p + 11 && LooseSpace(u, t, wall)
    ensures SsnEnd(u, t, p).None?
  {
    var before := if wall == p + 3 then p + 2 else p + 5;
    assert Digits(u, t, p, 3) ==> At(u, DIGIT, t, p) && At(u, DIGIT, t, p + 1) && At(u, DIGIT, t, p + 2);
    assert Digits(u, t, p + 4, 2) ==> At(u, DIGIT, t, p + 4) && At(u, DIGIT, t, p + 5);
    assert Digits(u, t, p + 7, 4) ==> At(u, DIGIT, t, p + 7) && At(u, DIGIT, t, p + 8);
    assert Digits(u, t, p + 7, 4) ==> At(u, DIGIT, t, p + 9) && At(u, DIGIT, t, p + 10);
    assert !At(u, DIGIT, t, wall);
  }

  // ----- The locality of the whole alternation -----

  /** A character that cannot continue a match ends every match begun before it,
      whatever text follows the buffer. */
  lemma {:induction false} PatternStopsAt(u: Unicode, kind: Kind, t: string, t': string, p: nat, wall: nat)
    requires p <= wall < |t| && t <= t' && !CanContinue(u, t, wall)
    ensures EndOf(u, kind, t, p) == EndOf(u, kind, t', p)
    ensures EndOf(u, kind, t, p).Some? ==> EndOf(u, kind, t, p).value <= wall
  {
    if kind == Email || t[wall] != ' ' {
      OutsideAlphabet(u, kind, t[wall]);
      EngineStopsAtWall(u, Pattern(kind), t, t', p, wall);
    } else {
      assert LooseSpace(u, t, wall);
      CardIsEngine(u, t, p);
      CardIsEngine(u, t', p);
      SsnIsEngine(u, t, p);
      SsnIsEngine(u, t', p);
      CardStopsAtSpace(u, t, t', p, wall);
      SsnStopsAtSpace(u, t, t', p, wall);
    }
  }

  lemma {:induction false} MatchStopsAt(u: Unicode, t: string, t': string, p: nat, wall: nat)
    requires p <= wall < |t| && t <= t' && !CanContinue(u, t, wall)
    ensures MatchAt(u, t, p) == MatchAt(u, t', p)
    ensures MatchAt(u, t, p).Some? ==> MatchAt(u, t, p).value.end <= wall
  {
    forall kind: Kind
      ensures EndOf(u, kind, t, p) == EndOf(u, kind, t', p)
      ensures EndOf(u, kind, t, p).Some? ==> EndOf(u, kind, t, p).value <= wall
    {
      PatternStopsAt(u, kind, t, t', p, wall);
    }
  }

  function MovedMatch(m: Option<Match>, s: nat): Option<Match> {
    if m.Some? then Some(Match(m.value.kind, m.value.end + s)) else None
  }

  lemma {:induction false} PatternShift(u: Unicode, kind: Kind, t: string, s: nat, i: nat)
    requires s + i <= |t|
    requires i > 0 || s == 0 || !Alphabetic(u, t[s - 1])
    ensures EndOf(u, kind, t, s + i) == Moved(EndOf(u, kind, t[s..], i), s)
  {
    if i == 0 && s > 0 {
      NothingBlocks(u, kind, t[s - 1]);
    }
    EngineShift(u, Pattern(kind), t, s, i);
  }

  /** Forgetting the first `s` characters only moves later matches, unless the
      first remaining position loses a lookbehind that mattered. */
  lemma {:induction false} MatchShift(u: Unicode, t: string, s: nat, i: nat)
    requires s + i <= |t|
    requires i > 0 || s == 0 || !Alphabetic(u, t[s - 1])
    ensures MatchAt(u, t, s + i) == MovedMatch(MatchAt(u, t[s..], i), s)
  {
    PatternShift(u, Email, t, s, i);
    PatternShift(u, Card, t, s, i);
    PatternShift(u, Ssn, t, s, i);
  }
}
