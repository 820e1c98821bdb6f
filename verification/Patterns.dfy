/** The three redaction patterns, transcribed from their regular expressions,
    and a direct reading of where each one ends. */
module Patterns {
  import opened CharTables
  import opened Wrappers
  import opened Regex

  const LOCAL := Class({'.', '_', '%', '+', '-'}, true, true, false, false)
  const AT := Class({'@'}, false, false, false, false)
  const LABEL := Class({'-'}, true, true, false, false)
  const DOT := Class({'.'}, false, false, false, false)
  const LETTER := Class({}, true, false, false, false)
  const BEFORE_EMAIL := Class({'.', '@', '+', '-'}, false, false, false, true)
  const AFTER_EMAIL := Class({'_', '-'}, true, true, false, false)
  const DIGIT := Class({}, false, false, true, false)
  const SEPARATOR := Class({' ', '-'}, false, false, false, false)

  const SUBDOMAIN := Cat(Chr(DOT), Rep(Chr(LABEL), 1, 63))

  const TLD_CLOSED := Then(NotAhead(AFTER_EMAIL), End)

  const TLD := Then(Rep(Chr(LETTER), 2, 24), TLD_CLOSED)

  const TLD_TAIL := Then(Chr(DOT), TLD)

  const DOMAIN_TAIL := Then(Rep(SUBDOMAIN, 0, 4), TLD_TAIL)

  const HOST := Then(Rep(Chr(LABEL), 1, 63), DOMAIN_TAIL)

  const ADDRESS := Then(Rep(Chr(LOCAL), 1, 64), Then(Chr(AT), HOST))

  const EMAIL := Then(NotBehind(BEFORE_EMAIL), ADDRESS)

  const NO_DIGIT := Then(NotAhead(DIGIT), End)

  const CARD_REST := Cat(Rep(Chr(SEPARATOR), 0, 1), Chr(DIGIT))

  const CARD_TAIL := Then(Rep(CARD_REST, 9, 15), NO_DIGIT)

  const CARD := Then(NotBehind(DIGIT), Then(Rep(Chr(DIGIT), 4, 4), CARD_TAIL))

  const SSN_SERIAL := Then(Rep(Chr(DIGIT), 4, 4), NO_DIGIT)

  const SSN_GROUP := Then(Rep(Chr(DIGIT), 2, 2), Then(Chr(SEPARATOR), SSN_SERIAL))

  const SSN_AREA := Then(Rep(Chr(DIGIT), 3, 3), Then(Chr(SEPARATOR), SSN_GROUP))

  const SSN := Then(NotBehind(DIGIT), SSN_AREA)

  const MAX_EMAIL := 64 + 1 + 63 + 4 * 64 + 1 + 24
  const MAX_CARD := 19 + 15
  const MAX_SSN := 9 + 2

  function MaxPatternLength(): int {
    Max(MAX_EMAIL, Max(MAX_CARD, MAX_SSN))
  }

  // ----- Runs of a class -----

  predicate At(u: Unicode, k: Class, t: string, i: nat) {
    i < |t| && In(u, k, t[i])
  }

  /** The first position from `i` on that does not hold a character of `k`. */
  function RunEnd(u: Unicode, k: Class, t: string, i: nat): (e: nat)
    requires i <= |t|
    ensures i <= e <= |t|
    ensures !At(u, k, t, e)
    ensures forall j :: i <= j < e ==> At(u, k, t, j)
    decreases |t| - i
  {
    if At(u, k, t, i) then RunEnd(u, k, t, i + 1) else i
  }

  lemma {:induction false} RunEndIs(u: Unicode, k: Class, t: string, i: nat, e: nat)
    requires i <= e <= |t|
    requires !At(u, k, t, e)
    requires forall j :: i <= j < e ==> At(u, k, t, j)
    ensures RunEnd(u, k, t, i) == e
    decreases e - i
  {
    if i < e {
      RunEndIs(u, k, t, i + 1, e);
    }
  }

  /** A greedy repetition of one class, followed by something that cannot begin
      with that class, takes the whole run or fails. */
  lemma {:induction false} EngineTakesRun(u: Unicode, k: Class, lo: nat, hi: nat, rest: Items, t: string, i: nat)
    requires i <= |t| && lo <= hi
    requires forall j: nat :: j < |t| && At(u, k, t, j) ==> Engine(u, rest, t, j).None?
    ensures Engine(u, Then(Rep(Chr(k), lo, hi), rest), t, i)
         == var r := RunEnd(u, k, t, i);
            if lo <= r - i <= hi then Engine(u, rest, t, r) else None
    decreases hi
  {
    if hi > 0 && At(u, k, t, i) {
      var next := Then(Rep(Chr(k), Pred(lo), hi - 1), rest);
      EngineTakesRun(u, k, Pred(lo), hi - 1, rest, t, i + 1);
      assert Engine(u, Again(Chr(k), lo, hi, rest), t, i) == Engine(u, next, t, i + 1);
    } else if hi > 0 {
      assert Engine(u, Again(Chr(k), lo, hi, rest), t, i) == None;
    }
  }

  // ----- Where an email ends -----

  function TldEnd(u: Unicode, t: string, p: nat): Option<nat>
    requires p <= |t|
  {
    if !At(u, DOT, t, p) then None else
      var e := RunEnd(u, LETTER, t, p + 1);
      if 2 <= e - (p + 1) <= 24 && !At(u, AFTER_EMAIL, t, e) then Some(e) else None
  }

  /** From the end of a domain label: as many more labels as possible, at most
      `n`, that still leave a legal top-level domain. */
  function DomainEnd(u: Unicode, t: string, p: nat, n: nat): Option<nat>
    requires p <= |t|
    decreases n, |t|
  {
    var longer :=
      if n > 0 && At(u, DOT, t, p) then
        var q := RunEnd(u, LABEL, t, p + 1);
        if 1 <= q - (p + 1) <= 63 then DomainEnd(u, t, q, n - 1) else None
      else None;
    if longer.Some? then longer else TldEnd(u, t, p)
  }

  /** A domain label, up to `n` more labels, a top-level domain. */
  function HostEnd(u: Unicode, t: string, p: nat, n: nat): Option<nat>
    requires p <= |t|
  {
    var b := RunEnd(u, LABEL, t, p);
    if 1 <= b - p <= 63 then DomainEnd(u, t, b, n) else None
  }

  /** A local part, `@`, and a host. */
  function AddressEnd(u: Unicode, t: string, i: nat, n: nat): Option<nat>
    requires i <= |t|
  {
    var a := RunEnd(u, LOCAL, t, i);
    if 1 <= a - i <= 64 && At(u, AT, t, a) then HostEnd(u, t, a + 1, n) else None
  }

  function EmailEnd(u: Unicode, t: string, i: nat): Option<nat>
    requires i <= |t|
  {
    if i > 0 && In(u, BEFORE_EMAIL, t[i - 1]) then None else AddressEnd(u, t, i, 4)
  }

  /** One character of `mark`, a run of `k`, and then `rest`, which cannot begin with `k`. */
  lemma {:induction false} EngineTakesMarkedRun(
    u: Unicode, mark: Class, k: Class, lo: nat, hi: nat, rest: Items, t: string, p: nat)
    requires p <= |t| && lo <= hi
    requires forall j: nat :: j < |t| && At(u, k, t, j) ==> Engine(u, rest, t, j).None?
    ensures Engine(u, Then(Chr(mark), Then(Rep(Chr(k), lo, hi), rest)), t, p)
         == if !At(u, mark, t, p) then None else
              var r := RunEnd(u, k, t, p + 1);
              if lo <= r - (p + 1) <= hi then Engine(u, rest, t, r) else None
  {
    if At(u, mark, t, p) {
      EngineTakesRun(u, k, lo, hi, rest, t, p + 1);
    }
  }

  lemma {:induction false} TldIsEngine(u: Unicode, t: string, p: nat, tail: Items)
    requires p <= |t| && tail == TLD_TAIL
    ensures Engine(u, tail, t, p) == TldEnd(u, t, p)
  {
    EngineTakesMarkedRun(u, DOT, LETTER, 2, 24, TLD_CLOSED, t, p);
  }

  /** One round of the subdomain group, taken if it and everything after it succeeds. */
  lemma {:induction false} EngineTriesSubdomain(u: Unicode, n: nat, tail: Items, t: string, p: nat, name: Re)
    requires p <= |t| && n > 0 && name == Rep(Chr(LABEL), 1, 63)
    ensures Engine(u, Then(Rep(Cat(Chr(DOT), name), 0, n), tail), t, p)
         == var more := Engine(u, Then(Chr(DOT), Then(name, Then(Rep(Cat(Chr(DOT), name), 0, n - 1), tail))), t, p);
            if more.Some? then more else Engine(u, tail, t, p)
  {
    var next := Then(Rep(Cat(Chr(DOT), name), 0, n - 1), tail);
    assert Again(Cat(Chr(DOT), name), 0, n, tail) == Then(Cat(Chr(DOT), name), next);
    assert Engine(u, Then(Cat(Chr(DOT), name), next), t, p) == Engine(u, Opened(Chr(DOT), name, next), t, p);
  }

  lemma {:induction false} DomainNeedsDot(u: Unicode, t: string, p: nat, n: nat, tail: Items)
    requires p <= |t| && tail == TLD_TAIL && !At(u, DOT, t, p)
    ensures Engine(u, Then(Rep(SUBDOMAIN, 0, n), tail), t, p).None?
  {
    TldIsEngine(u, t, p, tail);
    if n > 0 {
      EngineTriesSubdomain(u, n, tail, t, p, Rep(Chr(LABEL), 1, 63));
    }
  }

  lemma {:induction false} LabelsBeginNoDomain(u: Unicode, t: string, n: nat, tail: Items)
    requires tail == TLD_TAIL
    ensures forall j: nat :: j < |t| && At(u, LABEL, t, j) ==>
              Engine(u, Then(Rep(SUBDOMAIN, 0, n), tail), t, j).None?
  {
    forall j: nat | j < |t| && At(u, LABEL, t, j)
      ensures Engine(u, Then(Rep(SUBDOMAIN, 0, n), tail), t, j).None?
    {
      DomainNeedsDot(u, t, j, n, tail);
    }
  }

  lemma {:induction false} DomainIsEngine(u: Unicode, t: string, p: nat, n: nat, tail: Items)
    requires p <= |t| && tail == TLD_TAIL
    ensures Engine(u, Then(Rep(SUBDOMAIN, 0, n), tail), t, p) == DomainEnd(u, t, p, n)
    decreases n
  {
    TldIsEngine(u, t, p, tail);
    if n > 0 {
      var next := Then(Rep(SUBDOMAIN, 0, n - 1), tail);
      EngineTriesSubdomain(u, n, tail, t, p, Rep(Chr(LABEL), 1, 63));
      LabelsBeginNoDomain(u, t, n - 1, tail);
      EngineTakesMarkedRun(u, DOT, LABEL, 1, 63, next, t, p);
      if At(u, DOT, t, p) {
        DomainIsEngine(u, t, RunEnd(u, LABEL, t, p + 1), n - 1, tail);
      }
    }
  }

  lemma {:induction false} HostIsEngine(u: Unicode, t: string, p: nat, n: nat, tail: Items)
    requires p <= |t| && tail == TLD_TAIL
    ensures Engine(u, Then(Rep(Chr(LABEL), 1, 63), Then(Rep(SUBDOMAIN, 0, n), tail)), t, p) == HostEnd(u, t, p, n)
  {
    LabelsBeginNoDomain(u, t, n, tail);
    EngineTakesRun(u, LABEL, 1, 63, Then(Rep(SUBDOMAIN, 0, n), tail), t, p);
    DomainIsEngine(u, t, RunEnd(u, LABEL, t, p), n, tail);
  }

  lemma {:induction false} EngineTakesMark(u: Unicode, k: Class, rest: Items, t: string, p: nat)
    requires p <= |t|
    ensures Engine(u, Then(Chr(k), rest), t, p) == if At(u, k, t, p) then Engine(u, rest, t, p + 1) else None
  {
  }

  lemma {:induction false} LocalIsEngine(u: Unicode, t: string, i: nat, host: Items)
    requires i <= |t|
    ensures Engine(u, Then(Rep(Chr(LOCAL), 1, 64), Then(Chr(AT), host)), t, i)
         == var a := RunEnd(u, LOCAL, t, i);
            if 1 <= a - i <= 64 && At(u, AT, t, a) then Engine(u, host, t, a + 1) else None
  {
    hide Engine;
    var at := Then(Chr(AT), host);
    forall j: nat | j < |t| && At(u, LOCAL, t, j) ensures Engine(u, at, t, j).None? {
      EngineTakesMark(u, AT, host, t, j);
      assert !At(u, AT, t, j);
    }
    EngineTakesRun(u, LOCAL, 1, 64, at, t, i);
    EngineTakesMark(u, AT, host, t, RunEnd(u, LOCAL, t, i));
  }

  lemma {:induction false} AddressIsEngine(u: Unicode, t: string, i: nat, n: nat, host: Items)
    requires i <= |t|
    requires var a := RunEnd(u, LOCAL, t, i);
             At(u, AT, t, a) ==> Engine(u, host, t, a + 1) == HostEnd(u, t, a + 1, n)
    ensures Engine(u, Then(Rep(Chr(LOCAL), 1, 64), Then(Chr(AT), host)), t, i) == AddressEnd(u, t, i, n)
  {
    hide Engine;
    LocalIsEngine(u, t, i, host);
  }

  lemma {:induction false} HostPart(u: Unicode, t: string, p: nat)
    requires p <= |t|
    ensures Engine(u, HOST, t, p) == HostEnd(u, t, p, 4)
  {
    HostIsEngine(u, t, p, 4, TLD_TAIL);
  }

  lemma {:induction false} AddressPart(u: Unicode, t: string, i: nat)
    requires i <= |t|
    ensures Engine(u, ADDRESS, t, i) == AddressEnd(u, t, i, 4)
  {
    hide Engine;
    var a := RunEnd(u, LOCAL, t, i);
    if At(u, AT, t, a) {
      HostPart(u, t, a + 1);
    }
    AddressIsEngine(u, t, i, 4, HOST);
  }

  lemma {:induction false} EngineLooksBehind(u: Unicode, k: Class, rest: Items, t: string, i: nat)
    requires i <= |t|
    ensures Engine(u, Then(NotBehind(k), rest), t, i)
         == if i > 0 && In(u, k, t[i - 1]) then None else Engine(u, rest, t, i)
  {
  }

  lemma {:induction false} EngineTakesOne(u: Unicode, k: Class, rest: Items, t: string, i: nat)
    requires i <= |t|
    ensures Engine(u, Then(Chr(k), rest), t, i) == if At(u, k, t, i) then Engine(u, rest, t, i + 1) else None
  {
  }

  lemma {:induction false} EmailIsEngine(u: Unicode, t: string, i: nat)
    requires i <= |t|
    ensures Engine(u, EMAIL, t, i) == EmailEnd(u, t, i)
  {
    hide Engine;
    EngineLooksBehind(u, BEFORE_EMAIL, ADDRESS, t, i);
    AddressPart(u, t, i);
  }

  // ----- Where a card number ends -----

  function CardStep(u: Unicode, t: string, p: nat): Option<nat> {
    if At(u, DIGIT, t, p) then Some(p + 1)
    else if At(u, SEPARATOR, t, p) && At(u, DIGIT, t, p + 1) then Some(p + 2)
    else None
  }

  /** The most digits, at least `lo` and at most `hi`, that are not followed by another. */
  function CardTail(u: Unicode, t: string, p: nat, lo: nat, hi: nat): Option<nat>
    requires p <= |t|
    decreases hi, |t|
  {
    var step := CardStep(u, t, p);
    var more := if hi > 0 && step.Some? then CardTail(u, t, step.value, Pred(lo), hi - 1) else None;
    if more.Some? then more
    else if lo == 0 && !At(u, DIGIT, t, p) then Some(p)
    else None
  }

  predicate Digits(u: Unicode, t: string, i: nat, n: nat) {
    i + n <= |t| && forall j :: i <= j < i + n ==> At(u, DIGIT, t, j)
  }

  function CardEnd(u: Unicode, t: string, i: nat): Option<nat>
    requires i <= |t|
  {
    if (i > 0 && In(u, DIGIT, t[i - 1])) || !Digits(u, t, i, 4) then None
    else CardTail(u, t, i + 4, 9, 15)
  }

  function SsnEnd(u: Unicode, t: string, i: nat): Option<nat>
    requires i <= |t|
  {
    if || (i > 0 && In(u, DIGIT, t[i - 1]))
       || !Digits(u, t, i, 3) || !At(u, SEPARATOR, t, i + 3)
       || !Digits(u, t, i + 4, 2) || !At(u, SEPARATOR, t, i + 6)
       || !Digits(u, t, i + 7, 4) || At(u, DIGIT, t, i + 11)
    then None
    else Some(i + 11)
  }

  /** An exact repetition of a class: a fixed number of characters. */
  lemma {:induction false} EngineTakesExactly(u: Unicode, n: nat, rest: Items, t: string, i: nat)
    requires i <= |t|
    ensures Engine(u, Then(Rep(Chr(DIGIT), n, n), rest), t, i)
         == if Digits(u, t, i, n) then Engine(u, rest, t, i + n) else None
    decreases n
  {
    if n > 0 {
      var next := Then(Rep(Chr(DIGIT), n - 1, n - 1), rest);
      assert Again(Chr(DIGIT), n, n, rest) == Then(Chr(DIGIT), next);
      if At(u, DIGIT, t, i) {
        EngineTakesExactly(u, n - 1, rest, t, i + 1);
        assert Digits(u, t, i, n) <==> Digits(u, t, i + 1, n - 1);
      } else {
        assert !Digits(u, t, i, n);
      }
    }
  }

  lemma {:induction false} CardStepIsEngine(u: Unicode, rest: Items, t: string, p: nat)
    requires p <= |t|
    ensures Engine(u, Then(CARD_REST, rest), t, p)
         == var step := CardStep(u, t, p);
            if step.Some? then Engine(u, rest, t, step.value) else None
  {
    var digit := Then(Chr(DIGIT), rest);
    var optional := Then(Rep(Chr(SEPARATOR), 0, 1), digit);
    assert Opened(Rep(Chr(SEPARATOR), 0, 1), Chr(DIGIT), rest) == optional;
    assert Engine(u, Then(CARD_REST, rest), t, p) == Engine(u, optional, t, p);
    forall j: nat | j < |t| && At(u, SEPARATOR, t, j) ensures Engine(u, digit, t, j).None? {
    }
    EngineTakesRun(u, SEPARATOR, 0, 1, digit, t, p);
    var r := RunEnd(u, SEPARATOR, t, p);
    assert Engine(u, digit, t, r) == if At(u, DIGIT, t, r) then Engine(u, rest, t, r + 1) else None;
    if At(u, SEPARATOR, t, p) {
      assert r >= p + 1;
    }
  }

  lemma {:induction false} CardTailIsEngine(u: Unicode, t: string, p: nat, lo: nat, hi: nat)
    requires p <= |t|
    ensures Engine(u, Then(Rep(CARD_REST, lo, hi), NO_DIGIT), t, p) == CardTail(u, t, p, lo, hi)
    decreases hi
  {
    assert Engine(u, NO_DIGIT, t, p) == if At(u, DIGIT, t, p) then None else Some(p);
    if hi > 0 {
      var next := Then(Rep(CARD_REST, Pred(lo), hi - 1), NO_DIGIT);
      assert Again(CARD_REST, lo, hi, NO_DIGIT) == Then(CARD_REST, next);
      CardStepIsEngine(u, next, t, p);
      var step := CardStep(u, t, p);
      if step.Some? {
        CardTailIsEngine(u, t, step.value, Pred(lo), hi - 1);
      }
    }
  }

  lemma {:induction false} CardIsEngine(u: Unicode, t: string, i: nat)
    requires i <= |t|
    ensures Engine(u, CARD, t, i) == CardEnd(u, t, i)
  {
    hide Engine, CardTail;
    EngineLooksBehind(u, DIGIT, Then(Rep(Chr(DIGIT), 4, 4), CARD_TAIL), t, i);
    EngineTakesExactly(u, 4, CARD_TAIL, t, i);
    if Digits(u, t, i, 4) {
      CardTailIsEngine(u, t, i + 4, 9, 15);
    }
  }

  lemma {:induction false} SsnIsEngine(u: Unicode, t: string, i: nat)
    requires i <= |t|
    ensures Engine(u, SSN, t, i) == SsnEnd(u, t, i)
  {
    hide Engine;
    EngineLooksBehind(u, DIGIT, SSN_AREA, t, i);
    EngineTakesExactly(u, 3, Then(Chr(SEPARATOR), SSN_GROUP), t, i);
    if Digits(u, t, i, 3) {
      EngineTakesOne(u, SEPARATOR, SSN_GROUP, t, i + 3);
      if At(u, SEPARATOR, t, i + 3) {
        EngineTakesExactly(u, 2, Then(Chr(SEPARATOR), SSN_SERIAL), t, i + 4);
        if Digits(u, t, i + 4, 2) {
          EngineTakesOne(u, SEPARATOR, SSN_SERIAL, t, i + 6);
          if At(u, SEPARATOR, t, i + 6) {
            EngineTakesExactly(u, 4, NO_DIGIT, t, i + 7);
            NoDigitIsEngine(u, t, i + 11);
          }
        }
      }
    }
  }

  lemma {:induction false} NoDigitIsEngine(u: Unicode, t: string, i: nat)
    ensures i <= |t| ==> Engine(u, NO_DIGIT, t, i) == if At(u, DIGIT, t, i) then None else Some(i)
  {
  }
}
