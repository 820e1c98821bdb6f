/** The three patterns read off the characters of a text: which stretches are an
    email address, a card number or an SSN, and what may stand beside them. */
module Shapes {
  import opened CharTables
  import opened Wrappers
  import opened Regex
  import opened Patterns
  import opened Matching
  import opened Longest

  // ----- The characters -----

  predicate LocalChar(c: char) {
    IsLetter(c) || IsAsciiDigit(c) || c == '.' || c == '_' || c == '%' || c == '+' || c == '-'
  }

  predicate LabelChar(c: char) {
    IsLetter(c) || IsAsciiDigit(c) || c == '-'
  }

  predicate SeparatorChar(c: char) {
    c == ' ' || c == '-'
  }

  /** Before an address none of these may stand. */
  predicate JoinsBefore(u: Unicode, c: char) {
    IsAlnum(u, c) || c == '_' || c == '.' || c == '@' || c == '+' || c == '-'
  }

  /** ... and none of these after it. */
  predicate JoinsAfter(c: char) {
    IsLetter(c) || IsAsciiDigit(c) || c == '_' || c == '-'
  }

  // ----- The shapes -----

  predicate LocalPart(t: string, i: nat, a: nat) {
    i <= a <= |t| && 1 <= a - i <= 64 && forall j: nat :: i <= j < a ==> LocalChar(t[j])
  }

  predicate Label(t: string, p: nat, q: nat) {
    p <= q <= |t| && 1 <= q - p <= 63 && forall j: nat :: p <= j < q ==> LabelChar(t[j])
  }

  predicate TopLevel(t: string, p: nat, e: nat) {
    && p <= e <= |t| && 2 <= e - p <= 24
    && (forall j: nat :: p <= j < e ==> IsLetter(t[j]))
    && (e < |t| ==> !JoinsAfter(t[e]))
  }

  /** `dots` are the positions of the dots of a domain, from the end of its first
      label on: between them labels, after the last a top-level domain. */
  predicate DottedAt(t: string, dots: seq<nat>, e: nat) {
    && |dots| > 0
    && (forall j :: 0 <= j < |dots| ==> dots[j] < |t| && t[dots[j]] == '.')
    && (forall j :: 0 < j < |dots| ==> Label(t, dots[j - 1] + 1, dots[j]))
    && TopLevel(t, dots[|dots| - 1] + 1, e)
  }

  /** A local part, `@` at `at`, and up to six labels, the last of them letters. */
  predicate EmailAt(u: Unicode, t: string, i: nat, at: nat, dots: seq<nat>, e: nat) {
    && (0 < i <= |t| ==> !JoinsBefore(u, t[i - 1]))
    && LocalPart(t, i, at) && at < |t| && t[at] == '@'
    && 1 <= |dots| <= 5 && Label(t, at + 1, dots[0]) && DottedAt(t, dots, e)
  }

  ghost predicate IsEmail(u: Unicode, t: string, i: nat, e: nat) {
    exists at: nat, dots: seq<nat> :: EmailAt(u, t, i, at, dots, e)
  }

  /** No decimal directly before `i` or at `e`. */
  predicate AloneAmongDecimals(u: Unicode, t: string, i: nat, e: nat) {
    && i <= |t|
    && (i > 0 ==> !IsDecimal(u, t[i - 1]))
    && (e < |t| ==> !IsDecimal(u, t[e]))
  }

  /** `n` decimals from `i` on. */
  predicate Decimals(u: Unicode, t: string, i: nat, n: nat) {
    i + n <= |t| && forall j: nat :: i <= j < i + n ==> IsDecimal(u, t[j])
  }

  /** A decimal, or a separator between two of them, in a stretch that ends at `e`. */
  predicate Linked(u: Unicode, t: string, j: nat, e: nat)
    requires 0 < j < e <= |t|
  {
    || IsDecimal(u, t[j])
    || (SeparatorChar(t[j]) && IsDecimal(u, t[j - 1]) && j + 1 < e && IsDecimal(u, t[j + 1]))
  }

  /** Thirteen to nineteen decimals, the first four together, and single spaces or
      hyphens between two of them. */
  predicate IsCard(u: Unicode, t: string, i: nat, e: nat) {
    && i + 4 <= e <= |t| && AloneAmongDecimals(u, t, i, e)
    && Decimals(u, t, i, 4) && (forall j: nat :: i + 4 <= j < e ==> Linked(u, t, j, e))
    && 13 <= DecimalCount(u, t[i..e]) <= 19
  }

  /** Three, two and four decimals with a space or a hyphen between the groups. */
  predicate IsSsn(u: Unicode, t: string, i: nat, e: nat) {
    && i + 11 == e <= |t| && AloneAmongDecimals(u, t, i, e)
    && (forall j: nat :: i <= j < e ==>
          if j == i + 3 || j == i + 6 then SeparatorChar(t[j]) else IsDecimal(u, t[j]))
  }

  ghost predicate HasShape(u: Unicode, kind: Kind, t: string, i: nat, e: nat) {
    match kind
    case Email => IsEmail(u, t, i, e)
    case Card => IsCard(u, t, i, e)
    case Ssn => IsSsn(u, t, i, e)
  }

  // ----- Reading a repetition of one class -----

  predicate AllIn(u: Unicode, k: Class, t: string, i: nat, m: nat) {
    i <= m <= |t| && forall j: nat :: i <= j < m ==> In(u, k, t[j])
  }

  lemma {:induction false} RunOf(u: Unicode, k: Class, lo: nat, hi: nat, rest: Items, t: string, i: nat, e: nat)
    returns (m: nat)
    requires i <= |t| && lo <= hi && Derives(u, Then(Rep(Chr(k), lo, hi), rest), t, i, e)
    ensures AllIn(u, k, t, i, m) && lo <= m - i <= hi && Derives(u, rest, t, m, e)
    decreases hi
  {
    if hi > 0 && Derives(u, Again(Chr(k), lo, hi, rest), t, i, e) {
      m := RunOf(u, k, Pred(lo), hi - 1, rest, t, i + 1, e);
    } else {
      m := i;
    }
  }

  lemma {:induction false} RunIs(
    u: Unicode, k: Class, lo: nat, hi: nat, rest: Items, t: string, i: nat, m: nat, e: nat)
    requires AllIn(u, k, t, i, m) && lo <= m - i <= hi && Derives(u, rest, t, m, e)
    ensures Derives(u, Then(Rep(Chr(k), lo, hi), rest), t, i, e)
    decreases hi
  {
    if i < m {
      RunIs(u, k, Pred(lo), hi - 1, rest, t, i + 1, m, e);
      assert Derives(u, Again(Chr(k), lo, hi, rest), t, i, e);
    }
  }

  // ----- Email -----

  lemma {:induction false} TopLevelIs(u: Unicode, t: string, p: nat, e: nat)
    requires p <= |t|
    ensures Derives(u, TLD_TAIL, t, p, e) <==> p < |t| && t[p] == '.' && TopLevel(t, p + 1, e)
  {
    if Derives(u, TLD_TAIL, t, p, e) {
      var m := RunOf(u, LETTER, 2, 24, TLD_CLOSED, t, p + 1, e);
      assert Derives(u, End, t, m, e);
    }
    if p < |t| && t[p] == '.' && TopLevel(t, p + 1, e) {
      assert Derives(u, End, t, e, e);
      assert Derives(u, TLD_CLOSED, t, e, e);
      RunIs(u, LETTER, 2, 24, TLD_CLOSED, t, p + 1, e, e);
    }
  }

  lemma InText(u: Unicode, k: Class, t: string, i: nat, m: nat)
    requires AllIn(u, k, t, i, m)
    ensures m <= |t|
  {
  }

  lemma LabelIs(u: Unicode, t: string, p: nat, q: nat)
    ensures AllIn(u, LABEL, t, p, q) && 1 <= q - p <= 63 <==> Label(t, p, q)
  {
  }

  lemma LocalIs(u: Unicode, t: string, i: nat, a: nat)
    ensures AllIn(u, LOCAL, t, i, a) && 1 <= a - i <= 64 <==> LocalPart(t, i, a)
  {
  }

  /** Either one more label, or the top-level domain. */
  lemma {:induction false} DomainIs(u: Unicode, t: string, p: nat, n: nat, e: nat, name: Re, tail: Items)
    requires p <= |t| && name == Rep(Chr(LABEL), 1, 63)
    ensures Derives(u, Then(Rep(Cat(Chr(DOT), name), 0, n), tail), t, p, e)
       <==> || Derives(u, tail, t, p, e)
            || (n > 0 && p < |t| && t[p] == '.'
                && Derives(u, Then(name, Then(Rep(Cat(Chr(DOT), name), 0, n - 1), tail)), t, p + 1, e))
  {
    if n > 0 {
      var next := Then(Rep(Cat(Chr(DOT), name), 0, n - 1), tail);
      assert Again(Cat(Chr(DOT), name), 0, n, tail) == Then(Cat(Chr(DOT), name), next);
      assert Derives(u, Then(Cat(Chr(DOT), name), next), t, p, e)
        <==> Derives(u, Opened(Chr(DOT), name, next), t, p, e);
      assert Opened(Chr(DOT), name, next) == Then(Chr(DOT), Then(name, next));
    }
  }

  lemma {:induction false} DotsOf(u: Unicode, t: string, p: nat, n: nat, e: nat, tail: Items)
    returns (dots: seq<nat>)
    requires p <= |t| && tail == TLD_TAIL && Derives(u, Then(Rep(SUBDOMAIN, 0, n), tail), t, p, e)
    ensures 1 <= |dots| <= n + 1 && dots[0] == p && DottedAt(t, dots, e)
    decreases n
  {
    hide Derives, TopLevel, Label, AllIn;
    DomainIs(u, t, p, n, e, Rep(Chr(LABEL), 1, 63), tail);
    TopLevelIs(u, t, p, e);
    if Derives(u, tail, t, p, e) {
      dots := [p];
    } else {
      var next := Then(Rep(SUBDOMAIN, 0, n - 1), tail);
      var q := RunOf(u, LABEL, 1, 63, next, t, p + 1, e);
      LabelIs(u, t, p + 1, q);
      InText(u, LABEL, t, p + 1, q);
      var more := DotsOf(u, t, q, n - 1, e, tail);
      dots := [p] + more;
      assert forall j :: 0 < j < |dots| ==> dots[j] == more[j - 1];
    }
  }

  lemma {:induction false} DotsAre(u: Unicode, t: string, n: nat, dots: seq<nat>, e: nat, tail: Items)
    requires 1 <= |dots| <= n + 1 && DottedAt(t, dots, e) && tail == TLD_TAIL
    ensures Derives(u, Then(Rep(SUBDOMAIN, 0, n), tail), t, dots[0], e)
    decreases n
  {
    hide Derives, TopLevel, Label, AllIn;
    var p := dots[0];
    DomainIs(u, t, p, n, e, Rep(Chr(LABEL), 1, 63), tail);
    if |dots| == 1 {
      TopLevelIs(u, t, p, e);
    } else {
      var next, q := Then(Rep(SUBDOMAIN, 0, n - 1), tail), dots[1];
      assert Label(t, dots[1 - 1] + 1, dots[1]);
      LabelIs(u, t, p + 1, q);
      DotsAre(u, t, n - 1, dots[1..], e, tail);
      RunIs(u, LABEL, 1, 63, next, t, p + 1, q, e);
    }
  }

  lemma {:induction false} AtSignIs(u: Unicode, t: string, a: nat, host: Items, e: nat)
    requires a <= |t|
    ensures Derives(u, Then(Chr(AT), host), t, a, e)
       <==> a < |t| && t[a] == '@' && Derives(u, host, t, a + 1, e)
  {
  }

  lemma {:induction false} LookbehindIs(u: Unicode, k: Class, rest: Items, t: string, i: nat, e: nat)
    requires i <= |t|
    ensures Derives(u, Then(NotBehind(k), rest), t, i, e)
       <==> (i > 0 ==> !In(u, k, t[i - 1])) && Derives(u, rest, t, i, e)
  {
  }

  lemma {:induction false} EmailOf(u: Unicode, t: string, i: nat, e: nat) returns (at: nat, dots: seq<nat>)
    requires i <= |t| && Derives(u, EMAIL, t, i, e)
    ensures EmailAt(u, t, i, at, dots, e)
  {
    hide Derives, DottedAt, Label, AllIn, LocalPart;
    LookbehindIs(u, BEFORE_EMAIL, ADDRESS, t, i, e);
    at := RunOf(u, LOCAL, 1, 64, Then(Chr(AT), HOST), t, i, e);
    LocalIs(u, t, i, at);
    InText(u, LOCAL, t, i, at);
    AtSignIs(u, t, at, HOST, e);
    var q := RunOf(u, LABEL, 1, 63, DOMAIN_TAIL, t, at + 1, e);
    LabelIs(u, t, at + 1, q);
    InText(u, LABEL, t, at + 1, q);
    dots := DotsOf(u, t, q, 4, e, TLD_TAIL);
  }

  lemma {:induction false} EmailHolds(u: Unicode, t: string, i: nat, at: nat, dots: seq<nat>, e: nat)
    requires i <= |t| && EmailAt(u, t, i, at, dots, e)
    ensures Derives(u, EMAIL, t, i, e)
  {
    hide Derives, DottedAt, Label, AllIn, LocalPart;
    DotsAre(u, t, 4, dots, e, TLD_TAIL);
    LabelIs(u, t, at + 1, dots[0]);
    RunIs(u, LABEL, 1, 63, DOMAIN_TAIL, t, at + 1, dots[0], e);
    AtSignIs(u, t, at, HOST, e);
    LocalIs(u, t, i, at);
    RunIs(u, LOCAL, 1, 64, Then(Chr(AT), HOST), t, i, at, e);
    LookbehindIs(u, BEFORE_EMAIL, ADDRESS, t, i, e);
  }

  lemma {:induction false} EmailIs(u: Unicode, t: string, i: nat, e: nat)
    requires i <= |t|
    ensures Derives(u, EMAIL, t, i, e) <==> IsEmail(u, t, i, e)
  {
    hide Derives, EmailAt;
    if Derives(u, EMAIL, t, i, e) {
      var at, dots := EmailOf(u, t, i, e);
    }
    if IsEmail(u, t, i, e) {
      var at: nat, dots: seq<nat> :| EmailAt(u, t, i, at, dots, e);
      EmailHolds(u, t, i, at, dots, e);
    }
  }

  // ----- Numbers -----

  lemma {:induction false} DecimalsAre(u: Unicode, n: nat, rest: Items, t: string, i: nat, e: nat)
    requires i <= |t|
    ensures Derives(u, Then(Rep(Chr(DIGIT), n, n), rest), t, i, e)
       <==> Decimals(u, t, i, n) && Derives(u, rest, t, i + n, e)
  {
    hide Derives;
    if Derives(u, Then(Rep(Chr(DIGIT), n, n), rest), t, i, e) {
      var m := RunOf(u, DIGIT, n, n, rest, t, i, e);
    }
    if Decimals(u, t, i, n) && Derives(u, rest, t, i + n, e) {
      RunIs(u, DIGIT, n, n, rest, t, i, i + n, e);
    }
  }

  lemma {:induction false} SeparatorIs(u: Unicode, rest: Items, t: string, i: nat, e: nat)
    requires i <= |t|
    ensures Derives(u, Then(Chr(SEPARATOR), rest), t, i, e)
       <==> i < |t| && SeparatorChar(t[i]) && Derives(u, rest, t, i + 1, e)
  {
  }

  lemma {:induction false} NoDecimalIs(u: Unicode, t: string, i: nat, e: nat)
    requires i <= |t|
    ensures Derives(u, NO_DIGIT, t, i, e) <==> e == i && (i < |t| ==> !IsDecimal(u, t[i]))
  {
    assert Derives(u, End, t, i, e) <==> e == i;
  }

  lemma {:induction false} SsnIs(u: Unicode, t: string, i: nat, e: nat)
    requires i <= |t|
    ensures Derives(u, SSN, t, i, e) <==> IsSsn(u, t, i, e)
  {
    hide Derives;
    LookbehindIs(u, DIGIT, SSN_AREA, t, i, e);
    DecimalsAre(u, 3, Then(Chr(SEPARATOR), SSN_GROUP), t, i, e);
    if i + 3 <= |t| {
      SeparatorIs(u, SSN_GROUP, t, i + 3, e);
      if i + 4 <= |t| {
        DecimalsAre(u, 2, Then(Chr(SEPARATOR), SSN_SERIAL), t, i + 4, e);
        if i + 6 <= |t| {
          SeparatorIs(u, SSN_SERIAL, t, i + 6, e);
          if i + 7 <= |t| {
            DecimalsAre(u, 4, NO_DIGIT, t, i + 7, e);
            if i + 11 <= |t| {
              NoDecimalIs(u, t, i + 11, e);
            }
          }
        }
      }
    }
  }

  /** Decimals with single separators between two of them, after a decimal at `p - 1`. */
  predicate Chain(u: Unicode, t: string, p: nat, e: nat) {
    && 0 < p <= e <= |t| && (e < |t| ==> !IsDecimal(u, t[e]))
    && forall j: nat :: p <= j < e ==> Linked(u, t, j, e)
  }

  /** Where the first step of a chain leads. */
  function StepOf(u: Unicode, t: string, p: nat): Option<nat> {
    if p < |t| && IsDecimal(u, t[p]) then Some(p + 1)
    else if p + 1 < |t| && SeparatorChar(t[p]) && IsDecimal(u, t[p + 1]) then Some(p + 2)
    else None
  }

  lemma {:induction false} ChainSteps(u: Unicode, t: string, p: nat, e: nat)
    requires 0 < p <= |t| && IsDecimal(u, t[p - 1])
    ensures Chain(u, t, p, e) && p < e ==>
              StepOf(u, t, p).Some? && Chain(u, t, StepOf(u, t, p).value, e)
    ensures StepOf(u, t, p).Some? && Chain(u, t, StepOf(u, t, p).value, e) ==>
              && p < e && Chain(u, t, p, e)
              && DecimalCount(u, t[p..e]) == 1 + DecimalCount(u, t[StepOf(u, t, p).value..e])
  {
    var step := StepOf(u, t, p);
    if Chain(u, t, p, e) && p < e {
      assert Linked(u, t, p, e);
    }
    if step.Some? && Chain(u, t, step.value, e) {
      CountFrom(u, t, p, e);
      if !IsDecimal(u, t[p]) {
        CountFrom(u, t, p + 1, e);
      }
    }
  }

  lemma {:induction false} CardRestIs(u: Unicode, rest: Items, t: string, p: nat, e: nat)
    requires p <= |t|
    ensures Derives(u, Then(CARD_REST, rest), t, p, e)
       <==> StepOf(u, t, p).Some? && Derives(u, rest, t, StepOf(u, t, p).value, e)
  {
    var digit := Then(Chr(DIGIT), rest);
    var optional := Then(Rep(Chr(SEPARATOR), 0, 1), digit);
    assert Opened(Rep(Chr(SEPARATOR), 0, 1), Chr(DIGIT), rest) == optional;
    assert Derives(u, Then(CARD_REST, rest), t, p, e) <==> Derives(u, optional, t, p, e);
    if Derives(u, optional, t, p, e) {
      var m := RunOf(u, SEPARATOR, 0, 1, digit, t, p, e);
    }
    if StepOf(u, t, p).Some? && Derives(u, rest, t, StepOf(u, t, p).value, e) {
      var m := StepOf(u, t, p).value - 1;
      assert Derives(u, digit, t, m, e);
      RunIs(u, SEPARATOR, 0, 1, digit, t, p, m, e);
    }
  }

  lemma {:induction false} RepetitionIs(u: Unicode, body: Re, lo: nat, hi: nat, rest: Items, t: string, p: nat, e: nat)
    requires p <= |t|
    ensures Derives(u, Then(Rep(body, lo, hi), rest), t, p, e)
       <==> || (hi > 0 && Derives(u, Then(body, Then(Rep(body, Pred(lo), hi - 1), rest)), t, p, e))
            || (lo == 0 && Derives(u, rest, t, p, e))
  {
  }

  lemma {:induction false} ChainIs(u: Unicode, t: string, p: nat, lo: nat, hi: nat, e: nat)
    requires 0 < p <= |t| && IsDecimal(u, t[p - 1]) && lo <= hi
    ensures Derives(u, Then(Rep(CARD_REST, lo, hi), NO_DIGIT), t, p, e)
       <==> Chain(u, t, p, e) && lo <= DecimalCount(u, t[p..e]) <= hi
    decreases hi
  {
    hide Derives, Chain;
    RepetitionIs(u, CARD_REST, lo, hi, NO_DIGIT, t, p, e);
    NoDecimalIs(u, t, p, e);
    ChainSteps(u, t, p, e);
    EmptyChain(u, t, p, e);
    if hi > 0 {
      var next := Then(Rep(CARD_REST, Pred(lo), hi - 1), NO_DIGIT);
      CardRestIs(u, next, t, p, e);
      var step := StepOf(u, t, p);
      if step.Some? {
        ChainIs(u, t, step.value, Pred(lo), hi - 1, e);
      }
    }
  }

  lemma EmptyChain(u: Unicode, t: string, p: nat, e: nat)
    requires 0 < p <= |t|
    ensures Chain(u, t, p, e) ==> p <= e <= |t|
    ensures e == p ==> (Chain(u, t, p, e) <==> (p < |t| ==> !IsDecimal(u, t[p])))
    ensures e == p ==> DecimalCount(u, t[p..e]) == 0
  {
  }

  lemma {:induction false} CardIs(u: Unicode, t: string, i: nat, e: nat)
    requires i <= |t|
    ensures Derives(u, CARD, t, i, e) <==> IsCard(u, t, i, e)
  {
    hide Derives, Linked, DecimalCount;
    LookbehindIs(u, DIGIT, Then(Rep(Chr(DIGIT), 4, 4), CARD_TAIL), t, i, e);
    DecimalsAre(u, 4, CARD_TAIL, t, i, e);
    if Decimals(u, t, i, 4) {
      ChainIs(u, t, i + 4, 9, 15, e);
      if i + 4 <= e <= |t| {
        FourMore(u, t, i, e);
      }
    }
  }

  lemma {:induction false} FourMore(u: Unicode, t: string, i: nat, e: nat)
    requires Decimals(u, t, i, 4) && i + 4 <= e <= |t|
    ensures DecimalCount(u, t[i..e]) == 4 + DecimalCount(u, t[i + 4..e])
  {
    CountFrom(u, t, i, e);
    CountFrom(u, t, i + 1, e);
    CountFrom(u, t, i + 2, e);
    CountFrom(u, t, i + 3, e);
  }

  // ----- What is matched -----

  /** The language of each alternative is its shape. */
  lemma {:induction false} PatternIsShape(u: Unicode, kind: Kind, t: string, i: nat, e: nat)
    requires i <= |t|
    ensures Derives(u, Pattern(kind), t, i, e) <==> HasShape(u, kind, t, i, e)
  {
    match kind
    case Email => EmailIs(u, t, i, e);
    case Card => CardIs(u, t, i, e);
    case Ssn => SsnIs(u, t, i, e);
  }

  /** `e` is the end of the longest stretch from `i` on that has the shape. */
  ghost predicate LongestShape(u: Unicode, kind: Kind, t: string, i: nat, e: nat) {
    && HasShape(u, kind, t, i, e)
    && forall e': nat :: HasShape(u, kind, t, i, e') ==> e' <= e
  }

  /** Each alternative ends where its longest shape does, and fails where there is none. */
  lemma {:induction false} EndIsLongestShape(u: Unicode, kind: Kind, t: string, i: nat)
    requires i <= |t|
    ensures forall e: nat :: EndOf(u, kind, t, i) == Some(e) <==> LongestShape(u, kind, t, i, e)
    ensures EndOf(u, kind, t, i).None? <==> forall e: nat :: !HasShape(u, kind, t, i, e)
  {
    hide EndOf, HasShape;
    forall e: nat
      ensures HasShape(u, kind, t, i, e) ==> EndOf(u, kind, t, i).Some? && e <= EndOf(u, kind, t, i).value
      ensures EndOf(u, kind, t, i) == Some(e) ==> HasShape(u, kind, t, i, e)
    {
      PatternIsShape(u, kind, t, i, e);
      MatchIsLongest(u, kind, t, i, e);
    }
    if EndOf(u, kind, t, i).Some? {
      assert HasShape(u, kind, t, i, EndOf(u, kind, t, i).value);
    }
  }
}
