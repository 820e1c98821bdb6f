/** The declarative reading of the patterns: at a position, each alternative
    matches the longest string of its language that its lookarounds allow. */
module Longest {
  import opened CharTables
  import opened Wrappers
  import opened Regex
  import opened Patterns
  import opened Matching

  lemma {:induction false} DerivesForward(u: Unicode, k: Items, t: string, i: nat, e: nat)
    requires i <= |t| && Derives(u, k, t, i, e)
    ensures i + MinLength(k) <= e <= i + MaxLength(k)
    decreases Weight(k)
  {
    match k
    case End =>
    case Then(r, rest) =>
      match r
      case Chr(c) => DerivesForward(u, rest, t, i + 1, e);
      case Cat(a, b) => DerivesForward(u, Opened(a, b, rest), t, i, e);
      case Rep(body, lo, hi) =>
        if hi > 0 && Derives(u, Again(body, lo, hi, rest), t, i, e) {
          DerivesForward(u, Again(body, lo, hi, rest), t, i, e);
        } else {
          DerivesForward(u, rest, t, i, e);
        }
      case _ => DerivesForward(u, rest, t, i, e);
  }

  /** A class repetition followed by something that cannot begin with the class
      can only be read as the whole run. */
  lemma {:induction false} DerivesTakesRun(
    u: Unicode, k: Class, lo: nat, hi: nat, rest: Items, t: string, i: nat, e: nat)
    requires i <= |t| && lo <= hi
    requires forall j: nat, e': nat :: j < |t| && At(u, k, t, j) ==> !Derives(u, rest, t, j, e')
    requires Derives(u, Then(Rep(Chr(k), lo, hi), rest), t, i, e)
    ensures var r := RunEnd(u, k, t, i);
            lo <= r - i <= hi && Derives(u, rest, t, r, e)
    decreases hi
  {
    if hi > 0 && Derives(u, Again(Chr(k), lo, hi, rest), t, i, e) {
      DerivesTakesRun(u, k, Pred(lo), hi - 1, rest, t, i + 1, e);
    }
  }

  lemma {:induction false} DerivesTld(u: Unicode, t: string, p: nat, e: nat)
    requires p <= |t| && Derives(u, TLD_TAIL, t, p, e)
    ensures TldEnd(u, t, p) == Some(e)
  {
    assert Derives(u, TLD, t, p + 1, e);
    DerivesTakesRun(u, LETTER, 2, 24, TLD_CLOSED, t, p + 1, e);
  }

  lemma {:induction false} DerivesNeedsDot(u: Unicode, t: string, p: nat, n: nat, e: nat)
    requires p <= |t| && Derives(u, Then(Rep(SUBDOMAIN, 0, n), TLD_TAIL), t, p, e)
    ensures At(u, DOT, t, p)
  {
    if n > 0 && Derives(u, Again(SUBDOMAIN, 0, n, TLD_TAIL), t, p, e) {
      var next := Then(Rep(SUBDOMAIN, 0, n - 1), TLD_TAIL);
      assert Again(SUBDOMAIN, 0, n, TLD_TAIL) == Then(SUBDOMAIN, next);
      assert Derives(u, Opened(Chr(DOT), Rep(Chr(LABEL), 1, 63), next), t, p, e);
    }
  }

  lemma {:induction false} DerivesDomain(u: Unicode, t: string, p: nat, n: nat, e: nat)
    requires p <= |t| && Derives(u, Then(Rep(SUBDOMAIN, 0, n), TLD_TAIL), t, p, e)
    ensures DomainEnd(u, t, p, n).Some? && e <= DomainEnd(u, t, p, n).value
    decreases n
  {
    hide TldEnd, In;
    if n > 0 && Derives(u, Again(SUBDOMAIN, 0, n, TLD_TAIL), t, p, e) {
      var next := Then(Rep(SUBDOMAIN, 0, n - 1), TLD_TAIL);
      assert Again(SUBDOMAIN, 0, n, TLD_TAIL) == Then(SUBDOMAIN, next);
      assert Derives(u, Opened(Chr(DOT), Rep(Chr(LABEL), 1, 63), next), t, p, e);
      assert Derives(u, Then(Rep(Chr(LABEL), 1, 63), next), t, p + 1, e);
      LabelsDoNotBeginDomains(u, t, n - 1);
      DerivesTakesRun(u, LABEL, 1, 63, next, t, p + 1, e);
      DerivesDomain(u, t, RunEnd(u, LABEL, t, p + 1), n - 1, e);
    } else {
      DerivesTld(u, t, p, e);
      LongerDomainIsLonger(u, t, p, n);
    }
  }

  lemma {:induction false} LabelsDoNotBeginDomains(u: Unicode, t: string, n: nat)
    ensures forall j: nat, e: nat :: j < |t| && At(u, LABEL, t, j) ==>
              !Derives(u, Then(Rep(SUBDOMAIN, 0, n), TLD_TAIL), t, j, e)
  {
    forall j: nat, e: nat | j < |t| && At(u, LABEL, t, j)
      ensures !Derives(u, Then(Rep(SUBDOMAIN, 0, n), TLD_TAIL), t, j, e)
    {
      if Derives(u, Then(Rep(SUBDOMAIN, 0, n), TLD_TAIL), t, j, e) {
        DerivesNeedsDot(u, t, j, n, e);
      }
    }
  }

  lemma {:induction false} LongerDomainIsLonger(u: Unicode, t: string, p: nat, n: nat)
    requires p <= |t| && TldEnd(u, t, p).Some?
    ensures DomainEnd(u, t, p, n).Some? && TldEnd(u, t, p).value <= DomainEnd(u, t, p, n).value
    decreases n
  {
    if n > 0 {
      LettersAreLabels(u, t, p + 1);
      DomainEndsForward(u, t, RunEnd(u, LABEL, t, p + 1), n - 1);
    }
  }

  lemma {:induction false} LettersAreLabels(u: Unicode, t: string, p: nat)
    requires p <= |t|
    ensures RunEnd(u, LETTER, t, p) <= RunEnd(u, LABEL, t, p)
    decreases |t| - p
  {
    if At(u, LETTER, t, p) {
      LettersAreLabels(u, t, p + 1);
    }
  }

  lemma {:induction false} DomainEndsForward(u: Unicode, t: string, p: nat, n: nat)
    requires p <= |t|
    ensures DomainEnd(u, t, p, n).Some? ==> p <= DomainEnd(u, t, p, n).value
    decreases n
  {
    if n > 0 && At(u, DOT, t, p) {
      DomainEndsForward(u, t, RunEnd(u, LABEL, t, p + 1), n - 1);
    }
  }

  lemma {:induction false} DerivesHost(u: Unicode, t: string, p: nat, n: nat, domain: Items, e: nat)
    requires p <= |t| && domain == Then(Rep(SUBDOMAIN, 0, n), TLD_TAIL)
    requires Derives(u, Then(Rep(Chr(LABEL), 1, 63), domain), t, p, e)
    ensures HostEnd(u, t, p, n).Some? && e <= HostEnd(u, t, p, n).value
  {
    LabelsDoNotBeginDomains(u, t, n);
    DerivesTakesRun(u, LABEL, 1, 63, domain, t, p, e);
    DerivesDomain(u, t, RunEnd(u, LABEL, t, p), n, e);
  }

  lemma {:induction false} DerivesLocal(u: Unicode, t: string, i: nat, host: Items, e: nat)
    requires i <= |t| && Derives(u, Then(Rep(Chr(LOCAL), 1, 64), Then(Chr(AT), host)), t, i, e)
    ensures var a := RunEnd(u, LOCAL, t, i);
            1 <= a - i <= 64 && At(u, AT, t, a) && Derives(u, host, t, a + 1, e)
  {
    var at := Then(Chr(AT), host);
    forall j: nat, e': nat | j < |t| && At(u, LOCAL, t, j) ensures !Derives(u, at, t, j, e') {
      assert !At(u, AT, t, j);
    }
    DerivesTakesRun(u, LOCAL, 1, 64, at, t, i, e);
  }

  lemma {:induction false} CardTailForward(u: Unicode, t: string, p: nat, lo: nat, hi: nat)
    requires p <= |t|
    ensures CardTail(u, t, p, lo, hi).Some? ==> p <= CardTail(u, t, p, lo, hi).value
    decreases hi
  {
    if hi > 0 && CardStep(u, t, p).Some? {
      CardTailForward(u, t, CardStep(u, t, p).value, Pred(lo), hi - 1);
    }
  }

  lemma {:induction false} DerivesCardStep(u: Unicode, rest: Items, t: string, p: nat, e: nat)
    requires p <= |t| && Derives(u, Then(CARD_REST, rest), t, p, e)
    ensures CardStep(u, t, p).Some? && Derives(u, rest, t, CardStep(u, t, p).value, e)
  {
    var digit := Then(Chr(DIGIT), rest);
    assert Derives(u, Opened(Rep(Chr(SEPARATOR), 0, 1), Chr(DIGIT), rest), t, p, e);
    DerivesTakesRun(u, SEPARATOR, 0, 1, digit, t, p, e);
  }

  lemma {:induction false} DerivesCardTail(u: Unicode, t: string, p: nat, lo: nat, hi: nat, e: nat)
    requires p <= |t| && Derives(u, Then(Rep(CARD_REST, lo, hi), NO_DIGIT), t, p, e)
    ensures CardTail(u, t, p, lo, hi).Some? && e <= CardTail(u, t, p, lo, hi).value
    decreases hi
  {
    CardTailForward(u, t, p, lo, hi);
    if hi > 0 && Derives(u, Again(CARD_REST, lo, hi, NO_DIGIT), t, p, e) {
      var next := Then(Rep(CARD_REST, Pred(lo), hi - 1), NO_DIGIT);
      assert Again(CARD_REST, lo, hi, NO_DIGIT) == Then(CARD_REST, next);
      DerivesCardStep(u, next, t, p, e);
      DerivesCardTail(u, t, CardStep(u, t, p).value, Pred(lo), hi - 1, e);
    } else {
      assert Derives(u, NO_DIGIT, t, p, e);
      assert Derives(u, End, t, p, e);
    }
  }

  lemma {:induction false} DerivesExactly(u: Unicode, n: nat, rest: Items, t: string, i: nat, e: nat)
    requires i <= |t| && Derives(u, Then(Rep(Chr(DIGIT), n, n), rest), t, i, e)
    ensures Digits(u, t, i, n) && Derives(u, rest, t, i + n, e)
    decreases n
  {
    if n > 0 {
      assert Again(Chr(DIGIT), n, n, rest) == Then(Chr(DIGIT), Then(Rep(Chr(DIGIT), n - 1, n - 1), rest));
      DerivesExactly(u, n - 1, rest, t, i + 1, e);
    }
  }

  /** An alternative matches exactly when its language has a string at the
      position, and then it matches the longest one. */
  lemma {:induction false} MatchIsLongest(u: Unicode, kind: Kind, t: string, i: nat, e: nat)
    requires i <= |t|
    ensures EndOf(u, kind, t, i) == Some(e) ==> Derives(u, Pattern(kind), t, i, e)
    ensures Derives(u, Pattern(kind), t, i, e) ==>
              EndOf(u, kind, t, i).Some? && e <= EndOf(u, kind, t, i).value
  {
    EngineDecides(u, Pattern(kind), t, i);
    if Derives(u, Pattern(kind), t, i, e) {
      match kind
      case Email => EmailIsLongest(u, t, i, e);
      case Card => CardIsLongest(u, t, i, e);
      case Ssn =>
        DerivesForward(u, SSN, t, i, e);
        PatternBounds(Ssn);
    }
  }

  lemma {:induction false} DerivesAfterLookbehind(u: Unicode, k: Class, rest: Items, t: string, i: nat, e: nat)
    requires i <= |t| && Derives(u, Then(NotBehind(k), rest), t, i, e)
    ensures !(i > 0 && In(u, k, t[i - 1])) && Derives(u, rest, t, i, e)
  {
  }

  lemma {:induction false} EmailIsLongest(u: Unicode, t: string, i: nat, e: nat)
    requires i <= |t| && Derives(u, EMAIL, t, i, e)
    ensures EndOf(u, Email, t, i).Some? && e <= EndOf(u, Email, t, i).value
  {
    hide Engine, Derives, DomainEnd;
    EmailIsEngine(u, t, i);
    DerivesAfterLookbehind(u, BEFORE_EMAIL, ADDRESS, t, i, e);
    DerivesLocal(u, t, i, HOST, e);
    DerivesHost(u, t, RunEnd(u, LOCAL, t, i) + 1, 4, DOMAIN_TAIL, e);
  }

  lemma {:induction false} CardIsLongest(u: Unicode, t: string, i: nat, e: nat)
    requires i <= |t| && Derives(u, CARD, t, i, e)
    ensures EndOf(u, Card, t, i).Some? && e <= EndOf(u, Card, t, i).value
  {
    hide Engine, Derives, CardTail;
    CardIsEngine(u, t, i);
    DerivesAfterLookbehind(u, DIGIT, Then(Rep(Chr(DIGIT), 4, 4), CARD_TAIL), t, i, e);
    DerivesExactly(u, 4, CARD_TAIL, t, i, e);
    DerivesCardTail(u, t, i + 4, 9, 15, e);
  }

  /** Whether `t[i..e]` is a match is decided by those characters and one on each side. */
  lemma {:induction false} MatchSeesOneEachSide(u: Unicode, k: Items, t: string, t': string, i: nat, e: nat)
    requires i <= e && e < |t| && e < |t'|
    requires forall j: nat :: i <= j + 1 && j <= e ==> t[j] == t'[j]
    ensures Derives(u, k, t, i, e) <==> Derives(u, k, t', i, e)
    decreases Weight(k)
  {
    match k
    case End =>
    case Then(r, rest) =>
      match r
      case Chr(c) =>
        if i < e {
          MatchSeesOneEachSide(u, rest, t, t', i + 1, e);
        } else {
          NothingLeft(u, rest, t, i + 1, e);
          NothingLeft(u, rest, t', i + 1, e);
        }
      case Cat(a, b) => MatchSeesOneEachSide(u, Opened(a, b, rest), t, t', i, e);
      case Rep(body, lo, hi) =>
        if hi > 0 { MatchSeesOneEachSide(u, Again(body, lo, hi, rest), t, t', i, e); }
        MatchSeesOneEachSide(u, rest, t, t', i, e);
      case _ => MatchSeesOneEachSide(u, rest, t, t', i, e);
  }

  lemma {:induction false} NothingLeft(u: Unicode, k: Items, t: string, i: nat, e: nat)
    requires e < i
    ensures i <= |t| ==> !Derives(u, k, t, i, e)
  {
    if i <= |t| && Derives(u, k, t, i, e) {
      DerivesForward(u, k, t, i, e);
    }
  }
}
