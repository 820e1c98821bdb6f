/** The fragment of Python's `re` that the redaction patterns are written in,
    with the engine's own semantics: ordered choice, greedy repetition that
    gives back one iteration at a time, and the first success wins. */
module Regex {
  import opened CharTables
  import opened Wrappers

  /** A bracketed character class: listed characters plus `A-Za-z`, `0-9`, `\d`, `\w`. */
  datatype Class = Class(chars: set<char>, letters: bool, digits: bool, decimal: bool, word: bool)

  predicate In(u: Unicode, k: Class, c: char) {
    || c in k.chars
    || (k.letters && IsLetter(c))
    || (k.digits && IsAsciiDigit(c))
    || (k.decimal && IsDecimal(u, c))
    || (k.word && (IsAlnum(u, c) || c == '_'))
  }

  datatype Re =
    | Chr(k: Class)
    | Cat(a: Re, b: Re)
    | Rep(body: Re, lo: nat, hi: nat)
    | NotAhead(k: Class)
    | NotBehind(k: Class)

  /** What is still to be matched, in order. */
  datatype Items = End | Then(first: Re, rest: Items)

  function Times(n: nat, w: nat): nat {
    if n == 0 then 0 else w + Times(n - 1, w)
  }

  lemma TimesOf(n: nat, w: nat)
    ensures Times(n, w) == n * w
  {
  }

  function Pred(n: nat): nat {
    if n == 0 then 0 else n - 1
  }

  function ReWeight(r: Re): (w: nat)
    ensures w > 0
  {
    match r
    case Cat(a, b) => 1 + ReWeight(a) + ReWeight(b)
    case Rep(body, lo, hi) => 1 + Times(hi, 1 + ReWeight(body))
    case _ => 1
  }

  function Weight(k: Items): nat {
    match k
    case End => 0
    case Then(r, rest) => ReWeight(r) + Weight(rest)
  }

  /** One more round of a repetition: the body, then the repetition with one round used. */
  function Again(body: Re, lo: nat, hi: nat, rest: Items): (k: Items)
    requires hi > 0
    ensures Weight(k) < Weight(Then(Rep(body, lo, hi), rest))
  {
    var next := Then(Rep(body, Pred(lo), hi - 1), rest);
    assert Weight(next) == 1 + Times(hi - 1, 1 + ReWeight(body)) + Weight(rest);
    Then(body, next)
  }

  /** A concatenation, opened up. */
  function Opened(a: Re, b: Re, rest: Items): (k: Items)
    ensures Weight(k) < Weight(Then(Cat(a, b), rest))
  {
    var next := Then(b, rest);
    assert Weight(next) == ReWeight(b) + Weight(rest);
    Then(a, next)
  }

  /** The end of the match that the engine reports for `k` at position `i`. */
  function Engine(u: Unicode, k: Items, t: string, i: nat): Option<nat>
    requires i <= |t|
    decreases Weight(k), |t|
  {
    match k
    case End => Some(i)
    case Then(r, rest) =>
      match r
      case Chr(c) => if i < |t| && In(u, c, t[i]) then Engine(u, rest, t, i + 1) else None
      case Cat(a, b) => Engine(u, Opened(a, b, rest), t, i)
      case Rep(body, lo, hi) =>
        var more := if hi > 0 then Engine(u, Again(body, lo, hi, rest), t, i) else None;
        if more.Some? then more else if lo == 0 then Engine(u, rest, t, i) else None
      case NotAhead(c) => if i < |t| && In(u, c, t[i]) then None else Engine(u, rest, t, i)
      case NotBehind(c) => if i > 0 && In(u, c, t[i - 1]) then None else Engine(u, rest, t, i)
  }

  /** Membership in the language of `k`, with any choice allowed: some way of
      reading `t[i..e]` as `k` exists. */
  ghost predicate Derives(u: Unicode, k: Items, t: string, i: nat, e: nat)
    requires i <= |t|
    decreases Weight(k), |t|
  {
    match k
    case End => e == i
    case Then(r, rest) =>
      match r
      case Chr(c) => i < |t| && In(u, c, t[i]) && Derives(u, rest, t, i + 1, e)
      case Cat(a, b) => Derives(u, Opened(a, b, rest), t, i, e)
      case Rep(body, lo, hi) =>
        || (hi > 0 && Derives(u, Again(body, lo, hi, rest), t, i, e))
        || (lo == 0 && Derives(u, rest, t, i, e))
      case NotAhead(c) => !(i < |t| && In(u, c, t[i])) && Derives(u, rest, t, i, e)
      case NotBehind(c) => !(i > 0 && In(u, c, t[i - 1])) && Derives(u, rest, t, i, e)
  }

  /** The engine finds a match exactly when one exists, and what it finds is one. */
  lemma {:induction false} EngineDecides(u: Unicode, k: Items, t: string, i: nat)
    requires i <= |t|
    ensures Engine(u, k, t, i).Some? ==> Derives(u, k, t, i, Engine(u, k, t, i).value)
    ensures Engine(u, k, t, i).None? ==> forall e: nat :: !Derives(u, k, t, i, e)
    decreases Weight(k)
  {
    match k
    case End =>
    case Then(r, rest) =>
      match r
      case Chr(c) => if i < |t| { EngineDecides(u, rest, t, i + 1); }
      case Cat(a, b) => EngineDecides(u, Opened(a, b, rest), t, i);
      case Rep(body, lo, hi) =>
        if hi > 0 { EngineDecides(u, Again(body, lo, hi, rest), t, i); }
        EngineDecides(u, rest, t, i);
      case _ => EngineDecides(u, rest, t, i);
  }

  function ReMax(r: Re): nat {
    match r
    case Chr(_) => 1
    case Cat(a, b) => ReMax(a) + ReMax(b)
    case Rep(body, lo, hi) => Times(hi, ReMax(body))
    case _ => 0
  }

  function ReMin(r: Re): nat {
    match r
    case Chr(_) => 1
    case Cat(a, b) => ReMin(a) + ReMin(b)
    case Rep(body, lo, hi) => Times(lo, ReMin(body))
    case _ => 0
  }

  function MaxLength(k: Items): nat {
    match k
    case End => 0
    case Then(r, rest) => ReMax(r) + MaxLength(rest)
  }

  function MinLength(k: Items): nat {
    match k
    case End => 0
    case Then(r, rest) => ReMin(r) + MinLength(rest)
  }

  /** One more repetition leaves the longest length as it was and the shortest no
      shorter; so does stopping, where the engine may stop. */
  lemma {:induction false} RepetitionLengths(body: Re, lo: nat, hi: nat, rest: Items)
    ensures var k := Then(Rep(body, lo, hi), rest);
            && (hi > 0 ==> MaxLength(Again(body, lo, hi, rest)) == MaxLength(k)
                           && MinLength(Again(body, lo, hi, rest)) >= MinLength(k))
            && (lo == 0 ==> MaxLength(rest) <= MaxLength(k) && MinLength(rest) == MinLength(k))
  {
  }

  lemma {:induction false} EngineBounds(u: Unicode, k: Items, t: string, i: nat)
    requires i <= |t|
    ensures Engine(u, k, t, i).Some? ==>
              && i + MinLength(k) <= Engine(u, k, t, i).value <= i + MaxLength(k)
              && Engine(u, k, t, i).value <= |t|
    decreases Weight(k)
  {
    hide In, Times, Again;
    match k
    case End =>
    case Then(r, rest) =>
      match r
      case Chr(c) => if i < |t| { EngineBounds(u, rest, t, i + 1); }
      case Cat(a, b) => EngineBounds(u, Opened(a, b, rest), t, i);
      case Rep(body, lo, hi) =>
        RepetitionLengths(body, lo, hi, rest);
        if hi > 0 { EngineBounds(u, Again(body, lo, hi, rest), t, i); }
        EngineBounds(u, rest, t, i);
      case _ => EngineBounds(u, rest, t, i);
  }

  // ----- Locality: which characters of the text a match can depend on -----

  predicate ReConsumes(u: Unicode, r: Re, c: char) {
    match r
    case Chr(k) => In(u, k, c)
    case Cat(a, b) => ReConsumes(u, a, c) || ReConsumes(u, b, c)
    case Rep(body, _, _) => ReConsumes(u, body, c)
    case _ => false
  }

  /** Some class in `k` that takes a character accepts `c`. */
  predicate Consumes(u: Unicode, k: Items, c: char) {
    match k
    case End => false
    case Then(r, rest) => ReConsumes(u, r, c) || Consumes(u, rest, c)
  }

  predicate ReBlocks(u: Unicode, r: Re, c: char) {
    match r
    case NotBehind(k) => In(u, k, c)
    case Cat(a, b) => ReBlocks(u, a, c) || ReBlocks(u, b, c)
    case Rep(body, _, _) => ReBlocks(u, body, c)
    case _ => false
  }

  /** Some lookbehind in `k` rejects a preceding `c`. */
  predicate Blocks(u: Unicode, k: Items, c: char) {
    match k
    case End => false
    case Then(r, rest) => ReBlocks(u, r, c) || Blocks(u, rest, c)
  }

  /** A character that no class of `k` takes is a wall: matching before it
      neither crosses it nor depends on what lies beyond it. */
  lemma {:induction false} EngineStopsAtWall(u: Unicode, k: Items, t: string, t': string, i: nat, wall: nat)
    requires i <= wall < |t| && wall < |t'|
    requires t[..wall + 1] == t'[..wall + 1]
    requires !Consumes(u, k, t[wall])
    ensures Engine(u, k, t, i) == Engine(u, k, t', i)
    ensures Engine(u, k, t, i).Some? ==> Engine(u, k, t, i).value <= wall
    decreases Weight(k)
  {
    assert t[i] == t[..wall + 1][i] == t'[..wall + 1][i] == t'[i];
    assert i > 0 ==> t[i - 1] == t[..wall + 1][i - 1] == t'[..wall + 1][i - 1] == t'[i - 1];
    match k
    case End =>
    case Then(r, rest) =>
      match r
      case Chr(c) => if In(u, c, t[i]) { EngineStopsAtWall(u, rest, t, t', i + 1, wall); }
      case Cat(a, b) => EngineStopsAtWall(u, Opened(a, b, rest), t, t', i, wall);
      case Rep(body, lo, hi) =>
        if hi > 0 { EngineStopsAtWall(u, Again(body, lo, hi, rest), t, t', i, wall); }
        EngineStopsAtWall(u, rest, t, t', i, wall);
      case _ => EngineStopsAtWall(u, rest, t, t', i, wall);
  }

  function Moved(r: Option<nat>, s: nat): Option<nat> {
    if r.Some? then Some(r.value + s) else None
  }

  /** Dropping the first `s` characters moves a match by `s`, provided a
      lookbehind at the new beginning would not have seen a blocking character. */
  lemma {:induction false} EngineShift(u: Unicode, k: Items, t: string, s: nat, i: nat)
    requires s + i <= |t|
    requires i > 0 || s == 0 || !Blocks(u, k, t[s - 1])
    ensures Engine(u, k, t, s + i) == Moved(Engine(u, k, t[s..], i), s)
    decreases Weight(k)
  {
    match k
    case End =>
    case Then(r, rest) =>
      match r
      case Chr(c) => if s + i < |t| { EngineShift(u, rest, t, s, i + 1); }
      case Cat(a, b) => EngineShift(u, Opened(a, b, rest), t, s, i);
      case Rep(body, lo, hi) =>
        if hi > 0 { EngineShift(u, Again(body, lo, hi, rest), t, s, i); }
        EngineShift(u, rest, t, s, i);
      case _ => EngineShift(u, rest, t, s, i);
  }

  /** Text beyond the longest possible match and its one lookahead character does
      not matter. */
  lemma {:induction false} EngineHorizon(u: Unicode, k: Items, t: string, t': string, i: nat)
    requires t <= t' && i + MaxLength(k) < |t|
    ensures Engine(u, k, t, i) == Engine(u, k, t', i)
    decreases Weight(k)
  {
    match k
    case End =>
    case Then(r, rest) =>
      match r
      case Chr(c) => EngineHorizon(u, rest, t, t', i + 1);
      case Cat(a, b) => EngineHorizon(u, Opened(a, b, rest), t, t', i);
      case Rep(body, lo, hi) =>
        if hi > 0 { EngineHorizon(u, Again(body, lo, hi, rest), t, t', i); }
        EngineHorizon(u, rest, t, t', i);
      case _ => EngineHorizon(u, rest, t, t', i);
  }
}
