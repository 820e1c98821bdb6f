/** The character facts the guardrail takes from Python: ASCII ranges written in
    the patterns, and the Unicode tables behind `\d`, `\w`, `isdigit`, `isalnum`
    and `strip`. */
module CharTables {

  /** A Unicode version.  `decimal` maps each `\d` character to its value;
      `digit` and `alnum` are `str.isdigit` and `str.isalnum`; `space` is what
      `str.strip` removes. */
  datatype Tables = Tables(decimal: map<char, nat>, digit: set<char>, alnum: set<char>, space: set<char>)

  predicate IsLetter(c: char) {
    'a' <= c <= 'z' || 'A' <= c <= 'Z'
  }

  predicate IsAsciiDigit(c: char) {
    '0' <= c <= '9'
  }

  predicate IsAsciiSpace(c: char) {
    c == ' ' || 9 <= c as int <= 13 || 28 <= c as int <= 31
  }

  /** Every Unicode version nests the digit classes and agrees with ASCII below 128. */
  ghost predicate Consistent(u: Tables) {
    && (forall c :: c in u.decimal ==> c in u.digit && u.decimal[c] < 10)
    && (forall c :: c in u.digit ==> c in u.alnum)
    && (forall c :: c in u.space ==> c !in u.alnum)
    && (forall c: char | c as int < 128 ::
          && (c in u.decimal <==> IsAsciiDigit(c))
          && (c in u.digit <==> IsAsciiDigit(c))
          && (c in u.alnum <==> IsLetter(c) || IsAsciiDigit(c))
          && (c in u.space <==> IsAsciiSpace(c)))
    && (forall c: char | IsAsciiDigit(c) && c in u.decimal :: u.decimal[c] == c as int - '0' as int)
  }

  type Unicode = u: Tables | Consistent(u) witness
    Tables(
      map c: char | '0' <= c <= '9' :: c as int - '0' as int,
      set c: char | '0' <= c <= '9',
      set c: char | '0' <= c <= 'z' && (IsLetter(c) || IsAsciiDigit(c)),
      set c: char | c <= ' ' && IsAsciiSpace(c))

  predicate IsDecimal(u: Unicode, c: char) {
    c in u.decimal
  }

  predicate IsDigit(u: Unicode, c: char) {
    c in u.digit
  }

  predicate IsAlnum(u: Unicode, c: char) {
    c in u.alnum
  }

  function DecimalCount(u: Unicode, t: string): nat {
    if t == "" then 0
    else DecimalCount(u, t[..|t| - 1]) + if IsDecimal(u, t[|t| - 1]) then 1 else 0
  }

  lemma {:induction false} CountConcat(u: Unicode, a: string, b: string)
    ensures DecimalCount(u, a + b) == DecimalCount(u, a) + DecimalCount(u, b)
  {
    if b == "" {
      assert a + b == a;
    } else {
      assert (a + b)[..|a + b| - 1] == a + b[..|b| - 1];
      CountConcat(u, a, b[..|b| - 1]);
    }
  }

  lemma {:induction false} CountFrom(u: Unicode, t: string, p: nat, e: nat)
    requires p < e <= |t|
    ensures DecimalCount(u, t[p..e]) == (if IsDecimal(u, t[p]) then 1 else 0) + DecimalCount(u, t[p + 1..e])
  {
    assert t[p..e] == [t[p]] + t[p + 1..e];
    CountConcat(u, [t[p]], t[p + 1..e]);
    assert [t[p]][..0] == "";
  }
}
