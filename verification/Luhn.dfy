/** The Luhn checksum of ISO/IEC 7812-1, Annex B, and the errors it detects. */
module Luhn {
  /** What one digit adds to the total: every second digit from the right is
      doubled, and 9 is taken off a doubled digit above 9. */
  function Contribution(digit: nat, index: nat): int {
    if index % 2 == 0 then digit else if 2 * digit > 9 then 2 * digit - 9 else 2 * digit
  }

  /** The total of `digits`, whose last digit has index `index` from the right. */
  function Total(digits: seq<nat>, index: nat): int {
    if digits == [] then 0
    else Contribution(digits[|digits| - 1], index) + Total(digits[..|digits| - 1], index + 1)
  }

  predicate LuhnOk(digits: seq<nat>) {
    Total(digits, 0) % 10 == 0
  }

  /** The checksum as the standard puts it, digit by digit: every second digit from
      the right counts with the digit sum of its double. */
  function Checksum(digits: seq<nat>): nat {
    if digits == [] then 0 else Weight(digits[0], |digits| - 1) + Checksum(digits[1..])
  }

  function Weight(digit: nat, index: nat): nat {
    if index % 2 == 0 then digit else 2 * digit / 10 + 2 * digit % 10
  }

  lemma {:induction false} WeightIsContribution(digit: nat, index: nat)
    requires digit < 10
    ensures Weight(digit, index) == Contribution(digit, index)
  {
  }

  lemma {:induction false} TotalFromLeft(digits: seq<nat>, index: nat)
    requires digits != []
    ensures Total(digits, index) == Contribution(digits[0], index + |digits| - 1) + Total(digits[1..], index)
    decreases |digits|
  {
    var n := |digits| - 1;
    if n > 0 {
      TotalFromLeft(digits[..n], index + 1);
      assert digits[..n][1..] == digits[1..][..n - 1];
    }
  }

  lemma {:induction false} LuhnIsChecksum(digits: seq<nat>)
    requires AllDigits(digits)
    ensures Checksum(digits) == Total(digits, 0)
  {
    hide Weight, Contribution;
    if digits != [] {
      WeightIsContribution(digits[0], |digits| - 1);
      TotalFromLeft(digits, 0);
      LuhnIsChecksum(digits[1..]);
    }
  }

  /** The checksum as computed: one pass from the right. */
  method ComputeLuhn(digits: seq<nat>) returns (ok: bool)
    ensures ok == LuhnOk(digits)
    ensures AllDigits(digits) ==> (ok <==> Checksum(digits) % 10 == 0)
  {
    if AllDigits(digits) {
      LuhnIsChecksum(digits);
    }
    var total := 0;
    assert digits[..|digits| - 0] == digits;
    for index := 0 to |digits|
      invariant total + Total(digits[..|digits| - index], index) == Total(digits, 0)
    {
      var rest := digits[..|digits| - index];
      assert rest[..|rest| - 1] == digits[..|digits| - (index + 1)];
      var value := digits[|digits| - 1 - index] as int;
      if index % 2 == 1 {
        value := value * 2;
        if value > 9 {
          value := value - 9;
        }
      }
      total := total + value;
    }
    ok := total % 10 == 0;
  }

  // ----- What the checksum detects -----

  predicate AllDigits(digits: seq<nat>) {
    forall j :: 0 <= j < |digits| ==> digits[j] < 10
  }

  lemma {:induction false} TotalAfterChange(digits: seq<nat>, index: nat, j: nat, digit: nat)
    requires j < |digits|
    ensures Total(digits[j := digit], index)
         == Total(digits, index)
            - Contribution(digits[j], index + |digits| - 1 - j)
            + Contribution(digit, index + |digits| - 1 - j)
    decreases |digits|
  {
    var n, changed := |digits| - 1, digits[j := digit];
    if j == n {
      assert changed[..n] == digits[..n];
    } else {
      assert changed[..n] == digits[..n][j := digit];
      TotalAfterChange(digits[..n], index + 1, j, digit);
    }
  }

  /** Changing one digit of an accepted string makes it rejected. */
  lemma {:induction false} OneWrongDigitIsDetected(digits: seq<nat>, j: nat, digit: nat)
    requires AllDigits(digits) && LuhnOk(digits)
    requires j < |digits| && digit < 10 && digit != digits[j]
    ensures !LuhnOk(digits[j := digit])
  {
    hide Total;
    var k := |digits| - 1 - j;
    TotalAfterChange(digits, 0, j, digit);
    DifferentContributions(digits[j], digit, k);
    AddToMultipleOfTen(Total(digits, 0), Contribution(digit, k) - Contribution(digits[j], k),
                       Total(digits[j := digit], 0));
  }

  lemma {:induction false} DifferentContributions(a: nat, b: nat, k: nat)
    requires a < 10 && b < 10 && a != b
    ensures (Contribution(b, k) - Contribution(a, k)) % 10 != 0
  {
  }

  predicate ZeroAndNine(a: nat, b: nat) {
    (a == 0 && b == 9) || (a == 9 && b == 0)
  }

  lemma {:induction false} SwapChange(a: nat, b: nat, k: nat)
    requires a < 10 && b < 10 && a != b
    ensures (Contribution(b, k + 1) - Contribution(a, k + 1) + Contribution(a, k) - Contribution(b, k)) % 10 == 0
       <==> ZeroAndNine(a, b)
  {
    assert (k + 1) % 2 == 0 <==> k % 2 != 0;
  }

  /** Swapping two different neighbours of an accepted string makes it rejected,
      except exactly when they are 0 and 9. */
  lemma {:induction false} SwapIsDetected(digits: seq<nat>, j: nat)
    requires AllDigits(digits) && LuhnOk(digits)
    requires j + 1 < |digits| && digits[j] != digits[j + 1]
    ensures LuhnOk(digits[j := digits[j + 1]][j + 1 := digits[j]]) <==> ZeroAndNine(digits[j], digits[j + 1])
  {
    var a, b, k := digits[j], digits[j + 1], |digits| - 2 - j;
    var half := digits[j := b];
    TotalAfterChange(digits, 0, j, b);
    TotalAfterChange(half, 0, j + 1, a);
    SwapChange(a, b, k);
    var change := Contribution(b, k + 1) - Contribution(a, k + 1) + Contribution(a, k) - Contribution(b, k);
    AddToMultipleOfTen(Total(digits, 0), change, Total(half[j + 1 := a], 0));
  }

  lemma AddToMultipleOfTen(total: int, change: int, sum: int)
    requires total % 10 == 0 && sum == total + change
    ensures sum % 10 == 0 <==> change % 10 == 0
  {
  }

  function CheckDigit(digits: seq<nat>): nat {
    (10 - Total(digits, 1) % 10) % 10
  }

  lemma {:induction false} TotalWithCheckDigit(digits: seq<nat>, digit: nat)
    ensures Total(digits + [digit], 0) == digit + Total(digits, 1)
  {
    assert (digits + [digit])[..|digits|] == digits;
  }

  /** Every prefix has exactly one accepting check digit. */
  lemma {:induction false} CheckDigitIsUnique(digits: seq<nat>)
    ensures CheckDigit(digits) < 10
    ensures forall digit: nat | digit < 10 :: LuhnOk(digits + [digit]) <==> digit == CheckDigit(digits)
  {
    forall digit: nat | digit < 10 ensures LuhnOk(digits + [digit]) <==> digit == CheckDigit(digits) {
      TotalWithCheckDigit(digits, digit);
    }
  }
}
