/** Decimal rendering of a natural number, as Python's str() and f-strings give it. */
module Decimal {

  const DIGITS := "0123456789"

  function Render(n: nat): (s: string)
    ensures s != [] && (n < 10 ==> |s| == 1)
  {
    if n < 10 then [DIGITS[n]] else Render(n / 10) + [DIGITS[n % 10]]
  }

  /** The number that a string of digits denotes, most significant digit first. */
  function Reading(s: string): int {
    if s == "" then 0 else 10 * Reading(s[..|s| - 1]) + (s[|s| - 1] as int - '0' as int)
  }

  /** A rendering consists of the ten digits, has no leading zero and reads as its number. */
  lemma {:induction false} RenderReads(n: nat)
    ensures Reading(Render(n)) == n
    ensures forall i :: 0 <= i < |Render(n)| ==> '0' <= Render(n)[i] <= '9'
    ensures n > 0 ==> Render(n)[0] != '0'
  {
    var s := Render(n);
    if n < 10 {
      DigitChar(n);
      assert s[..0] == "" && s[0] == DIGITS[n];
    } else {
      RenderReads(n / 10);
      DigitChar(n % 10);
      assert s[..|s| - 1] == Render(n / 10) && s[|s| - 1] == DIGITS[n % 10];
    }
  }

  lemma DigitChar(d: nat)
    requires d < 10
    ensures DIGITS[d] as int == '0' as int + d
  {
  }

  /** Rendering is injective: the last digit and the digits before it determine the number. */
  lemma {:induction false} RenderInjective(m: nat, n: nat)
    ensures Render(m) == Render(n) ==> m == n
  {
    if Render(m) == Render(n) {
      DigitsDistinct(m % 10, n % 10);
      var s := Render(m);
      assert s[|s| - 1] == DIGITS[m % 10] && s[|s| - 1] == DIGITS[n % 10];
      if 10 <= m && 10 <= n {
        assert Render(m / 10) == s[..|s| - 1] == Render(n / 10);
        RenderInjective(m / 10, n / 10);
      }
    }
  }

  lemma DigitsDistinct(a: nat, b: nat)
    requires a < 10 && b < 10
    ensures DIGITS[a] == DIGITS[b] ==> a == b
  {
  }

  /** A number of two digits or more is well above its digit count. */
  lemma {:induction false} LengthBound(n: nat)
    ensures 10 <= n ==> 2 <= |Render(n)| <= n / 10 + 1
    ensures 10 <= n < 100 ==> |Render(n)| == 2
    ensures 100 <= n ==> 3 <= |Render(n)|
  {
    if 10 <= n {
      LengthBound(n / 10);
    }
  }
}
