/** Base62 rendering (allama/base62.py) and the tokens and API key previews built on it
    (allama/auth/crypto.py, allama/auth/api_keys.py). */
module Base62 {
  import opened Prelude

  /** The digits in order: 0-9, a-z, A-Z. */
  function CharOf(d: nat): char
    requires d < 62
  {
    if d < 10 then ('0' as int + d) as char
    else if d < 36 then ('a' as int + d - 10) as char
    else ('A' as int + d - 36) as char
  }

  /** The value of a digit, as the lookup table gives it. */
  function DigitOf(c: char): (d: Option<nat>)
    ensures d.Some? ==> d.value < 62 && CharOf(d.value) == c
  {
    if '0' <= c <= '9' then Some(c as int - '0' as int)
    else if 'a' <= c <= 'z' then Some(c as int - 'a' as int + 10)
    else if 'A' <= c <= 'Z' then Some(c as int - 'A' as int + 36)
    else None
  }

  const NUMERALS := "0123456789"
  const SMALL := "abcdefghijklmnopqrstuvwxyz"
  const CAPITALS := "ABCDEFGHIJKLMNOPQRSTUVWXYZ"

  /** The digits are the numerals, the small letters and the capitals, in this order. */
  lemma DigitsAreAlphabet(d: nat)
    requires d < 62
    ensures |NUMERALS + SMALL + CAPITALS| == 62 && CharOf(d) == (NUMERALS + SMALL + CAPITALS)[d]
  {
    if d < 10 {
      assert NUMERALS[d] as int == '0' as int + d;
    } else if d < 36 {
      SmallAt(d - 10);
    } else {
      CapitalAt(d - 36);
    }
  }

  lemma SmallAt(k: nat)
    requires k < 26
    ensures SMALL[k] as int == 'a' as int + k
  {
  }

  lemma CapitalAt(k: nat)
    requires k < 26
    ensures CAPITALS[k] as int == 'A' as int + k
  {
  }

  lemma DigitOfChar(d: nat)
    requires d < 62
    ensures DigitOf(CharOf(d)) == Some(d)
  {
  }

  /** The value of a digit string, most significant digit first. */
  function ValueOf(s: string): Option<nat> {
    if s == "" then Some(0)
    else match (ValueOf(s[..|s| - 1]), DigitOf(s[|s| - 1]))
         case (Some(v), Some(d)) => Some(v * 62 + d)
         case _ => None
  }

  method Decode(encoded: string) returns (num: Option<nat>)
    ensures num == ValueOf(encoded)
  {
    var n: nat := 0;
    for i := 0 to |encoded|
      invariant ValueOf(encoded[..i]) == Some(n)
    {
      var d := DigitOf(encoded[i]);
      assert encoded[..i + 1][..i] == encoded[..i];
      if d.None? {
        InvalidStays(encoded, i + 1);
        return None;
      }
      n := n * 62 + d.value;
    }
    assert encoded[..|encoded|] == encoded;
    return Some(n);
  }

  lemma {:induction false} InvalidStays(s: string, k: nat)
    requires k <= |s| && ValueOf(s[..k]).None?
    ensures ValueOf(s).None?
    decreases |s|
  {
    if k == |s| {
      assert s[..k] == s;
    } else {
      assert s[..|s| - 1][..k] == s[..k];
      InvalidStays(s[..|s| - 1], k);
    }
  }

  /** The digits of a positive number; nothing for zero. */
  function Digits(n: nat): string {
    if n == 0 then "" else Digits(n / 62) + [CharOf(n % 62)]
  }

  function Render(n: nat): string {
    if n == 0 then "0" else Digits(n)
  }

  ghost function Reversed(s: string): (r: string)
    ensures |r| == |s| && forall i :: 0 <= i < |s| ==> r[i] == s[|s| - 1 - i]
  {
    if s == "" then "" else Reversed(s[1..]) + [s[0]]
  }

  /** Digits are collected backwards and reversed; a negative number is refused. */
  method Encode(num: int) returns (r: Option<string>)
    ensures r == if num < 0 then None else Some(Render(num))
  {
    if num < 0 {
      return None;
    }
    if num == 0 {
      return Some("0");
    }
    var n, encoded := num, "";
    while n != 0
      invariant n >= 0
      invariant Digits(n) + Reversed(encoded) == Digits(num)
    {
      ghost var before := encoded;
      encoded := encoded + [CharOf(n % 62)];
      assert Reversed(encoded) == [CharOf(n % 62)] + Reversed(before);
      n := n / 62;
    }
    var s := "";
    for i := 0 to |encoded|
      invariant |s| == i && forall k :: 0 <= k < i ==> s[k] == encoded[|encoded| - 1 - k]
    {
      s := s + [encoded[|encoded| - 1 - i]];
    }
    assert s == Reversed(encoded) == "" + Reversed(encoded);
    return Some(s);
  }

  // ------------------------------------------------- mutual inverses

  lemma {:induction false} DecodeDigits(n: nat)
    ensures ValueOf(Digits(n)) == Some(n)
    ensures n > 0 ==> Digits(n) != "" && Digits(n)[0] != '0'
  {
    if n > 0 {
      DecodeDigits(n / 62);
      DigitOfChar(n % 62);
      var s := Digits(n);
      assert s[..|s| - 1] == Digits(n / 62);
    }
  }

  /** Decoding undoes encoding, on every number. */
  lemma DecodeEncode(n: nat)
    ensures ValueOf(Render(n)) == Some(n)
  {
    DecodeDigits(n);
    assert "0"[..0] == "";
  }

  ghost predicate Canonical(s: string) {
    s == "0" || (s != "" && s[0] != '0')
  }

  lemma {:induction false} DigitsOfValue(s: string)
    requires ValueOf(s).Some? && (s == "" || s[0] != '0')
    ensures Digits(ValueOf(s).value) == s
    ensures s != "" ==> ValueOf(s).value > 0
  {
    if s != "" {
      var t := s[..|s| - 1];
      DigitsOfValue(t);
      var v, d := ValueOf(t).value, DigitOf(s[|s| - 1]).value;
      assert (v * 62 + d) / 62 == v && (v * 62 + d) % 62 == d;
      assert s == t + [s[|s| - 1]];
    }
  }

  /** Encoding undoes decoding exactly on "0" and the strings without a leading zero. */
  lemma EncodeDecode(s: string)
    requires ValueOf(s).Some?
    ensures Render(ValueOf(s).value) == s <==> Canonical(s)
  {
    var n := ValueOf(s).value;
    if s == "0" {
      assert s[..0] == "";
    } else if Canonical(s) {
      DigitsOfValue(s);
    } else {
      DecodeDigits(n);
    }
  }

  // ------------------------------------------------- lengths

  function Pow(base: nat, k: nat): nat {
    if k == 0 then 1 else base * Pow(base, k - 1)
  }

  lemma {:induction false} DigitsLength(n: nat, k: nat)
    ensures |Digits(n)| <= k <==> n < Pow(62, k)
    decreases k
  {
    if k > 0 && n > 0 {
      DigitsLength(n / 62, k - 1);
      assert |Digits(n)| == |Digits(n / 62)| + 1;
      assert n < 62 * Pow(62, k - 1) <==> n / 62 < Pow(62, k - 1);
    } else {
      PowPositive(62, k);
    }
  }

  lemma {:induction false} PowPositive(base: nat, k: nat)
    requires base > 0
    ensures Pow(base, k) > 0
  {
    if k > 0 {
      PowPositive(base, k - 1);
      Product(base, Pow(base, k - 1));
    }
  }

  lemma Product(x: nat, y: nat)
    requires x > 0 && y > 0
    ensures x * y > 0
  {
  }

  /** `k` digits are enough exactly for the numbers below 62 to the k. */
  lemma EncodedLength(n: nat, k: nat)
    requires k >= 1
    ensures |Render(n)| <= k <==> n < Pow(62, k)
  {
    DigitsLength(n, k);
    PowPositive(62, k);
  }

  lemma Horner(x: nat, p: nat, y: nat, d: nat)
    ensures (x * p + y) * 62 + d == x * (62 * p) + (y * 62 + d)
  {
  }

  /** Strings are read most significant digit first: the first part counts 62 to the number
      of digits after it. */
  lemma {:induction false} ValueOfConcat(a: string, b: string)
    requires ValueOf(a).Some? && ValueOf(b).Some?
    ensures ValueOf(a + b) == Some(ValueOf(a).value * Pow(62, |b|) + ValueOf(b).value)
    decreases |b|
  {
    if b == "" {
      assert a + b == a;
    } else {
      var c := b[..|b| - 1];
      ValueOfConcat(a, c);
      assert (a + b)[..|a + b| - 1] == a + c;
      assert (a + b)[|a + b| - 1] == b[|b| - 1];
      Horner(ValueOf(a).value, Pow(62, |c|), ValueOf(c).value, DigitOf(b[|b| - 1]).value);
    }
  }

  // ------------------------------------------------- tokens and previews

  const API_KEY_PREVIEW_LENGTH := 4

  /** A token over the random number `num`. */
  function GenerateToken(prefix: string, num: nat): string {
    prefix + Render(num)
  }

  function MakePreview(raw: string, prefix: string): Option<string> {
    if !(prefix <= raw) then None
    else if |raw| < |prefix| + API_KEY_PREVIEW_LENGTH then None
    else Some(prefix + "..." + raw[|raw| - API_KEY_PREVIEW_LENGTH..])
  }

  /** A preview exists exactly for a key with the prefix and four characters after it, and
      is the prefix, three dots and the last four characters. */
  lemma PreviewOfKey(raw: string, prefix: string)
    ensures MakePreview(raw, prefix).Some? <==> prefix <= raw && |raw| >= |prefix| + 4
    ensures forall front, tail :: raw == front + tail && |tail| == 4 && prefix <= front ==>
              MakePreview(raw, prefix) == Some(prefix + "..." + tail)
  {
    forall front, tail | raw == front + tail && |tail| == 4 && prefix <= front
      ensures MakePreview(raw, prefix) == Some(prefix + "..." + tail)
    {
      assert raw[|raw| - 4..] == tail;
    }
  }

  /** A token is its prefix followed by digits that decode to the random number. */
  lemma TokenDecodes(prefix: string, num: nat)
    ensures prefix <= GenerateToken(prefix, num)
    ensures ValueOf(GenerateToken(prefix, num)[|prefix|..]) == Some(num)
  {
    DecodeEncode(num);
    assert GenerateToken(prefix, num)[|prefix|..] == Render(num);
  }

  /** The preview of a fresh key exists exactly when its number has four digits or more,
      and shows the last four of them. */
  lemma PreviewOfToken(prefix: string, num: nat)
    ensures MakePreview(GenerateToken(prefix, num), prefix).Some? <==> num >= Pow(62, 3)
    ensures num >= Pow(62, 3) ==>
              MakePreview(GenerateToken(prefix, num), prefix)
              == Some(prefix + "..." + Render(num)[|Render(num)| - 4..])
  {
    EncodedLength(num, 3);
    var raw := GenerateToken(prefix, num);
    assert raw[..|prefix|] == prefix;
    if num >= Pow(62, 3) {
      assert raw[|raw| - 4..] == Render(num)[|Render(num)| - 4..];
    }
  }

  lemma {:induction false} PowSum(base: nat, j: nat, k: nat)
    ensures Pow(base, j + k) == Pow(base, j) * Pow(base, k)
  {
    if j > 0 {
      PowSum(base, j - 1, k);
      Reassociate(base, Pow(base, j - 1), Pow(base, k));
    }
  }

  lemma Reassociate(x: nat, y: nat, z: nat)
    ensures x * (y * z) == (x * y) * z
  {
  }

  /** Squaring a known power. */
  lemma PowTwice(base: nat, k: nat, value: nat, square: nat)
    requires Pow(base, k) == value && value * value == square
    ensures Pow(base, k + k) == square
  {
    PowSum(base, k, k);
  }

  lemma Pow62At40()
    ensures Pow(62, 40) == 496212362459367066914366580195701544604991251555593230875525121862270976
  {
    assert Pow(62, 5) == 916132832;
    PowTwice(62, 5, 916132832, 839299365868340224);
    PowTwice(62, 10, 839299365868340224, 704423425546998022968330264616370176);
    PowTwice(62, 20, 704423425546998022968330264616370176,
             496212362459367066914366580195701544604991251555593230875525121862270976);
  }

  lemma Pow2At256()
    ensures Pow(2, 256) == 115792089237316195423570985008687907853269984665640564039457584007913129639936
  {
    assert Pow(2, 8) == 256;
    PowTwice(2, 8, 256, 65536);
    PowTwice(2, 16, 65536, 4294967296);
    PowTwice(2, 32, 4294967296, 18446744073709551616);
    PowTwice(2, 64, 18446744073709551616, 340282366920938463463374607431768211456);
    PowTwice(2, 128, 340282366920938463463374607431768211456,
             115792089237316195423570985008687907853269984665640564039457584007913129639936);
  }

  /** 32 random bytes need at most 43 digits. */
  lemma TokenLength(prefix: string, num: nat)
    requires num < Pow(2, 256)
    ensures |GenerateToken(prefix, num)| <= |prefix| + 43
  {
    Pow2At256();
    Pow62At40();
    assert Pow(62, 43) == 62 * 62 * 62 * Pow(62, 40);
    EncodedLength(num, 43);
  }
}
