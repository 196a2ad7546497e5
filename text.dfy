/** Character and digit helpers shared by the script splitter and the provider:
    .NET's white-space test, the case-insensitive "GO" prefix test, the
    leftmost digit run that `Regex.Match(s, "([0-9]+)")` finds together with
    `int.Parse` of it, decimal formatting of integers, and one step of
    product arithmetic that the page and repeat counts share. */
module Text {

  datatype Option<T> = None | Some(value: T)

  /** `char.IsWhiteSpace`: U+0009..U+000D, U+0020, U+0085, U+00A0, U+1680,
      U+2000..U+200A, U+2028, U+2029, U+202F, U+205F and U+3000. */
  predicate IsWhiteSpace(c: char) {
    var n := c as int;
    (0x09 <= n <= 0x0D) || n == 0x20 || n == 0x85 || n == 0xA0 || n == 0x1680
    || (0x2000 <= n <= 0x200A) || n == 0x2028 || n == 0x2029 || n == 0x202F
    || n == 0x205F || n == 0x3000
  }

  /** `s.StartsWith("GO", StringComparison.OrdinalIgnoreCase)`: the first two
      characters are one of the four spellings of "GO". */
  predicate StartsWithGo(s: string) {
    |s| >= 2 && (s[0] == 'G' || s[0] == 'g') && (s[1] == 'O' || s[1] == 'o')
  }

  /** Case-insensitive: the prefixes accepted are exactly the four spellings of "GO". */
  lemma StartsWithGoSpellings(s: string)
    ensures StartsWithGo(s) <==> |s| >= 2 && s[..2] in {"GO", "Go", "gO", "go"}
  {
    assert |s| >= 2 ==> s[..2] == [s[0], s[1]];
  }

  /** `string.IsNullOrWhiteSpace` (a null string is not representable here).
      The empty string is blank, and a blank string never starts with "GO",
      so the two tests that skip a split element never both apply. */
  predicate IsBlank(s: string)
    ensures |s| == 0 ==> IsBlank(s)
    ensures IsBlank(s) ==> !StartsWithGo(s)
  {
    assert |s| > 0 ==> !IsWhiteSpace('G') && !IsWhiteSpace('g');
    forall i :: 0 <= i < |s| ==> IsWhiteSpace(s[i])
  }

  /** The regular-expression class `[0-9]`: ASCII digits only. */
  predicate IsDigit(c: char) {
    '0' <= c <= '9'
  }

  predicate AllDigits(s: string) {
    forall i :: 0 <= i < |s| ==> IsDigit(s[i])
  }

  function DigitValue(c: char): nat
    requires IsDigit(c)
  {
    c as int - '0' as int
  }

  function DigitChar(d: nat): (c: char)
    requires d < 10
    ensures IsDigit(c) && DigitValue(c) == d
  {
    ('0' as int + d) as char
  }

  /** `int.Parse` of a digit string, without the 32-bit overflow check. */
  function DigitsValue(ds: string): nat
    requires AllDigits(ds)
  {
    if |ds| == 0 then 0 else 10 * DigitsValue(ds[..|ds| - 1]) + DigitValue(ds[|ds| - 1])
  }

  /** Shortest decimal notation of n (what `ToString()` prints for a non-negative int). */
  function DecimalDigits(n: nat): (r: string)
    ensures |r| >= 1 && AllDigits(r)
    ensures DigitsValue(r) == n
    ensures |r| > 1 ==> r[0] != '0'
  {
    if n < 10 then [DigitChar(n)]
    else
      var front := DecimalDigits(n / 10);
      assert (front + [DigitChar(n % 10)])[..|front|] == front;
      front + [DigitChar(n % 10)]
  }

  /** Decimal notation of an int, with a leading '-' for a negative value. */
  function IntString(n: int): (r: string)
    ensures |r| >= 1
    ensures n >= 0 <==> IsDigit(r[0])
    ensures forall i :: 1 <= i < |r| ==> IsDigit(r[i])
    ensures n < 0 ==> r[0] == '-'
    ensures var digits := if n < 0 then r[1..] else r;
      AllDigits(digits) && DigitsValue(digits) == (if n < 0 then -n else n)
      && (|digits| > 1 ==> digits[0] != '0')
  {
    if n >= 0 then DecimalDigits(n)
    else
      assert ("-" + DecimalDigits(-n))[1..] == DecimalDigits(-n);
      "-" + DecimalDigits(-n)
  }

  /** Distributing a product over q + 1 and q - 1. */
  lemma MulSucc(q: int, k: int)
    ensures (q + 1) * k == q * k + k
    ensures (q - 1) * k == q * k - k
  {
  }

  /** Length of the run of digits at the front of s. */
  function DigitRunLength(s: string): (k: nat)
    ensures k <= |s| && AllDigits(s[..k])
    ensures k < |s| ==> !IsDigit(s[k])
  {
    if |s| > 0 && IsDigit(s[0]) then
      var k := 1 + DigitRunLength(s[1..]);
      assert s[..k] == [s[0]] + s[1..][..k - 1];
      k
    else 0
  }

  /** `Regex.Match(s, "([0-9]+)")` followed by `int.Parse(match.Value)`: the
      value of the leftmost, longest run of digits, or None when s has no digit. */
  function FirstDigitRun(s: string): (r: Option<nat>)
    ensures r.None? <==> (forall i :: 0 <= i < |s| ==> !IsDigit(s[i]))
  {
    if |s| == 0 then None
    else if IsDigit(s[0]) then Some(DigitsValue(s[..DigitRunLength(s)]))
    else
      var r := FirstDigitRun(s[1..]);
      assert forall i :: 1 <= i < |s| ==> s[i] == s[1..][i - 1];
      r
  }

  /** A digit run that is not followed by a digit is read back whole. */
  lemma {:induction false} DigitRunOfDigits(ds: string, rest: string)
    requires AllDigits(ds)
    requires |rest| > 0 ==> !IsDigit(rest[0])
    ensures DigitRunLength(ds + rest) == |ds|
  {
    if |ds| > 0 {
      assert (ds + rest)[1..] == ds[1..] + rest;
      DigitRunOfDigits(ds[1..], rest);
    }
  }

  /** A run of digits after a digit-free prefix, and not followed by a digit,
      is read back as its decimal value; leading zeros do not count, as with
      `int.Parse`. */
  lemma {:induction false} FirstDigitRunOfDigits(prefix: string, ds: string, rest: string)
    requires forall i :: 0 <= i < |prefix| ==> !IsDigit(prefix[i])
    requires |ds| > 0 && AllDigits(ds)
    requires |rest| > 0 ==> !IsDigit(rest[0])
    ensures FirstDigitRun(prefix + ds + rest) == Some(DigitsValue(ds))
  {
    var s := prefix + ds + rest;
    if |prefix| == 0 {
      assert s == ds + rest;
      DigitRunOfDigits(ds, rest);
      assert s[..|ds|] == ds;
    } else {
      assert s[1..] == prefix[1..] + ds + rest;
      FirstDigitRunOfDigits(prefix[1..], ds, rest);
    }
  }

  /** Writing n in decimal after a digit-free prefix and reading the first digit
      run back gives n again: formatting and `FirstDigitRun` are inverse. */
  lemma FirstDigitRunOfDecimal(prefix: string, n: nat, rest: string)
    requires forall i :: 0 <= i < |prefix| ==> !IsDigit(prefix[i])
    requires |rest| > 0 ==> !IsDigit(rest[0])
    ensures FirstDigitRun(prefix + DecimalDigits(n) + rest) == Some(n)
  {
    FirstDigitRunOfDigits(prefix, DecimalDigits(n), rest);
  }

  /** The separator `GO 05` counts 5: the leading zero is ignored. */
  lemma LeadingZeroDigitRun()
    ensures FirstDigitRun("GO 05") == Some(5)
  {
    assert "GO 05" == "GO " + "05" + "";
    FirstDigitRunOfDigits("GO ", "05", "");
    assert "05"[..1] == "0";
  }

  /** The longest prefix of s that does not contain stop. */
  function TakeUntil(s: string, stop: char): (r: string)
    ensures |r| <= |s| && r == s[..|r|]
    ensures forall i :: 0 <= i < |r| ==> r[i] != stop
    ensures |r| < |s| ==> s[|r|] == stop
  {
    if |s| == 0 || s[0] == stop then [] else [s[0]] + TakeUntil(s[1..], stop)
  }

  /** A field followed by its stop character is read back by TakeUntil. */
  lemma {:induction false} TakeUntilField(field: string, stop: char, rest: string)
    requires forall i :: 0 <= i < |field| ==> field[i] != stop
    ensures TakeUntil(field + [stop] + rest, stop) == field
  {
    if |field| > 0 {
      assert (field + [stop] + rest)[1..] == field[1..] + [stop] + rest;
      TakeUntilField(field[1..], stop, rest);
    }
  }
}
