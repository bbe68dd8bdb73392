/** Decimal text of integers, as `operator<<` prints it and `from_chars` and `stoi` read it. */
module Decimal {
  import opened Options

  type int32 = n: int | -0x8000_0000 <= n < 0x8000_0000

  const VT: char := 11 as char
  const FF: char := 12 as char

  /** White space, as `isspace` and `stoi` have it. The reader's `" \n\r\t\v\f\0"` is the same,
      as the C string ends before its `\0`. */
  predicate IsSpace(c: char) {
    c in {' ', '\n', '\r', '\t', VT, FF}
  }

  predicate IsDigit(c: char) {
    '0' <= c <= '9'
  }

  predicate AllDigits(s: string) {
    forall c | c in s :: IsDigit(c)
  }

  function Digits(n: nat): (s: string)
    ensures s != [] && AllDigits(s)
    ensures DigitsValue(s) == n
  {
    var last := ['0' + (n % 10) as char];
    if n < 10 then last else
    var s := Digits(n / 10) + last;
    assert s[..|s| - 1] == Digits(n / 10);
    s
  }

  function DigitsValue(s: string): nat
    requires AllDigits(s)
  {
    if s == [] then 0 else
    assert s[|s| - 1] in s;
    10 * DigitsValue(s[..|s| - 1]) + (s[|s| - 1] as int - '0' as int)
  }

  /** The last digit is the lowest, in writing and in reading, and no number but 0 begins with
      a 0. */
  lemma DigitsByTens(n: nat, d: nat, s: string)
    requires d < 10 && AllDigits(s)
    ensures Digits(10 * n + d) == (if n == 0 then "" else Digits(n)) + ["0123456789"[d]]
    ensures AllDigits(s + ["0123456789"[d]])
    ensures DigitsValue(s + ["0123456789"[d]]) == 10 * DigitsValue(s) + d
    ensures DigitsValue("") == 0
  {
    assert (10 * n + d) / 10 == n && (10 * n + d) % 10 == d;
    assert (s + ['0' + d as char])[..|s|] == s;
  }

  function IntText(n: int): string {
    if n < 0 then "-" + Digits(-n) else Digits(n)
  }

  /** The number of digits that `s` starts with. */
  function DigitRun(s: string): (k: nat)
    ensures k <= |s|
  {
    if s == [] || !IsDigit(s[0]) then 0 else 1 + DigitRun(s[1..])
  }

  /** `from_chars` into an int that must use up all of `s`: an optional minus, digits, in range. */
  function IntOfText(s: string): Option<int32> {
    var minus := s != [] && s[0] == '-';
    var body := if minus then s[1..] else s;
    if body == [] || !AllDigits(body) then None else
    var v: int := DigitsValue(body);
    var n := if minus then -v else v;
    if -0x8000_0000 <= n < 0x8000_0000 then Some(n) else None
  }

  lemma IntTextRoundTrip(n: int32)
    ensures IntOfText(IntText(n)) == Some(n)
  {
    if n >= 0 {
      assert Digits(n)[0] in Digits(n);
    }
  }
}
