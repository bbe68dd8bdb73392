/** Numbers as the reader's regular expression has them, and what stands before one. */
module JsonNumbers {
  import opened Options
  import opened Decimal
  import opened Json
  import opened JsonRender

  /** The parts that the expression can match: `mark` is the `e` or `E` of an exponent. */
  datatype Numeral = Numeral(
    sign: string, digits: string, point: string, fraction: string, mark: string, expSign: string, expDigits: string)

  predicate WellFormed(n: Numeral) {
    && n.sign in {"", "+", "-"} && n.digits != [] && AllDigits(n.digits)
    && n.point in {"", "."} && AllDigits(n.fraction) && (n.point == "" ==> n.fraction == "")
    && n.mark in {"", "e", "E"} && n.expSign in {"", "+", "-"} && AllDigits(n.expDigits)
    && (if n.mark == "" then n.expSign == "" && n.expDigits == "" else n.expDigits != "")
  }

  function Exponent(n: Numeral): string {
    n.mark + n.expSign + n.expDigits
  }

  function Text(n: Numeral): string {
    n.sign + n.digits + (n.point + n.fraction) + Exponent(n)
  }

  lemma SignIs(json: string, sign: string, digits: string)
    requires sign in {"", "+", "-"} && digits != [] && AllDigits(digits)
    requires At(json, 0, sign) && At(json, |sign|, digits)
    ensures SignLen(json) == |sign| && json != []
  {
    assert digits[0] in digits;
    AtFirst(json, |sign|, digits);
    if sign != "" {
      AtFirst(json, 0, sign);
    }
  }

  lemma RunIs(json: string, i: nat, digits: string)
    requires At(json, i, digits) && AllDigits(digits)
    requires i + |digits| < |json| ==> !IsDigit(json[i + |digits|])
    ensures i <= |json| && DigitRun(json[i..]) == |digits|
  {
    AtFits(json, i, digits);
    AtShift(json, i, 0, digits);
    DigitRunIs(json[i..], digits);
  }

  lemma ExponentIs(json: string, i: nat, n: Numeral)
    requires WellFormed(n) && At(json, i, Exponent(n)) && EndsNumber(json, i + |Exponent(n)|)
    ensures i <= |json| && ExponentLen(json[i..]) == |Exponent(n)|
  {
    hide DigitRun;
    AtFits(json, i, Exponent(n));
    if n.mark == "" {
      NoExponent(json, i);
    } else {
      AtSplit(json, i, n.mark + n.expSign, n.expDigits);
      AtSplit(json, i, n.mark, n.expSign);
      AtFirst(json, i, n.mark);
      AtShift(json, i + 1, 0, n.expSign);
      AtShift(json, i + 1, |n.expSign|, n.expDigits);
      SignIs(json[i + 1..], n.expSign, n.expDigits);
      RunIs(json, i + 1 + |n.expSign|, n.expDigits);
      assert json[i..][1..] == json[i + 1..];
      assert json[i..][1 + |n.expSign|..] == json[i + 1 + |n.expSign|..];
    }
  }

  /** What follows the digits does not continue them. */
  lemma DigitsEnd(json: string, i: nat, n: Numeral)
    requires WellFormed(n) && At(json, i, n.point + n.fraction) && At(json, i + |n.point + n.fraction|, Exponent(n))
    requires EndsNumber(json, i + |n.point + n.fraction| + |Exponent(n)|)
    ensures i < |json| ==> !IsDigit(json[i]) && (json[i] == '.' <==> n.point == ".")
    ensures var j := i + |n.point + n.fraction|; j < |json| ==> !IsDigit(json[j])
  {
    var j := i + |n.point + n.fraction|;
    if n.mark != "" {
      AtFirst(json, j, Exponent(n));
    }
    if n.point == "." {
      AtFirst(json, i, n.point + n.fraction);
    } else {
      assert n.point + n.fraction == "";
    }
  }

  /** The longest match at the start of the text is the whole numeral. */
  lemma NumeralIsMatched(json: string, n: Numeral)
    requires WellFormed(n) && At(json, 0, Text(n)) && EndsNumber(json, |Text(n)|)
    ensures NumberLen(json) == |Text(n)| && json != []
  {
    hide NumberLen, DigitRun, ExponentLen, SignLen, At, EndsNumber, Exponent, AllDigits, Text;
    var i := |n.sign| + |n.digits|;
    TextParts(json, n);
    SignIs(json, n.sign, n.digits);
    DigitsEnd(json, i, n);
    RunIs(json, |n.sign|, n.digits);
    ExponentIs(json, i + |n.point + n.fraction|, n);
    FractionIs(json, i, n);
    PartsAdd(json, |n.sign|, |n.digits|, |n.point + n.fraction|, |Exponent(n)|);
  }

  lemma TextParts(json: string, n: Numeral)
    requires At(json, 0, Text(n))
    ensures At(json, 0, n.sign) && At(json, |n.sign|, n.digits)
    ensures At(json, |n.sign| + |n.digits|, n.point + n.fraction)
    ensures At(json, |n.sign| + |n.digits| + |n.point + n.fraction|, Exponent(n))
    ensures |Text(n)| == |n.sign| + |n.digits| + |n.point + n.fraction| + |Exponent(n)| <= |json|
  {
    hide At;
    AtFits(json, 0, Text(n));
    AtSplit(json, 0, n.sign + n.digits + (n.point + n.fraction), Exponent(n));
    AtSplit(json, 0, n.sign + n.digits, n.point + n.fraction);
    AtSplit(json, 0, n.sign, n.digits);
  }

  lemma FractionIs(json: string, i: nat, n: Numeral)
    requires WellFormed(n) && At(json, i, n.point + n.fraction) && i <= |json|
    requires i < |json| ==> (json[i] == '.' <==> n.point == ".")
    requires var j := i + |n.point + n.fraction|; j < |json| ==> !IsDigit(json[j])
    ensures |n.point + n.fraction|
            == if i < |json| && json[i] == '.' then 1 + DigitRun(json[i + 1..]) else 0
  {
    hide DigitRun;
    if n.point == "." {
      AtSplit(json, i, ".", n.fraction);
      AtFirst(json, i, ".");
      RunIs(json, i + 1, n.fraction);
    } else {
      assert n.point + n.fraction == "";
    }
  }

  lemma PartsAdd(json: string, a: nat, b: nat, c: nat, e: nat)
    requires a + b + c <= |json| && SignLen(json) == a && DigitRun(json[a..]) == b > 0
    requires c == if a + b < |json| && json[a + b] == '.' then 1 + DigitRun(json[a + b + 1..]) else 0
    requires ExponentLen(json[a + b + c..]) == e
    ensures NumberLen(json) == a + b + c + e
  {
    hide DigitRun, ExponentLen, SignLen;
  }

  /** Every numeral is eaten whole: an int if it has no fraction and no exponent and fits 32 bits,
      else a double if that can hold it. With a plus sign it is neither. */
  lemma NumeralReadsBack(fits: DoubleRange, json: string, n: Numeral)
    requires WellFormed(n) && At(json, 0, Text(n)) && EndsNumber(json, |Text(n)|)
    ensures var value: int := DigitsValue(n.digits);
            var v := if n.sign == "-" then -value else value;
            Parse(fits, json)
            == if n.sign != "+" && n.point == "" && n.mark == "" && -0x8000_0000 <= v < 0x8000_0000 then
                 Parsed(Int(v), |Text(n)|)
               else if n.sign != "+" && fits(Text(n)) then Parsed(Double(Text(n)), |Text(n)|)
               else NOTHING
  {
    NumeralIsMatched(json, n);
    AtPrefix(json, Text(n));
    hide NumberLen;
    assert SearchNumber(json) == Text(n);
    ParsedAsNumber(fits, json, n);
    OutcomeIs(fits, json, n);
  }

  lemma ParsedAsNumber(fits: DoubleRange, json: string, n: Numeral)
    requires WellFormed(n) && At(json, 0, Text(n))
    ensures Parse(fits, json) == ParseNumber(fits, json)
  {
    var start := n.sign + n.digits;
    assert n.digits[0] in n.digits;
    AtSplit(json, 0, start + (n.point + n.fraction), Exponent(n));
    AtSplit(json, 0, start, n.point + n.fraction);
    AtFirst(json, 0, start);
    assert Spaces(json) == 0;
  }

  lemma OutcomeIs(fits: DoubleRange, json: string, n: Numeral)
    requires WellFormed(n) && SearchNumber(json) == Text(n)
    ensures var value: int := DigitsValue(n.digits);
            var v := if n.sign == "-" then -value else value;
            ParseNumber(fits, json)
            == if n.sign != "+" && n.point == "" && n.mark == "" && -0x8000_0000 <= v < 0x8000_0000 then
                 Parsed(Int(v), |Text(n)|)
               else if n.sign != "+" && fits(Text(n)) then Parsed(Double(Text(n)), |Text(n)|)
               else NOTHING
  {
    hide SearchNumber, DigitsValue, IntOfText, WellFormed, AllDigits, Exponent;
    TextStarts(n);
    if n.point == "" && n.mark == "" {
      TextOfWhole(n);
      WholeIs(n.sign, n.digits);
    } else {
      NotWhole(n);
    }
  }

  lemma TextOfWhole(n: Numeral)
    requires WellFormed(n) && n.point == "" && n.mark == ""
    ensures Text(n) == n.sign + n.digits && n.sign in {"", "+", "-"} && n.digits != [] && AllDigits(n.digits)
  {
    assert n.sign + n.digits + "" + "" == n.sign + n.digits;
  }

  lemma TextStarts(n: Numeral)
    requires WellFormed(n)
    ensures Text(n) != [] && (Text(n)[0] == '+' <==> n.sign == "+")
  {
    assert n.digits[0] in n.digits;
  }

  lemma WholeIs(sign: string, digits: string)
    requires sign in {"", "+", "-"} && digits != [] && AllDigits(digits)
    ensures var value: int := DigitsValue(digits);
            var v := if sign == "-" then -value else value;
            IntOfText(sign + digits)
            == if sign != "+" && -0x8000_0000 <= v < 0x8000_0000 then Some(v) else None
  {
    hide DigitsValue;
    var s := sign + digits;
    assert digits[0] in digits;
    if sign == "-" {
      assert s[1..] == digits;
    } else if sign == "+" {
      assert s[0] == '+' && s[0] in s;
    } else {
      assert s == digits;
    }
  }

  lemma NotWhole(n: Numeral)
    requires WellFormed(n) && (n.point != "" || n.mark != "")
    ensures IntOfText(Text(n)) == None
  {
    hide DigitsValue;
    var s, k := Text(n), |n.sign| + |n.digits|;
    assert n.digits[0] in n.digits;
    assert s[k] == if n.point != "" then '.' else n.mark[0];
    assert k >= 1 && !IsDigit(s[k]) && s[k] in s && s[k] in s[1..] by {
      assert s[1..][k - 1] == s[k];
    }
  }

  // ---------- What stands before a number ----------

  predicate NoDigits(s: string) {
    forall c | c in s :: !IsDigit(c)
  }

  lemma NothingMatches(json: string)
    requires json != [] ==> !IsDigit(json[0])
    requires |json| > 1 && json[0] in {'+', '-'} ==> !IsDigit(json[1])
    ensures NumberLen(json) == 0
  {
  }

  lemma {:induction false} JunkIsSearched(json: string, k: nat)
    requires k <= |json| && NoDigits(json[..k]) && (k > 0 ==> k == |json| || json[k - 1] !in {'+', '-'})
    ensures SearchNumber(json) == SearchNumber(json[k..])
    decreases k
  {
    if k > 0 {
      assert json[0] == json[..k][0] && (k > 1 ==> json[1] == json[..k][1]);
      NothingMatches(json);
      assert json[1..][..k - 1] == json[..k][1..];
      assert json[1..][k - 1..] == json[k..];
      JunkIsSearched(json[1..], k - 1);
    }
  }

  /** The search goes past a sign that no digit follows, and what it finds later is taken for the
      number, though the count of characters eaten is that of the number alone. */
  lemma JunkIsSkipped(fits: DoubleRange, json: string, junk: string, n: Numeral)
    requires junk != [] && junk[0] in {'+', '-'} && NoDigits(junk) && junk[|junk| - 1] !in {'+', '-'}
    requires WellFormed(n) && At(json, 0, junk + Text(n)) && EndsNumber(json, |junk| + |Text(n)|)
    ensures |junk| < |json| && Parse(fits, json) == Parse(fits, json[|junk|..])
  {
    hide *;
    AtSplit(json, 0, junk, Text(n));
    AtPrefix(json, junk);
    AtFirst(json, 0, junk);
    TextStarts(n);
    AtFirst(json, |junk|, Text(n));
    AtShift(json, |junk|, 0, Text(n));
    JunkIsSearched(json, |junk|);
    ParsedAsNumber(fits, json[|junk|..], n);
    SignIsNumber(fits, json);
    SameSearch(fits, json, json[|junk|..]);
  }

  lemma SignIsNumber(fits: DoubleRange, json: string)
    requires json != [] && json[0] in {'+', '-'}
    ensures Parse(fits, json) == ParseNumber(fits, json)
  {
    assert Spaces(json) == 0;
  }

  lemma SameSearch(fits: DoubleRange, a: string, b: string)
    requires SearchNumber(a) == SearchNumber(b)
    ensures ParseNumber(fits, a) == ParseNumber(fits, b)
  {
    hide SearchNumber;
  }

  /** Without a digit there is no number. */
  lemma NoDigitNoNumber(fits: DoubleRange, json: string)
    requires json != [] && json[0] in {'+', '-'} && NoDigits(json)
    ensures Parse(fits, json) == NOTHING
  {
    assert json[..|json|] == json && json[|json|..] == [];
    JunkIsSearched(json, |json|);
    SignIsNumber(fits, json);
  }
}
