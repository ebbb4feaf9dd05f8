/** Decimal printing and parsing of fixed-width integers
    (src/chromium/string_number_conversions.cc).

    The two widths of the program are given by `half`, the number of negative values of
    the signed type: 2^31 or 2^63. */
module NumberConversions {
  import opened Wrappers

  const HALF_32: int := 0x8000_0000
  const HALF_64: int := 0x8000_0000_0000_0000

  predicate IsWidth(half: int) {
    half == HALF_32 || half == HALF_64
  }

  predicate IsDigit(c: char) {
    '0' <= c <= '9'
  }

  function DigitOf(c: char): (d: nat)
    requires IsDigit(c)
    ensures d < 10
  {
    c as int - '0' as int
  }

  function DigitChar(d: nat): (c: char)
    requires d < 10
    ensures IsDigit(c) && DigitOf(c) == d
  {
    '0' + d as char
  }

  predicate AllDigits(s: string) {
    forall i :: 0 <= i < |s| ==> IsDigit(s[i])
  }

  /** The number a digit string denotes. */
  function DecimalValue(s: string): nat
    requires AllDigits(s)
  {
    if s == [] then 0 else DecimalValue(s[..|s| - 1]) * 10 + DigitOf(s[|s| - 1])
  }

  /** The shortest digit string of a number. */
  function DecimalText(n: nat): (s: string)
    ensures |s| > 0 && AllDigits(s)
  {
    if n < 10 then [DigitChar(n)] else DecimalText(n / 10) + [DigitChar(n % 10)]
  }

  function IntText(v: int): string {
    if v < 0 then "-" + DecimalText(-v) else DecimalText(v)
  }

  /** How many digits `s` starts with. */
  function LeadingDigits(s: string): (n: nat)
    ensures n <= |s| && AllDigits(s[..n])
    ensures forall i :: 0 <= i < n ==> IsDigit(s[i])
    ensures n < |s| ==> !IsDigit(s[n])
  {
    if s == [] || !IsDigit(s[0]) then 0
    else
      var n := LeadingDigits(s[1..]);
      assert forall i :: 1 <= i < 1 + n ==> s[i] == s[1..][i - 1];
      1 + n
  }

  /** An optional sign followed by at least one digit and nothing else. */
  predicate IsIntLiteral(s: string) {
    var digits := if |s| > 0 && (s[0] == '-' || s[0] == '+') then s[1..] else s;
    |digits| > 0 && AllDigits(digits)
  }

  function LiteralValue(s: string): int
    requires IsIntLiteral(s)
  {
    if s[0] == '-' then 0 - DecimalValue(s[1..])
    else if s[0] == '+' then DecimalValue(s[1..])
    else DecimalValue(s)
  }

  /** What a caller that looks at the output only on success learns. */
  function ParseInt(s: string, half: int): Option<int> {
    if IsIntLiteral(s) && -half <= LiteralValue(s) < half then Some(LiteralValue(s)) else None
  }

  predicate IsSpace(c: char) {
    c == ' ' || 9 <= c as int <= 13
  }

  // ---- Printing -------------------------------------------------------------------------

  /** Two's complement wrap-around to the signed type. */
  function WrapSigned(x: int, half: int): int
    requires half > 0
  {
    (x + half) % (2 * half) - half
  }

  /** `static_cast<UINT>(value < 0 ? -value : value)`, the negation wrapping around. */
  function ToUnsigned(value: int, half: int, isSigned: bool): int
    requires half > 0
  {
    (if isSigned && value < 0 then WrapSigned(-value, half) else value) % (2 * half)
  }

  lemma WrapAround(x: int, q: int, r: int, m: int)
    requires 0 <= r < m && x == q * m + r
    ensures x % m == r
  {
    var d := x / m - q;
    assert d * m == r - x % m;
    assert d > 0 ==> d * m >= m;
    assert d < 0 ==> d * m <= -m;
  }

  /** The magnitude is right for every value, the minimum included. */
  lemma ToUnsignedIsMagnitude(value: int, half: int, isSigned: bool)
    requires IsWidth(half)
    requires if isSigned then -half <= value < half else 0 <= value < 2 * half
    ensures ToUnsigned(value, half, isSigned) == if value < 0 then -value else value
  {
    var m := 2 * half;
    if isSigned && value == -half {
      assert WrapSigned(-value, half) == -half by { WrapAround(2 * half, 1, 0, m); }
      WrapAround(-half, -1, half, m);
    } else if isSigned && value < 0 {
      WrapAround(half - value, 0, half - value, m);
      WrapAround(-value, 0, -value, m);
    } else {
      WrapAround(value, 0, value, m);
    }
  }

  function Pow10(n: nat): (p: nat)
    ensures p > 0
    ensures n > 0 ==> p >= 10
  {
    if n == 0 then 1 else 10 * Pow10(n - 1)
  }

  lemma {:induction false} DecimalTextLength(n: nat, digits: nat)
    requires digits > 0 && n < Pow10(digits)
    ensures |DecimalText(n)| <= digits
  {
    if n >= 10 {
      DecimalTextLength(n / 10, digits - 1);
    }
  }

  function BufferSize(half: int): nat {
    3 * (if half == HALF_32 then 4 else 8) + 1
  }

  /** Three characters a byte leave room for every magnitude, a sign and one spare. */
  lemma BufferFits(half: int, magnitude: nat)
    requires IsWidth(half) && magnitude < 2 * half
    ensures |DecimalText(magnitude)| + 3 <= BufferSize(half)
  {
    assert Pow10(10) == 10_000_000_000;
    if half == HALF_32 {
      DecimalTextLength(magnitude, 10);
    } else {
      assert Pow10(20) == 100_000_000_000_000_000_000;
      DecimalTextLength(magnitude, 20);
    }
  }

  /** Printing takes the last digit off first. */
  lemma LastDigit(n: nat, written: string)
    ensures DecimalText(n) + written
         == (if n / 10 == 0 then "" else DecimalText(n / 10)) + ([DigitChar(n % 10)] + written)
    ensures |DecimalText(n)| == (if n / 10 == 0 then 0 else |DecimalText(n / 10)|) + 1
  {
  }

  method IntToString(value: int, half: int, isSigned: bool) returns (s: string)
    requires IsWidth(half)
    requires if isSigned then -half <= value < half else 0 <= value < 2 * half
    ensures s == IntText(value)
  {
    hide DecimalText, ToUnsigned, BufferSize, DigitChar, AllDigits, IsDigit, DigitOf;
    ToUnsignedIsMagnitude(value, half, isSigned);
    var outbuf := new char[BufferSize(half)];
    var isNegative := isSigned && value < 0;
    var res: nat := ToUnsigned(value, half, isSigned);
    ghost var magnitude: nat := res;
    BufferFits(half, magnitude);
    var it := outbuf.Length;
    ghost var written := "";
    while true
      invariant 0 <= it <= outbuf.Length && written == outbuf[it..]
      invariant |DecimalText(res)| + 3 <= it
      invariant DecimalText(magnitude) == DecimalText(res) + written
      decreases it
    {
      LastDigit(res, written);
      it := it - 1;
      outbuf[it] := DigitChar(res % 10);
      written := [DigitChar(res % 10)] + written;
      res := res / 10;
      if res == 0 {
        if isNegative {
          it := it - 1;
          outbuf[it] := '-';
          written := "-" + written;
        }
        return outbuf[it..];
      }
    }
  }

  // ---- Parsing --------------------------------------------------------------------------

  lemma {:induction false} DecimalValueGrows(s: string, i: nat, j: nat)
    requires AllDigits(s) && i <= j <= |s|
    ensures DecimalValue(s[..i]) <= DecimalValue(s[..j])
    decreases j
  {
    if i < j {
      assert s[..j][..j - 1] == s[..j - 1];
      DecimalValueGrows(s, i, j - 1);
    }
  }

  lemma PrefixGrows(s: string, i: nat)
    requires i <= LeadingDigits(s)
    ensures DecimalValue(s[..i]) <= DecimalValue(s[..LeadingDigits(s)])
  {
    var digits := s[..LeadingDigits(s)];
    assert digits[..i] == s[..i] && digits[..|digits|] == digits;
    DecimalValueGrows(digits, i, |digits|);
  }

  function Limit(negative: bool, half: int): int
    requires half > 0
  {
    if negative then half else half - 1
  }

  function Signed(negative: bool, magnitude: int): int {
    if negative then -magnitude else magnitude
  }

  /** C++ division and remainder, which truncate toward zero. */
  function TruncDiv(a: int, b: int): int
    requires b > 0
  {
    if a >= 0 then a / b else -((-a) / b)
  }

  function TruncMod(a: int, b: int): int
    requires b > 0
  {
    a - b * TruncDiv(a, b)
  }

  /** The digit loop shared by both signs. The output is the signed value of the leading
      digits, saturated at the limit of that sign; no intermediate result leaves the type. */
  method ParseMagnitude(s: string, negative: bool, half: int) returns (ok: bool, output: int)
    requires IsWidth(half)
    ensures var digits := s[..LeadingDigits(s)]; var limit := Limit(negative, half);
            && ok == (|s| > 0 && |digits| == |s| && DecimalValue(digits) <= limit)
            && output == Signed(negative, if DecimalValue(digits) <= limit then DecimalValue(digits) else limit)
  {
    output := 0;
    if |s| == 0 {
      return false, output;
    }
    var max, min := half - 1, -half;
    var current := 0;
    while current < |s|
      invariant current <= LeadingDigits(s)
      invariant DecimalValue(s[..current]) <= Limit(negative, half)
      invariant output == Signed(negative, DecimalValue(s[..current]))
    {
      if !IsDigit(s[current]) {
        return false, output;
      }
      var newDigit := DigitOf(s[current]);
      assert s[..current + 1][..current] == s[..current];
      if current != 0 {
        var overflow := if negative
          then output < TruncDiv(min, 10) || (output == TruncDiv(min, 10) && newDigit > 0 - TruncMod(min, 10))
          else output > max / 10 || (output == max / 10 && newDigit > max % 10);
        if overflow {
          assert DecimalValue(s[..current + 1]) > Limit(negative, half);
          PrefixGrows(s, current + 1);
          output := if negative then min else max;
          return false, output;
        }
        output := output * 10;
        assert min <= output <= max;
      }
      output := if negative then output - newDigit else output + newDigit;
      assert min <= output <= max;
      current := current + 1;
    }
    assert s[..|s|] == s;
    return true, output;
  }

  function SkipSpace(s: string): (n: nat)
    ensures n <= |s|
    ensures n > 0 ==> IsSpace(s[0])
    ensures n < |s| ==> !IsSpace(s[n])
  {
    if s == [] || !IsSpace(s[0]) then 0 else 1 + SkipSpace(s[1..])
  }

  /** The number read after an optional sign, saturated. */
  function SaturatedSigned(t: string, half: int): int
    requires IsWidth(half)
  {
    var negative := |t| > 0 && t[0] == '-';
    var u := if |t| > 0 && (t[0] == '-' || t[0] == '+') then t[1..] else t;
    var magnitude := DecimalValue(u[..LeadingDigits(u)]);
    Signed(negative, if magnitude <= Limit(negative, half) then magnitude else Limit(negative, half))
  }

  /** The sign test that follows the white space. */
  method ParseSigned(t: string, half: int) returns (valid: bool, output: int)
    requires IsWidth(half)
    ensures valid == ParseInt(t, half).Some?
    ensures valid ==> Some(output) == ParseInt(t, half)
    ensures output == SaturatedSigned(t, half)
  {
    var negative := |t| > 0 && t[0] == '-';
    var u := if |t| > 0 && (t[0] == '-' || t[0] == '+') then t[1..] else t;
    WholeRun(u);
    valid, output := ParseMagnitude(u, negative, half);
  }

  /** The white-space loop. */
  method SkipSpaces(s: string) returns (begin: nat)
    ensures begin == SkipSpace(s)
  {
    begin := 0;
    assert s[0..] == s;
    while begin < |s| && IsSpace(s[begin])
      invariant begin <= |s| && begin + SkipSpace(s[begin..]) == SkipSpace(s)
    {
      assert s[begin..][1..] == s[begin + 1..];
      begin := begin + 1;
    }
  }

  /** White space in front is skipped, but makes the whole text invalid. */
  lemma LeadingSpaceInvalid(s: string, half: int)
    ensures if SkipSpace(s) > 0 then ParseInt(s, half) == None else s[SkipSpace(s)..] == s
  {
    if SkipSpace(s) > 0 {
      assert !IsDigit(s[0]) && s[0] != '-' && s[0] != '+';
    }
  }

  method StringToInt(s: string, half: int) returns (valid: bool, output: int)
    requires IsWidth(half)
    ensures valid == ParseInt(s, half).Some?
    ensures valid ==> Some(output) == ParseInt(s, half)
    ensures output == SaturatedSigned(s[SkipSpace(s)..], half)
  {
    var begin := SkipSpaces(s);
    LeadingSpaceInvalid(s, half);
    valid, output := ParseSigned(s[begin..], half);
    if begin > 0 {
      valid := false;
    }
  }

  lemma WholeRun(s: string)
    ensures AllDigits(s) <==> LeadingDigits(s) == |s|
    ensures s[..|s|] == s
  {
    if LeadingDigits(s) == |s| {
      assert s[..|s|] == s;
    }
  }

  // ---- Round trip -----------------------------------------------------------------------

  lemma {:induction false} DecimalRoundTrip(n: nat)
    ensures DecimalValue(DecimalText(n)) == n
  {
    if n >= 10 {
      DecimalRoundTrip(n / 10);
      var s := DecimalText(n);
      assert s[..|s| - 1] == DecimalText(n / 10);
    }
  }

  /** Printed numbers carry no superfluous zero in front. */
  lemma {:induction false} DecimalTextStart(n: nat)
    ensures DecimalText(n)[0] == '0' <==> n == 0
    ensures n == 0 ==> |DecimalText(n)| == 1
  {
    if n >= 10 {
      DecimalTextStart(n / 10);
      assert DecimalText(n)[0] == DecimalText(n / 10)[0];
    }
  }

  lemma IntRoundTrip(v: int, half: int)
    requires IsWidth(half) && -half <= v < half
    ensures ParseInt(IntText(v), half) == Some(v)
  {
    hide DecimalText, DecimalValue;
    if v < 0 {
      DecimalRoundTrip(-v);
      assert IntText(v)[1..] == DecimalText(-v);
    } else {
      DecimalRoundTrip(v);
    }
  }

  /** Parsing the printed form of any value of either width returns it. */
  method PrintThenParse(v: int, half: int) returns (valid: bool, output: int)
    requires IsWidth(half) && -half <= v < half
    ensures valid && output == v
  {
    var text := IntToString(v, half, true);
    IntRoundTrip(v, half);
    valid, output := StringToInt(text, half);
  }
}
