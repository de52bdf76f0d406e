/** The integer handling shared by the listing routes: JavaScript's `parseInt`, the
    `parseInt(param) || default` idiom, and `Math.ceil(total / limit)`. */
module Numbers {
  import opened Text

  /** Value of one digit in the given radix (10 or 16), if it is one. */
  function DigitValue(c: char, radix: nat): (v: Option<nat>)
    requires radix == 10 || radix == 16
    ensures v.Some? ==> v.value < radix
  {
    if '0' <= c <= '9' then Some(c as int - '0' as int)
    else if radix == 16 && 'a' <= c <= 'f' then Some(c as int - 'a' as int + 10)
    else if radix == 16 && 'A' <= c <= 'F' then Some(c as int - 'A' as int + 10)
    else None
  }

  /** Length of the longest prefix of `s` made of digits of the radix. */
  function DigitRun(s: string, radix: nat): (n: nat)
    requires radix == 10 || radix == 16
    ensures n <= |s|
    ensures forall i :: 0 <= i < n ==> DigitValue(s[i], radix).Some?
    ensures n < |s| ==> DigitValue(s[n], radix).None?
  {
    if s != [] && DigitValue(s[0], radix).Some? then 1 + DigitRun(s[1..], radix) else 0
  }

  /** The number written by a run of digits, most significant first. */
  function DigitsValue(d: string, radix: nat): nat
    requires radix == 10 || radix == 16
    requires forall i :: 0 <= i < |d| ==> DigitValue(d[i], radix).Some?
  {
    if d == [] then 0
    else DigitsValue(d[..|d| - 1], radix) * radix + DigitValue(d[|d| - 1], radix).value
  }

  /** `parseInt(s)` with no radix argument: leading whitespace is skipped, then an optional sign,
      then the digits are read by `ParseUnsigned`. `None` stands for `NaN` (no digit at all). */
  function ParseInt(s: string): Option<int> {
    var t := TrimStart(s);
    var negative := |t| > 0 && t[0] == '-';
    var u := if |t| > 0 && (t[0] == '-' || t[0] == '+') then t[1..] else t;
    match ParseUnsigned(u)
    case None => None
    case Some(v) => Some(if negative then -v else v)
  }

  /** A `0x`/`0X` prefix selects base 16, otherwise base 10; the longest run of digits is read
      and the rest ignored. */
  function ParseUnsigned(u: string): Option<int> {
    var hex := |u| >= 2 && u[0] == '0' && (u[1] == 'x' || u[1] == 'X');
    var radix := if hex then 16 else 10;
    var digits := if hex then u[2..] else u;
    var n := DigitRun(digits, radix);
    if n == 0 then None else Some(DigitsValue(digits[..n], radix))
  }

  /** `parseInt(param) || fallback`: a missing parameter (`parseInt(null)` is `NaN`), an
      unparsable one and one that parses to zero all give the fallback. */
  function IntParam(param: Option<string>, fallback: int): (r: int)
    ensures fallback != 0 ==> r != 0
    ensures param.None? ==> r == fallback
  {
    match param
    case None => fallback
    case Some(s) =>
      match ParseInt(s)
      case None => fallback
      case Some(v) => if v == 0 then fallback else v
  }

  /** Decimal notation of a natural number, as `String(n)` prints it. */
  function DecimalString(n: nat): (s: string)
    ensures |s| > 0
    ensures forall i :: 0 <= i < |s| ==> '0' <= s[i] <= '9'
  {
    var last := [('0' as int + n % 10) as char];
    if n < 10 then last else DecimalString(n / 10) + last
  }

  lemma {:induction false} DecimalStringValue(n: nat)
    ensures DigitRun(DecimalString(n), 10) == |DecimalString(n)|
    ensures DigitsValue(DecimalString(n), 10) == n
  {
    var s := DecimalString(n);
    if n >= 10 {
      DecimalStringValue(n / 10);
      assert s[..|s| - 1] == DecimalString(n / 10);
    }
    DigitRunAll(s, 10);
  }

  lemma {:induction false} DigitRunAll(s: string, radix: nat)
    requires radix == 10 || radix == 16
    requires forall i :: 0 <= i < |s| ==> DigitValue(s[i], radix).Some?
    ensures DigitRun(s, radix) == |s|
  {
    if s != [] {
      DigitRunAll(s[1..], radix);
    }
  }

  /** A page or limit written in decimal is read back as itself; the fallback is used only for zero. */
  lemma IntParamDecimal(n: nat, fallback: int)
    ensures IntParam(Some(DecimalString(n)), fallback) == if n == 0 then fallback else n
  {
    DecimalStringValue(n);
    ParseIntDecimal(DecimalString(n));
  }

  lemma ParseIntDecimal(s: string)
    requires s != []
    requires forall i :: 0 <= i < |s| ==> '0' <= s[i] <= '9'
    ensures ParseInt(s) == Some(DigitsValue(s, 10) as int)
  {
    assert !IsSpace(s[0]);
    TrimStartOfNoSpace(s);
    assert s[0] != '-' && s[0] != '+';
    ParseUnsignedDecimal(s);
  }

  lemma ParseUnsignedDecimal(s: string)
    requires s != []
    requires forall i :: 0 <= i < |s| ==> '0' <= s[i] <= '9'
    ensures ParseUnsigned(s) == Some(DigitsValue(s, 10) as int)
  {
    assert !(|s| >= 2 && s[0] == '0' && (s[1] == 'x' || s[1] == 'X'));
    DigitRunAll(s, 10);
    assert s[..|s|] == s;
  }

  /** `Math.ceil(a / b)` for a non-zero divisor. */
  function CeilDiv(a: int, b: int): (r: int)
    requires b != 0
    ensures b > 0 ==> (r - 1) * b < a <= r * b
    ensures b < 0 ==> r * b <= a < (r - 1) * b
  {
    if b > 0 then -((-a) / b) else -(a / (-b))
  }
}
