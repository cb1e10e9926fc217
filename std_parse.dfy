/**
 * The parts of the C++ standard library that the interpolation engine leans on
 * for reading numbers: `std::stoi` (placeholder index, ToString.hpp:215) and
 * `std::stoll` (width, ToString.hpp:262). Both skip leading white space (the C
 * locale's isspace), accept one optional sign, need at least one decimal digit,
 * stop at the first non-digit, and throw when the value does not fit the result
 * type.
 */
module StdParse {
  import opened Wrappers
  import opened Decimal

  /** isspace in the C locale: space, \t, \n, \v, \f, \r. */
  predicate IsSpace(c: char) {
    c == ' ' || ('\t' <= c <= '\r')
  }

  predicate IsSign(c: char) {
    c == '+' || c == '-'
  }

  /** A code unit at which the conversion stops without reading it. */
  predicate IsStopper(c: char) {
    !IsSpace(c) && !IsDigit(c) && !IsSign(c)
  }

  /** The conversion reading s would stop at index n (the end, or a stopper). */
  predicate StopsAt(s: string, n: nat) {
    n == |s| || (n < |s| && IsStopper(s[n]))
  }

  /** Where the conversion is: still skipping white space, just past the optional
      sign (a digit must follow), or inside the digits read so far. */
  datatype Phase = Blanks | FirstDigit(negative: bool) | MoreDigits(negative: bool, value: nat)

  function DigitValue(c: char): nat
    requires IsDigit(c)
  {
    c as int - '0' as int
  }

  /** The strtol-family conversion from index i on, one code unit at a time. */
  function Convert(s: string, i: nat, phase: Phase): Option<int>
    requires i <= |s|
    decreases |s| - i, if phase.Blanks? then 1 else 0
  {
    match phase
    case Blanks =>
      if i < |s| && IsSpace(s[i]) then Convert(s, i + 1, Blanks)
      else if i < |s| && IsSign(s[i]) then Convert(s, i + 1, FirstDigit(s[i] == '-'))
      else Convert(s, i, FirstDigit(false))
    case FirstDigit(negative) =>
      if i < |s| && IsDigit(s[i]) then Convert(s, i + 1, MoreDigits(negative, DigitValue(s[i])))
      else None
    case MoreDigits(negative, value) =>
      if i < |s| && IsDigit(s[i]) then Convert(s, i + 1, MoreDigits(negative, 10 * value + DigitValue(s[i])))
      else Some(if negative then -(value as int) else value)
  }

  /** The unbounded integer that a strtol-family conversion reads at the start of s,
      or None when there is no digit to read. */
  function LeadingInt(s: string): Option<int>
  {
    Convert(s, 0, Blanks)
  }

  /** The two exceptions the conversions throw. */
  datatype ParseError = InvalidArgument | OutOfRange

  function ParseInRange(s: string, lo: int, hi: int): (r: Result<int, ParseError>)
    ensures r.Success? ==> lo <= r.value <= hi && LeadingInt(s) == Some(r.value)
    ensures r.Failure? ==> (r.error == InvalidArgument <==> LeadingInt(s).None?)
  {
    match LeadingInt(s)
    case None => Failure(InvalidArgument)
    case Some(v) => if lo <= v <= hi then Success(v) else Failure(OutOfRange)
  }

  /** std::stoi with a 32-bit int. */
  function Stoi(s: string): Result<int, ParseError> {
    ParseInRange(s, -0x8000_0000, 0x7FFF_FFFF)
  }

  /** std::stoll with a 64-bit long long. */
  function Stoll(s: string): Result<int, ParseError> {
    ParseInRange(s, -0x8000_0000_0000_0000, 0x7FFF_FFFF_FFFF_FFFF)
  }

  /** Two texts that agree up to a point where both stop convert alike from any
      index up to that point, in any phase. */
  lemma {:induction false} ConvertAgree(x: string, y: string, n: nat, i: nat, phase: Phase)
    requires n <= |x| && n <= |y| && x[..n] == y[..n] && StopsAt(x, n) && StopsAt(y, n)
    requires i <= n
    ensures Convert(x, i, phase) == Convert(y, i, phase)
    decreases n - i, if phase.Blanks? then 1 else 0
  {
    if i < n {
      assert x[i] == x[..n][i] == y[..n][i] == y[i];
      match phase
      case Blanks =>
        if IsSpace(x[i]) {
          ConvertAgree(x, y, n, i + 1, Blanks);
        } else if IsSign(x[i]) {
          ConvertAgree(x, y, n, i + 1, FirstDigit(x[i] == '-'));
        } else {
          ConvertAgree(x, y, n, i, FirstDigit(false));
        }
      case FirstDigit(negative) =>
        if IsDigit(x[i]) {
          ConvertAgree(x, y, n, i + 1, MoreDigits(negative, DigitValue(x[i])));
        }
      case MoreDigits(negative, value) =>
        if IsDigit(x[i]) {
          ConvertAgree(x, y, n, i + 1, MoreDigits(negative, 10 * value + DigitValue(x[i])));
        }
    } else if phase.Blanks? {
      ConvertAgree(x, y, n, i, FirstDigit(false));
    }
  }

  /** The conversion reads nothing past the first stopper: two texts that agree up to
      a point where both stop convert to the same value. */
  lemma LeadingIntStopsAt(x: string, y: string, n: nat)
    requires n <= |x| && n <= |y| && x[..n] == y[..n] && StopsAt(x, n) && StopsAt(y, n)
    ensures LeadingInt(x) == LeadingInt(y)
  {
    ConvertAgree(x, y, n, 0, Blanks);
  }

  /** Reading the digits from i to the end onto the value read so far. */
  lemma {:induction false} MoreDigitsValue(t: string, i: nat, negative: bool, value: nat)
    requires i <= |t| && forall k :: i <= k < |t| ==> IsDigit(t[k])
    ensures AllDigits(t[i..])
    ensures Convert(t, i, MoreDigits(negative, value))
         == (var m := value * Pow10(|t| - i) + DigitsValue(t[i..]); Some(if negative then -(m as int) else m))
    decreases |t| - i
  {
    if i == |t| {
      assert t[i..] == [];
    } else {
      var d := DigitValue(t[i]);
      MoreDigitsValue(t, i + 1, negative, 10 * value + d);
      var rest := t[i + 1..];
      var p := Pow10(|t| - i - 1);
      assert t[i..] == [t[i]] + rest;
      assert DigitsValue([t[i]]) == d by {
        assert [t[i]][..0] == [];
      }
      DigitsValueAppend([t[i]], rest);
      ShiftDigit(value, d, p);
    }
  }

  lemma ShiftDigit(value: nat, d: nat, p: nat)
    ensures (10 * value + d) * p == value * (10 * p) + d * p
  {
  }

  /** A run of digits, optionally after a '-', reads back as its value. */
  lemma LeadingIntOfDigits(sign: string, s: string)
    requires sign == "" || sign == "-"
    requires |s| >= 1 && AllDigits(s)
    ensures LeadingInt(sign + s) == Some(if sign == "-" then 0 - DigitsValue(s) else DigitsValue(s))
  {
    var t := sign + s;
    var j := |sign|;
    assert t[j..] == s;
    assert t[j] == s[0] && IsDigit(t[j]);
    assert LeadingInt(t) == Convert(t, j, FirstDigit(sign == "-")) by {
      if sign == "-" {
        assert t[0] == '-';
      }
    }
    assert Convert(t, j, FirstDigit(sign == "-")) == Convert(t, j, MoreDigits(sign == "-", 0));
    MoreDigitsValue(t, j, sign == "-", 0);
  }
}
