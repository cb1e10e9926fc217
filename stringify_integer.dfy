/**
 * Integer-to-decimal conversion (Stringify/StringifyInteger.hpp): digits are
 * written backwards into a fixed buffer sized by `max_digits<T>`, a '-' is put in
 * front of a negative value's magnitude, and the text is then zero-padded to a
 * minimum digit count.
 */
module StringifyInteger {
  import opened Decimal
  import opened Wrappers
  import opened StdParse

  /** The integral types the engine renders, at their MSVC widths: the engine
      (ToString.hpp) only compiles under _MSC_VER, where int and long are 32 bits and long long
      (alias __int64) is 64 bits. */
  datatype IntType =
    | Short | Int | Long | LongLong
    | UnsignedChar | UnsignedShort | UnsignedInt | UnsignedLong | UnsignedLongLong
  {
    predicate IsSigned() {
      Short? || Int? || Long? || LongLong?
    }

    function Bits(): nat {
      match this
      case UnsignedChar => 8
      case Short | UnsignedShort => 16
      case Int | Long | UnsignedInt | UnsignedLong => 32
      case LongLong | UnsignedLongLong => 64
    }

    /** 2^Bits(): conversion to the unsigned counterpart is reduction modulo this. */
    function Modulus(): (m: nat)
      ensures m > 1
    {
      match this
      case UnsignedChar => 0x100
      case Short | UnsignedShort => 0x1_0000
      case Int | Long | UnsignedInt | UnsignedLong => 0x1_0000_0000
      case LongLong | UnsignedLongLong => 0x1_0000_0000_0000_0000
    }

    function MinValue(): int {
      if IsSigned() then -(Modulus() / 2) else 0
    }

    function MaxValue(): int {
      if IsSigned() then Modulus() / 2 - 1 else Modulus() - 1
    }

    predicate InRange(v: int) {
      MinValue() <= v <= MaxValue()
    }

    /** std::numeric_limits<T>::digits10: every number of this many decimal digits
        is representable, and not every number of one digit more. */
    function Digits10(): (d: nat)
      ensures Pow10(d) - 1 <= MaxValue() < Pow10(d + 1) - 1
    {
      Pow10Table();
      match this
      case UnsignedChar => 2
      case Short | UnsignedShort => 4
      case Int | Long | UnsignedInt | UnsignedLong => 9
      case LongLong => 18
      case UnsignedLongLong => 19
    }

    /** max_digits<T> (StringifyInteger.hpp:11-12): the size of the conversion buffer. */
    function MaxDigits(): nat {
      Digits10() + 2
    }
  }

  /** The powers of ten that bound the integral types, evaluated from Pow10's
      literal arguments. */
  lemma Pow10Table()
    ensures Pow10(2) == 100 && Pow10(3) == 1000
    ensures Pow10(4) == 10_000 && Pow10(5) == 100_000
    ensures Pow10(9) == 1_000_000_000 && Pow10(10) == 10_000_000_000
    ensures Pow10(18) == 1_000_000_000_000_000_000 && Pow10(19) == 10_000_000_000_000_000_000
    ensures Pow10(20) == 100_000_000_000_000_000_000
  {
  }

  /** The "no width given" sentinel of StringifyHelper.hpp (not part of this model),
      taken to be the largest size_t on a 64-bit target. */
  const NPrecision: nat := 0xFFFF_FFFF_FFFF_FFFF

  /** The minimum digit count after the sentinel is replaced by 1 (lines 34-35, 64-65). */
  function EffectiveMinDigits(minDigits: nat): (m: nat)
    ensures minDigits == NPrecision ==> m == 1
    ensures minDigits != NPrecision ==> m == minDigits
  {
    if minDigits == NPrecision then 1 else minDigits
  }

  /** PrependPadding of StringifyHelper.hpp (not part of this model), as assumed here:
      a text shorter than minDigits is filled with '0' up to that length, the zeros
      going after a leading '-'. */
  function PrependPadding(s: string, minDigits: nat): string
  {
    if |s| >= minDigits then s
    else if |s| > 0 && s[0] == '-' then "-" + Zeros(minDigits - |s|) + s[1..]
    else Zeros(minDigits - |s|) + s
  }

  /** The text of a signed value: '-' and the digits of its magnitude when negative. */
  function SignedText(v: int): string {
    if v < 0 then "-" + Digits(-v) else Digits(v)
  }

  /** What StringUnsignedIntegral returns. */
  function UnsignedIntegralText(v: nat, minDigits: nat): string {
    PrependPadding(Digits(v), EffectiveMinDigits(minDigits))
  }

  /** What StringSignedIntegral returns (with the magnitude computed as intended;
      see SignedTextAsWritten for the code as written). */
  function SignedIntegralText(v: int, minDigits: nat): string {
    PrependPadding(SignedText(v), EffectiveMinDigits(minDigits))
  }

  /** UintToStr (lines 18-26): writes the decimal digits of uVal backwards into the
      cells just before `current` and returns the index of the first one. */
  method UintToStr(buff: array<char>, current: nat, uVal: nat) returns (start: nat)
    requires |Digits(uVal)| <= current <= buff.Length
    modifies buff
    ensures start == current - |Digits(uVal)| && start < current
    ensures buff[start..current] == Digits(uVal)
    ensures forall k :: 0 <= k < buff.Length && !(start <= k < current) ==> buff[k] == old(buff[k])
  {
    DigitsCanonical(uVal);
    var u := uVal;
    start := current;
    var more := true;
    while more
      invariant start <= current
      invariant more ==> Digits(uVal) == Digits(u) + buff[start..current]
      invariant !more ==> buff[start..current] == Digits(uVal)
      invariant more && u == 0 ==> u == uVal
      invariant forall k :: 0 <= k < buff.Length && !(start <= k < current) ==> buff[k] == old(buff[k])
      decreases u, more
    {
      var mod := u % 10;
      LastDigit(u);
      ghost var written := buff[start..current];
      start := start - 1;
      buff[start] := DigitChar(mod);
      assert buff[start..current] == [DigitChar(mod)] + written;
      u := u / 10;
      more := u != 0;
    }
  }

  /** The last digit of u is u % 10, after the digits of u / 10 unless u is one digit. */
  lemma LastDigit(u: nat)
    ensures Digits(u) == (if u / 10 == 0 then [] else Digits(u / 10)) + [DigitChar(u % 10)]
  {
  }

  /** The number of digits of any value of t, plus one '-', fits max_digits<T>. */
  lemma MaxDigitsFits(t: IntType, v: int)
    requires t.InRange(v)
    ensures |SignedText(v)| <= t.MaxDigits()
    ensures v < 0 ==> |Digits(-v)| + 1 <= t.MaxDigits()
  {
    var d := t.Digits10();
    var magnitude := if v < 0 then -v else v;
    assert magnitude < Pow10(d + 1);
    DigitsLength(magnitude, d + 1);
  }

  /** `0 - uVal` taken modulo 2^Bits is the magnitude of a negative value, the most
      negative one included. */
  lemma NegationMagnitude(t: IntType, v: int)
    requires t.IsSigned() && t.InRange(v) && v < 0
    ensures (0 - v % t.Modulus()) % t.Modulus() == -v
  {
    var m := t.Modulus();
    assert v % m == v + m;
    assert (0 - (v + m)) % m == -v;
  }

  /** static_cast to the unsigned counterpart leaves a non-negative value alone. */
  lemma ToUnsignedNonNegative(t: IntType, v: int)
    requires t.InRange(v) && v >= 0
    ensures v % t.Modulus() == v
  {
  }

  /** StringSignedIntegral (lines 28-56). */
  method StringSignedIntegral(t: IntType, val: int, minDigits: nat) returns (s: string)
    requires t.IsSigned() && t.InRange(val)
    ensures s == SignedIntegralText(val, minDigits)
  {
    var digits := minDigits;
    if digits == NPrecision {
      digits := 1;
    }
    MaxDigitsFits(t, val);
    var buff := new char[t.MaxDigits()];
    var end := buff.Length;
    var current := end;
    var uVal := val % t.Modulus();
    if val < 0 {
      NegationMagnitude(t, val);
      var magnitude := (0 - uVal) % t.Modulus();
      current := UintToStr(buff, current, magnitude);
      ghost var digitsText := buff[current..end];
      current := current - 1;
      buff[current] := '-';
      assert buff[current..end] == "-" + digitsText;
    } else {
      ToUnsignedNonNegative(t, val);
      current := UintToStr(buff, current, uVal);
    }
    assert buff[current..end] == SignedText(val);
    s := PrependPadding(buff[current..end], digits);
  }

  /** StringUnsignedIntegral (lines 58-76). */
  method StringUnsignedIntegral(t: IntType, val: nat, minDigits: nat) returns (s: string)
    requires !t.IsSigned() && t.InRange(val)
    ensures s == UnsignedIntegralText(val, minDigits)
  {
    var digits := minDigits;
    if digits == NPrecision {
      digits := 1;
    }
    MaxDigitsFits(t, val);
    var buff := new char[t.MaxDigits()];
    var end := buff.Length;
    var current := UintToStr(buff, end, val);
    s := PrependPadding(buff[current..end], digits);
  }

  /** Padding a sign and canonical digits puts the zeros between the two. */
  lemma PaddedDigits(sign: string, ds: string, m: nat)
    requires sign == "" || sign == "-"
    requires Canonical(ds)
    ensures PrependPadding(sign + ds, m)
         == sign + (Zeros(if |sign + ds| < m then m - |sign + ds| else 0) + ds)
  {
    var s := sign + ds;
    if |s| >= m {
      assert Zeros(0) + ds == ds;
    } else if sign == "-" {
      assert s[0] == '-' && s[1..] == ds;
    } else {
      assert s[0] == ds[0] && s == ds;
    }
  }

  /** A signed rendering is the sign, then zeros, then the digits of the magnitude. */
  lemma SignedIntegralParts(v: int, minDigits: nat) returns (sign: string, body: string)
    ensures sign == (if v < 0 then "-" else "")
    ensures SignedIntegralText(v, minDigits) == sign + body
    ensures |body| >= 1 && AllDigits(body) && DigitsValue(body) == (if v < 0 then -v else v)
    ensures |sign + body| == Max(|SignedText(v)|, EffectiveMinDigits(minDigits))
  {
    var m := EffectiveMinDigits(minDigits);
    var ds;
    sign, ds := SignedTextParts(v);
    PaddedDigits(sign, ds, m);
    var pad := if |sign + ds| < m then m - |sign + ds| else 0;
    body := Zeros(pad) + ds;
    ZerosValue(pad, ds);
  }

  /** The natural text of a signed value is its sign and the canonical digits of its
      magnitude. */
  lemma SignedTextParts(v: int) returns (sign: string, ds: string)
    ensures sign == (if v < 0 then "-" else "")
    ensures SignedText(v) == sign + ds
    ensures Canonical(ds) && DigitsValue(ds) == (if v < 0 then -v else v)
  {
    var magnitude: nat := if v < 0 then -v else v;
    ds := Digits(magnitude);
    DigitsRoundTrip(magnitude);
    DigitsCanonical(magnitude);
    sign := if v < 0 then "-" else "";
  }

  /** A signed rendering reads back (as std::stoll would) as the value it renders,
      is as long as the natural text or minDigits, whichever is more, and starts
      with '-' exactly for negative values. */
  lemma SignedIntegralRoundTrip(v: int, minDigits: nat)
    ensures LeadingInt(SignedIntegralText(v, minDigits)) == Some(v)
    ensures |SignedIntegralText(v, minDigits)| == Max(|SignedText(v)|, EffectiveMinDigits(minDigits))
    ensures SignedIntegralText(v, minDigits)[0] == '-' <==> v < 0
  {
    var sign, body := SignedIntegralParts(v, minDigits);
    LeadingIntOfDigits(sign, body);
    assert IsDigit(body[0]);
    assert (sign + body)[|sign|] == body[0];
  }

  /** An unsigned rendering is all digits, reads back as its value, and is as long
      as the natural text or minDigits, whichever is more. */
  lemma UnsignedIntegralRoundTrip(v: nat, minDigits: nat)
    ensures AllDigits(UnsignedIntegralText(v, minDigits))
    ensures LeadingInt(UnsignedIntegralText(v, minDigits)) == Some(v)
    ensures |UnsignedIntegralText(v, minDigits)| == Max(|Digits(v)|, EffectiveMinDigits(minDigits))
  {
    assert UnsignedIntegralText(v, minDigits) == SignedIntegralText(v, minDigits);
    var sign, body := SignedIntegralParts(v, minDigits);
    assert sign + body == body;
    LeadingIntOfDigits(sign, body);
  }

  /** Without a width the rendering is the natural text, with no padding. */
  lemma DefaultWidthNoPadding(v: int)
    ensures SignedIntegralText(v, NPrecision) == SignedText(v)
    ensures v >= 0 ==> UnsignedIntegralText(v, NPrecision) == Digits(v)
  {
    DigitsCanonical(if v < 0 then -v else v);
  }

  function Max(a: nat, b: nat): nat {
    if a < b then b else a
  }

  // ---------------------------------------------------------------------------
  // StringSignedIntegral as written, for types narrower than int.
  // ---------------------------------------------------------------------------

  /** C++ division and remainder, which truncate toward zero. */
  function TruncDiv(a: int, b: nat): int
    requires b > 0
  {
    if a >= 0 then a / b else -((-a) / b)
  }

  function TruncRem(a: int, b: nat): (r: int)
    requires b > 0
    ensures -(b as int) < r < b
  {
    a - b * TruncDiv(a, b)
  }

  /** `0 - uVal` at line 44 as C++ evaluates it: an unsigned operand narrower than
      int is promoted to (signed) int, so the subtraction yields a negative int; from
      int upwards it wraps modulo 2^Bits. */
  function NegatedAsWritten(t: IntType, uVal: nat): int {
    if t.Bits() < 32 then 0 - uVal else (0 - uVal) % t.Modulus()
  }

  /** UintToStr applied to a value of type int, which its template admits: the
      do-while loop with truncating `%` and `/`, writing `'0' + mod` each time. */
  function UintToStrAsWritten(u: int): string
    decreases if u < 0 then -u else u
  {
    var mod := TruncRem(u, 10);
    var c := ('0' as int + mod) as char;
    if TruncDiv(u, 10) == 0 then [c] else UintToStrAsWritten(TruncDiv(u, 10)) + [c]
  }

  /** The text StringSignedIntegral builds before padding, exactly as written. */
  function SignedTextAsWritten(t: IntType, val: int): string
    requires t.IsSigned() && t.InRange(val)
  {
    if val < 0 then "-" + UintToStrAsWritten(NegatedAsWritten(t, val % t.Modulus()))
    else UintToStrAsWritten(val)
  }

  /** On a non-negative int the as-written loop is the decimal representation. */
  lemma {:induction false} UintToStrAsWrittenNonNegative(n: nat)
    ensures UintToStrAsWritten(n) == Digits(n)
    decreases n
  {
    if n >= 10 {
      UintToStrAsWrittenNonNegative(n / 10);
    }
  }

  /** From int upwards the code as written renders what is intended. */
  lemma AsWrittenAgreesFromInt(t: IntType, val: int)
    requires t.IsSigned() && t.InRange(val) && t.Bits() >= 32
    ensures SignedTextAsWritten(t, val) == SignedText(val)
  {
    if val < 0 {
      NegationMagnitude(t, val);
      UintToStrAsWrittenNonNegative(-val);
    } else {
      UintToStrAsWrittenNonNegative(val);
    }
  }

  /** For short the promotion breaks it: -42 is stored as 65494, `0 - 65494` is the
      int -65494, and its "digits" are code units below '0'. */
  lemma ShortNegativeAsWritten()
    ensures SignedTextAsWritten(Short, -42) == "-*+,',"
    ensures SignedText(-42) == "-42"
  {
    assert NegatedAsWritten(Short, -42 % Short.Modulus()) == -65494;
    assert UintToStrAsWritten(-6) == "*";
    assert UintToStrAsWritten(-65) == "*+";
    assert UintToStrAsWritten(-654) == "*+,";
    assert UintToStrAsWritten(-6549) == "*+,'";
    assert UintToStrAsWritten(-65494) == "*+,',";
    assert Digits(42) == "42";
  }
}
