/**
 * The type dispatch of ToString (ToString.hpp:267-424): one argument and the
 * width read from its placeholder become the text that replaces the
 * placeholder. Strings are inserted as C strings (up to their first NUL),
 * integers go through StringifyInteger, bools become "true"/"false", and
 * floating-point values and pointers go to renderers this model does not see.
 */
module Dispatch {
  import opened Wrappers
  import opened StdParse
  import opened Arguments
  import SI = StringifyInteger

  /** The text `insert(pos, p)` copies from a character pointer: everything before
      the first NUL (ToString.hpp:277, 284, 364). */
  function CString(s: string): (r: string)
    ensures r <= s && '\0' !in r
    ensures |r| < |s| ==> s[|r|] == '\0'
  {
    if s == [] || s[0] == '\0' then [] else [s[0]] + CString(s[1..])
  }

  /** The text a placeholder is replaced by, one case per branch of the type
      dispatch, each matching the type it is meant to match. Only an argument
      whose type name matches no branch fails. */
  function Render(arg: Arg, width: nat, env: Renderers): (r: Result<string, Error>)
    ensures r.Failure? <==> arg.Unrecognised?
    ensures r.Failure? ==> r.error == UnsupportedType
  {
    match arg
    case VoidPointer(p) => Success(env.pointer(p, width))
    case StringView(v) => Success(CString(v))
    case String(s) => Success(CString(s))
    case UnsignedChar(u) => Success(SI.UnsignedIntegralText(u, width))
    case UnsignedShort(u) => Success(SI.UnsignedIntegralText(u, width))
    case UnsignedLongLong(u) => Success(SI.UnsignedIntegralText(u, width))
    case UnsignedInt(u) => Success(SI.UnsignedIntegralText(u, width))
    case UnsignedLong(u) => Success(SI.UnsignedIntegralText(u, width))
    case LongDouble(_) => Success(env.floating(arg, width))
    case Long(v) => Success(SI.SignedIntegralText(v, width))
    case CharPointer(s) => Success(CString(s))
    case Short(v) => Success(SI.SignedIntegralText(v, width))
    case LongLong(v) => Success(SI.SignedIntegralText(v, width))
    case Int(v) => Success(SI.SignedIntegralText(v, width))
    case Double(_) => Success(env.floating(arg, width))
    case Float(_) => Success(env.floating(arg, width))
    case Bool(b) => Success(if b then "true" else "false")
    case Unrecognised(_) => Failure(UnsupportedType)
  }

  /** The integral argument kinds, with the StringifyInteger type each is rendered as. */
  predicate IsIntegral(arg: Arg) {
    arg.UnsignedChar? || arg.UnsignedShort? || arg.UnsignedLongLong? || arg.UnsignedInt?
    || arg.UnsignedLong? || arg.Long? || arg.Short? || arg.LongLong? || arg.Int?
  }

  function IntegralValue(arg: Arg): int
    requires IsIntegral(arg)
  {
    match arg
    case UnsignedChar(u) => u
    case UnsignedShort(u) => u
    case UnsignedLongLong(u) => u
    case UnsignedInt(u) => u
    case UnsignedLong(u) => u
    case Long(v) => v
    case Short(v) => v
    case LongLong(v) => v
    case Int(v) => v
  }

  /** The branch of ToString.hpp:267-424 that renders an argument: the one-line
      stand-in for the any_cast plus Stringify call each branch makes. It repeats
      Render's cases because its integral branches call the buffer-writing
      StringifyInteger methods, and it is proved equal to Render. */
  method RenderArgument(arg: Arg, width: nat, env: Renderers) returns (r: Result<string, Error>)
    ensures r == Render(arg, width, env)
  {
    match arg {
      case VoidPointer(p) =>
        r := Success(env.pointer(p, width));
      case StringView(v) =>
        r := Success(CString(v));
      case String(s) =>
        r := Success(CString(s));
      case UnsignedChar(u) =>
        var text := SI.StringUnsignedIntegral(SI.UnsignedChar, u, width);
        r := Success(text);
      case UnsignedShort(u) =>
        var text := SI.StringUnsignedIntegral(SI.UnsignedShort, u, width);
        r := Success(text);
      case UnsignedLongLong(u) =>
        var text := SI.StringUnsignedIntegral(SI.UnsignedLongLong, u, width);
        r := Success(text);
      case UnsignedInt(u) =>
        var text := SI.StringUnsignedIntegral(SI.UnsignedInt, u, width);
        r := Success(text);
      case UnsignedLong(u) =>
        var text := SI.StringUnsignedIntegral(SI.UnsignedLong, u, width);
        r := Success(text);
      case LongDouble(_) =>
        r := Success(env.floating(arg, width));
      case Long(v) =>
        var text := SI.StringSignedIntegral(SI.Long, v, width);
        r := Success(text);
      case CharPointer(s) =>
        r := Success(CString(s));
      case Short(v) =>
        var text := SI.StringSignedIntegral(SI.Short, v, width);
        r := Success(text);
      case LongLong(v) =>
        var text := SI.StringSignedIntegral(SI.LongLong, v, width);
        r := Success(text);
      case Int(v) =>
        var text := SI.StringSignedIntegral(SI.Int, v, width);
        r := Success(text);
      case Double(_) =>
        r := Success(env.floating(arg, width));
      case Float(_) =>
        r := Success(env.floating(arg, width));
      case Bool(b) =>
        r := Success(if b then "true" else "false");
      case Unrecognised(_) =>
        r := Failure(UnsupportedType);
    }
  }

  /** An integral argument is rendered as text whose leading integer (the
      strtol-family reading, without std::stoll's range check) is its value,
      padded to at least the width (at least one character without one).
      std::stoll itself reads it back exactly when the value fits a long long:
      an unsigned long long above 2^63 - 1 makes it throw out_of_range. */
  lemma IntegralRenderingReadsBack(arg: Arg, width: nat, env: Renderers)
    requires IsIntegral(arg)
    ensures Render(arg, width, env).Success?
    ensures LeadingInt(Render(arg, width, env).value) == Some(IntegralValue(arg))
    ensures IntegralValue(arg) <= 0x7FFF_FFFF_FFFF_FFFF
        ==> Stoll(Render(arg, width, env).value) == Success(IntegralValue(arg))
    ensures IntegralValue(arg) > 0x7FFF_FFFF_FFFF_FFFF
        ==> Stoll(Render(arg, width, env).value) == Failure(OutOfRange)
    ensures |Render(arg, width, env).value| >= SI.EffectiveMinDigits(width)
    ensures (Render(arg, width, env).value[0] == '-') <==> IntegralValue(arg) < 0
  {
    var v := IntegralValue(arg);
    SI.SignedIntegralRoundTrip(v, width);
    if v >= 0 {
      assert SI.UnsignedIntegralText(v, width) == SI.SignedIntegralText(v, width);
    }
  }

  /** Strings, string views and C strings are inserted verbatim up to their first
      NUL; the width is ignored. */
  lemma StringRenderingIsVerbatim(arg: Arg, width: nat, env: Renderers)
    requires arg.String? || arg.StringView? || arg.CharPointer?
    requires '\0' !in (if arg.String? then arg.str else if arg.StringView? then arg.view else arg.cstr)
    ensures Render(arg, width, env)
         == Success(if arg.String? then arg.str else if arg.StringView? then arg.view else arg.cstr)
  {
    var s := if arg.String? then arg.str else if arg.StringView? then arg.view else arg.cstr;
    var r := CString(s);
    assert r == s[..|r|] == s;
  }

  /** A bool is rendered as exactly "true" or "false", whatever the width. */
  lemma BoolRendering(b: bool, width: nat, env: Renderers)
    ensures Render(Bool(b), width, env).Success?
    ensures Render(Bool(b), width, env).value == "true" <==> b
    ensures Render(Bool(b), width, env).value == "false" <==> !b
  {
  }
}
