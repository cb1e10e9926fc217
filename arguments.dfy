/**
 * The erased argument pack of `ToString(format, arg, argPack...)`: each argument
 * is a tagged value, and the tag stands for the `typeid(...).name()` of its
 * capture that the scanner queues and the renderer dispatches on
 * (ToString.hpp:216, 267-424). Floating-point and pointer formatting, and the
 * printf-style engine, are code this model does not see; they are passed in as
 * a `Renderers` record.
 */
module Arguments {
  import opened Wrappers
  import opened StdParse

  type UInt8 = v: int | 0 <= v < 0x100
  type UInt16 = v: int | 0 <= v < 0x1_0000
  type UInt32 = v: int | 0 <= v < 0x1_0000_0000
  type UInt64 = v: int | 0 <= v < 0x1_0000_0000_0000_0000
  type Int16 = v: int | -0x8000 <= v < 0x8000
  type Int32 = v: int | -0x8000_0000 <= v < 0x8000_0000
  type Int64 = v: int | -0x8000_0000_0000_0000 <= v < 0x8000_0000_0000_0000

  /** One argument, listed in the order of the dispatch branch that takes it under
      MSVC, whose type names are "__int64" for long long and "unsigned __int64" for
      unsigned long long. Floating-point values are kept as their bit patterns. */
  datatype Arg =
    | VoidPointer(address: UInt64)          // "void"                 line 267
    | StringView(view: string)              // "basic_string_view"    line 273
    | String(str: string)                   // "basic_string"         line 280; also the
                                            // ToString() text of a user-defined type
    | UnsignedChar(uc: UInt8)               // "unsigned" + "char"    line 289
    | UnsignedShort(us: UInt16)             // "unsigned" + "short"   line 295
    | UnsignedLongLong(ull: UInt64)         // "unsigned __int64"     line 303
    | UnsignedInt(ui: UInt32)               // "unsigned" + "int"     line 311
    | UnsignedLong(ul: UInt32)              // "unsigned" + "long"    line 316
    | LongDouble(ldBits: nat)               // "long" + "double"      line 335
    | Long(l: Int32)                        // "long"                 line 355
    | CharPointer(cstr: string)             // "char"                 line 360
    | Short(s: Int16)                       // "short"                line 367
    | LongLong(ll: Int64)                   // "__int64"              line 377
    | Int(i: Int32)                         // "int"                  line 383
    | Double(dBits: nat)                    // "double"               line 388
    | Float(fBits: nat)                     // "float"                line 394
    | Bool(b: bool)                         // "bool"                 line 400
    | Unrecognised(typeName: string)        // no branch matches      line 421

  /** The runtime type tag, one case per dispatch branch (ToString.hpp:267-424). */
  datatype TypeTag =
    | VoidPointerTag | StringViewTag | StringTag
    | UnsignedCharTag | UnsignedShortTag | UnsignedLongLongTag | UnsignedIntTag | UnsignedLongTag
    | LongDoubleTag | LongTag | CharPointerTag | ShortTag | LongLongTag | IntTag
    | DoubleTag | FloatTag | BoolTag | UnrecognisedTag(name: string)

  /** `elems[idx].type().name()` (ToString.hpp:216). */
  function TagOf(a: Arg): TypeTag {
    match a
    case VoidPointer(_) => VoidPointerTag
    case StringView(_) => StringViewTag
    case String(_) => StringTag
    case UnsignedChar(_) => UnsignedCharTag
    case UnsignedShort(_) => UnsignedShortTag
    case UnsignedLongLong(_) => UnsignedLongLongTag
    case UnsignedInt(_) => UnsignedIntTag
    case UnsignedLong(_) => UnsignedLongTag
    case LongDouble(_) => LongDoubleTag
    case Long(_) => LongTag
    case CharPointer(_) => CharPointerTag
    case Short(_) => ShortTag
    case LongLong(_) => LongLongTag
    case Int(_) => IntTag
    case Double(_) => DoubleTag
    case Float(_) => FloatTag
    case Bool(_) => BoolTag
    case Unrecognised(name) => UnrecognisedTag(name)
  }

  /** Code this model does not see, as parameters: StringifyPointer (address,
      padding), StringFloatingPoint (a LongDouble, Double or Float argument,
      padding) and the printf-style engine of MakeStringFromData, which yields None
      when the platform's snprintf reports failure (ToString.hpp:161-162, 168-169). */
  datatype Renderers = Renderers(
    pointer: (nat, nat) -> string,
    floating: (Arg, nat) -> string,
    printf: (string, seq<Arg>) -> Option<string>)

  /** Why a call fails: an exception thrown out of ToString, or (IndexOutOfRange)
      an unchecked read past the argument array. */
  datatype Error =
    | BadIndex(cause: ParseError)   // std::stoi threw on the index (line 215)
    | IndexOutOfRange               // elems[idx] past the argument pack (lines 216, 253)
    | NoOpenerInSection             // no '}', or no '{' before the first '}':
                                    // currentSection.erase(npos) threw (line 265)
    | BadWidth(cause: ParseError)   // std::stoll threw on the width (line 262)
    | UnsupportedType               // no dispatch branch matched (lines 421-424)
    | ConversionFailure             // the printf-style engine failed (lines 162, 169)
}
