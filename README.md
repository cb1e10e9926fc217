# ToString interpolation engine and integer stringification, in Dafny

This project models the brace-mode interpolation engine of kFormat's `ToString`
and the integer-to-decimal routines it renders integers with, and proves what
they compute.

- `ToString(format, args...)` hands a template holding `%` to a printf-style
  engine. Any other template is scanned once by `CreateIdentifiers`, which
  queues one `(index, type name)` pair per `{` it does not skip. A `{` followed
  by `{`, space, tab or the end is skipped, and the scan resumes three code
  units later.
- The driver then takes the queued pairs in order. For each one it cuts the
  working template after its first `}`, keeps the text before the first `{`,
  reads an optional `:width`, and appends the argument's rendering from the
  type dispatch. At the end it appends the remaining tail.
- `StringSignedIntegral` and `StringUnsignedIntegral` write decimal digits
  backwards into a buffer of `max_digits<T>` cells with `UintToStr`. They put
  a `-` before a negative value's magnitude and zero-pad to a minimum digit
  count.

Modules, one per part of the program:

| file | module | what it holds |
|---|---|---|
| `wrappers.dfy` | `Wrappers` | `Option` and `Result` |
| `decimal.dfy` | `Decimal` | decimal digit strings and their values |
| `std_parse.dfy` | `StdParse` | `std::stoi` and `std::stoll` on text, including range errors |
| `arguments.dfy` | `Arguments` | the erased argument pack, type tags, opaque renderers, errors |
| `stringify_integer.dfy` | `StringifyInteger` | `max_digits`, `UintToStr`, the signed and unsigned wrappers |
| `scanner.dfy` | `Scanner` | `CreateIdentifiers` and what its queue is |
| `dispatch.dfy` | `Dispatch` | the type dispatch of lines 267-424 |
| `interpolation.dfy` | `Interpolation` | the `%` switch and the brace-mode loop of `ToString` |
| `templates.dfy` | `Templates` | what a well-formed template means, and the proof that `ToString` computes it |

The methods follow the C++ step by step: a loop over openers, a loop over the
queue, and a do-while writing into an `array<char>`. Each method is proved
equal to a specification function. The lemmas state what those functions
promise. The main result is `Templates.InterpolateSpelled`: a template written
as literal texts and placeholders `{i}` or `{i:w}` interpolates to the literal
texts with each placeholder replaced by the rendering of argument `i` at
width `w`, in template order.

Where the library's own description and the code differ, the model follows the code:

- **Printf mode.** Any `%` anywhere in the template selects the printf path (line 239). A `%` after the first `{` counts too.
- **Escaped openers.** An escaped opener such as `{{` is only skipped by the scanner. It is not turned into a single `{`. The driver cuts each section at the first `{` before the first `}`, so an escape before a placeholder falls inside that placeholder's section.
- **Missing closer.** A template with no `}` is not rejected by the scanner. The index is read from the rest of the template. The driver's `erase(npos)` then throws; the model returns the error `NoOpenerInSection`.
- **Index parsing.** The index is read by `std::stoi`, so a sign is accepted. Leading white space is accepted only when it starts with a newline, vertical tab, form feed or carriage return: a space or tab right after `{` makes the scanner skip the opener instead (lines 201-203). The index is then cast to `unsigned char`, so it is reduced modulo 256.
- **Width parsing.** The width is read by `std::stoll` and stored in a `size_t`, so it is reduced modulo 2^64.

## Model

| member | source | states |
|---|---|---|
| StringifyInteger.IntType.Digits10 | kFormat-ToString/kFormat-ToString/Stringify/StringifyInteger.hpp:9-12 | `digits10`: every number of that many digits fits the type, and not every number of one more |
| StringifyInteger.MaxDigitsFits | kFormat-ToString/kFormat-ToString/Stringify/StringifyInteger.hpp:9-12 | the digits of any value of the type, plus a `-`, fit in `max_digits<T>` cells, so the buffer is never underrun |
| StringifyInteger.UintToStr | kFormat-ToString/kFormat-ToString/Stringify/StringifyInteger.hpp:18-26 | writes at least one digit; the cells from the returned index to `current` are exactly the decimal digits of `uVal`; the index moves back by the digit count; no other cell changes |
| StringifyInteger.NegationMagnitude | kFormat-ToString/kFormat-ToString/Stringify/StringifyInteger.hpp:40-44 | `0 - (unsigned)val` modulo 2^bits is the magnitude of a negative value, the most negative one included |
| StringifyInteger.ToUnsignedNonNegative | kFormat-ToString/kFormat-ToString/Stringify/StringifyInteger.hpp:40 | the cast to the unsigned type leaves a non-negative value unchanged |
| StringifyInteger.StringSignedIntegral | kFormat-ToString/kFormat-ToString/Stringify/StringifyInteger.hpp:28-56 | returns the sign-and-digits text of the value, padded with `PrependPadding` to the minimum digit count (1 for the sentinel) |
| StringifyInteger.StringUnsignedIntegral | kFormat-ToString/kFormat-ToString/Stringify/StringifyInteger.hpp:58-76 | returns the digits of the value padded to the minimum digit count (1 for the sentinel) |
| StringifyInteger.SignedIntegralRoundTrip | kFormat-ToString/kFormat-ToString/Stringify/StringifyInteger.hpp:40-53 | a signed rendering reads back as its value; its length is the larger of the natural length and the minimum; it starts with `-` exactly when the value is negative |
| StringifyInteger.UnsignedIntegralRoundTrip | kFormat-ToString/kFormat-ToString/Stringify/StringifyInteger.hpp:67-73 | an unsigned rendering is all digits, reads back as its value, and is as long as the natural text or the minimum, whichever is more |
| StringifyInteger.DefaultWidthNoPadding | kFormat-ToString/kFormat-ToString/Stringify/StringifyInteger.hpp:34-35 | with the sentinel width, the rendering is the natural text with no padding |
| StringifyInteger.UintToStrAsWrittenNonNegative | kFormat-ToString/kFormat-ToString/Stringify/StringifyInteger.hpp:18-26 | the do-while with truncating `%` and `/` yields the decimal digits of a non-negative value |
| StringifyInteger.AsWrittenAgreesFromInt | kFormat-ToString/kFormat-ToString/Stringify/StringifyInteger.hpp:40-50 | for `int`, `long` and `long long`, the code as written builds the intended sign-and-digits text |
| StringifyInteger.ShortNegativeAsWritten | kFormat-ToString/kFormat-ToString/Stringify/StringifyInteger.hpp:44 | for `short` -42, the code as written builds `-*+,',`, not `-42` |
| Scanner.FindFirst | kFormat-ToString/kFormat-ToString/ToString.hpp:197-199 | `find_first_of` for one code unit: a found position is at or after the start and holds the code unit |
| Scanner.FindFirstIsFirst | kFormat-ToString/kFormat-ToString/ToString.hpp:197-199 | nothing before the found position holds the code unit, and nothing at all does when none is found |
| Scanner.BeforeColonCuts | kFormat-ToString/kFormat-ToString/ToString.hpp:213-214 | the index text is a prefix of the bracket text without `:`, cut exactly at the first `:` |
| Scanner.IndexAt | kFormat-ToString/kFormat-ToString/ToString.hpp:210-215 | an index read at an opener is below 256, the `unsigned char` cast |
| Scanner.IndexTextReadsBody | kFormat-ToString/kFormat-ToString/ToString.hpp:210-215 | the over-long `substr(openerPos + 1, closePos - 1)` reads the same index as the text between `{` and the next `}`, because `stoi` stops at `}` |
| Scanner.IndexAtOfLeadingInt | kFormat-ToString/kFormat-ToString/ToString.hpp:215 | an index text whose leading integer is below 256 is read as that index |
| Scanner.OpenersFrom | kFormat-ToString/kFormat-ToString/ToString.hpp:197-207 | every opener the loop queues is a `{` of the template at or after the start |
| Scanner.OpenersFromNotEscaped | kFormat-ToString/kFormat-ToString/ToString.hpp:199-207 | no queued opener is followed by `{`, space, tab or the terminator |
| Scanner.EscapeSkipsThree | kFormat-ToString/kFormat-ToString/ToString.hpp:199-207 | at a skipped opener the scan resumes at `openerPos + 3`, and nothing before that is queued |
| Scanner.OpenersFromIncreasing | kFormat-ToString/kFormat-ToString/ToString.hpp:197-199 | queued openers are strictly increasing in position |
| Scanner.AllOpenersWhenNoEscapes | kFormat-ToString/kFormat-ToString/ToString.hpp:197-207 | when no `{` is followed by an escape code unit, exactly the `{` positions are queued |
| Scanner.OpenersSkip | kFormat-ToString/kFormat-ToString/ToString.hpp:197-199 | skipping text without `{` does not change which openers are queued |
| Scanner.IdentifiersAt | kFormat-ToString/kFormat-ToString/ToString.hpp:215-218 | a successful queue has one identifier per opener |
| Scanner.CreateIdentifiers | kFormat-ToString/kFormat-ToString/ToString.hpp:188-223 | the loop returns the scan of the whole template, or the first error it meets |
| Scanner.QueueAt | kFormat-ToString/kFormat-ToString/ToString.hpp:201-218 | one turn at an opener: skipped (resume at +3) or one identifier queued (resume at +1), or the error the turn stops with |
| Scanner.ParseIndex | kFormat-ToString/kFormat-ToString/ToString.hpp:210-215 | the index at an opener is `stoi` of the bracket text cut at `:`, modulo 256, or the `stoi` error |
| Scanner.ScanFromIsIdentifiersAt | kFormat-ToString/kFormat-ToString/ToString.hpp:197-219 | the scan queues the identifiers of exactly the queued openers, in order, and stops at the first bad index |
| Scanner.IdentifiersAtSound | kFormat-ToString/kFormat-ToString/ToString.hpp:215-218 | each queued identifier holds the index read at its opener, that index names an argument, and the tag is that argument's type name |
| Scanner.IdentifiersAtFails | kFormat-ToString/kFormat-ToString/ToString.hpp:215-216 | the queue fails exactly when some opener's index does not parse or is past the end of the pack |
| Scanner.IdentifiersIgnoreValues | kFormat-ToString/kFormat-ToString/ToString.hpp:216-218 | the queue depends on the arguments' type names, never their values |
| Scanner.ScanSound | kFormat-ToString/kFormat-ToString/ToString.hpp:197-218 | a successful scan has one identifier per queued opener, in template order, with the index `IndexAt` reads there and that argument's type name |
| Scanner.ScanFails | kFormat-ToString/kFormat-ToString/ToString.hpp:210-216 | the scan fails exactly when a queued opener's index does not parse or names no argument |
| Scanner.ScanIgnoresValues | kFormat-ToString/kFormat-ToString/ToString.hpp:248 | the scan runs once on the template, so argument values, and thus rendered text, never affect it |
| Scanner.NoBraceNoIdentifiers | kFormat-ToString/kFormat-ToString/ToString.hpp:197 | a template without `{` queues nothing |
| Dispatch.CString | kFormat-ToString/kFormat-ToString/ToString.hpp:277-284 | `insert(pos, p)` copies a prefix of the string up to, and not including, its first NUL |
| Dispatch.Render | kFormat-ToString/kFormat-ToString/ToString.hpp:267-424 | rendering fails, with the unsupported-type error, exactly for an argument no branch matches |
| Dispatch.RenderArgument | kFormat-ToString/kFormat-ToString/ToString.hpp:267-424 | each branch calls the renderer of its type with the padding; the result is `Render` |
| Dispatch.IntegralRenderingReadsBack | kFormat-ToString/kFormat-ToString/ToString.hpp:287-387 | an integral argument renders as text whose leading integer (`LeadingInt`, the strtol-family reading without a range check) is its value, at least as long as the width, with `-` exactly for negative values; `stoll` reads it back as its value exactly when the value is at most 2^63 − 1, and throws `out_of_range` above that |
| Dispatch.StringRenderingIsVerbatim | kFormat-ToString/kFormat-ToString/ToString.hpp:273-286 | a string, string view or C string without NUL is inserted verbatim, whatever the width |
| Dispatch.BoolRendering | kFormat-ToString/kFormat-ToString/ToString.hpp:400-420 | a bool renders as exactly `true` or `false` |
| Interpolation.InputPos | kFormat-ToString/kFormat-ToString/ToString.hpp:254 | one past the first `}` is within the template (0 when there is none, as `npos + 1` wraps) |
| Interpolation.ParseWidth | kFormat-ToString/kFormat-ToString/ToString.hpp:262 | the width is `stoll` of the text, reduced into `size_t`; it fails exactly when `stoll` throws, with that error |
| Interpolation.ReadPadding | kFormat-ToString/kFormat-ToString/ToString.hpp:256-263 | the padding is the sentinel without `:` after the `{`, else the width read after the `:` |
| Interpolation.ReplaceFirst | kFormat-ToString/kFormat-ToString/ToString.hpp:253-426 | one turn of the loop: the literal text before `{` plus the rendered argument, and the template after the first `}`, or the turn's error |
| Interpolation.ToString | kFormat-ToString/kFormat-ToString/ToString.hpp:227-434 | returns the printf engine's text for a template with `%`, and otherwise the scan followed by one pass over the queue and the tail |
| Interpolation.PrintfMode | kFormat-ToString/kFormat-ToString/ToString.hpp:239-242 | with `%` anywhere, the result is the printf engine's, and nothing is scanned or rendered by the dispatch |
| Interpolation.NoPlaceholdersIdentity | kFormat-ToString/kFormat-ToString/ToString.hpp:430-431 | a template with no `%` in which no opener is queued comes back unchanged |
| Interpolation.NoBraceIdentity | kFormat-ToString/kFormat-ToString/ToString.hpp:430-431 | a template with neither `{` nor `%` comes back unchanged |
| Interpolation.FirstCloserAt | kFormat-ToString/kFormat-ToString/ToString.hpp:254 | the section ends just after the first `}` |
| Interpolation.CutSectionFails | kFormat-ToString/kFormat-ToString/ToString.hpp:254-265 | cutting fails with `erase(npos)` exactly when no `{` comes before the first `}`, and otherwise only on a bad width |
| Interpolation.CutSectionShape | kFormat-ToString/kFormat-ToString/ToString.hpp:254-265 | a cut is the literal text (no `{`), a `{`, the body, the first `}`, then the rest, which is strictly shorter than the template |
| Interpolation.WidthReadsBody | kFormat-ToString/kFormat-ToString/ToString.hpp:262 | the over-long `substr(colonPos + 1, inputPos - 1)` reads the width between `:` and `}` |
| Interpolation.NoColonNoPadding | kFormat-ToString/kFormat-ToString/ToString.hpp:257-260 | with no `:` after the `{`, the padding is the sentinel |
| Interpolation.StepShape | kFormat-ToString/kFormat-ToString/ToString.hpp:254-426 | each turn emits the literal text then the rendering, and leaves a strictly shorter template |
| Templates.InterpolateSpelled | kFormat-ToString/kFormat-ToString/ToString.hpp:227-434 | a well-formed template interpolates to its literal texts with each placeholder replaced by its argument at its width, in template order, then the tail |
| Templates.NoPercentSpelled | kFormat-ToString/kFormat-ToString/ToString.hpp:239-242 | a well-formed brace template holds no `%`, so it never takes the printf path |
| Templates.ScanSpelled | kFormat-ToString/kFormat-ToString/ToString.hpp:197-219 | scanning a laid-out template queues one identifier per placeholder, in template order |
| Templates.ChunkScan | kFormat-ToString/kFormat-ToString/ToString.hpp:197-208 | at a placeholder the scan finds its `{`, does not skip it, and next finds nothing before the placeholder's end |
| Templates.ChunkReader | kFormat-ToString/kFormat-ToString/ToString.hpp:210-215 | the index read at a placeholder's `{` is the index written there |
| Templates.WidthSpelled | kFormat-ToString/kFormat-ToString/ToString.hpp:256-263 | the padding read from `{i}` is the sentinel, and from `{i:w}` it is `w` |
| Templates.CutSpelled | kFormat-ToString/kFormat-ToString/ToString.hpp:254-265 | cutting a template that starts with a placeholder yields its literal text, its padding and the text after it |
| Templates.ExpandSpelled | kFormat-ToString/kFormat-ToString/ToString.hpp:251-431 | the loop over a well-formed template's identifiers produces its meaning |

## Left out

- The printf-style path (`MakeStringFromData`, lines 152-185) is a parameter, `Renderers.printf`. Only the `%` switch that leads to it is modelled.
- `kString::Convert` is not modelled. Code units are Dafny `char`s of a single width, and the wide character types are not modelled separately, nor are their `true`/`false` literals.
- `GetValue`/`GetValuePtr` overload selection and `std::any` are not modelled. Arguments are the `Arguments.Arg` datatype. The per-type `static` string that is overwritten on each capture is not modelled.
- `StringFloatingPoint` and `StringifyPointer` are in files not part of this model. They are opaque parameters, `Renderers.floating` and `Renderers.pointer`.
- `PrependPadding` and `nPrecision` live in `StringifyHelper.hpp`, which is not part of this model. `StringifyInteger.PrependPadding` assumes zeros go after a leading `-` up to the minimum length. `StringifyInteger.NPrecision` is assumed to be 2^64 - 1.
- Dispatch.Render: dispatches on the intended type of each branch. The type-name substring tests are not modelled, and as written some of them send an argument to the wrong `any_cast`, which throws `std::bad_any_cast`:
  - An `unsigned long` argument: `find_first_of("long long")` at line 318 matches any name holding one of those letters, so it reaches the `unsigned long long` cast at line 321.
  - A `long` argument: its type name is `long const * __ptr64`. `find_first_of("double", longPos + 4)` at line 335 matches the `o` of `const`, so it reaches the `long double` cast at line 337.
- Dispatch.StringRenderingIsVerbatim / Arguments.StringView: a string view is assumed to be followed in memory by a NUL. Line 277 inserts `data()` as a C string, which reads up to the next NUL, not up to the view's length. A view that ends before its underlying string ends (such as `std::string_view("hello world").substr(0, 5)`) inserts the whole rest of that string in the C++, whereas the model inserts only the view.
- Arguments.Arg: there is no case for a `char` or `signed char` value argument. `GetValuePtr` (lines 126-134) captures such an argument as a pointer to the single character.
  - A `char` reaches the `char` branch at line 360. Its `insert(replacePos, data)` reads from the character's address up to the next NUL in memory, not just the character.
  - A `signed char` reaches the same branch and throws at the `any_cast<const CharType*>` of line 362.
  - The model does not represent memory beyond an argument, so neither case is modelled.
- Interpolation.ToString: iterating over the queue with range-for while calling `pop_front` (lines 251, 427) is undefined behaviour in C++. It is modelled as one left-to-right pass.
- Interpolation.Expand: the unchecked read `elems[id.first]` (lines 216, 253) past the argument pack is modelled as the error `IndexOutOfRange`, not as undefined behaviour.
- The `const CharType*` overload (lines 437-442) is not modelled; it only wraps the string overload. The stream-based `ToString(T&&)` (lines 445-450) is not modelled; it is stream I/O.
- Scanner.ReaderOf: its result at a position without `{` is never read, so the error value there is a placeholder.
- Exceptions are modelled as `Arguments.Error` results. The exception types and messages are not modelled.
- Templates.InterpolateSpelled: covers templates whose literal texts hold no brace and no `%`. Templates with escaped openers are covered by the scanner and driver lemmas, not by this theorem.
- StringifyInteger.StringSignedIntegral: states the intended text. For `short` the code as written differs; see Findings.

## Findings

| source | as written | input that shows it | evidently intended | confidence | as-written member | corrected member |
|---|---|---|---|---|---|---|
| kFormat-ToString/kFormat-ToString/Stringify/StringifyInteger.hpp:44 | for `short`, `0 - uVal` promotes the `unsigned short` to `int`, so a negative `int` reaches `UintToStr`, whose truncating `%` yields code units below `'0'` | `StringSignedIntegral<char, short>(-42, nPrecision)` builds `-*+,',` | `-42`: the magnitude taken in the unsigned type, as for `int` and wider | not executed | StringifyInteger.ShortNegativeAsWritten | StringifyInteger.SignedIntegralRoundTrip |
