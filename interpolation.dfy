/**
 * The brace-mode body of ToString (ToString.hpp:227-434): the `%` mode switch,
 * one scan of the template, then one pass over the queued identifiers that cuts
 * the working template at its first '}', keeps the text before its first '{',
 * reads an optional `:width`, renders the argument, and drops the consumed
 * section; the remaining tail is appended at the end.
 */
module Interpolation {
  import opened Wrappers
  import opened StdParse
  import opened Arguments
  import opened Scanner
  import opened Dispatch
  import SI = StringifyInteger

  /** 2^64: a long long stored into a size_t is reduced modulo this. */
  const SizeModulus: nat := 0x1_0000_0000_0000_0000

  /** One past the first '}' of fmt: `find_first_of('}') + 1` (line 254), which
      wraps from npos to 0 when there is no '}'. */
  function InputPos(fmt: string): (p: nat)
    ensures p <= |fmt|
  {
    match FindFirst(fmt, '}', 0)
    case None => 0
    case Some(c) => c + 1
  }

  /** The width written as text: std::stoll, then stored into the size_t padding
      (line 262). A negative width wraps, and -1 becomes the "no width" sentinel. */
  function ParseWidth(text: string): (r: Result<nat, Error>)
    ensures r.Success? ==> r.value < SizeModulus
    ensures r.Success? <==> Stoll(text).Success?
    ensures r.Failure? ==> r.error == BadWidth(Stoll(text).error)
  {
    match Stoll(text)
    case Failure(e) => Failure(BadWidth(e))
    case Success(v) => Success(v % SizeModulus)
  }

  /** The padding for the section whose '{' is at replacePos (lines 256-263): the
      sentinel when no ':' follows the '{' in the section, otherwise the width read
      from `substr(colonPos + 1, inputPos - 1)`, a count that runs to the section's
      end. */
  function WidthOf(section: string, replacePos: nat): Result<nat, Error>
    requires replacePos < |section|
  {
    match FindFirst(section, ':', replacePos)
    case None => Success(SI.NPrecision)
    case Some(colon) => ParseWidth(Substr(section, colon + 1, |section| - 1))
  }

  /** The working template cut at its first section: the literal text before the
      section's '{', the padding, and what remains after the section's '}'. */
  datatype Cut = Cut(literal: string, width: nat, rest: string)

  /** Lines 254-265 and 426. With no '{' in the section (which includes the case
      of no '}' at all, where the section is empty) `erase(npos)` throws. */
  function CutSection(fmt: string): Result<Cut, Error>
  {
    var inputPos := InputPos(fmt);
    var section := fmt[..inputPos];
    match FindFirst(section, '{', 0)
    case None => Failure(NoOpenerInSection)
    case Some(replacePos) =>
      var width :- WidthOf(section, replacePos);
      Success(Cut(section[..replacePos], width, fmt[inputPos..]))
  }

  /** What one turn of the loop emits, and the template it leaves. */
  datatype Piece = Piece(emitted: string, rest: string)

  /** One turn of the loop of lines 251-428 for the argument `arg`. */
  function Step(fmt: string, arg: Arg, env: Renderers): Result<Piece, Error>
  {
    var cut :- CutSection(fmt);
    var text :- Render(arg, cut.width, env);
    Success(Piece(cut.literal + text, cut.rest))
  }

  /** The loop over the queue, then the tail (lines 251-431). An index past the
      argument pack (an unchecked read in the C++) is an error here. */
  function Expand(fmt: string, args: seq<Arg>, ids: seq<Identifier>, env: Renderers): Result<string, Error>
    decreases |ids|
  {
    if ids == [] then Success(fmt)
    else if ids[0].index >= |args| then Failure(IndexOutOfRange)
    else
      var piece :- Step(fmt, args[ids[0].index], env);
      var tail :- Expand(piece.rest, args, ids[1..], env);
      Success(piece.emitted + tail)
  }

  /** What ToString(format, args...) returns (lines 227-434): a template holding
      '%' anywhere goes to the printf-style engine; any other is scanned once and
      expanded. */
  function Interpolate(format: string, args: seq<Arg>, env: Renderers): Result<string, Error>
  {
    if '%' in format then
      match env.printf(format, args)
      case None => Failure(ConversionFailure)
      case Some(text) => Success(text)
    else
      var ids :- Scan(format, args);
      Expand(format, args, ids, env)
  }

  /** Prefixes text already emitted onto a result. */
  function PrependText(done: string, r: Result<string, Error>): Result<string, Error> {
    match r
    case Success(s) => Success(done + s)
    case Failure(e) => Failure(e)
  }

  /** ToString (lines 227-434). */
  method ToString(format: string, args: seq<Arg>, env: Renderers) returns (r: Result<string, Error>)
    ensures r == Interpolate(format, args, env)
  {
    var pfSymPos := FindFirst(format, '%', 0);
    PercentFound(format);
    if pfSymPos.Some? {
      var text := env.printf(format, args);
      if text.None? {
        return Failure(ConversionFailure);
      }
      return Success(text.value);
    }
    var fmt := format;
    var scanned := CreateIdentifiers(fmt, args);
    if scanned.Failure? {
      return Failure(scanned.error);
    }
    var identifiers := scanned.value;
    var finalString := "";
    PrependNothing(Expand(fmt, args, identifiers, env));
    while identifiers != []
      invariant Interpolate(format, args, env) == PrependText(finalString, Expand(fmt, args, identifiers, env))
      decreases |identifiers|
    {
      var id := identifiers[0];
      if id.index >= |args| {
        return Failure(IndexOutOfRange);
      }
      var piece := ReplaceFirst(fmt, args[id.index], env);
      if piece.Failure? {
        return Failure(piece.error);
      }
      ExpandStep(fmt, args, identifiers, env, finalString, piece.value);
      finalString := finalString + piece.value.emitted;
      fmt := piece.value.rest;
      identifiers := identifiers[1..];
    }
    r := Success(finalString + fmt);
  }

  /** Lines 254-265, the dispatch of lines 267-424, and line 426: one section of
      the working template replaced by the rendered argument. */
  method ReplaceFirst(fmt: string, val: Arg, env: Renderers) returns (r: Result<Piece, Error>)
    ensures r == Step(fmt, val, env)
  {
    var inputPos := InputPos(fmt);
    var currentSection := fmt[..inputPos];
    var replacePos := FindFirst(currentSection, '{', 0);
    if replacePos.None? {
      return Failure(NoOpenerInSection);
    }
    var width := ReadPadding(currentSection, replacePos.value);
    if width.Failure? {
      return Failure(width.error);
    }
    var padding := width.value;
    CutSectionAt(fmt, replacePos.value, padding);
    currentSection := currentSection[..replacePos.value];
    var text := RenderArgument(val, padding, env);
    if text.Failure? {
      return Failure(text.error);
    }
    currentSection := currentSection + text.value;
    r := Success(Piece(currentSection, fmt[inputPos..]));
  }

  /** Lines 256-263: the padding of the section whose '{' is at replacePos. */
  method ReadPadding(currentSection: string, replacePos: nat) returns (r: Result<nat, Error>)
    requires replacePos < |currentSection|
    ensures r == WidthOf(currentSection, replacePos)
  {
    var colonPos := FindFirst(currentSection, ':', replacePos);
    var padding := SI.NPrecision;
    if colonPos.Some? {
      var inputPos := |currentSection|;
      var width := ParseWidth(Substr(currentSection, colonPos.value + 1, inputPos - 1));
      if width.Failure? {
        return Failure(width.error);
      }
      padding := width.value;
    }
    r := Success(padding);
  }

  // ---------------------------------------------------------------------------
  // The loop, one turn at a time
  // ---------------------------------------------------------------------------

  lemma CutSectionAt(fmt: string, replacePos: nat, width: nat)
    requires FindFirst(fmt[..InputPos(fmt)], '{', 0) == Some(replacePos)
    requires WidthOf(fmt[..InputPos(fmt)], replacePos) == Success(width)
    ensures CutSection(fmt) == Success(Cut(fmt[..InputPos(fmt)][..replacePos], width, fmt[InputPos(fmt)..]))
  {
  }

  lemma PercentFound(format: string)
    ensures FindFirst(format, '%', 0).Some? <==> '%' in format
  {
    FindFirstIsFirst(format, '%', 0);
  }

  lemma PrependNothing(r: Result<string, Error>)
    ensures PrependText("", r) == r
  {
    if r.Success? {
      assert "" + r.value == r.value;
    }
  }

  lemma ExpandStep(fmt: string, args: seq<Arg>, ids: seq<Identifier>, env: Renderers, done: string, piece: Piece)
    requires ids != [] && ids[0].index < |args| && Step(fmt, args[ids[0].index], env) == Success(piece)
    ensures PrependText(done, Expand(fmt, args, ids, env))
         == PrependText(done + piece.emitted, Expand(piece.rest, args, ids[1..], env))
  {
    match Expand(piece.rest, args, ids[1..], env)
    case Failure(_) =>
    case Success(tail) =>
      assert done + (piece.emitted + tail) == (done + piece.emitted) + tail;
  }

  // ---------------------------------------------------------------------------
  // Properties
  // ---------------------------------------------------------------------------

  /** A template holding '%' anywhere is handed whole to the printf-style engine:
      no placeholder is scanned and no argument is rendered by the dispatch. */
  lemma PrintfMode(format: string, args: seq<Arg>, env: Renderers)
    requires '%' in format
    ensures Interpolate(format, args, env).Success? <==> env.printf(format, args).Some?
    ensures Interpolate(format, args, env).Success? ==> Interpolate(format, args, env).value == env.printf(format, args).value
    ensures Interpolate(format, args, env).Failure? ==> Interpolate(format, args, env).error == ConversionFailure
  {
  }

  /** A template in which the scanner queues no placeholder comes back unchanged. */
  lemma NoPlaceholdersIdentity(format: string, args: seq<Arg>, env: Renderers)
    requires '%' !in format && OpenersFrom(format, 0) == []
    ensures Interpolate(format, args, env) == Success(format)
  {
    ScanFromIsIdentifiersAt(format, args, ReaderOf(format), 0, []);
  }

  /** In particular, so does a template without '{' and '%'. */
  lemma NoBraceIdentity(format: string, args: seq<Arg>, env: Renderers)
    requires '%' !in format && '{' !in format
    ensures Interpolate(format, args, env) == Success(format)
  {
    NoBraceNoIdentifiers(format, args);
  }

  /** There is a section to cut: a '}' with a '{' before it and no other '}' before
      that one. */
  predicate HasSection(fmt: string) {
    exists j, k :: 0 <= j < k < |fmt| && fmt[j] == '{' && fmt[k] == '}' && ClosesFirst(fmt, k)
  }

  /** The '}' at k is the first one. */
  predicate ClosesFirst(fmt: string, k: nat)
    requires k < |fmt|
  {
    forall i :: 0 <= i < k ==> fmt[i] != '}'
  }

  /** Cutting fails with NoOpenerInSection exactly when there is no section, and
      otherwise only when the width does not parse. */
  lemma CutSectionFails(fmt: string)
    ensures CutSection(fmt) == Failure(NoOpenerInSection) <==> !HasSection(fmt)
    ensures CutSection(fmt).Failure? && HasSection(fmt) ==> CutSection(fmt).error.BadWidth?
  {
    var section := fmt[..InputPos(fmt)];
    if HasSection(fmt) {
      var j, k :| 0 <= j < k < |fmt| && fmt[j] == '{' && fmt[k] == '}' && ClosesFirst(fmt, k);
      FirstCloserAt(fmt, k);
      FindFirstIsFirst(section, '{', 0);
      assert section[j] == '{';
    } else if FindFirst(section, '{', 0).Some? {
      SectionWitness(fmt);
    }
  }

  lemma FirstCloserAt(fmt: string, k: nat)
    requires k < |fmt| && fmt[k] == '}' && ClosesFirst(fmt, k)
    ensures FindFirst(fmt, '}', 0) == Some(k) && InputPos(fmt) == k + 1
  {
    FindFirstSkip(fmt, '}', 0, k);
  }

  /** A '{' in the section cut at the first '}' makes a section. */
  lemma SectionWitness(fmt: string)
    requires FindFirst(fmt[..InputPos(fmt)], '{', 0).Some?
    ensures HasSection(fmt)
  {
    var section := fmt[..InputPos(fmt)];
    var j := FindFirst(section, '{', 0).value;
    var k := InputPos(fmt) - 1;
    FindFirstIsFirst(fmt, '}', 0);
    assert fmt[j] == '{' && fmt[k] == '}' && ClosesFirst(fmt, k);
  }

  /** A cut section is the literal text, a '{', the placeholder body and the first
      '}'; the literal holds no '{', and the remaining template is strictly
      shorter. */
  lemma CutSectionShape(fmt: string)
    requires CutSection(fmt).Success?
    ensures var cut := CutSection(fmt).value;
      var k, n := |cut.literal|, |fmt| - |cut.rest|;
      k < n && fmt == fmt[..n] + cut.rest && cut.literal == fmt[..k]
      && fmt[k] == '{' && fmt[n - 1] == '}' && ClosesFirst(fmt, n - 1)
      && (forall i :: 0 <= i < k ==> fmt[i] != '{')
  {
    var inputPos := InputPos(fmt);
    var section := fmt[..inputPos];
    FindFirstIsFirst(fmt, '}', 0);
    FindFirstIsFirst(section, '{', 0);
    var cut := CutSection(fmt).value;
    var replacePos := FindFirst(section, '{', 0).value;
    assert |cut.literal| == replacePos;
    assert |fmt| - |cut.rest| == inputPos;
    forall i | 0 <= i < replacePos
      ensures fmt[i] != '{'
    {
      assert fmt[i] == section[i];
    }
  }

  /** The width is read from the text between the ':' and the section's '}': the
      over-long count of line 262 ends at the section's end, and std::stoll stops at
      that '}'. */
  lemma WidthReadsBody(section: string, replacePos: nat, colon: nat)
    requires replacePos < |section| && section[|section| - 1] == '}'
    requires FindFirst(section, ':', replacePos) == Some(colon)
    ensures colon < |section| - 1
    ensures WidthOf(section, replacePos) == ParseWidth(section[colon + 1..|section| - 1])
  {
    var x := Substr(section, colon + 1, |section| - 1);
    var y := section[colon + 1..|section| - 1];
    assert x == section[colon + 1..];
    assert x[..|y|] == y && x[|y|] == '}';
    LeadingIntStopsAt(x, y, |y|);
  }

  /** Without a ':' after the '{', the padding is the sentinel, which renders
      integers with no padding. */
  lemma NoColonNoPadding(section: string, replacePos: nat)
    requires replacePos < |section|
    requires forall i :: replacePos <= i < |section| ==> section[i] != ':'
    ensures WidthOf(section, replacePos) == Success(SI.NPrecision)
  {
    FindFirstSkip(section, ':', replacePos, |section|);
  }

  /** Each turn emits the literal text before the section's '{' followed by the
      rendered argument, and leaves the template after the section's '}'. */
  lemma StepShape(fmt: string, arg: Arg, env: Renderers)
    requires Step(fmt, arg, env).Success?
    ensures var piece := Step(fmt, arg, env).value;
      var cut := CutSection(fmt).value;
      CutSection(fmt).Success? && Render(arg, cut.width, env).Success?
      && piece.emitted == cut.literal + Render(arg, cut.width, env).value
      && piece.rest == cut.rest && |piece.rest| < |fmt|
  {
    CutSectionShape(fmt);
  }
}
