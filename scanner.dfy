/**
 * The placeholder scanner, CreateIdentifiers (ToString.hpp:188-223): one pass over
 * the template that queues, for every opening brace it does not skip, the
 * argument index written after it and the type name of that argument.
 */
module Scanner {
  import opened Wrappers
  import opened StdParse
  import opened Arguments

  /** std::basic_string::npos on a 64-bit target. */
  const Npos: nat := 0xFFFF_FFFF_FFFF_FFFF

  /** find_first_of(c, from) / find(c, from) for one code unit: the first position
      at or after `from` that holds c, or None (npos). */
  function FindFirst(s: string, c: char, from: nat): (r: Option<nat>)
    ensures r.Some? ==> from <= r.value < |s| && s[r.value] == c
    decreases |s| - from
  {
    if from >= |s| then None
    else if s[from] == c then Some(from)
    else FindFirst(s, c, from + 1)
  }

  /** FindFirst finds the first occurrence: there is no c between `from` and the
      position found, or after `from` at all when nothing is found. */
  lemma {:induction false} FindFirstIsFirst(s: string, c: char, from: nat)
    ensures FindFirst(s, c, from).Some? ==> forall j :: from <= j < FindFirst(s, c, from).value ==> s[j] != c
    ensures FindFirst(s, c, from).None? ==> forall j :: from <= j < |s| ==> s[j] != c
    decreases |s| - from
  {
    if from < |s| && s[from] != c {
      FindFirstIsFirst(s, c, from + 1);
    }
  }

  /** Searching from before a stretch without c finds what searching after it finds. */
  lemma {:induction false} FindFirstSkip(s: string, c: char, a: nat, b: nat)
    requires a <= b && forall j :: a <= j < b && j < |s| ==> s[j] != c
    ensures FindFirst(s, c, a) == FindFirst(s, c, b)
    decreases b - a
  {
    if a < b && a < |s| {
      FindFirstSkip(s, c, a + 1, b);
    }
  }

  /** s[i] as std::basic_string::operator[] reads it: the terminator at i == size(). */
  function At(s: string, i: nat): char
    requires i <= |s|
  {
    if i < |s| then s[i] else '\0'
  }

  /** A code unit after '{' that makes the scanner skip the brace (lines 201-204). */
  predicate IsEscape(c: char) {
    c == '{' || c == ' ' || c == '\t' || c == '\0'
  }

  /** substr(pos, count): at most `count` code units starting at pos. */
  function Substr(s: string, pos: nat, count: nat): string
    requires pos <= |s|
  {
    if pos + count <= |s| then s[pos..pos + count] else s[pos..]
  }

  /** substr(0, find_first_of(':')): the text before the first ':' (all of it if none). */
  function BeforeColon(s: string): string
  {
    match FindFirst(s, ':', 0)
    case None => s
    case Some(k) => s[..k]
  }

  /** BeforeColon cuts s just before its first ':', and only there. */
  lemma BeforeColonCuts(s: string)
    ensures BeforeColon(s) <= s && ':' !in BeforeColon(s)
    ensures |BeforeColon(s)| < |s| ==> s[|BeforeColon(s)|] == ':'
  {
    FindFirstIsFirst(s, ':', 0);
  }

  /** The text handed to std::stoi for the opener at o (lines 210-214): `closePos - 1`
      code units from o + 1, which is a count and not an end position, then cut at
      the first ':'. With no '}' at all the count is npos - 1, i.e. the rest. */
  function IndexText(fmt: string, o: nat): string
    requires o < |fmt| && fmt[o] == '{'
  {
    match FindFirst(fmt, '}', o)
    case None => BeforeColon(Substr(fmt, o + 1, Npos - 1))
    case Some(c) => BeforeColon(Substr(fmt, o + 1, c - 1))
  }

  /** The index queued for the opener at o: std::stoi, then static_cast<unsigned char>,
      which keeps the value modulo 256 (line 215). */
  function IndexAt(fmt: string, o: nat): (r: Result<nat, Error>)
    requires o < |fmt| && fmt[o] == '{'
    ensures r.Success? ==> r.value < 256
  {
    match Stoi(IndexText(fmt, o))
    case Failure(e) => Failure(BadIndex(e))
    case Success(v) => Success(v % 256)
  }

  /** How the scan reads the index at an opener. The scan is stated for any reader;
      the template's own reader is IndexAt (positions without '{' are never read). */
  type IndexReader = nat -> Result<nat, Error>

  function ReaderOf(fmt: string): IndexReader {
    (o: nat) => if o < |fmt| && fmt[o] == '{' then IndexAt(fmt, o) else Failure(BadIndex(InvalidArgument))
  }

  /** The openers, from `from` on, at which the loop of lines 197-219 queues an
      identifier: a skipped opener resumes the search three code units further on
      (`openerPos += 2`, then the loop's own `+ 1`), any other one code unit on. */
  function OpenersFrom(fmt: string, from: nat): (os: seq<nat>)
    ensures forall k :: 0 <= k < |os| ==> from <= os[k] < |fmt| && fmt[os[k]] == '{'
    decreases |fmt| + 1 - from
  {
    match FindFirst(fmt, '{', from)
    case None => []
    case Some(o) =>
      if IsEscape(At(fmt, o + 1)) then OpenersFrom(fmt, o + 3)
      else [o] + OpenersFrom(fmt, o + 1)
  }

  /** One queued pair: the argument index and the argument's type name. */
  datatype Identifier = Identifier(index: nat, tag: TypeTag)

  /** The identifiers of the openers os, in order, or the first error among them. */
  function IdentifiersAt(args: seq<Arg>, index: IndexReader, os: seq<nat>): (r: Result<seq<Identifier>, Error>)
    ensures r.Success? ==> |r.value| == |os|
    decreases |os|
  {
    if os == [] then Success([])
    else
      var idx :- index(os[0]);
      if idx >= |args| then Failure(IndexOutOfRange)
      else
        var rest :- IdentifiersAt(args, index, os[1..]);
        Success([Identifier(idx, TagOf(args[idx]))] + rest)
  }

  /** The loop of lines 197-219 from `from` on, with `acc` already queued: what
      CreateIdentifiers returns, or the error it stops with. */
  function ScanFrom(fmt: string, args: seq<Arg>, index: IndexReader, from: nat, acc: seq<Identifier>)
    : Result<seq<Identifier>, Error>
    decreases |fmt| + 1 - from, 0
  {
    match FindFirst(fmt, '{', from)
    case None => Success(acc)
    case Some(o) => ScanAt(fmt, args, index, o, acc)
  }

  /** The same loop at the opener o. */
  function ScanAt(fmt: string, args: seq<Arg>, index: IndexReader, o: nat, acc: seq<Identifier>)
    : Result<seq<Identifier>, Error>
    requires o < |fmt|
    decreases |fmt| - o, 1
  {
    if IsEscape(At(fmt, o + 1)) then ScanFrom(fmt, args, index, o + 3, acc)
    else match index(o)
      case Failure(e) => Failure(e)
      case Success(idx) =>
        if idx >= |args| then Failure(IndexOutOfRange)
        else ScanFrom(fmt, args, index, o + 1, acc + [Identifier(idx, TagOf(args[idx]))])
  }

  /** What CreateIdentifiers returns for a template and an argument pack. */
  function Scan(fmt: string, args: seq<Arg>): Result<seq<Identifier>, Error> {
    ScanFrom(fmt, args, ReaderOf(fmt), 0, [])
  }

  /** Prefixes already-queued identifiers onto a result. */
  function PrependIds(done: seq<Identifier>, r: Result<seq<Identifier>, Error>): Result<seq<Identifier>, Error> {
    match r
    case Success(ids) => Success(done + ids)
    case Failure(e) => Failure(e)
  }

  /** CreateIdentifiers (lines 188-223). */
  method CreateIdentifiers(fmt: string, args: seq<Arg>) returns (r: Result<seq<Identifier>, Error>)
    ensures r == Scan(fmt, args)
  {
    var identifiers: seq<Identifier> := [];
    ghost var from: nat := 0;
    var openerPos := FindFirst(fmt, '{', 0);
    while openerPos.Some?
      invariant openerPos == FindFirst(fmt, '{', from)
      invariant Scan(fmt, args) == ScanFrom(fmt, args, ReaderOf(fmt), from, identifiers)
      decreases if openerPos.Some? then |fmt| - openerPos.value else 0
    {
      var o := openerPos.value;
      var queued := QueueAt(fmt, args, from, o, identifiers);
      if queued.Failure? {
        return queued;
      }
      identifiers := queued.value;
      ghost var resume := if IsEscape(At(fmt, o + 1)) then o + 3 else o + 1;
      if IsEscape(At(fmt, o + 1)) {
        openerPos := FindFirst(fmt, '{', o + 2 + 1);
      } else {
        openerPos := FindFirst(fmt, '{', o + 1);
      }
      from := resume;
    }
    r := Success(identifiers);
  }

  /** Lines 201-218: what the loop does with the opener at o. */
  method QueueAt(fmt: string, args: seq<Arg>, ghost from: nat, o: nat, identifiers: seq<Identifier>)
    returns (r: Result<seq<Identifier>, Error>)
    requires FindFirst(fmt, '{', from) == Some(o)
    ensures r.Failure? ==> ScanFrom(fmt, args, ReaderOf(fmt), from, identifiers) == r
    ensures r.Success? && IsEscape(At(fmt, o + 1)) ==>
      ScanFrom(fmt, args, ReaderOf(fmt), from, identifiers) == ScanFrom(fmt, args, ReaderOf(fmt), o + 3, r.value)
    ensures r.Success? && !IsEscape(At(fmt, o + 1)) ==>
      ScanFrom(fmt, args, ReaderOf(fmt), from, identifiers) == ScanFrom(fmt, args, ReaderOf(fmt), o + 1, r.value)
  {
    ScanFromStep(fmt, args, ReaderOf(fmt), from, identifiers, o);
    if IsEscape(At(fmt, o + 1)) {
      ScanAtEscape(fmt, args, ReaderOf(fmt), o, identifiers);
      return Success(identifiers);
    }
    ScanAtQueue(fmt, args, ReaderOf(fmt), o, identifiers);
    var parsed := ParseIndex(fmt, o);
    assert parsed == ReaderOf(fmt)(o);
    if parsed.Failure? {
      return Failure(parsed.error);
    }
    var idx := parsed.value;
    if idx >= |args| {
      return Failure(IndexOutOfRange);
    }
    r := Success(identifiers + [Identifier(idx, TagOf(args[idx]))]);
  }

  /** Lines 210-215: the index of the placeholder whose opener is at o. */
  method ParseIndex(fmt: string, o: nat) returns (r: Result<nat, Error>)
    requires o < |fmt| && fmt[o] == '{'
    ensures r == IndexAt(fmt, o)
  {
    var closePos := FindFirst(fmt, '}', o);
    var count: nat := if closePos.None? then Npos - 1 else closePos.value - 1;
    var bracket := Substr(fmt, o + 1, count);
    var optionIndex := BeforeColon(bracket);
    var parsed := Stoi(optionIndex);
    if parsed.Failure? {
      return Failure(BadIndex(parsed.error));
    }
    r := Success(parsed.value % 256);
  }

  // ---------------------------------------------------------------------------
  // One turn of the loop, as equations
  // ---------------------------------------------------------------------------

  lemma ScanFromStep(fmt: string, args: seq<Arg>, index: IndexReader, from: nat, acc: seq<Identifier>, o: nat)
    requires FindFirst(fmt, '{', from) == Some(o)
    ensures ScanFrom(fmt, args, index, from, acc) == ScanAt(fmt, args, index, o, acc)
  {
  }

  lemma ScanAtEscape(fmt: string, args: seq<Arg>, index: IndexReader, o: nat, acc: seq<Identifier>)
    requires o < |fmt| && IsEscape(At(fmt, o + 1))
    ensures ScanAt(fmt, args, index, o, acc) == ScanFrom(fmt, args, index, o + 3, acc)
  {
  }

  lemma ScanAtQueue(fmt: string, args: seq<Arg>, index: IndexReader, o: nat, acc: seq<Identifier>)
    requires o < |fmt| && !IsEscape(At(fmt, o + 1))
    ensures index(o).Failure? ==> ScanAt(fmt, args, index, o, acc) == Failure(index(o).error)
    ensures index(o).Success? && index(o).value >= |args| ==> ScanAt(fmt, args, index, o, acc) == Failure(IndexOutOfRange)
    ensures index(o).Success? && index(o).value < |args| ==>
      ScanAt(fmt, args, index, o, acc)
      == ScanFrom(fmt, args, index, o + 1, acc + [Identifier(index(o).value, TagOf(args[index(o).value]))])
  {
  }

  lemma OpenersFromStep(fmt: string, from: nat, o: nat)
    requires FindFirst(fmt, '{', from) == Some(o)
    ensures IsEscape(At(fmt, o + 1)) ==> OpenersFrom(fmt, from) == OpenersFrom(fmt, o + 3)
    ensures !IsEscape(At(fmt, o + 1)) ==> OpenersFrom(fmt, from) == [o] + OpenersFrom(fmt, o + 1)
  {
  }

  /** An opener whose index fails or is out of range stops the scan with that error. */
  lemma IdentifiersAtFirst(args: seq<Arg>, index: IndexReader, o: nat, tail: seq<nat>)
    requires index(o).Failure? || index(o).value >= |args|
    ensures IdentifiersAt(args, index, [o] + tail)
         == if index(o).Failure? then Failure(index(o).error) else Failure(IndexOutOfRange)
  {
    assert ([o] + tail)[0] == o;
  }

  /** An opener whose index names an argument adds one identifier in front. */
  lemma IdentifiersAtStep(args: seq<Arg>, index: IndexReader, done: seq<Identifier>, o: nat, tail: seq<nat>, idx: nat)
    requires index(o) == Success(idx) && idx < |args|
    ensures PrependIds(done, IdentifiersAt(args, index, [o] + tail))
         == PrependIds(done + [Identifier(idx, TagOf(args[idx]))], IdentifiersAt(args, index, tail))
  {
    var os := [o] + tail;
    assert os[0] == o && os[1..] == tail;
    var id := Identifier(idx, TagOf(args[idx]));
    match IdentifiersAt(args, index, tail)
    case Failure(e) =>
    case Success(rest) =>
      assert IdentifiersAt(args, index, os) == Success([id] + rest);
      assert done + ([id] + rest) == (done + [id]) + rest;
  }

  // ---------------------------------------------------------------------------
  // Which openers are queued
  // ---------------------------------------------------------------------------

  /** Each of os is followed by a code unit other than '{', space, tab and the
      terminator. */
  predicate NotEscaped(fmt: string, os: seq<nat>) {
    forall k :: 0 <= k < |os| ==> os[k] < |fmt| && !IsEscape(At(fmt, os[k] + 1))
  }

  /** No queued opener is one that the loop skips. */
  lemma {:induction false} OpenersFromNotEscaped(fmt: string, from: nat)
    ensures NotEscaped(fmt, OpenersFrom(fmt, from))
    decreases |fmt| + 1 - from
  {
    match FindFirst(fmt, '{', from)
    case None =>
    case Some(o) =>
      OpenersFromStep(fmt, from, o);
      if IsEscape(At(fmt, o + 1)) {
        OpenersFromNotEscaped(fmt, o + 3);
      } else {
        OpenersFromNotEscaped(fmt, o + 1);
        NotEscapedCons(fmt, o, OpenersFrom(fmt, o + 1));
      }
  }

  lemma NotEscapedCons(fmt: string, o: nat, tail: seq<nat>)
    requires o < |fmt| && !IsEscape(At(fmt, o + 1)) && NotEscaped(fmt, tail)
    ensures NotEscaped(fmt, [o] + tail)
  {
    var os := [o] + tail;
    forall k | 0 <= k < |os|
      ensures os[k] < |fmt| && !IsEscape(At(fmt, os[k] + 1))
    {
      if k > 0 {
        assert os[k] == tail[k - 1];
      }
    }
  }

  predicate Increasing(os: seq<nat>) {
    forall k, l :: 0 <= k < l < |os| ==> os[k] < os[l]
  }

  /** The openers are queued in strictly increasing position. */
  lemma {:induction false} OpenersFromIncreasing(fmt: string, from: nat)
    ensures Increasing(OpenersFrom(fmt, from))
    decreases |fmt| + 1 - from
  {
    match FindFirst(fmt, '{', from)
    case None =>
    case Some(o) =>
      OpenersFromStep(fmt, from, o);
      if IsEscape(At(fmt, o + 1)) {
        OpenersFromIncreasing(fmt, o + 3);
      } else {
        OpenersFromIncreasing(fmt, o + 1);
        IncreasingCons(o, OpenersFrom(fmt, o + 1));
      }
  }

  lemma IncreasingCons(o: nat, tail: seq<nat>)
    requires Increasing(tail) && forall k :: 0 <= k < |tail| ==> o < tail[k]
    ensures Increasing([o] + tail)
  {
    var os := [o] + tail;
    forall k, l | 0 <= k < l < |os|
      ensures os[k] < os[l]
    {
      assert os[l] == tail[l - 1];
      if k > 0 {
        assert os[k] == tail[k - 1];
      }
    }
  }

  /** Skipping a stretch without '{' does not change which openers are queued. */
  lemma OpenersSkip(fmt: string, a: nat, b: nat)
    requires a <= b <= |fmt|
    requires forall j :: a <= j < b ==> fmt[j] != '{'
    ensures OpenersFrom(fmt, a) == OpenersFrom(fmt, b)
  {
    FindFirstSkip(fmt, '{', a, b);
  }

  /** A template in which no '{' is followed by '{', space, tab or the end has a
      placeholder at every '{', and nowhere else. */
  lemma {:induction false} AllOpenersWhenNoEscapes(fmt: string, from: nat)
    requires forall j :: from <= j < |fmt| && fmt[j] == '{' ==> !IsEscape(At(fmt, j + 1))
    ensures forall p :: p in OpenersFrom(fmt, from) <==> from <= p < |fmt| && fmt[p] == '{'
    decreases |fmt| + 1 - from
  {
    FindFirstIsFirst(fmt, '{', from);
    match FindFirst(fmt, '{', from)
    case None =>
    case Some(o) =>
      AllOpenersWhenNoEscapes(fmt, o + 1);
      OpenersFromStep(fmt, from, o);
  }

  /** An opener followed by '{', space, tab or the end queues nothing, and neither do
      the two code units after it: scanning resumes at o + 3. */
  lemma {:induction false} EscapeSkipsThree(fmt: string, from: nat, o: nat)
    requires FindFirst(fmt, '{', from) == Some(o) && IsEscape(At(fmt, o + 1))
    ensures OpenersFrom(fmt, from) == OpenersFrom(fmt, o + 3)
    ensures forall p :: p in OpenersFrom(fmt, from) ==> p >= o + 3
  {
    OpenersFromStep(fmt, from, o);
    var os := OpenersFrom(fmt, o + 3);
    forall p | p in os
      ensures p >= o + 3
    {
      var k :| 0 <= k < |os| && os[k] == p;
    }
  }

  // ---------------------------------------------------------------------------
  // Which index is read
  // ---------------------------------------------------------------------------

  /** A text that extends `body` only past a '}' reads as the same index. */
  lemma IndexTextOfExtension(x: string, body: string)
    requires body <= x && (|body| < |x| ==> x[|body|] == '}')
    ensures LeadingInt(BeforeColon(x)) == LeadingInt(BeforeColon(body))
  {
    var bx := BeforeColon(x);
    var bb := BeforeColon(body);
    BeforeColonCuts(x);
    BeforeColonCuts(body);
    if ':' in body {
      var k := |bb|;
      assert body[k] == ':' && x[k] == ':';
      assert bx == x[..k] == body[..k] == bb;
    } else {
      assert bb == body;
      assert forall j :: 0 <= j < |body| ==> x[j] != ':';
      assert |bx| >= |body|;
      assert bx[..|body|] == body;
      assert StopsAt(bx, |body|);
      LeadingIntStopsAt(bx, bb, |body|);
    }
  }

  /** The over-long substring of line 211 does not change the index read: std::stoi
      stops at the '}' that follows the index text, so the index is that of the text
      between '{' and the first '}' after it, cut at ':'. */
  lemma IndexTextReadsBody(fmt: string, o: nat, c: nat)
    requires o < |fmt| && fmt[o] == '{'
    requires FindFirst(fmt, '}', o) == Some(c)
    ensures LeadingInt(IndexText(fmt, o)) == LeadingInt(BeforeColon(fmt[o + 1..c]))
  {
    IndexTextWithCloser(fmt, o, c);
    BracketExtendsBody(fmt, o, c);
    IndexTextOfExtension(Substr(fmt, o + 1, c - 1), fmt[o + 1..c]);
  }

  lemma IndexTextWithCloser(fmt: string, o: nat, c: nat)
    requires o < |fmt| && fmt[o] == '{'
    requires FindFirst(fmt, '}', o) == Some(c)
    ensures o < c && IndexText(fmt, o) == BeforeColon(Substr(fmt, o + 1, c - 1))
  {
  }

  /** substr(o + 1, c - 1) starts with the text between the braces and, when it is
      longer, continues with the '}' at c. */
  lemma BracketExtendsBody(fmt: string, o: nat, c: nat)
    requires o < c < |fmt| && fmt[c] == '}'
    ensures var body, bracket := fmt[o + 1..c], Substr(fmt, o + 1, c - 1);
      body <= bracket && (|body| < |bracket| ==> bracket[|body|] == '}')
  {
    var body, bracket := fmt[o + 1..c], Substr(fmt, o + 1, c - 1);
    var end := if o + c <= |fmt| then o + c else |fmt|;
    assert bracket == fmt[o + 1..end];
    assert bracket[..|body|] == body;
  }

  // ---------------------------------------------------------------------------
  // What the scan returns
  // ---------------------------------------------------------------------------

  /** The scan is the identifiers of the queued openers: it queues the openers that
      OpenersFrom lists, in that order, and stops at the first bad index. */
  lemma {:induction false} ScanFromIsIdentifiersAt(fmt: string, args: seq<Arg>, index: IndexReader, from: nat,
                                                   acc: seq<Identifier>)
    ensures ScanFrom(fmt, args, index, from, acc)
         == PrependIds(acc, IdentifiersAt(args, index, OpenersFrom(fmt, from)))
    decreases |fmt| + 1 - from, 0
  {
    match FindFirst(fmt, '{', from)
    case None =>
      assert acc + [] == acc;
    case Some(o) =>
      ScanFromStep(fmt, args, index, from, acc, o);
      OpenersFromStep(fmt, from, o);
      if IsEscape(At(fmt, o + 1)) {
        ScanAtEscape(fmt, args, index, o, acc);
        ScanFromIsIdentifiersAt(fmt, args, index, o + 3, acc);
      } else {
        ScanAtIsIdentifiersAt(fmt, args, index, o, acc);
      }
  }

  lemma {:induction false} ScanAtIsIdentifiersAt(fmt: string, args: seq<Arg>, index: IndexReader, o: nat,
                                                 acc: seq<Identifier>)
    requires o < |fmt| && !IsEscape(At(fmt, o + 1))
    ensures ScanAt(fmt, args, index, o, acc)
         == PrependIds(acc, IdentifiersAt(args, index, [o] + OpenersFrom(fmt, o + 1)))
    decreases |fmt| - o, 1
  {
    var tail := OpenersFrom(fmt, o + 1);
    ScanAtQueue(fmt, args, index, o, acc);
    match index(o)
    case Failure(e) =>
      IdentifiersAtFirst(args, index, o, tail);
    case Success(idx) =>
      if idx >= |args| {
        IdentifiersAtFirst(args, index, o, tail);
      } else {
        var id := Identifier(idx, TagOf(args[idx]));
        ScanFromIsIdentifiersAt(fmt, args, index, o + 1, acc + [id]);
        IdentifiersAtStep(args, index, acc, o, tail, idx);
      }
  }

  /** Each queued identifier holds the index read at its opener, which names an
      argument of the pack, and that argument's type name. */
  lemma {:induction false} IdentifiersAtSound(args: seq<Arg>, index: IndexReader, os: seq<nat>)
    requires IdentifiersAt(args, index, os).Success?
    ensures forall k :: 0 <= k < |os| ==>
      var id := IdentifiersAt(args, index, os).value[k];
      index(os[k]) == Success(id.index) && id.index < |args| && id.tag == TagOf(args[id.index])
    decreases |os|
  {
    if os != [] {
      IdentifiersAtSound(args, index, os[1..]);
      var ids := IdentifiersAt(args, index, os).value;
      assert ids[1..] == IdentifiersAt(args, index, os[1..]).value;
      forall k | 1 <= k < |os|
        ensures os[k] == os[1..][k - 1] && ids[k] == ids[1..][k - 1]
      {
      }
    }
  }

  /** The identifiers fail exactly when some opener's index does not parse or names
      an argument past the end of the pack. */
  lemma {:induction false} IdentifiersAtFails(args: seq<Arg>, index: IndexReader, os: seq<nat>)
    ensures IdentifiersAt(args, index, os).Failure? <==>
      exists k :: 0 <= k < |os| && (index(os[k]).Failure? || index(os[k]).value >= |args|)
    decreases |os|
  {
    if os != [] {
      IdentifiersAtFails(args, index, os[1..]);
      if index(os[0]).Success? && index(os[0]).value < |args| {
        forall k | 1 <= k < |os|
          ensures os[k] == os[1..][k - 1]
        {
        }
      }
    }
  }

  /** The identifiers depend on the arguments' type names and never on their values. */
  lemma {:induction false} IdentifiersIgnoreValues(a: seq<Arg>, b: seq<Arg>, index: IndexReader, os: seq<nat>)
    requires |a| == |b| && forall i :: 0 <= i < |a| ==> TagOf(a[i]) == TagOf(b[i])
    ensures IdentifiersAt(a, index, os) == IdentifiersAt(b, index, os)
    decreases |os|
  {
    if os != [] {
      IdentifiersIgnoreValues(a, b, index, os[1..]);
    }
  }

  /** An index text that reads as a value below 256 is that index. */
  lemma IndexAtOfLeadingInt(fmt: string, o: nat, v: nat)
    requires o < |fmt| && fmt[o] == '{'
    requires LeadingInt(IndexText(fmt, o)) == Some(v) && v < 256
    ensures IndexAt(fmt, o) == Success(v)
  {
  }

  /** The template's reader at a queued opener is IndexAt. */
  lemma ReaderAtOpeners(fmt: string)
    ensures forall k :: 0 <= k < |OpenersFrom(fmt, 0)| ==>
      ReaderOf(fmt)(OpenersFrom(fmt, 0)[k]) == IndexAt(fmt, OpenersFrom(fmt, 0)[k])
  {
  }

  /** A successful scan queues one identifier per queued opener, in order: the index
      std::stoi reads there reduced modulo 256, which names an argument, and that
      argument's type name. */
  lemma ScanSound(fmt: string, args: seq<Arg>)
    requires Scan(fmt, args).Success?
    ensures |Scan(fmt, args).value| == |OpenersFrom(fmt, 0)|
    ensures forall k :: 0 <= k < |OpenersFrom(fmt, 0)| ==>
      var id := Scan(fmt, args).value[k];
      IndexAt(fmt, OpenersFrom(fmt, 0)[k]) == Success(id.index) && id.index < |args|
      && id.tag == TagOf(args[id.index])
  {
    var os := OpenersFrom(fmt, 0);
    ScanFromIsIdentifiersAt(fmt, args, ReaderOf(fmt), 0, []);
    assert Scan(fmt, args) == IdentifiersAt(args, ReaderOf(fmt), os) by {
      match IdentifiersAt(args, ReaderOf(fmt), os)
      case Success(ids) => assert [] + ids == ids;
      case Failure(_) =>
    }
    IdentifiersAtSound(args, ReaderOf(fmt), os);
    ReaderAtOpeners(fmt);
  }

  /** The scan fails exactly when the index at some queued opener does not parse
      (std::stoi throws) or names an argument past the end of the pack. */
  lemma ScanFails(fmt: string, args: seq<Arg>)
    ensures Scan(fmt, args).Failure? <==>
      exists k :: 0 <= k < |OpenersFrom(fmt, 0)| &&
        (IndexAt(fmt, OpenersFrom(fmt, 0)[k]).Failure? || IndexAt(fmt, OpenersFrom(fmt, 0)[k]).value >= |args|)
  {
    var os := OpenersFrom(fmt, 0);
    ScanFromIsIdentifiersAt(fmt, args, ReaderOf(fmt), 0, []);
    assert Scan(fmt, args).Failure? <==> IdentifiersAt(args, ReaderOf(fmt), os).Failure?;
    IdentifiersAtFails(args, ReaderOf(fmt), os);
    ReaderAtOpeners(fmt);
  }

  /** Two argument packs with the same type names scan alike: rendered text is never
      scanned again, and argument values play no part in the scan. */
  lemma ScanIgnoresValues(fmt: string, a: seq<Arg>, b: seq<Arg>)
    requires |a| == |b| && forall i :: 0 <= i < |a| ==> TagOf(a[i]) == TagOf(b[i])
    ensures Scan(fmt, a) == Scan(fmt, b)
  {
    ScanFromIsIdentifiersAt(fmt, a, ReaderOf(fmt), 0, []);
    ScanFromIsIdentifiersAt(fmt, b, ReaderOf(fmt), 0, []);
    IdentifiersIgnoreValues(a, b, ReaderOf(fmt), OpenersFrom(fmt, 0));
  }

  /** A template without '{' has no placeholders. */
  lemma NoBraceNoIdentifiers(fmt: string, args: seq<Arg>)
    requires '{' !in fmt
    ensures Scan(fmt, args) == Success([])
  {
    FindFirstIsFirst(fmt, '{', 0);
  }
}
