/**
 * An independent description of what a well-formed template means: literal
 * texts, each followed by a placeholder `{index}` or `{index:width}`, and a
 * final tail. Interpolating the spelled-out template is the literal texts with
 * each placeholder replaced by its argument's rendering, in template order.
 */
module Templates {
  import opened Wrappers
  import opened Decimal
  import opened StdParse
  import opened Arguments
  import opened Scanner
  import opened Dispatch
  import opened Interpolation
  import SI = StringifyInteger

  /** Literal text, then a placeholder naming an argument and an optional width. */
  datatype Placeholder = Placeholder(before: string, index: nat, width: Option<nat>)

  /** The largest width std::stoll reads. */
  const MaxWidth: nat := 0x7FFF_FFFF_FFFF_FFFF

  /** Literal text of a placeholder: no brace and no '%'. */
  predicate Plain(s: string) {
    forall i :: 0 <= i < |s| ==> s[i] != '{' && s[i] != '}' && s[i] != '%'
  }

  /** The final tail: no '{' and no '%' (a '}' there is copied like any text). */
  predicate TailText(s: string) {
    forall i :: 0 <= i < |s| ==> s[i] != '{' && s[i] != '%'
  }

  /** A placeholder that names one of n arguments by an index that survives the
      unsigned char cast, with a width std::stoll can read. */
  predicate HoleOk(h: Placeholder, n: nat) {
    Plain(h.before) && h.index < 256 && h.index < n && (h.width.Some? ==> h.width.value <= MaxWidth)
  }

  /** The placeholders hs, then the tail, are well-formed for n arguments. */
  predicate WellFormed(hs: seq<Placeholder>, tail: string, n: nat)
    decreases |hs|
  {
    (hs == [] && TailText(tail)) || (hs != [] && HoleOk(hs[0], n) && WellFormed(hs[1..], tail, n))
  }

  /** Every placeholder of hs names one of n arguments. */
  predicate Indexed(hs: seq<Placeholder>, n: nat)
    decreases |hs|
  {
    hs == [] || (hs[0].index < n && Indexed(hs[1..], n))
  }

  /** The text between the braces. */
  function Body(h: Placeholder): string {
    match h.width
    case None => Digits(h.index)
    case Some(w) => Digits(h.index) + ":" + Digits(w)
  }

  function Chunk(h: Placeholder): string {
    h.before + "{" + Body(h) + "}"
  }

  /** The template text. */
  function Spell(hs: seq<Placeholder>, tail: string): string
    decreases |hs|
  {
    if hs == [] then tail else Chunk(hs[0]) + Spell(hs[1..], tail)
  }

  /** The padding a placeholder asks for: its width, or the sentinel. */
  function WidthValue(h: Placeholder): nat {
    match h.width
    case None => SI.NPrecision
    case Some(w) => w
  }

  /** The meaning of the template: each literal text followed by its placeholder's
      argument rendered at its width, then the tail. */
  function Substitute(hs: seq<Placeholder>, tail: string, args: seq<Arg>, env: Renderers): Result<string, Error>
    requires WellFormed(hs, tail, |args|)
    decreases |hs|
  {
    if hs == [] then Success(tail)
    else
      var text :- Render(args[hs[0].index], WidthValue(hs[0]), env);
      var rest :- Substitute(hs[1..], tail, args, env);
      Success(hs[0].before + text + rest)
  }

  /** The identifiers the scanner should queue: one per placeholder, in order. */
  function Ids(hs: seq<Placeholder>, args: seq<Arg>): seq<Identifier>
    requires Indexed(hs, |args|)
    decreases |hs|
  {
    if hs == [] then [] else [Identifier(hs[0].index, TagOf(args[hs[0].index]))] + Ids(hs[1..], args)
  }

  // ---------------------------------------------------------------------------
  // The theorem
  // ---------------------------------------------------------------------------

  /** Interpolating a well-formed template substitutes its placeholders in template
      order, whatever order the indices come in, and copies the literal text and
      the tail. */
  lemma InterpolateSpelled(hs: seq<Placeholder>, tail: string, args: seq<Arg>, env: Renderers)
    requires WellFormed(hs, tail, |args|)
    ensures Interpolate(Spell(hs, tail), args, env) == Substitute(hs, tail, args, env)
  {
    var fmt := Spell(hs, tail);
    NoPercentSpelled(hs, tail, |args|);
    assert fmt[0..] == fmt;
    SpelledLaid(fmt, 0, hs, tail, |args|);
    AllChunksScan(fmt);
    LaidScans(fmt, 0, hs, tail, |args|);
    ReaderReadsChunks(fmt);
    ReaderReadsAll(fmt, 0, hs, tail, |args|, ReaderOf(fmt));
    WellFormedIndexed(hs, tail, |args|);
    ScanSpelled(fmt, 0, hs, args, ReaderOf(fmt), []);
    assert [] + Ids(hs, args) == Ids(hs, args);
    ExpandSpelled(hs, tail, args, env);
  }

  /** A well-formed template holds no '%', so it is never sent to the printf-style
      engine. */
  lemma {:induction false} NoPercentSpelled(hs: seq<Placeholder>, tail: string, n: nat)
    requires WellFormed(hs, tail, n)
    ensures '%' !in Spell(hs, tail)
    decreases |hs|
  {
    if hs == [] {
      assert forall i :: 0 <= i < |tail| ==> tail[i] != '%';
    } else {
      NoPercentSpelled(hs[1..], tail, n);
      ChunkFacts(hs[0]);
      var c := Chunk(hs[0]);
      assert forall i :: 0 <= i < |c| ==> c[i] != '%';
    }
  }

  lemma {:induction false} WellFormedIndexed(hs: seq<Placeholder>, tail: string, n: nat)
    requires WellFormed(hs, tail, n)
    ensures Indexed(hs, n)
    decreases |hs|
  {
    if hs != [] {
      WellFormedIndexed(hs[1..], tail, n);
    }
  }

  // ---------------------------------------------------------------------------
  // Scanning
  // ---------------------------------------------------------------------------

  /** The template text from p on spells out hs and tail. */
  predicate SpelledAt(fmt: string, p: nat, hs: seq<Placeholder>, tail: string) {
    p <= |fmt| && fmt[p..] == Spell(hs, tail)
  }

  /** The placeholder h is written at p. */
  predicate ChunkAt(fmt: string, p: nat, h: Placeholder) {
    p + |Chunk(h)| <= |fmt| && fmt[p..p + |Chunk(h)|] == Chunk(h)
  }

  /** The well-formed placeholders hs are written one after another in fmt from p
      on, and the tail after them. */
  predicate Laid(fmt: string, p: nat, hs: seq<Placeholder>, tail: string, n: nat)
    decreases |hs|
  {
    (hs == [] && p <= |fmt| && fmt[p..] == tail && TailText(tail))
    || (hs != [] && HoleOk(hs[0], n) && ChunkAt(fmt, p, hs[0]) && Laid(fmt, p + |Chunk(hs[0])|, hs[1..], tail, n))
  }

  /** A spelled-out template is laid out placeholder by placeholder. */
  lemma {:induction false} SpelledLaid(fmt: string, p: nat, hs: seq<Placeholder>, tail: string, n: nat)
    requires SpelledAt(fmt, p, hs, tail) && WellFormed(hs, tail, n)
    ensures Laid(fmt, p, hs, tail, n)
    decreases |hs|
  {
    if hs != [] {
      var q := SpellCons(fmt, p, hs, tail);
      SpelledLaid(fmt, q, hs[1..], tail, n);
    }
  }

  /** A spelled-out template is its first placeholder, then the rest spelled out. */
  lemma SpellCons(fmt: string, p: nat, hs: seq<Placeholder>, tail: string) returns (q: nat)
    requires hs != [] && SpelledAt(fmt, p, hs, tail)
    ensures q == p + |Chunk(hs[0])| && ChunkAt(fmt, p, hs[0]) && SpelledAt(fmt, q, hs[1..], tail)
  {
    q := p + |Chunk(hs[0])|;
    assert fmt[p..] == Chunk(hs[0]) + Spell(hs[1..], tail);
    assert fmt[p..q] == fmt[p..][..|Chunk(hs[0])|];
    assert fmt[q..] == fmt[p..][|Chunk(hs[0])|..];
  }

  /** The scan, run over the placeholder h written at p, finds its '{', does not
      skip it, and next searches from the end of the placeholder. */
  predicate ChunkScans(fmt: string, p: nat, h: Placeholder) {
    var b := |h.before|;
    p + b < |fmt| && FindFirst(fmt, '{', p) == Some(p + b) && !IsEscape(At(fmt, p + b + 1))
    && FindFirst(fmt, '{', p + b + 1) == FindFirst(fmt, '{', p + |Chunk(h)|)
  }

  /** The scan passes over each placeholder of hs, the first written at p, and
      then finds no further opener. */
  predicate Scans(fmt: string, p: nat, hs: seq<Placeholder>)
    decreases |hs|
  {
    (hs == [] && FindFirst(fmt, '{', p) == None)
    || (hs != [] && ChunkScans(fmt, p, hs[0]) && Scans(fmt, p + |Chunk(hs[0])|, hs[1..]))
  }

  /** The reader yields each placeholder's index at its '{', the first placeholder
      being written at p. */
  predicate ReadsAll(index: IndexReader, p: nat, hs: seq<Placeholder>)
    decreases |hs|
  {
    hs == [] || (ReadsAt(index, p + |hs[0].before|, hs[0].index) && ReadsAll(index, p + |Chunk(hs[0])|, hs[1..]))
  }

  /** The reader yields i at o. */
  predicate ReadsAt(index: IndexReader, o: nat, i: nat) {
    index(o) == Success(i)
  }

  /** The scan passes over every placeholder written in fmt. */
  ghost predicate ScansChunks(fmt: string) {
    forall p: nat, h: Placeholder :: Plain(h.before) && ChunkAt(fmt, p, h) ==> ChunkScans(fmt, p, h)
  }

  lemma AllChunksScan(fmt: string)
    ensures ScansChunks(fmt)
  {
    forall p: nat, h: Placeholder | Plain(h.before) && ChunkAt(fmt, p, h)
      ensures ChunkScans(fmt, p, h)
    {
      ChunkScan(fmt, p, h);
    }
  }

  /** The first placeholder of a laid-out template, and the rest laid out after it. */
  lemma LaidCons(fmt: string, p: nat, hs: seq<Placeholder>, tail: string, n: nat) returns (q: nat)
    requires hs != [] && Laid(fmt, p, hs, tail, n)
    ensures q == p + |Chunk(hs[0])| && HoleOk(hs[0], n) && ChunkAt(fmt, p, hs[0])
    ensures Laid(fmt, q, hs[1..], tail, n)
  {
    q := p + |Chunk(hs[0])|;
  }

  /** The scan passes over a laid-out template placeholder by placeholder. */
  lemma {:induction false} LaidScans(fmt: string, p: nat, hs: seq<Placeholder>, tail: string, n: nat)
    requires Laid(fmt, p, hs, tail, n) && ScansChunks(fmt)
    ensures Scans(fmt, p, hs)
    decreases |hs|
  {
    if hs == [] {
      TailNoOpener(fmt, p, tail);
    } else {
      var q := LaidCons(fmt, p, hs, tail, n);
      LaidScans(fmt, q, hs[1..], tail, n);
    }
  }

  /** The reader reads the index of every placeholder written in fmt at its '{'. */
  ghost predicate ReadsChunks(index: IndexReader, fmt: string) {
    forall p: nat, h: Placeholder :: Plain(h.before) && h.index < 256 && ChunkAt(fmt, p, h)
      ==> ReadsAt(index, p + |h.before|, h.index)
  }

  /** The template's own reader reads every placeholder's index. */
  lemma ReaderReadsChunks(fmt: string)
    ensures ReadsChunks(ReaderOf(fmt), fmt)
  {
    forall p: nat, h: Placeholder | Plain(h.before) && h.index < 256 && ChunkAt(fmt, p, h)
      ensures ReadsAt(ReaderOf(fmt), p + |h.before|, h.index)
    {
      ChunkReader(fmt, p, h);
    }
  }

  /** Such a reader reads each placeholder of a laid-out template. */
  lemma {:induction false} ReaderReadsAll(fmt: string, p: nat, hs: seq<Placeholder>, tail: string, n: nat,
                                          index: IndexReader)
    requires Laid(fmt, p, hs, tail, n) && ReadsChunks(index, fmt)
    ensures ReadsAll(index, p, hs)
    decreases |hs|
  {
    if hs != [] {
      var q := LaidCons(fmt, p, hs, tail, n);
      ReaderReadsAll(fmt, q, hs[1..], tail, n, index);
    }
  }

  /** The scan from the first placeholder, at p, queues one identifier per
      placeholder, given a reader that reads each placeholder's index at its '{'. */
  lemma {:induction false} ScanSpelled(fmt: string, p: nat, hs: seq<Placeholder>, args: seq<Arg>,
                                       index: IndexReader, acc: seq<Identifier>)
    requires Scans(fmt, p, hs) && ReadsAll(index, p, hs) && Indexed(hs, |args|)
    ensures ScanFrom(fmt, args, index, p, acc) == Success(acc + Ids(hs, args))
    decreases |hs|
  {
    if hs == [] {
      ScanTail(fmt, p, args, index, acc);
      assert acc + Ids(hs, args) == acc;
    } else {
      var q := ScansCons(fmt, p, hs, args, index);
      var h := hs[0];
      var b := |h.before|;
      var id := Identifier(h.index, TagOf(args[h.index]));
      ScanFromStep(fmt, args, index, p, acc, p + b);
      QueuesRead(fmt, args, index, p + b, h.index, acc);
      ScanFromSame(fmt, args, index, p + b + 1, q, acc + [id]);
      ScanSpelled(fmt, q, hs[1..], args, index, acc + [id]);
      IdsCons(hs, args, acc);
    }
  }

  /** What the scan needs of the first placeholder, and of the rest after it. */
  lemma ScansCons(fmt: string, p: nat, hs: seq<Placeholder>, args: seq<Arg>, index: IndexReader) returns (q: nat)
    requires hs != [] && Scans(fmt, p, hs) && ReadsAll(index, p, hs) && Indexed(hs, |args|)
    ensures q == p + |Chunk(hs[0])| && hs[0].index < |args|
    ensures ChunkScans(fmt, p, hs[0]) && ReadsAt(index, p + |hs[0].before|, hs[0].index)
    ensures Scans(fmt, q, hs[1..]) && ReadsAll(index, q, hs[1..]) && Indexed(hs[1..], |args|)
  {
    q := p + |Chunk(hs[0])|;
  }

  /** Past the last opener the scan queues nothing more. */
  lemma ScanTail(fmt: string, p: nat, args: seq<Arg>, index: IndexReader, acc: seq<Identifier>)
    requires FindFirst(fmt, '{', p) == None
    ensures ScanFrom(fmt, args, index, p, acc) == Success(acc)
  {
  }

  /** The tail holds no opener. */
  lemma TailNoOpener(fmt: string, p: nat, tail: string)
    requires p <= |fmt| && fmt[p..] == tail && TailText(tail)
    ensures FindFirst(fmt, '{', p) == None
  {
    assert forall j :: p <= j < |fmt| ==> fmt[j] == tail[j - p];
    FindFirstSkip(fmt, '{', p, |fmt|);
  }

  lemma IdsCons(hs: seq<Placeholder>, args: seq<Arg>, acc: seq<Identifier>)
    requires hs != [] && Indexed(hs, |args|)
    ensures acc + [Identifier(hs[0].index, TagOf(args[hs[0].index]))] + Ids(hs[1..], args) == acc + Ids(hs, args)
  {
  }

  /** At an opener that is not skipped and whose index reads as i, the scan queues
      the identifier of argument i. */
  lemma QueuesRead(fmt: string, args: seq<Arg>, index: IndexReader, o: nat, i: nat, acc: seq<Identifier>)
    requires o < |fmt| && !IsEscape(At(fmt, o + 1)) && ReadsAt(index, o, i) && i < |args|
    ensures ScanAt(fmt, args, index, o, acc) == ScanFrom(fmt, args, index, o + 1, acc + [Identifier(i, TagOf(args[i]))])
  {
  }

  /** The scan goes on alike from two positions with the same next '{'. */
  lemma ScanFromSame(fmt: string, args: seq<Arg>, index: IndexReader, a: nat, b: nat, acc: seq<Identifier>)
    requires FindFirst(fmt, '{', a) == FindFirst(fmt, '{', b)
    ensures ScanFrom(fmt, args, index, a, acc) == ScanFrom(fmt, args, index, b, acc)
  {
  }

  /** The template's reader at the '{' of a placeholder written at p reads its index. */
  lemma ChunkReader(fmt: string, p: nat, h: Placeholder)
    requires Plain(h.before) && h.index < 256 && ChunkAt(fmt, p, h)
    ensures ReadsAt(ReaderOf(fmt), p + |h.before|, h.index)
  {
    var o, close := ChunkCloser(fmt, p, h);
    BodyIndexReads(h);
    ReaderReadsBody(fmt, o, close, h.index);
  }

  /** The index text of a placeholder's body reads back as its index. */
  lemma BodyIndexReads(h: Placeholder)
    ensures LeadingInt(BeforeColon(Body(h))) == Some(h.index)
  {
    BodyFacts(h);
    DigitsReadBack(h.index);
  }

  /** The template's reader at an opener reads the index text up to the closer. */
  lemma ReaderReadsBody(fmt: string, o: nat, close: nat, v: nat)
    requires o < close < |fmt| && fmt[o] == '{' && FindFirst(fmt, '}', o) == Some(close)
    requires LeadingInt(BeforeColon(fmt[o + 1..close])) == Some(v) && v < 256
    ensures ReadsAt(ReaderOf(fmt), o, v)
  {
    IndexTextReadsBody(fmt, o, close);
    IndexAtOfLeadingInt(fmt, o, v);
  }

  // ---------------------------------------------------------------------------
  // Expansion
  // ---------------------------------------------------------------------------

  /** Expanding a well-formed template with its identifiers is its meaning. */
  lemma {:induction false} ExpandSpelled(hs: seq<Placeholder>, tail: string, args: seq<Arg>, env: Renderers)
    requires WellFormed(hs, tail, |args|) && Indexed(hs, |args|)
    ensures Expand(Spell(hs, tail), args, Ids(hs, args), env) == Substitute(hs, tail, args, env)
    decreases |hs|
  {
    if hs != [] {
      var h := hs[0];
      var rest := Spell(hs[1..], tail);
      ExpandSpelled(hs[1..], tail, args, env);
      CutSpelled(h, rest);
      var ids := Ids(hs, args);
      assert ids[0].index == h.index && ids[1..] == Ids(hs[1..], args);
    }
  }

  // ---------------------------------------------------------------------------
  // One placeholder
  // ---------------------------------------------------------------------------

  /** The body holds no brace and no '%', starts with a digit, and its index text
      (before any ':') is the digits of the index. */
  lemma BodyFacts(h: Placeholder)
    ensures |Body(h)| >= 1 && IsDigit(Body(h)[0])
    ensures forall i :: 0 <= i < |Body(h)| ==> Body(h)[i] != '{' && Body(h)[i] != '}' && Body(h)[i] != '%'
    ensures BeforeColon(Body(h)) == Digits(h.index)
  {
    var d := Digits(h.index);
    DigitsCanonical(h.index);
    FindFirstSkip(Body(h), ':', 0, |d|);
    match h.width
    case None =>
    case Some(w) =>
      DigitsCanonical(w);
      assert Body(h)[..|d|] == d;
  }

  /** Where the parts of a placeholder sit in its text. */
  lemma ChunkFacts(h: Placeholder)
    requires Plain(h.before)
    ensures var b, m, c := |h.before|, |Body(h)|, Chunk(h);
      |c| == b + m + 2 && c[b] == '{' && c[b + 1..b + 1 + m] == Body(h) && c[b + 1 + m] == '}'
      && c[..b] == h.before
      && (forall i :: 0 <= i < |c| ==> c[i] != '%')
      && (forall i :: 0 <= i < |c| && i != b ==> c[i] != '{')
      && (forall i :: 0 <= i < |c| - 1 ==> c[i] != '}')
  {
    BodyFacts(h);
    var b, m, c := |h.before|, |Body(h)|, Chunk(h);
    forall i | 0 <= i < |c|
      ensures c[i] != '%' && (i != b ==> c[i] != '{') && (i < |c| - 1 ==> c[i] != '}')
    {
      if i < b {
        assert c[i] == h.before[i];
      } else if b < i < b + 1 + m {
        assert c[i] == Body(h)[i - b - 1];
      }
    }
  }

  /** Scanning a placeholder written at p: its '{' is the next opener, it is not
      skipped, and nothing else in it is an opener. */
  lemma ChunkScan(fmt: string, p: nat, h: Placeholder)
    requires Plain(h.before) && ChunkAt(fmt, p, h)
    ensures ChunkScans(fmt, p, h)
  {
    ChunkFacts(h);
    BodyFacts(h);
    var b, c := |h.before|, Chunk(h);
    assert forall j :: p <= j < p + |c| ==> fmt[j] == c[j - p];
    FindFirstSkip(fmt, '{', p, p + b);
    FindFirstSkip(fmt, '{', p + b + 1, p + |c|);
    assert fmt[p + b + 1] == Body(h)[0];
  }

  /** The '}' that closes a placeholder written at p, and the body between. */
  lemma ChunkCloser(fmt: string, p: nat, h: Placeholder) returns (o: nat, close: nat)
    requires Plain(h.before) && ChunkAt(fmt, p, h)
    ensures o == p + |h.before| && o < close < |fmt| && fmt[o] == '{'
    ensures FindFirst(fmt, '}', o) == Some(close) && fmt[o + 1..close] == Body(h)
  {
    ChunkFacts(h);
    var b, m, c := |h.before|, |Body(h)|, Chunk(h);
    o, close := p + b, p + b + 1 + m;
    assert forall j :: p <= j < p + |c| ==> fmt[j] == c[j - p];
    FindFirstSkip(fmt, '}', o, close);
    assert fmt[o + 1..close] == c[b + 1..b + 1 + m];
  }

  /** The digits of n read back as n. */
  lemma DigitsReadBack(n: nat)
    ensures LeadingInt(Digits(n)) == Some(n)
  {
    DigitsRoundTrip(n);
    DigitsCanonical(n);
    LeadingIntOfDigits("", Digits(n));
    assert "" + Digits(n) == Digits(n);
  }

  /** The padding read from a placeholder's text is its width, or the sentinel. */
  lemma WidthSpelled(h: Placeholder)
    requires Plain(h.before) && (h.width.Some? ==> h.width.value <= MaxWidth)
    ensures |h.before| < |Chunk(h)| && WidthOf(Chunk(h), |h.before|) == Success(WidthValue(h))
  {
    ChunkFacts(h);
    DigitsCanonical(h.index);
    match h.width
    case None => NoWidthSpelled(h);
    case Some(w) => WidthGivenSpelled(h, w);
  }

  lemma NoWidthSpelled(h: Placeholder)
    requires Plain(h.before) && h.width.None?
    ensures |h.before| < |Chunk(h)| && WidthOf(Chunk(h), |h.before|) == Success(SI.NPrecision)
  {
    ChunkFacts(h);
    DigitsCanonical(h.index);
    var b, c, d := |h.before|, Chunk(h), Digits(h.index);
    forall i | b <= i < |c|
      ensures c[i] != ':'
    {
      if b < i < |c| - 1 {
        assert c[i] == d[i - b - 1];
      }
    }
    NoColonNoPadding(c, b);
  }

  lemma WidthGivenSpelled(h: Placeholder, w: nat)
    requires Plain(h.before) && h.width == Some(w) && w <= MaxWidth
    ensures |h.before| < |Chunk(h)| && WidthOf(Chunk(h), |h.before|) == Success(w)
  {
    var colon := WidthColon(h, w);
    WidthDigits(h, w, colon);
    WidthReadsBody(Chunk(h), |h.before|, colon);
    WidthDigitsRead(w);
  }

  /** A width's digits parse back as that width. */
  lemma WidthDigitsRead(w: nat)
    requires w <= MaxWidth
    ensures ParseWidth(Digits(w)) == Success(w)
  {
    DigitsReadBack(w);
    assert Stoll(Digits(w)) == Success(w);
    assert w % SizeModulus == w;
  }

  /** The first ':' after a placeholder's '{' ends its index digits. */
  lemma WidthColon(h: Placeholder, w: nat) returns (colon: nat)
    requires Plain(h.before) && h.width == Some(w)
    ensures colon == |h.before| + 1 + |Digits(h.index)| && colon < |Chunk(h)|
    ensures FindFirst(Chunk(h), ':', |h.before|) == Some(colon)
  {
    DigitsCanonical(h.index);
    var b, c, d := |h.before|, Chunk(h), Digits(h.index);
    assert c == h.before + "{" + d + ":" + Digits(w) + "}";
    colon := b + 1 + |d|;
    forall i | b <= i < colon
      ensures c[i] != ':'
    {
      if b < i {
        assert c[i] == d[i - b - 1];
      }
    }
    assert c[colon] == ':';
    FindFirstSkip(c, ':', b, colon);
  }

  /** After that ':' come the width's digits and the closing '}'. */
  lemma WidthDigits(h: Placeholder, w: nat, colon: nat)
    requires h.width == Some(w) && colon == |h.before| + 1 + |Digits(h.index)|
    ensures colon < |Chunk(h)| - 1 && Chunk(h)[|Chunk(h)| - 1] == '}'
    ensures Chunk(h)[colon + 1..|Chunk(h)| - 1] == Digits(w)
  {
    var c, d := Chunk(h), Digits(h.index);
    assert c == (h.before + "{" + d + ":") + Digits(w) + "}";
  }

  /** Cutting a template that starts with a placeholder yields its literal text, its
      padding, and the text after it. */
  lemma CutSpelled(h: Placeholder, rest: string)
    requires Plain(h.before) && (h.width.Some? ==> h.width.value <= MaxWidth)
    ensures CutSection(Chunk(h) + rest) == Success(Cut(h.before, WidthValue(h), rest))
  {
    ChunkFacts(h);
    var fmt, c, b := Chunk(h) + rest, Chunk(h), |h.before|;
    var n := |c|;
    assert forall i :: 0 <= i < n ==> fmt[i] == c[i];
    FirstCloserAt(fmt, n - 1);
    assert fmt[..n] == c;
    FindFirstSkip(c, '{', 0, b);
    WidthSpelled(h);
    CutSectionAt(fmt, b, WidthValue(h));
    assert fmt[n..] == rest;
  }
}
