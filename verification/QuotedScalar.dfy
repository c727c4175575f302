/** Double-quoted scalars: what the scanner makes of a byte sequence, what the writer may
    put out, and that scanning undoes writing. */
module QuotedScalar {
  import opened Prelude
  import opened YamlChars

  const QUOTE: byte := 0x22
  const BACKSLASH: byte := 0x5C
  const SPACE: byte := 0x20

  // ----- Scanning -----

  datatype ScanError = DocumentIndicator | EndOfStream | UnknownEscape | NotHexadecimal | InvalidCode | BadUtf8

  /** A position in the input: byte index and column. */
  datatype Cursor = Cursor(p: nat, column: nat)

  datatype Escape = Escape(bytes: Bytes, length: nat) | BadEscape(error: ScanError)

  /** The characters that one-letter escapes stand for. */
  function SimpleEscape(x: byte): Option<CodePoint> {
    if x == '0' as int then Some(0)
    else if x == 'a' as int then Some(0x07)
    else if x == 'b' as int then Some(0x08)
    else if x == 't' as int || x == 0x09 then Some(0x09)
    else if x == 'n' as int then Some(0x0A)
    else if x == 'v' as int then Some(0x0B)
    else if x == 'f' as int then Some(0x0C)
    else if x == 'r' as int then Some(0x0D)
    else if x == 'e' as int then Some(0x1B)
    else if x == SPACE then Some(0x20)
    else if x == QUOTE then Some(0x22)
    else if x == 0x27 then Some(0x27)
    else if x == BACKSLASH then Some(0x5C)
    else if x == 'N' as int then Some(0x85)
    else if x == '_' as int then Some(0xA0)
    else if x == 'L' as int then Some(0x2028)
    else if x == 'P' as int then Some(0x2029)
    else None
  }

  function CodeLength(x: byte): nat {
    if x == 'x' as int then 2 else if x == 'u' as int then 4 else if x == 'U' as int then 8 else 0
  }

  /** The value of `n` hexadecimal digits at `p`, most significant first, if they are digits. */
  function HexValue(b: Bytes, p: nat, n: nat): (v: Option<nat>)
    ensures v.Some? && n > 0 ==> p + n <= |b|
  {
    if n == 0 then Some(0)
    else
      var init := HexValue(b, p, n - 1);
      if init.None? || !IsHex(At(b, p + n - 1)) then None
      else Some(init.value * 16 + AsHex(At(b, p + n - 1)))
  }

  /** The escape sequence whose backslash is at `p`. */
  function ReadEscape(b: Bytes, p: nat): (e: Escape)
    ensures e.Escape? ==> p + e.length <= |b| && e.length >= 2
  {
    var x := At(b, p + 1);
    if SimpleEscape(x).Some? then
      Escape(Utf8(SimpleEscape(x).value), 2)
    else if CodeLength(x) == 0 then
      BadEscape(UnknownEscape)
    else
      var v := HexValue(b, p + 2, CodeLength(x));
      if v.None? then BadEscape(NotHexadecimal)
      else if 0xD800 <= v.value <= 0xDFFF || v.value > 0x10FFFF then BadEscape(InvalidCode)
      else Escape(Utf8(v.value), 2 + CodeLength(x))
  }

  function BreakLength(b: Bytes, p: nat): (n: nat)
    ensures IsBreak(b, p) ==> p + n <= |b|
    ensures n >= 1
  {
    if At(b, p) == 0x0D && At(b, p + 1) == 0x0A then 2
    else if At(b, p) == 0x0D || At(b, p) == 0x0A then 1
    else if At(b, p) == 0xC2 then 2
    else 3
  }

  /** What a line break is normalised to. */
  function BreakText(b: Bytes, p: nat): Bytes {
    if At(b, p) == 0xE2 then [At(b, p), At(b, p + 1), At(b, p + 2)] else [0x0A]
  }

  /** What the scanner finds at one position among non-blank characters. */
  datatype Word =
    | Word(bytes: Bytes, length: nat, columns: nat)
    | NoWord
    | EscapedBreak(length: nat)
    | BadWord(error: ScanError)

  function ReadWord(b: Bytes, p: nat): (w: Word)
    ensures w.Word? ==> w.length > 0 && p + w.length <= |b|
    ensures w.EscapedBreak? ==> w.length > 0 && p + w.length <= |b|
    ensures w.NoWord? ==> IsBlankz(b, p) || At(b, p) == QUOTE
  {
    var x := At(b, p);
    if IsBlankz(b, p) || x == QUOTE then
      NoWord
    else if x == BACKSLASH && IsBreak(b, p + 1) then
      EscapedBreak(1 + BreakLength(b, p + 1))
    else if x == BACKSLASH then
      var e := ReadEscape(b, p);
      if e.BadEscape? then BadWord(e.error) else Word(e.bytes, e.length, e.length)
    else if Width(x) == 0 || p + Width(x) > |b| then
      BadWord(BadUtf8)
    else
      Word(b[p..p + Width(x)], Width(x), 1)
  }

  datatype Words = Words(at: Cursor, text: Bytes, leadingBlanks: bool) | WordsError(error: ScanError)

  /** Non-blank characters from `c` on, appended to `s`. */
  function ScanWords(b: Bytes, c: Cursor, s: Bytes): (r: Words)
    requires c.p <= |b|
    ensures r.Words? ==> c.p <= r.at.p <= |b|
    ensures r.Words? && r.at.p == c.p ==> IsBlankz(b, c.p) || At(b, c.p) == QUOTE
    decreases |b| - c.p, 1
  {
    WordsFrom(b, c, s, ReadWord(b, c.p))
  }

  /** The same, with what the scanner finds at `c`. */
  function WordsFrom(b: Bytes, c: Cursor, s: Bytes, w: Word): (r: Words)
    requires c.p <= |b|
    requires w.Word? || w.EscapedBreak? ==> w.length > 0 && c.p + w.length <= |b|
    ensures r.Words? ==> c.p <= r.at.p <= |b|
    ensures r.Words? && r.at.p == c.p ==> w.NoWord?
    decreases |b| - c.p, 0
  {
    match w
    case Word(bytes, length, columns) => ScanWords(b, Cursor(c.p + length, c.column + columns), s + bytes)
    case NoWord => Words(c, s, false)
    case EscapedBreak(length) => Words(Cursor(c.p + length, 0), s, true)
    case BadWord(error) => WordsError(error)
  }

  datatype Blanks = Blanks(at: Cursor, leadingBlanks: bool, spaces: Bytes, leadingBreak: Bytes, trailingBreaks: Bytes)

  /** Blanks and line breaks from `k.at` on. */
  function ScanBlanks(b: Bytes, k: Blanks): (r: Blanks)
    requires k.at.p <= |b|
    ensures k.at.p <= r.at.p <= |b|
    ensures IsBlank(b, k.at.p) || IsBreak(b, k.at.p) ==> r.at.p > k.at.p
    ensures !IsBlank(b, r.at.p) && !IsBreak(b, r.at.p)
    decreases |b| - k.at.p
  {
    var Blanks(Cursor(p, column), leading, spaces, leadingBreak, trailingBreaks) := k;
    if IsBlank(b, p) then
      ScanBlanks(b, k.(at := Cursor(p + 1, column + 1), spaces := if leading then spaces else spaces + [At(b, p)]))
    else if IsBreak(b, p) then
      var after := Cursor(p + BreakLength(b, p), 0);
      if leading then
        ScanBlanks(b, k.(at := after, trailingBreaks := trailingBreaks + BreakText(b, p)))
      else
        ScanBlanks(b, Blanks(after, true, [], leadingBreak + BreakText(b, p), trailingBreaks))
    else
      k
  }

  /** What a run of blanks and breaks contributes to the scalar. */
  function Joined(k: Blanks): Bytes {
    if !k.leadingBlanks then k.spaces
    else if |k.leadingBreak| > 0 && k.leadingBreak[0] == 0x0A then
      if k.trailingBreaks == [] then [SPACE] else k.trailingBreaks
    else k.leadingBreak + k.trailingBreaks
  }

  predicate AtDocumentIndicator(b: Bytes, p: nat) {
    && (|| (At(b, p) == '-' as int && At(b, p + 1) == '-' as int && At(b, p + 2) == '-' as int)
        || (At(b, p) == '.' as int && At(b, p + 1) == '.' as int && At(b, p + 2) == '.' as int))
    && IsBlankz(b, p + 3)
  }

  /** The scalar's text and the position of its right quote. */
  datatype Scanned = Scanned(text: Bytes, at: Cursor) | ScanFailed(error: ScanError)

  function ScanRest(b: Bytes, c: Cursor, s: Bytes): Scanned
    requires c.p <= |b|
    decreases |b| - c.p, 1
  {
    if c.column == 0 && AtDocumentIndicator(b, c.p) then ScanFailed(DocumentIndicator)
    else if At(b, c.p) == 0 then ScanFailed(EndOfStream)
    else AfterWords(b, c, ScanWords(b, c, s))
  }

  /** The rest of the scan, once the non-blank characters at `c` are in. */
  function AfterWords(b: Bytes, c: Cursor, w: Words): Scanned
    requires c.p <= |b| && At(b, c.p) != 0
    requires w.Words? ==> c.p <= w.at.p <= |b| && (w.at.p == c.p ==> IsBlankz(b, c.p) || At(b, c.p) == QUOTE)
    decreases |b| - c.p, 0
  {
    if w.WordsError? then ScanFailed(w.error)
    else if At(b, w.at.p) == QUOTE then Scanned(w.text, w.at)
    else
      var k := ScanBlanks(b, Blanks(w.at, w.leadingBlanks, [], [], []));
      ScanRest(b, k.at, w.text + Joined(k))
  }

  /** The scalar whose left quote is at `c`. */
  function Scan(b: Bytes, c: Cursor): Scanned
    requires c.p < |b|
  {
    ScanRest(b, Cursor(c.p + 1, c.column + 1), [])
  }

  // ----- Writing -----

  /** What the writer puts out for one character: the character itself, an escape
      sequence, a fold that stands for a space, or an escaped space after a fold. */
  datatype Piece = Raw(c: CodePoint) | Escaped(c: CodePoint) | Fold | GuardedSpace

  /** The line break in use and the (positive) indentation of continuation lines. */
  datatype AnyLayout = Layout(lineBreak: Bytes, indent: nat)

  type Layout = f: AnyLayout | f.indent > 0 && IsLineBreak(f.lineBreak) witness Layout([0x0A], 1)

  predicate IsLineBreak(s: Bytes) {
    s == [0x0A] || s == [0x0D] || s == [0x0D, 0x0A]
  }

  function Digit(d: int): byte
    requires 0 <= d < 16
  {
    if d < 10 then d + '0' as int else d + 'A' as int - 10
  }

  function HexDigits(v: nat, n: nat): (r: Bytes)
    ensures |r| == n
  {
    if n == 0 then [] else HexDigits(v / 16, n - 1) + [Digit(v % 16)]
  }

  function EscapeLetter(c: CodePoint): Option<byte> {
    if c == 0x00 then Some('0' as int)
    else if c == 0x07 then Some('a' as int)
    else if c == 0x08 then Some('b' as int)
    else if c == 0x09 then Some('t' as int)
    else if c == 0x0A then Some('n' as int)
    else if c == 0x0B then Some('v' as int)
    else if c == 0x0C then Some('f' as int)
    else if c == 0x0D then Some('r' as int)
    else if c == 0x1B then Some('e' as int)
    else if c == 0x22 then Some(QUOTE)
    else if c == 0x5C then Some(BACKSLASH)
    else if c == 0x85 then Some('N' as int)
    else if c == 0xA0 then Some('_' as int)
    else if c == 0x2028 then Some('L' as int)
    else if c == 0x2029 then Some('P' as int)
    else None
  }

  function EscapeText(c: CodePoint): Bytes {
    if EscapeLetter(c).Some? then [BACKSLASH, EscapeLetter(c).value]
    else if c <= 0xFF then [BACKSLASH, 'x' as int] + HexDigits(c, 2)
    else if c <= 0xFFFF then [BACKSLASH, 'u' as int] + HexDigits(c, 4)
    else [BACKSLASH, 'U' as int] + HexDigits(c, 8)
  }

  function Spaces(n: nat): (r: Bytes)
    ensures |r| == n && forall i | 0 <= i < n :: r[i] == SPACE
  {
    if n == 0 then [] else Spaces(n - 1) + [SPACE]
  }

  function Render(f: Layout, x: Piece): Bytes {
    match x
    case Raw(c) => Utf8(c)
    case Escaped(c) => EscapeText(c)
    case Fold => f.lineBreak + Spaces(f.indent)
    case GuardedSpace => [BACKSLASH, SPACE]
  }

  function RenderAll(f: Layout, xs: seq<Piece>): Bytes {
    if xs == [] then [] else Render(f, xs[0]) + RenderAll(f, xs[1..])
  }

  function Meaning(x: Piece): CodePoint {
    match x
    case Raw(c) => c
    case Escaped(c) => c
    case Fold => 0x20
    case GuardedSpace => 0x20
  }

  function MeaningAll(xs: seq<Piece>): seq<CodePoint> {
    if xs == [] then [] else [Meaning(xs[0])] + MeaningAll(xs[1..])
  }

  /** Characters that may stand for themselves: not NUL, tab, a break, a quote or a backslash. */
  predicate RawOk(c: CodePoint) {
    c != 0 && c != 0x09 && !IsBreakChar(c) && c != 0x22 && c != 0x5C
  }

  predicate IsSpacePiece(x: Piece) {
    x == Raw(0x20)
  }

  /** `y` may come right after `x`: no plain space next to a fold, and no two folds. */
  predicate MayFollow(x: Piece, y: Piece) {
    && (x.Fold? ==> !y.Fold? && !IsSpacePiece(y))
    && (y.Fold? ==> !x.GuardedSpace? && !IsSpacePiece(x))
  }

  /** Pieces as the writer arranges them. */
  ghost predicate PiecesOk(xs: seq<Piece>) {
    && (forall i | 0 <= i < |xs| :: xs[i].Raw? ==> RawOk(xs[i].c))
    && (forall i, j | 0 <= i < j < |xs| && j == i + 1 :: MayFollow(xs[i], xs[j]))
    && (|xs| > 0 ==> !xs[|xs| - 1].Fold?)
  }

  type Pieces = xs: seq<Piece> | PiecesOk(xs) ghost witness []

  // ----- Scanning one piece -----

  /** `b` has the bytes `t` at position `p`. */
  ghost predicate Has(b: Bytes, p: nat, t: Bytes) {
    p + |t| <= |b| && forall j | 0 <= j < |t| :: b[p + j] == t[j]
  }

  lemma {:induction false} HexRoundTrip(b: Bytes, p: nat, v: nat, n: nat)
    requires Has(b, p, HexDigits(v, n)) && v < Pow16(n)
    ensures HexValue(b, p, n) == Some(v)
    decreases n
  {
    if n > 0 {
      var ds, init := HexDigits(v, n), HexDigits(v / 16, n - 1);
      assert b[p + (n - 1)] == ds[n - 1] == Digit(v % 16);
      assert Has(b, p, init) by {
        forall j | 0 <= j < |init| ensures b[p + j] == init[j] { assert ds[j] == init[j]; }
      }
      HexRoundTrip(b, p, v / 16, n - 1);
    }
  }

  function Pow16(n: nat): nat {
    if n == 0 then 1 else 16 * Pow16(n - 1)
  }

  lemma LettersAgree(c: CodePoint)
    ensures EscapeLetter(c).Some? ==> SimpleEscape(EscapeLetter(c).value) == Some(c) && 0x20 < EscapeLetter(c).value < 0x80
  {
  }

  lemma CodeReads(b: Bytes, p: nat, letter: byte, n: nat, c: CodePoint)
    requires CodeLength(letter) == n > 0 && SimpleEscape(letter).None? && c < Pow16(n)
    requires At(b, p + 1) == letter && Has(b, p + 2, HexDigits(c, n))
    ensures ReadEscape(b, p) == Escape(Utf8(c), 2 + n)
  {
    HexRoundTrip(b, p + 2, c, n);
  }

  lemma EscapeReads(b: Bytes, p: nat, c: CodePoint)
    requires Has(b, p, EscapeText(c))
    ensures ReadEscape(b, p) == Escape(Utf8(c), |EscapeText(c)|)
    ensures At(b, p) == BACKSLASH && 0x20 < At(b, p + 1) < 0x80
  {
    var t := EscapeText(c);
    assert b[p + 0] == t[0] && b[p + 1] == t[1];
    LettersAgree(c);
    if EscapeLetter(c).None? {
      var n := |t| - 2;
      var ds := HexDigits(c, n);
      assert Has(b, p + 2, ds) by {
        forall j | 0 <= j < n ensures b[p + 2 + j] == ds[j] { assert b[p + (2 + j)] == t[2 + j]; }
      }
      assert Pow16(2) == 256 && Pow16(4) == 65536 && Pow16(8) == 4294967296 by {
        assert Pow16(1) == 16;
        assert Pow16(6) == 16 * (16 * Pow16(4));
      }
      CodeReads(b, p, t[1], n, c);
    }
  }

  predicate IsWord(x: Piece) {
    !x.Fold? && !IsSpacePiece(x)
  }

  lemma HoldsHas(b: Bytes, p: nat, c: CodePoint)
    requires Has(b, p, Utf8(c))
    ensures Holds(b, p, c)
  {
    assert b[p..p + |Utf8(c)|] == Utf8(c);
  }

  lemma RawReads(b: Bytes, p: nat, ch: CodePoint)
    requires Has(b, p, Utf8(ch)) && RawOk(ch) && ch != 0x20
    ensures ReadWord(b, p) == Word(Utf8(ch), |Utf8(ch)|, 1)
    ensures At(b, p) != 0 && !IsBlankz(b, p) && At(b, p) != QUOTE
  {
    HoldsHas(b, p, ch);
    WidthOfChar(b, p, ch);
    BreakOfChar(b, p, ch);
  }

  lemma EscapedReads(b: Bytes, p: nat, ch: CodePoint)
    requires Has(b, p, EscapeText(ch))
    ensures var n := |EscapeText(ch)|; ReadWord(b, p) == Word(Utf8(ch), n, n)
    ensures At(b, p) != 0 && !IsBlankz(b, p) && At(b, p) != QUOTE
  {
    EscapeReads(b, p, ch);
  }

  lemma GuardedReads(b: Bytes, p: nat)
    requires Has(b, p, [BACKSLASH, SPACE])
    ensures ReadWord(b, p) == Word(Utf8(0x20), 2, 2)
    ensures At(b, p) != 0 && !IsBlankz(b, p) && At(b, p) != QUOTE
  {
    var t := [BACKSLASH, SPACE];
    assert b[p + 0] == t[0] && b[p + 1] == t[1];
  }

  /** How far a word moves the column. */
  function Columns(x: Piece): nat {
    match x
    case Raw(_) => 1
    case Escaped(c) => |EscapeText(c)|
    case _ => 2
  }

  /** A piece that is neither a space nor a fold is read back as its character. */
  lemma WordReads(f: Layout, b: Bytes, p: nat, x: Piece)
    requires Has(b, p, Render(f, x)) && IsWord(x) && (x.Raw? ==> RawOk(x.c))
    ensures ReadWord(b, p) == Word(Utf8(Meaning(x)), |Render(f, x)|, Columns(x))
    ensures At(b, p) != 0 && !IsBlankz(b, p) && At(b, p) != QUOTE
  {
    match x
    case Raw(ch) => RawReads(b, p, ch);
    case Escaped(ch) => EscapedReads(b, p, ch);
    case GuardedSpace => GuardedReads(b, p);
  }

  lemma FoldBreaks(f: Layout, b: Bytes, p: nat)
    requires Has(b, p, Render(f, Fold))
    ensures IsBreak(b, p) && !IsBlank(b, p) && At(b, p) != 0 && At(b, p) != QUOTE
    ensures BreakText(b, p) == [0x0A] && BreakLength(b, p) == |f.lineBreak|
    ensures Has(b, p + |f.lineBreak|, Spaces(f.indent))
  {
    var t, n, sp := Render(f, Fold), |f.lineBreak|, Spaces(f.indent);
    assert b[p + 0] == t[0] && b[p + 1] == t[1];
    assert t[0] == f.lineBreak[0] && (n == 2 ==> t[1] == f.lineBreak[1]) && t[n] == sp[0];
    forall j | 0 <= j < |sp| ensures b[p + n + j] == sp[j] {
      assert b[p + (n + j)] == t[n + j] == sp[j];
    }
  }

  /** After a line break, indentation is skipped. */
  lemma {:induction false} IndentSkipped(b: Bytes, k: Blanks, n: nat)
    requires Has(b, k.at.p, Spaces(n)) && k.leadingBlanks
    requires !IsBlank(b, k.at.p + n) && !IsBreak(b, k.at.p + n)
    ensures ScanBlanks(b, k) == k.(at := Cursor(k.at.p + n, k.at.column + n))
    decreases n
  {
    if n > 0 {
      var sp, sp' := Spaces(n), Spaces(n - 1);
      assert b[k.at.p + 0] == sp[0] == SPACE;
      var k' := k.(at := Cursor(k.at.p + 1, k.at.column + 1));
      forall j | 0 <= j < |sp'| ensures b[k'.at.p + j] == sp'[j] {
        assert b[k.at.p + (j + 1)] == sp[j + 1];
      }
      IndentSkipped(b, k', n - 1);
    }
  }

  // ----- Scanning undoes writing -----

  /** The scan succeeds with this text and this right quote. */
  predicate Yields(r: Scanned, text: Bytes, p: nat) {
    r.Scanned? && r.text == text && r.at.p == p
  }

  /** `b` has the rendering of `xs` at position `p`, and a quote after it. */
  ghost predicate AtPieces(f: Layout, b: Bytes, p: nat, xs: seq<Piece>)
    decreases |xs|
  {
    if |xs| == 0 then p < |b| && b[p] == QUOTE
    else Has(b, p, Render(f, xs[0])) && AtPieces(f, b, p + |Render(f, xs[0])|, xs[1..])
  }

  lemma PiecesTail(xs: Pieces)
    requires |xs| > 0
    ensures PiecesOk(xs[1..])
    ensures |xs| > 1 ==> MayFollow(xs[0], xs[1])
    ensures xs[0].Fold? ==> |xs| > 1
  {
    var ys := xs[1..];
    forall i, j | 0 <= i < j < |ys| && j == i + 1 ensures MayFollow(ys[i], ys[j]) {
      assert ys[i] == xs[i + 1] && ys[j] == xs[j + 1];
      assert MayFollow(xs[i + 1], xs[j + 1]);
    }
  }

  /** Where a run of blanks stops: at a word or at the right quote. */
  lemma StopsBlanks(f: Layout, b: Bytes, p: nat, xs: Pieces)
    requires AtPieces(f, b, p, xs) && (|xs| > 0 ==> IsWord(xs[0]))
    ensures !IsBlank(b, p) && !IsBreak(b, p) && At(b, p) != 0 && p < |b|
  {
    if |xs| > 0 {
      WordReads(f, b, p, xs[0]);
    }
  }

  lemma SpaceIs(f: Layout, b: Bytes, p: nat)
    requires Has(b, p, Render(f, Raw(0x20)))
    ensures |Render(f, Raw(0x20))| == 1 && p < |b| && b[p] == SPACE
  {
    var t := Render(f, Raw(0x20));
    assert b[p + 0] == t[0];
  }

  lemma MeaningFirst(s: Bytes, xs: seq<Piece>)
    requires |xs| > 0
    ensures s + Utf8All(MeaningAll(xs)) == s + Utf8(Meaning(xs[0])) + Utf8All(MeaningAll(xs[1..]))
  {
    assert MeaningAll(xs)[0] == Meaning(xs[0]) && MeaningAll(xs)[1..] == MeaningAll(xs[1..]);
    assert Utf8All(MeaningAll(xs)) == Utf8(Meaning(xs[0])) + Utf8All(MeaningAll(xs[1..]));
    Assoc(s, Utf8(Meaning(xs[0])), Utf8All(MeaningAll(xs[1..])));
  }

  lemma EmptyLeft(x: Bytes)
    ensures [] + x == x
  {
  }

  lemma EmptyRight(x: Bytes)
    ensures x + [] == x
  {
  }

  lemma Assoc(x: Bytes, y: Bytes, z: Bytes)
    ensures x + (y + z) == x + y + z
  {
  }

  /** Where the pieces end. */
  function EndOf(f: Layout, p: nat, xs: seq<Piece>): nat {
    p + |RenderAll(f, xs)|
  }

  lemma EndFirst(f: Layout, p: nat, xs: seq<Piece>)
    requires |xs| > 0
    ensures EndOf(f, p, xs) == EndOf(f, p + |Render(f, xs[0])|, xs[1..])
  {
  }

  /** From a word or a quote at `c`, with `s` already scanned, the scan yields `text` and ends at `q`. */
  ghost predicate Going(b: Bytes, c: Cursor, s: Bytes, text: Bytes, q: nat) {
    c.p < |b| && At(b, c.p) != 0 && Yields(AfterWords(b, c, ScanWords(b, c, s)), text, q)
  }

  /** The same from the middle of a run of plain spaces. */
  ghost predicate GoingBlank(b: Bytes, c: Cursor, s: Bytes, spaces: Bytes, text: Bytes, q: nat) {
    c.p <= |b| &&
    var k := ScanBlanks(b, Blanks(c, false, spaces, [], []));
    Yields(ScanRest(b, k.at, s + Joined(k)), text, q)
  }

  /** `Going` and `GoingBlank`, met by a proof only where it asks for them. */
  ghost predicate Goes(b: Bytes, c: Cursor, s: Bytes, text: Bytes, q: nat) {
    forall d | d == c :: Going(b, d, s, text, q)
  }

  ghost predicate GoesBlank(b: Bytes, c: Cursor, s: Bytes, spaces: Bytes, text: Bytes, q: nat) {
    forall d | d == c :: GoingBlank(b, d, s, spaces, text, q)
  }

  lemma QuoteYields(b: Bytes, c: Cursor, s: Bytes)
    requires c.p < |b| && b[c.p] == QUOTE
    ensures Goes(b, c, s, s, c.p)
  {
    assert Going(b, c, s, s, c.p);
  }

  lemma WordStep(b: Bytes, c: Cursor, s: Bytes, w: Word)
    requires c.p <= |b| && w.Word? && ReadWord(b, c.p) == w
    ensures ScanWords(b, c, s) == ScanWords(b, Cursor(c.p + w.length, c.column + w.columns), s + w.bytes)
  {
    assert ScanWords(b, c, s) == WordsFrom(b, c, s, w);
  }

  /** One word further. */
  lemma WordYields(b: Bytes, c: Cursor, s: Bytes, w: Word, text: Bytes, q: nat)
    requires w.Word? && ReadWord(b, c.p) == w && At(b, c.p) != 0
    requires Goes(b, Cursor(c.p + w.length, c.column + w.columns), s + w.bytes, text, q)
    ensures Goes(b, c, s, text, q)
  {
    var d := Cursor(c.p + w.length, c.column + w.columns);
    assert Going(b, d, s + w.bytes, text, q);
    WordStep(b, c, s, w);
    assert Going(b, c, s, text, q);
  }

  /** One space further in a run of spaces. */
  lemma SpaceMore(b: Bytes, c: Cursor, s: Bytes, spaces: Bytes, text: Bytes, q: nat)
    requires c.p < |b| && b[c.p] == SPACE && GoesBlank(b, Cursor(c.p + 1, c.column + 1), s, spaces + [SPACE], text, q)
    ensures GoesBlank(b, c, s, spaces, text, q)
  {
    assert GoingBlank(b, Cursor(c.p + 1, c.column + 1), s, spaces + [SPACE], text, q);
    assert GoingBlank(b, c, s, spaces, text, q);
  }

  /** A run of spaces starts. */
  lemma SpaceStarts(b: Bytes, c: Cursor, s: Bytes, text: Bytes, q: nat)
    requires c.p < |b| && b[c.p] == SPACE && GoesBlank(b, c, s, [], text, q)
    ensures Goes(b, c, s, text, q)
  {
    assert GoingBlank(b, c, s, [], text, q);
    assert ScanWords(b, c, s) == Words(c, s, false);
    assert Going(b, c, s, text, q);
  }

  /** A run of spaces ends. */
  lemma SpaceEnds(b: Bytes, c: Cursor, s: Bytes, spaces: Bytes, text: Bytes, q: nat)
    requires c.column > 0 && !IsBlank(b, c.p) && !IsBreak(b, c.p) && Goes(b, c, s + spaces, text, q)
    ensures GoesBlank(b, c, s, spaces, text, q)
  {
    assert Going(b, c, s + spaces, text, q);
    assert ScanBlanks(b, Blanks(c, false, spaces, [], [])) == Blanks(c, false, spaces, [], []);
    assert GoingBlank(b, c, s, spaces, text, q);
  }

  /** From the middle of a run of words. */
  lemma {:induction false} WordsYield(f: Layout, b: Bytes, c: Cursor, s: Bytes, xs: Pieces)
    requires AtPieces(f, b, c.p, xs) && c.column > 0
    ensures Goes(b, c, s, s + Utf8All(MeaningAll(xs)), EndOf(f, c.p, xs))
    decreases |xs|, 1
  {
    if |xs| == 0 {
      QuoteYields(b, c, s);
      EmptyRight(s);
    } else {
      EndFirst(f, c.p, xs);
      MeaningFirst(s, xs);
      if IsWord(xs[0]) {
        OneWordYields(f, b, c, s, xs, s + Utf8All(MeaningAll(xs)), EndOf(f, c.p, xs));
      } else if xs[0].Fold? {
        FoldYields(f, b, c, s, xs, s + Utf8All(MeaningAll(xs)), EndOf(f, c.p, xs));
      } else {
        SpaceYields(f, b, c, s, xs, s + Utf8All(MeaningAll(xs)), EndOf(f, c.p, xs));
      }
    }
  }

  /** The text and the end, seen from after the first piece. */
  ghost predicate Aims(f: Layout, p: nat, s: Bytes, xs: Pieces, text: Bytes, q: nat) {
    && |xs| > 0
    && text == s + Utf8(Meaning(xs[0])) + Utf8All(MeaningAll(xs[1..]))
    && q == EndOf(f, p + |Render(f, xs[0])|, xs[1..])
  }

  /** At a word. */
  lemma {:induction false} OneWordYields(f: Layout, b: Bytes, c: Cursor, s: Bytes, xs: Pieces, text: Bytes, q: nat)
    requires AtPieces(f, b, c.p, xs) && c.column > 0 && Aims(f, c.p, s, xs, text, q) && IsWord(xs[0])
    ensures Goes(b, c, s, text, q)
    decreases |xs|, 0
  {
    PiecesTail(xs);
    WordReads(f, b, c.p, xs[0]);
    var w := ReadWord(b, c.p);
    WordsYield(f, b, Cursor(c.p + w.length, c.column + w.columns), s + w.bytes, xs[1..]);
    WordYields(b, c, s, w, text, q);
  }

  /** At a plain space. */
  lemma {:induction false} SpaceYields(f: Layout, b: Bytes, c: Cursor, s: Bytes, xs: Pieces, text: Bytes, q: nat)
    requires AtPieces(f, b, c.p, xs) && c.column > 0 && Aims(f, c.p, s, xs, text, q) && IsSpacePiece(xs[0])
    ensures Goes(b, c, s, text, q)
    decreases |xs|, 0
  {
    PiecesTail(xs);
    SpaceIs(f, b, c.p);
    BlanksYield(f, b, Cursor(c.p + 1, c.column + 1), s, [SPACE], xs[1..]);
    EmptyLeft([SPACE]);
    SpaceMore(b, c, s, [], text, q);
    SpaceStarts(b, c, s, text, q);
  }

  /** From the middle of a run of plain spaces. */
  lemma {:induction false} BlanksYield(f: Layout, b: Bytes, c: Cursor, s: Bytes, spaces: Bytes, xs: Pieces)
    requires AtPieces(f, b, c.p, xs) && c.column > 0
    requires |xs| > 0 ==> !xs[0].Fold?
    ensures GoesBlank(b, c, s, spaces, s + spaces + Utf8All(MeaningAll(xs)), EndOf(f, c.p, xs))
    decreases |xs|, 2
  {
    if |xs| > 0 && IsSpacePiece(xs[0]) {
      PiecesTail(xs);
      MeaningFirst(s + spaces, xs);
      EndFirst(f, c.p, xs);
      SpaceIs(f, b, c.p);
      BlanksYield(f, b, Cursor(c.p + 1, c.column + 1), s, spaces + [SPACE], xs[1..]);
      Assoc(s, spaces, [SPACE]);
      SpaceMore(b, c, s, spaces, s + spaces + Utf8All(MeaningAll(xs)), EndOf(f, c.p, xs));
    } else {
      StopsBlanks(f, b, c.p, xs);
      WordsYield(f, b, c, s + spaces, xs);
      SpaceEnds(b, c, s, spaces, s + spaces + Utf8All(MeaningAll(xs)), EndOf(f, c.p, xs));
    }
  }

  /** At a fold: break and indentation become one space. */
  lemma {:induction false} FoldYields(f: Layout, b: Bytes, c: Cursor, s: Bytes, xs: Pieces, text: Bytes, q: nat)
    requires AtPieces(f, b, c.p, xs) && c.column > 0 && Aims(f, c.p, s, xs, text, q) && xs[0].Fold?
    ensures Goes(b, c, s, text, q)
    decreases |xs|, 0
  {
    PiecesTail(xs);
    var ys := xs[1..];
    var next := Cursor(c.p + |f.lineBreak| + f.indent, f.indent);
    StopsBlanks(f, b, next.p, ys);
    WordsYield(f, b, next, s + [SPACE], ys);
    FoldGoes(f, b, c, s, next, text, q);
  }

  lemma FoldGoes(f: Layout, b: Bytes, c: Cursor, s: Bytes, next: Cursor, text: Bytes, q: nat)
    requires Has(b, c.p, Render(f, Fold)) && next == Cursor(c.p + |f.lineBreak| + f.indent, f.indent)
    requires !IsBlank(b, next.p) && !IsBreak(b, next.p) && Goes(b, next, s + [SPACE], text, q)
    ensures Goes(b, c, s, text, q)
  {
    assert Going(b, next, s + [SPACE], text, q);
    FoldBreaks(f, b, c.p);
    FoldJoins(f, b, c);
    assert ScanWords(b, c, s) == Words(c, s, false);
    assert Going(b, c, s, text, q);
  }

  /** The line break itself. */
  lemma BreakStep(b: Bytes, c: Cursor)
    requires c.p < |b| && IsBreak(b, c.p) && !IsBlank(b, c.p) && BreakText(b, c.p) == [0x0A]
    ensures ScanBlanks(b, Blanks(c, false, [], [], [])) ==
      ScanBlanks(b, Blanks(Cursor(c.p + BreakLength(b, c.p), 0), true, [], [0x0A], []))
  {
    EmptyLeft([0x0A]);
  }

  lemma FoldJoins(f: Layout, b: Bytes, c: Cursor)
    requires Has(b, c.p, Render(f, Fold)) && c.p < |b|
    requires var q := c.p + |f.lineBreak| + f.indent; !IsBlank(b, q) && !IsBreak(b, q)
    ensures var k := ScanBlanks(b, Blanks(c, false, [], [], []));
            k.at == Cursor(c.p + |f.lineBreak| + f.indent, f.indent) && Joined(k) == [SPACE]
  {
    FoldBreaks(f, b, c.p);
    FoldSkips(b, c, |f.lineBreak|, f.indent);
  }

  lemma FoldSkips(b: Bytes, c: Cursor, n: nat, indent: nat)
    requires c.p < |b| && IsBreak(b, c.p) && !IsBlank(b, c.p) && BreakText(b, c.p) == [0x0A] && BreakLength(b, c.p) == n
    requires Has(b, c.p + n, Spaces(indent)) && !IsBlank(b, c.p + n + indent) && !IsBreak(b, c.p + n + indent)
    ensures ScanBlanks(b, Blanks(c, false, [], [], [])) == Blanks(Cursor(c.p + n + indent, indent), true, [], [0x0A], [])
  {
    BreakStep(b, c);
    IndentSkipped(b, Blanks(Cursor(c.p + n, 0), true, [], [0x0A], []), indent);
  }

  /** Scanning what the writer may put out, in any layout and wherever it stands, gives
      back exactly the characters written and stops at the right quote. */
  lemma ScanUndoesRender(f: Layout, b: Bytes, c: Cursor, xs: Pieces)
    requires c.p < |b| && b[c.p] == QUOTE && AtPieces(f, b, c.p + 1, xs)
    ensures Yields(Scan(b, c), Utf8All(MeaningAll(xs)), c.p + 1 + |RenderAll(f, xs)|)
  {
    var c' := Cursor(c.p + 1, c.column + 1);
    WordsYield(f, b, c', [], xs);
    EmptyLeft(Utf8All(MeaningAll(xs)));
    ScanGoes(b, c, Utf8All(MeaningAll(xs)), EndOf(f, c'.p, xs));
  }

  lemma ScanGoes(b: Bytes, c: Cursor, text: Bytes, q: nat)
    requires c.p < |b| && Goes(b, Cursor(c.p + 1, c.column + 1), [], text, q)
    ensures Yields(Scan(b, c), text, q)
  {
    assert Going(b, Cursor(c.p + 1, c.column + 1), [], text, q);
  }

  /** `AtPieces` as concatenation. */
  lemma {:induction false} AtPiecesAppend(f: Layout, xs: seq<Piece>, b: Bytes, p: nat, post: Bytes)
    requires p <= |b| && b[p..] == RenderAll(f, xs) + [QUOTE] + post
    ensures AtPieces(f, b, p, xs)
    decreases |xs|
  {
    if |xs| == 0 {
      assert b[p..][0] == b[p];
    } else {
      var t := Render(f, xs[0]);
      var tail := RenderAll(f, xs[1..]) + [QUOTE] + post;
      assert b[p..] == t + tail;
      forall j | 0 <= j < |t| ensures b[p + j] == t[j] { assert b[p..][j] == t[j]; }
      assert b[p + |t|..] == b[p..][|t|..] == tail;
      AtPiecesAppend(f, xs[1..], b, p + |t|, post);
    }
  }
}
