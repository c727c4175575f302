/** The emitter's writer of double-quoted scalars.  Flushing the output buffer to its
    destination always succeeds here: `out` is everything put out so far. */
module YamlEmitter {
  import opened Prelude
  import opened YamlChars
  import opened QuotedScalar

  // ----- What the writer has put out so far -----

  /** Pieces that more pieces may still follow. */
  ghost predicate Arranged(xs: seq<Piece>) {
    && (forall i | 0 <= i < |xs| :: xs[i].Raw? ==> RawOk(xs[i].c))
    && (forall i, j | 0 <= i < j < |xs| && j == i + 1 :: MayFollow(xs[i], xs[j]))
  }

  lemma ArrangedSnoc(xs: seq<Piece>, x: Piece)
    requires Arranged(xs) && (x.Raw? ==> RawOk(x.c)) && (|xs| > 0 ==> MayFollow(xs[|xs| - 1], x))
    ensures Arranged(xs + [x])
  {
  }

  lemma {:induction false} RenderSnoc(f: Layout, xs: seq<Piece>, x: Piece)
    ensures RenderAll(f, xs + [x]) == RenderAll(f, xs) + Render(f, x)
  {
    if |xs| == 0 {
      assert xs + [x] == [x];
      assert RenderAll(f, [x]) == Render(f, x) + RenderAll(f, []);
    } else {
      assert (xs + [x])[1..] == xs[1..] + [x];
      RenderSnoc(f, xs[1..], x);
    }
  }

  lemma {:induction false} MeaningSnoc(xs: seq<Piece>, x: Piece)
    ensures MeaningAll(xs + [x]) == MeaningAll(xs) + [Meaning(x)]
  {
    if |xs| == 0 {
      assert xs + [x] == [x];
      assert MeaningAll([x]) == [Meaning(x)] + MeaningAll([]);
    } else {
      assert (xs + [x])[1..] == xs[1..] + [x];
      MeaningSnoc(xs[1..], x);
    }
  }

  /** Position `i` in the encoding of `cs` is where character `k` starts. */
  ghost predicate StartsAt(cs: seq<CodePoint>, k: nat, i: nat) {
    k <= |cs| && i == |Utf8All(cs[..k])|
  }

  lemma CharAt(cs: seq<CodePoint>, k: nat, i: nat)
    requires StartsAt(cs, k, i)
    ensures i <= |Utf8All(cs)| && (i == |Utf8All(cs)| <==> k == |cs|)
    ensures k < |cs| ==> Holds(Utf8All(cs), i, cs[k]) && StartsAt(cs, k + 1, i + |Utf8(cs[k])|)
  {
    assert cs == cs[..k] + cs[k..];
    Utf8AllAppend(cs[..k], cs[k..]);
    if k < |cs| {
      NextStart(cs, k);
      assert cs[k..][0] == cs[k] && Utf8All(cs[k..]) == Utf8(cs[k]) + Utf8All(cs[k..][1..]);
      HoldsIn(Utf8All(cs[..k]), cs[k], Utf8All(cs[k..][1..]));
    }
  }

  lemma NextStart(cs: seq<CodePoint>, k: nat)
    requires k < |cs|
    ensures |Utf8All(cs[..k + 1])| == |Utf8All(cs[..k])| + |Utf8(cs[k])|
  {
    assert cs[..k + 1] == cs[..k] + [cs[k]];
    Utf8AllAppend(cs[..k], [cs[k]]);
    Utf8AllOne(cs[k]);
  }

  lemma HoldsIn(a: Bytes, c: CodePoint, z: Bytes)
    ensures Holds(a + (Utf8(c) + z), |a|, c)
  {
  }

  /** Between two characters: `out` is `base` and the rendering of `xs`, which mean the first
      `k` characters; `guarded` says that the backslash before the next space is already out. */
  ghost predicate Written(f: Layout, base: Bytes, out: Bytes, cs: seq<CodePoint>, k: nat, xs: seq<Piece>,
                          spaces: bool, guarded: bool)
  {
    && k <= |cs| && Arranged(xs) && MeaningAll(xs) == cs[..k]
    && out == base + RenderAll(f, xs) + (if guarded then [BACKSLASH] else [])
    && (guarded ==> |xs| > 0 && xs[|xs| - 1].Fold?)
    && (|xs| > 0 ==> LastOk(xs[|xs| - 1], cs, k, spaces, guarded))
  }

  /** `Written`, met by a proof only where it asks for it. */
  ghost predicate SoFar(f: Layout, base: Bytes, out: Bytes, cs: seq<CodePoint>, k: nat, xs: seq<Piece>,
                        spaces: bool, guarded: bool)
  {
    forall j: nat | j == k :: Written(f, base, out, cs, j, xs, spaces, guarded)
  }

  /** The last piece is a space or a fold if `spaces` is set, and a space right after a fold
      is guarded. */
  predicate LastOk(last: Piece, cs: seq<CodePoint>, k: nat, spaces: bool, guarded: bool)
    requires k <= |cs|
  {
    && (!spaces ==> IsWord(last) && !last.GuardedSpace?)
    && (last.Fold? ==> k < |cs| && (guarded <==> cs[k] == 0x20))
  }

  lemma NothingYet(f: Layout, base: Bytes, cs: seq<CodePoint>)
    ensures SoFar(f, base, base, cs, 0, [], false, false)
  {
    assert base + RenderAll(f, []) + [] == base;
    assert Written(f, base, base, cs, 0, [], false, false);
  }

  lemma OutSnoc(base: Bytes, r: Bytes, guard: Bytes, text: Bytes, more: Bytes)
    requires guard + text == more
    ensures base + r + guard + text == base + (r + more) + []
  {
  }

  lemma AddPiece(f: Layout, base: Bytes, out: Bytes, cs: seq<CodePoint>, k: nat, xs: seq<Piece>, spaces: bool, guarded: bool,
                 x: Piece, spaces': bool)
    requires SoFar(f, base, out, cs, k, xs, spaces, guarded) && k < |cs| && Meaning(x) == cs[k]
    requires x.Raw? ==> RawOk(x.c)
    requires !x.Fold? && (guarded <==> x.GuardedSpace?)
    requires spaces' || (IsWord(x) && !x.GuardedSpace?)
    ensures var text := if guarded then [SPACE] else Render(f, x);
            SoFar(f, base, out + text, cs, k + 1, xs + [x], spaces', false)
  {
    assert Written(f, base, out, cs, k, xs, spaces, guarded);
    RenderSnoc(f, xs, x);
    MeaningSnoc(xs, x);
    TakeSnoc(cs, k);
    ArrangedSnoc(xs, x);
    if guarded {
      OutSnoc(base, RenderAll(f, xs), [BACKSLASH], [SPACE], Render(f, x));
    } else {
      OutSnoc(base, RenderAll(f, xs), [], Render(f, x), Render(f, x));
    }
    assert Written(f, base, out + if guarded then [SPACE] else Render(f, x), cs, k + 1, xs + [x], spaces', false);
  }

  lemma TakeSnoc(cs: seq<CodePoint>, k: nat)
    requires k < |cs|
    ensures cs[..k + 1] == cs[..k] + [cs[k]]
  {
  }

  lemma AddFold(f: Layout, base: Bytes, out: Bytes, cs: seq<CodePoint>, k: nat, xs: seq<Piece>)
    requires SoFar(f, base, out, cs, k, xs, false, false) && k + 1 < |cs| && cs[k] == 0x20
    ensures var guarded := cs[k + 1] == 0x20;
            SoFar(f, base, out + f.lineBreak + Spaces(f.indent) + (if guarded then [BACKSLASH] else []),
                  cs, k + 1, xs + [Fold], true, guarded)
  {
    assert Written(f, base, out, cs, k, xs, false, false);
    var g := if cs[k + 1] == 0x20 then [BACKSLASH] else [];
    RenderSnoc(f, xs, Fold);
    MeaningSnoc(xs, Fold);
    TakeSnoc(cs, k);
    ArrangedSnoc(xs, Fold);
    FoldSnoc(base, RenderAll(f, xs), f.lineBreak, Spaces(f.indent), g);
    assert Written(f, base, out + f.lineBreak + Spaces(f.indent) + g, cs, k + 1, xs + [Fold], true, cs[k + 1] == 0x20);
  }

  lemma FoldSnoc(base: Bytes, r: Bytes, lineBreak: Bytes, indent: Bytes, g: Bytes)
    ensures base + r + [] + lineBreak + indent + g == base + (r + (lineBreak + indent)) + g
  {
  }

  /** The backslash is out only before a space. */
  lemma GuardMeans(f: Layout, base: Bytes, out: Bytes, cs: seq<CodePoint>, k: nat, xs: seq<Piece>, spaces: bool, guarded: bool)
    requires SoFar(f, base, out, cs, k, xs, spaces, guarded) && k < |cs|
    ensures guarded ==> cs[k] == 0x20
  {
    assert Written(f, base, out, cs, k, xs, spaces, guarded);
  }

  lemma AllWritten(f: Layout, base: Bytes, out: Bytes, cs: seq<CodePoint>, xs: seq<Piece>, spaces: bool, guarded: bool)
    requires SoFar(f, base, out, cs, |cs|, xs, spaces, guarded)
    ensures PiecesOk(xs) && MeaningAll(xs) == cs && out == base + RenderAll(f, xs)
  {
    assert Written(f, base, out, cs, |cs|, xs, spaces, guarded);
    assert cs[..|cs|] == cs;
  }

  function Shr4(v: nat, n: nat): nat {
    if n == 0 then v else Shr4(v, n - 1) / 16
  }

  function Shr6(v: nat, n: nat): nat {
    if n == 0 then v else Shr6(v, n - 1) / 64
  }

  class Emitter {
    var out: Bytes
    var column: nat
    var line: nat
    var indent: int
    var indents: seq<int>
    var whitespace: bool
    var indention: bool
    const bestIndent: int
    const bestWidth: int
    const unicode: bool
    const lineBreak: Bytes

    /** What the start of the stream establishes. */
    ghost predicate Valid()
      reads this
    {
      2 <= bestIndent <= 9 && IsLineBreak(lineBreak)
    }

    constructor (out: Bytes, column: nat, indent: int, whitespace: bool, indention: bool,
                 bestIndent: int, bestWidth: int, unicode: bool, lineBreak: Bytes)
      requires IsLineBreak(lineBreak)
      ensures Valid() && this.out == out && this.column == column && this.indent == indent
      ensures this.whitespace == whitespace && this.indents == []
    {
      this.out, this.column, this.line, this.indent, this.indents := out, column, 0, indent, [];
      this.whitespace, this.indention := whitespace, indention;
      this.bestIndent := if bestIndent < 2 || bestIndent > 9 then 2 else bestIndent;
      this.bestWidth := bestWidth;
      this.unicode, this.lineBreak := unicode, lineBreak;
    }

    method Put(x: byte)
      modifies this`out, this`column
      ensures out == old(out) + [x] && column == old(column) + 1
    {
      out := out + [x];
      column := column + 1;
    }

    method PutBreak()
      modifies this`out, this`column, this`line
      ensures out == old(out) + lineBreak && column == 0
    {
      out := out + lineBreak;
      column := 0;
      line := line + 1;
    }

    /** Copies the character of `s` that starts at `i`. */
    method Write(s: Bytes, i: nat, ghost c: CodePoint) returns (next: nat)
      requires Holds(s, i, c)
      modifies this`out, this`column
      ensures out == old(out) + Utf8(c) && column == old(column) + 1 && next == i + |Utf8(c)|
    {
      WidthOfChar(s, i, c);
      var w := Width(s[i]);
      out := out + s[i..i + w];
      column := column + 1;
      next := i + w;
    }

    method WriteIndicator(indicator: byte, needWhitespace: bool, isWhitespace: bool, isIndention: bool)
      modifies this`out, this`column, this`whitespace, this`indention
      ensures out == old(out) + (if needWhitespace && !old(whitespace) then [SPACE] else []) + [indicator]
      ensures whitespace == isWhitespace && indention == (old(indention) && isIndention)
    {
      if needWhitespace && !whitespace {
        Put(SPACE);
      }
      Put(indicator);
      whitespace := isWhitespace;
      indention := indention && isIndention;
    }

    /** A new line, indented, unless the current one is still empty up to the indentation. */
    method WriteIndent()
      modifies this`out, this`column, this`line, this`whitespace, this`indention
      ensures whitespace && indention
      ensures var depth := if indent < 0 then 0 else indent;
        if !old(indention) || old(column) > depth || (old(column) == depth && !old(whitespace))
        then out == old(out) + lineBreak + Spaces(depth) && column == depth
        else out == old(out) + Spaces(depth - old(column)) && column == depth
    {
      var depth := if indent < 0 then 0 else indent;
      if !indention || column > depth || (column == depth && !whitespace) {
        PutBreak();
      }
      ghost var start, from := out, column;
      while column < depth
        invariant from <= column <= depth && out == start + Spaces(column - from)
      {
        Put(SPACE);
      }
      whitespace := true;
      indention := true;
    }

    method IncreaseIndent(flow: bool, indentless: bool)
      requires Valid()
      modifies this`indent, this`indents
      ensures indents == old(indents) + [old(indent)]
      ensures old(indent) < 0 ==> indent == if flow then bestIndent else 0
      ensures old(indent) >= 0 ==> indent - old(indent) == if indentless then 0 else bestIndent
      ensures flow && !indentless ==> indent >= 2
    {
      indents := indents + [indent];
      if indent < 0 {
        indent := if flow then bestIndent else 0;
      } else if !indentless {
        indent := indent + bestIndent;
      }
    }

    /** The code point encoded at `i`. */
    method Decode(value: Bytes, i: nat, ghost c: CodePoint) returns (w: nat, v: nat)
      requires Holds(value, i, c)
      ensures v == c && w == |Utf8(c)|
    {
      WidthOfChar(value, i, c);
      HoldsAt(value, i, c);
      var octet := value[i];
      LeadOctet(value, i, c);
      if octet < 0x80 {
        w, v := 1, octet;
      } else if 0xC0 <= octet < 0xE0 {
        w, v := 2, octet % 32;
      } else if 0xE0 <= octet < 0xF0 {
        w, v := 3, octet % 16;
      } else {
        w, v := 4, octet % 8;
      }
      var k := 1;
      while k < w
        invariant 1 <= k <= w && v == Shr6(c, w - k)
      {
        octet := value[i + k];
        NextOctet(value, i, c, k);
        v := v * 64 + octet % 64;
        k := k + 1;
      }
    }

    /** An escape sequence for `c`. */
    method WriteEscape(c: CodePoint)
      modifies this`out, this`column
      ensures out == old(out) + EscapeText(c) && column == old(column) + |EscapeText(c)|
    {
      Put(BACKSLASH);
      if EscapeLetter(c).Some? {
        Put(EscapeLetter(c).value);
      } else if c <= 0xFF {
        Put('x' as int);
        PutHex(c, 2);
      } else if c <= 0xFFFF {
        Put('u' as int);
        PutHex(c, 4);
      } else {
        Put('U' as int);
        PutHex(c, 8);
      }
    }

    /** The layout of continuation lines. */
    ghost function Lines(): Layout
      requires Valid() && indent > 0
      reads this
    {
      Layout(lineBreak, indent)
    }

    /** Writes `value`, the encoding of `cs`, between double quotes. */
    method WriteDoubleQuotedScalar(value: Bytes, allowBreaks: bool, ghost cs: seq<CodePoint>) returns (ghost xs: seq<Piece>)
      requires Valid() && indent > 0 && value == Utf8All(cs)
      modifies this`out, this`column, this`line, this`whitespace, this`indention
      ensures PiecesOk(xs) && MeaningAll(xs) == cs
      ensures out == old(out) + (if old(whitespace) then [] else [SPACE]) + [QUOTE] + RenderAll(Lines(), xs) + [QUOTE]
    {
      var spaces := false;
      WriteIndicator(QUOTE, true, false, false);
      ghost var f, base, k, guarded := Lines(), out, 0, false;
      xs := [];
      NothingYet(f, base, cs);
      var i := 0;
      while i < |value|
        invariant StartsAt(cs, k, i) && i <= |value|
        invariant SoFar(f, base, out, cs, k, xs, spaces, guarded)
        invariant guarded ==> spaces && !IsBom(value, 0)
        invariant indention ==> column >= indent && (!spaces ==> column > indent)
        decreases |value| - i
      {
        CharAt(cs, k, i);
        i, spaces, xs, guarded := WriteChar(value, i, allowBreaks, spaces, cs, k, f, base, xs, guarded);
        k := k + 1;
      }
      CharAt(cs, k, i);
      AllWritten(f, base, out, cs, xs, spaces, guarded);
      WriteIndicator(QUOTE, false, false, false);
      whitespace, indention := false, false;
    }

    /** One turn of the writer's loop: the character at `i`. */
    method WriteChar(value: Bytes, i: nat, allowBreaks: bool, spaces: bool, ghost cs: seq<CodePoint>, ghost k: nat,
                     ghost f: Layout, ghost base: Bytes, ghost xs: seq<Piece>, ghost guarded: bool)
      returns (next: nat, spaces': bool, ghost xs': seq<Piece>, ghost guarded': bool)
      requires Valid() && indent > 0 && f == Lines() && value == Utf8All(cs)
      requires k < |cs| && StartsAt(cs, k, i) && Holds(value, i, cs[k]) && i < |value|
      requires SoFar(f, base, out, cs, k, xs, spaces, guarded)
      requires guarded ==> spaces && !IsBom(value, 0)
      requires indention ==> column >= indent && (!spaces ==> column > indent)
      modifies this`out, this`column, this`line, this`whitespace, this`indention
      ensures next == i + |Utf8(cs[k])|
      ensures SoFar(f, base, out, cs, k + 1, xs', spaces', guarded')
      ensures guarded' ==> spaces' && !IsBom(value, 0)
      ensures indention ==> column >= indent && (!spaces' ==> column > indent)
    {
      ghost var c := cs[k];
      GuardMeans(f, base, out, cs, k, xs, spaces, guarded);
      WidthOfChar(value, i, c);
      BreakOfChar(value, i, c);
      PrintableOfChar(value, i, c);
      if !IsPrintable(value, i) || (!unicode && !IsAscii(value, i)) || IsBom(value, i) || IsBreak(value, i)
         || value[i] == QUOTE || value[i] == BACKSLASH {
        var w, v := Decode(value, i, c);
        AddPiece(f, base, out, cs, k, xs, spaces, guarded, Escaped(c), false);
        WriteEscape(v);
        return i + w, false, xs + [Escaped(c)], false;
      } else if value[i] == SPACE {
        if allowBreaks && !spaces && column > bestWidth && i > 0 && i < |value| - 1 {
          SpaceFollows(cs, k, i);
          WriteFold(value, i, cs, k, f, base, xs);
          return i + Width(value[i]), true, xs + [Fold], cs[k + 1] == 0x20;
        } else {
          AddPiece(f, base, out, cs, k, xs, spaces, guarded, if guarded then GuardedSpace else Raw(c), true);
          next := Write(value, i, c);
          return next, true, xs + [if guarded then GuardedSpace else Raw(c)], false;
        }
      } else {
        AddPiece(f, base, out, cs, k, xs, spaces, guarded, Raw(c), false);
        next := Write(value, i, c);
        return next, false, xs + [Raw(c)], false;
      }
    }

    /** A fold in place of a space, with a backslash if another space follows. */
    method WriteFold(value: Bytes, i: nat, ghost cs: seq<CodePoint>, ghost k: nat, ghost f: Layout, ghost base: Bytes,
                     ghost xs: seq<Piece>)
      requires Valid() && indent > 0 && f == Lines() && i + 1 < |value|
      requires k + 1 < |cs| && cs[k] == 0x20 && (value[i + 1] == SPACE <==> cs[k + 1] == 0x20)
      requires SoFar(f, base, out, cs, k, xs, false, false)
      requires indention ==> column > indent
      modifies this`out, this`column, this`line, this`whitespace, this`indention
      ensures SoFar(f, base, out, cs, k + 1, xs + [Fold], true, cs[k + 1] == 0x20)
      ensures column >= indent
    {
      AddFold(f, base, out, cs, k, xs);
      WriteIndent();
      if value[i + 1] == SPACE {
        Put(BACKSLASH);
      } else {
        EmptyRight(out);
      }
    }

    /** Emits a scalar in the double-quoted style: one indentation level deeper than its parent. */
    method EmitDoubleQuoted(value: Bytes, simpleKeyContext: bool, ghost cs: seq<CodePoint>)
      returns (ghost f: Layout, ghost xs: Pieces)
      requires Valid() && value == Utf8All(cs)
      modifies this
      ensures Valid() && indent == old(indent) && indents == old(indents)
      ensures MeaningAll(xs) == cs
      ensures out == old(out) + (if old(whitespace) then [] else [SPACE]) + [QUOTE] + RenderAll(f, xs) + [QUOTE]
    {
      IncreaseIndent(true, false);
      f := Lines();
      xs := WriteDoubleQuotedScalar(value, !simpleKeyContext, cs);
      indent := indents[|indents| - 1];
      indents := indents[..|indents| - 1];
    }

    method PutHex(v: nat, w: nat)
      modifies this`out, this`column
      ensures out == old(out) + HexDigits(v, w) && column == old(column) + w
    {
      var k := w;
      while k > 0
        invariant 0 <= k <= w && out == old(out) + HexDigits(Shr4(v, k), w - k) && column == old(column) + w - k
      {
        k := k - 1;
        Put(Digit(Shr4(v, k) % 16));
      }
    }
  }

  /** Seeing the byte after a space is seeing whether another space follows. */
  lemma SpaceFollows(cs: seq<CodePoint>, k: nat, i: nat)
    requires StartsAt(cs, k, i) && k < |cs| && cs[k] == 0x20 && i < |Utf8All(cs)| - 1
    ensures k + 1 < |cs| && (Utf8All(cs)[i + 1] == SPACE <==> cs[k + 1] == 0x20)
  {
    CharAt(cs, k, i);
    CharAt(cs, k + 1, i + 1);
    WidthOfChar(Utf8All(cs), i + 1, cs[k + 1]);
  }

  lemma LeadTwo(c: CodePoint)
    requires 0x7F < c <= 0x7FF
    ensures 0xC0 <= 0xC0 + c / 64 < 0xE0 && Shr6(c, 1) == (0xC0 + c / 64) % 32
  {
    assert Shr6(c, 1) == Shr6(c, 0) / 64;
  }

  lemma LeadThree(c: CodePoint)
    requires 0x7FF < c <= 0xFFFF
    ensures 0xE0 <= 0xE0 + c / 4096 < 0xF0 && Shr6(c, 2) == (0xE0 + c / 4096) % 16
  {
    assert Shr6(c, 2) == Shr6(c, 1) / 64 && Shr6(c, 1) == Shr6(c, 0) / 64;
    assert c / 64 / 64 == c / 4096;
  }

  lemma LeadFour(c: CodePoint)
    requires 0xFFFF < c
    ensures 0xF0 <= 0xF0 + c / 262144 < 0xF8 && Shr6(c, 3) == (0xF0 + c / 262144) % 8
  {
    assert Shr6(c, 3) == Shr6(c, 2) / 64 && Shr6(c, 2) == Shr6(c, 1) / 64 && Shr6(c, 1) == Shr6(c, 0) / 64;
    assert c / 64 / 64 / 64 == c / 262144;
  }

  /** The value bits of the first byte. */
  function LeadBits(x: byte): nat {
    if x < 0x80 then x else if x < 0xE0 then x % 32 else if x < 0xF0 then x % 16 else x % 8
  }

  lemma LeadOctet(value: Bytes, i: nat, c: CodePoint)
    requires Holds(value, i, c)
    ensures Shr6(c, |Utf8(c)| - 1) == LeadBits(value[i])
  {
    HoldsAt(value, i, c);
    if 0x7F < c <= 0x7FF {
      LeadTwo(c);
    } else if 0x7FF < c <= 0xFFFF {
      LeadThree(c);
    } else if 0xFFFF < c {
      LeadFour(c);
    }
  }

  lemma Shifts(c: nat)
    ensures Shr6(c, 0) == c && Shr6(c, 1) == c / 64 && Shr6(c, 2) == c / 4096 && Shr6(c, 3) == c / 262144
  {
    assert Shr6(c, 3) == Shr6(c, 2) / 64 && Shr6(c, 2) == Shr6(c, 1) / 64 && Shr6(c, 1) == Shr6(c, 0) / 64;
    assert c / 64 / 64 == c / 4096 && c / 4096 / 64 == c / 262144;
  }

  /** The value bits of a later byte. */
  lemma TailBits(y: nat)
    requires y < 64
    ensures (0x80 + y) % 64 == y
  {
  }

  lemma NextOctet(value: Bytes, i: nat, c: CodePoint, k: nat)
    requires Holds(value, i, c) && 1 <= k < |Utf8(c)|
    ensures value[i + k] % 64 == Shr6(c, |Utf8(c)| - k - 1) % 64
    ensures Shr6(c, |Utf8(c)| - k) == Shr6(c, |Utf8(c)| - k - 1) / 64
  {
    HoldsAt(value, i, c);
    Shifts(c);
    TailBits(c % 64);
    TailBits(c / 64 % 64);
    TailBits(c / 4096 % 64);
  }
}
