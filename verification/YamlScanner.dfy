/** The scanner's reading of double-quoted scalars.  The whole input is in the buffer;
    reading past its end sees NULs. */
module YamlScanner {
  import opened Prelude
  import opened YamlChars
  import opened QuotedScalar

  datatype Token = ScalarToken(value: Bytes) | NoToken(error: ScanError)

  class Scanner {
    const buffer: Bytes
    var pos: nat
    var index: nat
    var line: nat
    var column: nat

    ghost function Cur(): Cursor
      reads this
    {
      Cursor(pos, column)
    }

    constructor (buffer: Bytes, pos: nat, column: nat)
      ensures this.buffer == buffer && this.pos == pos && this.column == column
    {
      this.buffer, this.pos, this.index, this.line, this.column := buffer, pos, 0, 0, column;
    }

    /** Past one character. */
    method Skip()
      requires pos < |buffer|
      modifies this
      ensures Cur() == Cursor(old(pos) + Width(buffer[old(pos)]), old(column) + 1)
    {
      index := index + 1;
      column := column + 1;
      pos := pos + Width(buffer[pos]);
    }

    /** Past one line break. */
    method SkipLine()
      requires IsBreak(buffer, pos)
      modifies this
      ensures Cur() == Cursor(old(pos) + BreakLength(buffer, old(pos)), 0)
    {
      if At(buffer, pos) == 0x0D && At(buffer, pos + 1) == 0x0A {
        index := index + 2;
        pos := pos + 2;
      } else {
        index := index + 1;
        pos := pos + Width(At(buffer, pos));
      }
      column := 0;
      line := line + 1;
    }

    /** Copies one character to `s`. */
    method Read(s: Bytes) returns (s': Bytes)
      requires pos < |buffer| && Width(buffer[pos]) > 0 && pos + Width(buffer[pos]) <= |buffer|
      modifies this
      ensures s' == s + buffer[old(pos)..old(pos) + Width(buffer[old(pos)])]
      ensures Cur() == Cursor(old(pos) + Width(buffer[old(pos)]), old(column) + 1)
    {
      var w := Width(buffer[pos]);
      s' := s + buffer[pos..pos + w];
      pos := pos + w;
      index := index + 1;
      column := column + 1;
    }

    /** Copies one line break to `s`, normalised. */
    method ReadLine(s: Bytes) returns (s': Bytes)
      requires IsBreak(buffer, pos)
      modifies this
      ensures s' == s + BreakText(buffer, old(pos)) && Cur() == Cursor(old(pos) + BreakLength(buffer, old(pos)), 0)
    {
      if At(buffer, pos) == 0x0D && At(buffer, pos + 1) == 0x0A {
        s' := s + [0x0A];
        pos := pos + 2;
        index := index + 1;
      } else if At(buffer, pos) == 0x0D || At(buffer, pos) == 0x0A {
        s' := s + [0x0A];
        pos := pos + 1;
      } else if At(buffer, pos) == 0xC2 && At(buffer, pos + 1) == 0x85 {
        s' := s + [0x0A];
        pos := pos + 2;
      } else {
        s' := s + buffer[pos..pos + 3];
        pos := pos + 3;
      }
      index := index + 1;
      column := 0;
      line := line + 1;
    }

    /** The hexadecimal code of an escape sequence, not yet consumed. */
    method ReadCode(length: nat) returns (value: Option<nat>)
      ensures value == HexValue(buffer, pos, length)
    {
      var v: nat := 0;
      var k := 0;
      while k < length
        invariant 0 <= k <= length && HexValue(buffer, pos, k) == Some(v)
      {
        if !IsHex(At(buffer, pos + k)) {
          NoHexValue(buffer, pos, k + 1, length);
          return None;
        }
        v := v * 16 + AsHex(At(buffer, pos + k));
        k := k + 1;
      }
      return Some(v);
    }

    /** The escape sequence at the current position, which is not an escaped line break. */
    method ScanEscape(s: Bytes) returns (error: Option<ScanError>, s': Bytes)
      requires At(buffer, pos) == BACKSLASH
      modifies this
      ensures match ReadEscape(buffer, old(pos))
        case Escape(bytes, length) => error.None? && s' == s + bytes && Cur() == Cursor(old(pos) + length, old(column) + length)
        case BadEscape(e) => error == Some(e)
    {
      s' := s;
      var x := At(buffer, pos + 1);
      var codeLength := CodeLength(x);
      if SimpleEscape(x).Some? {
        s' := s + Utf8(SimpleEscape(x).value);
      } else if codeLength == 0 {
        return Some(UnknownEscape), s';
      }
      Skip();
      Skip();
      if SimpleEscape(x).None? {
        var value := ReadCode(codeLength);
        if value.None? { return Some(NotHexadecimal), s'; }
        if 0xD800 <= value.value <= 0xDFFF || value.value > 0x10FFFF { return Some(InvalidCode), s'; }
        s' := s + Utf8(value.value);
        SkipDigits(codeLength);
      }
      return None, s';
    }

    method SkipDigits(n: nat)
      requires HexValue(buffer, pos, n).Some? && pos <= |buffer|
      modifies this
      ensures Cur() == Cursor(old(pos) + n, old(column) + n)
    {
      var k := 0;
      while k < n
        invariant 0 <= k <= n && Cur() == Cursor(old(pos) + k, old(column) + k)
      {
        HexDigitAt(buffer, old(pos), n, k);
        Skip();
        k := k + 1;
      }
    }

    /** Consumes one character or escape sequence, or an escaped line break. */
    method ConsumeWord(s: Bytes) returns (error: Option<ScanError>, s': Bytes, leadingBlanks: bool)
      requires pos < |buffer| && !ReadWord(buffer, pos).NoWord?
      modifies this
      ensures match ReadWord(buffer, old(pos))
        case Word(bytes, length, columns) =>
          error.None? && !leadingBlanks && s' == s + bytes && Cur() == Cursor(old(pos) + length, old(column) + columns)
        case EscapedBreak(length) => error.None? && leadingBlanks && s' == s && Cur() == Cursor(old(pos) + length, 0)
        case BadWord(e) => error == Some(e)
        case NoWord => false
    {
      s', leadingBlanks := s, false;
      if buffer[pos] == BACKSLASH && IsBreak(buffer, pos + 1) {
        Skip();
        SkipLine();
        return None, s, true;
      } else if buffer[pos] == BACKSLASH {
        error, s' := ScanEscape(s);
      } else if Width(buffer[pos]) == 0 || pos + Width(buffer[pos]) > |buffer| {
        return Some(BadUtf8), s, false;
      } else {
        s' := Read(s);
        return None, s', false;
      }
    }

    /** Consumes non-blank characters. */
    method ConsumeWords(s: Bytes) returns (error: Option<ScanError>, s': Bytes, leadingBlanks: bool)
      requires pos <= |buffer|
      modifies this
      ensures match ScanWords(buffer, old(Cur()), s)
        case Words(at, text, leading) => error.None? && Cur() == at && s' == text && leadingBlanks == leading
        case WordsError(e) => error == Some(e)
    {
      s', leadingBlanks := s, false;
      while !IsBlankz(buffer, pos) && buffer[pos] != QUOTE
        invariant pos <= |buffer| && !leadingBlanks
        invariant ScanWords(buffer, Cur(), s') == ScanWords(buffer, old(Cur()), s)
        decreases |buffer| - pos
      {
        error, s', leadingBlanks := ConsumeWord(s');
        if error.Some? || leadingBlanks { return error, s', leadingBlanks; }
      }
      return None, s', false;
    }

    /** Consumes blanks and line breaks. */
    method ConsumeBlanks(leading: bool) returns (leadingBlanks: bool, spaces: Bytes, leadingBreak: Bytes, trailingBreaks: Bytes)
      requires pos <= |buffer|
      modifies this
      ensures pos <= |buffer|
      ensures Blanks(Cur(), leadingBlanks, spaces, leadingBreak, trailingBreaks)
              == ScanBlanks(buffer, Blanks(old(Cur()), leading, [], [], []))
    {
      leadingBlanks, spaces, leadingBreak, trailingBreaks := leading, [], [], [];
      while IsBlank(buffer, pos) || IsBreak(buffer, pos)
        invariant pos <= |buffer|
        invariant ScanBlanks(buffer, Blanks(Cur(), leadingBlanks, spaces, leadingBreak, trailingBreaks))
                  == ScanBlanks(buffer, Blanks(old(Cur()), leading, [], [], []))
        decreases |buffer| - pos
      {
        if IsBlank(buffer, pos) {
          assert buffer[pos..pos + 1] == [At(buffer, pos)];
          if !leadingBlanks {
            spaces := Read(spaces);
          } else {
            Skip();
          }
        } else if !leadingBlanks {
          spaces := [];
          leadingBreak := ReadLine(leadingBreak);
          leadingBlanks := true;
        } else {
          trailingBreaks := ReadLine(trailingBreaks);
        }
      }
    }

    /** Scans the double-quoted scalar whose left quote is at the current position. */
    method ScanFlowScalar() returns (token: Token)
      requires pos < |buffer| && buffer[pos] == QUOTE
      modifies this
      ensures match Scan(buffer, old(Cur()))
        case Scanned(text, at) => token == ScalarToken(text) && Cur() == Cursor(at.p + 1, at.column + 1)
        case ScanFailed(e) => token == NoToken(e)
    {
      Skip();
      var s: Bytes := [];
      while true
        invariant pos <= |buffer| && ScanRest(buffer, Cur(), s) == Scan(buffer, old(Cur()))
        decreases |buffer| - pos
      {
        if column == 0 && AtDocumentIndicator(buffer, pos) { return NoToken(DocumentIndicator); }
        if At(buffer, pos) == 0 { return NoToken(EndOfStream); }
        ghost var c := Cur();
        var error, leading;
        error, s, leading := ConsumeWords(s);
        if error.Some? { return NoToken(error.value); }
        if At(buffer, pos) == QUOTE {
          Skip();
          return ScalarToken(s);
        }
        var spaces, leadingBreak, trailingBreaks;
        leading, spaces, leadingBreak, trailingBreaks := ConsumeBlanks(leading);
        if leading {
          if |leadingBreak| > 0 && leadingBreak[0] == 0x0A {
            s := s + if trailingBreaks == [] then [SPACE] else trailingBreaks;
          } else {
            s := s + (leadingBreak + trailingBreaks);
          }
        } else {
          s := s + spaces;
        }
      }
    }
  }

  lemma {:induction false} NoHexValue(b: Bytes, p: nat, k: nat, n: nat)
    requires k <= n && HexValue(b, p, k).None?
    ensures HexValue(b, p, n).None?
    decreases n - k
  {
    if k < n {
      NoHexValue(b, p, k + 1, n);
    }
  }

  lemma {:induction false} HexDigitAt(b: Bytes, p: nat, n: nat, k: nat)
    requires HexValue(b, p, n).Some? && k < n
    ensures p + k < |b| && IsHex(b[p + k])
    decreases n
  {
    if k < n - 1 {
      HexDigitAt(b, p, n - 1, k);
    }
  }
}
