/** Writing a string as a double-quoted scalar and scanning the result. */
module QuotedRoundTrip {
  import opened Prelude
  import opened YamlChars
  import opened QuotedScalar
  import opened YamlEmitter
  import opened YamlScanner

  /** For every valid UTF-8 string, every emitter setting, whatever is in the output
      before and after it, and wherever the scanner thinks its column is: what the scanner reads from the left
      quote on is exactly that string. */
  method WriteThenScan(value: Bytes, before: Bytes, column: nat, indent: int, whitespace: bool, indention: bool,
                       bestIndent: int, bestWidth: int, unicode: bool, lineBreak: Bytes, simpleKeyContext: bool,
                       after: Bytes, scanColumn: nat)
    returns (token: Token)
    requires IsLineBreak(lineBreak)
    requires exists cs :: value == Utf8All(cs)
    ensures token == ScalarToken(value)
  {
    ghost var cs :| value == Utf8All(cs);
    var emitter := new Emitter(before, column, indent, whitespace, indention, bestIndent, bestWidth, unicode, lineBreak);
    ghost var f, xs := emitter.EmitDoubleQuoted(value, simpleKeyContext, cs);
    var start := |before| + if whitespace then 0 else 1;
    var input := emitter.out + after;
    AtPiecesFrom(f, xs, input, before + (if whitespace then [] else [SPACE]), after);
    ScanUndoesRender(f, input, Cursor(start, scanColumn), xs);
    var scanner := new Scanner(input, start, scanColumn);
    token := scanner.ScanFlowScalar();
  }

  lemma AtPiecesFrom(f: Layout, xs: Pieces, b: Bytes, lead: Bytes, after: Bytes)
    requires b == lead + [QUOTE] + RenderAll(f, xs) + [QUOTE] + after
    ensures |lead| < |b| && b[|lead|] == QUOTE && AtPieces(f, b, |lead| + 1, xs)
  {
    AfterQuote(b, lead, RenderAll(f, xs), after);
    AtPiecesAppend(f, xs, b, |lead| + 1, after);
  }

  lemma AfterQuote(b: Bytes, lead: Bytes, text: Bytes, after: Bytes)
    requires b == lead + [QUOTE] + text + [QUOTE] + after
    ensures b[|lead|] == QUOTE && b[|lead| + 1..] == text + [QUOTE] + after
  {
  }
}
