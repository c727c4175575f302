/** Bytes, UTF-8 and the byte predicates of the YAML reader and writer. */
module YamlChars {
  import opened Prelude

  /** The byte at position `i`; past the end of its input the reader supplies NULs. */
  function At(b: Bytes, i: nat): byte {
    if i < |b| then b[i] else 0
  }

  // ----- UTF-8, section 3 of RFC 3629 -----

  /** A Unicode scalar value: a code point that is not a surrogate. */
  type CodePoint = c: int | 0 <= c < 0xD800 || 0xDFFF < c <= 0x10FFFF

  function Utf8(c: CodePoint): (r: Bytes)
    ensures 1 <= |r| <= 4
  {
    var last: byte := 0x80 + c % 64;
    if c <= 0x7F then
      var only: byte := c; [only]
    else if c <= 0x7FF then
      var lead: byte := 0xC0 + c / 64; [lead, last]
    else if c <= 0xFFFF then
      var lead: byte := 0xE0 + c / 4096; [lead, 0x80 + c / 64 % 64, last]
    else
      var lead: byte := 0xF0 + c / 262144; [lead, 0x80 + c / 4096 % 64, 0x80 + c / 64 % 64, last]
  }

  function Utf8All(cs: seq<CodePoint>): Bytes {
    if cs == [] then [] else Utf8(cs[0]) + Utf8All(cs[1..])
  }

  lemma {:induction false} Utf8AllAppend(cs: seq<CodePoint>, ds: seq<CodePoint>)
    ensures Utf8All(cs + ds) == Utf8All(cs) + Utf8All(ds)
  {
    if cs == [] {
      assert cs + ds == ds;
    } else {
      assert (cs + ds)[1..] == cs[1..] + ds;
      Utf8AllAppend(cs[1..], ds);
    }
  }

  lemma Utf8AllOne(c: CodePoint)
    ensures Utf8All([c]) == Utf8(c)
  {
    assert Utf8All([c]) == Utf8(c) + Utf8All([]);
  }

  // ----- yamlprivateh.go -----

  predicate IsHex(x: byte) {
    '0' as int <= x <= '9' as int || 'A' as int <= x <= 'F' as int || 'a' as int <= x <= 'f' as int
  }

  function AsHex(x: byte): int {
    if 'A' as int <= x <= 'F' as int then x - 'A' as int + 10
    else if 'a' as int <= x <= 'f' as int then x - 'a' as int + 10
    else x - '0' as int
  }

  predicate IsAscii(b: Bytes, i: nat) {
    At(b, i) <= 0x7F
  }

  predicate IsPrintable(b: Bytes, i: nat) {
    var x := At(b, i);
    || x == 0x0A
    || 0x20 <= x <= 0x7E
    || (x == 0xC2 && At(b, i + 1) >= 0xA0)
    || 0xC2 < x < 0xED
    || (x == 0xED && At(b, i + 1) < 0xA0)
    || x == 0xEE
    || (x == 0xEF && !(At(b, i + 1) == 0xBB && At(b, i + 2) == 0xBF)
        && !(At(b, i + 1) == 0xBF && (At(b, i + 2) == 0xBE || At(b, i + 2) == 0xBF)))
  }

  /** Looks at the start of the buffer, whatever position it is asked about. */
  predicate IsBom(b: Bytes, i: nat) {
    At(b, 0) == 0xEF && At(b, 1) == 0xBB && At(b, 2) == 0xBF
  }

  predicate IsBlank(b: Bytes, i: nat) {
    At(b, i) == 0x20 || At(b, i) == 0x09
  }

  predicate IsBreak(b: Bytes, i: nat) {
    var x := At(b, i);
    || x == 0x0D
    || x == 0x0A
    || (x == 0xC2 && At(b, i + 1) == 0x85)
    || (x == 0xE2 && At(b, i + 1) == 0x80 && (At(b, i + 2) == 0xA8 || At(b, i + 2) == 0xA9))
  }

  predicate IsBlankz(b: Bytes, i: nat) {
    IsBlank(b, i) || IsBreak(b, i) || At(b, i) == 0
  }

  function Width(x: byte): nat {
    if x < 0x80 then 1
    else if 0xC0 <= x < 0xE0 then 2
    else if 0xE0 <= x < 0xF0 then 3
    else if 0xF0 <= x < 0xF8 then 4
    else 0
  }

  // ----- What the predicates say about a code point -----

  /** `b` holds the encoding of `c` at position `i`. */
  ghost predicate Holds(b: Bytes, i: nat, c: CodePoint) {
    i + |Utf8(c)| <= |b| && b[i..i + |Utf8(c)|] == Utf8(c)
  }

  lemma HoldsAt(b: Bytes, i: nat, c: CodePoint)
    requires Holds(b, i, c)
    ensures At(b, i) == Utf8(c)[0]
    ensures |Utf8(c)| > 1 ==> At(b, i + 1) == Utf8(c)[1]
    ensures |Utf8(c)| > 2 ==> At(b, i + 2) == Utf8(c)[2]
    ensures |Utf8(c)| > 3 ==> At(b, i + 3) == Utf8(c)[3]
  {
    var s := b[i..i + |Utf8(c)|];
    assert s[0] == b[i];
    assert |s| > 1 ==> s[1] == b[i + 1];
    assert |s| > 2 ==> s[2] == b[i + 2];
    assert |s| > 3 ==> s[3] == b[i + 3];
  }

  predicate IsBreakChar(c: int) {
    c == 0x0A || c == 0x0D || c == 0x85 || c == 0x2028 || c == 0x2029
  }

  predicate IsPrintableChar(c: int) {
    c == 0x0A || 0x20 <= c <= 0x7E || 0xA0 <= c <= 0xD7FF || (0xE000 <= c <= 0xFFFD && c != 0xFEFF)
  }

  /** On well-formed UTF-8 the byte predicates decide properties of the code point. */
  lemma WidthOfChar(b: Bytes, i: nat, c: CodePoint)
    requires Holds(b, i, c)
    ensures Width(At(b, i)) == |Utf8(c)|
    ensures c <= 0x7F <==> At(b, i) <= 0x7F
    ensures c <= 0x7F ==> At(b, i) == c
    ensures IsAscii(b, i) <==> c <= 0x7F
    ensures IsBlank(b, i) <==> c == 0x20 || c == 0x09
  {
    HoldsAt(b, i, c);
  }

  lemma BreakOfChar(b: Bytes, i: nat, c: CodePoint)
    requires Holds(b, i, c)
    ensures IsBreak(b, i) <==> IsBreakChar(c)
  {
    HoldsAt(b, i, c);
    if 0x7F < c <= 0x7FF {
      assert At(b, i) == 0xC2 && At(b, i + 1) == 0x85 <==> c == 0x85;
    }
  }

  lemma PrintableOfChar(b: Bytes, i: nat, c: CodePoint)
    requires Holds(b, i, c)
    ensures IsPrintable(b, i) <==> IsPrintableChar(c)
  {
    if c <= 0x7FF {
      PrintableShort(b, i, c);
    } else if c <= 0xFFFF {
      PrintableLong(b, i, c);
    } else {
      HoldsAt(b, i, c);
    }
  }

  lemma PrintableShort(b: Bytes, i: nat, c: CodePoint)
    requires Holds(b, i, c) && c <= 0x7FF
    ensures IsPrintable(b, i) <==> IsPrintableChar(c)
  {
    HoldsAt(b, i, c);
  }

  lemma PrintableLong(b: Bytes, i: nat, c: CodePoint)
    requires Holds(b, i, c) && 0x7FF < c <= 0xFFFF
    ensures IsPrintable(b, i) <==> IsPrintableChar(c)
  {
    HoldsAt(b, i, c);
    var x, y, z := c / 4096, c / 64 % 64, c % 64;
    PrintableThree(c, x, y, z);
    assert At(b, i) == 0xE0 + x && At(b, i + 1) == 0x80 + y && At(b, i + 2) == 0x80 + z;
  }

  lemma PrintableThree(c: CodePoint, x: int, y: int, z: int)
    requires 0x7FF < c <= 0xFFFF && c == 4096 * x + 64 * y + z && 0 <= y < 64 && 0 <= z < 64
    ensures x == 13 && y < 32 <==> 0xD000 <= c < 0xD800
    ensures x < 13 <==> c < 0xD000
    ensures x == 14 <==> 0xE000 <= c < 0xF000
    ensures x == 15 && y == 0x3B && z == 0x3F <==> c == 0xFEFF
    ensures x == 15 && y == 0x3F && (z == 0x3E || z == 0x3F) <==> c >= 0xFFFE
  {
  }
}
