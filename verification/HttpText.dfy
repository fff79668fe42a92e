/** What the lines of an HTTP/1.1 message are: where one ends, and which ones are status lines,
    headers, lengths and chunk sizes (RFC 9110, section 5; RFC 9112, sections 4, 6 and 7). */
module HttpText {
  import opened Options
  import opened Numerals

  /** The largest size_t, of 64 bits. */
  const SIZE_MAX: nat := 0xFFFF_FFFF_FFFF_FFFF

  const CR: char := '\r'
  const LF: char := '\n'

  // ---------- Lines ----------

  predicate CrlfAt(s: string, i: nat) {
    i + 1 < |s| && s[i] == CR && s[i + 1] == LF
  }

  /** Where the first CRLF of s starts, or the length of s if it has none. */
  function LineEnd(s: string): (p: nat)
    ensures p <= |s|
    ensures p < |s| ==> CrlfAt(s, p)
    ensures forall i :: 0 <= i < p ==> !CrlfAt(s, i)
  {
    if |s| < 2 then |s|
    else if s[0] == CR && s[1] == LF then 0
    else
      assert forall i :: 1 <= i < |s| ==> (CrlfAt(s, i) <==> CrlfAt(s[1..], i - 1));
      1 + LineEnd(s[1..])
  }

  predicate HasLine(s: string) {
    LineEnd(s) < |s|
  }

  /** The first line of s, without its CRLF, and what comes after it. */
  function FirstLine(s: string): string
    requires HasLine(s)
  {
    s[..LineEnd(s)]
  }

  function AfterLine(s: string): (rest: string)
    requires HasLine(s)
    ensures |rest| + LineEnd(s) + 2 == |s|
  {
    s[LineEnd(s) + 2..]
  }

  lemma LineEndIs(s: string, p: nat)
    requires CrlfAt(s, p)
    requires forall i :: 0 <= i < p ==> !CrlfAt(s, i)
    ensures LineEnd(s) == p && HasLine(s)
  {
    assert !(LineEnd(s) < p);
  }

  /** A line whole in what has come is the same line of everything that comes. */
  lemma LineOfPrefix(a: string, b: string)
    requires HasLine(a)
    ensures HasLine(a + b) && LineEnd(a + b) == LineEnd(a)
    ensures FirstLine(a + b) == FirstLine(a)
    ensures AfterLine(a + b) == AfterLine(a) + b
  {
    forall i | 0 <= i < LineEnd(a) ensures !CrlfAt(a + b, i) {
      assert !CrlfAt(a, i);
    }
    LineEndIs(a + b, LineEnd(a));
  }

  /** While what has come has no line, the first one ends past it. */
  lemma LinePastPrefix(a: string, b: string)
    requires !HasLine(a)
    ensures |a| <= LineEnd(a + b) + 1
  {
    assert forall i | 0 <= i < |a| - 1 :: CrlfAt(a + b, i) == CrlfAt(a, i);
    assert forall i | 0 <= i < |a| :: !CrlfAt(a, i);
  }

  // ---------- Characters ----------

  /** HTAB, SP, visible ASCII and bytes from 0x80 up. */
  predicate IsFieldChar(c: char) {
    c == '\t' || (c >= ' ' && c as int != 0x7f)
  }

  predicate IsFieldText(s: string) {
    forall i :: 0 <= i < |s| ==> IsFieldChar(s[i])
  }

  /** tchar of RFC 9110, section 5.6.2. */
  predicate IsTokenChar(c: char) {
    '0' <= c <= '9' || 'a' <= c <= 'z' || 'A' <= c <= 'Z' || c in "!#$%&'*+-.^_`|~"
  }

  /** Visible ASCII, but for the delimiters. */
  lemma TokenChars(c: char)
    ensures IsTokenChar(c) <==> '!' <= c <= '~' && c !in "\"(),/:;<=>?@[\\]{}"
  {
  }

  /** No control character, but for the tab. */
  lemma FieldChars(c: char)
    ensures !IsFieldChar(c) <==> (c as int < 32 && c as int != 9) || c as int == 127
  {
  }

  /** A letter of either case is as good as the other. */
  lemma LowerLetters(c: char, d: char)
    ensures Lower(c) == Lower(d) <==>
              c == d || (65 <= c as int <= 90 && d as int == c as int + 32) || (65 <= d as int <= 90 && c as int == d as int + 32)
  {
  }

  predicate IsBlank(c: char) {
    c == ' ' || c == '\t'
  }

  function Lower(c: char): char {
    if 'A' <= c <= 'Z' then (c as int - 'A' as int + 'a' as int) as char else c
  }

  /** Whether s has name, which is in lower case, at i, in either case. */
  predicate EqualIgnoringCaseAt(s: string, i: nat, name: string) {
    i + |name| <= |s| && forall k :: i <= k < i + |name| ==> Lower(s[k]) == name[k - i]
  }

  // ---------- Status lines and headers ----------

  /** "HTTP/1." and a digit, a space, three digits, and nothing more, or a space and a reason. */
  predicate IsStatusLine(line: string) {
    && |line| >= 12
    && line[..7] == "HTTP/1."
    && '0' <= line[7] <= '9'
    && line[8] == ' '
    && (forall i :: 9 <= i < 12 ==> '0' <= line[i] <= '9')
    && (|line| > 12 ==> line[12] == ' ' && IsFieldText(line[13..]))
  }

  function StatusCode(line: string): (code: nat)
    requires IsStatusLine(line)
    ensures code <= 999
  {
    (line[9] as int - '0' as int) * 100 + (line[10] as int - '0' as int) * 10 + (line[11] as int - '0' as int)
  }

  /** A header's name is the token before its colon, and its value field text. */
  ghost predicate IsHeaderLine(line: string) {
    exists n: nat :: HeaderNameEndsAt(line, n) && IsFieldText(line[n + 1..])
  }

  predicate HeaderNameEndsAt(line: string, n: nat) {
    0 < n < |line| && line[n] == ':' && forall i :: 0 <= i < n ==> IsTokenChar(line[i])
  }

  /** A token has no colon, so a header has one name. */
  lemma HeaderNameUnique(line: string, m: nat, n: nat)
    requires HeaderNameEndsAt(line, m) && HeaderNameEndsAt(line, n)
    ensures m == n
  {
  }

  /** The start of a header too long for its buffer, of which a last CR may start the CRLF. */
  ghost predicate IsHeaderStart(s: string) {
    IsHeaderLine(if s != [] && s[|s| - 1] == CR then s[..|s| - 1] else s)
  }

  /** Whether a line is the header called name, whatever its value. */
  predicate IsFieldNamed(line: string, name: string) {
    |name| < |line| && EqualIgnoringCaseAt(line, 0, name) && line[|name|] == ':'
  }

  function FieldValue(line: string, name: string): string
    requires IsFieldNamed(line, name)
  {
    line[|name| + 1..]
  }

  // ---------- Body framing ----------

  datatype Coding = NoCoding | Chunked | OtherCoding

  /** Where, in a list of transfer codings, the name of the last one is, if it is "chunked": blanks
      and commas alone after it, and blanks alone before it, up to a comma or the start. */
  ghost predicate LastIsChunkedAt(value: string, i: nat) {
    && EqualIgnoringCaseAt(value, i, "chunked")
    && (forall k :: i + 7 <= k < |value| ==> IsBlank(value[k]) || value[k] == ',')
    && exists b: nat :: ElementStart(value, b, i)
  }

  predicate ElementStart(value: string, b: nat, i: nat) {
    b <= i <= |value| && (b == 0 || value[b - 1] == ',') && forall k :: b <= k < i ==> IsBlank(value[k])
  }

  ghost predicate EndsInChunked(value: string) {
    exists i: nat :: LastIsChunkedAt(value, i)
  }

  ghost function CodingOf(line: string): Coding {
    if !IsFieldNamed(line, "transfer-encoding") then NoCoding
    else if EndsInChunked(FieldValue(line, "transfer-encoding")) then Chunked
    else OtherCoding
  }

  datatype Length = NoLength | LengthIs(n: nat) | BadLength

  /** 1*DIGIT between optional blanks. */
  predicate DigitsAt(value: string, a: nat, b: nat) {
    && a < b <= |value|
    && (forall k :: 0 <= k < |value| && (k < a || b <= k) ==> IsBlank(value[k]))
    && (forall k :: a <= k < b ==> Digit(value[k], Decimal) >= 0)
  }

  lemma DigitsAtUnique(value: string, a: nat, b: nat, a': nat, b': nat)
    requires DigitsAt(value, a, b) && DigitsAt(value, a', b')
    ensures a == a' && b == b'
  {
    assert Digit(value[a], Decimal) >= 0 && Digit(value[a'], Decimal) >= 0;
    assert Digit(value[b - 1], Decimal) >= 0 && Digit(value[b' - 1], Decimal) >= 0;
  }

  ghost predicate IsLength(value: string, n: nat) {
    exists a: nat, b: nat :: DigitsAt(value, a, b) && Value(value[a..b], Decimal) == n
  }

  /** What a line says of the body's length, where a size_t holds it. */
  ghost function LengthOf(line: string): Length {
    if !IsFieldNamed(line, "content-length") then NoLength
    else if exists n: nat :: n <= SIZE_MAX && IsLength(FieldValue(line, "content-length"), n) then
      var n: nat :| n <= SIZE_MAX && IsLength(FieldValue(line, "content-length"), n);
      LengthIs(n)
    else BadLength
  }

  lemma LengthOfIs(line: string, a: nat, b: nat)
    requires IsFieldNamed(line, "content-length")
    requires DigitsAt(FieldValue(line, "content-length"), a, b)
    ensures var n := Value(FieldValue(line, "content-length")[a..b], Decimal);
            LengthOf(line) == if n <= SIZE_MAX then LengthIs(n) else BadLength
  {
    var value := FieldValue(line, "content-length");
    var n := Value(value[a..b], Decimal);
    assert IsLength(value, n);
    forall m: nat | IsLength(value, m) ensures m == n {
      var a': nat, b': nat :| DigitsAt(value, a', b') && Value(value[a'..b'], Decimal) == m;
      DigitsAtUnique(value, a, b, a', b');
    }
  }

  lemma LengthIsUnique(line: string, n: nat)
    requires IsFieldNamed(line, "content-length")
    requires IsLength(FieldValue(line, "content-length"), n)
    ensures LengthOf(line) == if n <= SIZE_MAX then LengthIs(n) else BadLength
  {
    var value := FieldValue(line, "content-length");
    var a: nat, b: nat :| DigitsAt(value, a, b) && Value(value[a..b], Decimal) == n;
    LengthOfIs(line, a, b);
  }

  /** The line that opens a chunk of n bytes: 1*HEXDIG, and a chunk extension if there is one. */
  ghost predicate IsChunkSizeLine(line: string, n: nat) {
    exists d: nat :: HexDigitsEndAt(line, d) && Value(line[..d], Hex) == n && IsChunkExtension(line[d..])
  }

  predicate HexDigitsEndAt(line: string, d: nat) {
    && 0 < d <= |line|
    && (forall k :: 0 <= k < d ==> Digit(line[k], Hex) >= 0)
    && (d < |line| ==> Digit(line[d], Hex) < 0)
  }

  /** Nothing, or a semicolon, with optional blanks before it and field text after it. */
  ghost predicate IsChunkExtension(s: string) {
    s == [] || exists k: nat :: SemicolonAt(s, k) && IsFieldText(s[k..])
  }

  predicate SemicolonAt(s: string, k: nat) {
    k < |s| && s[k] == ';' && forall i :: 0 <= i < k ==> IsBlank(s[i])
  }

  lemma SemicolonUnique(s: string, k: nat, k': nat)
    requires SemicolonAt(s, k) && SemicolonAt(s, k')
    ensures k == k'
  {
  }

  /** The size a chunk's line gives, where a size_t holds it. */
  ghost function ChunkSizeOf(line: string): Option<nat> {
    if exists n: nat :: n <= SIZE_MAX && IsChunkSizeLine(line, n) then
      var n: nat :| n <= SIZE_MAX && IsChunkSizeLine(line, n);
      Some(n)
    else None
  }

  lemma ChunkSizeOfIs(line: string, d: nat)
    requires HexDigitsEndAt(line, d)
    ensures var n := Value(line[..d], Hex);
            ChunkSizeOf(line) == if n <= SIZE_MAX && IsChunkExtension(line[d..]) then Some(n) else None
  {
    var n := Value(line[..d], Hex);
    forall m: nat | IsChunkSizeLine(line, m) ensures m == n && IsChunkExtension(line[d..]) {
      var d': nat :| HexDigitsEndAt(line, d') && Value(line[..d'], Hex) == m && IsChunkExtension(line[d'..]);
    }
    if IsChunkExtension(line[d..]) {
      assert IsChunkSizeLine(line, n);
    }
  }

  // ---------- Trailers ----------

  const EMPTY_LINE: string := "\r\n\r\n"

  /** A CRLF right after a CRLF. */
  predicate EmptyLineAt(s: string, i: nat) {
    i + 4 <= |s| && s[i] == CR && s[i + 1] == LF && s[i + 2] == CR && s[i + 3] == LF
  }

  ghost predicate HasEmptyLine(s: string) {
    exists i: nat :: EmptyLineAt(s, i)
  }
}
