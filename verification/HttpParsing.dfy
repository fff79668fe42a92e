/** The scanning loops of khc_impl.c, and the CRLF search, proved against what HttpText says the
    lines are. A span of bytes is a string. */
module HttpParsing {
  import opened Options
  import opened Numerals
  import opened HttpText

  /** The first CRLF of s, or the length of s if there is none. */
  method FindCrlf(s: string) returns (p: nat)
    ensures p == LineEnd(s)
  {
    p := 0;
    while p + 1 < |s|
      invariant p <= |s|
      invariant forall i :: 0 <= i < p ==> !CrlfAt(s, i)
    {
      if s[p] == CR && s[p + 1] == LF {
        LineEndIs(s, p);
        return;
      }
      p := p + 1;
    }
    assert forall i | 0 <= i < |s| :: !CrlfAt(s, i);
    p := |s|;
  }

  method IsFieldTextLoop(s: string) returns (ok: bool)
    ensures ok == IsFieldText(s)
  {
    for i := 0 to |s|
      invariant forall k :: 0 <= k < i ==> IsFieldChar(s[k])
    {
      if !IsFieldChar(s[i]) {
        return false;
      }
    }
    return true;
  }

  /** The length of the name a header starts with, up to its colon, or 0. */
  method HeaderNameLength(s: string) returns (n: nat)
    ensures n > 0 ==> HeaderNameEndsAt(s, n)
    ensures n == 0 ==> forall m :: 0 <= m < |s| ==> !HeaderNameEndsAt(s, m)
  {
    n := 0;
    while n < |s| && IsTokenChar(s[n])
      invariant n <= |s|
      invariant forall k :: 0 <= k < n ==> IsTokenChar(s[k])
    {
      n := n + 1;
    }
    if !(n > 0 && n < |s| && s[n] == ':') {
      n := 0;
    }
  }

  method IsHeaderLineLoop(line: string) returns (ok: bool)
    ensures ok == IsHeaderLine(line)
  {
    var n := HeaderNameLength(line);
    if n == 0 {
      return false;
    }
    ok := IsFieldTextLoop(line[n + 1..]);
    forall m: nat | HeaderNameEndsAt(line, m) ensures m == n {
      HeaderNameUnique(line, m, n);
    }
  }

  method IsHeaderStartLoop(s: string) returns (ok: bool)
    ensures ok == IsHeaderStart(s)
  {
    ok := IsHeaderLineLoop(if |s| > 0 && s[|s| - 1] == CR then s[..|s| - 1] else s);
  }

  method IsStatusLineLoop(line: string) returns (ok: bool)
    ensures ok == IsStatusLine(line)
  {
    if |line| < 12 || line[..7] != "HTTP/1." || line[7] < '0' || line[7] > '9' || line[8] != ' ' {
      return false;
    }
    for i := 9 to 12
      invariant forall k :: 9 <= k < i ==> '0' <= line[k] <= '9'
    {
      if line[i] < '0' || line[i] > '9' {
        return false;
      }
    }
    if |line| == 12 {
      return true;
    }
    var text := IsFieldTextLoop(line[13..]);
    return line[12] == ' ' && text;
  }

  // ---------- Named headers ----------

  /** upper and lower spell one name in the two cases. */
  ghost predicate BothCases(upper: string, lower: string) {
    && |upper| == |lower|
    && forall i :: 0 <= i < |lower| ==> Lower(upper[i]) == lower[i] == Lower(lower[i]) && !('a' <= upper[i] <= 'z')
  }

  /** A letter has no third case. */
  lemma OnlyTwoCases(upper: string, lower: string, i: nat, c: char)
    requires BothCases(upper, lower) && i < |lower| && Lower(c) == lower[i]
    ensures c == upper[i] || c == lower[i]
  {
  }

  /** How the parsers of a named header go through a line: its name and a colon, then blanks. The
      index of the first byte after the blanks, the length of the line if there is none, or nothing
      if the line is another header. */
  method SkipName(line: string, upper: string, lower: string) returns (r: Option<nat>)
    requires BothCases(upper, lower)
    ensures r.Some? <==> IsFieldNamed(line, lower)
    ensures r.Some? ==> |lower| + 1 <= r.value <= |line|
    ensures r.Some? ==> forall k :: |lower| < k < r.value ==> IsBlank(line[k])
    ensures r.Some? && r.value < |line| ==> !IsBlank(line[r.value])
  {
    var inName := true;
    for i := 0 to |line|
      invariant inName ==> i <= |lower|
      invariant inName ==> forall k :: 0 <= k < i ==> Lower(line[k]) == lower[k]
      invariant !inName ==> |lower| < i && IsFieldNamed(line, lower)
      invariant !inName ==> forall k :: |lower| < k < i ==> IsBlank(line[k])
    {
      if inName {
        if i == |lower| {
          if line[i] != ':' {
            return None;
          }
          inName := false;
        } else if line[i] != upper[i] && line[i] != lower[i] {
          if Lower(line[i]) == lower[i] {
            OnlyTwoCases(upper, lower, i, line[i]);
          }
          assert Lower(line[i]) != lower[i];
          return None;
        }
      } else if line[i] != ' ' && line[i] != '\t' {
        return Some(i);
      }
    }
    return if inName then None else Some(|line|);
  }

  /** Whether the last transfer coding of a list is chunked: 1 if it is, and -1 if not. */
  method ReadTransferEncodingValue(value: string) returns (r: int)
    ensures r == if EndsInChunked(value) then 1 else -1
  {
    var end := |value|;
    while end > 0 && (value[end - 1] == ' ' || value[end - 1] == '\t' || value[end - 1] == ',')
      invariant 0 <= end <= |value|
      invariant forall k :: end <= k < |value| ==> IsBlank(value[k]) || value[k] == ','
    {
      end := end - 1;
    }
    var start := end;
    while start > 0 && value[start - 1] != ','
      invariant 0 <= start <= end
      invariant forall k :: start <= k < end ==> value[k] != ','
    {
      start := start - 1;
    }
    ghost var element := start;
    while start < end && (value[start] == ' ' || value[start] == '\t')
      invariant element <= start <= end
      invariant forall k :: element <= k < start ==> IsBlank(value[k])
    {
      start := start + 1;
    }
    ghost var last := start;
    // A name of seven letters, found anywhere else, would have a blank or a comma in it.
    forall i: nat | LastIsChunkedAt(value, i) ensures i == last && i + 7 == end {
      LastIsHere(value, i, element, last, end);
    }
    if end - start != 7 {
      return -1;
    }
    for i := 0 to 7
      invariant forall k :: last <= k < last + i ==> Lower(value[k]) == "chunked"[k - last]
    {
      if value[start + i] != "CHUNKED"[i] && value[start + i] != "chunked"[i] {
        assert Lower(value[last + i]) != "chunked"[i];
        return -1;
      }
    }
    assert ElementStart(value, element, last);
    assert LastIsChunkedAt(value, last);
    return 1;
  }

  /** Where the element the loops found is the only place "chunked" can be last. */
  lemma LastIsHere(value: string, i: nat, element: nat, last: nat, end: nat)
    requires LastIsChunkedAt(value, i)
    requires element <= last <= end <= |value|
    requires forall k :: end <= k < |value| ==> IsBlank(value[k]) || value[k] == ','
    requires end > 0 ==> !IsBlank(value[end - 1]) && value[end - 1] != ','
    requires element > 0 ==> value[element - 1] == ','
    requires forall k :: element <= k < end ==> value[k] != ','
    requires forall k :: element <= k < last ==> IsBlank(value[k])
    requires last < end ==> !IsBlank(value[last])
    ensures i == last && i + 7 == end
  {
    var b: nat :| ElementStart(value, b, i);
    forall k | i <= k < i + 7 ensures !IsBlank(value[k]) && value[k] != ',' {
      assert 'a' <= "chunked"[k - i] <= 'z';
    }
    assert !IsBlank(value[i]) && !IsBlank(value[i + 6]);
    assert i + 7 == end;
    assert b == element;
  }

  /** 1 for a Transfer-Encoding whose last coding is chunked, 0 for another header, -1 for another
      coding. */
  method IsChunkedEncoding(line: string) returns (r: int)
    ensures CodingOf(line) == if r == 1 then Chunked else if r == 0 then NoCoding else OtherCoding
    ensures -1 <= r <= 1
  {
    var at := SkipName(line, "TRANSFER-ENCODING", "transfer-encoding");
    if at.None? {
      return 0;
    }
    ghost var value := FieldValue(line, "transfer-encoding");
    if at.value == |line| {
      forall i: nat ensures !LastIsChunkedAt(value, i) {
        assert i < |value| ==> value[i] == line[18 + i] && IsBlank(value[i]);
      }
      return -1;
    }
    SkippedBlanks(value, at.value - 18);
    assert value[at.value - 18..] == line[at.value..];
    r := ReadTransferEncodingValue(line[at.value..]);
  }

  /** Blanks before a list of codings don't change which is last. */
  lemma SkippedBlanks(value: string, n: nat)
    requires n <= |value| && forall k :: 0 <= k < n ==> IsBlank(value[k])
    ensures EndsInChunked(value) == EndsInChunked(value[n..])
  {
    var rest := value[n..];
    forall i: nat | LastIsChunkedAt(value, i) ensures EndsInChunked(rest) {
      assert Lower(value[i]) == 'c';
      assert i >= n;
      var b: nat :| ElementStart(value, b, i);
      assert b > 0 ==> b - 1 >= n;
      var c := if b < n then 0 else b - n;
      assert ElementStart(rest, c, i - n);
      assert LastIsChunkedAt(rest, i - n);
    }
    forall i: nat | LastIsChunkedAt(rest, i) ensures EndsInChunked(value) {
      var b: nat :| ElementStart(rest, b, i);
      var c := if b == 0 then 0 else b + n;
      forall k | c <= k < i + n ensures IsBlank(value[k]) {
        if k >= n {
          assert IsBlank(rest[k - n]);
        }
      }
      assert ElementStart(value, c, i + n);
      assert LastIsChunkedAt(value, i + n);
    }
  }

  // ---------- Content-Length ----------

  /** The first loop of both readers of numbers: the digits s starts with, as long as what they
      stand for fits in a size_t. */
  method ReadDigits(s: string, radix: Radix) returns (fits: bool, end: nat, n: nat)
    ensures end <= |s| && forall k :: 0 <= k < end ==> Digit(s[k], radix) >= 0
    ensures fits ==> (end < |s| ==> Digit(s[end], radix) < 0) && DigitsStandFor(s, end, radix, n) && n <= SIZE_MAX
    ensures !fits ==> exists v: nat :: v > SIZE_MAX && DigitsStandFor(s, end, radix, v)
  {
    end, n := 0, 0;
    while end < |s| && Digit(s[end], radix) >= 0
      invariant end <= |s| && DigitsStandFor(s, end, radix, n) && n <= SIZE_MAX
    {
      var digit := Digit(s[end], radix);
      DigitsGrow(s, end, radix, n);
      end := end + 1;
      // Whether a size_t has room for the digit, asked without overflowing one.
      if if radix.Decimal? then n > (SIZE_MAX - digit) / 10 else n > SIZE_MAX / 16 {
        return false, end, 0;
      }
      n := radix.Times(n) + digit;
    }
    return true, end, n;
  }

  ghost predicate DigitsStandFor(s: string, end: nat, radix: Radix, n: nat) {
    && end <= |s|
    && (forall k :: 0 <= k < end ==> Digit(s[k], radix) >= 0)
    && Value(s[..end], radix) == n
  }

  lemma DigitsGrow(s: string, end: nat, radix: Radix, n: nat)
    requires end < |s| && Digit(s[end], radix) >= 0 && DigitsStandFor(s, end, radix, n)
    ensures DigitsStandFor(s, end + 1, radix, radix.Times(n) + Digit(s[end], radix))
  {
    assert s[..end + 1] == s[..end] + [s[end]];
    ValueOfAppend(s[..end], s[end], radix);
  }

  /** More digits stand for no less. */
  lemma DigitsStandForMore(s: string, end: nat, end': nat, radix: Radix, n: nat, n': nat)
    requires end <= end' && DigitsStandFor(s, end, radix, n) && DigitsStandFor(s, end', radix, n')
    ensures n <= n'
  {
    assert s[..end'][..end] == s[..end];
    ValueMonotone(s[..end'], end, radix);
  }

  /** 1 and the length, or -1 if the value isn't one a size_t holds. */
  method ReadContentLengthValue(value: string) returns (r: int, length: nat)
    requires value != [] && !IsBlank(value[0])
    ensures r == 1 || r == -1
    ensures r == 1 ==> length <= SIZE_MAX && IsLength(value, length)
    ensures r == -1 ==> forall n: nat :: n <= SIZE_MAX ==> !IsLength(value, n)
  {
    var fits, end, n := ReadDigits(value, Decimal);
    if !fits {
      LengthTooLong(value, end);
      return -1, 0;
    }
    if end == 0 {
      assert forall a: nat, b: nat :: DigitsAt(value, a, b) ==> a == 0 && Digit(value[a], Decimal) >= 0;
      return -1, 0;
    }
    for i := end to |value|
      invariant forall k :: end <= k < i ==> IsBlank(value[k])
    {
      if value[i] != ' ' && value[i] != '\t' {
        forall a: nat, b: nat ensures !DigitsAt(value, a, b) {
          if DigitsAt(value, a, b) {
            LengthDigits(value, end, a, b);
          }
        }
        return -1, 0;
      }
    }
    assert DigitsAt(value, 0, end) && value[0..end] == value[..end];
    return 1, n;
  }

  lemma LengthTooLong(value: string, end: nat)
    requires value != [] && !IsBlank(value[0])
    requires exists v: nat :: v > SIZE_MAX && DigitsStandFor(value, end, Decimal, v)
    ensures forall n: nat :: n <= SIZE_MAX ==> !IsLength(value, n)
  {
    var v: nat :| v > SIZE_MAX && DigitsStandFor(value, end, Decimal, v);
    forall a: nat, b: nat | DigitsAt(value, a, b) ensures Value(value[a..b], Decimal) > SIZE_MAX {
      LengthDigits(value, end, a, b);
      DigitsStandForMore(value, end, b, Decimal, v, Value(value[a..b], Decimal));
    }
  }

  /** The digits of a value that doesn't start with a blank start it, and take in those that do. */
  lemma LengthDigits(value: string, end: nat, a: nat, b: nat)
    requires DigitsAt(value, a, b) && value != [] && !IsBlank(value[0])
    requires end <= |value| && forall k :: 0 <= k < end ==> Digit(value[k], Decimal) >= 0
    ensures a == 0 && value[a..b] == value[..b] && end <= b
    ensures Digit(value[0], Decimal) >= 0
  {
    assert Digit(value[a], Decimal) >= 0;
    var after := if b < |value| then value[b] else ' ';
  }

  /** 1 and the length for a Content-Length, 0 for another header, -1 for one with no length. */
  method ExtractContentLength(line: string) returns (r: int, length: nat)
    ensures -1 <= r <= 1
    ensures LengthOf(line) == if r == 1 then LengthIs(length) else if r == 0 then NoLength else BadLength
  {
    length := 0;
    var at := SkipName(line, "CONTENT-LENGTH", "content-length");
    if at.None? {
      return 0, 0;
    }
    ghost var value := FieldValue(line, "content-length");
    ghost var n := at.value - 15;
    assert forall k | 0 <= k < |value| :: value[k] == line[k + 15];
    if at.value == |line| {
      forall a: nat, b: nat ensures !DigitsAt(value, a, b) {
        assert DigitsAt(value, a, b) ==> Digit(value[a], Decimal) >= 0;
      }
      return -1, 0;
    }
    assert line[at.value..] == value[n..];
    r, length := ReadContentLengthValue(line[at.value..]);
    LengthAfterBlanks(value, n);
    if r == 1 {
      LengthIsUnique(line, length);
    }
  }

  lemma LengthAfterBlanks(value: string, n: nat)
    requires n <= |value| && forall k :: 0 <= k < n ==> IsBlank(value[k])
    ensures forall m: nat :: IsLength(value, m) <==> IsLength(value[n..], m)
  {
    forall m: nat, a: nat, b: nat | DigitsAt(value[n..], a, b) && Value(value[n..][a..b], Decimal) == m
      ensures IsLength(value, m)
    {
      DigitsAfterBlanks(value, n, a, b);
    }
    forall m: nat, a: nat, b: nat | DigitsAt(value, a, b) && Value(value[a..b], Decimal) == m
      ensures IsLength(value[n..], m)
    {
      DigitsBeforeBlanks(value, n, a, b);
    }
  }

  lemma DigitsAfterBlanks(value: string, n: nat, a: nat, b: nat)
    requires n <= |value| && (forall k :: 0 <= k < n ==> IsBlank(value[k])) && DigitsAt(value[n..], a, b)
    ensures DigitsAt(value, n + a, n + b) && value[n + a..n + b] == value[n..][a..b]
  {
    assert forall k | n <= k < |value| :: value[k] == value[n..][k - n];
  }

  lemma DigitsBeforeBlanks(value: string, n: nat, a: nat, b: nat)
    requires n <= |value| && (forall k :: 0 <= k < n ==> IsBlank(value[k])) && DigitsAt(value, a, b)
    ensures n <= a && DigitsAt(value[n..], a - n, b - n) && value[n..][a - n..b - n] == value[a..b]
  {
    assert Digit(value[a], Decimal) >= 0;
  }

  // ---------- Chunk sizes ----------

  /** 1 and the size of a chunk whose line s starts with, 0 if the line has no CRLF yet, -1 if it is
      no size or too large. */
  method ReadChunkSize(s: string) returns (r: int, size: nat)
    ensures -1 <= r <= 1
    ensures r == 0 <==> !HasLine(s)
    ensures r == 1 ==> ChunkSizeOf(FirstLine(s)) == Some(size)
    ensures r == -1 ==> ChunkSizeOf(FirstLine(s)).None?
  {
    size := 0;
    var lineSize := FindSizeLineEnd(s);
    if lineSize == |s| {
      return 0, 0;
    }
    var line := s[..lineSize];
    var fits, end, n := ReadDigits(line, Hex);
    if !fits {
      SizeTooLarge(line, end);
      return -1, 0;
    }
    if end == 0 {
      assert forall d: nat :: !HexDigitsEndAt(line, d);
      return -1, 0;
    }
    ChunkSizeOfIs(line, end);
    var ok := IsExtensionLoop(line[end..]);
    return if ok then 1 else -1, n;
  }

  lemma SizeTooLarge(line: string, end: nat)
    requires exists v: nat :: v > SIZE_MAX && DigitsStandFor(line, end, Hex, v)
    ensures ChunkSizeOf(line).None?
  {
    var v: nat :| v > SIZE_MAX && DigitsStandFor(line, end, Hex, v);
    forall d: nat | HexDigitsEndAt(line, d) ensures Value(line[..d], Hex) > SIZE_MAX {
      assert end <= d;
      DigitsStandForMore(line, end, d, Hex, v, Value(line[..d], Hex));
    }
  }

  /** The search _read_chunk_size() makes of its own: an LF right after a CR. */
  method FindSizeLineEnd(s: string) returns (p: nat)
    ensures p == LineEnd(s)
  {
    var afterCr := false;
    for i := 0 to |s|
      invariant afterCr <==> i > 0 && s[i - 1] == CR
      invariant forall k :: 0 <= k < i - 1 ==> !CrlfAt(s, k)
    {
      if s[i] == CR {
        afterCr := true;
      } else if s[i] == LF && afterCr {
        LineEndIs(s, i - 1);
        return i - 1;
      } else {
        afterCr := false;
      }
    }
    assert forall k | 0 <= k < |s| :: !CrlfAt(s, k);
    return |s|;
  }

  method IsExtensionLoop(s: string) returns (ok: bool)
    ensures ok == IsChunkExtension(s)
  {
    var i := 0;
    while i < |s| && (s[i] == ' ' || s[i] == '\t')
      invariant i <= |s| && forall k :: 0 <= k < i ==> IsBlank(s[k])
    {
      i := i + 1;
    }
    if if i < |s| then s[i] != ';' else i != 0 {
      return false;
    }
    if i == |s| {
      return true;
    }
    assert SemicolonAt(s, i);
    forall k: nat | SemicolonAt(s, k) ensures k == i {
      SemicolonUnique(s, k, i);
    }
    ok := IsFieldTextLoop(s[i..]);
  }

  // ---------- Sizes written ----------

  function Reversed(s: string): string {
    if s == [] then [] else [s[|s| - 1]] + Reversed(s[..|s| - 1])
  }

  /** The digits of n, the last first. */
  function LastFirst(n: nat, radix: Radix): string {
    var d := [DigitChar(radix.Last(n))];
    if radix.Rest(n) == 0 then d else d + LastFirst(radix.Rest(n), radix)
  }

  lemma {:induction false} ReversedAppend(a: string, b: string)
    ensures Reversed(a + b) == Reversed(b) + Reversed(a)
  {
    if b == [] {
      assert a + b == a;
    } else {
      assert (a + b)[..|a + b| - 1] == a + b[..|b| - 1];
      ReversedAppend(a, b[..|b| - 1]);
    }
  }

  lemma {:induction false} LastFirstReversed(n: nat, radix: Radix)
    ensures Reversed(LastFirst(n, radix)) == Text(n, radix)
  {
    var d, q := DigitChar(radix.Last(n)), radix.Rest(n);
    assert Reversed([d]) == [d] by { assert [d][..0] == []; }
    if q != 0 {
      ReversedAppend([d], LastFirst(q, radix));
      LastFirstReversed(q, radix);
    } else {
      assert LastFirst(n, radix) == [d];
    }
  }

  /** A number's text, its digits written last first and then turned round. */
  method WriteNumber(value: nat, radix: Radix) returns (text: string)
    ensures text == Text(value, radix)
  {
    var digits := WriteLastFirst(value, radix);
    LastFirstReversed(value, radix);
    text := TurnRound(digits);
  }

  method WriteLastFirst(value: nat, radix: Radix) returns (digits: string)
    ensures digits == LastFirst(value, radix)
  {
    digits := [DigitChar(radix.Last(value))];
    var left: nat := radix.Rest(value);
    while left != 0
      invariant digits + LastFirstOr(left, radix) == LastFirst(value, radix)
    {
      LastFirstStep(digits, left, radix);
      digits, left := digits + [DigitChar(radix.Last(left))], radix.Rest(left);
    }
  }

  /** The digits still to write, none of 0. */
  function LastFirstOr(n: nat, radix: Radix): string {
    if n == 0 then "" else LastFirst(n, radix)
  }

  lemma LastFirstStep(digits: string, n: nat, radix: Radix)
    requires n > 0
    ensures digits + LastFirstOr(n, radix) == digits + [DigitChar(radix.Last(n))] + LastFirstOr(radix.Rest(n), radix)
  {
  }

  method TurnRound(digits: string) returns (text: string)
    ensures text == Reversed(digits)
  {
    text := "";
    var n := |digits|;
    assert digits[..n] == digits;
    while n > 0
      invariant 0 <= n <= |digits|
      invariant text + Reversed(digits[..n]) == Reversed(digits)
    {
      n := n - 1;
      assert digits[..n + 1][..n] == digits[..n];
      text := text + [digits[n]];
    }
  }

  /** How many hex digits a size has. */
  method HexDigits(size: nat) returns (digits: nat)
    ensures digits == |Text(size, Hex)|
  {
    digits := 1;
    var left := size / 16;
    while left != 0
      invariant left >= 0
      invariant |Text(size, Hex)| == digits + if left == 0 then 0 else |Text(left, Hex)|
    {
      digits := digits + 1;
      left := left / 16;
    }
  }
}
