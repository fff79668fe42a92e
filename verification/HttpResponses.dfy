/** What responses mean to whoever writes them (RFC 9112, sections 4, 5, 6.3 and 7.1): put together from a
    status line, fields and a body, and decoded. Nothing here looks at how the decoder keeps what it has
    read. */
module HttpResponses {
  import opened HttpReadBack
  import opened HttpText
  import opened Numerals
  import opened Options
  import opened ResponseDecoder

  /** Fields, and what follows them. */
  function FieldsThen(fields: seq<string>, rest: string): string {
    if fields == [] then rest else fields[0] + "\r\n" + FieldsThen(fields[1..], rest)
  }

  /** A response with its head whole, and what follows it. */
  function Message(first: string, fields: seq<string>, rest: string): string {
    first + "\r\n" + FieldsThen(fields, "\r\n" + rest)
  }

  function Lines(lines: seq<string>, o: Outcome): Outcome {
    o.(lines := lines + o.lines)
  }

  ghost predicate AreFields(c: Client, fields: seq<string>) {
    forall i :: 0 <= i < |fields| ==> IsHeaderLine(fields[i]) && |fields[i]| + 2 <= c.lineRoom
  }

  // ---------- What fields say of the body ----------

  const CODING := "transfer-encoding"
  const LENGTH := "content-length"

  ghost predicate SaysChunked(fields: seq<string>) {
    exists i :: 0 <= i < |fields| && IsFieldNamed(fields[i], CODING) && EndsInChunked(FieldValue(fields[i], CODING))
  }

  ghost predicate SaysOtherCoding(fields: seq<string>) {
    exists i :: 0 <= i < |fields| && IsFieldNamed(fields[i], CODING) && !EndsInChunked(FieldValue(fields[i], CODING))
  }

  ghost predicate SaysLength(fields: seq<string>, n: nat) {
    exists i :: 0 <= i < |fields| && IsFieldNamed(fields[i], LENGTH) && IsLength(FieldValue(fields[i], LENGTH), n)
  }

  ghost predicate SaysNoGoodLength(fields: seq<string>) {
    exists i :: 0 <= i < |fields| && IsFieldNamed(fields[i], LENGTH) && !IsGoodLength(FieldValue(fields[i], LENGTH))
  }

  ghost predicate IsGoodLength(value: string) {
    exists n: nat :: n <= SIZE_MAX && IsLength(value, n)
  }

  /** Fields a body can be framed by: no coding that can't be removed, no length that isn't one, and no
      two that differ. */
  ghost predicate Agree(fields: seq<string>) {
    && !SaysOtherCoding(fields) && !SaysNoGoodLength(fields)
    && forall m: nat, n: nat :: SaysLength(fields, m) && SaysLength(fields, n) ==> m == n
  }

  /** The framing kept while fields are read says what they do. */
  ghost predicate Keeps(f: Framing, fields: seq<string>) {
    && (f.chunked <==> SaysChunked(fields))
    && (forall n: nat :: SaysLength(fields, n) <==> f.length == Some(n))
  }

  lemma NothingSaid(f: Framing)
    requires !f.chunked && f.length == None
    ensures Keeps(f, []) && Agree([])
  {
  }

  /** One field more. */
  lemma OneMore(fields: seq<string>, line: string)
    ensures var all := fields + [line];
            && (SaysChunked(all) <==> SaysChunked(fields) || (IsFieldNamed(line, CODING) && EndsInChunked(FieldValue(line, CODING))))
            && (SaysOtherCoding(all) <==> SaysOtherCoding(fields) || (IsFieldNamed(line, CODING) && !EndsInChunked(FieldValue(line, CODING))))
            && (SaysNoGoodLength(all) <==> SaysNoGoodLength(fields) || (IsFieldNamed(line, LENGTH) && !IsGoodLength(FieldValue(line, LENGTH))))
            && (forall n: nat :: SaysLength(all, n) <==> SaysLength(fields, n) || (IsFieldNamed(line, LENGTH) && IsLength(FieldValue(line, LENGTH), n)))
  {
    hide EndsInChunked, IsLength, IsGoodLength, IsFieldNamed;
    var all := fields + [line];
    assert all[|fields|] == line && forall i :: 0 <= i < |fields| ==> all[i] == fields[i];
  }

  /** A line is the field of one name at most. */
  lemma OneName(line: string)
    requires IsFieldNamed(line, CODING)
    ensures !IsFieldNamed(line, LENGTH)
  {
    assert Lower(line[0]) == CODING[0] != LENGTH[0];
  }

  lemma LengthIsOne(line: string, n: nat)
    requires IsFieldNamed(line, LENGTH) && IsLength(FieldValue(line, LENGTH), n)
    ensures LengthOf(line) == (if n <= SIZE_MAX then LengthIs(n) else BadLength)
    ensures forall m: nat :: IsLength(FieldValue(line, LENGTH), m) ==> m == n
  {
    LengthIsUnique(line, n);
    var value := FieldValue(line, LENGTH);
    var a: nat, b: nat :| DigitsAt(value, a, b) && Value(value[a..b], Decimal) == n;
    forall m: nat | IsLength(value, m) ensures m == n {
      var a': nat, b': nat :| DigitsAt(value, a', b') && Value(value[a'..b'], Decimal) == m;
      DigitsAtUnique(value, a, b, a', b');
    }
  }

  /** A field is taken exactly if those before it and it agree, and adds what it says. */
  lemma FieldTaken(f: Framing, before: seq<string>, line: string)
    requires Keeps(f, before) && Agree(before)
    ensures Agree(before + [line]) <==> WithHeader(f, line).Some?
    ensures WithHeader(f, line).Some? ==>
              var g := WithHeader(f, line).value;
              Keeps(g, before + [line]) && g.status == f.status && g.isHttp10 == f.isHttp10
  {
    hide EndsInChunked, IsLength, IsFieldNamed, DigitsAt;
    OneMore(before, line);
    if IsFieldNamed(line, CODING) {
      OneName(line);
    } else if IsFieldNamed(line, LENGTH) {
      if n: nat :| IsLength(FieldValue(line, LENGTH), n) {
        LengthIsOne(line, n);
        LengthSaid(f, before, line, n);
      }
    }
  }

  lemma LengthSaid(f: Framing, before: seq<string>, line: string, n: nat)
    requires Keeps(f, before) && Agree(before) && IsFieldNamed(line, LENGTH) && IsLength(FieldValue(line, LENGTH), n)
    requires forall m: nat :: IsLength(FieldValue(line, LENGTH), m) ==> m == n
    requires !IsFieldNamed(line, CODING)
    ensures Agree(before + [line]) <==> n <= SIZE_MAX && (f.length == None || f.length == Some(n))
  {
    hide EndsInChunked, IsLength, IsFieldNamed, SaysLength, SaysNoGoodLength, SaysOtherCoding, SaysChunked;
    OneMore(before, line);
    var all := before + [line];
    assert SaysLength(all, n);
    if f.length.Some? {
      assert SaysLength(before, f.length.value) && SaysLength(all, f.length.value);
    }
  }

  // ---------- The head ----------

  /** Fields the decoder has before it, as far as they agree, are given to the callback one by one. */
  lemma {:induction false} FieldsTaken(c: Client, calls: nat, before: seq<string>, fields: seq<string>, tail: string, f: Framing)
      returns (g: Framing)
    requires AreFields(c, fields) && |fields| <= calls && Keeps(f, before) && Agree(before + fields) && Agree(before)
    ensures Headers(c, calls, FieldsThen(fields, tail), f) == Lines(fields, Headers(c, calls - |fields|, tail, g))
    ensures Keeps(g, before + fields) && g.status == f.status && g.isHttp10 == f.isHttp10
  {
    hide WithHeader, Agree, Keeps, IsHeaderLine, Headers;
    if fields == [] {
      g := f;
      assert before + fields == before;
      NoLines(Headers(c, calls, tail, f));
    } else {
      var line := fields[0];
      assert before + [line] + fields[1..] == before + fields;
      AgreeBefore(before + [line], fields[1..]);
      FieldTaken(f, before, line);
      var h := WithHeader(f, line).value;
      HeaderIsText(line);
      HeaderRead(c, calls, line, FieldsThen(fields[1..], tail), f, h);
      g := FieldsTaken(c, calls - 1, before + [line], fields[1..], tail, h);
      LinesMore(line, fields[1..], Headers(c, calls - |fields|, tail, g));
      assert [line] + fields[1..] == fields;
    }
  }

  lemma HeaderIsText(line: string)
    requires IsHeaderLine(line)
    ensures line != ""
  {
  }

  lemma NoLines(o: Outcome)
    ensures Lines([], o) == o
  {
    assert [] + o.lines == o.lines;
  }

  lemma LinesMore(line: string, lines: seq<string>, o: Outcome)
    ensures Line(line, Lines(lines, o)) == Lines([line] + lines, o)
  {
    assert [line] + (lines + o.lines) == [line] + lines + o.lines;
  }

  /** Fields that agree did so before there were more of them. */
  lemma AgreeBefore(before: seq<string>, more: seq<string>)
    requires Agree(before + more)
    ensures Agree(before)
  {
    hide EndsInChunked, IsLength, IsGoodLength, IsFieldNamed;
    var all := before + more;
    assert forall i :: 0 <= i < |before| ==> all[i] == before[i];
    assert forall n: nat :: SaysLength(before, n) ==> SaysLength(all, n);
  }

  // ---------- The status line ----------

  /** The code is the number its three digits are: 1xx exactly if the first of them is 1. */
  lemma StatusIs(line: string)
    requires IsStatusLine(line)
    ensures AllDigits(line[9..12], Decimal) && StatusCode(line) == Value(line[9..12], Decimal)
    ensures 100 <= StatusCode(line) < 200 <==> line[9] == '1'
    ensures StatusCode(line) == 204 <==> line[9..12] == "204"
    ensures StatusCode(line) == 304 <==> line[9..12] == "304"
  {
    var s := line[9..12];
    assert s[0] == line[9] && s[1] == line[10] && s[2] == line[11];
    assert s[..2] == [s[0], s[1]] && s[..2][..1] == [s[0]] && s[..1][..0] == [];
    assert s[..2][1] == s[1];
    assert Value(s[..1], Decimal) == Digit(s[0], Decimal);
    assert Value(s[..2], Decimal) == 10 * Value(s[..1], Decimal) + Digit(s[1], Decimal);
    assert s == [line[9], line[10], line[11]];
  }

  /** The status line, and the fields as far as they agree. */
  lemma HeadTaken(c: Client, calls: nat, first: string, fields: seq<string>, tail: string) returns (g: Framing)
    requires IsStatusLine(first) && |first| + 2 <= c.lineRoom && AreFields(c, fields) && Agree(fields) && |fields| < calls
    ensures Response(c, calls, first + "\r\n" + FieldsThen(fields, tail)) == Lines([first] + fields, Headers(c, calls - 1 - |fields|, tail, g))
    ensures Keeps(g, fields) && g.status == StatusCode(first) && (g.isHttp10 <==> first[7] == '0')
  {
    hide Headers, StatusCode, Keeps, Agree;
    FirstRead(c, calls, first, FieldsThen(fields, tail));
    var f := Framing(StatusCode(first), first[7] == '0', false, None);
    NothingSaid(f);
    assert [] + fields == fields;
    g := FieldsTaken(c, calls - 1, [], fields, tail, f);
    LinesMore(first, fields, Headers(c, calls - 1 - |fields|, tail, g));
  }

  lemma FirstRead(c: Client, calls: nat, first: string, rest: string)
    requires IsStatusLine(first) && |first| + 2 <= c.lineRoom && calls > 0
    ensures Response(c, calls, first + "\r\n" + rest) ==
            Line(first, Headers(c, calls - 1, rest, Framing(StatusCode(first), first[7] == '0', false, None)))
  {
    hide Headers;
    var s := first + "\r\n" + rest;
    NoCrInStatus(first);
    assert forall i :: 0 <= i < |first| ==> s[i] == first[i];
    assert s[|first|] == CR && s[|first| + 1] == LF;
    LineEndIs(s, |first|);
    assert s[..|first|] == first && s[|first| + 2..] == rest;
  }

  lemma NoCrInStatus(line: string)
    requires IsStatusLine(line)
    ensures forall i :: 0 <= i < |line| ==> line[i] != CR
  {
    forall i | 0 <= i < |line| ensures line[i] != CR {
      if i < 7 {
        assert line[i] == line[..7][i] == "HTTP/1."[i];
      } else if i > 12 {
        assert line[i] == line[13..][i - 13];
      }
    }
  }

  // ---------- Whole responses ----------

  /** An interim response is its lines, and then whatever the next one is. */
  lemma InterimRead(c: Client, calls: nat, first: string, fields: seq<string>, rest: string)
    requires IsStatusLine(first) && |first| + 2 <= c.lineRoom && AreFields(c, fields) && Agree(fields) && |fields| < calls
    requires first[9] == '1'
    ensures Response(c, calls, Message(first, fields, rest)) == Lines([first] + fields, Response(c, calls - 1 - |fields|, rest))
  {
    hide Headers, Response, IsStatusLine, StatusCode;
    var g := HeadTaken(c, calls, first, fields, "\r\n" + rest);
    StatusIs(first);
    EndRead(c, calls - 1 - |fields|, rest, g);
  }

  /** One without a body is done with its head, whatever its fields say of a body, and follows it. */
  lemma BodilessRead(c: Client, calls: nat, first: string, fields: seq<string>, rest: string)
    requires IsStatusLine(first) && |first| + 2 <= c.lineRoom && AreFields(c, fields) && Agree(fields) && |fields| < calls
    requires first[9] != '1' && (c.isHead || first[9..12] == "204" || first[9..12] == "304")
    ensures Response(c, calls, Message(first, fields, rest)) == Outcome([first] + fields, "", Ok)
  {
    hide Headers, Response, IsStatusLine, StatusCode;
    var g := HeadTaken(c, calls, first, fields, "\r\n" + rest);
    StatusIs(first);
    EndRead(c, calls - 1 - |fields|, rest, g);
    assert [first] + fields + [] == [first] + fields;
  }

  /** Any other one has the body its fields frame: chunks, unless they give a length too or the server
      speaks HTTP/1.0; as many bytes as they say; or all there are. */
  lemma FramedRead(c: Client, calls: nat, first: string, fields: seq<string>, rest: string)
    requires IsStatusLine(first) && |first| + 2 <= c.lineRoom && AreFields(c, fields) && Agree(fields) && |fields| < calls
    requires first[9] != '1' && !c.isHead && first[9..12] != "204" && first[9..12] != "304"
    ensures var o, all := Response(c, calls, Message(first, fields, rest)), [first] + fields;
            && (SaysChunked(fields) ==>
                  o == if first[7] == '0' || exists n: nat :: SaysLength(fields, n) then Outcome(all, "", InvalidResponse)
                       else Lines(all, Chunks(c, rest)))
            && (!SaysChunked(fields) ==> forall n: nat :: SaysLength(fields, n) ==>
                  o == if n <= |rest| then Outcome(all, rest[..n], Ok) else Outcome(all, rest, SockRecv))
            && (!SaysChunked(fields) && (forall n: nat :: !SaysLength(fields, n)) ==>
                  o == Outcome(all, rest, if c.lost then SockRecv else Ok))
  {
    hide Headers, Response, IsStatusLine, StatusCode, Chunks, SaysChunked, SaysLength, Agree;
    var g := HeadTaken(c, calls, first, fields, "\r\n" + rest);
    StatusIs(first);
    EndRead(c, calls - 1 - |fields|, rest, g);
    assert [first] + fields + [] == [first] + fields;
    assert g.length.Some? ==> SaysLength(fields, g.length.value);
    assert rest + "" == rest;
  }

  /** The field that makes the others disagree is the last line given to the callback, and nothing else is. */
  lemma DisagreeingRead(c: Client, calls: nat, first: string, fields: seq<string>, line: string, tail: string)
    requires IsStatusLine(first) && |first| + 2 <= c.lineRoom && AreFields(c, fields + [line]) && |fields| + 1 < calls
    requires Agree(fields) && !Agree(fields + [line])
    ensures Response(c, calls, first + "\r\n" + FieldsThen(fields, line + "\r\n" + tail)) == Outcome([first] + fields + [line], "", InvalidResponse)
  {
    hide Response, IsStatusLine, StatusCode, Agree, IsHeaderLine, WithHeader, Keeps, IsHeaderStart, AfterHeaders;
    assert (fields + [line])[|fields|] == line && forall i :: 0 <= i < |fields| ==> (fields + [line])[i] == fields[i];
    var g := HeadTaken(c, calls, first, fields, line + "\r\n" + tail);
    FieldTaken(g, fields, line);
    LineRead(line, tail);
    HeaderIsText(line);
    assert [first] + fields + [line] == [first] + fields + ([line] + []);
  }

  /** A line that is no field ends it too, and isn't given to the callback. */
  lemma MalformedRead(c: Client, calls: nat, first: string, fields: seq<string>, line: string, tail: string)
    requires IsStatusLine(first) && |first| + 2 <= c.lineRoom && AreFields(c, fields) && Agree(fields) && |fields| < calls
    requires line != "" && |line| + 2 <= c.lineRoom && CR !in line && !IsHeaderLine(line)
    ensures Response(c, calls, first + "\r\n" + FieldsThen(fields, line + "\r\n" + tail)) == Outcome([first] + fields, "", InvalidResponse)
  {
    hide Response, IsStatusLine, StatusCode, Agree, IsHeaderLine, WithHeader, Keeps, IsHeaderStart, AfterHeaders;
    var g := HeadTaken(c, calls, first, fields, line + "\r\n" + tail);
    LineWithoutCr(line, tail);
    assert [first] + fields + [] == [first] + fields;
  }

  lemma LineWithoutCr(line: string, rest: string)
    requires CR !in line
    ensures var s := line + "\r\n" + rest; LineEnd(s) == |line| && HasLine(s) && FirstLine(s) == line && AfterLine(s) == rest
  {
    var s := line + "\r\n" + rest;
    assert forall i :: 0 <= i < |line| ==> s[i] == line[i] && line[i] in line;
    assert s[|line|] == CR && s[|line| + 1] == LF;
    LineEndIs(s, |line|);
    assert s[..|line|] == line && s[|line| + 2..] == rest;
  }

  /** A callback that takes no more lines is given one more, and that ends it. */
  lemma CallbackRefuses(c: Client, first: string, fields: seq<string>, line: string, tail: string)
    requires IsStatusLine(first) && |first| + 2 <= c.lineRoom && AreFields(c, fields + [line]) && Agree(fields)
    ensures Response(c, |fields| + 1, first + "\r\n" + FieldsThen(fields, line + "\r\n" + tail)) == Outcome([first] + fields + [line], "", HeaderCallback)
  {
    hide Response, IsStatusLine, StatusCode, Agree, IsHeaderLine, WithHeader, Keeps, IsHeaderStart, AfterHeaders;
    assert (fields + [line])[|fields|] == line && forall i :: 0 <= i < |fields| ==> (fields + [line])[i] == fields[i];
    var g := HeadTaken(c, |fields| + 1, first, fields, line + "\r\n" + tail);
    LineRead(line, tail);
    HeaderIsText(line);
    assert [first] + fields + [line] == [first] + fields + ([line] + []);
  }

  /** A first line that isn't a status line, or that doesn't fit or end, and one the callback refuses. */
  lemma NoStatusLine(c: Client, calls: nat, line: string, rest: string)
    requires CR !in line
    ensures |line| + 2 <= c.lineRoom && !IsStatusLine(line) ==> Response(c, calls, line + "\r\n" + rest) == Outcome([], "", InvalidResponse)
    ensures |line| + 2 <= c.lineRoom && IsStatusLine(line) ==> Response(c, 0, line + "\r\n" + rest) == Outcome([line], "", HeaderCallback)
    ensures |line| + 2 > c.lineRoom ==> Response(c, calls, line + "\r\n" + rest) == Outcome([], "", TooLargeData)
    ensures Response(c, calls, line) == Outcome([], "", if |line| < c.lineRoom then SockRecv else TooLargeData)
  {
    hide IsStatusLine;
    LineWithoutCr(line, rest);
    NoLineIn(line);
  }

  lemma NoLineIn(s: string)
    requires CR !in s
    ensures !HasLine(s)
  {
  }

  /** A head that the end of the stream cuts short is a failure to receive. */
  lemma ShortHead(c: Client, calls: nat, first: string, fields: seq<string>, tail: string)
    requires IsStatusLine(first) && |first| + 2 <= c.lineRoom && AreFields(c, fields) && Agree(fields) && |fields| < calls
    requires !HasLine(tail) && |tail| < c.lineRoom
    ensures Response(c, calls, first + "\r\n" + FieldsThen(fields, tail)) == Outcome([first] + fields, "", SockRecv)
  {
    hide Response, IsStatusLine, StatusCode, Agree, IsHeaderLine, WithHeader, Keeps, IsHeaderStart, AfterHeaders;
    var g := HeadTaken(c, calls, first, fields, tail);
    assert [first] + fields + [] == [first] + fields;
  }

  // ---------- Chunks ----------

  /** A chunk as any server may write it: the digits of its size, of either case, and a chunk extension, after
      blanks, or none. */
  datatype Piece = Piece(digits: string, extension: Option<(string, string)>, data: string)

  function SizeLine(p: Piece): string {
    p.digits + match p.extension case None => "" case Some((blanks, text)) => blanks + ";" + text
  }

  predicate IsPiece(c: Client, p: Piece) {
    && p.digits != "" && AllDigits(p.digits, Hex) && Value(p.digits, Hex) == |p.data| <= SIZE_MAX
    && (p.extension.Some? ==> (forall i :: 0 <= i < |p.extension.value.0| ==> IsBlank(p.extension.value.0[i])) && IsFieldText(p.extension.value.1))
    && |SizeLine(p)| + 2 <= c.chunkLineRoom
  }

  lemma SizeLineRead(c: Client, p: Piece)
    requires IsPiece(c, p)
    ensures ChunkSizeOf(SizeLine(p)) == Some(|p.data|) && CR !in SizeLine(p)
  {
    hide IsFieldText, IsBlank, IsChunkExtension;
    var line, d := SizeLine(p), |p.digits|;
    assert line[..d] == p.digits;
    assert line == p.digits + line[d..];
    if p.extension.Some? {
      var (blanks, text) := p.extension.value;
      assert line[d..] == blanks + ";" + text;
      ExtensionIs(blanks, text);
    } else {
      assert line[d..] == "";
      NoExtension();
    }
    assert line[..d] == p.digits && forall k :: 0 <= k < d ==> line[k] == p.digits[k];
    assert d < |line| ==> line[d] == line[d..][0];
    assert HexDigitsEndAt(line, d);
    ChunkSizeOfIs(line, d);
  }

  lemma NoExtension()
    ensures IsChunkExtension("")
  {
  }

  lemma ExtensionIs(blanks: string, text: string)
    requires (forall i :: 0 <= i < |blanks| ==> IsBlank(blanks[i])) && IsFieldText(text)
    ensures var s := blanks + ";" + text; IsChunkExtension(s) && CR !in s && Digit(s[0], Hex) < 0
  {
    var s := blanks + ";" + text;
    assert SemicolonAt(s, |blanks|);
    assert s[|blanks|..] == ";" + text;
    assert IsFieldText(";" + text);
  }

  function PieceText(p: Piece): string {
    SizeLine(p) + "\r\n" + p.data + "\r\n"
  }

  lemma OpenRead(c: Client, p: Piece, after: string)
    requires IsPiece(c, p)
    ensures Chunks(c, SizeLine(p) + "\r\n" + after) == if p.data == "" then Trailers(c, "\r\n", after) else ChunkData(c, |p.data|, after)
  {
    hide SizeLine, ChunkSizeOf, Trailers, ChunkData;
    SizeLineRead(c, p);
    LineWithoutCr(SizeLine(p), after);
  }

  lemma DataRead(c: Client, data: string, tail: string)
    ensures ChunkData(c, |data|, data + "\r\n" + tail) == Body(data, Chunks(c, tail))
  {
    hide Chunks;
    var s := data + "\r\n" + tail;
    assert s[..|data|] == data && s[|data|..] == "\r\n" + tail;
    assert ("\r\n" + tail)[2..] == tail;
  }

  lemma PieceRead(c: Client, p: Piece, tail: string)
    requires IsPiece(c, p) && p.data != ""
    ensures Chunks(c, PieceText(p) + tail) == Body(p.data, Chunks(c, tail))
  {
    hide SizeLine, Chunks, ChunkData, IsPiece;
    OpenRead(c, p, p.data + "\r\n" + tail);
    DataRead(c, p.data, tail);
    assert PieceText(p) + tail == SizeLine(p) + "\r\n" + (p.data + "\r\n" + tail);
  }

  function PiecesThen(pieces: seq<Piece>, rest: string): string {
    if pieces == [] then rest else PieceText(pieces[0]) + PiecesThen(pieces[1..], rest)
  }

  function DataOf(pieces: seq<Piece>): string {
    if pieces == [] then "" else pieces[0].data + DataOf(pieces[1..])
  }

  /** A chunked body, to the end of its trailers, is the data of its chunks, whatever follows. */
  lemma {:induction false} ChunksRead(c: Client, pieces: seq<Piece>, last: Piece, trailers: seq<string>, rest: string)
    requires (forall i :: 0 <= i < |pieces| ==> IsPiece(c, pieces[i]) && pieces[i].data != "") && IsPiece(c, last) && last.data == ""
    ensures Chunks(c, PiecesThen(pieces, SizeLine(last) + "\r\n" + FieldsThen(trailers, "\r\n" + rest))) == Outcome([], DataOf(pieces), Ok)
  {
    hide SizeLine, PieceText, Chunks, IsPiece, HasEmptyLine;
    var tail := SizeLine(last) + "\r\n" + FieldsThen(trailers, "\r\n" + rest);
    if pieces == [] {
      OpenRead(c, last, FieldsThen(trailers, "\r\n" + rest));
      EmptyLineThere(trailers, rest);
    } else {
      PieceRead(c, pieces[0], PiecesThen(pieces[1..], tail));
      ChunksRead(c, pieces[1..], last, trailers, rest);
    }
  }

  lemma {:induction false} EmptyLineThere(lines: seq<string>, rest: string)
    ensures HasEmptyLine("\r\n" + FieldsThen(lines, "\r\n" + rest))
  {
    var s := "\r\n" + FieldsThen(lines, "\r\n" + rest);
    if lines == [] {
      assert EmptyLineAt(s, 0);
    } else {
      var t := "\r\n" + FieldsThen(lines[1..], "\r\n" + rest);
      EmptyLineThere(lines[1..], rest);
      var i: nat :| EmptyLineAt(t, i);
      var k := 2 + |lines[0]|;
      assert s == "\r\n" + lines[0] + t;
      assert forall j :: 0 <= j < |t| ==> s[k + j] == t[j];
      assert EmptyLineAt(s, k + i);
    }
  }

  /** Data that stops short of its chunk's size is given as far as it goes. */
  lemma ShortChunk(c: Client, p: Piece, data: string)
    requires IsPiece(c, p) && |data| < |p.data|
    ensures Chunks(c, SizeLine(p) + "\r\n" + data) == Outcome([], data, SockRecv)
  {
    hide SizeLine, Chunks, IsPiece;
    OpenRead(c, p, data);
    assert data + "" == data;
  }

  /** Data that goes on past its size is given up to there, and refused. */
  lemma LongChunk(c: Client, p: Piece, more: string)
    requires IsPiece(c, p) && p.data != "" && |more| >= 2 && more[..2] != "\r\n"
    ensures Chunks(c, SizeLine(p) + "\r\n" + (p.data + more)) == Outcome([], p.data, InvalidResponse)
  {
    hide SizeLine, Chunks, IsPiece;
    OpenRead(c, p, p.data + more);
    assert (p.data + more)[..|p.data|] == p.data && (p.data + more)[|p.data|..] == more;
    assert more[..2] == [more[0], more[1]];
    assert p.data + "" == p.data;
  }

  /** So is a line that doesn't start with a digit, and a size beyond size_t. */
  lemma NoSize(c: Client, line: string, tail: string)
    requires CR !in line && |line| + 2 <= c.chunkLineRoom
    requires line == "" || Digit(line[0], Hex) < 0 || (AllDigits(line, Hex) && Value(line, Hex) > SIZE_MAX)
    ensures Chunks(c, line + "\r\n" + tail) == Outcome([], "", InvalidResponse)
  {
    hide ChunkSizeOf;
    LineWithoutCr(line, tail);
    NoSizeIn(line);
  }

  /** Nor is one that doesn't fit, or end. */
  lemma NoSizeLine(c: Client, line: string, rest: string)
    requires CR !in line
    ensures |line| + 2 > c.chunkLineRoom ==> Chunks(c, line + "\r\n" + rest) == Outcome([], "", TooLargeData)
    ensures Chunks(c, line) == Outcome([], "", if |line| < c.chunkLineRoom then SockRecv else TooLargeData)
  {
    hide ChunkSizeOf;
    LineWithoutCr(line, rest);
    NoLineIn(line);
  }

  lemma NoSizeIn(line: string)
    requires line == "" || Digit(line[0], Hex) < 0 || (AllDigits(line, Hex) && Value(line, Hex) > SIZE_MAX)
    ensures ChunkSizeOf(line) == None
  {
    if line != "" && Digit(line[0], Hex) >= 0 {
      assert line[..|line|] == line && HexDigitsEndAt(line, |line|);
      ChunkSizeOfIs(line, |line|);
    }
  }

  /** Trailers the end of the stream cuts short are accepted, as the code has it, unless the connection was lost. */
  lemma ShortTrailers(c: Client, last: Piece, tail: string)
    requires IsPiece(c, last) && last.data == "" && !HasEmptyLine("\r\n" + tail)
    ensures Chunks(c, SizeLine(last) + "\r\n" + tail) == Outcome([], "", if c.lost then SockRecv else Ok)
  {
    hide SizeLine, Chunks, IsPiece;
    OpenRead(c, last, tail);
  }

  // ---------- Codings ----------

  function LowerAll(s: string): string {
    if s == [] then [] else [Lower(s[0])] + LowerAll(s[1..])
  }

  predicate NoBlankOrComma(x: char) {
    x != ' ' && x != '\t' && x != ','
  }

  /** From i up to e a value names a coding, which is the last one. */
  predicate IsLastName(v: string, from: nat, i: nat, e: nat) {
    && from <= i < e <= |v| && (from == 0 || v[from - 1] == ',')
    && (forall k :: from <= k < i ==> IsBlank(v[k])) && (forall k :: e <= k < |v| ==> IsBlank(v[k]) || v[k] == ',')
    && (forall k :: i <= k < e ==> v[k] != ',') && NoBlankOrComma(v[i]) && NoBlankOrComma(v[e - 1])
  }

  /** The value of Transfer-Encoding: after others and a comma, if there are any, the name of the last coding, with
      blanks before it, and blanks and commas alone after it. */
  lemma LastCoding(before: string, blanks: string, name: string, after: string)
    requires before == "" || before[|before| - 1] == ','
    requires (forall i :: 0 <= i < |blanks| ==> IsBlank(blanks[i])) && forall i :: 0 <= i < |after| ==> IsBlank(after[i]) || after[i] == ','
    requires name != "" && ',' !in name && NoBlankOrComma(name[0]) && NoBlankOrComma(name[|name| - 1])
    ensures EndsInChunked(before + blanks + name + after) <==> LowerAll(name) == "chunked"
  {
    hide EndsInChunked, LowerAll, IsLastName, NoBlankOrComma, IsBlank;
    var i := |before| + |blanks|;
    LaidOut(before, blanks, name, after);
    ChunkedLast(before + blanks + name + after, |before|, i, i + |name|);
  }

  lemma LaidOut(before: string, blanks: string, name: string, after: string)
    requires before == "" || before[|before| - 1] == ','
    requires (forall i :: 0 <= i < |blanks| ==> IsBlank(blanks[i])) && forall i :: 0 <= i < |after| ==> IsBlank(after[i]) || after[i] == ','
    requires name != "" && ',' !in name && NoBlankOrComma(name[0]) && NoBlankOrComma(name[|name| - 1])
    ensures var v, i := before + blanks + name + after, |before| + |blanks|; IsLastName(v, |before|, i, i + |name|) && v[i..i + |name|] == name
  {
    hide IsBlank, NoBlankOrComma;
    var v := before + blanks + name + after;
    var i, e := |before| + |blanks|, |before| + |blanks| + |name|;
    FourParts(before, blanks, name, after);
    assert v[i + 0] == name[0] && v[i + (|name| - 1)] == name[|name| - 1];
    forall k | i <= k < e ensures v[k] != ',' {
      assert v[i + (k - i)] == name[k - i];
    }
    assert v[i..e] == name;
  }

  lemma ChunkedLast(v: string, from: nat, i: nat, e: nat)
    requires IsLastName(v, from, i, e) && i <= e <= |v|
    ensures EndsInChunked(v) <==> LowerAll(v[i..e]) == "chunked"
  {
    hide IsLastName, LowerAll, LastIsChunkedAt;
    NameThere(v, i, e);
    if LowerAll(v[i..e]) == "chunked" {
      ChunkedThere(v, from, i, e);
    }
    if EndsInChunked(v) {
      var j: nat :| LastIsChunkedAt(v, j);
      SameName(v, from, i, e, j);
    }
  }

  lemma ChunkedThere(v: string, from: nat, i: nat, e: nat)
    requires IsLastName(v, from, i, e) && e == i + 7 && EqualIgnoringCaseAt(v, i, "chunked")
    ensures LastIsChunkedAt(v, i)
  {
    assert ElementStart(v, from, i);
  }

  lemma NameThere(v: string, i: nat, e: nat)
    requires i <= e <= |v|
    ensures LowerAll(v[i..e]) == "chunked" <==> e == i + 7 && EqualIgnoringCaseAt(v, i, "chunked")
  {
    var name := v[i..e];
    LowerAllAt(name);
    assert forall k :: i <= k < e ==> Lower(v[k]) == LowerAll(name)[k - i];
    if e == i + 7 && EqualIgnoringCaseAt(v, i, "chunked") {
      assert forall k :: 0 <= k < 7 ==> LowerAll(name)[k] == Lower(v[i + k]) == "chunked"[k];
    }
  }

  lemma Letters(v: string, j: nat)
    requires EqualIgnoringCaseAt(v, j, "chunked")
    ensures j + 7 <= |v| && forall k :: j <= k < j + 7 ==> NoBlankOrComma(v[k])
  {
    forall k | j <= k < j + 7 ensures NoBlankOrComma(v[k]) {
      assert Lower(v[k]) == "chunked"[k - j];
    }
  }

  /** It can only be that name that is "chunked". */
  lemma SameName(v: string, from: nat, i: nat, e: nat, j: nat)
    requires IsLastName(v, from, i, e) && LastIsChunkedAt(v, j)
    ensures j == i && e == i + 7 && EqualIgnoringCaseAt(v, i, "chunked")
  {
    hide EqualIgnoringCaseAt;
    Letters(v, j);
    var b: nat :| ElementStart(v, b, j);
    assert NoBlankOrComma(v[j]) && NoBlankOrComma(v[j + 6]);
    assert e == j + 7;
  }

  lemma FourParts(a: string, b: string, c: string, d: string)
    ensures var v := a + b + c + d;
            && |v| == |a| + |b| + |c| + |d|
            && (a != "" ==> v[|a| - 1] == a[|a| - 1])
            && (forall k :: |a| <= k < |a| + |b| ==> v[k] == b[k - |a|])
            && (forall k :: 0 <= k < |c| ==> v[|a| + |b| + k] == c[k])
            && (forall k :: |a| + |b| + |c| <= k < |v| ==> v[k] == d[k - |a| - |b| - |c|])
  {
  }

  lemma {:induction false} LowerAllAt(s: string)
    ensures |LowerAll(s)| == |s| && forall k :: 0 <= k < |s| ==> LowerAll(s)[k] == Lower(s[k])
  {
    if s != [] {
      LowerAllAt(s[1..]);
    }
  }

  // ---------- For example ----------

  /** An interim response with the final one right behind it. */
  lemma ContinueThenOk(c: Client)
    requires c.lineRoom >= 32 && !c.isHead
    ensures var next := "HTTP/1.1 200 OK" + "\r\n" + ("Content-Length: 2" + "\r\n" + ("\r\n" + "ok"));
            Response(c, 3, "HTTP/1.1 100 Continue" + "\r\n" + ("\r\n" + next)) ==
            Outcome(["HTTP/1.1 100 Continue", "HTTP/1.1 200 OK", "Content-Length: 2"], "ok", Ok)
  {
    hide Response, Agree, SaysChunked, SaysLength, IsStatusLine, AreFields, FieldsThen;
    var a, b, f := "HTTP/1.1 100 Continue", "HTTP/1.1 200 OK", "Content-Length: 2";
    var next := Message(b, [f], "ok");
    TwoBytesLong(c, f);
    StatusLines(a, b);
    InterimRead(c, 3, a, [], next);
    FramedRead(c, 2, b, [f], "ok");
    OneField(f, "\r\n" + "ok");
    assert next == b + "\r\n" + (f + "\r\n" + ("\r\n" + "ok"));
    NoFields("\r\n" + next);
    assert Message(a, [], next) == a + "\r\n" + ("\r\n" + next);
    assert "ok"[..2] == "ok" && [a] + [] + ([b] + [f]) == [a, b, f];
  }

  lemma StatusLines(a: string, b: string)
    requires a == "HTTP/1.1 100 Continue" && b == "HTTP/1.1 200 OK"
    ensures IsStatusLine(a) && IsStatusLine(b) && a[9] == '1' && b[9] == '2' && b[9..12] == "200"
  {
    assert a[..7] == "HTTP/1." && b[..7] == "HTTP/1.";
    assert a[13..] == "Continue" && b[13..] == "OK";
  }

  lemma TwoBytesLong(c: Client, f: string)
    requires c.lineRoom >= 32 && f == "Content-Length: 2"
    ensures AreFields(c, []) && Agree([]) && AreFields(c, [f]) && Agree([f]) && !SaysChunked([f]) && SaysLength([f], 2)
  {
    hide Agree, IsLength, IsGoodLength;
    NothingSaid(Framing(0, false, false, None));
    LengthLine(Framing(0, false, false, None), 2);
    assert Text(2, Decimal) == "2";
    assert LENGTH_NAME + ": " + Text(2, Decimal) == f;
    FieldTaken(Framing(0, false, false, None), [], f);
    assert [] + [f] == [f];
    assert Keeps(Framing(0, false, false, Some(2)), [f]);
  }

  lemma NoFields(rest: string)
    ensures FieldsThen([], rest) == rest
  {
  }

  lemma OneField(line: string, rest: string)
    ensures FieldsThen([line], rest) == line + "\r\n" + rest
  {
    assert [line][1..] == [];
  }

  /** Two chunks, the second with an extension, and a trailer. */
  lemma WikiRead(c: Client)
    requires c.chunkLineRoom >= 8
    ensures Chunks(c, "4\r\nWiki\r\n6;x=y\r\npedia \r\n0\r\nX: y\r\n\r\n") == Outcome([], "Wikipedia ", Ok)
  {
    hide Chunks, IsPiece, SizeLine, PieceText, FieldsThen, DataOf, PiecesThen;
    var p, q, last := Piece("4", None, "Wiki"), Piece("6", Some(("", "x=y")), "pedia "), Piece("0", None, "");
    ArePieces(c, p, q, last);
    ChunksRead(c, [p, q], last, ["X: y"], "");
    OneField("X: y", "\r\n" + "");
    var end := SizeLine(last) + "\r\n" + FieldsThen(["X: y"], "\r\n" + "");
    TwoPieces(p, q, end);
    assert end == "0\r\nX: y\r\n\r\n";
    assert PieceText(p) + (PieceText(q) + end) == "4\r\nWiki\r\n6;x=y\r\npedia \r\n0\r\nX: y\r\n\r\n";
  }

  lemma TwoPieces(p: Piece, q: Piece, rest: string)
    ensures PiecesThen([p, q], rest) == PieceText(p) + (PieceText(q) + rest) && DataOf([p, q]) == p.data + q.data
  {
    hide PieceText, PiecesThen, DataOf;
    OnePiece(p, [q], rest);
    OnePiece(q, [], rest);
    assert [p] + [q] == [p, q] && [q] + [] == [q] && q.data + "" == q.data;
    NoPieces(rest);
  }

  lemma OnePiece(p: Piece, more: seq<Piece>, rest: string)
    ensures PiecesThen([p] + more, rest) == PieceText(p) + PiecesThen(more, rest) && DataOf([p] + more) == p.data + DataOf(more)
  {
    assert ([p] + more)[1..] == more;
  }

  lemma NoPieces(rest: string)
    ensures PiecesThen([], rest) == rest && DataOf([]) == ""
  {
  }

  lemma ArePieces(c: Client, p: Piece, q: Piece, last: Piece)
    requires c.chunkLineRoom >= 8
    requires p == Piece("4", None, "Wiki") && q == Piece("6", Some(("", "x=y")), "pedia ") && last == Piece("0", None, "")
    ensures IsPiece(c, p) && IsPiece(c, q) && IsPiece(c, last)
    ensures PieceText(p) == "4\r\nWiki\r\n" && PieceText(q) == "6;x=y\r\npedia \r\n" && SizeLine(last) == "0"
  {
    assert Value("4", Hex) == 4 && Value("6", Hex) == 6 && Value("0", Hex) == 0;
    assert SizeLine(p) == "4" && SizeLine(q) == "6;x=y" && SizeLine(last) == "0";
  }
}
