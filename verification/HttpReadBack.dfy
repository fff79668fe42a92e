/** The end of a request's header section and its body, read back: what they say of the body's framing
    is what a response that said the same would have, and the body is what the read callback gave. */
module HttpReadBack {
  import opened Options
  import opened Numerals
  import opened HttpText
  import opened ResponseDecoder
  import opened HttpRequest

  const CODING_LINE := "Transfer-Encoding: chunked"
  const LENGTH_NAME := "Content-Length"
  const CLOSE_LINE := "Connection: Close"
  /** A status line's framing, for a status that allows a body. */
  const PLAIN: Framing := Framing(200, false, false, None)

  /** One header line, and what follows it. */
  lemma HeaderRead(c: Client, calls: nat, line: string, rest: string, f: Framing, g: Framing)
    requires line != "" && IsHeaderLine(line) && |line| + 2 <= c.lineRoom && calls > 0 && WithHeader(f, line) == Some(g)
    ensures Headers(c, calls, line + "\r\n" + rest, f) == Line(line, Headers(c, calls - 1, rest, g))
  {
    hide WithHeader, AfterHeaders, IsHeaderStart;
    LineRead(line, rest);
  }

  lemma LineRead(line: string, rest: string)
    requires IsHeaderLine(line)
    ensures var s := line + "\r\n" + rest; LineEnd(s) == |line| && HasLine(s) && FirstLine(s) == line && AfterLine(s) == rest
  {
    var s := line + "\r\n" + rest;
    NoCrlfInHeader(line);
    assert forall i :: 0 <= i < |line| ==> s[i] == line[i];
    assert s[|line|] == CR && s[|line| + 1] == LF;
    LineEndIs(s, |line|);
    assert s[..|line|] == line && s[|line| + 2..] == rest;
  }

  /** A header line has no CR in it. */
  lemma NoCrlfInHeader(line: string)
    requires IsHeaderLine(line)
    ensures forall i :: 0 <= i < |line| ==> line[i] != CR
  {
    var n: nat :| HeaderNameEndsAt(line, n) && IsFieldText(line[n + 1..]);
    forall i | 0 <= i < |line| ensures line[i] != CR {
      if i > n {
        assert line[i] == line[n + 1..][i - n - 1];
      }
    }
  }

  /** The empty line that ends the section. */
  lemma EndRead(c: Client, calls: nat, rest: string, f: Framing)
    requires c.lineRoom >= 2
    ensures Headers(c, calls, "\r\n" + rest, f) == AfterHeaders(c, calls, rest, f)
  {
    hide WithHeader, AfterHeaders, IsHeaderStart, IsHeaderLine;
    var s := "\r\n" + rest;
    LineEndIs(s, 0);
    assert s[2..] == rest;
  }

  // ---------- The lines themselves ----------

  /** A name as the request writes it, and in lower case. */
  predicate IsNamed(text: string, name: string) {
    |text| == |name| > 0 && forall k :: 0 <= k < |text| ==> Lower(text[k]) == name[k] && IsTokenChar(text[k])
  }

  lemma Names()
    ensures IsNamed("Transfer-Encoding", "transfer-encoding") && IsNamed("Content-Length", "content-length") && IsNamed("Connection", "connection")
  {
  }

  /** A line of a name, a colon, and a value that is field text. */
  lemma NamedLine(text: string, name: string, value: string)
    requires IsNamed(text, name) && IsFieldText(value)
    ensures var line := text + ":" + value; IsHeaderLine(line) && IsFieldNamed(line, name) && FieldValue(line, name) == value
  {
    var line := text + ":" + value;
    assert forall k :: 0 <= k < |text| ==> line[k] == text[k];
    assert line[|text|] == ':' && line[|text| + 1..] == value;
    assert HeaderNameEndsAt(line, |text|);
  }

  /** Names that differ name different headers. */
  lemma OtherName(text: string, name: string, value: string, other: string, k: nat)
    requires IsNamed(text, name) && k < |name| && k < |other| && other[k] != name[k]
    ensures !IsFieldNamed(text + ":" + value, other)
  {
    var line := text + ":" + value;
    assert line[k] == text[k];
  }

  lemma CodingLine(f: Framing)
    ensures CODING_LINE == "Transfer-Encoding" + ":" + " chunked"
    ensures IsHeaderLine(CODING_LINE) && WithHeader(f, CODING_LINE) == Some(f.(chunked := true))
  {
    hide EndsInChunked, IsNamed, IsFieldText, LengthOf;
    Names();
    ChunkedIsLast();
    var value := " chunked";
    assert CODING_LINE == "Transfer-Encoding" + ":" + value;
    NamedLine("Transfer-Encoding", "transfer-encoding", value);
  }

  lemma ChunkedIsLast()
    ensures EndsInChunked(" chunked") && IsFieldText(" chunked")
  {
    var value := " chunked";
    assert ElementStart(value, 0, 1);
    assert LastIsChunkedAt(value, 1);
  }

  lemma LengthLine(f: Framing, n: nat)
    requires n <= SIZE_MAX && (f.length == None || f.length == Some(n))
    ensures var line := LENGTH_NAME + ": " + Text(n, Decimal); IsHeaderLine(line) && WithHeader(f, line) == Some(f.(length := Some(n)))
  {
    Names();
    var text := Text(n, Decimal);
    var value := " " + text;
    var line := LENGTH_NAME + ":" + value;
    assert line == LENGTH_NAME + ": " + text;
    ValueOfText(n, Decimal);
    DigitsAreText(text);
    NamedLine("Content-Length", "content-length", value);
    OtherName("Content-Length", "content-length", value, "transfer-encoding", 0);
    assert DigitsAt(value, 1, |value|);
    assert value[1..|value|] == text;
    LengthOfIs(line, 1, |value|);
  }

  lemma DigitsAreText(text: string)
    requires AllDigits(text, Decimal)
    ensures IsFieldText(" " + text)
  {
  }

  lemma CloseLine(f: Framing)
    ensures CLOSE_LINE == "Connection" + ":" + " Close" && IsHeaderLine(CLOSE_LINE) && WithHeader(f, CLOSE_LINE) == Some(f)
  {
    hide EndsInChunked, IsLength, IsNamed, IsFieldText, IsFieldNamed, IsHeaderLine;
    Names();
    CloseIsText();
    assert CLOSE_LINE == "Connection" + ":" + " Close";
    NamedLine("Connection", "connection", " Close");
    OtherName("Connection", "connection", " Close", "transfer-encoding", 0);
    OtherName("Connection", "connection", " Close", "content-length", 3);
  }

  lemma CloseIsText()
    ensures IsFieldText(" Close")
  {
  }

  // ---------- All of it ----------

  /** The lines that end the header section of a request with a body. */
  function FramingLine(r: Request): string
    requires r.hasReader
  {
    if r.length.Some? then LENGTH_NAME + ": " + Text(r.length.value, Decimal) else CODING_LINE
  }

  lemma HeadEndLines(r: Request, rest: string)
    requires HasBody(r)
    ensures HeadEnd(r) + rest == FramingLine(r) + "\r\n" + (CLOSE_LINE + "\r\n" + ("\r\n" + rest))
  {
    hide Text;
  }

  /** The body a request's read callback gives, as far as its length. */
  function BodyGiven(r: Request, parts: Parts): string {
    if r.length.Some? && r.length.value <= |Supply(parts)| then Supply(parts)[..r.length.value] else Supply(parts)
  }

  /** A body that could be sent, read as its framing says, is what the callback gave. */
  lemma BodyReadBack(c: Client, r: Request, size: nat, parts: Parts)
    requires HasBody(r) && BodyOf(r, size, parts).failure.None? && size <= SIZE_MAX && !c.isHead && |Text(size, Hex)| + 2 <= c.chunkLineRoom
    ensures AfterHeaders(c, 0, BodyOf(r, size, parts).bytes, PLAIN.(chunked := r.length.None?, length := r.length)) == Outcome([], BodyGiven(r, parts), Ok)
  {
    hide Text, Chunks;
    var bytes := BodyOf(r, size, parts).bytes;
    if r.length.None? {
      var room := size - ChunkLineRoom(size) - 2;
      TextLengthMonotone(room, size, Hex);
      ChunkedRoundTrip(c, room, parts, "");
      assert bytes + "" == bytes;
    } else {
      assert bytes == BodyGiven(r, parts) && bytes[..|bytes|] == bytes;
    }
  }

  /** A request with a body, read from where its own headers have ended as a response would be, is framed
      as it was sent, and its body is what the callback gave, whole. */
  lemma RequestReadBack(c: Client, r: Request, size: nat, parts: Parts)
    requires HasBody(r) && BodyOf(r, size, parts).failure.None? && size <= SIZE_MAX && (r.length.Some? ==> r.length.value <= SIZE_MAX)
    requires !c.isHead && |Text(size, Hex)| + 2 <= c.chunkLineRoom && c.lineRoom >= |FramingLine(r)| + 2 && c.lineRoom >= |CLOSE_LINE| + 2
    ensures Headers(c, 2, HeadEnd(r) + BodyOf(r, size, parts).bytes, PLAIN) == Outcome([FramingLine(r), CLOSE_LINE], BodyGiven(r, parts), Ok)
  {
    hide Text, WithHeader, AfterHeaders, IsHeaderLine, BodyGiven, BodyOf, Headers, HeadEnd;
    var bytes := BodyOf(r, size, parts).bytes;
    var framed := PLAIN.(chunked := r.length.None?, length := r.length);
    HeadEndLines(r, bytes);
    if r.length.Some? {
      LengthLine(PLAIN, r.length.value);
    } else {
      CodingLine(PLAIN);
    }
    CloseLine(framed);
    HeaderRead(c, 2, FramingLine(r), CLOSE_LINE + "\r\n" + ("\r\n" + bytes), PLAIN, framed);
    HeaderRead(c, 1, CLOSE_LINE, "\r\n" + bytes, framed, framed);
    EndRead(c, 0, bytes, framed);
    BodyReadBack(c, r, size, parts);
    assert [FramingLine(r)] + ([CLOSE_LINE] + []) == [FramingLine(r), CLOSE_LINE];
  }
}
