/** What a whole response means: the lines its header callback is given, the body its write callback
    is given, and the result, as a function of every byte the server sends (RFC 9112, sections 6.3
    and 7.1). Nothing here knows how the bytes are split, or where they are kept. */
module ResponseDecoder {
  import opened Options
  import opened HttpText

  /** The codes khc_perform() returns. HeaderSkipped stands for a response with a header that doesn't
      fit in its buffer, which is not part of this model. */
  datatype Code = Ok | SockConnect | SockSend | SockRecv | HeaderCallback | TooLargeData
                | ReadCallback | InvalidResponse | HeaderSkipped

  /** What of the client decides how a response is read: the longest line with its CRLF, the longest
      chunk size line with its CRLF, whether the request was a HEAD, and whether the connection is
      lost after the last byte, rather than closed by the server. */
  datatype Client = Client(lineRoom: nat, chunkLineRoom: nat, isHead: bool, lost: bool)

  datatype Outcome = Outcome(lines: seq<string>, body: string, code: Code)

  /** What the lines so far say of the body. */
  datatype Framing = Framing(status: nat, isHttp10: bool, chunked: bool, length: Option<nat>)

  function Stop(code: Code): Outcome {
    Outcome([], "", code)
  }

  /** The outcome of what follows a line, or part of a body. */
  function Line(line: string, next: Outcome): Outcome {
    next.(lines := [line] + next.lines)
  }

  function Body(part: string, next: Outcome): Outcome {
    next.(body := part + next.body)
  }

  predicate LineFits(s: string, room: nat) {
    HasLine(s) && LineEnd(s) + 2 <= room
  }

  /** A response, an interim 1xx one included. calls is how many calls the header callback takes
      before it refuses one. */
  ghost function Response(c: Client, calls: nat, s: string): Outcome
    decreases |s|, 0
  {
    if !LineFits(s, c.lineRoom) then Stop(if |s| >= c.lineRoom then TooLargeData else SockRecv)
    else if !IsStatusLine(FirstLine(s)) then Stop(InvalidResponse)
    else if calls == 0 then Line(FirstLine(s), Stop(HeaderCallback))
    else Line(FirstLine(s), Headers(c, calls - 1, AfterLine(s), NoHeaders(FirstLine(s))))
  }

  function NoHeaders(statusLine: string): Framing
    requires IsStatusLine(statusLine)
  {
    Framing(StatusCode(statusLine), statusLine[7] == '0', false, None)
  }

  ghost function Headers(c: Client, calls: nat, s: string, f: Framing): Outcome
    decreases |s|, 1
  {
    if !LineFits(s, c.lineRoom) then
      Stop(if |s| < c.lineRoom then SockRecv
           else if IsHeaderStart(s[..c.lineRoom]) then HeaderSkipped
           else InvalidResponse)
    else if FirstLine(s) == "" then AfterHeaders(c, calls, AfterLine(s), f)
    else if !IsHeaderLine(FirstLine(s)) then Stop(InvalidResponse)
    else if calls == 0 then Line(FirstLine(s), Stop(HeaderCallback))
    else
      Line(FirstLine(s),
           match WithHeader(f, FirstLine(s))
           case None => Stop(InvalidResponse)
           case Some(g) => Headers(c, calls - 1, AfterLine(s), g))
  }

  /** The framing with a header more, unless its coding can't be removed, its length isn't one, or
      two lengths disagree. */
  ghost function WithHeader(f: Framing, line: string): Option<Framing> {
    match CodingOf(line)
    case Chunked => Some(f.(chunked := true))
    case OtherCoding => None
    case NoCoding =>
      match LengthOf(line)
      case NoLength => Some(f)
      case BadLength => None
      case LengthIs(n) => if f.length.Some? && f.length.value != n then None else Some(f.(length := Some(n)))
  }

  ghost function AfterHeaders(c: Client, calls: nat, s: string, f: Framing): Outcome
    decreases |s|, 1
  {
    if 100 <= f.status < 200 then Response(c, calls, s)
    else if c.isHead || f.status == 204 || f.status == 304 then Stop(Ok)
    else if f.chunked && (f.length.Some? || f.isHttp10) then Stop(InvalidResponse)
    else if f.chunked then Chunks(c, s)
    else PlainBody(c, f.length, s)
  }

  /** A body of a given length, or of none given, which the end of the stream ends. */
  function PlainBody(c: Client, length: Option<nat>, s: string): Outcome {
    match length
    case None => Body(s, Stop(if c.lost then SockRecv else Ok))
    case Some(n) => if n <= |s| then Body(s[..n], Stop(Ok)) else Body(s, Stop(SockRecv))
  }

  /** From where a chunk's size line starts. */
  ghost function Chunks(c: Client, s: string): Outcome
    decreases |s|, 0
  {
    if !LineFits(s, c.chunkLineRoom) then Stop(if |s| >= c.chunkLineRoom then TooLargeData else SockRecv)
    else
      match ChunkSizeOf(FirstLine(s))
      case None => Stop(InvalidResponse)
      case Some(n) => if n == 0 then Trailers(c, "\r\n", AfterLine(s)) else ChunkData(c, n, AfterLine(s))
  }

  /** From where n bytes of a chunk's data are still to come. */
  ghost function ChunkData(c: Client, n: nat, s: string): Outcome
    decreases |s|, 2
  {
    if |s| < n then Body(s, Stop(SockRecv)) else Body(s[..n], ChunkEnd(c, s[n..]))
  }

  /** The CRLF after a chunk's data. */
  ghost function ChunkEnd(c: Client, s: string): Outcome
    decreases |s|, 1
  {
    if (|s| > 0 && s[0] != CR) || (|s| > 1 && s[1] != LF) then Stop(InvalidResponse)
    else if |s| < 2 then Stop(SockRecv)
    else Chunks(c, s[2..])
  }

  /** What ends a chunked body: an empty line, of whose CRLFs seen came last, or, as the code has it,
      the end of the stream too. */
  ghost function Trailers(c: Client, seen: string, s: string): Outcome {
    Stop(if HasEmptyLine(seen + s) || !c.lost then Ok else SockRecv)
  }

  // ---------- Reading part by part ----------

  /** Taking the first k bytes of a body leaves the rest of it. */
  lemma PlainBodyStep(c: Client, length: Option<nat>, s: string, k: nat)
    requires k <= |s| && (length.Some? ==> k <= length.value)
    ensures PlainBody(c, length, s) ==
            Body(s[..k], PlainBody(c, if length.None? then None else Some(length.value - k), s[k..]))
  {
    assert s[..k] + s[k..] == s;
    if length.Some? && length.value <= |s| {
      assert s[..k] + s[k..][..length.value - k] == s[..length.value];
    }
  }

  lemma ChunkDataStep(c: Client, n: nat, s: string, k: nat)
    requires k <= |s| && k <= n
    ensures ChunkData(c, n, s) == Body(s[..k], ChunkData(c, n - k, s[k..]))
  {
    assert s[..k] + s[k..] == s;
    if n <= |s| {
      assert s[..k] + s[k..][..n - k] == s[..n];
      assert s[k..][n - k..] == s[n..];
    }
  }
}
