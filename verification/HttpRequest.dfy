/** The bytes a request puts on the wire, as a function of the request and of what its read callback
    gives. */
module HttpRequest {
  import opened Options
  import opened Numerals
  import opened HttpText
  import opened ResponseDecoder

  /** A request. An empty header stands for one that is NULL or empty. No length means a body of
      unknown length, which is sent in chunks. */
  datatype Request = Request(verb: string, host: string, path: string, headers: seq<string>,
                             insecure: bool, absolute: bool, hasReader: bool, length: Option<nat>)

  function WithFallbacks(r: Request): Request {
    r.(host := if r.host == "" then "localhost" else r.host,
       verb := if r.verb == "" then "GET" else r.verb)
  }

  predicate CanHaveBody(r: Request) {
    r.verb != "GET" && r.verb != "HEAD" && r.verb != "DELETE"
  }

  predicate HasBody(r: Request) {
    CanHaveBody(r) && r.hasReader && r.length != Some(0)
  }

  function RequestLine(r: Request): (s: string)
    ensures s != ""
  {
    r.verb + " " + (if r.absolute then (if r.insecure then "http://" else "https://") + r.host else "")
    + (if r.path == "" then "/" else r.path) + " HTTP/1.1\r\n"
  }

  function HostHeader(r: Request): (s: string)
    ensures s != ""
  {
    "HOST: " + r.host + "\r\n"
  }

  function HeaderLines(headers: seq<string>): string {
    if headers == [] then ""
    else (if headers[0] == "" then "" else headers[0] + "\r\n") + HeaderLines(headers[1..])
  }

  function HeadEnd(r: Request): (s: string)
    ensures s != ""
  {
    (if !CanHaveBody(r) then ""
     else if !r.hasReader then "Content-Length: 0\r\n"
     else if r.length.Some? then "Content-Length: " + Text(r.length.value, Decimal) + "\r\n"
     else "Transfer-Encoding: chunked\r\n") + "Connection: Close\r\n\r\n"
  }

  // ---------- The body ----------

  /** What the read callback will return, call by call, were its buffer large enough each time. The
      first empty part, or the end, is a return of 0. */
  type Parts = seq<string>

  /** What it gives when asked for no more than room, and what it will give next. */
  function Given(parts: Parts, room: nat): string {
    if parts == [] then "" else if |parts[0]| <= room then parts[0] else parts[0][..room]
  }

  function NextParts(parts: Parts, room: nat): Parts {
    if parts == [] then [] else if |parts[0]| <= room then parts[1..] else [parts[0][room..]] + parts[1..]
  }

  /** All of what it gives until it returns 0. */
  function Supply(parts: Parts): string {
    if parts == [] || parts[0] == "" then "" else parts[0] + Supply(parts[1..])
  }

  /** Bytes to send, and the failure, if any, that comes after them. */
  datatype Plan = Plan(bytes: string, failure: Option<Code>)

  function After(bytes: string, plan: Plan): Plan {
    plan.(bytes := bytes + plan.bytes)
  }

  const Nothing: Plan := Plan("", None)

  /** The rest of a body of known length: all of it, or a failure where the callback gives less. */
  function KnownBody(left: nat, parts: Parts): Plan {
    var data := Supply(parts);
    if left <= |data| then Plan(data[..left], None) else Plan(data, Some(ReadCallback))
  }

  /** A chunk: its size in hex, and its data. The one of no data ends the body. */
  function Chunk(data: string): (s: string)
    ensures s != ""
  {
    Text(|data|, Hex) + "\r\n" + data + "\r\n"
  }

  function PartsSize(parts: Parts): nat {
    if parts == [] then 0 else 1 + |parts[0]| + PartsSize(parts[1..])
  }

  /** A body in chunks of at most room bytes. */
  function ChunkedBody(room: nat, parts: Parts): string
    requires room > 0
    decreases PartsSize(parts)
  {
    var data := Given(parts, room);
    if data == "" then Chunk("")
    else
      Chunk(data) + ChunkedBody(room, NextParts(parts, room))
  }

  /** How much data a chunk can have in a buffer of size bytes, with the longest size line a chunk
      that fits can have before it, and a CRLF after it. */
  function ChunkLineRoom(size: nat): nat {
    |Text(size, Hex)| + 2
  }

  function UnknownBody(size: nat, parts: Parts): Plan {
    if size <= ChunkLineRoom(size) + 2 then Plan("", Some(TooLargeData))
    else Plan(ChunkedBody(size - ChunkLineRoom(size) - 2, parts), None)
  }

  function BodyPlan(r: Request, left: nat, size: nat, parts: Parts): Plan {
    if r.length.Some? then KnownBody(left, parts) else UnknownBody(size, parts)
  }

  /** The whole body, if the request has one. */
  function BodyOf(r: Request, size: nat, parts: Parts): Plan {
    if HasBody(r) then BodyPlan(r, if r.length.Some? then r.length.value else 0, size, parts) else Nothing
  }

  /** Everything from a point in the request on. */
  function FromHeadEnd(r: Request, size: nat, parts: Parts): Plan {
    After(HeadEnd(r), BodyOf(r, size, parts))
  }

  function FromHeaders(r: Request, from: nat, size: nat, parts: Parts): Plan
    requires from <= |r.headers|
  {
    After(HeaderLines(r.headers[from..]), FromHeadEnd(r, size, parts))
  }

  function FromHostHeader(r: Request, size: nat, parts: Parts): Plan {
    After(HostHeader(r), FromHeaders(r, 0, size, parts))
  }

  function WholeRequest(r: Request, size: nat, parts: Parts): Plan {
    After(RequestLine(r), FromHostHeader(r, size, parts))
  }

  // ---------- Reading the body a buffer at a time ----------

  lemma SupplyStep(parts: Parts, room: nat)
    requires room > 0
    ensures Supply(parts) == if Given(parts, room) == "" then "" else Given(parts, room) + Supply(NextParts(parts, room))
  {
    if parts != [] && |parts[0]| > room {
      assert ([parts[0][room..]] + parts[1..])[1..] == parts[1..];
      assert parts[0][..room] + parts[0][room..] == parts[0];
    }
  }

  lemma KnownBodyStep(left: nat, parts: Parts, want: nat)
    requires 0 < want <= left
    ensures var data := Given(parts, want);
            && |data| <= want
            && KnownBody(left, parts) ==
               if data == "" then Plan("", Some(ReadCallback)) else After(data, KnownBody(left - |data|, NextParts(parts, want)))
  {
    SupplyStep(parts, want);
    var data, rest := Given(parts, want), Supply(NextParts(parts, want));
    if left <= |data + rest| {
      assert (data + rest)[..left] == data + rest[..left - |data|];
    }
  }

  // ---------- The round trip ----------

  lemma TextIsHexLine(n: nat)
    requires n <= SIZE_MAX
    ensures !exists i :: 0 <= i < |Text(n, Hex)| && Text(n, Hex)[i] == CR
    ensures ChunkSizeOf(Text(n, Hex)) == Some(n)
  {
    var line := Text(n, Hex);
    ValueOfText(n, Hex);
    assert forall i | 0 <= i < |line| :: Digit(line[i], Hex) >= 0;
    assert HexDigitsEndAt(line, |line|);
    assert line[..|line|] == line;
    ChunkSizeOfIs(line, |line|);
  }

  /** Where a chunk starts, the decoder takes its size line. */
  lemma ChunkOpens(c: Client, data: string, rest: string)
    requires |data| <= SIZE_MAX && |Text(|data|, Hex)| + 2 <= c.chunkLineRoom
    ensures Chunks(c, Chunk(data) + rest) ==
            if data == "" then Trailers(c, "\r\n", "\r\n" + rest) else ChunkData(c, |data|, data + "\r\n" + rest)
  {
    var line := Text(|data|, Hex);
    var s := Chunk(data) + rest;
    TextIsHexLine(|data|);
    LineEndIs(s, |line|);
    assert FirstLine(s) == line;
    assert AfterLine(s) == data + "\r\n" + rest;
    assert data == "" ==> data + "\r\n" + rest == "\r\n" + rest;
  }

  lemma ChunkRead(c: Client, data: string, tail: string)
    requires data != "" && |data| <= SIZE_MAX && |Text(|data|, Hex)| + 2 <= c.chunkLineRoom
    ensures Chunks(c, Chunk(data) + tail) == Body(data, Chunks(c, tail))
  {
    ChunkOpens(c, data, tail);
    var s := data + "\r\n" + tail;
    assert s[..|data|] == data && s[|data|..] == "\r\n" + tail;
    assert ("\r\n" + tail)[2..] == tail;
  }

  /** What the chunks of a request say to the decoder of responses: the body the callback gave,
      whole, whatever comes after them. */
  lemma {:induction false} ChunkedRoundTrip(c: Client, room: nat, parts: Parts, rest: string)
    requires 0 < room <= SIZE_MAX && |Text(room, Hex)| + 2 <= c.chunkLineRoom
    ensures Chunks(c, ChunkedBody(room, parts) + rest) == Outcome([], Supply(parts), Ok)
    decreases PartsSize(parts)
  {
    var data := Given(parts, room);
    SupplyStep(parts, room);
    TextLengthMonotone(|data|, room, Hex);
    if data == "" {
      ChunkOpens(c, "", rest);
      assert EmptyLineAt("\r\n" + ("\r\n" + rest), 0);
    } else {
      var next := NextParts(parts, room);
      var tail := ChunkedBody(room, next) + rest;
      ChunkedRoundTrip(c, room, next, rest);
      assert ChunkedBody(room, parts) + rest == Chunk(data) + tail;
      ChunkRead(c, data, tail);
    }
  }
}
