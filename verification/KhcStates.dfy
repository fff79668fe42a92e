/** The states of khc, and what its fields stand for in those that read the response: what the rest
    of the response comes to, and how far it is from its end. The lemmas here are the steps the
    handlers make, on values. */
module KhcStates {
  import opened Options
  import opened HttpText
  import opened ResponseDecoder
  import opened HttpRequest
  import opened Exchanges

  datatype State = Idle | Connect
    | ReqLine | ReqHostHeader | ReqHeader | ReqHeaderSend | ReqHeaderSendCrlf | ReqHeaderEnd
    | ReqBodyRead | ReqBodySend
    | RespStatusRead | RespStatusParse | RespHeaderCallback | RespHeaderRead | RespHeaderSkip
    | RespBodyFragment | ReadChunkSizeFromHeaderBuff | ReadChunkBodyFromHeaderBuff
    | RespBodyRead | RespBodyCallback
    | RespBodyParseChunkSize | RespBodyReadChunkSize | RespBodyParseChunkBody | RespBodyReadChunkBody
    | RespBodySkipChunkBodyCrlf | RespBodySkipTrailers
    | Close | Finished

  /** How far an exchange still is from its end: the first number that differs decides. */
  datatype Progress = Progress(waits: nat, stage: nat, todo: nat, incoming: nat, inHeader: nat, step: nat)

  predicate Less(a: Progress, b: Progress) {
    a.waits < b.waits || (a.waits == b.waits && (
      a.stage < b.stage || (a.stage == b.stage && (
        a.todo < b.todo || (a.todo == b.todo && (
          a.incoming < b.incoming || (a.incoming == b.incoming && (
            a.inHeader < b.inHeader || (a.inHeader == b.inHeader && a.step < b.step)))))))))
  }

  /** The fields that count while the response is read. inHeader and inStream are what the two buffers
      hold that hasn't been used, or was, in the states that read over it. */
  datatype View = View(state: State, inHeader: string, inStream: string, given: bool, framing: Framing,
                       received: nat, chunkLeft: nat, matched: nat, result: Code)

  ghost predicate ValidView(c: Client, v: View) {
    && 1 <= c.lineRoom && 1 <= c.chunkLineRoom
    && |v.inHeader| <= c.lineRoom && |v.inStream| <= c.chunkLineRoom
    && match v.state
       case RespStatusRead => !HasLine(v.inHeader) && |v.inHeader| < c.lineRoom && v.received == 0
       case RespStatusParse => HasLine(v.inHeader) && v.received == 0
       case RespHeaderCallback =>
         && v.received == 0
         && (!v.given ==> HasLine(v.inHeader) && IsStatusLine(FirstLine(v.inHeader)) &&
                          v.framing == NoHeaders(FirstLine(v.inHeader)))
       case RespHeaderRead => v.given && !HasLine(v.inHeader) && |v.inHeader| < c.lineRoom && v.received == 0
       case RespBodyFragment => v.received == 0
       case RespBodyRead => v.framing.length.Some? ==> v.received < v.framing.length.value
       case RespBodyCallback => v.inStream != "" && (v.framing.length.Some? ==> v.received < v.framing.length.value)
       case RespBodyReadChunkSize => v.inHeader == "" && !HasLine(v.inStream)
       case ReadChunkSizeFromHeaderBuff => v.inHeader != "" && !HasLine(v.inStream)
       case RespBodyParseChunkBody => v.chunkLeft > 0 && c.chunkLineRoom >= 3
       case RespBodyReadChunkBody => v.chunkLeft > 0 && c.chunkLineRoom >= 3 && v.inHeader == ""
       case ReadChunkBodyFromHeaderBuff => v.chunkLeft > 0 && c.chunkLineRoom >= 3 && v.inHeader != "" && v.inStream == ""
       case RespBodySkipChunkBodyCrlf => c.chunkLineRoom >= 3
       case RespBodySkipTrailers => v.matched < 4
       case RespBodyParseChunkSize | RespHeaderSkip | Close => true
       case _ => false
  }

  /** What it has read and not used, and what it has not read. */
  function ToRead(v: View, w: World): string {
    match v.state
    case RespStatusRead | RespStatusParse | RespHeaderCallback | RespHeaderRead | RespBodyFragment => v.inHeader + w.incoming
    case RespBodyRead | RespBodyReadChunkBody => w.incoming
    case RespBodyCallback => v.inStream + w.incoming
    case RespBodyParseChunkSize | RespBodyReadChunkSize | ReadChunkSizeFromHeaderBuff | RespBodyParseChunkBody
      | ReadChunkBodyFromHeaderBuff | RespBodySkipChunkBodyCrlf | RespBodySkipTrailers =>
      v.inStream + (v.inHeader + w.incoming)
    case _ => ""
  }

  /** How much of a body of given length is still to come. */
  function LengthLeft(v: View): Option<nat> {
    if v.framing.length.None? then None
    else Some(if v.received <= v.framing.length.value then v.framing.length.value - v.received else 0)
  }

  /** What the rest of the response comes to. */
  ghost function Rest(c: Client, v: View, w: World): Outcome {
    match v.state
    case RespStatusRead | RespStatusParse => Response(c, w.calls, ToRead(v, w))
    case RespHeaderCallback =>
      if v.given then Headers(c, w.calls, ToRead(v, w), v.framing) else Response(c, w.calls, ToRead(v, w))
    case RespHeaderRead => Headers(c, w.calls, ToRead(v, w), v.framing)
    case RespBodyFragment | RespBodyRead | RespBodyCallback => PlainBody(c, LengthLeft(v), ToRead(v, w))
    case RespBodyParseChunkSize | RespBodyReadChunkSize | ReadChunkSizeFromHeaderBuff => Chunks(c, ToRead(v, w))
    case RespBodyParseChunkBody | RespBodyReadChunkBody | ReadChunkBodyFromHeaderBuff => ChunkData(c, v.chunkLeft, ToRead(v, w))
    case RespBodySkipChunkBodyCrlf => ChunkEnd(c, ToRead(v, w))
    case RespBodySkipTrailers => Trailers(c, EMPTY_LINE[..if v.matched <= 4 then v.matched else 4], ToRead(v, w))
    case RespHeaderSkip => Stop(HeaderSkipped)
    case _ => Stop(v.result)
  }

  function Measure(v: View, w: World): Progress {
    if v.state == Close then Progress(w.waits, 1, 0, 0, 0, 0)
    else if v.state == RespHeaderSkip || v.state == Finished then Progress(w.waits, 0, 0, 0, 0, 0)
    else Progress(w.waits, 2, |ToRead(v, w)|, |w.incoming|, |v.inHeader|, StepsInPlace(v.state))
  }

  /** How many steps a state can make with nothing read or used. */
  function StepsInPlace(s: State): nat {
    match s
    case RespStatusParse => 4
    case RespHeaderCallback => 3
    case RespBodyFragment | RespBodyParseChunkSize | RespBodyParseChunkBody => 2
    case ReadChunkSizeFromHeaderBuff | ReadChunkBodyFromHeaderBuff => 1
    case _ => 0
  }

  /** What a step keeps, and that it gets closer to the end. */
  ghost predicate IsStep(c: Client, v: View, w: World, v': View, w': World) {
    && ValidView(c, v')
    && Responding(w', Rest(c, v', w')) == Responding(w, Rest(c, v, w))
    && Less(Measure(v', w'), Measure(v, w))
  }

  /** A condition that proofs hand on whole, without taking it apart. */
  datatype Condition = Kept(whole: bool)

  // ---------- Any state ----------

  /** Nothing came, as the socket wasn't ready. */
  lemma Waited(c: Client, v: View, w: World, waits: nat)
    requires Kept(ValidView(c, v)).whole && waits < w.waits
    ensures Kept(IsStep(c, v, w, v, w.(waits := waits))).whole
  {
    hide LineEnd;
  }

  /** The same in the states that read over what the stream buffer holds. */
  lemma WaitedOver(c: Client, v: View, w: World, waits: nat, inStream: string)
    requires Kept(ValidView(c, v)).whole && (v.state == RespBodyRead || v.state == RespBodyReadChunkBody)
    requires waits < w.waits && |inStream| <= c.chunkLineRoom
    ensures Kept(IsStep(c, v, w, v.(inStream := inStream), w.(waits := waits))).whole
  {
    hide LineEnd;
  }

  /** Part of what is to come is read. */
  function Took(w: World, n: nat): World
    requires n <= |w.incoming|
  {
    w.(incoming := w.incoming[n..])
  }

  lemma TookKeeps(s: string, w: World, n: nat)
    requires n <= |w.incoming|
    ensures s + w.incoming[..n] + Took(w, n).incoming == s + w.incoming
  {
    hide LineEnd;
  }

  function Stopped(v: View, code: Code): View {
    v.(state := Close, result := code)
  }

  function LineHanded(w: World, line: string): World {
    w.(lines := w.lines + [line], calls := if w.calls > 0 then w.calls - 1 else 0)
  }

  function Written(w: World, part: string): World {
    w.(body := w.body + part)
  }

  // ---------- The status line ----------

  lemma StatusRoom(c: Client, v: View)
    requires Kept(ValidView(c, v)).whole && v.state == RespStatusRead
    ensures !HasLine(v.inHeader) && |v.inHeader| < c.lineRoom
  {
    hide LineEnd;
  }

  /** khc_state_resp_status_read, with n bytes read. */
  lemma StatusRead(c: Client, v: View, w: World, n: nat)
    requires Kept(ValidView(c, v)).whole && v.state == RespStatusRead && 0 < n <= |w.incoming| && |v.inHeader| + n <= c.lineRoom
    ensures var read := v.inHeader + w.incoming[..n];
            var v1 := v.(inHeader := read);
            Kept(IsStep(c, v, w, if HasLine(read) then v1.(state := RespStatusParse)
                                 else if |read| == c.lineRoom then Stopped(v1, TooLargeData) else v1, Took(w, n))).whole
  {
    hide LineEnd;
    var read := v.inHeader + w.incoming[..n];
    TookKeeps(v.inHeader, w, n);
    if !HasLine(read) && |read| == c.lineRoom {
      NoRoomForLine(read, w.incoming[n..], c.lineRoom);
    }
  }

  /** With the end of the stream, or a failure, instead. */
  lemma StatusEnd(c: Client, v: View, w: World)
    requires Kept(ValidView(c, v)).whole && v.state == RespStatusRead && w.incoming == ""
    ensures Kept(IsStep(c, v, w, Stopped(v, SockRecv), w)).whole
  {
    hide LineEnd;
    NoMoreLine(v.inHeader, c.lineRoom);
  }

  lemma StatusParseLine(c: Client, v: View)
    requires Kept(ValidView(c, v)).whole && v.state == RespStatusParse
    ensures HasLine(v.inHeader)
  {
    hide LineEnd;
  }

  /** khc_state_resp_status_parse */
  lemma StatusParse(c: Client, v: View, w: World)
    requires Kept(ValidView(c, v)).whole && v.state == RespStatusParse
    ensures var line := FirstLine(v.inHeader);
            Kept(IsStep(c, v, w, if IsStatusLine(line) then v.(state := RespHeaderCallback, given := false, framing := NoHeaders(line))
                                 else Stopped(v, InvalidResponse), w)).whole
  {
    hide LineEnd;
    LineInBuffer(v.inHeader, w.incoming, c.lineRoom);
  }

  // ---------- The headers ----------

  /** A header whole in the buffer, taken by the callback. */
  lemma HeadersOnLine(c: Client, calls: nat, a: string, b: string, f: Framing)
    requires HasLine(a) && |a| <= c.lineRoom && calls > 0
    requires FirstLine(a) != "" && IsHeaderLine(FirstLine(a))
    ensures Headers(c, calls, a + b, f) ==
            Line(FirstLine(a), if WithHeader(f, FirstLine(a)).None? then Stop(InvalidResponse)
                               else Headers(c, calls - 1, AfterLine(a) + b, WithHeader(f, FirstLine(a)).value))
  {
    hide IsHeaderLine, WithHeader, LineEnd;
    LineInBuffer(a, b, c.lineRoom);
  }

  /** khc_state_resp_header_callback, with no whole line in the buffer. */
  lemma HeaderIncomplete(c: Client, v: View, w: World)
    requires Kept(ValidView(c, v)).whole && v.state == RespHeaderCallback && !HasLine(v.inHeader)
    ensures Kept(IsStep(c, v, w, if |v.inHeader| < c.lineRoom then v.(state := RespHeaderRead)
                                 else if IsHeaderStart(v.inHeader) then v.(state := RespHeaderSkip)
                                 else Stopped(v, InvalidResponse), w)).whole
  {
    hide LineEnd, IsHeaderLine, WithHeader, AfterHeaders, PlainBody, Chunks, ChunkData, ChunkEnd, Trailers;
    if |v.inHeader| == c.lineRoom {
      NoRoomForLine(v.inHeader, w.incoming, c.lineRoom);
    }
  }

  /** With a line that isn't a header. */
  lemma HeaderInvalid(c: Client, v: View, w: World)
    requires Kept(ValidView(c, v)).whole && v.state == RespHeaderCallback && v.given && HasLine(v.inHeader)
    requires FirstLine(v.inHeader) != "" && !IsHeaderLine(FirstLine(v.inHeader))
    ensures Kept(IsStep(c, v, w, Stopped(v, InvalidResponse), w)).whole
  {
    hide LineEnd;
    LineInBuffer(v.inHeader, w.incoming, c.lineRoom);
  }

  /** What a status line is, and isn't. */
  lemma StatusLineNotEmpty(c: Client, v: View)
    requires Kept(ValidView(c, v)).whole && v.state == RespHeaderCallback
    ensures HasLine(v.inHeader) && FirstLine(v.inHeader) == "" ==> v.given
  {
    hide LineEnd;
  }

  lemma StatusFramesNothing(c: Client, v: View)
    requires Kept(ValidView(c, v)).whole && v.state == RespHeaderCallback && !v.given
    ensures WithHeader(v.framing, FirstLine(v.inHeader)) == Some(v.framing)
  {
    hide CodingOf, LengthOf, LineEnd;
    StatusLineFramesNothing(FirstLine(v.inHeader));
  }

  lemma LineFound(s: string)
    ensures HasLine(s) <==> LineEnd(s) < |s|
  {
    hide LineEnd;
  }

  /** With a header, or the status line, which the callback refuses. */
  lemma HeaderRefused(c: Client, v: View, w: World)
    requires Kept(ValidView(c, v)).whole && v.state == RespHeaderCallback && HasLine(v.inHeader) && w.calls == 0
    requires v.given ==> FirstLine(v.inHeader) != "" && IsHeaderLine(FirstLine(v.inHeader))
    ensures Kept(IsStep(c, v, w, Stopped(v, HeaderCallback), LineHanded(w, FirstLine(v.inHeader)))).whole
  {
    hide LineEnd;
    var line := FirstLine(v.inHeader);
    LineInBuffer(v.inHeader, w.incoming, c.lineRoom);
    LineGiven(w, line, 0, Stop(HeaderCallback));
  }

  /** With a header the callback takes. */
  lemma HeaderTaken(c: Client, v: View, w: World)
    requires Kept(ValidView(c, v)).whole && v.state == RespHeaderCallback && v.given && HasLine(v.inHeader) && w.calls > 0
    requires FirstLine(v.inHeader) != "" && IsHeaderLine(FirstLine(v.inHeader))
    ensures var line := FirstLine(v.inHeader);
            var next := WithHeader(v.framing, line);
            Kept(IsStep(c, v, w, if next.None? then Stopped(v, InvalidResponse)
                                 else v.(framing := next.value, inHeader := AfterLine(v.inHeader)), LineHanded(w, line))).whole
  {
    hide IsHeaderLine, WithHeader, FirstLine, AfterLine, Response, Headers, LineEnd;
    var line := FirstLine(v.inHeader);
    var next := WithHeader(v.framing, line);
    HeadersOnLine(c, w.calls, v.inHeader, w.incoming, v.framing);
    LineGiven(w, line, w.calls - 1,
              if next.None? then Stop(InvalidResponse)
              else Headers(c, w.calls - 1, AfterLine(v.inHeader) + w.incoming, next.value));
  }

  lemma StatusOnLine(c: Client, calls: nat, a: string, b: string)
    requires HasLine(a) && |a| <= c.lineRoom && IsStatusLine(FirstLine(a)) && calls > 0
    ensures Response(c, calls, a + b) == Line(FirstLine(a), Headers(c, calls - 1, AfterLine(a) + b, NoHeaders(FirstLine(a))))
    ensures |AfterLine(a)| < |a|
  {
    hide Headers, LineEnd, IsStatusLine, NoHeaders;
    LineInBuffer(a, b, c.lineRoom);
  }

  /** With the status line, which the callback takes. */
  lemma StatusTaken(c: Client, v: View, w: World)
    requires Kept(ValidView(c, v)).whole && v.state == RespHeaderCallback && !v.given && w.calls > 0
    ensures Kept(IsStep(c, v, w, v.(given := true, inHeader := AfterLine(v.inHeader)), LineHanded(w, FirstLine(v.inHeader)))).whole
  {
    hide IsStatusLine, NoHeaders, FirstLine, AfterLine, Response, Headers, LineEnd;
    StatusOnLine(c, w.calls, v.inHeader, w.incoming);
    LineGiven(w, FirstLine(v.inHeader), w.calls - 1, Headers(c, w.calls - 1, AfterLine(v.inHeader) + w.incoming, v.framing));
  }

  /** Where the empty line after the headers leads. */
  function AfterEmptyLine(c: Client, v: View): View {
    var f := v.framing;
    if 100 <= f.status < 200 then v.(state := if HasLine(v.inHeader) then RespStatusParse else RespStatusRead)
    else if c.isHead || f.status == 204 || f.status == 304 then v.(state := Close)
    else if f.chunked && (f.length.Some? || f.isHttp10) then Stopped(v, InvalidResponse)
    else if f.chunked then v.(inStream := "", state := RespBodyParseChunkSize)
    else v.(state := RespBodyFragment)
  }

  lemma AfterEmptyLineRest(c: Client, v: View, w: World)
    requires v.result == Ok && v.received == 0
    ensures Rest(c, AfterEmptyLine(c, v), w) == AfterHeaders(c, w.calls, v.inHeader + w.incoming, v.framing)
  {
    hide Response, Headers, Chunks, PlainBody, HasLine, LineEnd;
    assert "" + (v.inHeader + w.incoming) == v.inHeader + w.incoming;
  }

  lemma AfterEmptyLineValid(c: Client, v: View, w: World)
    requires 1 <= c.lineRoom && 1 <= c.chunkLineRoom && |v.inHeader| < c.lineRoom && |v.inStream| <= c.chunkLineRoom && v.received == 0
    requires v.state == RespHeaderCallback
    ensures ValidView(c, AfterEmptyLine(c, v))
    ensures Measure(AfterEmptyLine(c, v), w).stage <= 2 && Measure(AfterEmptyLine(c, v), w).waits == w.waits
    ensures Measure(AfterEmptyLine(c, v), w).todo <= |v.inHeader + w.incoming|
  {
    hide HasLine, LineEnd;
    assert "" + (v.inHeader + w.incoming) == v.inHeader + w.incoming;
  }

  /** With the empty line. */
  lemma HeadersEnd(c: Client, v: View, w: World)
    requires Kept(ValidView(c, v)).whole && v.state == RespHeaderCallback && v.given && HasLine(v.inHeader) && v.result == Ok
    requires FirstLine(v.inHeader) == ""
    ensures Kept(IsStep(c, v, w, AfterEmptyLine(c, v.(inHeader := AfterLine(v.inHeader))), w)).whole
  {
    hide FirstLine, AfterLine, AfterHeaders, AfterEmptyLine, LineEnd;
    LineInBuffer(v.inHeader, w.incoming, c.lineRoom);
    var v1 := v.(inHeader := AfterLine(v.inHeader));
    AfterEmptyLineRest(c, v1, w);
    AfterEmptyLineValid(c, v1, w);
  }

  lemma HeaderRoom(c: Client, v: View)
    requires Kept(ValidView(c, v)).whole && v.state == RespHeaderRead
    ensures !HasLine(v.inHeader) && |v.inHeader| < c.lineRoom
  {
    hide LineEnd;
  }

  /** khc_state_resp_header_read, with n bytes read. */
  lemma HeaderRead(c: Client, v: View, w: World, n: nat)
    requires Kept(ValidView(c, v)).whole && v.state == RespHeaderRead && 0 < n <= |w.incoming| && |v.inHeader| + n <= c.lineRoom
    ensures Kept(IsStep(c, v, w, v.(inHeader := v.inHeader + w.incoming[..n], state := RespHeaderCallback), Took(w, n))).whole
  {
    hide LineEnd;
    TookKeeps(v.inHeader, w, n);
  }

  lemma HeaderEnd(c: Client, v: View, w: World)
    requires Kept(ValidView(c, v)).whole && v.state == RespHeaderRead && w.incoming == ""
    ensures Kept(IsStep(c, v, w, Stopped(v, SockRecv), w)).whole
  {
    hide LineEnd;
    NoMoreLine(v.inHeader, c.lineRoom);
  }

  // ---------- A body of a length, or up to the end ----------

  /** _resp_body_part(): how much of what was read is body. */
  function BodyPart(v: View, read: nat): nat {
    if v.framing.length.None? || read < LengthLeft(v).value then read else LengthLeft(v).value
  }

  /** _resp_body_complete() */
  predicate BodyComplete(v: View) {
    v.framing.length.Some? && v.received >= v.framing.length.value
  }

  /** The first n bytes of what a buffer has of the body are given. */
  lemma PlainPartGiven(c: Client, w: World, length: Option<nat>, have: string, n: nat)
    requires n <= |have| && (length.Some? ==> n <= length.value) && (n == |have| || (length.Some? && n == length.value))
    ensures var left := if length.None? then None else Some(length.value - n);
            && (n == |have| ==> Responding(w, PlainBody(c, length, have + w.incoming)) == Responding(Written(w, have[..n]), PlainBody(c, left, w.incoming)))
            && (length == Some(n) ==> Responding(w, PlainBody(c, length, have + w.incoming)) == Responding(Written(w, have[..n]), Stop(Ok)))
  {
    hide LineEnd;
    var s := have + w.incoming;
    var left := if length.None? then None else Some(length.value - n);
    PlainBodyStep(c, length, s, n);
    assert s[..n] == have[..n];
    BodyGiven(w, s[..n], PlainBody(c, left, s[n..]));
    assert n == |have| ==> s[n..] == w.incoming;
    assert length == Some(n) ==> PlainBody(c, left, s[n..]) == Body("", Stop(Ok)) == Stop(Ok);
  }

  /** What has come of a body that isn't chunked, in the buffer it is given from. */
  function PlainPart(v: View): string {
    if v.state == RespBodyFragment then v.inHeader else v.inStream
  }

  lemma PlainDue(c: Client, v: View, w: World)
    requires Kept(ValidView(c, v)).whole && (v.state == RespBodyFragment || v.state == RespBodyCallback)
    ensures Rest(c, v, w) == PlainBody(c, LengthLeft(v), PlainPart(v) + w.incoming)
    ensures v.framing.length.Some? ==> v.received <= v.framing.length.value
  {
    hide PlainBody, LineEnd, HasLine;
  }

  /** What is left of it once so much has been given, which is a step less to make. */
  lemma PlainLeft(c: Client, v: View, w: World, received: nat, part: string)
    requires Kept(ValidView(c, v)).whole && (v.state == RespBodyFragment || v.state == RespBodyCallback) && v.result == Ok
    ensures var v1, w' := v.(received := received), Written(w, part);
            var v' := v1.(state := if BodyComplete(v1) then Close else RespBodyRead);
            && ValidView(c, v') && Less(Measure(v', w'), Measure(v, w))
            && Rest(c, v', w') == if BodyComplete(v1) then Stop(Ok) else PlainBody(c, LengthLeft(v1), w.incoming)
  {
    hide PlainBody, LineEnd, HasLine;
  }

  /** khc_state_resp_body_fragment and khc_state_resp_body_callback, with the body's part given. */
  lemma PlainStep(c: Client, v: View, w: World)
    requires Kept(ValidView(c, v)).whole && (v.state == RespBodyFragment || v.state == RespBodyCallback) && v.result == Ok
    ensures var n := BodyPart(v, |PlainPart(v)|);
            var v1 := v.(received := v.received + n);
            Kept(IsStep(c, v, w, v1.(state := if BodyComplete(v1) then Close else RespBodyRead), Written(w, PlainPart(v)[..n]))).whole
  {
    hide PlainBody, Responding, ValidView, Rest, Measure, Less, PlainPart, LineEnd;
    var have := PlainPart(v);
    var n := BodyPart(v, |have|);
    PlainDue(c, v, w);
    PlainPartGiven(c, w, LengthLeft(v), have, n);
    PlainLeft(c, v, w, v.received + n, have[..n]);
  }

  /** khc_state_resp_body_read, with n bytes read. */
  lemma BodyRead(c: Client, v: View, w: World, n: nat)
    requires Kept(ValidView(c, v)).whole && v.state == RespBodyRead && 0 < n <= |w.incoming| && n <= c.chunkLineRoom
    ensures Kept(IsStep(c, v, w, v.(inStream := w.incoming[..n], state := RespBodyCallback), Took(w, n))).whole
  {
    hide LineEnd;
    assert w.incoming[..n] + w.incoming[n..] == w.incoming;
  }

  lemma ShortOfLength(c: Client, v: View)
    requires Kept(ValidView(c, v)).whole && v.state == RespBodyRead
    ensures v.framing.length.Some? ==> v.received < v.framing.length.value
  {
    hide LineEnd;
  }

  lemma BodyEndOver(c: Client, v: View, w: World, inStream: string)
    requires Kept(ValidView(c, v)).whole && v.state == RespBodyRead && w.incoming == "" && v.result == Ok && |inStream| <= c.chunkLineRoom
    ensures Kept(IsStep(c, v, w, Stopped(v.(inStream := inStream), if c.lost || v.framing.length.Some? then SockRecv else Ok), w)).whole
  {
    hide LineEnd;
  }

  // ---------- Chunks ----------

  /** With a size line read, and taken off. */
  function SizeLineGone(v: View, size: nat): View
    requires HasLine(v.inStream)
  {
    var v1 := v.(inStream := AfterLine(v.inStream), chunkLeft := size);
    if size > 0 then v1.(state := RespBodyParseChunkBody) else v1.(matched := 2, state := RespBodySkipTrailers)
  }

  /** khc_state_resp_body_parse_chunk_size, with a whole line. */
  lemma ChunkSizeParsed(c: Client, v: View, w: World)
    requires Kept(ValidView(c, v)).whole && v.state == RespBodyParseChunkSize && HasLine(v.inStream)
    ensures var size := ChunkSizeOf(FirstLine(v.inStream));
            Kept(IsStep(c, v, w, if size.None? then Stopped(v, InvalidResponse) else SizeLineGone(v, size.value), w)).whole
  {
    hide FirstLine, AfterLine, Trailers, ChunkData, ChunkSizeOf, Chunks, LineEnd;
    ChunksOnLine(c, v.inStream, v.inHeader + w.incoming);
    SizeLineRoom(v.inStream);
    assert EMPTY_LINE[..2] == "\r\n";
  }

  /** A size line whole in the buffer. */
  lemma ChunksOnLine(c: Client, a: string, b: string)
    requires HasLine(a) && |a| <= c.chunkLineRoom
    ensures Chunks(c, a + b) ==
            match ChunkSizeOf(FirstLine(a))
            case None => Stop(InvalidResponse)
            case Some(n) => if n == 0 then Trailers(c, "\r\n", AfterLine(a) + b) else ChunkData(c, n, AfterLine(a) + b)
  {
    hide Trailers, ChunkData, ChunkSizeOf, LineEnd;
    LineInBuffer(a, b, c.chunkLineRoom);
  }

  /** A size line has a digit, so it takes three bytes. */
  lemma SizeLineRoom(s: string)
    requires HasLine(s)
    ensures ChunkSizeOf(FirstLine(s)).Some? ==> |s| >= 3
  {
    hide LineEnd;
    var size := ChunkSizeOf(FirstLine(s));
    assert size.Some? ==> IsChunkSizeLine(FirstLine(s), size.value);
  }

  /** With none yet. */
  lemma ChunkSizeIncomplete(c: Client, v: View, w: World)
    requires Kept(ValidView(c, v)).whole && v.state == RespBodyParseChunkSize && !HasLine(v.inStream)
    ensures Kept(IsStep(c, v, w, v.(state := if v.inHeader != "" then ReadChunkSizeFromHeaderBuff else RespBodyReadChunkSize), w)).whole
  {
    hide LineEnd;
  }

  /** No room for the rest of a size line. */
  lemma ChunkSizeTooLong(c: Client, v: View, w: World)
    requires Kept(ValidView(c, v)).whole && v.state in {ReadChunkSizeFromHeaderBuff, RespBodyReadChunkSize} && |v.inStream| == c.chunkLineRoom
    ensures Kept(IsStep(c, v, w, Stopped(v, TooLargeData), w)).whole
  {
    hide LineEnd;
    NoRoomForLine(v.inStream, v.inHeader + w.incoming, c.chunkLineRoom);
  }

  /** _move_resp_header_to_stream(), of n bytes. */
  function Moved(v: View, n: nat): View
    requires n <= |v.inHeader|
  {
    v.(inStream := v.inStream + v.inHeader[..n], inHeader := v.inHeader[n..])
  }

  lemma MovedKeeps(v: View, w: World, n: nat)
    requires n <= |v.inHeader|
    ensures Moved(v, n).inStream + (Moved(v, n).inHeader + w.incoming) == v.inStream + (v.inHeader + w.incoming)
  {
    hide LineEnd;
  }

  lemma SomethingInHeader(c: Client, v: View)
    requires Kept(ValidView(c, v)).whole
    ensures v.state == ReadChunkSizeFromHeaderBuff || v.state == ReadChunkBodyFromHeaderBuff ==> v.inHeader != ""
    ensures v.state == ReadChunkBodyFromHeaderBuff ==> v.inStream == ""
  {
    hide LineEnd;
  }

  lemma ChunkSizeMoved(c: Client, v: View, w: World, n: nat)
    requires Kept(ValidView(c, v)).whole && v.state == ReadChunkSizeFromHeaderBuff
    requires 0 < n <= |v.inHeader| && |v.inStream| + n <= c.chunkLineRoom
    ensures Kept(IsStep(c, v, w, Moved(v, n).(state := RespBodyParseChunkSize), w)).whole
  {
    hide LineEnd;
    MovedKeeps(v, w, n);
  }

  /** khc_state_resp_body_read_chunk_size, with n bytes read. */
  lemma ChunkSizeRead(c: Client, v: View, w: World, n: nat)
    requires Kept(ValidView(c, v)).whole && v.state == RespBodyReadChunkSize && 0 < n <= |w.incoming| && |v.inStream| + n <= c.chunkLineRoom
    ensures Kept(IsStep(c, v, w, v.(inStream := v.inStream + w.incoming[..n], state := RespBodyParseChunkSize), Took(w, n))).whole
  {
    hide LineEnd;
    TookKeeps(v.inStream, w, n);
    assert "" + w.incoming == w.incoming && "" + w.incoming[n..] == w.incoming[n..];
  }

  lemma ChunkSizeEnd(c: Client, v: View, w: World)
    requires Kept(ValidView(c, v)).whole && v.state == RespBodyReadChunkSize && w.incoming == "" && |v.inStream| < c.chunkLineRoom
    ensures Kept(IsStep(c, v, w, Stopped(v, SockRecv), w)).whole
  {
    hide LineEnd;
    assert ToRead(v, w) == v.inStream;
    NoMoreLine(v.inStream, c.chunkLineRoom);
  }

  /** Part of a chunk's data is given. */
  lemma ChunkPartGiven(c: Client, w: World, left: nat, have: string, rest: string)
    requires |have| <= left
    ensures Responding(w, ChunkData(c, left, have + rest)) == Responding(Written(w, have), ChunkData(c, left - |have|, rest))
  {
    hide ChunkData, LineEnd;
    var s := have + rest;
    ChunkDataStep(c, left, s, |have|);
    assert s[..|have|] == have && s[|have|..] == rest;
    BodyGiven(w, have, ChunkData(c, left - |have|, rest));
  }

  /** khc_state_resp_body_parse_chunk_body, with part of what is left of a chunk's data. */
  lemma ChunkBodyPart(c: Client, v: View, w: World)
    requires Kept(ValidView(c, v)).whole && v.state == RespBodyParseChunkBody && v.chunkLeft > |v.inStream|
    ensures var v1 := v.(chunkLeft := v.chunkLeft - |v.inStream|, received := v.received + |v.inStream|);
            Kept(IsStep(c, v, w, if v.inHeader != "" then v1.(inStream := "", state := ReadChunkBodyFromHeaderBuff)
                                 else v1.(state := RespBodyReadChunkBody), Written(w, v.inStream[..|v.inStream|]))).whole
  {
    hide ChunkData, Responding, LineEnd;
    var rest := v.inHeader + w.incoming;
    ChunkPartGiven(c, w, v.chunkLeft, v.inStream, rest);
    assert v.inStream[..|v.inStream|] == v.inStream;
    assert "" + rest == rest;
    assert v.inHeader == "" ==> rest == w.incoming;
  }

  /** With all of it. */
  lemma ChunkBodyWhole(c: Client, v: View, w: World)
    requires Kept(ValidView(c, v)).whole && v.state == RespBodyParseChunkBody && v.chunkLeft <= |v.inStream|
    ensures var n := v.chunkLeft;
            Kept(IsStep(c, v, w, v.(chunkLeft := 0, received := v.received + n, inStream := v.inStream[n..], state := RespBodySkipChunkBodyCrlf),
                        Written(w, v.inStream[..n]))).whole
  {
    hide ChunkEnd, LineEnd;
    var n := v.chunkLeft;
    var s, rest := v.inStream + (v.inHeader + w.incoming), v.inStream[n..] + (v.inHeader + w.incoming);
    assert s[..n] == v.inStream[..n] && s[n..] == rest;
    BodyGiven(w, s[..n], ChunkEnd(c, rest));
  }

  /** How much of a chunk's data is in the stream buffer, and what is left once that is given. */
  function ChunkDataHere(v: View): nat {
    if v.chunkLeft > |v.inStream| then |v.inStream| else v.chunkLeft
  }

  function ChunkDataGone(v: View): View {
    var n := ChunkDataHere(v);
    var v1 := v.(chunkLeft := v.chunkLeft - n, received := v.received + n);
    if v.chunkLeft <= |v.inStream| then v1.(inStream := v.inStream[n..], state := RespBodySkipChunkBodyCrlf)
    else if v.inHeader != "" then v1.(inStream := "", state := ReadChunkBodyFromHeaderBuff)
    else v1.(state := RespBodyReadChunkBody)
  }

  lemma ChunkBodyGiven(c: Client, v: View, w: World)
    requires Kept(ValidView(c, v)).whole && v.state == RespBodyParseChunkBody
    ensures Kept(IsStep(c, v, w, ChunkDataGone(v), Written(w, v.inStream[..ChunkDataHere(v)]))).whole
  {
    hide IsStep, ValidView, LineEnd;
    if v.chunkLeft > |v.inStream| {
      ChunkBodyPart(c, v, w);
    } else {
      ChunkBodyWhole(c, v, w);
    }
  }

  lemma ChunkBodyMoved(c: Client, v: View, w: World, n: nat)
    requires Kept(ValidView(c, v)).whole && v.state == ReadChunkBodyFromHeaderBuff && 0 < n <= |v.inHeader| && n <= c.chunkLineRoom
    ensures Kept(IsStep(c, v, w, Moved(v, n).(state := RespBodyParseChunkBody), w)).whole
  {
    hide LineEnd;
    MovedKeeps(v, w, n);
  }

  /** khc_state_resp_body_read_chunk_body, with n bytes read. */
  lemma ChunkBodyRead(c: Client, v: View, w: World, n: nat)
    requires Kept(ValidView(c, v)).whole && v.state == RespBodyReadChunkBody && 0 < n <= |w.incoming| && n <= c.chunkLineRoom
    ensures Kept(IsStep(c, v, w, v.(inStream := w.incoming[..n], state := RespBodyParseChunkBody), Took(w, n))).whole
  {
    hide LineEnd;
    assert "" + w.incoming[n..] == w.incoming[n..];
    assert w.incoming[..n] + w.incoming[n..] == w.incoming;
  }

  lemma ChunkBodyEndOver(c: Client, v: View, w: World, inStream: string)
    requires Kept(ValidView(c, v)).whole && v.state == RespBodyReadChunkBody && w.incoming == "" && |inStream| <= c.chunkLineRoom
    ensures Kept(IsStep(c, v, w, Stopped(v.(inStream := inStream), SockRecv), w)).whole
  {
    hide LineEnd;
  }

  // ---------- The CRLF after a chunk's data ----------

  lemma RoomForCrlf(c: Client, v: View)
    requires Kept(ValidView(c, v)).whole && v.state == RespBodySkipChunkBodyCrlf
    ensures c.chunkLineRoom >= 3
  {
    hide LineEnd;
  }

  /** khc_state_resp_body_skip_chunk_body_crlf, with something else. */
  lemma ChunkEndInvalid(c: Client, v: View, w: World)
    requires Kept(ValidView(c, v)).whole && v.state == RespBodySkipChunkBodyCrlf
    requires (|v.inStream| > 0 && v.inStream[0] != CR) || (|v.inStream| > 1 && v.inStream[1] != LF)
    ensures Kept(IsStep(c, v, w, Stopped(v, InvalidResponse), w)).whole
  {
    hide LineEnd;
  }

  lemma ChunkEndMoved(c: Client, v: View, w: World, n: nat)
    requires Kept(ValidView(c, v)).whole && v.state == RespBodySkipChunkBodyCrlf
    requires 0 < n <= |v.inHeader| && |v.inStream| + n <= c.chunkLineRoom
    ensures Kept(IsStep(c, v, w, Moved(v, n), w)).whole
  {
    hide LineEnd;
    MovedKeeps(v, w, n);
  }

  const CRLF: string := "\r\n"

  /** Bytes after the start of a CRLF go on with it, or don't. */
  lemma CrlfParts(have: string, got: string)
    requires |have| < 2 && (|have| > 0 ==> have[0] == CR) && got != "" && |have| + |got| <= 2
    ensures got == CRLF[|have|..|have| + |got|] ==> have + got == CRLF[..|have| + |got|]
    ensures got != CRLF[|have|..|have| + |got|] ==> var s := have + got; s[0] != CR || (|s| > 1 && s[1] != LF)
  {
    hide LineEnd;
    assert have == CRLF[..|have|];
    assert CRLF[..|have| + |got|] == CRLF[..|have|] + CRLF[|have|..|have| + |got|];
    var s := have + got;
    assert s[|have|..] == got;
    assert s[0] == CR && (|s| > 1 ==> s[1] == LF) ==> s == CRLF[..|s|];
  }

  /** With bytes read from the socket, which aren't the rest of it. */
  lemma ChunkEndReadInvalid(c: Client, v: View, w: World, n: nat)
    requires Kept(ValidView(c, v)).whole && v.state == RespBodySkipChunkBodyCrlf && v.inHeader == ""
    requires |v.inStream| < 2 && (|v.inStream| > 0 ==> v.inStream[0] == CR)
    requires 0 < n <= |w.incoming| && |v.inStream| + n <= 2
    requires w.incoming[..n] != CRLF[|v.inStream|..|v.inStream| + n]
    ensures Kept(IsStep(c, v, w, Stopped(v, InvalidResponse), Took(w, n))).whole
  {
    hide ChunkEnd, LineEnd;
    CrlfParts(v.inStream, w.incoming[..n]);
    SplitAfterCrlf(v, w, n);
    ChunkEndOf(c, v.inStream + w.incoming[..n], w.incoming[n..]);
  }

  /** With its CR. */
  lemma ChunkEndReadCr(c: Client, v: View, w: World)
    requires Kept(ValidView(c, v)).whole && v.state == RespBodySkipChunkBodyCrlf && v.inHeader == "" && v.inStream == ""
    requires |w.incoming| > 0 && w.incoming[..1] == CRLF[0..1]
    ensures Kept(IsStep(c, v, w, v.(inStream := "\r"), Took(w, 1))).whole
  {
    hide ChunkEnd, LineEnd;
    assert "\r" + ("" + w.incoming[1..]) == "" + ("" + w.incoming);
  }

  /** With all of it, or its LF. */
  lemma ChunkEndReadAll(c: Client, v: View, w: World, n: nat)
    requires Kept(ValidView(c, v)).whole && v.state == RespBodySkipChunkBodyCrlf && v.inHeader == ""
    requires |v.inStream| < 2 && (|v.inStream| > 0 ==> v.inStream[0] == CR)
    requires 0 < n <= |w.incoming| && |v.inStream| + n == 2
    requires w.incoming[..n] == CRLF[|v.inStream|..|v.inStream| + n]
    ensures Kept(IsStep(c, v, w, v.(inStream := "", state := RespBodyParseChunkSize), Took(w, n))).whole
  {
    hide ChunkEnd, Chunks, LineEnd;
    CrlfParts(v.inStream, w.incoming[..n]);
    SplitAfterCrlf(v, w, n);
    ChunkEndOf(c, v.inStream + w.incoming[..n], w.incoming[n..]);
  }

  /** What bytes of the CRLF lead to: it, or its CR, or no CRLF. */
  function CrlfTaken(v: View, part: string): View
    requires |v.inStream| + |part| <= 2
  {
    if part != CRLF[|v.inStream|..|v.inStream| + |part|] then Stopped(v, InvalidResponse)
    else if |v.inStream| + |part| < 2 then v.(inStream := "\r")
    else v.(inStream := "", state := RespBodyParseChunkSize)
  }

  lemma ChunkEndRead(c: Client, v: View, w: World, n: nat)
    requires Kept(ValidView(c, v)).whole && v.state == RespBodySkipChunkBodyCrlf && v.inHeader == ""
    requires |v.inStream| < 2 && (|v.inStream| > 0 ==> v.inStream[0] == CR)
    requires 0 < n <= |w.incoming| && |v.inStream| + n <= 2
    ensures Kept(IsStep(c, v, w, CrlfTaken(v, w.incoming[..n]), Took(w, n))).whole
  {
    hide IsStep, ValidView;
    if w.incoming[..n] != CRLF[|v.inStream|..|v.inStream| + n] {
      ChunkEndReadInvalid(c, v, w, n);
    } else if |v.inStream| + n < 2 {
      ChunkEndReadCr(c, v, w);
    } else {
      ChunkEndReadAll(c, v, w, n);
    }
  }

  lemma SplitAfterCrlf(v: View, w: World, n: nat)
    requires v.inHeader == "" && n <= |w.incoming|
    ensures v.inStream + (v.inHeader + w.incoming) == v.inStream + w.incoming[..n] + w.incoming[n..]
    ensures "" + (v.inHeader + w.incoming[n..]) == w.incoming[n..]
    ensures CRLF[..2] == CRLF
  {
    assert v.inHeader + w.incoming == w.incoming == w.incoming[..n] + w.incoming[n..];
  }

  lemma ChunkEndOf(c: Client, start: string, rest: string)
    requires 0 < |start| <= 2
    ensures start[0] != CR || (|start| > 1 && start[1] != LF) ==> ChunkEnd(c, start + rest) == Stop(InvalidResponse)
    ensures start == CRLF ==> ChunkEnd(c, start + rest) == Chunks(c, rest)
  {
    hide LineEnd;
    CrlfRead(c, start, rest);
  }

  lemma CrlfRead(c: Client, crlf: string, rest: string)
    ensures crlf == "\r\n" ==> ChunkEnd(c, crlf + rest) == Chunks(c, rest)
  {
    hide Chunks, LineEnd;
    if crlf == "\r\n" {
      var s := crlf + rest;
      assert s[0] == CR && s[1] == LF && s[2..] == rest;
    }
  }

  lemma ChunkEndEnd(c: Client, v: View, w: World)
    requires Kept(ValidView(c, v)).whole && v.state == RespBodySkipChunkBodyCrlf && v.inHeader == "" && w.incoming == ""
    requires |v.inStream| < 2 && (|v.inStream| > 0 ==> v.inStream[0] == CR)
    ensures Kept(IsStep(c, v, w, Stopped(v, SockRecv), w)).whole
  {
    hide LineEnd;
  }

  /** With it in the buffer. */
  lemma ChunkEndSkipped(c: Client, v: View, w: World)
    requires Kept(ValidView(c, v)).whole && v.state == RespBodySkipChunkBodyCrlf
    requires |v.inStream| >= 2 && v.inStream[0] == CR && v.inStream[1] == LF
    ensures Kept(IsStep(c, v, w, v.(inStream := v.inStream[2..], state := RespBodyParseChunkSize), w)).whole
  {
    hide LineEnd;
    assert (v.inStream + (v.inHeader + w.incoming))[2..] == v.inStream[2..] + (v.inHeader + w.incoming);
  }

  // ---------- The trailers ----------

  /** The matcher over a span: how much of the empty line ends it, or 4 once it has it. */
  function MatchedAll(m: nat, s: string): (r: nat)
    requires m <= 4
    ensures r <= 4
    decreases |s|
  {
    if m == 4 || s == "" then m else MatchedAll(Matched(m, s[0]), s[1..])
  }

  lemma {:induction false} MatchedAllKeeps(m: nat, s: string, t: string)
    requires m <= 4
    ensures HasEmptyLine(EMPTY_LINE[..m] + (s + t)) <==> HasEmptyLine(EMPTY_LINE[..MatchedAll(m, s)] + t)
    decreases |s|
  {
    hide LineEnd;
    if m == 4 {
      MatchEnd(s + t);
      MatchEnd(t);
    } else if s == "" {
      assert s + t == t;
    } else {
      assert s + t == [s[0]] + (s[1..] + t);
      MatchStep(m, s[0], s[1..] + t);
      MatchedAllKeeps(Matched(m, s[0]), s[1..], t);
    }
  }

  lemma NotEmptyLineYet(m: nat)
    requires m < 4
    ensures !HasEmptyLine(EMPTY_LINE[..m] + "")
  {
    hide LineEnd;
  }

  /** khc_state_resp_body_skip_trailers, with what both buffers hold. */
  function AfterBuffers(v: View): nat
    requires v.matched <= 4
  {
    MatchedAll(MatchedAll(v.matched, v.inStream), v.inHeader)
  }

  lemma AfterBuffersKeeps(c: Client, v: View, w: World)
    requires Kept(ValidView(c, v)).whole && v.state == RespBodySkipTrailers
    ensures Rest(c, v, w) == Trailers(c, EMPTY_LINE[..AfterBuffers(v)], w.incoming)
    ensures AfterBuffers(v) == 4 ==> Rest(c, v, w) == Stop(Ok)
  {
    hide LineEnd;
    var m := MatchedAll(v.matched, v.inStream);
    MatchedAllKeeps(v.matched, v.inStream, v.inHeader + w.incoming);
    MatchedAllKeeps(m, v.inHeader, w.incoming);
    if AfterBuffers(v) == 4 {
      MatchEnd(w.incoming);
    }
  }

  lemma NotMatchedYet(c: Client, v: View)
    requires Kept(ValidView(c, v)).whole && v.state == RespBodySkipTrailers
    ensures v.matched < 4
  {
    hide LineEnd;
  }

  lemma MatchedStays(s: string)
    ensures MatchedAll(4, s) == 4
  {
    hide LineEnd;
  }

  /** Once it has the empty line. Where it ends, the matcher stops. */
  lemma TrailersFound(c: Client, v: View, w: World)
    requires Kept(ValidView(c, v)).whole && v.state == RespBodySkipTrailers && AfterBuffers(v) == 4 && v.result == Ok
    ensures Kept(IsStep(c, v, w, v.(state := Close, matched := 4), w)).whole
  {
    hide LineEnd;
    AfterBuffersKeeps(c, v, w);
  }

  function BuffersUsed(v: View): View
    requires v.matched <= 4
  {
    v.(matched := AfterBuffers(v), inStream := "", inHeader := "")
  }

  /** With n bytes read, of which none is for the socket not being ready. */
  lemma TrailersRead(c: Client, v: View, w: World, n: nat, waits: nat)
    requires Kept(ValidView(c, v)).whole && v.state == RespBodySkipTrailers && AfterBuffers(v) < 4
    requires n <= |w.incoming| && n <= c.chunkLineRoom && if n == 0 then waits < w.waits else waits == w.waits
    ensures Kept(IsStep(c, v, w, BuffersUsed(v).(inStream := w.incoming[..n]), Took(w, n).(waits := waits))).whole
  {
    hide LineEnd;
    AfterBuffersKeeps(c, v, w);
    assert w.incoming[..n] + ("" + w.incoming[n..]) == w.incoming;
  }

  lemma TrailersEnd(c: Client, v: View, w: World)
    requires Kept(ValidView(c, v)).whole && v.state == RespBodySkipTrailers && AfterBuffers(v) < 4 && w.incoming == "" && v.result == Ok
    ensures Kept(IsStep(c, v, w, Stopped(BuffersUsed(v), if c.lost then SockRecv else Ok), w)).whole
  {
    hide LineEnd;
    AfterBuffersKeeps(c, v, w);
    NotEmptyLineYet(AfterBuffers(v));
  }
}
