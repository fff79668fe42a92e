/** What the fields of khc stand for while it sends the request, and what a whole exchange comes to
    from any state. The lemmas here are the steps of the request's handlers, on values. */
module KhcSending {
  import opened Options
  import opened Numerals
  import opened HttpText
  import opened ResponseDecoder
  import opened HttpRequest
  import opened Exchanges
  import opened KhcStates

  /** The fields used while the request is sent: how much of a part has been, which header is next,
      how much of a body of known length is left, whether its end was read, and where in the stream
      buffer what is sent of it is. */
  datatype Sending = Sending(sentLength: nat, currentHeader: nat, bodyLeft: nat, readEnd: bool, frameStart: nat, frameSize: nat)

  /** The fields that count while the request is sent. frame is what they say is in the stream
      buffer. */
  datatype Order = Order(state: State, request: Request, out: Sending, frame: string)

  predicate IsSending(s: State) {
    match s
    case ReqLine | ReqHostHeader | ReqHeaderSend | ReqHeaderSendCrlf | ReqHeaderEnd | ReqBodySend => true
    case _ => false
  }

  predicate IsRequesting(s: State) {
    IsSending(s) || s == ReqHeader || s == ReqBodyRead
  }

  ghost predicate ValidOrder(o: Order) {
    match o.state
    case ReqHeader => o.out.sentLength == 0 && o.out.currentHeader <= |o.request.headers|
    case ReqHeaderSend | ReqHeaderSendCrlf =>
      && o.out.currentHeader < |o.request.headers| && o.request.headers[o.out.currentHeader] != ""
      && o.out.sentLength < |Part(o)|
    case ReqBodyRead => o.out.sentLength == 0 && HasBody(o.request) && (o.request.length.Some? ==> o.out.bodyLeft > 0)
    case ReqBodySend =>
      && HasBody(o.request) && o.out.sentLength < |Part(o)|
      && (o.request.length.Some? ==> (o.out.readEnd <==> o.out.bodyLeft == 0))
    case _ => IsSending(o.state) && o.out.sentLength < |Part(o)|
  }

  /** What is sent in a state. */
  function Part(o: Order): string {
    match o.state
    case ReqLine => RequestLine(o.request)
    case ReqHostHeader => HostHeader(o.request)
    case ReqHeaderSend => if o.out.currentHeader < |o.request.headers| then o.request.headers[o.out.currentHeader] else ""
    case ReqHeaderSendCrlf => CRLF
    case ReqHeaderEnd => HeadEnd(o.request)
    case ReqBodySend => o.frame
    case _ => ""
  }

  /** What is sent after that. */
  function Following(o: Order, size: nat, parts: Parts): Plan {
    match o.state
    case ReqLine => FromHostHeader(o.request, size, parts)
    case ReqHostHeader => FromHeaders(o.request, 0, size, parts)
    case ReqHeader => if o.out.currentHeader <= |o.request.headers| then FromHeaders(o.request, o.out.currentHeader, size, parts) else Nothing
    case ReqHeaderSend =>
      if o.out.currentHeader < |o.request.headers| then After(CRLF, FromHeaders(o.request, o.out.currentHeader + 1, size, parts)) else Nothing
    case ReqHeaderSendCrlf =>
      if o.out.currentHeader < |o.request.headers| then FromHeaders(o.request, o.out.currentHeader + 1, size, parts) else Nothing
    case ReqHeaderEnd => BodyOf(o.request, size, parts)
    case ReqBodyRead => BodyPlan(o.request, o.out.bodyLeft, size, parts)
    case ReqBodySend => if o.out.readEnd then Nothing else BodyPlan(o.request, o.out.bodyLeft, size, parts)
    case _ => Nothing
  }

  function Pending(o: Order, size: nat, parts: Parts): Plan {
    After(if o.out.sentLength <= |Part(o)| then Part(o)[o.out.sentLength..] else "", Following(o, size, parts))
  }

  /** How many headers are left to look at, and how many steps a state can make with nothing sent. */
  function HeadersLeft(o: Order): nat {
    match o.state
    case ReqLine | ReqHostHeader => |o.request.headers|
    case ReqHeader | ReqHeaderSend | ReqHeaderSendCrlf =>
      if o.out.currentHeader <= |o.request.headers| then |o.request.headers| - o.out.currentHeader else 0
    case _ => 0
  }

  function SendSteps(s: State): nat {
    if s == ReqHeader then 2 else if s == ReqBodyRead then 1 else 0
  }

  // ---------- The request's own steps ----------

  /** What counts while the request is sent. */
  datatype Outgoing = Outgoing(c: Client, size: nat, o: Order, w: World, result: Code)

  /** What the exchange comes to, while the request is sent and right after. */
  ghost function OutFuture(x: Outgoing): Exchange {
    if IsRequesting(x.o.state) then Requesting(x.c, x.w, Pending(x.o, x.size, x.w.parts))
    else if x.o.state == RespStatusRead then Responding(x.w, Response(x.c, x.w.calls, x.w.incoming))
    else Responding(x.w, Stop(x.result))
  }

  function OutDistance(x: Outgoing): Progress {
    if IsRequesting(x.o.state) then
      Progress(x.w.waits, 3, |Pending(x.o, x.size, x.w.parts).bytes| + HeadersLeft(x.o), 0, 0, SendSteps(x.o.state))
    else Progress(x.w.waits, 2, 0, 0, 0, 0)
  }

  ghost predicate ValidOut(x: Outgoing) {
    && x.size >= 1 && x.result == Ok && IsRequesting(x.o.state) && ValidOrder(x.o)
  }

  /** What each of the request's handlers does. */
  ghost predicate Sends(x: Outgoing, x': Outgoing) {
    && x'.c == x.c && x'.size == x.size
    && (ValidOut(x') || (x'.o.state == RespStatusRead && x'.result == Ok) || x'.o.state == Close)
    && OutFuture(x') == OutFuture(x)
    && Less(OutDistance(x'), OutDistance(x))
  }

  // ---------- Sending a part ----------

  /** The socket takes n bytes. */
  function Sent(w: World, bytes: string): World
    requires |bytes| <= w.room
  {
    w.(sent := w.sent + bytes, room := w.room - |bytes|)
  }

  function ToSend(o: Order): string {
    if o.out.sentLength <= |Part(o)| then Part(o)[o.out.sentLength..] else ""
  }

  lemma SendingIsValid(x: Outgoing)
    requires Kept(ValidOut(x)).whole && IsSending(x.o.state)
    ensures x.o.out.sentLength < |Part(x.o)|
    ensures ToSend(x.o) != "" && OutFuture(x) == Requesting(x.c, x.w, Pending(x.o, x.size, x.w.parts))
  {
    hide Part, Following, Requesting, LineEnd;
  }

  lemma SendWaits(x: Outgoing, waits: nat)
    requires Kept(ValidOut(x)).whole && IsRequesting(x.o.state) && waits < x.w.waits
    ensures Kept(Sends(x, x.(w := x.w.(waits := waits)))).whole
  {
    hide Part, Following, Response, HasBody, LineEnd;
  }

  lemma SendFails(x: Outgoing)
    requires Kept(ValidOut(x)).whole && IsSending(x.o.state) && x.w.room == 0
    ensures Kept(Sends(x, x.(o := x.o.(state := Close, frame := ""), result := SockSend))).whole
  {
    hide Part, Following, Requesting, HasBody, LineEnd;
    PlanRefused(x.c, x.w, Pending(x.o, x.size, x.w.parts));
  }

  /** Part of a part is sent. */
  lemma SentSome(x: Outgoing, n: nat)
    requires Kept(ValidOut(x)).whole && IsSending(x.o.state)
    requires 0 < n < |ToSend(x.o)| && n <= x.w.room
    ensures Kept(Sends(x, x.(o := x.o.(out := x.o.out.(sentLength := x.o.out.sentLength + n)), w := Sent(x.w, ToSend(x.o)[..n])))).whole
  {
    hide Requesting, HasBody, LineEnd, RequestLine, HostHeader, HeadEnd, BodyOf, BodyPlan, FromHeaders, FromHostHeader;
    var plan := Pending(x.o, x.size, x.w.parts);
    PlanStep(x.c, x.w, plan, n);
    assert plan.bytes[..n] == ToSend(x.o)[..n];
    assert plan.bytes[n..] == ToSend(x.o)[n..] + Following(x.o, x.size, x.w.parts).bytes;
    assert ToSend(x.o)[n..] == Part(x.o)[x.o.out.sentLength + n..];
  }

  /** All of it is: what follows is left. */
  lemma SentAll(x: Outgoing)
    requires Kept(ValidOut(x)).whole && IsSending(x.o.state) && |ToSend(x.o)| <= x.w.room
    ensures OutFuture(x) == Requesting(x.c, Sent(x.w, ToSend(x.o)), Following(x.o, x.size, x.w.parts))
  {
    hide Requesting, Part, Following, HasBody, LineEnd;
    var plan := Pending(x.o, x.size, x.w.parts);
    var n := |ToSend(x.o)|;
    PlanStep(x.c, x.w, plan, n);
    assert plan.bytes[..n] == ToSend(x.o);
    assert plan.bytes[n..] == Following(x.o, x.size, x.w.parts).bytes;
  }

  /** Where the end of a part leads, within the request. */
  function NextOrder(o: Order): Order {
    var out := o.out.(sentLength := 0);
    match o.state
    case ReqLine => o.(frame := "", state := ReqHostHeader, out := out)
    case ReqHostHeader => o.(frame := "", state := ReqHeader, out := out.(currentHeader := 0))
    case ReqHeaderSend => o.(frame := "", state := ReqHeaderSendCrlf, out := out)
    case ReqHeaderSendCrlf => o.(frame := "", state := ReqHeader, out := out.(currentHeader := o.out.currentHeader + 1))
    case ReqHeaderEnd => o.(frame := "", state := ReqBodyRead, out := out.(readEnd := false, bodyLeft := if o.request.length.Some? then o.request.length.value else 0))
    case _ => o.(frame := "", state := ReqBodyRead, out := out)
  }

  /** Whether the request goes on after a part. */
  predicate GoesOn(o: Order) {
    (o.state == ReqHeaderEnd ==> HasBody(o.request)) && (o.state == ReqBodySend ==> !o.out.readEnd)
  }

  lemma NextOrderFollows(o: Order, size: nat, parts: Parts)
    requires IsSending(o.state) && ValidOrder(o) && GoesOn(o)
    ensures ValidOrder(NextOrder(o)) && IsRequesting(NextOrder(o).state)
    ensures Pending(NextOrder(o), size, parts) == Following(o, size, parts)
    ensures HeadersLeft(NextOrder(o)) <= HeadersLeft(o)
  {
    hide RequestLine, HostHeader, HeadEnd, BodyPlan, FromHeaders, FromHeadEnd, LineEnd, CanHaveBody, After, Pending;
    var n := NextOrder(o);
    WholePart(n, size, parts);
    if o.state == ReqHostHeader || o.state == ReqHeaderSendCrlf {
      AfterTwice("", "", Following(n, size, parts));
    } else if n.state == ReqBodyRead {
      AfterTwice("", "", BodyPlan(n.request, n.out.bodyLeft, size, parts));
    }
  }

  lemma WholePart(o: Order, size: nat, parts: Parts)
    requires o.out.sentLength == 0
    ensures Pending(o, size, parts) == After(Part(o), Following(o, size, parts))
  {
    hide Part, Following;
    assert Part(o)[0..] == Part(o);
  }

  lemma PartSent(x: Outgoing)
    requires Kept(ValidOut(x)).whole && IsSending(x.o.state) && |ToSend(x.o)| <= x.w.room && GoesOn(x.o)
    ensures Kept(Sends(x, x.(o := NextOrder(x.o), w := Sent(x.w, ToSend(x.o))))).whole
  {
    hide Requesting, Part, Following, HasBody, LineEnd, GoesOn, NextOrder;
    SentAll(x);
    SendingIsValid(x);
    NextOrderFollows(x.o, x.size, x.w.parts);
  }

  /** The request is sent whole. */
  lemma RequestSent(x: Outgoing)
    requires Kept(ValidOut(x)).whole && IsSending(x.o.state) && |ToSend(x.o)| <= x.w.room && !GoesOn(x.o)
    ensures Following(x.o, x.size, x.w.parts) == Nothing
    ensures Kept(Sends(x, x.(o := x.o.(state := RespStatusRead, frame := "", out := x.o.out.(sentLength := 0)), w := Sent(x.w, ToSend(x.o))))).whole
  {
    hide Requesting, Response, HasBody, RequestLine, HostHeader, HeadEnd;
    SentAll(x);
    var w := Sent(x.w, ToSend(x.o));
    PlanDone(x.c, w, Nothing);
    assert "" + w.incoming == w.incoming;
  }

  // ---------- The headers ----------

  /** khc_state_req_header */
  function AfterHeader(o: Order): Order {
    if o.out.currentHeader >= |o.request.headers| then o.(state := ReqHeaderEnd)
    else if o.request.headers[o.out.currentHeader] == "" then o.(out := o.out.(currentHeader := o.out.currentHeader + 1))
    else o.(state := ReqHeaderSend)
  }

  lemma HeaderLinesStep(headers: seq<string>, i: nat)
    requires i < |headers|
    ensures HeaderLines(headers[i..]) == (if headers[i] == "" then "" else headers[i] + CRLF) + HeaderLines(headers[i + 1..])
  {
    assert headers[i..][1..] == headers[i + 1..];
  }

  lemma AfterTwice(a: string, b: string, plan: Plan)
    ensures After(a, After(b, plan)) == After(a + b, plan)
    ensures After("", plan) == plan
  {
  }

  lemma HeaderStepPlan(o: Order, size: nat, parts: Parts)
    requires o.state == ReqHeader && o.out.sentLength == 0 && o.out.currentHeader <= |o.request.headers|
    ensures Pending(AfterHeader(o), size, parts) == Pending(o, size, parts)
  {
    hide FromHeadEnd, HeadEnd, BodyOf, LineEnd;
    var i, headers := o.out.currentHeader, o.request.headers;
    var end := FromHeadEnd(o.request, size, parts);
    AfterTwice("", "", end);
    if i < |headers| {
      HeaderLinesStep(headers, i);
      if headers[i] != "" {
        assert headers[i][0..] == headers[i];
        AfterTwice(CRLF, HeaderLines(headers[i + 1..]), end);
        AfterTwice(headers[i], CRLF + HeaderLines(headers[i + 1..]), end);
        assert headers[i] + (CRLF + HeaderLines(headers[i + 1..])) == headers[i] + CRLF + HeaderLines(headers[i + 1..]);
      }
    } else {
      assert headers[i..] == [];
      HeadEndPlan(o.request, size, parts);
    }
  }

  lemma HeadEndPlan(r: Request, size: nat, parts: Parts)
    ensures FromHeadEnd(r, size, parts) == After(HeadEnd(r)[0..], BodyOf(r, size, parts))
  {
    assert HeadEnd(r)[0..] == HeadEnd(r);
  }

  lemma HeaderAdvances(x: Outgoing)
    requires Kept(ValidOut(x)).whole && x.o.state == ReqHeader
    ensures Kept(Sends(x, x.(o := AfterHeader(x.o)))).whole
  {
    hide Requesting, Pending, HasBody, LineEnd, HeadEnd;
    HeaderStepPlan(x.o, x.size, x.w.parts);
  }

  // ---------- The body ----------

  /** Once planned, what the callback will give no longer matters. */
  lemma PlanKeepsParts(c: Client, w: World, plan: Plan, parts: Parts)
    ensures Requesting(c, w.(parts := parts), plan) == Requesting(c, w, plan)
  {
    hide Response, LineEnd;
  }

  /** khc_state_req_body_read, of a body of known length, with data given. */
  function KnownRead(o: Order, data: string): Order {
    o.(state := ReqBodySend, frame := data,
       out := o.out.(bodyLeft := if |data| <= o.out.bodyLeft then o.out.bodyLeft - |data| else 0,
                     readEnd := |data| == o.out.bodyLeft, frameStart := 0, frameSize := |data|))
  }

  lemma KnownBodyRead(x: Outgoing, want: nat)
    requires Kept(ValidOut(x)).whole && x.o.state == ReqBodyRead && x.o.request.length.Some?
    requires 0 < want <= x.o.out.bodyLeft && Given(x.w.parts, want) != ""
    ensures var o := KnownRead(x.o, Given(x.w.parts, want));
            Kept(Sends(x, x.(o := o, w := x.w.(parts := NextParts(x.w.parts, want))))).whole
  {
    hide Requesting, HasBody, LineEnd, KnownBody, Given;
    var data := Given(x.w.parts, want);
    KnownBodyStep(x.o.out.bodyLeft, x.w.parts, want);
    KnownBodyEnds(NextParts(x.w.parts, want));
    PlanKeepsParts(x.c, x.w, Pending(x.o, x.size, x.w.parts), NextParts(x.w.parts, want));
    assert data[0..] == data;
    AfterTwice("", "", After(data, KnownBody(x.o.out.bodyLeft - |data|, NextParts(x.w.parts, want))));
  }

  lemma KnownBodyEnds(parts: Parts)
    ensures KnownBody(0, parts) == Nothing
  {
  }

  lemma KnownBodyEarly(x: Outgoing, want: nat)
    requires Kept(ValidOut(x)).whole && x.o.state == ReqBodyRead && x.o.request.length.Some?
    requires 0 < want <= x.o.out.bodyLeft && Given(x.w.parts, want) == ""
    ensures Kept(Sends(x, x.(o := x.o.(state := Close), result := ReadCallback,
                                w := x.w.(parts := NextParts(x.w.parts, want))))).whole
  {
    hide Requesting, HasBody, LineEnd, KnownBody, Given;
    KnownBodyStep(x.o.out.bodyLeft, x.w.parts, want);
    AfterTwice("", "", Plan("", Some(ReadCallback)));
    PlanDone(x.c, x.w, Plan("", Some(ReadCallback)));
  }

  lemma UnknownBodyTooLarge(x: Outgoing)
    requires Kept(ValidOut(x)).whole && x.o.state == ReqBodyRead && x.o.request.length.None?
    requires x.size <= ChunkLineRoom(x.size) + 2
    ensures Kept(Sends(x, x.(o := x.o.(state := Close), result := TooLargeData))).whole
  {
    hide Requesting, HasBody, LineEnd, ChunkLineRoom, ChunkedBody;
    AfterTwice("", "", Plan("", Some(TooLargeData)));
    PlanDone(x.c, x.w, Plan("", Some(TooLargeData)));
  }

  /** khc_state_req_body_read, of a body of unknown length, with data given: a chunk of it. */
  function ChunkTaken(o: Order, data: string, start: nat): Order {
    o.(state := ReqBodySend, frame := Chunk(data),
       out := o.out.(readEnd := data == "", frameStart := start, frameSize := |Chunk(data)|))
  }

  lemma UnknownBodyRead(x: Outgoing, room: nat, start: nat)
    requires Kept(ValidOut(x)).whole && x.o.state == ReqBodyRead && x.o.request.length.None?
    requires x.size > ChunkLineRoom(x.size) + 2 && room == x.size - ChunkLineRoom(x.size) - 2
    ensures var o := ChunkTaken(x.o, Given(x.w.parts, room), start);
            Kept(Sends(x, x.(o := o, w := x.w.(parts := NextParts(x.w.parts, room))))).whole
  {
    hide Requesting, HasBody, LineEnd, ChunkLineRoom, Given, Chunk;
    var data := Given(x.w.parts, room);
    var chunk := Chunk(data);
    assert chunk[0..] == chunk;
    assert chunk + "" == chunk;
    PlanKeepsParts(x.c, x.w, Pending(x.o, x.size, x.w.parts), NextParts(x.w.parts, room));
    AfterTwice("", "", UnknownBody(x.size, x.w.parts));
  }

  // ---------- What the handlers ask of their states ----------

  lemma HasHeader(x: Outgoing)
    requires Kept(ValidOut(x)).whole && x.o.state == ReqHeaderSend
    ensures x.o.out.currentHeader < |x.o.request.headers|
  {
  }

  lemma BodyReadValid(x: Outgoing)
    requires Kept(ValidOut(x)).whole && x.o.state == ReqBodyRead
    ensures x.o.out.sentLength == 0 && (x.o.request.length.Some? ==> x.o.out.bodyLeft > 0)
  {
  }

  lemma FrameInBuffer(x: Outgoing)
    requires Kept(ValidOut(x)).whole && x.o.state == ReqBodySend
    ensures x.o.frame != "" && Part(x.o) == x.o.frame
  {
  }

  lemma LineRoomIs(size: nat, room: nat)
    requires room == |Text(size, Hex)| + 2
    ensures room == ChunkLineRoom(size)
  {
  }

  lemma HeadEndText(r: Request, text: string)
    requires text == (if !CanHaveBody(r) then ""
                      else if !r.hasReader then "Content-Length: 0\r\n"
                      else if r.length.Some? then "Content-Length: " + Text(r.length.value, Decimal) + "\r\n"
                      else "Transfer-Encoding: chunked\r\n") + "Connection: Close\r\n\r\n"
    ensures text == HeadEnd(r)
  {
  }

  // ---------- Any state ----------

  /** Everything a khc holds that counts: its settings, its fields, and the world. */
  datatype Engine = Engine(c: Client, size: nat, reachable: bool, o: Order, v: View, w: World)

  /** What the whole exchange comes to. */
  ghost function Future(e: Engine): Exchange {
    if e.o.state == Idle then Performing(e.c, e.reachable, e.w, WholeRequest(WithFallbacks(e.o.request), e.size, e.w.parts))
    else if e.o.state == Connect then Performing(e.c, e.reachable, e.w, WholeRequest(e.o.request, e.size, e.w.parts))
    else if IsRequesting(e.o.state) then Requesting(e.c, e.w, Pending(e.o, e.size, e.w.parts))
    else Responding(e.w, Rest(e.c, e.v, e.w))
  }

  ghost predicate ValidEngine(e: Engine) {
    && 1 <= e.c.lineRoom && 1 <= e.c.chunkLineRoom && e.size == e.c.chunkLineRoom
    && e.o.state == e.v.state
    && |e.v.inHeader| <= e.c.lineRoom && |e.v.inStream| <= e.c.chunkLineRoom
    && (e.o.state == Idle || e.o.state == Connect ==> e.o.out.sentLength == 0 && e.v.received == 0)
    && (IsRequesting(e.o.state) ==> ValidOrder(e.o) && e.v.received == 0)
    && (e.o.state != Idle && e.o.state != Connect && e.o.state != Finished && !IsRequesting(e.o.state) ==> ValidView(e.c, e.v))
  }

  function Distance(e: Engine): Progress {
    if e.o.state == Idle then Progress(e.w.waits, 5, 0, 0, 0, 0)
    else if e.o.state == Connect then Progress(e.w.waits, 4, 0, 0, 0, 0)
    else if IsRequesting(e.o.state) then
      Progress(e.w.waits, 3, |Pending(e.o, e.size, e.w.parts).bytes| + HeadersLeft(e.o), 0, 0, SendSteps(e.o.state))
    else Measure(e.v, e.w)
  }

  /** What every handler does: it keeps what the exchange comes to, and gets closer to its end. */
  ghost predicate Advances(e: Engine, e': Engine) {
    && ValidEngine(e')
    && e'.c == e.c && e'.size == e.size && e'.reachable == e.reachable
    && Future(e') == Future(e)
    && Less(Distance(e'), Distance(e))
  }

  lemma StepAdvances(e: Engine, e': Engine)
    requires Kept(ValidEngine(e)).whole && e'.c == e.c && e'.size == e.size && e'.reachable == e.reachable
    requires !IsRequesting(e.o.state) && e.o.state != Idle && e.o.state != Connect && e.o.state != Finished
    requires e'.o.state == e'.v.state && Kept(IsStep(e.c, e.v, e.w, e'.v, e'.w)).whole
    ensures Kept(Advances(e, e')).whole
  {
    hide Rest, Measure, Responding, Less, HasLine, IsStatusLine, NoHeaders;
  }

  // ---------- Idle and connecting ----------

  lemma IdleAdvances(e: Engine)
    requires Kept(ValidEngine(e)).whole && e.o.state == Idle
    ensures Kept(Advances(e, e.(o := e.o.(request := WithFallbacks(e.o.request), state := Connect), v := e.v.(state := Connect)))).whole
  {
    hide Performing, WholeRequest, LineEnd;
  }

  lemma ConnectWaits(e: Engine, waits: nat)
    requires Kept(ValidEngine(e)).whole && e.o.state == Connect && waits < e.w.waits
    ensures Kept(Advances(e, e.(w := e.w.(waits := waits)))).whole
  {
    hide WholeRequest, LineEnd, Response, Part, Following;
  }

  lemma Connected(e: Engine)
    requires Kept(ValidEngine(e)).whole && e.o.state == Connect && e.reachable
    ensures Kept(Advances(e, e.(o := e.o.(state := ReqLine), v := e.v.(state := ReqLine)))).whole
  {
    hide Requesting, RequestLine, FromHostHeader, LineEnd;
    assert RequestLine(e.o.request)[0..] == RequestLine(e.o.request);
  }

  lemma NotConnected(e: Engine)
    requires Kept(ValidEngine(e)).whole && e.o.state == Connect && !e.reachable
    ensures Kept(Advances(e, e.(o := e.o.(state := Finished), v := e.v.(state := Finished, result := SockConnect)))).whole
  {
    hide WholeRequest, LineEnd;
  }

  lemma NothingSent(e: Engine)
    requires Kept(ValidEngine(e)).whole && e.o.state == Connect
    ensures e.o.out.sentLength == 0
  {
  }

  lemma OutIsRequesting(x: Outgoing)
    requires Kept(ValidOut(x)).whole
    ensures IsRequesting(x.o.state)
  {
    hide ValidOrder;
  }

  lemma EngineIsOut(e: Engine, x: Outgoing)
    requires Kept(ValidEngine(e)).whole && IsRequesting(e.o.state) && e.v.result == Ok
    requires x == Outgoing(e.c, e.size, e.o, e.w, e.v.result)
    ensures ValidOut(x) && e.v.received == 0
  {
    hide ValidOrder, LineEnd;
  }

  /** A step of the request is one of the whole. */
  lemma SendsAdvances(e: Engine, e': Engine, x: Outgoing, x': Outgoing)
    requires Kept(ValidEngine(e)).whole && Kept(Sends(x, x')).whole
    requires x == Outgoing(e.c, e.size, e.o, e.w, e.v.result) && x' == Outgoing(e'.c, e'.size, e'.o, e'.w, e'.v.result)
    requires IsRequesting(e.o.state) && e'.reachable == e.reachable && e'.o.state == e'.v.state && e'.v.received == 0
    requires |e'.v.inHeader| <= e.c.lineRoom && |e'.v.inStream| <= e.c.chunkLineRoom
    requires e'.o.state == RespStatusRead ==> e'.v.inHeader == ""
    ensures Kept(Advances(e, e')).whole && IsConnected(e'.o.state)
  {
    hide Requesting, Response, Pending, ValidOrder, LineEnd;
    assert "" + e'.w.incoming == e'.w.incoming;
    assert e'.o.state == RespStatusRead ==> !HasLine("");
  }

  // ---------- The end, and the loop ----------

  lemma CloseWaits(e: Engine, waits: nat)
    requires Kept(ValidEngine(e)).whole && e.o.state == Close && waits < e.w.waits
    ensures Kept(Advances(e, e.(w := e.w.(waits := waits)))).whole
  {
    hide LineEnd;
  }

  lemma CloseEnds(e: Engine)
    requires Kept(ValidEngine(e)).whole && e.o.state == Close
    ensures Kept(Advances(e, e.(o := e.o.(state := Finished), v := e.v.(state := Finished)))).whole
  {
    hide LineEnd;
  }

  predicate IsHead(s: State) {
    s == RespStatusRead || s == RespStatusParse || s == RespHeaderCallback || s == RespHeaderRead
  }

  predicate IsBody(s: State) {
    match s
    case RespBodyFragment | RespBodyRead | RespBodyCallback | RespBodyParseChunkSize | RespBodyReadChunkSize
      | ReadChunkSizeFromHeaderBuff | RespBodyParseChunkBody | RespBodyReadChunkBody | ReadChunkBodyFromHeaderBuff
      | RespBodySkipChunkBodyCrlf | RespBodySkipTrailers => true
    case _ => false
  }

  lemma ReadingIsValid(e: Engine)
    requires Kept(ValidEngine(e)).whole && (IsHead(e.o.state) || IsBody(e.o.state))
    ensures ValidView(e.c, e.v) && e.v.state == e.o.state
  {
    hide LineEnd;
  }

  lemma StartsValid(e: Engine)
    requires 1 <= e.c.lineRoom && 1 <= e.c.chunkLineRoom && e.size == e.c.chunkLineRoom
    requires e.o.state == e.v.state == Idle && |e.v.inHeader| <= e.c.lineRoom && |e.v.inStream| <= e.c.chunkLineRoom
    requires e.o.out.sentLength == 0 && e.v.received == 0
    ensures ValidEngine(e)
    ensures Future(e) == Performing(e.c, e.reachable, e.w, WholeRequest(WithFallbacks(e.o.request), e.size, e.w.parts))
  {
  }

  lemma AdvancesMeans(e: Engine, e': Engine)
    requires Kept(Advances(e, e')).whole
    ensures Kept(ValidEngine(e')).whole && e'.c == e.c && e'.size == e.size && e'.reachable == e.reachable
    ensures Future(e') == Future(e) && Less(Distance(e'), Distance(e))
  {
    hide ValidEngine, Future, Distance, LineEnd;
  }

  lemma Ends(e: Engine)
    requires Kept(ValidEngine(e)).whole && (e.o.state == Finished || e.o.state == RespHeaderSkip)
    ensures Future(e) == Exchange(e.w.sent, e.w.lines, e.w.body, if e.o.state == RespHeaderSkip then HeaderSkipped else e.v.result)
  {
    assert e.w.lines + [] == e.w.lines && e.w.body + "" == e.w.body;
  }

  lemma LessMeans(a: Progress, b: Progress)
    requires Less(a, b)
    ensures a.waits < b.waits || (a.waits == b.waits && (
              a.stage < b.stage || (a.stage == b.stage && (
                a.todo < b.todo || (a.todo == b.todo && (
                  a.incoming < b.incoming || (a.incoming == b.incoming && (
                    a.inHeader < b.inHeader || (a.inHeader == b.inHeader && a.step < b.step)))))))))
  {
  }

  /** From connecting to closing. */
  predicate IsConnected(s: State) {
    s != Idle && s != Connect && s != Finished
  }

  /** A step of the response doesn't finish, nor go back to connecting. */
  lemma StepStaysConnected(c: Client, v: View, w: World, v': View, w': World)
    requires Kept(IsStep(c, v, w, v', w')).whole
    ensures IsConnected(v'.state)
  {
    hide LineEnd, Rest, Measure, Less, HasLine, IsStatusLine, NoHeaders;
  }
}
