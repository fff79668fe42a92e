/** khc's engine: the struct khc, the handler of each of its states, and the loop of khc_perform(). */
module Khc {
  import opened Options
  import opened Numerals
  import opened HttpText
  import opened HttpParsing
  import opened ResponseDecoder
  import opened HttpRequest
  import opened Exchanges
  import opened KhcStates
  import opened KhcSending
  import opened KhcEnvironment

  /** The fields used while the response is read. */
  datatype Receiving = Receiving(headerReadSize: nat, bodyReadSize: nat, statusLineGiven: bool, framing: Framing,
                                 bodyReceived: nat, chunkSize: nat, chunkSizeWritten: nat, trailerEndMatched: nat, readEnd: bool)

  class Khc {
    const sock: Socket
    const app: Application
    const header: array<char>
    const stream: array<char>
    var request: Request
    var state: State
    var result: Code
    var closeFailed: bool
    var out: Sending
    var got: Receiving

    /** khc_init(), with the socket, the callbacks, the buffers and a request set. */
    constructor (sock: Socket, app: Application, header: array<char>, stream: array<char>, request: Request)
      requires header.Length >= 2 && stream.Length >= 1 && header != stream
      ensures this.sock == sock && this.app == app && this.header == header && this.stream == stream
      ensures this.request == request && IsReset()
    {
      this.sock, this.app, this.header, this.stream, this.request := sock, app, header, stream, request;
      state, result, closeFailed := Idle, Ok, false;
      out := Sending(0, 0, 0, false, 0, 0);
      got := Receiving(0, 0, false, Framing(0, false, false, None), 0, 0, 0, 0, false);
    }

    /** khc_reset_except_request() */
    method ResetExceptRequest()
      requires header.Length >= 2 && stream.Length >= 1 && header != stream
      modifies this
      ensures IsReset() && request == old(request) && out == Sending(0, 0, 0, false, 0, 0)
      ensures got == Receiving(0, 0, false, Framing(0, false, false, None), 0, 0, 0, 0, false)
    {
      state, result, closeFailed := Idle, Ok, false;
      out := Sending(0, 0, 0, false, 0, 0);
      got := Receiving(0, 0, false, Framing(0, false, false, None), 0, 0, 0, 0, false);
    }

    ghost predicate IsReset()
      reads this
    {
      Sized() && state == Idle && result == Ok && out.sentLength == 0 && got.bodyReceived == 0 && !got.readEnd && !closeFailed
    }

    /** The buffers have room for what they hold. */
    ghost predicate Sized()
      reads this
    {
      && header.Length >= 2 && stream.Length >= 1 && header != stream
      && got.headerReadSize < header.Length && got.bodyReadSize <= stream.Length
      && got.chunkSizeWritten <= got.chunkSize && got.trailerEndMatched <= 4
      && (got.readEnd ==> state == Close)
      && (result != Ok ==> state == Close || state == Finished)
    }

    /** What it reads responses with. */
    ghost function Reader(): Client
      requires Sized()
      reads this, sock`lost
    {
      Client(header.Length - 1, stream.Length, request.verb == "HEAD", sock.lost)
    }

    ghost function Now(): World
      reads sock, app
    {
      World(sock.sent, sock.room, sock.incoming, sock.waits, app.lines, app.body, app.calls, app.parts)
    }

    ghost function Reading(): View
      requires Sized()
      reads this, header, stream
    {
      View(state, header[..got.headerReadSize], stream[..got.bodyReadSize], got.statusLineGiven, got.framing, got.bodyReceived,
           got.chunkSize - got.chunkSizeWritten, got.trailerEndMatched, result)
    }

    ghost predicate ReadsFrom(s: State)
      reads this, sock, header, stream
    {
      state == s && Sized() && sock.open && Kept(ValidView(Reader(), Reading())).whole
    }

    /** What each handler of a response does. */
    twostate predicate ReadsOn()
      requires old(Sized())
      reads this, sock, app, header, stream
    {
      && Sized()
      && Kept(IsStep(old(Reader()), old(Reading()), old(Now()), Reading(), Now())).whole
      && request == old(request)
    }

    method Fail(code: Code)
      modifies `state, `result
      ensures state == Close && result == code
    {
      state, result := Close, code;
    }

    // ---------- The status line ----------

    /** khc_state_resp_status_read */
    method StateRespStatusRead()
      requires ReadsFrom(RespStatusRead)
      modifies `state, `result, `got, header, sock`incoming, sock`waits
      ensures ReadsOn()
    {
      hide IsStep, ValidView, HasLine, LineEnd, HasBody, ValidOut;
      ghost var c, v, w := Reader(), Reading(), Now();
      StatusRoom(c, v);
      var at := got.headerReadSize;
      var code, n := sock.Recv(header, at, header.Length - at - 1);
      if code.SockAgain? {
        Waited(c, v, w, sock.waits);
        assert Reading() == v && Now() == w.(waits := sock.waits);
        return;
      }
      Joined(header[..], at, n);
      if code.SockFail? {
        state, result := Close, SockRecv;
        StatusEnd(c, v, w);
        assert Reading() == Stopped(v, SockRecv) && Now() == w;
        return;
      }
      StatusHasCome(c, v, w, n);
    }

    /** The part of khc_state_resp_status_read after n bytes have come, v being what it started from. */
    method StatusHasCome(ghost c: Client, ghost v: View, ghost w: World, n: nat)
      requires Sized() && c == Reader() && Kept(ValidView(c, v)).whole && Reading() == v && v.state == RespStatusRead && result == Ok
      requires n <= |w.incoming| && got.headerReadSize + n < header.Length && Now() == Took(w, n) && (n == 0 ==> w.incoming == "")
      requires header[..got.headerReadSize + n] == v.inHeader + w.incoming[..n]
      modifies `state, `result, `got, header
      ensures Sized() && Kept(IsStep(c, v, w, Reading(), Now())).whole
    {
      hide IsStep, ValidView, LineEnd, HasLine, HasBody, ValidOut;
      StatusRoom(c, v);
      var size := got.headerReadSize + n;
      ghost var read := header[..size];
      header[size] := '\0';
      assert header[..size] == read;
      LineFound(read);
      var p := FindCrlf(header[..size]);
      if n == 0 {
        // Closed before the status line ended.
        assert read == v.inHeader;
        got := got.(headerReadSize := size, readEnd := true);
        state, result := Close, SockRecv;
        StatusEnd(c, v, w);
        assert Reading() == Stopped(v, SockRecv) && Now() == w;
        return;
      }
      StatusRead(c, v, w, n);
      got := got.(headerReadSize := size);
      ghost var v1 := v.(inHeader := read);
      assert Reading() == v1 && Now() == Took(w, n);
      if p < size {
        state := RespStatusParse;
        assert Reading() == v1.(state := RespStatusParse);
      } else if size + 1 == header.Length {
        state, result := Close, TooLargeData;
        assert Reading() == Stopped(v1, TooLargeData);
      }
    }

    /** khc_state_resp_status_parse */
    method StateRespStatusParse()
      requires ReadsFrom(RespStatusParse)
      modifies `state, `result, `got
      ensures ReadsOn()
    {
      hide IsStep, ValidView, IsStatusLine, NoHeaders, LineEnd, HasBody, ValidOut;
      ghost var c, v, w := Reader(), Reading(), Now();
      StatusParseLine(c, v);
      StatusParse(c, v, w);
      var size := got.headerReadSize;
      var p := FindCrlf(header[..size]);
      var line := header[..p];
      assert line == FirstLine(v.inHeader);
      var ok := IsStatusLineLoop(line);
      if !ok {
        state, result := Close, InvalidResponse;
        return;
      }
      // A response of its own: what framed the one before doesn't frame this one.
      got := got.(statusLineGiven := false, framing := NoHeaders(line));
      state := RespHeaderCallback;
    }

    // ---------- The headers ----------

    /** khc_state_resp_header_callback */
    method StateRespHeaderCallback()
      requires ReadsFrom(RespHeaderCallback)
      modifies `state, `result, `got, header, app`lines, app`calls
      ensures ReadsOn()
    {
      hide IsStep, ValidView, IsHeaderLine, IsHeaderStart, AfterEmptyLine, LineEnd, HasBody, ValidOut;
      ghost var c, v, w := Reader(), Reading(), Now();
      var size := got.headerReadSize;
      var p := FindCrlf(header[..size]);
      if p == size {
        HeaderIncomplete(c, v, w);
        NoLineInHeader();
        return;
      }
      var line := header[..p];
      assert line == FirstLine(v.inHeader);
      if line == "" {
        StatusLineNotEmpty(c, v);
        HeadersEnd(c, v, w);
        DropFromHeader(p + 2);
        LeaveHeaders();
        return;
      }
      if got.statusLineGiven {
        var ok := IsHeaderLineLoop(line);
        if !ok {
          state, result := Close, InvalidResponse;
          HeaderInvalid(c, v, w);
          assert Reading() == Stopped(v, InvalidResponse) && Now() == w;
          return;
        }
      }
      GiveHeader(p);
    }

    method NoLineInHeader()
      requires Sized() && state == RespHeaderCallback
      modifies `state, `result, `got
      ensures Sized() && request == old(request)
      ensures var v := old(Reading());
              Reading() == if |v.inHeader| + 1 < header.Length then v.(state := RespHeaderRead)
                           else if IsHeaderStart(v.inHeader) then v.(state := RespHeaderSkip)
                           else Stopped(v, InvalidResponse)
    {
      hide IsHeaderStart, LineEnd;
      if header.Length == got.headerReadSize + 1 {
        var ok := IsHeaderStartLoop(header[..got.headerReadSize]);
        if !ok {
          state, result := Close, InvalidResponse;
          return;
        }
        state := RespHeaderSkip;
        return;
      }
      state := RespHeaderRead;
    }

    /** Gives a line to the header callback, and keeps what it says of the body. */
    method GiveHeader(p: nat)
      requires ReadsFrom(RespHeaderCallback) && HasLine(Reading().inHeader) && p == LineEnd(Reading().inHeader)
      requires FirstLine(Reading().inHeader) != "" && (got.statusLineGiven ==> IsHeaderLine(FirstLine(Reading().inHeader)))
      modifies `state, `result, `got, header, app`lines, app`calls
      ensures ReadsOn()
    {
      hide IsStep, ValidView, IsHeaderLine, LineEnd, WithHeader, IsStatusLine, AfterLine, HasBody, ValidOut;
      ghost var c, v, w := Reader(), Reading(), Now();
      var read := header[..got.headerReadSize];
      var line := read[..p];
      assert line == FirstLine(v.inHeader);
      var handled := app.OnHeader(line);
      if handled != |line| {
        state, result := Close, HeaderCallback;
        HeaderRefused(c, v, w);
        assert Reading() == Stopped(v, HeaderCallback);
        return;
      }
      if v.given {
        HeaderTaken(c, v, w);
      } else {
        StatusTaken(c, v, w);
        StatusFramesNothing(c, v);
      }
      assert Reading() == v && Now() == LineHanded(w, line);
      TakeHeader(p, line);
    }

    /** The part of it after the callback took the line. */
    method TakeHeader(p: nat, line: string)
      requires Sized() && state == RespHeaderCallback && HasLine(Reading().inHeader) && p == LineEnd(Reading().inHeader)
      modifies `state, `result, `got, header
      ensures Sized()
      ensures var v, next := old(Reading()), WithHeader(old(got.framing), line);
              Reading() == if next.None? then Stopped(v, InvalidResponse)
                           else v.(framing := next.value, given := true, inHeader := AfterLine(v.inHeader))
    {
      hide LineEnd, WithHeader;
      var next := Framed(got.framing, line);
      if next.None? {
        state, result := Close, InvalidResponse;
        return;
      }
      got := got.(framing := next.value, statusLineGiven := true);
      DropFromHeader(p + 2);
    }

    /** What a line adds to the framing, or nothing if it makes the body's length unknown. */
    method Framed(f: Framing, line: string) returns (r: Option<Framing>)
      ensures r == WithHeader(f, line)
    {
      hide CodingOf, LengthOf, LineEnd;
      var chunked := IsChunkedEncoding(line);
      if chunked == 1 {
        return Some(f.(chunked := true));
      }
      if chunked == -1 {
        return None;
      }
      var extracted, length := ExtractContentLength(line);
      if extracted == 1 && f.length.Some? && length != f.length.value {
        return None;
      }
      if extracted == -1 {
        return None;
      }
      return Some(if extracted == 1 then f.(length := Some(length)) else f);
    }

    /** Takes what was used off the start of the header buffer, the terminator moving along. */
    method DropFromHeader(n: nat)
      requires Sized() && n <= got.headerReadSize
      modifies `got, header
      ensures Sized()
      ensures Reading() == old(Reading()).(inHeader := old(Reading().inHeader[n..]))
    {
      ghost var was := header[..];
      var left := got.headerReadSize - n;
      Move(header, 0, header, n, left + 1);
      Slid(header[..], was, n, left);
      got := got.(headerReadSize := left);
    }

    /** Goes where the empty line after the headers leads. */
    method LeaveHeaders()
      requires Sized() && state == RespHeaderCallback
      modifies `state, `result, `got
      ensures Sized() && request == old(request)
      ensures Reading() == AfterEmptyLine(old(Reader()), old(Reading()))
    {
      hide HasLine, LineEnd;
      var f := got.framing;
      if 100 <= f.status && f.status < 200 {
        var p := FindCrlf(header[..got.headerReadSize]);
        state := if p < got.headerReadSize then RespStatusParse else RespStatusRead;
        LineFound(header[..got.headerReadSize]);
      } else if request.verb == "HEAD" || f.status == 204 || f.status == 304 {
        state := Close;
      } else if f.chunked && (f.length.Some? || f.isHttp10) {
        state, result := Close, InvalidResponse;
      } else if f.chunked {
        got := got.(bodyReadSize := 0);
        state := RespBodyParseChunkSize;
      } else {
        state := RespBodyFragment;
      }
    }

    /** khc_state_resp_header_read */
    method StateRespHeaderRead()
      requires ReadsFrom(RespHeaderRead)
      modifies `state, `result, `got, header, sock`incoming, sock`waits
      ensures ReadsOn()
    {
      hide IsStep, ValidView, HasLine, LineEnd, HasBody, ValidOut;
      ghost var c, v, w := Reader(), Reading(), Now();
      HeaderRoom(c, v);
      var at := got.headerReadSize;
      var code, n := sock.Recv(header, at, header.Length - at - 1);
      if code.SockAgain? {
        Waited(c, v, w, sock.waits);
        assert Reading() == v && Now() == w.(waits := sock.waits);
        return;
      }
      if n == 0 {
        HeaderEnd(c, v, w);
        state, result := Close, SockRecv;
        assert Reading() == Stopped(v, SockRecv) && Now() == w;
        return;
      }
      HeaderRead(c, v, w, n);
      Joined(header[..], at, n);
      ghost var read := header[..at + n];
      header[at + n] := '\0';
      assert header[..at + n] == read;
      got := got.(headerReadSize := at + n);
      state := RespHeaderCallback;
      assert Reading() == v.(inHeader := v.inHeader + w.incoming[..n], state := RespHeaderCallback) && Now() == Took(w, n);
    }

    // ---------- A body of a length, or up to the end ----------

    /** _resp_body_part() */
    method RespBodyPart(size: nat) returns (part: nat)
      requires Sized()
      ensures part == BodyPart(Reading(), size) <= size
    {
      if got.framing.length.None? {
        return size;
      }
      if got.bodyReceived >= got.framing.length.value {
        return 0;
      }
      var remain := got.framing.length.value - got.bodyReceived;
      return if size < remain then size else remain;
    }

    /** khc_state_resp_body_fragment */
    method StateRespBodyFragment()
      requires ReadsFrom(RespBodyFragment)
      modifies `state, `result, `got, app`body
      ensures ReadsOn()
    {
      hide IsStep, ValidView, BodyPart, BodyComplete, LineEnd, HasBody, ValidOut;
      ghost var c, v, w := Reader(), Reading(), Now();
      PlainStep(c, v, w);
      var size := RespBodyPart(got.headerReadSize);
      var read := header[..got.headerReadSize];
      GiveFragment(read[..size]);
      assert Now() == Written(w, v.inHeader[..size]) && Reading() == v;
      BodyWritten(size);
    }

    /** Gives the write callback what came, if anything did. */
    method GiveFragment(data: string)
      modifies app`body
      ensures app.body == old(app.body) + data
    {
      if |data| > 0 {
        var written := app.OnWrite(data);
      }
    }

    /** Ends a body that is whole, and reads on otherwise. */
    method BodyWritten(written: nat)
      requires Sized() && result == Ok && state != Close
      modifies `state, `got
      ensures Sized()
      ensures var v1 := old(Reading()).(received := old(got.bodyReceived) + written);
              Reading() == v1.(state := if BodyComplete(v1) then Close else RespBodyRead)
    {
      got := got.(bodyReceived := got.bodyReceived + written);
      if got.readEnd || (got.framing.length.Some? && got.bodyReceived >= got.framing.length.value) {
        state := Close;
      } else {
        state := RespBodyRead;
      }
    }

    /** khc_state_resp_body_read */
    method StateRespBodyRead()
      requires ReadsFrom(RespBodyRead)
      modifies `state, `result, `got, stream, sock`incoming, sock`waits
      ensures ReadsOn()
    {
      hide IsStep, ValidView, HasLine, LineEnd, HasBody, ValidOut;
      ghost var c, v, w := Reader(), Reading(), Now();
      ShortOfLength(c, v);
      var code, n := sock.Recv(stream, 0, stream.Length);
      assert stream[..n] == stream[0..0 + n];
      if code.SockAgain? {
        ghost var over := stream[..got.bodyReadSize];
        WaitedOver(c, v, w, sock.waits, over);
        assert Reading() == v.(inStream := over) && Now() == w.(waits := sock.waits);
        return;
      }
      if code.SockFail? {
        ghost var over := stream[..got.bodyReadSize];
        BodyEndOver(c, v, w, over);
        state, result := Close, SockRecv;
        assert Reading() == Stopped(v.(inStream := over), SockRecv) && Now() == w;
        return;
      }
      if n == 0 {
        BodyEndOver(c, v, w, stream[..0]);
        got := got.(bodyReadSize := 0, readEnd := true);
        // Short of its length, the body ended early.
        state, result := Close, if got.framing.length.Some? && got.bodyReceived < got.framing.length.value then SockRecv else Ok;
        assert Reading() == Stopped(v.(inStream := stream[..0]), result) && Now() == w;
        return;
      }
      BodyRead(c, v, w, n);
      got := got.(bodyReadSize := n);
      state := RespBodyCallback;
      assert Reading() == v.(inStream := w.incoming[..n], state := RespBodyCallback) && Now() == Took(w, n);
    }

    /** khc_state_resp_body_callback */
    method StateRespBodyCallback()
      requires ReadsFrom(RespBodyCallback)
      modifies `state, `result, `got, app`body
      ensures ReadsOn()
    {
      hide IsStep, ValidView, BodyPart, BodyComplete, LineEnd, HasBody, ValidOut;
      ghost var c, v, w := Reader(), Reading(), Now();
      PlainStep(c, v, w);
      var size := RespBodyPart(got.bodyReadSize);
      var read := stream[..got.bodyReadSize];
      var written := app.OnWrite(read[..size]);
      assert Now() == Written(w, v.inStream[..size]) && Reading() == v;
      BodyWritten(written);
    }

    // ---------- Chunks ----------

    /** khc_state_resp_body_parse_chunk_size */
    method StateRespBodyParseChunkSize()
      requires ReadsFrom(RespBodyParseChunkSize)
      modifies `state, `result, `got, stream
      ensures ReadsOn()
    {
      hide IsStep, ValidView, ChunkSizeOf, LineEnd, HasLine, HasBody, ValidOut;
      ghost var c, v, w := Reader(), Reading(), Now();
      var r, size := ReadChunkSize(stream[..got.bodyReadSize]);
      if r == 1 {
        ChunkSizeParsed(c, v, w);
        TakeSizeLine(size);
        assert Reading() == SizeLineGone(v, size) && Now() == w;
      } else if r < 0 {
        ChunkSizeParsed(c, v, w);
        state, result := Close, InvalidResponse;
        assert Reading() == Stopped(v, InvalidResponse) && Now() == w;
      } else {
        ChunkSizeIncomplete(c, v, w);
        state := if got.headerReadSize > 0 then ReadChunkSizeFromHeaderBuff else RespBodyReadChunkSize;
        assert Reading() == v.(state := state) && Now() == w;
      }
    }

    /** Takes a chunk's size line off the stream buffer. */
    method TakeSizeLine(size: nat)
      requires Sized() && HasLine(Reading().inStream) && state == RespBodyParseChunkSize
      modifies `state, `got, stream
      ensures Sized() && Reading() == SizeLineGone(old(Reading()), size)
    {
      hide LineEnd;
      ghost var v := Reading();
      var p := FindCrlf(stream[..got.bodyReadSize]);
      got := got.(chunkSize := size, chunkSizeWritten := 0);
      DropFromStream(p + 2);
      assert Reading() == v.(inStream := AfterLine(v.inStream), chunkLeft := size);
      if size > 0 {
        state := RespBodyParseChunkBody;
      } else {
        // The CRLF of this last chunk's line starts what ends the body.
        got := got.(trailerEndMatched := 2);
        state := RespBodySkipTrailers;
      }
    }

    /** Takes what was used off the start of the stream buffer. */
    method DropFromStream(n: nat)
      requires Sized() && n <= got.bodyReadSize
      modifies `got, stream
      ensures Sized()
      ensures Reading() == old(Reading()).(inStream := old(Reading().inStream[n..]))
    {
      var left := got.bodyReadSize - n;
      Move(stream, 0, stream, n, left);
      assert stream[..left] == stream[0..0 + left];
      got := got.(bodyReadSize := left);
    }

    /** _move_resp_header_to_stream(): as much of the header buffer as the stream buffer has room for. */
    method MoveHeaderToStream() returns (moved: bool, ghost n: nat)
      requires Sized()
      modifies `got, header, stream
      ensures Sized()
      ensures moved == (old(got.bodyReadSize) < stream.Length)
      ensures !moved ==> Reading() == old(Reading())
      ensures n == if stream.Length - old(got.bodyReadSize) > old(got.headerReadSize) then old(got.headerReadSize)
                   else stream.Length - old(got.bodyReadSize)
      ensures moved ==> Reading() == Moved(old(Reading()), n)
    {
      var remain := stream.Length - got.bodyReadSize;
      if remain <= 0 {
        return false, 0;
      }
      var size := if remain > got.headerReadSize then got.headerReadSize else remain;
      CopyToStream(size);
      DropFromHeader(size);
      return true, size;
    }

    /** The start of the header buffer, added to the stream buffer. */
    method CopyToStream(n: nat)
      requires Sized() && n <= got.headerReadSize && got.bodyReadSize + n <= stream.Length
      modifies `got, stream
      ensures Sized()
      ensures got == old(got).(bodyReadSize := old(got.bodyReadSize) + n)
      ensures Reading() == old(Reading()).(inStream := old(Reading().inStream + Reading().inHeader[..n]))
    {
      Move(stream, got.bodyReadSize, header, 0, n);
      Joined(stream[..], got.bodyReadSize, n);
      PartOf(header[..], n, got.headerReadSize);
      got := got.(bodyReadSize := got.bodyReadSize + n);
    }

    /** khc_state_read_chunk_size_from_header_buff */
    method StateReadChunkSizeFromHeaderBuff()
      requires ReadsFrom(ReadChunkSizeFromHeaderBuff)
      modifies `state, `result, `got, header, stream
      ensures ReadsOn()
    {
      hide IsStep, ValidView, HasLine, LineEnd, Moved, HasBody, ValidOut;
      ghost var c, v, w := Reader(), Reading(), Now();
      SomethingInHeader(c, v);
      var moved, n := MoveHeaderToStream();
      if moved {
        ChunkSizeMoved(c, v, w, n);
        state := RespBodyParseChunkSize;
      } else {
        ChunkSizeTooLong(c, v, w);
        state, result := Close, TooLargeData;
      }
    }

    /** khc_state_read_chunk_body_from_header_buff */
    method StateReadChunkBodyFromHeaderBuff()
      requires ReadsFrom(ReadChunkBodyFromHeaderBuff)
      modifies `state, `result, `got, header, stream
      ensures ReadsOn()
    {
      hide IsStep, ValidView, HasLine, LineEnd, Moved, HasBody, ValidOut;
      ghost var c, v, w := Reader(), Reading(), Now();
      SomethingInHeader(c, v);
      var moved, n := MoveHeaderToStream();
      ChunkBodyMoved(c, v, w, n);
      state, result := if moved then RespBodyParseChunkBody else Close, if moved then result else TooLargeData;
    }

    /** khc_state_resp_body_read_chunk_size */
    method StateRespBodyReadChunkSize()
      requires ReadsFrom(RespBodyReadChunkSize)
      modifies `state, `result, `got, stream, sock`incoming, sock`waits
      ensures ReadsOn()
    {
      hide IsStep, ValidView, HasLine, LineEnd, HasBody, ValidOut;
      ghost var c, v, w := Reader(), Reading(), Now();
      var at := got.bodyReadSize;
      var remain := stream.Length - at;
      if remain <= 0 {
        state, result := Close, TooLargeData;
        ChunkSizeTooLong(c, v, w);
        assert Reading() == Stopped(v, TooLargeData) && Now() == w;
        return;
      }
      var code, n := sock.Recv(stream, at, remain);
      if code.SockAgain? {
        Waited(c, v, w, sock.waits);
        assert Reading() == v && Now() == w.(waits := sock.waits);
        return;
      }
      if n == 0 {
        state, result := Close, SockRecv;
        ChunkSizeEnd(c, v, w);
        assert Reading() == Stopped(v, SockRecv) && Now() == w;
        return;
      }
      ChunkSizeRead(c, v, w, n);
      Joined(stream[..], at, n);
      got := got.(bodyReadSize := at + n);
      state := RespBodyParseChunkSize;
      assert Reading() == v.(inStream := v.inStream + w.incoming[..n], state := RespBodyParseChunkSize) && Now() == Took(w, n);
    }

    /** khc_state_resp_body_parse_chunk_body */
    method StateRespBodyParseChunkBody()
      requires ReadsFrom(RespBodyParseChunkBody)
      modifies `state, `result, `got, stream, app`body
      ensures ReadsOn()
    {
      hide IsStep, ValidView, HasLine, LineEnd, HasBody, ValidOut, Matched;
      ghost var c, v, w := Reader(), Reading(), Now();
      var remain := got.chunkSize - got.chunkSizeWritten;
      var target := if remain > got.bodyReadSize then got.bodyReadSize else remain;
      ChunkBodyGiven(c, v, w);
      assert stream[..target] == v.inStream[..target];
      var written := app.OnWrite(stream[..target]);
      assert Now() == Written(w, v.inStream[..target]) && Reading() == v;
      ChunkDataWritten(target, written);
    }

    /** The part of it after the write callback. */
    method ChunkDataWritten(target: nat, written: nat)
      requires Sized() && state == RespBodyParseChunkBody && written == target
      requires target == ChunkDataHere(Reading())
      modifies `state, `got, stream
      ensures Sized() && Reading() == ChunkDataGone(old(Reading()))
    {
      got := got.(chunkSizeWritten := got.chunkSizeWritten + target, bodyReceived := got.bodyReceived + written);
      if got.chunkSize > got.chunkSizeWritten {
        if got.headerReadSize > 0 {
          got := got.(bodyReadSize := 0);
          state := ReadChunkBodyFromHeaderBuff;
        } else {
          state := RespBodyReadChunkBody;
        }
      } else {
        DropFromStream(target);
        state := RespBodySkipChunkBodyCrlf;
      }
    }

    /** khc_state_resp_body_read_chunk_body */
    method StateRespBodyReadChunkBody()
      requires ReadsFrom(RespBodyReadChunkBody)
      modifies `state, `result, `got, stream, sock`incoming, sock`waits
      ensures ReadsOn()
    {
      hide IsStep, ValidView, HasLine, LineEnd, HasBody, ValidOut;
      ghost var c, v, w := Reader(), Reading(), Now();
      var code, n := sock.Recv(stream, 0, stream.Length);
      assert stream[..n] == stream[0..0 + n];
      if code.SockAgain? {
        WaitedOver(c, v, w, sock.waits, stream[..got.bodyReadSize]);
        return;
      }
      if n == 0 {
        state, result := Close, SockRecv;
        ChunkBodyEndOver(c, v, w, stream[..got.bodyReadSize]);
        return;
      }
      ChunkBodyRead(c, v, w, n);
      got := got.(bodyReadSize := n);
      state := RespBodyParseChunkBody;
      assert Reading() == v.(inStream := w.incoming[..n], state := RespBodyParseChunkBody) && Now() == Took(w, n);
    }

    /** khc_state_resp_body_skip_chunk_body_crlf */
    method StateRespBodySkipChunkBodyCrlf()
      requires ReadsFrom(RespBodySkipChunkBodyCrlf)
      modifies `state, `result, `got, header, stream, sock`incoming, sock`waits
      ensures ReadsOn()
    {
      hide IsStep, ValidView, HasLine, LineEnd, Moved, HasBody, ValidOut;
      ghost var c, v, w := Reader(), Reading(), Now();
      var size := got.bodyReadSize;
      if (size > 0 && stream[0] != CR) || (size > 1 && stream[1] != LF) {
        // Something else after the data: the chunk's size didn't say where it ended.
        state, result := Close, InvalidResponse;
        ChunkEndInvalid(c, v, w);
        assert Reading() == Stopped(v, InvalidResponse) && Now() == w;
        return;
      }
      if size >= 2 {
        ChunkEndSkipped(c, v, w);
        DropFromStream(2);
        state := RespBodyParseChunkSize;
        assert Reading() == v.(inStream := v.inStream[2..], state := RespBodyParseChunkSize) && Now() == w;
        return;
      }
      RoomForCrlf(c, v);
      if got.headerReadSize > 0 {
        // What was read along with the headers comes first.
        var moved, n := MoveHeaderToStream();
        ChunkEndMoved(c, v, w, n);
        assert Reading() == Moved(v, n) && Now() == w;
        return;
      }
      ReadCrlf();
    }

    /** The part of it that reads the rest of the CRLF. */
    method ReadCrlf()
      requires ReadsFrom(RespBodySkipChunkBodyCrlf) && got.headerReadSize == 0 && stream.Length >= 3
      requires got.bodyReadSize < 2 && (got.bodyReadSize > 0 ==> stream[0] == CR)
      modifies `state, `result, `got, stream, sock`incoming, sock`waits
      ensures ReadsOn()
    {
      hide IsStep, ValidView, HasLine, LineEnd, HasBody, ValidOut;
      ghost var c, v, w := Reader(), Reading(), Now();
      var size := got.bodyReadSize;
      var code, part := RecvPart(2 - size);
      var n := |part|;
      if code.SockAgain? {
        Waited(c, v, w, sock.waits);
        assert Reading() == v && Now() == w.(waits := sock.waits);
        return;
      }
      if n == 0 {
        state, result := Close, SockRecv;
        ChunkEndEnd(c, v, w);
        assert Reading() == Stopped(v, SockRecv) && Now() == w;
        return;
      }
      assert Reading() == v && Now() == Took(w, n);
      ChunkEndRead(c, v, w, n);
      CrlfHasCome(part);
    }

    /** Receives up to so many bytes. */
    method RecvPart(size: nat) returns (code: SockCode, part: string)
      requires sock.open && size > 0
      modifies sock`incoming, sock`waits
      ensures code.SockAgain? ==> sock.waits < old(sock.waits)
      ensures !code.SockAgain? ==> sock.waits == old(sock.waits)
      ensures code.SockOk? <==> part != "" || (!code.SockAgain? && !sock.lost)
      ensures !code.SockAgain? && part == "" ==> old(sock.incoming) == ""
      ensures |part| <= size && |part| <= |old(sock.incoming)|
      ensures part == old(sock.incoming)[..|part|] && sock.incoming == old(sock.incoming)[|part|..]
    {
      var tmp := new char[size];
      var n;
      code, n := sock.Recv(tmp, 0, size);
      part := tmp[..n];
      assert part == tmp[0..0 + n];
    }

    /** The part of it after bytes of the CRLF have come. */
    method CrlfHasCome(part: string)
      requires Sized() && state == RespBodySkipChunkBodyCrlf && result == Ok && stream.Length >= 3
      requires part != "" && got.bodyReadSize + |part| <= 2 && (got.bodyReadSize > 0 ==> stream[0] == CR)
      modifies `state, `result, `got, stream
      ensures Sized() && request == old(request)
      ensures Reading() == CrlfTaken(old(Reading()), part)
    {
      // What came has to be what was left of the CRLF.
      if part != CRLF[got.bodyReadSize..got.bodyReadSize + |part|] {
        state, result := Close, InvalidResponse;
        return;
      }
      if got.bodyReadSize + |part| < 2 {
        // Only the CR has come: it is kept, and the LF read next.
        stream[0] := '\r';
        got := got.(bodyReadSize := 1);
        assert stream[..1] == "\r";
        return;
      }
      got := got.(bodyReadSize := 0);
      state := RespBodyParseChunkSize;
    }

    // ---------- The trailers ----------

    /** _find_trailer_end(): goes on matching the empty line over size bytes, up to its end. */
    method FindTrailerEnd(data: array<char>, size: nat) returns (found: bool)
      requires Sized() && size <= data.Length && got.trailerEndMatched < 4
      modifies `got
      ensures Sized()
      ensures Reading() == old(Reading()).(matched := MatchedAll(old(got.trailerEndMatched), data[..size]))
      ensures found <==> got.trailerEndMatched == 4
    {
      ghost var whole := MatchedAll(got.trailerEndMatched, data[..size]);
      var m := got.trailerEndMatched;
      var i := 0;
      while i < size && m < 4
        invariant 0 <= i <= size && m <= 4
        invariant MatchedAll(m, data[i..size]) == whole
      {
        assert data[i..size][1..] == data[i + 1..size];
        m := Matched(m, data[i]);
        i := i + 1;
      }
      got := got.(trailerEndMatched := m);
      found := m == 4;
    }

    /** khc_state_resp_body_skip_trailers */
    method StateRespBodySkipTrailers()
      requires ReadsFrom(RespBodySkipTrailers)
      modifies `state, `result, `got, stream, sock`incoming, sock`waits
      ensures ReadsOn()
    {
      hide IsStep, ValidView, MatchedAll, LineEnd, HasBody, ValidOut;
      ghost var c, v, w := Reader(), Reading(), Now();
      NotMatchedYet(c, v);
      // What was read along with the last chunk comes first.
      var found := FindTrailerEnd(stream, got.bodyReadSize);
      if !found {
        found := FindTrailerEnd(header, got.headerReadSize);
      } else {
        MatchedStays(v.inHeader);
      }
      assert Reading() == v.(matched := if MatchedAll(v.matched, v.inStream) == 4 then 4 else AfterBuffers(v)) && Now() == w;
      if found {
        TrailersFound(c, v, w);
        ghost var v1 := Reading();
        state := Close;
        assert Reading() == v1.(state := Close) && Now() == w;
        return;
      }
      got := got.(bodyReadSize := 0, headerReadSize := 0);
      assert Reading() == BuffersUsed(v);
      ReadTrailers(c, v, w);
    }

    /** The part of it that reads more, v being what it started from. */
    method ReadTrailers(ghost c: Client, ghost v: View, ghost w: World)
      requires Sized() && sock.open && result == Ok
      requires c == Reader() && Kept(ValidView(c, v)).whole && v.state == RespBodySkipTrailers && v.result == Ok
      requires v.matched < 4 && AfterBuffers(v) < 4 && Reading() == BuffersUsed(v) && w == Now()
      modifies `state, `result, `got, stream, sock`incoming, sock`waits
      ensures Sized() && request == old(request) && Kept(IsStep(c, v, w, Reading(), Now())).whole
    {
      hide IsStep, ValidView, AfterBuffers, LineEnd, HasBody, ValidOut;
      var code, n := sock.Recv(stream, 0, stream.Length);
      assert stream[..n] == stream[0..0 + n];
      if code.SockAgain? {
        TrailersRead(c, v, w, 0, sock.waits);
        return;
      }
      if n == 0 {
        TrailersEnd(c, v, w);
        state, result := Close, if code.SockFail? then SockRecv else Ok;
        assert Reading() == BuffersUsed(v).(state := Close, result := result) && Now() == w;
        return;
      }
      TrailersRead(c, v, w, n, sock.waits);
      got := got.(bodyReadSize := n);
      assert Reading() == BuffersUsed(v).(inStream := w.incoming[..n]) && Now() == Took(w, n);
    }

    // ---------- The request ----------

    ghost function Ordering(): Order
      reads this, stream
    {
      Order(state, request, out,
            if state == ReqBodySend && out.frameStart + out.frameSize <= stream.Length
            then stream[out.frameStart..out.frameStart + out.frameSize] else "")
    }

    ghost function Going(): Outgoing
      requires Sized()
      reads this, sock, app, stream
    {
      Outgoing(Reader(), stream.Length, Ordering(), Now(), result)
    }

    ghost predicate SendsFrom(s: State)
      reads this, sock, app, stream
    {
      state == s && Sized() && sock.open && Kept(ValidOut(Going())).whole
    }

    /** What each handler of the request does. */
    twostate predicate SendsOn()
      requires old(Sized())
      reads this, sock, app, stream
    {
      && Sized() && request == old(request)
      && Kept(Sends(old(Going()), Going())).whole
      && if state == RespStatusRead then got == old(got).(headerReadSize := 0) else got == old(got)
    }

    /** All that counts of it. */
    ghost function All(): Engine
      requires Sized()
      reads this, sock, app, header, stream
    {
      Engine(Reader(), stream.Length, sock.reachable, Ordering(), Reading(), Now())
    }

    ghost predicate IsAt(s: State)
      reads this, sock, app, header, stream
    {
      state == s && Sized() && Kept(ValidEngine(All())).whole
    }

    /** What each handler does. */
    twostate predicate GoesAhead()
      requires old(Sized())
      reads this, sock, app, header, stream
    {
      Sized() && Kept(Advances(old(All()), All())).whole
    }

    /** khc_state_idle */
    method StateIdle()
      requires IsAt(Idle) && !sock.open
      modifies `request, `state
      ensures GoesAhead() && state == Connect
    {
      hide Advances, ValidEngine, LineEnd;
      ghost var e := All();
      IdleAdvances(e);
      request := request.(host := if request.host == "" then "localhost" else request.host,
                          verb := if request.verb == "" then "GET" else request.verb);
      state := Connect;
      assert Reading() == e.v.(state := Connect) && Ordering() == e.o.(request := WithFallbacks(e.o.request), state := Connect);
      assert Now() == e.w && Reader() == e.c;
    }

    /** khc_state_connect */
    method StateConnect()
      requires IsAt(Connect) && !sock.open
      modifies `out, `state, `result, `got, sock`open, sock`waits
      ensures GoesAhead()
      ensures state == Connect || state == Finished ==> !sock.open
      ensures state == Finished <==> state != Connect && !sock.reachable
      ensures state != Connect && state != Finished ==> sock.open && state == ReqLine
    {
      hide Advances, ValidEngine, LineEnd;
      ghost var e := All();
      NothingSent(e);
      var code := sock.Connect();
      assert Reading() == e.v && Ordering() == e.o && Reader() == e.c;
      if code.SockAgain? {
        ConnectWaits(e, sock.waits);
        assert Now() == e.w.(waits := sock.waits);
      } else if code.SockOk? {
        Connected(e);
        StartRequest();
      } else {
        NotConnected(e);
        EndUnconnected();
      }
    }

    method EndUnconnected()
      requires Sized() && state == Connect
      modifies `state, `result
      ensures Sized() && state == Finished
      ensures Reading() == old(Reading()).(state := Finished, result := SockConnect) && Ordering() == old(Ordering()).(state := Finished)
    {
      state, result := Finished, SockConnect;
    }

    method StartRequest()
      requires Sized() && state == Connect && result == Ok && out.sentLength == 0
      modifies `out, `state
      ensures Sized() && state == ReqLine
      ensures Reading() == old(Reading()).(state := ReqLine) && Ordering() == old(Ordering()).(state := ReqLine)
    {
      out := out.(sentLength := 0);
      state := ReqLine;
    }

    /** Sends what is left of a part. Whether all of it was sent: otherwise the handler is done. */
    method SendPart(part: string) returns (all: bool)
      requires SendsFrom(state) && IsSending(state) && part == Part(Ordering())
      modifies `out, `state, `result, sock`sent, sock`room, sock`waits
      ensures Sized()
      ensures !all ==> SendsOn()
      ensures all ==> |ToSend(old(Ordering()))| <= old(sock.room) && Now() == Sent(old(Now()), ToSend(old(Ordering())))
      ensures all ==> state == old(state) && result == Ok && out == old(out).(sentLength := 0)
    {
      hide Sends, ValidOut, Part, HasBody, LineEnd, HasLine, Requesting, Performing;
      ghost var x := Going();
      SendingIsValid(x);
      var data := part[out.sentLength..];
      assert data == ToSend(x.o);
      var code, n := sock.Send(data);
      if code.SockAgain? {
        SendWaits(x, sock.waits);
        assert Going() == x.(w := x.w.(waits := sock.waits));
        return false;
      }
      if code.SockFail? {
        SendFails(x);
        state, result := Close, SockSend;
        assert Going() == x.(o := x.o.(state := Close, frame := ""), result := SockSend);
        return false;
      }
      if n < |data| {
        SentSome(x, n);
        out := out.(sentLength := out.sentLength + n);
        assert Ordering() == x.o.(out := out) && Now() == Sent(x.w, ToSend(x.o)[..n]) && Reader() == x.c;
        return false;
      }
      assert data[..n] == data;
      out := out.(sentLength := 0);
      return true;
    }

    /** khc_state_req_line */
    method StateReqLine()
      requires SendsFrom(ReqLine)
      modifies `out, `state, `result, `got, sock`sent, sock`room, sock`waits
      ensures SendsOn()
    {
      hide Sends, ValidOut, RequestLine, LineEnd, HasBody;
      ghost var x := Going();
      var all := SendPart(RequestLine(request));
      if all {
        PartSent(x);
        state := ReqHostHeader;
      }
    }

    /** khc_state_req_host_header */
    method StateReqHostHeader()
      requires SendsFrom(ReqHostHeader)
      modifies `out, `state, `result, `got, sock`sent, sock`room, sock`waits
      ensures SendsOn()
    {
      hide Sends, ValidOut, HostHeader, LineEnd, HasBody;
      ghost var x := Going();
      var all := SendPart(HostHeader(request));
      if all {
        PartSent(x);
        out := out.(currentHeader := 0);
        state := ReqHeader;
      }
    }

    /** khc_state_req_header */
    method StateReqHeader()
      requires SendsFrom(ReqHeader)
      modifies `out, `state
      ensures SendsOn()
    {
      hide Sends, ValidOut, LineEnd, HasBody;
      HeaderAdvances(Going());
      if out.currentHeader >= |request.headers| {
        state := ReqHeaderEnd;
      } else if request.headers[out.currentHeader] == "" {
        // Skip if nothing to send.
        out := out.(currentHeader := out.currentHeader + 1);
      } else {
        state := ReqHeaderSend;
      }
    }

    /** khc_state_req_header_send */
    method StateReqHeaderSend()
      requires SendsFrom(ReqHeaderSend)
      modifies `out, `state, `result, `got, sock`sent, sock`room, sock`waits
      ensures SendsOn()
    {
      hide Sends, ValidOut, LineEnd, HasBody;
      ghost var x := Going();
      HasHeader(x);
      var all := SendPart(request.headers[out.currentHeader]);
      if all {
        PartSent(x);
        state := ReqHeaderSendCrlf;
      }
    }

    /** khc_state_req_header_send_crlf */
    method StateReqHeaderSendCrlf()
      requires SendsFrom(ReqHeaderSendCrlf)
      modifies `out, `state, `result, `got, sock`sent, sock`room, sock`waits
      ensures SendsOn()
    {
      hide Sends, ValidOut, LineEnd, HasBody;
      ghost var x := Going();
      var all := SendPart("\r\n");
      if all {
        PartSent(x);
        out := out.(currentHeader := out.currentHeader + 1);
        state := ReqHeader;
      }
    }

    /** What khc_state_req_header_end sends. */
    static method WriteHeadEnd(r: Request) returns (text: string)
      ensures text == HeadEnd(r)
    {
      hide HeadEnd, Text;
      text := "";
      if !CanHaveBody(r) {
        // Nothing more than Connection.
      } else if !r.hasReader {
        text := "Content-Length: 0\r\n";
      } else if r.length.Some? {
        var digits := WriteNumber(r.length.value, Decimal);
        text := "Content-Length: " + digits + "\r\n";
      } else {
        text := "Transfer-Encoding: chunked\r\n";
      }
      text := text + "Connection: Close\r\n\r\n";
      HeadEndText(r, text);
    }

    /** khc_state_req_header_end */
    method StateReqHeaderEnd()
      requires SendsFrom(ReqHeaderEnd)
      modifies `out, `state, `result, `got, sock`sent, sock`room, sock`waits
      ensures SendsOn()
    {
      hide Sends, ValidOut, HeadEnd, HasBody, LineEnd;
      ghost var x := Going();
      var text := WriteHeadEnd(request);
      var all := SendPart(text);
      if !all {
        return;
      }
      if HasBody(request) {
        PartSent(x);
        out := out.(readEnd := false, bodyLeft := if request.length.Some? then request.length.value else 0);
        state := ReqBodyRead;
      } else {
        RequestSent(x);
        AwaitResponse();
      }
    }

    method AwaitResponse()
      requires Sized() && result == Ok && !got.readEnd
      modifies `state, `got
      ensures Sized() && state == RespStatusRead && got == old(got).(headerReadSize := 0)
    {
      got := got.(headerReadSize := 0);
      state := RespStatusRead;
    }

    /** khc_state_req_body_read */
    method StateReqBodyRead()
      requires SendsFrom(ReqBodyRead)
      modifies `out, `state, `result, `got, stream, app`parts
      ensures SendsOn()
    {
      hide Sends, ValidOut, ChunkLineRoom, LineEnd, HasBody;
      ghost var x := Going();
      BodyReadValid(x);
      if request.length.Some? {
        ReadKnown();
        return;
      }
      // Room for the longest size line a chunk that fits can have before the data, and for CRLF after it.
      var digits := HexDigits(stream.Length);
      var lineRoom := digits + 2;
      LineRoomIs(stream.Length, lineRoom);
      if stream.Length <= lineRoom + 2 {
        state, result := Close, TooLargeData;
        UnknownBodyTooLarge(x);
        return;
      }
      ReadChunk(lineRoom);
    }

    /** The part of khc_state_req_body_read for a body of known length. */
    method ReadKnown()
      requires SendsFrom(ReqBodyRead) && request.length.Some? && out.bodyLeft > 0 && out.sentLength == 0
      modifies `out, `state, `result, `got, stream, app`parts
      ensures SendsOn()
    {
      hide Sends, ValidOut, HttpRequest.Given, NextParts, LineEnd, HasBody;
      ghost var x := Going();
      var want := if out.bodyLeft < stream.Length then out.bodyLeft else stream.Length;
      var n := app.OnRead(stream, 0, want);
      if n == 0 {
        KnownBodyEarly(x, want);
        state, result := Close, ReadCallback;
        assert Now() == x.w.(parts := NextParts(x.w.parts, want));
        return;
      }
      KnownBodyRead(x, want);
      assert stream[0..0 + n] == HttpRequest.Given(x.w.parts, want);
      out := out.(bodyLeft := out.bodyLeft - n, readEnd := out.bodyLeft == n, frameStart := 0, frameSize := n);
      state := ReqBodySend;
      assert Ordering() == KnownRead(x.o, HttpRequest.Given(x.w.parts, want)) && Now() == x.w.(parts := NextParts(x.w.parts, want));
    }

    /** The part of it for one of unknown length: a chunk, its size line right before its data. */
    method ReadChunk(lineRoom: nat)
      requires SendsFrom(ReqBodyRead) && request.length.None? && out.sentLength == 0
      requires lineRoom == ChunkLineRoom(stream.Length) && stream.Length > lineRoom + 2
      modifies `out, `state, `result, `got, stream, app`parts
      ensures SendsOn()
    {
      hide Sends, ValidOut, HttpRequest.Given, NextParts, LineEnd, ChunkLineRoom, Chunk, HasBody;
      ghost var x := Going();
      var capacity := stream.Length - lineRoom - 2;
      var n := app.OnRead(stream, lineRoom, capacity);
      ghost var data := HttpRequest.Given(x.w.parts, capacity);
      var start, size := FrameChunk(lineRoom, n);
      UnknownBodyRead(x, capacity, start);
      out := out.(readEnd := n == 0, frameStart := start, frameSize := size);
      state := ReqBodySend;
      assert Ordering() == ChunkTaken(x.o, data, start) && Now() == x.w.(parts := NextParts(x.w.parts, capacity));
    }

    /** Frames n bytes of data in the stream buffer: the size line ends where they start, and starts
        within the buffer. */
    method FrameChunk(lineRoom: nat, n: nat) returns (start: nat, size: nat)
      requires lineRoom == ChunkLineRoom(stream.Length) && lineRoom + n + 2 <= stream.Length
      modifies stream
      ensures start + size <= stream.Length
      ensures stream[start..start + size] == Chunk(old(stream[lineRoom..lineRoom + n])) && size == |Chunk(old(stream[lineRoom..lineRoom + n]))|
    {
      hide Text;
      ghost var data := stream[lineRoom..lineRoom + n];
      var digits := WriteNumber(n, Hex);
      var line := digits + "\r\n";
      TextLengthMonotone(n, stream.Length, Hex);
      start := lineRoom - |line|;
      size := |line| + n + 2;
      forall i | 0 <= i < |line| {
        stream[start + i] := line[i];
      }
      stream[lineRoom + n], stream[lineRoom + n + 1] := '\r', '\n';
      assert stream[start..lineRoom] == line;
      assert stream[lineRoom..lineRoom + n] == data;
      assert stream[lineRoom + n..lineRoom + n + 2] == "\r\n";
      ThreeParts(stream[..], start, lineRoom, lineRoom + n, start + size);
    }

    /** khc_state_req_body_send */
    method StateReqBodySend()
      requires SendsFrom(ReqBodySend)
      modifies `out, `state, `result, `got, sock`sent, sock`room, sock`waits
      ensures SendsOn()
    {
      hide Sends, ValidOut, LineEnd, HasBody;
      ghost var x := Going();
      FrameInBuffer(x);
      var all := SendPart(stream[out.frameStart..out.frameStart + out.frameSize]);
      if !all {
        return;
      }
      if out.readEnd {
        RequestSent(x);
        AwaitResponse();
      } else {
        PartSent(x);
        state := ReqBodyRead;
      }
    }

    // ---------- The end, and the loop ----------

    /** khc_state_close */
    method StateClose()
      requires IsAt(Close) && sock.open
      modifies `state, `got, `closeFailed, sock`open, sock`waits, sock`closings
      ensures GoesAhead()
      ensures state == Close ==> sock.open && sock.closings == old(sock.closings)
      ensures state != Close ==> state == Finished && !sock.open && sock.closings == old(sock.closings) + 1
    {
      hide Advances, ValidEngine, LineEnd;
      ghost var e := All();
      var code := sock.Close();
      assert Reading() == e.v && Ordering() == e.o && Reader() == e.c;
      if code.SockAgain? {
        CloseWaits(e, sock.waits);
        assert Now() == e.w.(waits := sock.waits);
        return;
      }
      CloseEnds(e);
      assert Now() == e.w;
      Closed(code.SockFail?);
    }

    /** The part of it once the connection is closed. Closing doesn't change the result. */
    method Closed(failed: bool)
      requires Sized() && state == Close
      modifies `state, `got, `closeFailed
      ensures Sized() && state == Finished
      ensures Reading() == old(Reading()).(state := Finished) && Ordering() == old(Ordering()).(state := Finished)
      ensures closeFailed == failed
    {
      got := got.(readEnd := false);
      closeFailed := failed;
      state := Finished;
    }

    /** The handler of a state of the request. */
    method StepSending()
      requires SendsFrom(state)
      modifies `out, `state, `result, `got, stream, sock`sent, sock`room, sock`waits, app`parts
      ensures SendsOn()
    {
      hide Sends, ValidOut, LineEnd, HasBody;
      OutIsRequesting(Going());
      if state == ReqLine {
        StateReqLine();
      } else if state == ReqHostHeader {
        StateReqHostHeader();
      } else if state == ReqHeader {
        StateReqHeader();
      } else if state == ReqHeaderSend {
        StateReqHeaderSend();
      } else if state == ReqHeaderSendCrlf {
        StateReqHeaderSendCrlf();
      } else if state == ReqHeaderEnd {
        StateReqHeaderEnd();
      } else if state == ReqBodyRead {
        StateReqBodyRead();
      } else {
        StateReqBodySend();
      }
    }

    method StepRequest()
      requires IsAt(state) && IsRequesting(state) && sock.open && result == Ok
      modifies `out, `state, `result, `got, stream, sock`sent, sock`room, sock`waits, app`parts
      ensures GoesAhead() && IsConnected(state)
    {
      hide Advances, ValidEngine, Sends, ValidOut, LineEnd, HasBody;
      ghost var e, x := All(), Going();
      EngineIsOut(e, x);
      StepSending();
      SendsAdvances(e, All(), x, Going());
    }

    /** The handler of a state of the response's head. */
    method StepHead()
      requires ReadsFrom(state) && IsHead(state)
      modifies this, header, sock`incoming, sock`waits, app`lines, app`calls
      ensures ReadsOn()
    {
      hide IsStep, ValidView, HasBody, ValidOut, LineEnd;
      if state == RespStatusRead {
        StateRespStatusRead();
      } else if state == RespStatusParse {
        StateRespStatusParse();
      } else if state == RespHeaderCallback {
        StateRespHeaderCallback();
      } else {
        StateRespHeaderRead();
      }
    }

    /** The handler of a state of the response's body. */
    method StepBody()
      requires ReadsFrom(state) && IsBody(state)
      modifies this, header, stream, sock`incoming, sock`waits, app`body
      ensures ReadsOn()
    {
      hide IsStep, ValidView, HasBody, ValidOut, LineEnd;
      if state == RespBodyFragment {
        StateRespBodyFragment();
      } else if state == RespBodyRead {
        StateRespBodyRead();
      } else if state == RespBodyCallback {
        StateRespBodyCallback();
      } else if state == RespBodyParseChunkSize {
        StateRespBodyParseChunkSize();
      } else if state == RespBodyReadChunkSize {
        StateRespBodyReadChunkSize();
      } else if state == ReadChunkSizeFromHeaderBuff {
        StateReadChunkSizeFromHeaderBuff();
      } else if state == RespBodyParseChunkBody {
        StateRespBodyParseChunkBody();
      } else if state == RespBodyReadChunkBody {
        StateRespBodyReadChunkBody();
      } else if state == ReadChunkBodyFromHeaderBuff {
        StateReadChunkBodyFromHeaderBuff();
      } else if state == RespBodySkipChunkBodyCrlf {
        StateRespBodySkipChunkBodyCrlf();
      } else {
        StateRespBodySkipTrailers();
      }
    }

    /** The handler of a state of the response. */
    method StepResponse()
      requires IsAt(state) && (IsHead(state) || IsBody(state)) && sock.open
      modifies this, header, stream, sock`incoming, sock`waits, app`lines, app`calls, app`body
      ensures GoesAhead() && IsConnected(state)
    {
      hide Advances, IsStep, ValidView, ValidEngine, HasBody, ValidOut, LineEnd;
      ghost var e := All();
      ReadingIsValid(e);
      if IsHead(state) {
        StepHead();
      } else {
        StepBody();
      }
      StepAdvances(e, All());
      StepStaysConnected(e.c, e.v, e.w, All().v, All().w);
    }

    /** One turn of the loop. */
    method Turn()
      requires IsAt(state) && state != Finished && state != RespHeaderSkip && IsOpenRight()
      modifies this, header, stream, sock, app
      ensures GoesAhead() && IsOpenRight()
      ensures sock.closings == old(sock.closings) + if state == Finished && sock.reachable then 1 else 0
    {
      hide Advances, ValidEngine, LineEnd;
      ghost var e := All();
      if state == Idle {
        StateIdle();
      } else if state == Connect {
        StateConnect();
      } else if IsRequesting(state) {
        StepRequest();
      } else if state == Close {
        StateClose();
      } else {
        StepResponse();
      }
    }

    /** Once it is done with, what the exchange came to is what there is. */
    lemma EndsWith(x: Exchange)
      requires Sized() && Kept(ValidEngine(All())).whole && Future(All()) == x && (state == Finished || state == RespHeaderSkip)
      ensures x == Exchange(sock.sent, app.lines, app.body, if state == RespHeaderSkip then HeaderSkipped else result)
    {
      hide ValidEngine, Future;
      Ends(All());
    }

    /** The socket is open from connecting to closing. */
    ghost predicate IsOpenRight()
      reads this, sock
    {
      && (sock.open <==> IsConnected(state))
      && (sock.open ==> sock.reachable)
    }

    lemma StartsWith(x: Exchange)
      requires IsReset()
      requires x == Performing(Reader(), sock.reachable, Now(), WholeRequest(WithFallbacks(request), stream.Length, app.parts))
      ensures Kept(ValidEngine(All())).whole && Future(All()) == x
    {
      hide ValidEngine, Performing, WholeRequest, WithFallbacks, Future;
      StartsValid(All());
    }

    /** Its loop: any turn keeps what the exchange comes to, and takes it closer to its end. */
    method Loop(ghost x: Exchange)
      requires IsAt(state) && Future(All()) == x && IsOpenRight() && state != Finished && state != RespHeaderSkip
      modifies this, header, stream, sock, app
      ensures IsAt(state) && Future(All()) == x && IsOpenRight() && (state == Finished || state == RespHeaderSkip)
      ensures sock.reachable == old(sock.reachable)
      ensures sock.closings == old(sock.closings) + if state == Finished && sock.reachable then 1 else 0
    {
      hide Advances, ValidEngine, Future, Distance, Less, LineEnd;
      ghost var closings, left := sock.closings, Distance(All());
      while state != Finished && state != RespHeaderSkip
        invariant IsAt(state) && Future(All()) == x && sock.reachable == old(sock.reachable) && IsOpenRight()
        invariant sock.closings == closings + (if state == Finished && sock.reachable then 1 else 0) && left == Distance(All())
        decreases left.waits, left.stage, left.todo, left.incoming, left.inHeader, left.step
      {
        ghost var e := All();
        Turn();
        AdvancesMeans(e, All());
        LessMeans(Distance(All()), left);
        left := Distance(All());
      }
    }

    /** khc_perform(), with the buffers set, no timeout and no continue callback. It ends, for every
        response, and every way its bytes come and the request's go, with what the request and the
        response say. A response with a header too long for the header buffer is as far as the model
        goes: it stops there. */
    method Perform() returns (code: Code)
      requires IsReset() && !sock.open
      modifies this, header, stream, sock, app
      ensures var x := old(Performing(Client(header.Length - 1, stream.Length, request.verb == "HEAD", sock.lost), sock.reachable, Now(),
                                   WholeRequest(WithFallbacks(request), stream.Length, app.parts)));
              Exchange(sock.sent, app.lines, app.body, code) == x
      ensures code != HeaderSkipped ==> !sock.open && sock.closings == old(sock.closings) + if sock.reachable then 1 else 0
      ensures sock.reachable == old(sock.reachable) && state == Idle && result == Ok
    {
      hide Advances, ValidEngine, Performing, WholeRequest, WithFallbacks, Future, Distance, Less, LineEnd;
      ghost var x := Performing(Reader(), sock.reachable, Now(), WholeRequest(WithFallbacks(request), stream.Length, app.parts));
      StartsWith(x);
      Loop(x);
      EndsWith(x);
      code := if state == RespHeaderSkip then HeaderSkipped else result;
      state, result := Idle, Ok;
    }
  }

  lemma Joined(s: string, a: nat, n: nat)
    requires a + n <= |s|
    ensures s[..a + n] == s[..a] + s[a..a + n]
  {
  }

  lemma PartOf(s: string, n: nat, size: nat)
    requires n <= size <= |s|
    ensures s[0..0 + n] == s[..size][..n]
  {
  }

  /** What follows the first n of n + left, moved to the front with what comes after it. */
  lemma Slid(s: string, was: string, n: nat, left: nat)
    requires left + 1 <= |s| && n + left + 1 <= |was| && s[0..0 + left + 1] == was[n..n + left + 1]
    ensures s[..left] == was[..n + left][n..]
  {
    assert s[..left] == s[0..0 + left + 1][..left];
  }

  lemma ThreeParts(s: string, a: nat, b: nat, c: nat, d: nat)
    requires a <= b <= c <= d <= |s|
    ensures s[a..d] == s[a..b] + s[b..c] + s[c..d]
  {
  }
}
