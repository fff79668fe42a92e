/** Requests as a server reads them (RFC 9112, section 3): the words of the request line, and the fields up to
    the empty line. The reader knows nothing of how a request is put together. */
module HttpHeads {
  import opened Exchanges
  import opened HttpReadBack
  import opened HttpRequest
  import opened HttpText
  import opened Numerals
  import opened Options
  import opened ResponseDecoder
  import opened Sequences

  datatype Head = Head(verb: string, target: string, version: string, fields: seq<string>)

  // ---------- The reader ----------

  /** A line's words, between its spaces. */
  function Words(s: string): (words: seq<string>)
    ensures words != []
  {
    if s == "" then [""]
    else
      var words := Words(s[1..]);
      if s[0] == ' ' then [""] + words else [[s[0]] + words[0]] + words[1..]
  }

  /** The lines up to an empty one, and what comes after that. */
  function ReadFields(s: string): Option<(seq<string>, string)>
    decreases |s|
  {
    if !HasLine(s) then None
    else if FirstLine(s) == "" then Some(([], AfterLine(s)))
    else
      match ReadFields(AfterLine(s))
      case None => None
      case Some((fields, rest)) => Some(([FirstLine(s)] + fields, rest))
  }

  /** A request's head, and what comes after it, if that is what s starts with. */
  function ReadHead(s: string): Option<(Head, string)> {
    if !HasLine(s) || |Words(FirstLine(s))| != 3 then None
    else
      var words := Words(FirstLine(s));
      match ReadFields(AfterLine(s))
      case None => None
      case Some((fields, rest)) => Some((Head(words[0], words[1], words[2], fields), rest))
  }

  lemma {:induction false} OneWord(s: string)
    requires ' ' !in s
    ensures Words(s) == [s]
  {
    if s != "" {
      OneWord(s[1..]);
      assert [s[0]] + s[1..] == s;
    }
  }

  lemma {:induction false} MoreWords(s: string, t: string)
    requires ' ' !in s
    ensures Words(s + " " + t) == [s] + Words(t)
  {
    var all := s + " " + t;
    if s == "" {
      assert all[1..] == t;
    } else {
      assert all[1..] == s[1..] + " " + t;
      MoreWords(s[1..], t);
      assert [s[0]] + s[1..] == s && ([s[1..]] + Words(t))[1..] == Words(t);
    }
  }

  lemma FieldRead(line: string, rest: string)
    requires CR !in line && line != ""
    ensures ReadFields(line + "\r\n" + rest) ==
            match ReadFields(rest) case None => None case Some((fields, after)) => Some(([line] + fields, after))
  {
    LineWithoutCr(line, rest);
  }

  lemma LineWithoutCr(line: string, rest: string)
    requires CR !in line
    ensures var s := line + "\r\n" + rest; LineEnd(s) == |line| && HasLine(s) && FirstLine(s) == line && AfterLine(s) == rest
  {
    var s := line + "\r\n" + rest;
    assert forall i :: 0 <= i < |line| ==> s[i] == line[i] && line[i] in line;
    assert s[|line|] == CR && s[|line| + 1] == LF;
    LineEndIs(s, |line|);
    assert s[..|line|] == line && s[|line| + 2..] == rest;
  }

  // ---------- What it reads of a request ----------

  /** Text the reader can tell from what is around it. */
  predicate IsSendable(r: Request) {
    && ' ' !in r.verb && CR !in r.verb && ' ' !in r.path && CR !in r.path && CR !in r.host && (r.absolute ==> ' ' !in r.host)
    && forall i :: 0 <= i < |r.headers| ==> CR !in r.headers[i]
  }

  function NotEmpty(lines: seq<string>): seq<string> {
    if lines == [] then [] else (if lines[0] == "" then [] else [lines[0]]) + NotEmpty(lines[1..])
  }

  /** The fields that frame the body: none for a method that has none. */
  function FramingFields(r: Request): seq<string> {
    if r.verb == "GET" || r.verb == "HEAD" || r.verb == "DELETE" then []
    else if !r.hasReader then ["Content-Length: 0"]
    else if r.length.Some? then ["Content-Length: " + Text(r.length.value, Decimal)]
    else ["Transfer-Encoding: chunked"]
  }

  lemma HeadEndRead(r: Request, rest: string)
    ensures ReadFields(HeadEnd(r) + rest) == Some((FramingFields(r) + ["Connection: Close"], rest))
  {
    hide Text, ReadFields, HeadEnd;
    var close := "Connection: Close";
    LastFieldRead(close, rest);
    var end := close + "\r\n\r\n" + rest;
    var fields := FramingFields(r);
    HeadEndIs(r, rest, end);
    if fields == [] {
      assert [] + [close] == [close];
    } else {
      FramingHasNoCr(r);
      FieldRead(fields[0], end);
    }
  }

  lemma HeadEndIs(r: Request, rest: string, end: string)
    requires end == "Connection: Close" + "\r\n\r\n" + rest
    ensures HeadEnd(r) + rest == if FramingFields(r) == [] then end else FramingFields(r)[0] + "\r\n" + end
    ensures |FramingFields(r)| <= 1
  {
    hide Text;
  }

  lemma FramingHasNoCr(r: Request)
    ensures forall i :: 0 <= i < |FramingFields(r)| ==> CR !in FramingFields(r)[i] && FramingFields(r)[i] != ""
  {
    if r.length.Some? {
      var text := Text(r.length.value, Decimal);
      ValueOfText(r.length.value, Decimal);
      assert forall i :: 0 <= i < |text| ==> Digit(text[i], Decimal) >= 0;
      assert CR !in text;
    }
  }

  lemma LastFieldRead(line: string, rest: string)
    requires CR !in line && line != ""
    ensures ReadFields(line + "\r\n\r\n" + rest) == Some(([line], rest))
  {
    EmptyRead(rest);
    hide ReadFields;
    FieldRead(line, "\r\n" + rest);
    assert line + "\r\n" + ("\r\n" + rest) == line + "\r\n\r\n" + rest;
    assert [line] + [] == [line];
  }

  lemma EmptyRead(rest: string)
    ensures ReadFields("\r\n" + rest) == Some(([], rest))
  {
    LineWithoutCr("", rest);
    assert "" + "\r\n" + rest == "\r\n" + rest;
  }

  lemma {:induction false} HeaderLinesRead(headers: seq<string>, rest: string, fields: seq<string>, after: string)
    requires (forall i :: 0 <= i < |headers| ==> CR !in headers[i]) && ReadFields(rest) == Some((fields, after))
    ensures ReadFields(HeaderLines(headers) + rest) == Some((NotEmpty(headers) + fields, after))
  {
    hide ReadFields;
    if headers == [] {
      assert "" + rest == rest && [] + fields == fields;
    } else {
      HeaderLinesRead(headers[1..], rest, fields, after);
      var tail := HeaderLines(headers[1..]) + rest;
      OneHeader(headers, rest, fields);
      if headers[0] != "" {
        FieldRead(headers[0], tail);
      }
    }
  }

  lemma OneHeader(headers: seq<string>, rest: string, fields: seq<string>)
    requires headers != []
    ensures var line, tail := headers[0], HeaderLines(headers[1..]) + rest;
            && HeaderLines(headers) + rest == (if line == "" then tail else line + "\r\n" + tail)
            && NotEmpty(headers) + fields == if line == "" then NotEmpty(headers[1..]) + fields else [line] + (NotEmpty(headers[1..]) + fields)
  {
    var line, lines, names := headers[0], HeaderLines(headers[1..]), NotEmpty(headers[1..]);
    OneLine(headers);
    hide HeaderLines, NotEmpty;
    if line != "" {
      Assoc(line + "\r\n", lines, rest);
      Assoc([line], names, fields);
    }
  }

  lemma OneLine(headers: seq<string>)
    requires headers != []
    ensures HeaderLines(headers) == if headers[0] == "" then HeaderLines(headers[1..]) else headers[0] + "\r\n" + HeaderLines(headers[1..])
    ensures NotEmpty(headers) == if headers[0] == "" then NotEmpty(headers[1..]) else [headers[0]] + NotEmpty(headers[1..])
  {
    assert "" + HeaderLines(headers[1..]) == HeaderLines(headers[1..]) && [] + NotEmpty(headers[1..]) == NotEmpty(headers[1..]);
  }

  lemma RequestLineRead(r: Request, target: string)
    requires ' ' !in r.verb && CR !in r.verb && ' ' !in target && CR !in target
    ensures var line := r.verb + " " + target + " HTTP/1.1"; CR !in line && Words(line) == [r.verb, target, "HTTP/1.1"]
  {
    hide Words;
    var last := "HTTP/1.1";
    assert r.verb + " " + target + " HTTP/1.1" == r.verb + " " + (target + " " + last);
    MoreWords(r.verb, target + " " + last);
    MoreWords(target, last);
    OneWord(last);
  }

  /** A server reads of a request its method, its target, its host, its own headers in order, the empty ones
      left out, and how its body is framed; and what follows is the body. */
  lemma HeadReadBack(r: Request, size: nat, parts: Parts)
    requires IsSendable(r)
    ensures var verb, host := if r.verb == "" then "GET" else r.verb, if r.host == "" then "localhost" else r.host;
            var target := (if !r.absolute then "" else if r.insecure then "http://" + host else "https://" + host)
                          + (if r.path == "" then "/" else r.path);
            var sent := WithFallbacks(r);
            ReadHead(WholeRequest(sent, size, parts).bytes) ==
              Some((Head(verb, target, "HTTP/1.1", ["HOST: " + host] + NotEmpty(r.headers) + FramingFields(sent) + ["Connection: Close"]),
                    BodyOf(sent, size, parts).bytes))
  {
    hide ReadHead, BodyOf, WholeRequest, FramingFields, NotEmpty;
    var w := WithFallbacks(r);
    var target := (if !w.absolute then "" else if w.insecure then "http://" + w.host else "https://" + w.host) + (if w.path == "" then "/" else w.path);
    TargetIs(w, target);
    HeadRead(w, size, parts, target);
  }

  lemma TargetIs(w: Request, target: string)
    requires IsSendable(w) && target == (if !w.absolute then "" else if w.insecure then "http://" + w.host else "https://" + w.host) + (if w.path == "" then "/" else w.path)
    ensures ' ' !in target && CR !in target
    ensures target == (if w.absolute then (if w.insecure then "http://" else "https://") + w.host else "") + (if w.path == "" then "/" else w.path)
  {
  }

  lemma HeadRead(w: Request, size: nat, parts: Parts, target: string)
    requires IsSendable(w) && ' ' !in target && CR !in target
    requires target == (if w.absolute then (if w.insecure then "http://" else "https://") + w.host else "") + (if w.path == "" then "/" else w.path)
    ensures ReadHead(WholeRequest(w, size, parts).bytes) ==
              Some((Head(w.verb, target, "HTTP/1.1", ["HOST: " + w.host] + NotEmpty(w.headers) + FramingFields(w) + ["Connection: Close"]),
                    BodyOf(w, size, parts).bytes))
  {
    hide Words, ReadFields, HeadEnd, HeaderLines, BodyOf, FramingFields, WholeRequest, NotEmpty;
    var body := BodyOf(w, size, parts).bytes;
    RequestLineRead(w, target);
    var line, host := w.verb + " " + target + " HTTP/1.1", "HOST: " + w.host;
    HeadEndRead(w, body);
    var fields := FramingFields(w) + ["Connection: Close"];
    HeaderLinesRead(w.headers, HeadEnd(w) + body, fields, body);
    var tail := HeaderLines(w.headers) + (HeadEnd(w) + body);
    HostRead(w.host, tail);
    LineWithoutCr(line, host + "\r\n" + tail);
    BytesAre(w, size, parts, target);
    Assoc([host], NotEmpty(w.headers), fields);
    Assoc([host] + NotEmpty(w.headers), FramingFields(w), ["Connection: Close"]);
  }

  lemma HostRead(host: string, rest: string)
    requires CR !in host
    ensures ReadFields("HOST: " + host + "\r\n" + rest) ==
            match ReadFields(rest) case None => None case Some((fields, after)) => Some((["HOST: " + host] + fields, after))
  {
    hide ReadFields;
    FieldRead("HOST: " + host, rest);
  }

  lemma BytesAre(r: Request, size: nat, parts: Parts, target: string)
    requires target == (if r.absolute then (if r.insecure then "http://" else "https://") + r.host else "") + (if r.path == "" then "/" else r.path)
    ensures WholeRequest(r, size, parts).bytes ==
            r.verb + " " + target + " HTTP/1.1" + "\r\n" +
            ("HOST: " + r.host + "\r\n" + (HeaderLines(r.headers) + (HeadEnd(r) + BodyOf(r, size, parts).bytes)))
  {
    hide HeaderLines, HeadEnd, BodyOf;
    assert r.headers[0..] == r.headers;
    assert RequestLine(r) == r.verb + " " + target + " HTTP/1.1" + "\r\n";
  }

  // ---------- The body, and the exchange ----------

  /** The body sent: none, for a method that has none or with nothing to read it from; as many bytes of what the
      read callback gives as there should be, unless it ends early; or, with no length given, all that it gives in
      chunks, if the buffer has room for one. */
  lemma BodySent(c: Client, r: Request, size: nat, parts: Parts, rest: string)
    requires size <= SIZE_MAX && |Text(size, Hex)| + 2 <= c.chunkLineRoom
    ensures var sent := BodyOf(r, size, parts);
            if r.verb in {"GET", "HEAD", "DELETE"} || !r.hasReader || r.length == Some(0) then sent == Plan("", None)
            else if r.length.Some? then
              sent == if |Supply(parts)| < r.length.value then Plan(Supply(parts), Some(ReadCallback)) else Plan(Supply(parts)[..r.length.value], None)
            else if size <= |Text(size, Hex)| + 4 then sent == Plan("", Some(TooLargeData))
            else sent.failure == None && Chunks(c, sent.bytes + rest) == Outcome([], Supply(parts), Ok)
  {
    hide Text, Chunks;
    if HasBody(r) && r.length.None? && size > |Text(size, Hex)| + 4 {
      var room := size - ChunkLineRoom(size) - 2;
      TextLengthMonotone(room, size, Hex);
      ChunkedRoundTrip(c, room, parts, rest);
    }
  }

  /** What becomes of a request: no connection; as much of it sent as the connection took; all there was of it, and
      then its own failure; or all of it, and then what the response says. */
  lemma ExchangeIs(c: Client, reachable: bool, w: World, plan: Plan)
    ensures var x, response := Performing(c, reachable, w, plan), Response(c, w.calls, w.incoming);
            if !reachable then x == Exchange(w.sent, w.lines, w.body, SockConnect)
            else if |plan.bytes| > w.room then x == Exchange(w.sent + plan.bytes[..w.room], w.lines, w.body, SockSend)
            else if plan.failure.Some? then x == Exchange(w.sent + plan.bytes, w.lines, w.body, plan.failure.value)
            else x == Exchange(w.sent + plan.bytes, w.lines + response.lines, w.body + response.body, response.code)
  {
    assert w.lines + [] == w.lines && w.body + "" == w.body;
  }
}
