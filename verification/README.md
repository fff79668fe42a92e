# Proofs about Ebisu

A model in Dafny 4.11 of the parts of Ebisu, an SDK for small devices written in C, that carry its
protocols, with proofs that they do what they are for. `dafny verify dfyconfig.toml` checks all of it.

- **HTTP client (khc).** `Khc.dfy` has the state machine as it is: some 25 handlers over a header
  buffer, a stream buffer and a socket that splits and cuts short as it likes. `ResponseDecoder.dfy` and
  `HttpRequest.dfy` say, without any of that, what a whole response means (RFC 9112, sections 6.3 and
  7.1) and which bytes a request is; `HttpReadBack.dfy` reads the latter with the former. `Khc.Perform`
  ties machine and meaning together, and has it that the machine ends. `HttpResponses.dfy` puts responses
  together from status lines, fields and bodies and says what each comes to, and `HttpHeads.dfy` takes
  requests apart as a server does, neither knowing how the other side goes about it.
  `KhcStates.dfy` and `KhcSending.dfy` have what each handler keeps, one lemma a case; `HttpParsing.dfy`
  the loops that read lines, against `HttpText.dfy`.
- **MQTT task (kii).** `MqttSlot.dfy` and `MqttPublish.dfy`: the message slot that callers and the task
  share, every section that holds the lock a step, over every interleaving; `MqttAnswers.dfy`: why a call
  returns what it does. `MqttPackets.dfy`,
  `MqttConnect.dfy`, `MqttNetwork.dfy` and `MqttMessages.dfy`: the packets, sent and received through
  buffers of any size.
  `MqttConnection.dfy`: which packet may go when. `MqttShared.dfy` and `MqttTask.dfy`: the task itself,
  whose every turn is one of the interleavings' steps and keeps its connection legal; `MqttRetry.dfy`: its
  waits. `MqttDelivery.dfy` puts these together: a successful publish means that the bytes of that very
  message went by, and its PUBACK after them.
- **JSON (jkii).** `JsonDocument.dfy` and `JsonCalls.dfy`: which calls describe which trees.
  `JsonWriter.dfy`: the writer, its bits and its three outputs. `JsonGrammar.dfy`: a reader of ECMA-404
  for what it writes. `JsonText.dfy`: escaping and back. `JsonLines.dfy`: the reader of lines.
- **Core.** `Calendar.dfy`, `Clock.dfy`, `StringBuilder.dfy` and `NumberParsing.dfy`.
- **Session (kii).** `Session.dfy`: several clients, one token.

Sockets, callbacks, the cloud's answers, clocks and the order in which callers run are whatever their
documentation allows: classes that choose freely (`KhcEnvironment.dfy`, `MqttNetwork.MqttSocket`,
`MqttShared.SharedSlot`, `JsonWriter.Sink`) or parameters.

Where the code and what is said of it differ, the model has the code:

- Trailers of a chunked body that the end of the stream cuts short are accepted, as `Trailers` has it.
- A task stopped between taking a message and sending it leaves its caller waiting for ever
  (`MqttPublish.StoppedWhileSending`, `StuckForEver`); `EndsClean` and `StuckOnlyBy` say that it is so
  exactly after such a stop.
- A PUBLISH with nothing after its fixed header fails as if it could not be received, and one larger
  than the buffer has its topic dropped unchecked.
- A renewal for a new MQTT endpoint looks at no generation, and a generation is 32 bits, so that a client
  a multiple of 2^32 tokens behind asks to replace a token it never held: `Session.OldAsNew` runs into it,
  and `Renew` says exactly when it is so.

## Model

| member | source | states |
|---|---|---|
| Khc.Khc.Perform | khc/src/khc.c:127-175 | For every request, every response stream and every way recv splits it and send cuts it short, the call ends (a lexicographic measure over waits, request, network, both buffers and state), and the bytes sent, the header lines, the body and the result are exactly those of the pure Performing() on the whole stream; the connection is closed exactly once if it was opened, never otherwise, and it is idle again. Stops with HeaderSkipped, in place of a code, on a header too long for its buffer. |
| Khc.Khc.Turn | khc/src/khc.c:138-138 | Any one state handler leaves what the whole exchange will come to unchanged and makes the measure less. |
| Khc.Khc.ResetExceptRequest | khc/src/khc.c:225-257 | Puts back every field a run changes, the request aside, so that Perform() can start. |
| Khc.Khc.StateIdle | khc/src/khc_state_impl.c:97-108 | Falls back to localhost and GET, which the rest of the run is planned with. |
| Khc.Khc.StateConnect | khc/src/khc_state_impl.c:126-145 | Connects, waits or fails, keeping what the exchange will come to. |
| Khc.Khc.SendPart | khc/src/khc_state_impl.c:186-208 | Of any part of the request, the bytes sent are what is left of it, whatever the socket takes at a time; the handler goes on only once all of it is sent. |
| Khc.Khc.StateReqLine | khc/src/khc_state_impl.c:167-209 | Sends the request line, in pieces of any size, then goes on to the Host header. What a server reads of it is in HttpHeads.HeadReadBack. |
| Khc.Khc.StateReqHostHeader | khc/src/khc_state_impl.c:211-243 | Sends the Host header, then goes on to the first of the others. |
| Khc.Khc.StateReqHeader | khc/src/khc_state_impl.c:245-263 | Skips headers that are empty, and ends after the last. |
| Khc.Khc.StateReqHeaderSend | khc/src/khc_state_impl.c:265-293 | Sends a header. |
| Khc.Khc.StateReqHeaderSendCrlf | khc/src/khc_state_impl.c:295-323 | Sends the CRLF after it, then goes on to the next. |
| Khc.Khc.WriteHeadEnd | khc/src/khc_state_impl.c:347-363 | The end of the header section, with Content-Length, Transfer-Encoding or neither, is what the request says. |
| Khc.Khc.StateReqHeaderEnd | khc/src/khc_state_impl.c:347-401 | Sends it, then goes on to the body, if there is one, or to the response. |
| Khc.Khc.StateReqBodyRead | khc/src/khc_state_impl.c:420-464 | Takes the next part of the body from the read callback, with a known length or as a chunk, or ends it. |
| Khc.Khc.FrameChunk | khc/src/khc_state_impl.c:447-458 | The frame of a chunk, its size line right-aligned before the data, lies inside the stream buffer and is the size in hex, CRLF, the data and CRLF. |
| Khc.Khc.StateReqBodySend | khc/src/khc_state_impl.c:488-521 | Sends what was read, framed or not, in pieces of any size. |
| Khc.Khc.StateRespStatusRead | khc/src/khc_state_impl.c:534-571 | Receives until a line is whole, or there is no room, or no more to come. |
| Khc.Khc.StateRespStatusParse | khc/src/khc_state_impl.c:573-596 | Accepts exactly HTTP/1.x status lines, and keeps the number of their three digits (HttpResponses.StatusIs). |
| Khc.Khc.StateRespHeaderCallback | khc/src/khc_state_impl.c:598-699 | Gives each line once to the header callback, refuses lines that are no header, codings that cannot be removed, bad and conflicting lengths, and frames the body as RFC 9112 section 6.3 has it, interim 1xx, HEAD, 204 and 304 included. |
| Khc.Khc.StateRespHeaderRead | khc/src/khc_state_impl.c:701-729 | Receives more of the header section. |
| Khc.Khc.RespBodyPart | khc/src/khc_state_impl.c:822-831 | How much of what was read is the body's: no more than its length leaves. |
| Khc.Khc.StateRespBodyFragment | khc/src/khc_state_impl.c:833-852 | Gives the write callback what of the body came with the headers. |
| Khc.Khc.MoveHeaderToStream | khc/src/khc_state_impl.c:854-871 | Moves as much of the header buffer as the stream buffer has room for, losing and reordering nothing. |
| Khc.Khc.StateReadChunkSizeFromHeaderBuff | khc/src/khc_state_impl.c:873-880 | Keeps the unread bytes in order on their way to the stream buffer. |
| Khc.Khc.StateReadChunkBodyFromHeaderBuff | khc/src/khc_state_impl.c:882-889 | The same before a chunk's data. |
| Khc.Khc.StateRespBodyRead | khc/src/khc_state_impl.c:891-915 | Receives more of a body that is not chunked, and tells its end from a lost connection. |
| Khc.Khc.StateRespBodyCallback | khc/src/khc_state_impl.c:917-932 | Gives it to the write callback, up to its length. |
| Khc.Khc.StateRespBodyParseChunkSize | khc/src/khc_state_impl.c:934-965 | Takes a chunk's size line off the stream buffer, or refuses it, or asks for more. |
| Khc.Khc.StateRespBodyReadChunkSize | khc/src/khc_state_impl.c:967-1001 | Receives more of a size line, which has to fit. |
| Khc.Khc.StateRespBodyParseChunkBody | khc/src/khc_state_impl.c:1003-1032 | Gives the chunk's data in the stream buffer to the write callback, no further than the chunk goes. |
| Khc.Khc.StateRespBodyReadChunkBody | khc/src/khc_state_impl.c:1034-1062 | Receives more of it. |
| Khc.Khc.StateRespBodySkipChunkBodyCrlf | khc/src/khc_state_impl.c:1070-1132 | Takes exactly the CRLF after it, from either buffer or the network, split anywhere. |
| Khc.Khc.FindTrailerEnd | khc/src/khc_state_impl.c:1135-1148 | Feeding bytes to the matcher finds the CRLF CRLF that ends the trailers exactly where it first ends, over any pieces. |
| Khc.Khc.StateRespBodySkipTrailers | khc/src/khc_state_impl.c:1150-1184 | Skips the trailers, in both buffers and on the network, up to the empty line after them. |
| Khc.Khc.StateClose | khc/src/khc_state_impl.c:1186-1205 | Closes the connection once, waiting as long as it takes, and keeps the result. |
| HttpRequest.ChunkedRoundTrip | khc/src/khc_state_impl.c:420-464 | The chunk frames of a request, read by the decoder of responses, are the concatenation of what the read callback gave, whatever comes after them. |
| HttpReadBack.RequestReadBack | khc/src/khc_state_impl.c:347-464 | Read as a response would be, the headers a request ends its section with frame the body as it was sent, and the body is what the read callback gave, whole. |
| HttpReadBack.LengthLine | khc/src/khc_state_impl.c:355-359 | The Content-Length written is the length read. |
| HttpReadBack.CodingLine | khc/src/khc_state_impl.c:360-362 | Transfer-Encoding is read as chunked. |
| HttpRequest.KnownBodyStep | khc/src/khc_state_impl.c:425-437 | A body of a known length is the same sent part by part. |
| Exchanges.MatchStep | khc/src/khc_state_impl.c:1135-1148 | One more byte moves the trailer matcher to how much of CRLF CRLF ends there. |
| Exchanges.PlanStep | khc/src/khc_state_impl.c:186-208 | Sending some of what is left, or all of it, comes to the same exchange. |
| ResponseDecoder.PlainBodyStep | khc/src/khc_state_impl.c:917-932 | A body given in two parts is the body given in one. |
| ResponseDecoder.ChunkDataStep | khc/src/khc_state_impl.c:1003-1032 | A chunk's data given in two parts is the data given in one. |
| HttpHeads.HeadReadBack | khc/src/khc_state_impl.c:167-401 | A server that takes the head apart by lines and spaces (RFC 9112, sections 3 and 5) reads the method, GET if none is set, the target (/ for no path; scheme, host and path in the absolute form, http exactly if insecure), HTTP/1.1, the host first, then the application's own headers in order, the empty ones left out, and what frames the body, and then exactly the body follows. |
| HttpHeads.BodySent | khc/src/khc_state_impl.c:347-464 | The body is none for GET, HEAD and DELETE, and with no read callback; as many bytes of what the callback gives as the length says, or all of them and a failure where there are fewer; or chunks that decode to all of it. |
| HttpHeads.ExchangeIs | khc/src/khc.c:127-142 | What becomes of a request: no connection; as much of it as the connection took; all there was, and the failure of its body; or all of it and what the response comes to. |
| HttpResponses.StatusIs | khc/src/khc_state_impl.c:585-585 | The status code is the number of the three digits: from 100 to 199 exactly if the first is 1, 204 and 304 exactly if they say so. |
| HttpResponses.InterimRead | khc/src/khc_state_impl.c:670-677 | After any status line whose code starts with 1, any fields and the empty line, the outcome is those lines and then that of the response that follows. |
| HttpResponses.BodilessRead | khc/src/khc_state_impl.c:679-682 | A 204, a 304 and any answer to HEAD is OK with no body, whatever its fields and whatever follows. |
| HttpResponses.FramedRead | khc/src/khc_state_impl.c:683-695 | Any other response is framed by its fields alone: chunks, unless a length is given too or it is HTTP/1.0, which is refused; as many bytes as a length says, or a failure where there are fewer; or all there is, where the server ends it. |
| HttpResponses.FieldsTaken | khc/src/khc_state_impl.c:626-663 | However many fields there are, in any order, what is kept of them is whether chunked is said, and the one length that is. |
| HttpResponses.DisagreeingRead | khc/src/khc_state_impl.c:639-662 | The first field with which the fields disagree, with a coding that cannot be removed, a bad length or a second one, ends the response, after it was given to the callback. |
| HttpResponses.MalformedRead | khc/src/khc_state_impl.c:620-625 | A line that is no field ends the response, and is not given to the callback. |
| HttpResponses.CallbackRefuses | khc/src/khc_state_impl.c:628-634 | A callback that refuses the line ends the response there. |
| HttpResponses.NoStatusLine | khc/src/khc_state_impl.c:534-582 | A first line that is no status line, does not fit, or does not end: which error each is. |
| HttpResponses.ShortHead | khc/src/khc_state_impl.c:701-729 | A head the stream ends in is a failure to receive. |
| HttpResponses.ChunksRead | khc/src/khc_state_impl.c:934-1184 | Chunks put together from any pieces, with sizes in either case and leading zeros, chunk extensions and any trailers, are decoded to the pieces one after another, whatever follows. |
| HttpResponses.ShortChunk | khc/src/khc_state_impl.c:1034-1062 | A chunk the stream ends in gives what there was of it, and fails. |
| HttpResponses.LongChunk | khc/src/khc_state_impl.c:1070-1132 | A chunk longer than its size, so that no CRLF follows, gives as much as its size says and is refused. |
| HttpResponses.NoSize | khc/src/khc_state_impl.c:934-965 | A size line without a size, or one beyond size_t, is refused. |
| HttpResponses.ShortTrailers | khc/src/khc_state_impl.c:1150-1184 | Trailers the stream ends in are accepted if the server ended it, as the code has it, and fail if the connection was lost. |
| HttpResponses.LastCoding | khc/src/khc_impl.c:16-41 | Of a list of codings, with blanks and commas where they may be, chunked is the last exactly if the last name is that, in any case of letters. |
| HttpResponses.ContinueThenOk | khc/src/khc_state_impl.c:670-695 | An example of InterimRead and FramedRead: 100 Continue with a 200 of two bytes right behind it. |
| HttpResponses.WikiRead | khc/src/khc_state_impl.c:934-1184 | An example of ChunksRead: two chunks, one with an extension, and a trailer. |
| HttpText.TokenChars | khc/src/khc_impl.c:216-222 | What a name is made of is visible ASCII but for the delimiters (RFC 9110, section 5.6.2). |
| HttpText.FieldChars | khc/src/khc_impl.c:203-214 | What a value may have is everything but control characters, and the tab. |
| HttpParsing.FindCrlf | khc/src/khc_state_impl.c:525-532 | The first CRLF, if there is one. |
| HttpParsing.IsFieldTextLoop | khc/src/khc_impl.c:207-214 | All bytes are field characters. |
| HttpParsing.HeaderNameLength | khc/src/khc_impl.c:226-232 | How long the token before the colon is. |
| HttpParsing.IsHeaderLineLoop | khc/src/khc_impl.c:234-238 | Exactly a token, a colon and field text (RFC 9112, section 5). |
| HttpParsing.IsHeaderStartLoop | khc/src/khc_impl.c:240-245 | Exactly the start of one. |
| HttpParsing.IsStatusLineLoop | khc/src/khc_impl.c:247-263 | Exactly HTTP/1.x, three digits and a reason (RFC 9112, section 4). |
| HttpParsing.ReadTransferEncodingValue | khc/src/khc_impl.c:16-41 | Whether chunked is the last of a list of codings. |
| HttpParsing.IsChunkedEncoding | khc/src/khc_impl.c:46-77 | Whether a line is Transfer-Encoding, in any case of letters, and ends in chunked. |
| HttpParsing.ReadDigits | khc/src/khc_impl.c:84-90 | What digits stand for, unless it is beyond size_t, with no step that overflows. |
| HttpParsing.ReadContentLengthValue | khc/src/khc_impl.c:81-101 | Exactly digits with blanks around them, within size_t. |
| HttpParsing.ExtractContentLength | khc/src/khc_impl.c:105-136 | Whether a line is Content-Length, in any case of letters, and of which length. |
| HttpParsing.ReadChunkSize | khc/src/khc_impl.c:149-201 | Exactly the size lines of RFC 9112 section 7.1, extensions included, and their size, within size_t. |
| HttpParsing.WriteNumber | khc/src/khc_state_impl.c:332-345 | A number's text in decimal or hex. |
| HttpParsing.HexDigits | khc/src/khc_state_impl.c:409-415 | How many hex digits a size has. |
| HttpText.HeaderNameUnique | khc/src/khc_impl.c:226-232 | A header line has one name. |
| HttpText.LengthIsUnique | khc/src/khc_impl.c:81-101 | A value is at most one length. |
| HttpText.ChunkSizeOfIs | khc/src/khc_impl.c:149-201 | A size line has one size. |
| MqttSlot.CheckRequest | kii/kii_mqtt_task.c:1660-1672 | Which messages are taken, and which error others get: exactly those MQTT can carry, with a topic a PUBLISH may have. Every call in the interleavings has passed it. |
| MqttSlot.PublishSlot.TryGive | kii/kii_mqtt_task.c:1678-1704 | A message is given exactly if the slot is open and free, with the next packet identifier at QoS 1. |
| MqttSlot.PublishSlot.TryCollect | kii/kii_mqtt_task.c:1712-1737 | What a waiting call returns, if it does, and what it leaves of the slot. |
| MqttSlot.PublishSlot.IsQueued | kii/kii_mqtt_task.c:675-684 | Whether a message waits to be sent. |
| MqttSlot.PublishSlot.TryTake | kii/kii_mqtt_task.c:688-700 | Takes exactly a message that is queued. |
| MqttSlot.PublishSlot.TryAck | kii/kii_mqtt_task.c:717-734 | A PUBACK is for the message awaited exactly if its identifier is that message's, whose result then is KII_ERR_OK (MqttAnswers.AcknowledgedIsOk). |
| MqttSlot.PublishSlot.Reconnect | kii/kii_mqtt_task.c:741-754 | Queues an unacknowledged message again with DUP, or drops one whose caller has gone. |
| MqttSlot.PublishSlot.EndSend | kii/kii_mqtt_task.c:1521-1535 | What became of a message sent, or not. |
| MqttSlot.PublishSlot.Close | kii/kii_mqtt_task.c:758-774 | Fails what is queued or awaited; SENDING stays as it is. |
| MqttSlot.NextId | kii/kii_mqtt_task.c:1694-1700 | Identifiers stay in 2..65535 and differ from the one before. |
| MqttPublish.RunKeeps | kii/kii_mqtt_task.c:663-774 | Over every interleaving of the task and any number of callers, the invariant below holds. |
| MqttPublish.OwnedKept | kii/kii_mqtt_task.c:663-774 | Each step keeps exactly one owning caller in QUEUED, SENDING, AWAITING_PUBACK and DONE and none in FREE and ABANDONED. |
| MqttPublish.LogRightKept | kii/kii_mqtt_task.c:719-754 | Each step keeps what was sent and acknowledged in accord with the slot. |
| MqttPublish.SentRightKept | kii/kii_mqtt_task.c:1519-1535 | Each step keeps every message that of one call, and every sending of it what that call was given. |
| MqttPublish.OneOwner | kii/kii_mqtt_task.c:1643-1738 | A caller only collects the result of its own message, and there is one owner at most. |
| MqttPublish.OwnerWaitsWhileSent | kii/kii_mqtt_task.c:1515-1535 | While the task reads topic and payload, in SENDING, the owner cannot return. |
| MqttPublish.OkMeansDelivered | kii/kii_mqtt_task.c:719-734 | KII_ERR_OK at QoS 1 means the message went out whole and then its own identifier was acknowledged on the same connection; at QoS 0, that it went out whole. Its serial number is that of no other call, and whatever was sent under it carries the call's own topic, payload, QoS and RETAIN. |
| MqttPublish.ResendsAndIds | kii/kii_mqtt_task.c:1526-1530 | A sending has DUP exactly if it is not the first of its message, and every resend is of the very message sent first, topic, payload and identifier; the i-th message at QoS 1 has the identifier 2 + i mod 65534, so that neighbours differ (MQTT 3.1.1, section 4.3.2). |
| MqttPublish.EndsClean | kii/kii_mqtt_task.c:758-774 | After the task has ended the slot is FREE, DONE or SENDING, and SENDING exactly if, somewhere in the run, a stop came between taking a message and sending it. |
| MqttPublish.StuckOnlyBy | kii/kii_mqtt_task.c:1579-1584 | Over every run: the task was ever stopped while sending if and only if one of its steps was a stop made in PUBLISHING. |
| MqttPublish.StoppedWhileSending | kii/kii_mqtt_task.c:1579-1584 | A run of eight steps that is so stopped, and ends with the slot SENDING and a caller waiting. |
| MqttPublish.StuckForEver | kii/kii_mqtt_task.c:758-774 | After such a run and any steps that follow it, the task started again or not, the slot is still SENDING and the same caller still waits. |
| MqttAnswers.AnswerHasCause | kii/kii_mqtt_task.c:1643-1738 | Over every interleaving each answer has its cause: KII_ERR_OK that the message was delivered; KII_ERR_FAIL that the call found the slot closed, or the task was stopped with its message queued or awaiting PUBACK; KII_ERR_TIMEOUT that the call gave up; the socket's error that it was at QoS 0 and its sending was cut short. No other answer is given. |
| MqttAnswers.AcknowledgedIsOk | kii/kii_mqtt_task.c:717-734 | A call that waits as its own PUBACK is read returns KII_ERR_OK, whatever happens after, once it returns. |
| MqttAnswers.SentIsOk | kii/kii_mqtt_task.c:1521-1535 | One at QoS 0 returns KII_ERR_OK if its message was sent whole, and the socket's error if it was not. |
| MqttAnswers.LostIsQueued | kii/kii_mqtt_task.c:741-754 | At QoS 1 a message whose sending failed, or that was awaited as the connection was lost, is queued again once the next is accepted, with DUP if it may have been sent. |
| MqttAnswers.CallsGoOn | kii/kii_mqtt_task.c:1678-1737 | No call is kept waiting but by a message being sent: whichever state the slot is in, one with its message in it can time out, and one without can give it, or times out or is refused. |
| MqttShared.SharedSlot.TryTake | kii/kii_mqtt_task.c:688-700 | The task's section is a step of the interleavings, after any steps of any callers; it takes nothing only if, at its own step, nothing was queued, or there is no lock. |
| MqttShared.SharedSlot.LetCallersRun | kii/kii_mqtt_task.c:1643-1738 | Any steps of any callers, each call checked first, leave the task's phase, its connection and what was sent as they are, and the message being sent too. |
| MqttShared.SharedSlot.TryAck | kii/kii_mqtt_task.c:717-734 | So is this one, which the PUBACK is logged with; it acknowledges exactly the identifier awaited as it started to come. |
| MqttShared.SharedSlot.Message | kii/kii_mqtt_task.c:1519-1522 | What the task reads without the lock is the owner's message, still there, of a size MQTT can carry, with a topic a PUBLISH may have. |
| MqttShared.SharedSlot.EndSend | kii/kii_mqtt_task.c:1521-1535 | The message is the same after any steps of any callers, and is logged whole as it was sent. |
| MqttShared.SharedSlot.Close | kii/kii_mqtt_task.c:758-774 | Ends the task's part in the interleavings, with the slot closed. |
| MqttPackets.WriteLength | kii/kii_mqtt_task.c:115-130 | The remaining length in as few bytes as it takes, never more than five. |
| MqttPackets.ReadLength | kii/kii_mqtt_task.c:132-154 | Accepts exactly the encodings of 0..268435455, and gives what was encoded (MQTT 3.1.1, section 2.2.3). |
| MqttPackets.LengthPrefixFree | kii/kii_mqtt_task.c:132-154 | No encoding is the start of another. |
| MqttPackets.EncodesItself | kii/kii_mqtt_task.c:132-154 | What was decoded encodes to the bytes it was read from. |
| MqttPackets.LengthBytes | kii/kii_mqtt_task.c:115-130 | Seven bits a byte, the lowest first: the bytes of table 2.4 of MQTT 3.1.1. |
| MqttPackets.PublishRoundTrip | kii/kii_mqtt_task.c:378-403 | The PUBLISH of a message is read as that message: topic, payload, QoS, RETAIN, DUP and packet identifier. |
| MqttPackets.ReadIsWritten | kii/kii_mqtt_task.c:378-403 | The other way round: bytes read as a message are, byte for byte, what is sent of that message. |
| Utf8.IsPublishTopic | kii/kii_mqtt_task.c:599-648 | Accepts exactly non-empty well-formed UTF-8 (RFC 3629, section 3) without U+0000, + and #. |
| Utf8.PointIsEncoded | kii/kii_mqtt_task.c:620-644 | Bytes accepted are the encoding of the code point they come to. |
| Utf8.EncodedIsPoint | jkii/src/jkii.c:1214-1236 | Every code point but the surrogates is accepted as _jkii_utf8() writes it. |
| Utf8.EncodedIsTopic | jkii/src/jkii.c:1214-1236 | Of every code point a topic may have, what _jkii_utf8() writes is one. |
| MqttNetwork.SendAll | kii/kii_mqtt_task.c:325-339 | All of the data, in as many sends as the socket takes, or as far as the connection takes it. |
| MqttNetwork.MqttOut.Put | kii/kii_mqtt_task.c:358-374 | Whatever the buffer's size, what was put is what was sent and what the buffer holds. |
| MqttNetwork.MqttOut.Flush | kii/kii_mqtt_task.c:350-356 | All that was put has been sent. |
| MqttNetwork.SendPublish | kii/kii_mqtt_task.c:378-403 | A PUBLISH goes out whole, byte for byte, through a buffer of any size of at least 1 and any short sends. |
| MqttNetwork.SendBuilt | kii/kii_mqtt_task.c:218-242 | CONNECT and SUBSCRIBE, built from the eighth byte of the buffer on and moved back behind their fixed header, go out as that packet. |
| MqttNetwork.RecvLength | kii/kii_mqtt_task.c:420-453 | Reads exactly one remaining length; it fails only if the socket had nothing to give, or with bytes that start no length. |
| MqttNetwork.RecvHeader | kii/kii_mqtt_task.c:455-465 | Reads exactly one fixed header; it fails only if the socket had nothing to give, or with bytes that start none. |
| MqttNetwork.RecvRemaining | kii/kii_mqtt_task.c:521-548 | Reads exactly as many bytes as asked for; it fails only if the socket had nothing to give, or none were asked for. |
| MqttNetwork.RecvTrash | kii/kii_mqtt_task.c:483-519 | Drops exactly as many bytes as asked for; it fails only if the socket had nothing to give. |
| MqttNetwork.RecvPacket | kii/kii_mqtt_task.c:984-1009 | Reads exactly one packet of a type and size; it fails only if the socket had nothing to give, or with bytes that start no such packet. |
| MqttNetwork.OneHeader | kii/kii_mqtt_task.c:420-453 | Bytes start with at most one fixed header. |
| MqttMessages.ReadMessage | kii/kii_mqtt_task.c:1422-1471 | What the callback is given of a PUBLISH that fits is the message its bytes are, the topic moved over its length and terminated, the payload intact, or it is malformed. |
| MqttMessages.MoveTopic | kii/kii_mqtt_task.c:1458-1463 | Moving the topic leaves what follows it. |
| MqttMessages.ReadFields | kii/kii_mqtt_task.c:1438-1452 | Malformed exactly if the topic or packet identifier do not fit or MQTT does not allow them. |
| MqttMessages.DropMessage | kii/kii_mqtt_task.c:1343-1383 | Of a PUBLISH larger than the buffer exactly its bytes are dropped, and its identifier kept, unless it is malformed; it fails only if the socket had nothing to give, or with bytes that start no such PUBLISH. |
| MqttConnection.OnlyAfter | kii/kii_mqtt_task.c:910-1153 | On any connection CONNECT is first, SUBSCRIBE and DISCONNECT come only after a CONNACK that accepts it, PUBLISH and PINGREQ only after a SUBACK that grants the subscription. |
| MqttConnection.OnePing | kii/kii_mqtt_task.c:1486-1513 | At most one PINGREQ is unanswered. |
| MqttConnection.AcknowledgedNext | kii/kii_mqtt_task.c:1473-1481 | A message at QoS 1 is acknowledged next, with its own identifier, and nothing else is. |
| MqttConnection.RecordGrows | kii/kii_mqtt_task.c:1202-1313 | Any packet allowed keeps the record of all connections legal, and equal to what the application was given and, message by message, what the interleavings sent. |
| MqttDelivery.OkWasAcknowledged | kii/kii_mqtt_task.c:717-734 | If a call at QoS 1 returned KII_ERR_OK, then on some one connection, a legal one, the bytes of the PUBLISH of its own message, with the topic, payload, QoS and RETAIN it was called with, went out whole, and after them a PUBACK with that message's identifier came in. |
| MqttDelivery.OkWasSent | kii/kii_mqtt_task.c:1521-1535 | If one at QoS 0 did, those bytes went out whole. |
| MqttDelivery.OkWasDelivered | kii/kii_mqtt_task.c:1572-1610 | Both of the task itself: between any two of its turns, and once it has ended, for every call there was. |
| MqttDelivery.MarkIsBytes | kii/kii_mqtt_task.c:378-403 | What shows of a message on the wire is all of its bytes. |
| MqttDelivery.PublishDelivered | kii/kii_mqtt_task.c:1385-1484 | The packet _mqtt_send_publish() makes of a message, received into a buffer that holds it, is taken, and the callback is given that very message. |
| MqttConnect.ConnectRead | kii/kii_mqtt_task.c:156-216 | A broker, for whom MQIsdp at level 3 and MQTT at level 4 are the versions there are, reads of the CONNECT sent what the application set: version, clean session, keep-alive, client identifier, will, user name and password (MQTT 3.1.1, section 3.1). |
| MqttConnect.SubscribeRead | kii/kii_mqtt_task.c:249-274 | And of the SUBSCRIBE its identifier, topic and QoS. |
| MqttConnect.FlagsRead | kii/kii_mqtt_task.c:173-183 | What each of the connect flags says. |
| MqttConnect.ConnectBody | kii/kii_mqtt_task.c:942-965 | The check of the buffer's size is exact: room for eight bytes, the body and a terminator. |
| MqttTask.MqttTask.constructor | kii/kii_mqtt_task.c:776-806 | Where the task starts, with nothing connected. |
| MqttTask.MqttTask.OnInstallPush | kii/kii_mqtt_task.c:849-867 | Goes on, tries again after a wait that counts one failure more, or exits, by what the cloud answered. |
| MqttTask.MqttTask.OnGetEndpoint | kii/kii_mqtt_task.c:888-908 | The same, for the endpoint. |
| MqttTask.MqttTask.OnSockConnect | kii/kii_mqtt_task.c:910-940 | Connects only a closed socket, and starts a connection's record; not connected is one failure more in a row. |
| MqttTask.MqttTask.OnSendConnect | kii/kii_mqtt_task.c:942-977 | Sends CONNECT, the first packet, if the buffer has room for it, and leaves none of it in the buffer. |
| MqttTask.MqttTask.OnRecvConnack | kii/kii_mqtt_task.c:979-1062 | Goes on exactly if what was read is a CONNACK that accepts the connection; closes the socket exactly if it refuses the credentials; and reconnects only if the socket had nothing to give, or what was read is another CONNACK, or the start of none. |
| MqttTask.MqttTask.OnSendSubscribe | kii/kii_mqtt_task.c:1064-1086 | Sends SUBSCRIBE, if the buffer has room for it. |
| MqttTask.MqttTask.OnRecvSuback | kii/kii_mqtt_task.c:1088-1154 | Subscribed exactly if what was read is a SUBACK that grants it, which ends the failures in a row; a message first exactly if it is the fixed header of a PUBLISH; reconnects only if the socket had nothing to give, or what was read starts neither, or is a SUBACK that grants nothing. |
| MqttTask.MqttTask.WaitForPacket | kii/kii_mqtt_task.c:1179-1200 | Waits a turn at a time, n of them for the lesser of n turns' time and the receive timeout; gives up exactly as that has run out, or with a message there to be sent; and does not wait another turn with one queued all along. Its time stays within 32 bits. |
| MqttTask.MqttTask.OnRecvReady | kii/kii_mqtt_task.c:1202-1313 | PINGREQ exactly if it is due. Otherwise, with a lock, a queued message is taken: there was a time between its start and its end when none was queued, or SEND_PUBLISH is next. Then by what was read: a message, a PINGRESP, a PUBACK, which goes on exactly with the identifier awaited; it reconnects only if the socket had nothing to give, or with bytes that start nothing it takes. With no byte read it reconnects exactly if the socket said that the connection ended, or failed with the connection lost by then; and it waits for a packet exactly if the socket can, and there is a lock. |
| MqttTask.MqttTask.TakePuback | kii/kii_mqtt_task.c:1271-1289 | Reads two bytes of identifier, and goes on exactly if they acknowledge the message awaited. |
| MqttTask.MqttTask.OnRecvMsg | kii/kii_mqtt_task.c:1385-1484 | Delivers exactly messages that are well formed and fit, acknowledges exactly those at QoS 1, dropped ones included, and goes back to waiting exactly if that went out. A message is not taken only if the socket had nothing to give, or with bytes that start none that may be. |
| MqttTask.AnswersAre | kii/kii_mqtt_task.c:979-1154 | The CONNACKs that accept and that refuse the credentials, the SUBACKs that grant, PINGRESP and PUBACK, byte by byte (MQTT 3.1.1, sections 3.2, 3.4, 3.9 and 3.13). |
| MqttTask.MqttTask.OnSendPingreq | kii/kii_mqtt_task.c:1486-1513 | Sends PINGREQ, unless the last is unanswered. |
| MqttTask.MqttTask.OnSendPublish | kii/kii_mqtt_task.c:1515-1545 | The bytes sent are those of the message in the slot, whole or as far as the connection takes them. |
| MqttTask.MqttTask.OnReconnect | kii/kii_mqtt_task.c:1547-1555 | Closes the connection, and starts again after the wait for one failure more. |
| MqttTask.MqttTask.Turn | kii/kii_mqtt_task.c:1594-1594 | Every state keeps the task's invariant: the socket open exactly when the state says so, both ends of the connection on packet boundaries wherever a packet is awaited or about to be sent, the record legal, the phase that of the interleavings, and the wait that of the failures in a row. It is made only with no wait left. Which states come after which is the table Follows; and no turn does nothing: the state is another, or there is a failure more, or the socket had nothing, or bytes of a packet came. |
| MqttTask.MqttTask.Run | kii/kii_mqtt_task.c:1572-1610 | However long the task runs, every connection is legal, and the socket is closed and the slot with it as it ends. What it went through is a path of the table of states, it ends by itself only in ERR_EXIT, stopped only after as many turns as it was to run for, and between any two states it waits no longer than the longest wait. |
| MqttTask.MqttTask.Finish | kii/kii_mqtt_task.c:1596-1614 | Says DISCONNECT exactly if the broker accepted the connection, closes it, and knows of none any more. |
| MqttRetry.Retry.Schedule | kii/kii_mqtt_task.c:813-828 | After n failures in a row one more makes the task wait half to all of min(2000 * 2^n ms, the longest), within 32 bits. |
| MqttRetry.Retry.Restart | kii/kii_mqtt_task.c:1145-1147 | Once subscribed there are no failures in a row, so that the next waits as the first does. |
| MqttRetry.Retry.Pass | kii/kii_mqtt_task.c:1586-1593 | A second at a time, or what is left: what was waited and what is left stay what the failures in a row ask for. |
| MqttRetry.NthWait | kii/kii_mqtt_task.c:813-828 | Doubling what is kept for the next failure, within the limit, is the closed form Schedule() promises. |
| JsonText.EscapeStr | jkii/src/jkii.c:1124-1185 | Fails exactly if the escaped length and a terminator exceed the buffer, which then holds the escaped string, or an empty one. |
| JsonText.EscapesAre | jkii/src/jkii.c:1124-1185 | Backspace, tab, line feed, form feed, carriage return, the quote, the slash and the backslash take two bytes, with their letters; other control characters six, with their two hex digits; all else is itself. |
| JsonText.UnescapeStr | jkii/src/jkii.c:1238-1312 | Accepts exactly what reads as characters of RFC 8259 section 7, none of them NUL, that fit, and gives what they stand for. |
| JsonText.NextItem | jkii/src/jkii.c:1245-1299 | The character at a position, or none exactly where the string is refused. |
| JsonText.UnicodeEscape | jkii/src/jkii.c:1189-1210 | Exactly the code units of \u escapes. |
| JsonText.UnitIsValue | jkii/src/jkii.c:1189-1210 | A code unit is the number its four hex digits stand for. |
| JsonText.UnescapesExactly | jkii/src/jkii.c:1238-1312 | A string is accepted if and only if it is written as such characters, and it is in only one way. |
| JsonText.MeantIsNoLonger | jkii/src/jkii.c:1238-1312 | A buffer one longer than the string is always enough. |
| JsonText.UnescapeOfEscape | jkii/src/jkii.c:1124-1312 | Unescaping what escaping writes is the identity on strings without NUL. |
| JsonDocument.CallAdds | jkii/src/jkii_writer.c:102-182 | Each call that can be made adds exactly its part of the rendering, and itself to the calls that describe what is open and whole. |
| JsonCalls.TakenExactly | jkii/src/jkii_writer.c:102-182 | Any calls are taken, and may end, if and only if they are those that describe records, and perhaps one more value, nested no deeper than 16. |
| JsonCalls.CallsDescribe | jkii/src/jkii_writer.c:102-182 | What calls come to is described by those calls alone. |
| JsonCalls.ValueTaken | jkii/src/jkii_writer.c:102-182 | The calls of any value are taken wherever one can go, if it is not too deep. |
| JsonGrammar.ValueRead | jkii/src/jkii_writer.c:185-233 | An ECMA-404 reader reads any rendered value back, whatever follows it. |
| JsonGrammar.DescribedIsRead | jkii/src/jkii_writer.c:426-438 | What any calls put out is read back as the one thing they describe. |
| JsonGrammar.CharsRead | jkii/src/jkii_writer.c:185-233 | An escaped string, quoted, is read back. |
| JsonWriter.Writer.constructor | jkii/src/jkii_writer.c:10-33 | Starts with nothing written. |
| JsonWriter.Writer.Flush | jkii/src/jkii_writer.c:49-58 | The callback gets what the buffer holds, never more than that, or the writer stops. |
| JsonWriter.Writer.Put | jkii/src/jkii_writer.c:61-93 | Counts everything, and keeps it in the buffer with its terminator, or with the callback, in order, or not at all once it did not fit. |
| JsonWriter.Writer.PutEscaped | jkii/src/jkii_writer.c:185-233 | Puts out the same bytes that jkii_escape_str() writes, quoted. |
| JsonWriter.Writer.BeginValue | jkii/src/jkii_writer.c:102-123 | Refuses a value exactly where none can go, from the bits of _levels alone. |
| JsonWriter.Writer.Start | jkii/src/jkii_writer.c:134-145 | Opens a container exactly where a value can go and none too deep, and keeps the bits an image of the containers open. |
| JsonWriter.Writer.End | jkii/src/jkii_writer.c:147-162 | Closes the innermost container exactly if it is of that kind and no key waits for its value. |
| JsonWriter.Writer.WriteKey | jkii/src/jkii_writer.c:235-257 | Takes a key exactly where one can go. |
| JsonWriter.Writer.WriteString | jkii/src/jkii_writer.c:259-277 | Writes a string, escaped, where a value can go. |
| JsonWriter.Writer.WriteNumber | jkii/src/jkii_writer.c:296-308 | Writes an integer of 64 bits, INT64_MIN included, where a value can go. |
| JsonWriter.Writer.WriteInt | jkii/src/jkii_writer.c:310-315 | The magnitude is taken without overflow. |
| JsonWriter.Writer.WriteBool | jkii/src/jkii_writer.c:390-393 | Writes true or false. |
| JsonWriter.Writer.WriteNull | jkii/src/jkii_writer.c:395-398 | Writes null. |
| JsonWriter.Writer.EndRecord | jkii/src/jkii_writer.c:412-424 | Ends a record exactly after a whole value at the top. |
| JsonWriter.Writer.Finish | jkii/src/jkii_writer.c:426-438 | Succeeds exactly if what was written is whole and went where it should; says its length in every mode. |
| JsonWriter.Writer.WriteAll | jkii/src/jkii_writer.c:49-438 | For any calls: success only if they describe something whole; then a dry run reports its length, a buffer longer than that holds it, terminated, a shorter one gives TOO_LARGE and the same length, and a callback that takes it all gets the same text. |
| JsonWriter.Decimals | jkii/src/jkii_writer.c:282-294 | A number's digits, never more than the array's 20. |
| JsonWriter.BitsOf | jkii/src/jkii_writer.c:6-8 | What each bit of a level says of its container. |
| JsonLines.Lines.Feed | jkii/src/jkii_lines.c:51-92 | Consumes up to the end of the first line that is a record or too long, or everything, and says which, as the pure splitter does of all that has come. |
| JsonLines.Lines.TakeRecord | jkii/src/jkii_lines.c:34-49 | The record in the buffer, trimmed and terminated, unless it is blank. |
| JsonLines.Lines.Finish | jkii/src/jkii_lines.c:94-109 | What is left of the data is a record cut short, one too long, or nothing, and nothing is left after. |
| JsonLines.Lines.Read | jkii/src/jkii_lines.c:24-109 | The outcomes, with their texts, are those of the concatenated data, however it is split into pieces. |
| JsonLines.OutcomesAppend | jkii/src/jkii_lines.c:51-92 | What a text comes to, split anywhere, is what its parts come to with the line between them kept. |
| JsonLines.RecordsRead | jkii/src/jkii_writer.c:412-424 | Records written with jkii_write_record_end() that fit the buffer are read back one by one, unchanged. |
| JsonLines.RenderIsLine | jkii/src/jkii_writer.c:185-233 | A rendered value has no line end in it, and is no blank line. |
| JsonLines.LineComesTo | jkii/src/jkii_lines.c:34-49 | Any line that ends in LF or in CRLF is the record before that; nothing if it has only blanks; and too long exactly if it does not fit with its CR. |
| Calendar.DivisionCounts | core/src/ebisu_time.c:28-35 | _days_from_civil() is the count of days, month by month. |
| Calendar.DaysInOrder | core/src/ebisu_time.c:28-35 | The days of dates are in the dates' order, strictly. |
| Calendar.FromCivil | core/src/ebisu_time.c:37-57 | Accepts exactly the dates and times of years 1 to 9999, a leap second at the end of a day included. |
| Calendar.ThereAndBack | core/src/ebisu_time.c:37-91 | ebisu_time_to_civil() gives back any date and time ebisu_time_from_civil() takes, second 60 aside, with its weekday. |
| Calendar.BackAndThere | core/src/ebisu_time.c:62-91 | For exactly -62135596800..253402300799 there is a date, which gives back the second, and whose weekday is days since the epoch plus 4, modulo 7. |
| Calendar.YearFound | core/src/ebisu_time.c:75-77 | Of every day of 400 years the division finds the year. |
| Clock.TrustedClock.constructor | core/src/ebisu_clock.c:30-39 | Starts with a floor that is past and no time. |
| Clock.TrustedClock.SetExactFor | core/src/ebisu_clock.c:46-51 | From now on a time is exact exactly as long after it was given as this says, the one given already too; a longer span makes nothing inexact. |
| Clock.TrustedClock.SetFloor | core/src/ebisu_clock.c:53-60 | The floor only goes up. |
| Clock.TrustedClock.SetTime | core/src/ebisu_clock.c:62-74 | Takes exactly a time no earlier than the floor, if there is a monotonic clock. |
| Clock.TrustedClock.Counted | core/src/ebisu_clock.c:81-102 | Counts on from the time given; once that is not exact, a lower bound; and forgets it, keeping it as the floor, exactly if the source went back. |
| Clock.TrustedClock.GetTime | core/src/ebisu_clock.c:104-121 | The time is exact exactly if the one given is fresh and not below the floor. Otherwise it is the later of the floor and of the time counted on less 1%, while the source has not gone back, which is below true time plus one second. The floor does not go down. |
| Clock.TrustedClock.ForgetTime | core/src/ebisu_clock.c:123-142 | The floor becomes what was counted, less 1%, or the time given, if the source went back, and stays as it is if that is no later. |
| Clock.TrustedClock.CheckValidity | core/src/ebisu_clock.c:144-158 | By the exact time, what it says; without, nothing is not yet valid, and expired is exactly what the lower bound is past. |
| Clock.LessOnePercent | core/src/ebisu_clock.c:92-100 | E - E / 100 seconds of a source at most 1% fast are less than a second more than passed. |
| Clock.UseClock | core/src/ebisu_clock.c:46-158 | Over every run, the span changed at any time: each time not exact is a lower bound, each certificate not checked by the exact time is never NOT_YET_VALID and EXPIRED only if it has; what is exact is a time given earlier, counted on for less than the span set last; and the floor never decreases, nor is it ever below one that was set. |
| Clock.SaidIsRight | core/src/ebisu_clock.c:81-158 | What the clock says in one use is right in the run it is part of. |
| StringBuilder.WriteDigits | core/src/ebisu_str.c:70-80 | The digits of a number, at least so many, end where asked, with nothing else touched. |
| StringBuilder.StrBuf.Append | core/src/ebisu_str.c:40-54 | All of a string is appended, or, if it does not fit with its terminator, none of it and nothing after it. |
| StringBuilder.StrBuf.AppendUint | core/src/ebisu_str.c:82-87 | The 20 digits of scratch space are enough for every 64-bit value. |
| StringBuilder.StrBuf.AppendInt | core/src/ebisu_str.c:95-103 | 21 are for every signed one, INT64_MIN included. |
| StringBuilder.StrBuf.AppendHex | core/src/ebisu_str.c:105-119 | 16 are in hex, however many digits are asked for. |
| StringBuilder.StrBuf.AppendFixed | core/src/ebisu_str.c:140-163 | 39 are with any number of decimals up to 18. |
| StringBuilder.WriteFixed | core/src/ebisu_str.c:156-158 | The integer part, the point and the decimals, with room for a sign. |
| StringBuilder.ValueOfPadded | core/src/ebisu_str.c:70-80 | Leading zeros change nothing. |
| NumberParsing.ParseDigits | core/src/ebisu_str.c:218-246 | Good exactly if all bytes are digits and the unbounded value is at most max, with no step beyond 64 bits. |
| NumberParsing.SignedValue | core/src/ebisu_str.c:299-320 | Good exactly within min and max, INT64_MIN included. |
| NumberParsing.ParseInt | core/src/ebisu_str.c:322-339 | Good exactly if the span is an integer from min up to max, and which error otherwise. |
| NumberParsing.ParseFixed | core/src/ebisu_str.c:341-392 | Good exactly if the span is a number with no more decimals than asked for, that scaled is from min up to max, and which error otherwise. |
| NumberParsing.ParseScaled | core/src/ebisu_str.c:379-391 | The scaled magnitude, if 64 bits hold it, with no step beyond them. |
| NumberParsing.IntRoundTrip | core/src/ebisu_str.c:322-339 | What ebisu_strbuf_append_int() writes of any value is parsed as it. |
| NumberParsing.IntIsDigits | core/src/ebisu_str.c:322-339 | An integer is digits, with one sign before them or none, and nothing else is one. |
| NumberParsing.SignIs | core/src/ebisu_str.c:322-392 | + before a number changes nothing, and - makes it the opposite. |
| NumberParsing.FixedIsDigits | core/src/ebisu_str.c:341-378 | A number is digits, or digits on both sides of one point, and nothing else is one. |
| Numerals.ValueByPlaces | core/src/ebisu_str.c:218-246 | The first digit counts for most: what digits stand for is their sum, each place worth the base times the next. |
| Numerals.DigitIsPlace | core/src/ebisu_str.c:199-212 | Which characters are digits, and of which value. |
| NumberParsing.HexRoundTrip | core/src/ebisu_str.c:253-256 | So is what is written in hex. |
| NumberParsing.FixedRoundTrip | core/src/ebisu_str.c:341-392 | So is what is written with 0 to 18 decimals. |
| Session.SharedSession.Renew | kii/kii_session.c:412-465 | The server is asked if and only if the tokens issued since the client took its own are a multiple of 2^32, the renewal is forced or due, and there is a refresh token or a password that may be tried to ask with; it is due no earlier than the stored token's time, and from then on. The answer to the refresh token decides, unless that is refused or there is none, and then that to the password, if it is tried. It succeeds if and only if the deciding answer is a token; then the session and the client have that token, the old refresh token kept if a refresh brought none and none kept after onboarding, with the renewal time its lifetime makes; otherwise they keep the one there was. A client with another generation only takes the session's token. |
| Session.SharedSession.PasswordUsable | kii/kii_session.c:220-231 | Never sooner after a refusal than the wait says, wherever the clock's origin is, and no later, but for whole rounds of the clock. |
| Session.SharedSession.PasswordTried | kii/kii_session.c:244-258 | After n refusals in a row the wait is min(5 * 2^(n-1), 60) minutes from when the last one was answered; an acceptance ends it. |
| Session.SharedSession.OnboardAgain | kii/kii_session.c:362-380 | The credentials are tried exactly when they may be, and what became of it is kept, from the time it is decided on to the time it is answered. |
| Session.SharedSession.OnboardForEndpoint | kii/kii_session.c:394-407 | The one renewal that looks at no generation: it asks exactly if the credentials may be tried. |
| Session.SharedSession.Store | kii/kii_session.c:192-206 | A token more, with its generation, when it was stored and when to renew it. |
| Session.SharedSession.DueInTime | kii/kii_session.c:260-270 | Due never before the token's time to be renewed, and always from then on, but for whole rounds of the clock. |
| Session.SharedSession.Publish | kii/kii_session.c:208-216 | What a login or onboarding of a client's own got is the session's, with how it is renewed and when. |
| Session.AnswerCounts | kii/kii_session.c:233-258 | A token ends the wait, a refusal makes it longer, and no answer at all leaves it as it is. |
| Session.SharedSession.SetPassword | kii/kii_session.c:76-93 | New credentials end the wait. |
| Session.RenewAfter | kii/kii_session.c:178-190 | Renewed after four fifths of the lifetime or five minutes before its end, whichever is later, for a lifetime of 1 to 2^32 - 1 seconds, and at no known time for any other. |
| Session.WaitDoubles | kii/kii_session.c:244-258 | Doubling between the limits is the closed form. |
| Session.ElapsedIsRight | kii/kii_session.c:220-231 | The unsigned difference of two readings is what has passed, but for whole rounds of 2^64 ms. |
| Session.OldAsNew | kii/kii_session.c:412-418 | After any n tokens a client that still holds the first, and is refused, asks for a renewal exactly if n is a multiple of 2^32: with n = 2^32 it replaces a token it never held. |
| Session.SameGeneration | kii/kii_session.c:414-418 | Two tokens have one generation exactly if a multiple of 2^32 lies between them. |
| Session.UseSession | kii/kii_session.c:76-465 | Over every interleaving of clients and any answers: each call for a renewal asks the server exactly as above, onboarding for an endpoint whatever the generation; the tokens there have been are those published, set and issued, each once, in that order; and refused credentials are never tried again before the wait since the answer that refused them is over. |

## Left out

- Khc.Khc.Perform: does not follow a response with a header line longer than the header buffer past the point where the code starts to skip it, because from there on what the code accepts depends on how the bytes are split.
- Khc.Khc.StateClose: does not model the timeout and the continue callback of khc_perform(), with which a connection may be left open.
- The Date header, which only sets a clock's floor, the socket's error details, logging, allocating the buffers when none are set, and clearing them afterwards.
- Header buffers below 2 bytes and stream buffers of 0; read callbacks that return more than they were asked for; write callbacks that take less than all.
- MqttTask.MqttTask.OnRecvReady: does not model the keep-alive's clock; whether PINGREQ is due is free, and a wait for a packet takes any number of turns, but not for ever.
- MqttTask.MqttTask.OnInstallPush: does not model the requests to the cloud, nor those for an endpoint; what they come to is a parameter.
- MqttRetry.Retry.Schedule: does not model the hash of the thing's ID, which may be any number.
- MqttTask.MqttTask.Run: does not model the handlers' own delays, the events told to the application and the log, nor a run that never ends; a run of any length, stopped by the application or not, is one.
- kii_mqtt_publish()'s checks for NULL and for a QoS there is none of, and its clock, which whether a call has timed out stands for.
- JsonWriter.Writer.WriteAll: does not model jkii_write_raw(), which copies what it is given, nor jkii_write_double().
- JsonGrammar.ValueRead: does not read fractions and exponents, which the integers written have none of.
- JsonWriter.Writer.constructor: does not model jkii_writer_init_cb() without a buffer or a callback, after which every call fails.
- JsonText.EscapeStr: does not model the result's conversion to int for strings of 2 GB.
- Session.UseSession: does not model the requests behind a renewal, the Authorization header and the buffers put back after it, nor the callback told of a new token.
- Clock.TrustedClock.GetTime: does not model its lock, under which each of its calls runs whole, nor seconds beyond 64 bits.
- ebisu_strlcpy(), spans, pairs of hex digits, and strbuf's room and commit, which would add easy members.
- coreJSON and everything that parses JSON through it, tio, the REST wrappers, TLS and the platform ports, locks themselves.
