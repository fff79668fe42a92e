/** What becomes of a whole request and its response: what was sent, what the callbacks were given,
    and the result, from any point of them on. */
module Exchanges {
  import opened Options
  import opened HttpText
  import opened ResponseDecoder
  import opened HttpRequest

  datatype Exchange = Exchange(sent: string, lines: seq<string>, body: string, code: Code)

  /** What has been sent and given so far, and what is still to come: of the socket, what it was sent,
      has room for, will receive, and how often it will have to be waited for; of the application,
      what it was given, how many headers it will take, and what it will give. */
  datatype World = World(sent: string, room: nat, incoming: string, waits: nat,
                         lines: seq<string>, body: string, calls: nat, parts: Parts)

  /** Once the request is sent, o is what the rest of the response comes to. */
  function Responding(w: World, o: Outcome): Exchange {
    Exchange(w.sent, w.lines + o.lines, w.body + o.body, o.code)
  }

  /** While the request is sent, plan is what is left of it. A connection that doesn't take it all
      takes what it has room for. */
  ghost function Requesting(c: Client, w: World, plan: Plan): Exchange {
    if |plan.bytes| > w.room then Responding(w.(sent := w.sent + plan.bytes[..w.room]), Stop(SockSend))
    else if plan.failure.Some? then Responding(w.(sent := w.sent + plan.bytes), Stop(plan.failure.value))
    else Responding(w.(sent := w.sent + plan.bytes), Response(c, w.calls, w.incoming))
  }

  /** The whole of it. */
  ghost function Performing(c: Client, reachable: bool, w: World, plan: Plan): Exchange {
    if reachable then Requesting(c, w, plan) else Responding(w, Stop(SockConnect))
  }

  lemma PlanStep(c: Client, w: World, plan: Plan, n: nat)
    requires n <= |plan.bytes| && n <= w.room
    ensures Requesting(c, w, plan) ==
            Requesting(c, w.(sent := w.sent + plan.bytes[..n], room := w.room - n), plan.(bytes := plan.bytes[n..]))
  {
    assert w.sent + plan.bytes[..n] + plan.bytes[n..] == w.sent + plan.bytes;
    if |plan.bytes| > w.room {
      assert w.sent + plan.bytes[..n] + plan.bytes[n..][..w.room - n] == w.sent + plan.bytes[..w.room];
    }
  }

  lemma PlanRefused(c: Client, w: World, plan: Plan)
    requires plan.bytes != "" && w.room == 0
    ensures Requesting(c, w, plan) == Responding(w, Stop(SockSend))
  {
    assert w.sent + plan.bytes[..0] == w.sent;
  }

  lemma PlanDone(c: Client, w: World, plan: Plan)
    requires plan.bytes == ""
    ensures Requesting(c, w, plan) ==
            Responding(w, if plan.failure.Some? then Stop(plan.failure.value) else Response(c, w.calls, w.incoming))
  {
    assert w.sent + plan.bytes == w.sent;
  }

  lemma LineGiven(w: World, line: string, calls: nat, o: Outcome)
    ensures Responding(w, Line(line, o)) == Responding(w.(lines := w.lines + [line], calls := calls), o)
  {
    assert w.lines + ([line] + o.lines) == w.lines + [line] + o.lines;
  }

  lemma BodyGiven(w: World, part: string, o: Outcome)
    ensures Responding(w, Body(part, o)) == Responding(w.(body := w.body + part), o)
  {
    assert w.body + (part + o.body) == w.body + part + o.body;
  }

  // ---------- Lines in a buffer that has only part of the stream ----------

  lemma LineInBuffer(a: string, b: string, room: nat)
    requires HasLine(a) && |a| <= room
    ensures LineFits(a + b, room)
    ensures FirstLine(a + b) == FirstLine(a) && AfterLine(a + b) == AfterLine(a) + b
  {
    LineOfPrefix(a, b);
  }

  lemma NoRoomForLine(a: string, b: string, room: nat)
    requires !HasLine(a) && |a| == room
    ensures !LineFits(a + b, room) && |a + b| >= room && (a + b)[..room] == a
  {
    LinePastPrefix(a, b);
  }

  lemma NoMoreLine(a: string, room: nat)
    requires !HasLine(a)
    ensures !LineFits(a + "", room) && a + "" == a
  {
    assert a + "" == a;
  }

  /** A status line is no header that frames a body. */
  lemma StatusLineFramesNothing(line: string)
    requires IsStatusLine(line)
    ensures CodingOf(line) == NoCoding && LengthOf(line) == NoLength
  {
    assert line[..7][0] == line[0] == 'H';
    assert Lower(line[0]) == 'h';
  }

  // ---------- The empty line that ends the trailers ----------

  /** How the matcher goes on after a byte. */
  function Matched(m: nat, x: char): nat
    requires m < 4
  {
    if x == EMPTY_LINE[m] then m + 1 else if x == CR then 1 else 0
  }

  /** What the matcher has seen of the empty line is all that counts of what came before. */
  lemma MatchStep(m: nat, x: char, s: string)
    requires m < 4
    ensures HasEmptyLine(EMPTY_LINE[..m] + ([x] + s)) <==> HasEmptyLine(EMPTY_LINE[..Matched(m, x)] + s)
  {
    var before, after := EMPTY_LINE[..m] + ([x] + s), EMPTY_LINE[..Matched(m, x)] + s;
    var d: int := m + 1 - Matched(m, x);
    assert before[d..] == after;
    forall i: nat | EmptyLineAt(before, i) ensures HasEmptyLine(after) {
      assert i >= d;
      assert EmptyLineAt(after, i - d);
    }
    forall i: nat | EmptyLineAt(after, i) ensures HasEmptyLine(before) {
      assert EmptyLineAt(before, i + d);
    }
  }

  lemma MatchEnd(s: string)
    ensures HasEmptyLine(EMPTY_LINE[..4] + s)
  {
    assert EmptyLineAt(EMPTY_LINE[..4] + s, 0);
  }
}
