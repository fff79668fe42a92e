/** What khc calls: the socket, and the application's callbacks. Each answers as its documentation
    allows, and otherwise as it likes. */
module KhcEnvironment {
  import opened HttpRequest

  datatype SockCode = SockOk | SockFail | SockAgain

  /** A stream socket and the server behind it. The server sends incoming, after which it closes, or
      the connection is lost. The connection takes room bytes more before a send fails. The socket
      isn't ready, and says so with SockAgain, up to waits times more. */
  class Socket {
    var open: bool
    var reachable: bool
    var lost: bool
    var sent: string
    var room: nat
    var incoming: string
    var waits: nat
    /** How many times a connection was closed. */
    var closings: nat

    constructor (reachable: bool, lost: bool, room: nat, incoming: string, waits: nat)
      ensures !open && closings == 0 && sent == "" && this.reachable == reachable && this.lost == lost
      ensures this.room == room && this.incoming == incoming && this.waits == waits
    {
      open, closings, sent := false, 0, "";
      this.reachable, this.lost, this.room, this.incoming, this.waits := reachable, lost, room, incoming, waits;
    }

    method IsReady() returns (ready: bool)
      modifies this`waits
      ensures ready ==> waits == old(waits)
      ensures !ready ==> waits < old(waits)
    {
      ready := true;
      if waits > 0 {
        ready := *;
        if !ready {
          waits := waits - 1;
        }
      }
    }

    method Connect() returns (code: SockCode)
      requires !open
      modifies this`open, this`waits
      ensures code.SockAgain? ==> !open && waits < old(waits)
      ensures !code.SockAgain? ==> waits == old(waits) && open == reachable && (code.SockOk? <==> reachable)
    {
      var ready := IsReady();
      if !ready {
        return SockAgain;
      }
      open := reachable;
      return if reachable then SockOk else SockFail;
    }

    /** Takes some of data, any number of its bytes the connection has room for. */
    method Send(data: string) returns (code: SockCode, n: nat)
      requires open && data != ""
      modifies this`sent, this`room, this`waits
      ensures code.SockAgain? ==> waits < old(waits) && sent == old(sent) && room == old(room)
      ensures !code.SockAgain? ==> waits == old(waits)
      ensures code.SockOk? ==> 0 < n <= |data| && room + n == old(room) && sent == old(sent) + data[..n]
      ensures code.SockFail? ==> old(room) == 0 && room == 0 && sent == old(sent)
    {
      n := 0;
      var ready := IsReady();
      if !ready {
        return SockAgain, 0;
      }
      if room == 0 {
        return SockFail, 0;
      }
      n :| 0 < n <= |data| && n <= room;
      sent, room := sent + data[..n], room - n;
      return SockOk, n;
    }

    /** Gives any number of the bytes to come, up to size. None of them left is the end. */
    method Recv(buffer: array<char>, at: nat, size: nat) returns (code: SockCode, n: nat)
      requires open && 0 < size && at + size <= buffer.Length
      modifies this`incoming, this`waits, buffer
      ensures code.SockAgain? ==> waits < old(waits)
      ensures !code.SockAgain? ==> waits == old(waits)
      ensures code.SockOk? <==> n > 0 || (!code.SockAgain? && !lost)
      ensures !code.SockAgain? && n == 0 ==> old(incoming) == ""
      ensures n <= size && n <= |old(incoming)| && incoming == old(incoming)[n..]
      ensures buffer[at..at + n] == old(incoming)[..n]
      ensures buffer[..at] == old(buffer[..at])
    {
      n := 0;
      var ready := IsReady();
      if !ready {
        return SockAgain, 0;
      }
      if incoming == "" {
        return if lost then SockFail else SockOk, 0;
      }
      n :| 0 < n <= |incoming| && n <= size;
      forall i | 0 <= i < n {
        buffer[at + i] := incoming[i];
      }
      incoming := incoming[n..];
      return SockOk, n;
    }

    method Close() returns (code: SockCode)
      requires open
      modifies this`open, this`waits, this`closings
      ensures code.SockAgain? ==> open && waits < old(waits) && closings == old(closings)
      ensures !code.SockAgain? ==> !open && waits == old(waits) && closings == old(closings) + 1
    {
      var ready := IsReady();
      if !ready {
        return SockAgain;
      }
      open, closings := false, closings + 1;
      if * {
        return SockFail;
      }
      return SockOk;
    }
  }

  /** The application: what its callbacks were given, how many calls its header callback takes before
      refusing one, and what its read callback will give. Its write callback takes all it is given. */
  class Application {
    var lines: seq<string>
    var body: string
    var calls: nat
    var parts: Parts

    constructor (calls: nat, parts: Parts)
      ensures lines == [] && body == "" && this.calls == calls && this.parts == parts
    {
      lines, body := [], "";
      this.calls, this.parts := calls, parts;
    }

    method OnHeader(line: string) returns (handled: nat)
      requires line != ""
      modifies this`lines, this`calls
      ensures lines == old(lines) + [line]
      ensures handled == |line| <==> old(calls) > 0
      ensures calls == if old(calls) > 0 then old(calls) - 1 else 0
    {
      lines := lines + [line];
      if calls == 0 {
        return 0;
      }
      calls := calls - 1;
      return |line|;
    }

    method OnWrite(data: string) returns (handled: nat)
      modifies this`body
      ensures body == old(body) + data && handled == |data|
    {
      body := body + data;
      return |data|;
    }

    /** Fills buffer from at on with what it gives, of at most size bytes. */
    method OnRead(buffer: array<char>, at: nat, size: nat) returns (n: nat)
      requires at + size <= buffer.Length
      modifies this`parts, buffer
      ensures n == |Given(old(parts), size)| <= size
      ensures parts == NextParts(old(parts), size)
      ensures buffer[at..at + n] == Given(old(parts), size)
      ensures buffer[..at] == old(buffer[..at])
    {
      var data := Given(parts, size);
      n := |data|;
      forall i | 0 <= i < n {
        buffer[at + i] := data[i];
      }
      parts := NextParts(parts, size);
    }
  }

  /** memmove(): the n bytes from one place to another, which may overlap. */
  method Move(buffer: array<char>, at: nat, from: array<char>, start: nat, n: nat)
    requires at + n <= buffer.Length && start + n <= from.Length
    modifies buffer
    ensures buffer[at..at + n] == old(from[start..start + n])
    ensures buffer[..at] == old(buffer[..at])
    ensures buffer[at + n..] == old(buffer[at + n..])
  {
    forall i | 0 <= i < n {
      buffer[at + i] := from[start + i];
    }
  }
}
