/** How the MQTT task sends and receives: its socket, and the loops over it, which send all of a
    packet, and read no more than one. */
module MqttNetwork {
  import opened Options
  import opened Utf8
  import opened MqttPackets

  datatype SockCode = SockOk | SockFail | SockAgain

  /** A stream socket and the broker behind it. sent and taken are the bytes of the connection so
      far, room how many more it takes before a send fails, and incoming what is to come. misses is how
      often it was asked for some, or whether there are some, and had none, waits how often it was asked
      whether there are, and codes what it said when asked for some. */
  class MqttSocket {
    var open: bool
    var sent: seq<Byte>
    var room: nat
    var taken: seq<Byte>
    var incoming: seq<Byte>
    ghost var misses: nat
    ghost var waits: nat
    ghost var codes: seq<SockCode>

    constructor ()
      ensures !open
    {
      open, sent, taken := false, [], [];
      room, incoming := *, *;
    }

    method Connect() returns (code: SockCode)
      requires !open
      modifies this
      ensures open <==> code.SockOk?
      ensures open ==> sent == [] && taken == []
      ensures misses == old(misses)
    {
      code := *;
      if code.SockOk? {
        open, sent, taken := true, [], [];
        room, incoming := *, *;
      }
    }

    /** Takes any number of data's bytes it has room for. */
    method Send(data: seq<Byte>) returns (code: SockCode, n: nat)
      requires open && data != []
      modifies this`sent, this`room
      ensures code.SockOk? ==> 0 < n <= |data| && room + n == old(room) && sent == old(sent) + data[..n]
      ensures !code.SockOk? ==> room == old(room) == 0 && sent == old(sent)
    {
      n := 0;
      if room == 0 {
        code :| !code.SockOk?;
        return;
      }
      n :| 0 < n <= |data| && n <= room;
      sent, room := sent + data[..n], room - n;
      return SockOk, n;
    }

    /** Gives any number of the bytes to come, up to size, or times out, or fails, with none. None
        with SockOk is the end of the stream. */
    method Recv(buffer: array<Byte>, at: nat, size: nat) returns (code: SockCode, n: nat)
      requires open && 0 < size && at + size <= buffer.Length
      modifies this`taken, this`incoming, this`misses, this`codes, buffer
      ensures !code.SockOk? ==> n == 0
      ensures misses == old(misses) + (if n == 0 then 1 else 0) && codes == old(codes) + [code]
      ensures n <= size && n <= |old(incoming)|
      ensures taken == old(taken) + old(incoming)[..n] && incoming == old(incoming)[n..]
      ensures buffer[at..at + n] == old(incoming)[..n] && buffer[..at] == old(buffer[..at])
    {
      n := 0;
      code := *;
      if code.SockOk? && incoming != [] {
        n :| 0 < n <= |incoming| && n <= size;
        forall i | 0 <= i < n {
          buffer[at + i] := incoming[i];
        }
      }
      taken, incoming := taken + incoming[..n], incoming[n..];
      misses, codes := misses + (if n == 0 then 1 else 0), codes + [code];
    }

    /** recv_wait(): waits a while for something to come, which it does at last. */
    method Wait(last: bool) returns (coming: bool)
      requires open
      modifies this`misses, this`waits
      ensures last ==> coming
      ensures waits == old(waits) + 1 && misses == old(misses) + if coming then 0 else 1
    {
      coming := *;
      coming := coming || last;
      misses, waits := misses + (if coming then 0 else 1), waits + 1;
    }

    method Close()
      requires open
      modifies this`open
      ensures !open
    {
      open := false;
    }
  }

  /** What a connection with this much room takes of data. */
  function Fitting(data: seq<Byte>, room: nat): seq<Byte> {
    if |data| <= room then data else data[..room]
  }

  /** _mqtt_send_all(): all of data, in as many sends as the socket takes. */
  method SendAll(sock: MqttSocket, data: seq<Byte>) returns (ok: bool)
    requires sock.open
    modifies sock`sent, sock`room
    ensures ok <==> |data| <= old(sock.room)
    ensures sock.sent == old(sock.sent) + Fitting(data, old(sock.room))
    ensures sock.room == if ok then old(sock.room) - |data| else 0
  {
    var total := 0;
    ghost var room := sock.room;
    while total < |data|
      invariant total <= |data| && total + sock.room == room
      invariant sock.sent == old(sock.sent) + data[..total]
    {
      var code, n := sock.Send(data[total..]);
      if !code.SockOk? {
        // A non-blocking socket isn't accepted.
        return false;
      }
      assert data[..total] + data[total..][..n] == data[..total + n];
      total := total + n;
    }
    assert data[..total] == data;
    return true;
  }

  /** A packet on its way out through the MQTT buffer: what is put in it is sent whenever it is full,
      and what is left when flushed. */
  class MqttOut {
    const sock: MqttSocket
    const buffer: array<Byte>
    var used: nat
    var ok: bool
    /** What was put, and the room the connection had at first, and what had been sent then. */
    ghost var put: seq<Byte>
    ghost const room: nat
    ghost const before: seq<Byte>

    constructor (sock: MqttSocket, buffer: array<Byte>)
      requires sock.open && buffer.Length >= 1
      ensures this.sock == sock && this.buffer == buffer
      ensures Valid() && put == [] && before == sock.sent && room == sock.room
    {
      this.sock, this.buffer := sock, buffer;
      used, ok := 0, true;
      put, room, before := [], sock.room, sock.sent;
    }

    ghost predicate Valid()
      reads this, sock, buffer
    {
      && sock.open && buffer.Length >= 1 && used <= buffer.Length
      && (ok ==> sock.sent + buffer[..used] == before + put && used <= |put| && sock.room + |put| == room + used)
      && (!ok ==> |put| > room && sock.sent == before + put[..room] && sock.room == 0)
    }

    /** _mqtt_out_flush() */
    method Flush()
      requires Valid()
      modifies this`used, this`ok, sock`sent, sock`room
      ensures Valid() && used == 0 && put == old(put)
      ensures ok ==> sock.sent == before + put && |put| <= room
    {
      if ok && used > 0 {
        ghost var sent, left := sock.sent, sock.room;
        ok := SendAll(sock, buffer[..used]);
        if !ok {
          assert put[..room] == put[..|put| - used] + buffer[..used][..left] by {
            assert before + put == sent + buffer[..used];
            assert sent == (before + put)[..|sent|] == before + put[..|put| - used];
            assert buffer[..used] == (before + put)[|sent|..] == put[|put| - used..];
          }
        }
      }
      used := 0;
    }

    /** _mqtt_out_put() */
    method Put(data: seq<Byte>)
      requires Valid()
      modifies this`used, this`ok, this`put, buffer, sock`sent, sock`room
      ensures Valid() && put == old(put) + data
    {
      var i := 0;
      ghost var start := put;
      assert data[..0] == [];
      while i < |data| && ok
        invariant i <= |data| && Valid() && put == start + data[..i]
        decreases |data| - i, ok
      {
        if used == buffer.Length {
          Flush();
          if !ok {
            break;
          }
        }
        var n := buffer.Length - used;
        if n > |data| - i {
          n := |data| - i;
        }
        Fill(data[i..i + n]);
        assert data[..i] + data[i..i + n] == data[..i + n];
        i := i + n;
      }
      if i < |data| {
        assert (put + data[i..])[..room] == put[..room];
      }
      put := start + data;
      assert put == start + data[..i] + data[i..];
    }

    /** Copies part of a packet to where there is room for it. */
    method Fill(part: seq<Byte>)
      requires Valid() && ok && used + |part| <= buffer.Length
      modifies this`used, this`put, buffer
      ensures Valid() && put == old(put) + part && ok && used == old(used) + |part|
    {
      ghost var had := buffer[..used];
      forall k | 0 <= k < |part| {
        buffer[used + k] := part[k];
      }
      assert buffer[..used + |part|] == had + part;
      assert sock.sent + had + part == before + (put + part);
      used := used + |part|;
      put := put + part;
    }
  }

  /** _mqtt_send_publish(): the PUBLISH of a message goes out whole through a buffer of any size, or
      as far as the connection takes it. */
  method SendPublish(sock: MqttSocket, buffer: array<Byte>, m: Message) returns (ok: bool)
    requires sock.open && buffer.Length >= 1 && CanBeSent(m)
    modifies buffer, sock`sent, sock`room
    ensures var p := Packet(PublishByte1(m), PublishBody(m));
            && (ok <==> |p| <= old(sock.room))
            && sock.sent == old(sock.sent) + Fitting(p, old(sock.room))
  {
    hide EncodeLength, PublishBody, PublishByte1, Packet;
    var idSize := if m.qos1 then 2 else 0;
    var length := WriteLength(2 + |m.topic| + idSize + |m.payload|);
    var head := [PublishByte1(m)] + length + [|m.topic| / 256, |m.topic| % 256];
    var id := if m.qos1 then [m.id / 256, m.id % 256] else [];
    PublishPieces(m, head, id);
    ghost var p := Packet(PublishByte1(m), PublishBody(m));
    var out := new MqttOut(sock, buffer);
    out.Put(head);
    out.Put(m.topic);
    out.Put(id);
    out.Put(m.payload);
    assert out.put == p;
    out.Flush();
    ok := out.ok;
  }

  /** A PUBLISH in the pieces it is put together from. */
  lemma PublishPieces(m: Message, head: seq<Byte>, id: seq<Byte>)
    requires CanBeSent(m) && id == if m.qos1 then [m.id / 256, m.id % 256] else []
    requires var e := EncodeLength(2 + |m.topic| + |id| + |m.payload|);
             head == [PublishByte1(m)] + (if |e| <= 5 then e else e[..5]) + [|m.topic| / 256, |m.topic| % 256]
    ensures [] + head + m.topic + id + m.payload == Packet(PublishByte1(m), PublishBody(m))
  {
    hide EncodeLength;
    LengthSize(|PublishBody(m)|);
  }

  // ---------- Receiving ----------

  /** _mqtt_recv_fixed_header_byte1() */
  method RecvByte(sock: MqttSocket) returns (code: SockCode, n: nat, b: Byte)
    requires sock.open
    modifies sock`taken, sock`incoming, sock`misses, sock`codes
    ensures n <= 1 && (!code.SockOk? ==> n == 0)
    ensures sock.taken == old(sock.taken) + (if n == 1 then [b] else [])
    ensures sock.misses == old(sock.misses) + 1 - n && sock.codes == old(sock.codes) + [code]
  {
    var c := new Byte[1];
    code, n := sock.Recv(c, 0, 1);
    b := 0;
    if n == 1 {
      assert c[0..0 + 1] == [c[0]];
      b := c[0];
    }
  }

  /** _mqtt_recv_fixed_header_rest(): the remaining length. read is what came. */
  method RecvLength(sock: MqttSocket) returns (ok: bool, length: nat, ghost read: seq<Byte>)
    requires sock.open
    modifies sock`taken, sock`incoming, sock`misses, sock`codes
    ensures sock.taken == old(sock.taken) + read
    ensures ok ==> length <= LENGTH_MAX && read == EncodeLength(length) && sock.misses == old(sock.misses)
    ensures !ok ==> forall n: nat :: n <= LENGTH_MAX ==> !(EncodeLength(n) <= read)
    ensures !ok ==> sock.misses > old(sock.misses) || NoLengthStarts(read)
  {
    hide EncodeLength, NoLengthStarts;
    var buf: seq<Byte> := [];
    length := 0;
    for i := 0 to 4
      invariant |buf| == i && forall k :: 0 <= k < i ==> buf[k] >= 128
      invariant sock.taken == old(sock.taken) + buf && sock.misses == old(sock.misses)
    {
      var code, n, c := RecvByte(sock);
      if !code.SockOk? || n == 0 {
        NoLengthYet(buf);
        return false, 0, buf;
      }
      buf := buf + [c];
      if c < 128 {
        break;
      }
    }
    assert |buf| < 4 ==> buf[|buf| - 1] < 128;
    var r := ReadLength(buf);
    if r.None? {
      NoneGoesOn(buf);
      return false, 0, buf;
    }
    LengthIsAll(buf, r.value.0);
    return true, r.value.0, buf;
  }

  /** read is the start of no remaining length. */
  ghost predicate NoLengthStarts(read: seq<Byte>) {
    forall n: nat :: n <= LENGTH_MAX ==> !(read <= EncodeLength(n))
  }

  /** Bytes that end like a length and aren't one, or go on for too long, are the start of none. */
  lemma NoneGoesOn(buf: seq<Byte>)
    requires buf != [] && (|buf| == 4 || buf[|buf| - 1] < 128) && |buf| <= 4
    requires forall n: nat :: n <= LENGTH_MAX ==> !(EncodeLength(n) <= buf)
    ensures NoLengthStarts(buf)
  {
    forall n: nat | n <= LENGTH_MAX ensures !(buf <= EncodeLength(n)) {
      EncodedShape(n);
      LengthSize(n);
      var s := EncodeLength(n);
      var b := if |buf| <= |s| then s[|buf| - 1] else 0;
    }
  }

  lemma NoLengthYet(buf: seq<Byte>)
    requires forall k :: 0 <= k < |buf| ==> buf[k] >= 128
    ensures forall n: nat :: n <= LENGTH_MAX ==> !(EncodeLength(n) <= buf)
  {
    forall n: nat ensures !(EncodeLength(n) <= buf) {
      EncodedShape(n);
      var s := EncodeLength(n);
      var b := if |s| <= |buf| then buf[|s| - 1] else 0;
    }
  }

  /** A length read from bytes of which only the last has no continuation bit takes all of them. */
  lemma LengthIsAll(buf: seq<Byte>, n: nat)
    requires EncodeLength(n) <= buf && forall k :: 0 <= k < |buf| - 1 ==> buf[k] >= 128
    ensures EncodeLength(n) == buf
  {
    EncodedShape(n);
    var s := EncodeLength(n);
    assert s[|s| - 1] == buf[|s| - 1];
  }

  /** A fixed header, with nothing after it. */
  function Header(byte1: Byte, length: nat): seq<Byte> {
    [byte1] + EncodeLength(length)
  }

  /** read starts with no fixed header that is whole. */
  ghost predicate NoHeader(read: seq<Byte>) {
    forall b: Byte, n: nat :: n <= LENGTH_MAX ==> !(Header(b, n) <= read)
  }

  /** _mqtt_recv_fixed_header(), after its first byte. */
  method RecvHeader(sock: MqttSocket) returns (ok: bool, byte1: Byte, length: nat, ghost read: seq<Byte>)
    requires sock.open
    modifies sock`taken, sock`incoming, sock`misses, sock`codes
    ensures sock.taken == old(sock.taken) + read
    ensures ok ==> length <= LENGTH_MAX && read == Header(byte1, length) && sock.misses == old(sock.misses)
    ensures !ok ==> NoHeader(read)
    ensures !ok ==> sock.misses > old(sock.misses) || NoHeaderStarts(read)
  {
    hide EncodeLength, NoLengthStarts;
    length := 0;
    var code, n, b := RecvByte(sock);
    byte1 := b;
    if !code.SockOk? || n == 0 {
      return false, byte1, 0, [];
    }
    ghost var rest;
    ok, length, rest := RecvLength(sock);
    read := [byte1] + rest;
    assert read[1..] == rest;
    NoHeaderAfter(byte1, rest);
    NoStartAfter(byte1, rest);
  }

  /** read is the start of no fixed header. */
  ghost predicate NoHeaderStarts(read: seq<Byte>) {
    forall b: Byte, n: nat :: n <= LENGTH_MAX ==> !(read <= Header(b, n))
  }

  lemma NoStartAfter(byte1: Byte, rest: seq<Byte>)
    ensures NoLengthStarts(rest) ==> NoHeaderStarts([byte1] + rest)
  {
    hide EncodeLength;
    if NoLengthStarts(rest) {
      forall b: Byte, n: nat | n <= LENGTH_MAX ensures !([byte1] + rest <= Header(b, n)) {
        Tails(rest, byte1, EncodeLength(n), b);
      }
    }
  }

  lemma NoHeaderAfter(byte1: Byte, rest: seq<Byte>)
    ensures (forall n: nat :: n <= LENGTH_MAX ==> !(EncodeLength(n) <= rest)) ==> NoHeader([byte1] + rest)
  {
    hide EncodeLength;
    if forall n: nat :: n <= LENGTH_MAX ==> !(EncodeLength(n) <= rest) {
      forall b: Byte, n: nat | n <= LENGTH_MAX ensures !(Header(b, n) <= [byte1] + rest) {
        Tails(EncodeLength(n), b, rest, byte1);
      }
    }
  }

  lemma Tails(s: seq<Byte>, b: Byte, t: seq<Byte>, c: Byte)
    ensures [b] + s <= [c] + t ==> s <= t
  {
    assert ([b] + s)[1..] == s && ([c] + t)[1..] == t;
  }

  /** A header is the start of at most one packet of what was read. */
  lemma OneHeader(b: Byte, n: nat, x: seq<Byte>, b': Byte, n': nat, y: seq<Byte>)
    requires Header(b, n) + x == Header(b', n') + y
    ensures b == b' && n == n' && x == y
  {
    var s, t := Header(b, n) + x, Header(b', n') + y;
    assert s[0] == b && t[0] == b';
    assert s[1..] == EncodeLength(n) + x && t[1..] == EncodeLength(n') + y;
    LengthPrefixFree(n, n', x, y);
  }

  /** So what was read is at most one packet. */
  lemma OnePacket(b: Byte, n: nat, rest: seq<Byte>)
    ensures forall byte1: Byte, body: seq<Byte> :: Packet(byte1, body) == Header(b, n) + rest ==> byte1 == b && |body| == n && body == rest
  {
    hide EncodeLength;
    forall byte1: Byte, body: seq<Byte> | Packet(byte1, body) == Header(b, n) + rest ensures byte1 == b && |body| == n && body == rest {
      assert Packet(byte1, body) == Header(byte1, |body|) + body;
      OneHeader(byte1, |body|, body, b, n, rest);
    }
  }

  lemma NoPacket(read: seq<Byte>)
    requires NoHeader(read)
    ensures forall byte1: Byte, body: seq<Byte> :: |body| <= LENGTH_MAX ==> Packet(byte1, body) != read
  {
    hide EncodeLength;
    forall byte1: Byte, body: seq<Byte> | |body| <= LENGTH_MAX ensures Packet(byte1, body) != read {
      assert Header(byte1, |body|) <= Header(byte1, |body|) + body == Packet(byte1, body);
    }
  }

  /** _mqtt_recv_remaining(): the next bytes, as many as asked for, into a buffer. None is a failure,
      as the loop that would say otherwise isn't entered. */
  method RecvRemaining(sock: MqttSocket, length: nat, buffer: array<Byte>) returns (ok: bool, ghost read: seq<Byte>)
    requires sock.open && length <= buffer.Length
    modifies sock`taken, sock`incoming, sock`misses, sock`codes, buffer
    ensures sock.taken == old(sock.taken) + read
    ensures ok ==> length > 0 && read == buffer[..length] && sock.misses == old(sock.misses)
    ensures !ok ==> |read| < length || (length == 0 && read == [])
    ensures !ok ==> sock.misses > old(sock.misses) || length == 0
  {
    if length == 0 {
      return false, [];
    }
    var total := 0;
    while total < length
      invariant total <= length
      invariant sock.taken == old(sock.taken) + buffer[..total] && sock.misses == old(sock.misses)
    {
      var code, n := sock.Recv(buffer, total, length - total);
      assert buffer[..total + n] == buffer[..total] + buffer[total..total + n];
      if !code.SockOk? || n == 0 {
        return false, buffer[..total];
      }
      total := total + n;
    }
    return true, buffer[..length];
  }

  /** What was read is none of the packets that start with byte1 and have size bytes after their
      fixed header. */
  ghost predicate IsNone(read: seq<Byte>, byte1: Byte, size: nat) {
    forall body: seq<Byte> :: |body| == size ==> Packet(byte1, body) != read
  }

  /** How CONNACK and SUBACK are read after their fixed header, which head is. */
  method RecvBody(sock: MqttSocket, b: Byte, n: nat, byte1: Byte, size: nat, ghost head: seq<Byte>)
      returns (ok: bool, body: seq<Byte>, ghost read: seq<Byte>)
    requires sock.open && head == Header(b, n) && 0 < size
    modifies sock`taken, sock`incoming, sock`misses, sock`codes
    ensures sock.taken == old(sock.taken) + read && |body| == size
    ensures ok ==> head + read == Packet(byte1, body) && sock.misses == old(sock.misses)
    ensures !ok ==> IsNone(head + read, byte1, size)
    ensures !ok ==> sock.misses > old(sock.misses) || NoneStarts(head + read, byte1, size)
  {
    hide EncodeLength, Packet, Header;
    var buff := new Byte[size](i => 0);
    if b != byte1 || n != size {
      OnePacket(b, n, []);
      assert head + [] == head;
      OtherStarts(b, n, byte1, size);
      return false, buff[..], [];
    }
    ok, read := RecvRemaining(sock, size, buff);
    body := buff[..];
    OnePacket(b, n, read);
    HeaderAndBody(b, body);
    assert buff[..size] == body;
  }

  /** read is the start of none of them. */
  ghost predicate NoneStarts(read: seq<Byte>, byte1: Byte, size: nat) {
    forall body: seq<Byte> :: |body| == size ==> !(read <= Packet(byte1, body))
  }

  lemma OtherStarts(b: Byte, n: nat, byte1: Byte, size: nat)
    requires b != byte1 || n != size
    ensures NoneStarts(Header(b, n), byte1, size)
  {
    hide EncodeLength, Packet, Header;
    forall body: seq<Byte> | |body| == size ensures !(Header(b, n) <= Packet(byte1, body)) {
      var p := Packet(byte1, body);
      if Header(b, n) <= p {
        HeaderAndBody(byte1, body);
        var k := |Header(b, n)|;
        assert p == Header(b, n) + p[k..];
        OneHeader(b, n, p[k..], byte1, size, body);
      }
    }
  }

  lemma NoneStartsIf(read: seq<Byte>, byte1: Byte, size: nat)
    requires NoHeaderStarts(read) && NoHeader(read) && size <= LENGTH_MAX
    ensures NoneStarts(read, byte1, size)
  {
    hide EncodeLength, Packet, Header;
    forall body: seq<Byte> | |body| == size ensures !(read <= Packet(byte1, body)) {
      HeaderAndBody(byte1, body);
      TwoStarts(read, Header(byte1, size), Packet(byte1, body));
    }
  }

  /** Of two starts of the same, one is the start of the other. */
  lemma TwoStarts(a: seq<Byte>, b: seq<Byte>, s: seq<Byte>)
    ensures a <= s && b <= s ==> a <= b || b <= a
  {
  }

  method RecvPacket(sock: MqttSocket, byte1: Byte, size: nat) returns (ok: bool, body: seq<Byte>, ghost read: seq<Byte>)
    requires sock.open && 0 < size <= LENGTH_MAX
    modifies sock`taken, sock`incoming, sock`misses, sock`codes
    ensures sock.taken == old(sock.taken) + read && |body| == size
    ensures ok ==> read == Packet(byte1, body) && sock.misses == old(sock.misses)
    ensures !ok ==> IsNone(read, byte1, size)
    ensures !ok ==> sock.misses > old(sock.misses) || NoneStarts(read, byte1, size)
  {
    hide Packet, Header, NoHeader, EncodeLength, NoHeaderStarts, NoneStarts;
    var b: Byte, n: nat;
    ghost var head: seq<Byte>;
    ok, b, n, head := RecvHeader(sock);
    if !ok {
      NoPacket(head);
      if NoHeaderStarts(head) {
        NoneStartsIf(head, byte1, size);
      }
      return false, seq(size, i => 0), head;
    }
    ghost var rest: seq<Byte>;
    ok, body, rest := RecvBody(sock, b, n, byte1, size, head);
    read := head + rest;
  }

  lemma HeaderAndBody(b: Byte, body: seq<Byte>)
    ensures Packet(b, body) == Header(b, |body|) + body
  {
  }

  /** A packet's first byte and body are its own. */
  lemma PacketIsOne(b: Byte, x: seq<Byte>, c: Byte, y: seq<Byte>)
    requires Packet(b, x) == Packet(c, y)
    ensures b == c && x == y
  {
    hide EncodeLength, Packet, Header;
    HeaderAndBody(b, x);
    HeaderAndBody(c, y);
    OneHeader(b, |x|, x, c, |y|, y);
  }

  /** _mqtt_recv_remaining_trash(): as many bytes, dropped as they come. */
  method RecvTrash(sock: MqttSocket, length: nat) returns (ok: bool, ghost dropped: seq<Byte>)
    requires sock.open
    modifies sock`taken, sock`incoming, sock`misses, sock`codes
    ensures sock.taken == old(sock.taken) + dropped
    ensures if ok then |dropped| == length && sock.misses == old(sock.misses) else |dropped| < length && sock.misses > old(sock.misses)
  {
    var buff := new Byte[256];
    var total := 0;
    dropped := [];
    while total < length
      invariant total <= length && |dropped| == total
      invariant sock.taken == old(sock.taken) + dropped && sock.misses == old(sock.misses)
    {
      // No more than is left of this packet.
      var size := if length - total > 256 then 256 else length - total;
      ghost var coming := sock.incoming;
      var code, n := sock.Recv(buff, 0, size);
      dropped := dropped + coming[..n];
      if !code.SockOk? || n == 0 {
        return false, dropped;
      }
      total := total + n;
    }
    return true, dropped;
  }

  // ---------- Packets built in the buffer ----------

  /** How CONNECT and SUBSCRIBE go out: the body is put together from the eighth byte of the buffer
      on, moved back to where the fixed header ends, and all of it sent. */
  method SendBuilt(sock: MqttSocket, buffer: array<Byte>, byte1: Byte, body: seq<Byte>) returns (ok: bool)
    requires sock.open && 8 + |body| <= buffer.Length && |body| <= LENGTH_MAX
    modifies buffer, sock`sent, sock`room
    ensures forall k :: 8 + |body| <= k < buffer.Length ==> buffer[k] == 0
    ensures ok <==> |Packet(byte1, body)| <= old(sock.room)
    ensures sock.sent == old(sock.sent) + Fitting(Packet(byte1, body), old(sock.room))
  {
    hide Packet;
    var size := Build(buffer, byte1, body);
    ok := SendAll(sock, buffer[..size]);
  }

  method Build(buffer: array<Byte>, byte1: Byte, body: seq<Byte>) returns (size: nat)
    requires 8 + |body| <= buffer.Length && |body| <= LENGTH_MAX
    modifies buffer
    ensures forall k :: 8 + |body| <= k < buffer.Length ==> buffer[k] == 0
    ensures size <= buffer.Length && buffer[..size] == Packet(byte1, body)
  {
    hide EncodeLength;
    forall k | 0 <= k < buffer.Length {
      buffer[k] := if 8 <= k < 8 + |body| then body[k - 8] else 0;
    }
    var length := WriteLength(|body|);
    LengthSize(|body|);
    var start := 1 + |length|;
    forall k | 0 <= k < start {
      buffer[k] := if k == 0 then byte1 else length[k - 1];
    }
    assert buffer[..start] == [byte1] + length;
    for k := 0 to |body|
      modifies buffer
      invariant buffer[..start + k] == [byte1] + length + body[..k]
      invariant forall i :: k <= i < |body| ==> buffer[8 + i] == body[i]
      invariant forall i :: 8 + |body| <= i < buffer.Length ==> buffer[i] == 0
    {
      buffer[start + k] := buffer[8 + k];
    }
    return start + |body|;
  }
}
