/** MQTT 3.1.1's packets: the remaining length (section 2.2.3), PUBLISH (section 3.3), and where one
    packet ends and the next starts. */
module MqttPackets {
  import opened Options
  import opened Utf8

  /** The longest remaining length four bytes can carry. */
  const LENGTH_MAX: nat := 268435455

  // ---------- The remaining length ----------

  function EncodeLength(n: nat): (s: seq<Byte>)
    ensures s != []
  {
    if n < 128 then [n] else [n % 128 + 128] + EncodeLength(n / 128)
  }

  /** _mqtt_encode(): never more than the five bytes there is room for. */
  method WriteLength(n: nat) returns (buf: seq<Byte>)
    ensures buf == if |EncodeLength(n)| <= 5 then EncodeLength(n) else EncodeLength(n)[..5]
  {
    var left := n / 128;
    buf := [if left > 0 then n % 128 + 128 else n % 128];
    while left > 0 && |buf| < 5
      invariant 0 <= left && 1 <= |buf| <= 5
      invariant EncodeLength(n) == buf + if left == 0 then [] else EncodeLength(left)
    {
      LengthStep(buf, left);
      buf := buf + [if left / 128 > 0 then left % 128 + 128 else left % 128];
      left := left / 128;
    }
    if left > 0 {
      assert (buf + EncodeLength(left))[..5] == buf;
    }
  }

  lemma LengthStep(buf: seq<Byte>, left: nat)
    requires left > 0
    ensures buf + EncodeLength(left) ==
            buf + [if left / 128 > 0 then left % 128 + 128 else left % 128] + if left / 128 == 0 then [] else EncodeLength(left / 128)
  {
  }

  lemma {:induction false} LengthSize(n: nat)
    ensures n <= LENGTH_MAX <==> |EncodeLength(n)| <= 4
  {
    LengthSize1(n);
    LengthSize1(n / 128);
    LengthSize1(n / 128 / 128);
    LengthSize1(n / 128 / 128 / 128);
  }

  lemma LengthSize1(n: nat)
    ensures |EncodeLength(n)| == if n < 128 then 1 else 1 + |EncodeLength(n / 128)|
  {
  }

  /** How many bytes of s are a length's: up to one without the continuation bit. */
  function LengthEnd(s: seq<Byte>): nat {
    if s == [] then 0 else if s[0] < 128 then 1 else 1 + LengthEnd(s[1..])
  }

  /** What the low bits of the first k bytes come to. */
  function LowBits(s: seq<Byte>): nat {
    if s == [] then 0 else s[0] % 128 + 128 * LowBits(s[1..])
  }

  function Pow128(k: nat): (p: nat)
    ensures p >= 1
  {
    if k == 0 then 1 else 128 * Pow128(k - 1)
  }

  lemma {:induction false} LowBitsAppend(s: seq<Byte>, b: Byte)
    ensures LowBits(s + [b]) == LowBits(s) + b % 128 * Pow128(|s|)
  {
    if s == [] {
      assert ([] + [b])[1..] == [];
    } else {
      assert (s + [b])[1..] == s[1..] + [b];
      LowBitsAppend(s[1..], b);
    }
  }

  /** _mqtt_decode(): the length at the start of buf, and how many bytes it takes, if there are no
      more of them than four and the last is not one too many. */
  method ReadLength(buf: seq<Byte>) returns (r: Option<(nat, nat)>)
    requires |buf| >= 4 || exists i :: 0 <= i < |buf| && buf[i] < 128
    ensures r.Some? <==> exists n: nat :: n <= LENGTH_MAX && EncodeLength(n) <= buf
    ensures r.Some? ==> r.value.0 <= LENGTH_MAX && EncodeLength(r.value.0) <= buf && r.value.1 == |EncodeLength(r.value.0)|
  {
    var i: nat, multiplier: nat, n: nat := 0, 1, 0;
    while true
      invariant i <= 4 && i <= |buf|
      invariant forall k :: 0 <= k < i ==> buf[k] >= 128
      invariant n == LowBits(buf[..i]) && multiplier == Pow128(i)
      decreases 4 - i
    {
      if i > 3 {
        NotInFour(buf);
        return None;
      }
      assert buf[..i + 1] == buf[..i] + [buf[i]];
      LowBitsAppend(buf[..i], buf[i]);
      var bits: nat := buf[i] % 128;
      n := n + bits * multiplier;
      multiplier := multiplier * 128;
      i := i + 1;
      if buf[i - 1] < 128 {
        break;
      }
    }
    if i > 1 && buf[i - 1] == 0 {
      NotCanonical(buf, i);
      return None;
    }
    EncodesItself(buf[..i]);
    LengthSize(n);
    return Some((n, i));
  }

  /** A number encoded ends at its first byte without the continuation bit, which isn't 0 after
      another. */
  lemma {:induction false} EncodedShape(n: nat)
    ensures var s := EncodeLength(n);
            && s[|s| - 1] < 128 && (forall k :: 0 <= k < |s| - 1 ==> s[k] >= 128)
            && (|s| > 1 ==> s[|s| - 1] != 0) && (n > 0 ==> s != [0])
  {
    if n >= 128 {
      EncodedShape(n / 128);
    }
  }

  lemma NotInFour(buf: seq<Byte>)
    requires |buf| >= 4 && forall k :: 0 <= k < 4 ==> buf[k] >= 128
    ensures !exists n: nat :: n <= LENGTH_MAX && EncodeLength(n) <= buf
  {
    forall n: nat | EncodeLength(n) <= buf ensures n > LENGTH_MAX {
      EncodedShape(n);
      LengthSize(n);
      var s := EncodeLength(n);
      assert s[|s| - 1] == buf[|s| - 1];
    }
  }

  lemma NotCanonical(buf: seq<Byte>, i: nat)
    requires 1 < i <= |buf| && buf[i - 1] == 0 && forall k :: 0 <= k < i - 1 ==> buf[k] >= 128
    ensures !exists n: nat :: n <= LENGTH_MAX && EncodeLength(n) <= buf
  {
    forall n: nat ensures !(EncodeLength(n) <= buf) {
      EncodedShape(n);
      var s := EncodeLength(n);
      var a, b := if |s| <= |buf| then buf[|s| - 1] else 0, if i <= |s| then s[i - 1] else 0;
    }
  }

  /** Bytes of that shape are the encoding of what their low bits come to. */
  lemma {:induction false} EncodesItself(s: seq<Byte>)
    requires s != [] && s[|s| - 1] < 128 && (forall k :: 0 <= k < |s| - 1 ==> s[k] >= 128)
    requires |s| > 1 ==> s[|s| - 1] != 0
    ensures EncodeLength(LowBits(s)) == s
    ensures s != [0] ==> LowBits(s) > 0
  {
    hide EncodeLength, LowBits;
    LowBitsOf(s);
    if |s| > 1 {
      EncodesItself(s[1..]);
      OneByteMore(s[0] - 128, LowBits(s[1..]));
      assert s == [s[0]] + s[1..];
    } else {
      OneByte(s[0]);
      assert s == [s[0]];
    }
  }

  lemma LowBitsOf(s: seq<Byte>)
    ensures s != [] ==> LowBits(s) == s[0] % 128 + 128 * LowBits(s[1..])
    ensures |s| == 1 ==> LowBits(s) == s[0] % 128
  {
  }

  lemma OneByte(b: Byte)
    requires b < 128
    ensures EncodeLength(b) == [b]
  {
  }

  lemma OneByteMore(low: nat, n: nat)
    requires low < 128 && n > 0
    ensures EncodeLength(low + 128 * n) == [low + 128] + EncodeLength(n)
  {
  }

  /** Seven bits a byte, the lowest first, and no more bytes than it takes (table 2.4 of MQTT 3.1.1). */
  lemma LengthBytes(a: nat, b: nat, c: nat, d: nat)
    requires a < 128 && b < 128 && c < 128 && d < 128
    ensures EncodeLength(a) == [a]
    ensures b > 0 ==> EncodeLength(a + 128 * b) == [128 + a, b]
    ensures c > 0 ==> EncodeLength(a + 128 * b + 16384 * c) == [128 + a, 128 + b, c]
    ensures d > 0 ==> EncodeLength(a + 128 * b + 16384 * c + 2097152 * d) == [128 + a, 128 + b, 128 + c, d]
  {
    hide EncodeLength;
    OneByte(a);
    if b > 0 {
      OneByte(b);
      OneByteMore(a, b);
    }
    if c > 0 {
      OneByte(c);
      OneByteMore(b, c);
      OneByteMore(a, b + 128 * c);
    }
    if d > 0 {
      OneByte(d);
      OneByteMore(c, d);
      OneByteMore(b, c + 128 * d);
      OneByteMore(a, b + 128 * (c + 128 * d));
    }
  }

  /** No encoding is the start of another. */
  lemma {:induction false} LengthPrefixFree(m: nat, n: nat, a: seq<Byte>, b: seq<Byte>)
    requires EncodeLength(m) + a == EncodeLength(n) + b
    ensures m == n && a == b
  {
    var s, t := EncodeLength(m) + a, EncodeLength(n) + b;
    assert s[0] == t[0];
    if m < 128 || n < 128 {
      assert s[1..] == a || m >= 128;
      assert t[1..] == b || n >= 128;
    } else {
      assert s[1..] == EncodeLength(m / 128) + a;
      assert t[1..] == EncodeLength(n / 128) + b;
      LengthPrefixFree(m / 128, n / 128, a, b);
      assert m % 128 == n % 128;
    }
  }

  // ---------- Packets ----------

  function Packet(byte1: Byte, body: seq<Byte>): seq<Byte> {
    [byte1] + EncodeLength(|body|) + body
  }

  // ---------- PUBLISH ----------

  /** kii_mqtt_message_t */
  datatype Message = Message(topic: seq<Byte>, payload: seq<Byte>, qos1: bool, retain: bool, dup: bool, id: nat)

  /** What MQTT can carry, which kii_mqtt_publish() checks, with an identifier at QoS 1 alone. */
  predicate CanBeSent(m: Message) {
    && |m.topic| <= 65535 && 2 + |m.topic| + (if m.qos1 then 2 else 0) + |m.payload| <= LENGTH_MAX
    && m.id <= 65535 && (m.qos1 <==> m.id > 0)
  }

  function TwoBytes(n: nat): seq<Byte>
    requires n <= 65535
  {
    [n / 256, n % 256]
  }

  function PublishByte1(m: Message): Byte {
    0x30 + (if m.dup then 8 else 0) + (if m.qos1 then 2 else 0) + (if m.retain then 1 else 0)
  }

  function PublishBody(m: Message): (s: seq<Byte>)
    requires CanBeSent(m)
    ensures |s| == 2 + |m.topic| + (if m.qos1 then 2 else 0) + |m.payload|
  {
    TwoBytes(|m.topic|) + m.topic + (if m.qos1 then TwoBytes(m.id) else []) + m.payload
  }

  /** The QoS, DUP and RETAIN of a PUBLISH's first byte. */
  function QosOf(byte1: Byte): nat { byte1 / 2 % 4 }
  predicate DupOf(byte1: Byte) { byte1 / 8 % 2 == 1 }
  predicate RetainOf(byte1: Byte) { byte1 % 2 == 1 }

  function Number(s: seq<Byte>, at: nat): nat
    requires at + 2 <= |s|
  {
    var high: nat, low: nat := s[at], s[at + 1];
    high * 256 + low
  }

  /** The message a PUBLISH of QoS 0 or 1 carries, if its topic and packet identifier fit in it, and
      are ones MQTT allows. */
  ghost function PublishedMessage(qos: nat, dup: bool, retain: bool, body: seq<Byte>): Option<Message>
    requires qos <= 1
  {
    if !HasRoom(qos, body) then None
    else
      var size := Number(body, 0);
      var topic := body[2..2 + size];
      var id := if qos == 1 then Number(body, 2 + size) else 0;
      if topic == [] || !IsTopicText(topic) || (qos == 1 && id == 0) then None
      else Some(Message(topic, body[2 + size + 2 * qos..], qos == 1, retain, dup, id))
  }

  predicate HasRoom(qos: nat, body: seq<Byte>) {
    |body| >= 2 && Number(body, 0) + 2 * qos <= |body| - 2
  }

  /** What is sent of a message is read as that message. */
  lemma PublishRoundTrip(m: Message)
    requires CanBeSent(m) && m.topic != [] && IsTopicText(m.topic)
    ensures var b := PublishByte1(m);
            && b / 16 == 3 && QosOf(b) == (if m.qos1 then 1 else 0) && DupOf(b) == m.dup && RetainOf(b) == m.retain
            && PublishedMessage(QosOf(b), DupOf(b), RetainOf(b), PublishBody(m)) == Some(m)
  {
    hide PublishBody, PublishedMessage, IsTopicText, PublishByte1, QosOf, DupOf, RetainOf;
    Byte1Fields(m);
    BodyParts(m);
    FieldsOf(m, PublishBody(m));
  }

  lemma Byte1Fields(m: Message)
    ensures var b := PublishByte1(m);
            b / 16 == 3 && QosOf(b) == (if m.qos1 then 1 else 0) && DupOf(b) == m.dup && RetainOf(b) == m.retain
  {
  }

  /** And a PUBLISH that is read as a message is what is sent of that message, byte for byte. */
  lemma ReadIsWritten(byte1: Byte, body: seq<Byte>)
    requires byte1 / 16 == 3 && QosOf(byte1) <= 1 && |body| <= LENGTH_MAX
    requires PublishedMessage(QosOf(byte1), DupOf(byte1), RetainOf(byte1), body).Some?
    ensures var m := PublishedMessage(QosOf(byte1), DupOf(byte1), RetainOf(byte1), body).value;
            && CanBeSent(m) && PublishByte1(m) == byte1 && PublishBody(m) == body
            && m.topic != [] && IsTopicText(m.topic) && m.dup == DupOf(byte1) && (m.qos1 <==> QosOf(byte1) == 1)
  {
    hide IsTopicText, Number, TwoBytes, PublishByte1, PublishBody, QosOf, DupOf, RetainOf;
    var m := PublishedMessage(QosOf(byte1), DupOf(byte1), RetainOf(byte1), body).value;
    Byte1IsWritten(byte1, m);
    var size := |m.topic|;
    NumberIs(body, 0);
    var id := if m.qos1 then body[2 + size..4 + size] else [];
    if m.qos1 {
      NumberIs(body, 2 + size);
    }
    Cut(body, 2, 2 + size, 2 + size + |id|);
    BodyParts(m);
  }

  lemma Cut(s: seq<Byte>, a: nat, b: nat, c: nat)
    requires a <= b <= c <= |s|
    ensures s == s[..a] + s[a..b] + s[b..c] + s[c..]
  {
  }

  lemma Byte1IsWritten(byte1: Byte, m: Message)
    requires byte1 / 16 == 3 && QosOf(byte1) == (if m.qos1 then 1 else 0) && DupOf(byte1) == m.dup && RetainOf(byte1) == m.retain
    ensures PublishByte1(m) == byte1
  {
  }

  lemma NumberIs(s: seq<Byte>, at: nat)
    requires at + 2 <= |s|
    ensures Number(s, at) <= 65535 && s[at..at + 2] == TwoBytes(Number(s, at))
  {
  }

  /** What a PUBLISH may carry: a topic of text, and DUP only where there is an acknowledgement to wait
      for. */
  ghost predicate IsMessage(m: Message) {
    CanBeSent(m) && m.topic != [] && IsTopicText(m.topic) && (m.dup ==> m.qos1)
  }

  /** The fields of a PUBLISH's body, where they should be. */
  predicate RightFields(m: Message, body: seq<Byte>)
    requires CanBeSent(m)
  {
    var end := 2 + |m.topic|;
    && |body| == end + (if m.qos1 then 2 else 0) + |m.payload|
    && body[..2] == TwoBytes(|m.topic|) && body[2..end] == m.topic
    && (m.qos1 ==> body[end..end + 2] == TwoBytes(m.id))
    && body[end + (if m.qos1 then 2 else 0)..] == m.payload
  }

  lemma BodyParts(m: Message)
    requires CanBeSent(m)
    ensures PublishBody(m) == TwoBytes(|m.topic|) + m.topic + (if m.qos1 then TwoBytes(m.id) else []) + m.payload
  {
  }

  lemma NumberOf(s: seq<Byte>, at: nat, n: nat)
    requires at + 2 <= |s| && n <= 65535 && s[at..at + 2] == TwoBytes(n)
    ensures Number(s, at) == n
  {
    assert s[at] == s[at..at + 2][0] && s[at + 1] == s[at..at + 2][1];
  }

  lemma FieldsOf(m: Message, body: seq<Byte>)
    requires CanBeSent(m) && m.topic != [] && IsTopicText(m.topic) && RightFields(m, body)
    ensures PublishedMessage(if m.qos1 then 1 else 0, m.dup, m.retain, body) == Some(m)
  {
    hide IsTopicText, TwoBytes, Number;
    NumberOf(body, 0, |m.topic|);
    if m.qos1 {
      NumberOf(body, 2 + |m.topic|, m.id);
    }
  }
}
