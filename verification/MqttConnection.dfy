/** What goes over the MQTT task's connections, packet by packet, and which packet may go when. */
module MqttConnection {
  import opened Options
  import opened Utf8
  import opened MqttPackets
  import opened Sequences
  import P = MqttPublish

  /** What is set for the whole of the task: MQTT 3.1 rather than 3.1.1, a clean session, the QoS
      subscribed with, and the size of the MQTT buffer. */
  datatype Config = Config(version31: bool, cleanSession: bool, qos1: bool, room: nat)

  /** A packet sent, or a part of it that was, and one received and taken. */
  datatype Event = Out(byte1: Byte, body: seq<Byte>, whole: bool) | In(byte1: Byte, body: seq<Byte>)

  // ---------- The bytes of a connection ----------

  function SentBytes(c: seq<Event>): seq<Byte> {
    if c == [] then []
    else
      var e := c[|c| - 1];
      SentBytes(c[..|c| - 1]) + if e.Out? then Packet(e.byte1, e.body) else []
  }

  function TakenBytes(c: seq<Event>): seq<Byte> {
    if c == [] then []
    else
      var e := c[|c| - 1];
      TakenBytes(c[..|c| - 1]) + if e.In? then Packet(e.byte1, e.body) else []
  }

  // ---------- Packets ----------

  predicate IsPublish(byte1: Byte) {
    byte1 / 16 == 3
  }

  /** A CONNACK that accepts the connection. Its flags are MQTT 3.1.1's: Session Present, and that
      only if the broker was asked to keep the session. */
  predicate IsAccepting(cfg: Config, e: Event) {
    e.In? && e.byte1 == 0x20 && |e.body| == 2 && e.body[1] == 0 && FlagsAllowed(cfg, e.body)
  }

  predicate FlagsAllowed(cfg: Config, body: seq<Byte>)
    requires |body| == 2
  {
    cfg.version31 || body[0] == 0 || (body[0] == 1 && body[1] == 0 && !cfg.cleanSession)
  }

  /** A SUBACK for the task's SUBSCRIBE that grants it, at no higher QoS than it asked for. */
  predicate IsGranting(cfg: Config, e: Event) {
    e.In? && e.byte1 == 0x90 && |e.body| == 3 && e.body[0] == 0 && e.body[1] == 1 && e.body[2] <= (if cfg.qos1 then 1 else 0)
  }

  /** A PUBLISH the task takes. One that doesn't fit in the buffer has its topic dropped unchecked. */
  ghost predicate IsGoodPublish(cfg: Config, byte1: Byte, body: seq<Byte>) {
    && IsPublish(byte1) && QosOf(byte1) <= 1 && (QosOf(byte1) == 0 ==> !DupOf(byte1))
    && if |body| <= cfg.room then PublishedMessage(QosOf(byte1), DupOf(byte1), RetainOf(byte1), body).Some?
       else IsGoodEnough(QosOf(byte1), body)
  }

  /** The message of a PUBLISH, if it is one MQTT allows. */
  ghost function MessageOf(byte1: Byte, body: seq<Byte>): Option<Message> {
    if QosOf(byte1) > 1 || (QosOf(byte1) == 0 && DupOf(byte1)) then None
    else PublishedMessage(QosOf(byte1), DupOf(byte1), RetainOf(byte1), body)
  }

  predicate IsGoodEnough(qos: nat, body: seq<Byte>) {
    HasRoom(qos, body) && Number(body, 0) > 0 && (qos == 1 ==> IdOf(body) > 0)
  }

  /** The packet identifier of a PUBLISH at QoS 1. */
  function IdOf(body: seq<Byte>): nat {
    if HasRoom(1, body) then Number(body, 2 + Number(body, 0)) else 0
  }

  // ---------- What a connection has come to ----------

  predicate Accepted(cfg: Config, c: seq<Event>) {
    c != [] && (IsAccepting(cfg, c[|c| - 1]) || Accepted(cfg, c[..|c| - 1]))
  }

  predicate Subscribed(c: seq<Event>) {
    c != [] && (IsSubscribe(c[|c| - 1]) || Subscribed(c[..|c| - 1]))
  }

  predicate IsSubscribe(e: Event) {
    e.Out? && e.byte1 == 0x82
  }

  predicate Granted(cfg: Config, c: seq<Event>) {
    c != [] && (IsGranting(cfg, c[|c| - 1]) || Granted(cfg, c[..|c| - 1]))
  }

  /** How many PINGREQs have had no PINGRESP. */
  function Pings(c: seq<Event>): nat {
    if c == [] then 0
    else
      var e, n := c[|c| - 1], Pings(c[..|c| - 1]);
      if e.Out? && e.byte1 == 0xC0 then n + 1
      else if e.In? && e.byte1 == 0xD0 && n > 0 then n - 1
      else n
  }

  /** The identifier of the message at QoS 1 that came last, if PUBACK is due for it. */
  function Unacknowledged(c: seq<Event>): Option<nat> {
    if c == [] then None
    else
      var e := c[|c| - 1];
      if e.In? && IsPublish(e.byte1) && QosOf(e.byte1) == 1 then Some(IdOf(e.body)) else None
  }

  // ---------- Which packet may go when ----------

  ghost predicate Allowed(cfg: Config, c: seq<Event>, e: Event) {
    match e
    case Out(byte1, body, whole) =>
      |body| <= LENGTH_MAX &&
      if byte1 == 0x10 then c == []
      else if byte1 == 0x82 then Accepted(cfg, c) && !Subscribed(c) && Unacknowledged(c).None?
      else if byte1 == 0x40 then |body| == 2 && Unacknowledged(c) == Some(Number(body, 0))
      else if IsPublish(byte1) then MessageOf(byte1, body).Some? && Granted(cfg, c) && Unacknowledged(c).None?
      else if byte1 == 0xC0 then body == [] && Granted(cfg, c) && Pings(c) == 0 && Unacknowledged(c).None?
      else byte1 == 0xE0 && body == [] && Accepted(cfg, c)
    case In(byte1, body) =>
      |body| <= LENGTH_MAX && Unacknowledged(c).None? &&
      if byte1 == 0x20 then IsAccepting(cfg, e) && |c| == 1 && c[0].Out? && c[0].byte1 == 0x10
      else if byte1 == 0x90 then IsGranting(cfg, e) && Subscribed(c) && !Granted(cfg, c)
      else if IsPublish(byte1) then IsGoodPublish(cfg, byte1, body) && Subscribed(c)
      else if byte1 == 0xD0 then body == [] && Granted(cfg, c)
      else byte1 == 0x40 && |body| == 2 && Granted(cfg, c)
  }

  ghost predicate Legal(cfg: Config, c: seq<Event>) {
    c == [] || (Legal(cfg, c[..|c| - 1]) && Allowed(cfg, c[..|c| - 1], c[|c| - 1]))
  }

  lemma Grows(cfg: Config, c: seq<Event>, e: Event)
    ensures SentBytes(c + [e]) == SentBytes(c) + if e.Out? then Packet(e.byte1, e.body) else []
    ensures TakenBytes(c + [e]) == TakenBytes(c) + if e.In? then Packet(e.byte1, e.body) else []
    ensures Accepted(cfg, c + [e]) <==> IsAccepting(cfg, e) || Accepted(cfg, c)
    ensures Subscribed(c + [e]) <==> IsSubscribe(e) || Subscribed(c)
    ensures Granted(cfg, c + [e]) <==> IsGranting(cfg, e) || Granted(cfg, c)
    ensures Pings(c + [e]) == if e.Out? && e.byte1 == 0xC0 then Pings(c) + 1
                              else if e.In? && e.byte1 == 0xD0 && Pings(c) > 0 then Pings(c) - 1
                              else Pings(c)
    ensures Unacknowledged(c + [e]) == if e.In? && IsPublish(e.byte1) && QosOf(e.byte1) == 1 then Some(IdOf(e.body)) else None
    ensures Legal(cfg, c + [e]) <==> Legal(cfg, c) && Allowed(cfg, c, e)
  {
    hide IsAccepting, IsGranting, Allowed, Packet, IdOf, IsPublish, QosOf;
    assert (c + [e])[..|c|] == c;
  }

  // ---------- What a legal connection is like ----------

  lemma {:induction false} AcceptedBefore(cfg: Config, c: seq<Event>)
    ensures Accepted(cfg, c) <==> exists j :: 0 <= j < |c| && IsAccepting(cfg, c[j])
  {
    if c != [] {
      AcceptedBefore(cfg, c[..|c| - 1]);
    }
  }

  lemma {:induction false} GrantedBefore(cfg: Config, c: seq<Event>)
    ensures Granted(cfg, c) <==> exists j :: 0 <= j < |c| && IsGranting(cfg, c[j])
  {
    if c != [] {
      GrantedBefore(cfg, c[..|c| - 1]);
    }
  }

  lemma {:induction false} LegalBefore(cfg: Config, c: seq<Event>, i: nat)
    requires Legal(cfg, c) && i < |c|
    ensures Legal(cfg, c[..i]) && Allowed(cfg, c[..i], c[i])
  {
    if i < |c| - 1 {
      LegalBefore(cfg, c[..|c| - 1], i);
      assert c[..|c| - 1][..i] == c[..i];
    }
  }

  /** SUBSCRIBE and DISCONNECT come only after a CONNACK that accepts the connection, PUBLISH and
      PINGREQ only after a SUBACK that grants the subscription on it, and the first packet is CONNECT. */
  lemma OnlyAfter(cfg: Config, c: seq<Event>, i: nat)
    requires Legal(cfg, c) && i < |c| && c[i].Out?
    ensures i == 0 <==> c[i].byte1 == 0x10
    ensures c[i].byte1 == 0x82 || c[i].byte1 == 0xE0 ==> exists j :: 0 <= j < i && IsAccepting(cfg, c[j])
    ensures IsPublish(c[i].byte1) || c[i].byte1 == 0xC0 ==> exists j :: 0 <= j < i && IsGranting(cfg, c[j])
  {
    hide IsAccepting, IsGranting;
    LegalBefore(cfg, c, i);
    AcceptedBefore(cfg, c[..i]);
    GrantedBefore(cfg, c[..i]);
    if c[i].byte1 == 0x82 || c[i].byte1 == 0xE0 {
      var j :| 0 <= j < i && IsAccepting(cfg, c[..i][j]);
      assert c[j] == c[..i][j];
    } else if IsPublish(c[i].byte1) || c[i].byte1 == 0xC0 {
      var j :| 0 <= j < i && IsGranting(cfg, c[..i][j]);
      assert c[j] == c[..i][j];
    }
  }

  /** At most one PINGREQ is unanswered at any time. */
  lemma {:induction false} OnePing(cfg: Config, c: seq<Event>)
    requires Legal(cfg, c)
    ensures Pings(c) <= 1
  {
    if c != [] {
      OnePing(cfg, c[..|c| - 1]);
    }
  }

  /** A message at QoS 1 is acknowledged next, with its own packet identifier, unless the connection
      ends there, and nothing but such a message is acknowledged. */
  lemma AcknowledgedNext(cfg: Config, c: seq<Event>, i: nat)
    requires Legal(cfg, c) && i + 1 < |c|
    ensures (c[i].In? && IsPublish(c[i].byte1) && QosOf(c[i].byte1) == 1 && c[i + 1].Out? && c[i + 1].byte1 != 0xE0) ==>
              c[i + 1].byte1 == 0x40 && |c[i + 1].body| == 2 && Number(c[i + 1].body, 0) == IdOf(c[i].body)
    ensures c[i].In? && IsPublish(c[i].byte1) && QosOf(c[i].byte1) == 1 ==> c[i + 1].Out?
    ensures c[i + 1].Out? && c[i + 1].byte1 == 0x40 ==>
              c[i].In? && IsPublish(c[i].byte1) && QosOf(c[i].byte1) == 1 && Number(c[i + 1].body, 0) == IdOf(c[i].body)
  {
    hide Accepted, Granted, Subscribed, Pings, IsGoodPublish, IdOf;
    LegalBefore(cfg, c, i + 1);
    assert c[..i + 1][|c[..i + 1]| - 1] == c[i];
  }

  // ---------- What the application and the interleavings see of it ----------

  /** What the message callback is given of an event. */
  ghost function Delivery(cfg: Config, e: Event): seq<Message> {
    if e.In? && IsPublish(e.byte1) && |e.body| <= cfg.room && QosOf(e.byte1) <= 1 then
      match PublishedMessage(QosOf(e.byte1), DupOf(e.byte1), RetainOf(e.byte1), e.body)
      case Some(m) => [m]
      case None => []
    else []
  }

  ghost function Deliveries(cfg: Config, c: seq<Event>): seq<Message> {
    if c == [] then [] else Deliveries(cfg, c[..|c| - 1]) + Delivery(cfg, c[|c| - 1])
  }

  /** A PUBLISH sent or a PUBACK received, as its bytes have it, on the connection numbered conn. */
  datatype Mark = Published(conn: nat, m: Message, whole: bool) | Puback(conn: nat, id: nat)

  ghost function Marks(n: nat, e: Event): seq<Mark> {
    if e.Out? && IsPublish(e.byte1) then
      match MessageOf(e.byte1, e.body)
      case Some(m) => [Published(n, m, e.whole)]
      case None => []
    else if e.In? && e.byte1 == 0x40 && |e.body| == 2 then [Puback(n, Number(e.body, 0))]
    else []
  }

  ghost function Traffic(n: nat, c: seq<Event>): seq<Mark> {
    if c == [] then [] else Traffic(n, c[..|c| - 1]) + Marks(n, c[|c| - 1])
  }

  /** The same of the interleavings' log. */
  function MarkOf(e: P.Event): Mark {
    match e
    case Publish(conn, serial, m, whole) => Published(conn, m, whole)
    case Puback(conn, id) => Puback(conn, id)
  }

  function MarksOf(log: seq<P.Event>): seq<Mark> {
    seq(|log|, i requires 0 <= i < |log| => MarkOf(log[i]))
  }

  // ---------- All connections ----------

  /** The connections there have been, numbered from 1, all legal, with what they delivered and what
      they show of the messages sent. */
  ghost predicate RecordRight(cfg: Config, conns: seq<seq<Event>>, received: seq<Message>, log: seq<P.Event>) {
    && (forall i :: 0 <= i < |conns| ==> Legal(cfg, conns[i]))
    && received == AllDeliveries(cfg, conns)
    && MarksOf(log) == AllTraffic(conns)
  }

  ghost function AllDeliveries(cfg: Config, conns: seq<seq<Event>>): seq<Message> {
    if conns == [] then [] else AllDeliveries(cfg, conns[..|conns| - 1]) + Deliveries(cfg, conns[|conns| - 1])
  }

  ghost function AllTraffic(conns: seq<seq<Event>>): seq<Mark> {
    if conns == [] then [] else AllTraffic(conns[..|conns| - 1]) + Traffic(|conns|, conns[|conns| - 1])
  }

  /** conns with e after all that the last of them had. */
  function With(conns: seq<seq<Event>>, e: Event): seq<seq<Event>>
    requires conns != []
  {
    conns[..|conns| - 1] + [conns[|conns| - 1] + [e]]
  }

  lemma RecordGrows(cfg: Config, conns: seq<seq<Event>>, received: seq<Message>, log: seq<P.Event>, e: Event,
                    received': seq<Message>, log': seq<P.Event>)
    requires conns != [] && RecordRight(cfg, conns, received, log) && Allowed(cfg, conns[|conns| - 1], e)
    requires received' == received + Delivery(cfg, e)
    requires MarksOf(log') == MarksOf(log) + Marks(|conns|, e)
    ensures RecordRight(cfg, With(conns, e), received', log')
  {
    hide Allowed, Delivery, Marks, MarksOf, Legal, Deliveries, Traffic, AllDeliveries, AllTraffic, With;
    LegalGrows(cfg, conns, e);
    TotalsGrow(cfg, conns, e);
  }

  lemma LegalGrows(cfg: Config, conns: seq<seq<Event>>, e: Event)
    requires conns != [] && (forall i :: 0 <= i < |conns| ==> Legal(cfg, conns[i])) && Allowed(cfg, conns[|conns| - 1], e)
    ensures forall i :: 0 <= i < |With(conns, e)| ==> Legal(cfg, With(conns, e)[i])
  {
    hide Allowed, Legal, Accepted, Subscribed, Granted, Pings, Unacknowledged, SentBytes, TakenBytes;
    Grows(cfg, conns[|conns| - 1], e);
  }

  lemma TotalsGrow(cfg: Config, conns: seq<seq<Event>>, e: Event)
    requires conns != []
    ensures AllDeliveries(cfg, With(conns, e)) == AllDeliveries(cfg, conns) + Delivery(cfg, e)
    ensures AllTraffic(With(conns, e)) == AllTraffic(conns) + Marks(|conns|, e)
  {
    hide Delivery, Marks, Deliveries, Traffic, AllDeliveries, AllTraffic;
    var before, c := conns[..|conns| - 1], conns[|conns| - 1];
    assert conns == before + [c];
    AllGrows(cfg, before, c, e);
  }

  lemma AllGrows(cfg: Config, before: seq<seq<Event>>, c: seq<Event>, e: Event)
    ensures AllDeliveries(cfg, before + [c + [e]]) == AllDeliveries(cfg, before + [c]) + Delivery(cfg, e)
    ensures AllTraffic(before + [c + [e]]) == AllTraffic(before + [c]) + Marks(|before| + 1, e)
  {
    hide Delivery, Marks, Deliveries, Traffic, AllDeliveries, AllTraffic;
    TotalGrows(cfg, |before| + 1, c, e);
    AllOfMore(cfg, before, c);
    AllOfMore(cfg, before, c + [e]);
    Assoc(AllDeliveries(cfg, before), Deliveries(cfg, c), Delivery(cfg, e));
    Assoc(AllTraffic(before), Traffic(|before| + 1, c), Marks(|before| + 1, e));
  }

  lemma AllOfMore(cfg: Config, before: seq<seq<Event>>, c: seq<Event>)
    ensures AllDeliveries(cfg, before + [c]) == AllDeliveries(cfg, before) + Deliveries(cfg, c)
    ensures AllTraffic(before + [c]) == AllTraffic(before) + Traffic(|before| + 1, c)
  {
    hide Deliveries, Traffic;
    assert (before + [c])[..|before|] == before;
  }

  lemma TotalGrows(cfg: Config, n: nat, c: seq<Event>, e: Event)
    ensures Deliveries(cfg, c + [e]) == Deliveries(cfg, c) + Delivery(cfg, e)
    ensures Traffic(n, c + [e]) == Traffic(n, c) + Marks(n, e)
  {
    hide Delivery, Marks;
    assert (c + [e])[..|c|] == c;
  }

  lemma RecordDialed(cfg: Config, conns: seq<seq<Event>>, received: seq<Message>, log: seq<P.Event>)
    requires RecordRight(cfg, conns, received, log)
    ensures RecordRight(cfg, conns + [[]], received, log)
  {
    hide MarksOf;
    assert (conns + [[]])[..|conns|] == conns;
  }

  lemma MarksOfMore(log: seq<P.Event>, e: P.Event)
    ensures MarksOf(log + [e]) == MarksOf(log) + [MarkOf(e)]
  {
  }
}
