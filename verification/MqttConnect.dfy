/** CONNECT and SUBSCRIBE (MQTT 3.1.1, sections 3.1 and 3.8): what the task puts in them, and what a
    broker reads there. */
module MqttConnect {
  import opened MqttConnection
  import opened MqttPackets
  import opened MqttRetry
  import opened Options
  import opened Utf8

  datatype Endpoint = Endpoint(username: seq<Byte>, password: seq<Byte>, topic: seq<Byte>)

  datatype Will = Will(topic: seq<Byte>, message: seq<Byte>, qos1: bool, retain: bool)

  /** What the application sets. given says whether the endpoint is its own. A receive times out after
      receiveSec, or never at 0, and waiting for a packet takes turnMs at a time. */
  datatype Setup = Setup(cfg: Config, given: bool, keepAlive: nat, clientId: Option<seq<Byte>>, will: Option<Will>,
                         retryMax: nat, receiveSec: nat, turnMs: nat)

  /** Strings MQTT can carry, which fixed fields and setters keep to. */
  predicate IsSetup(s: Setup) {
    && s.retryMax <= UINT32_MAX && s.receiveSec <= UINT32_MAX && 1 <= s.turnMs <= UINT32_MAX
    && s.keepAlive <= 65535 && (s.clientId.Some? ==> |s.clientId.value| <= 65535)
    && (s.will.Some? ==> |s.will.value.topic| <= 65535 && |s.will.value.message| <= 65535)
  }

  predicate IsEndpoint(e: Endpoint) {
    |e.username| <= 65535 && |e.password| <= 65535 && |e.topic| <= 65535
  }

  // ---------- CONNECT and SUBSCRIBE ----------

  function Text(s: seq<Byte>): seq<Byte>
    requires |s| <= 65535
  {
    TwoBytes(|s|) + s
  }

  function ProtocolName(version31: bool): seq<Byte> {
    if version31 then ['M' as int, 'Q' as int, 'I' as int, 's' as int, 'd' as int, 'p' as int]
    else ['M' as int, 'Q' as int, 'T' as int, 'T' as int]
  }

  function ConnectFlags(s: Setup): Byte {
    (if s.cfg.cleanSession then 0xC2 else 0xC0) +
    match s.will
    case None => 0
    case Some(w) => 0x04 + (if w.qos1 then 0x08 else 0) + (if w.retain then 0x20 else 0)
  }

  function ClientId(s: Setup, e: Endpoint): seq<Byte> {
    if s.clientId.Some? then s.clientId.value else e.topic
  }

  function ConnectBody(s: Setup, e: Endpoint): (body: seq<Byte>)
    requires IsSetup(s) && IsEndpoint(e)
    ensures 8 + |body| + 1 == RoomForConnect(s, e)
  {
    Text(ProtocolName(s.cfg.version31)) + [if s.cfg.version31 then 3 else 4, ConnectFlags(s)] + TwoBytes(s.keepAlive)
    + Text(ClientId(s, e))
    + (match s.will case None => [] case Some(w) => Text(w.topic) + Text(w.message))
    + Text(e.username) + Text(e.password)
  }

  lemma ConnectFits(s: Setup, e: Endpoint)
    requires IsSetup(s) && IsEndpoint(e)
    ensures |ConnectBody(s, e)| <= LENGTH_MAX && RoomForConnect(s, e) >= 21
  {
    hide ConnectBody;
  }

  /** What the buffer needs for CONNECT, with the terminator its last string is copied with. */
  function RoomForConnect(s: Setup, e: Endpoint): nat {
    21 + |ProtocolName(s.cfg.version31)| + |ClientId(s, e)|
    + (match s.will case None => 0 case Some(w) => 4 + |w.topic| + |w.message|)
    + |e.username| + |e.password|
  }

  function SubscribeBody(s: Setup, e: Endpoint): (body: seq<Byte>)
    requires IsEndpoint(e)
    ensures |body| == 5 + |e.topic|
  {
    [0, 1] + Text(e.topic) + [if s.cfg.qos1 then 1 else 0]
  }

  // ---------- As a broker reads them ----------

  datatype Connect = Connect(version31: bool, cleanSession: bool, keepAlive: nat, clientId: seq<Byte>, will: Option<Will>,
                             username: seq<Byte>, password: seq<Byte>)

  /** A string with its length before it, and what follows it. */
  function ReadText(s: seq<Byte>): Option<(seq<Byte>, seq<Byte>)> {
    if |s| < 2 || Number(s, 0) > |s| - 2 then None
    else Some((s[2..2 + Number(s, 0)], s[2 + Number(s, 0)..]))
  }

  /** The will, if the flags say there is one, and what follows it. */
  function ReadWill(flags: Byte, s: seq<Byte>): Option<(Option<Will>, seq<Byte>)> {
    if flags / 4 % 2 == 0 then if flags / 8 % 8 == 0 then Some((None, s)) else None
    else if flags / 8 % 4 > 1 then None
    else
      match ReadText(s)
      case None => None
      case Some((topic, afterTopic)) =>
        match ReadText(afterTopic)
        case None => None
        case Some((message, rest)) => Some((Some(Will(topic, message, flags / 8 % 4 == 1, flags / 32 % 2 == 1)), rest))
  }

  /** A CONNECT with a user name and a password. */
  function ReadConnect(s: seq<Byte>): Option<Connect> {
    match ReadText(s)
    case None => None
    case Some((name, head)) =>
      // "MQIsdp" with the level 3, or "MQTT" with 4.
      if |head| < 4 || !((name == [77, 81, 73, 115, 100, 112] && head[0] == 3) || (name == [77, 81, 84, 84] && head[0] == 4))
         || head[1] % 2 != 0 || head[1] / 64 != 3 then None
      else ReadPayload(head[0] == 3, head[1], Number(head, 2), head[4..])
  }

  function ReadPayload(version31: bool, flags: Byte, keepAlive: nat, s: seq<Byte>): Option<Connect> {
    match ReadText(s)
    case None => None
    case Some((clientId, afterId)) =>
      match ReadWill(flags, afterId)
      case None => None
      case Some((will, afterWill)) =>
        match ReadText(afterWill)
        case None => None
        case Some((username, afterName)) =>
          match ReadText(afterName)
          case None => None
          case Some((password, rest)) =>
            if rest != [] then None
            else Some(Connect(version31, flags / 2 % 2 == 1, keepAlive, clientId, will, username, password))
  }

  lemma TextRead(t: seq<Byte>, rest: seq<Byte>)
    requires |t| <= 65535
    ensures ReadText(Text(t) + rest) == Some((t, rest))
  {
    var s := Text(t) + rest;
    assert s[0] == |t| / 256 && s[1] == |t| % 256;
    assert s[2..2 + |t|] == t && s[2 + |t|..] == rest;
  }

  function WillText(s: Setup): seq<Byte>
    requires IsSetup(s)
  {
    match s.will
    case None => []
    case Some(w) => Text(w.topic) + Text(w.message)
  }

  lemma WillRead(s: Setup, rest: seq<Byte>)
    requires IsSetup(s)
    ensures ReadWill(ConnectFlags(s), WillText(s) + rest) == Some((s.will, rest))
  {
    hide Text, ReadText;
    var flags := ConnectFlags(s);
    FlagsRead(s);
    if s.will.Some? {
      var w := s.will.value;
      TextRead(w.topic, Text(w.message) + rest);
      TextRead(w.message, rest);
      assert WillText(s) + rest == Text(w.topic) + (Text(w.message) + rest);
    } else {
      assert [] + rest == rest;
    }
  }

  /** What each of the flags says. */
  lemma FlagsRead(s: Setup)
    ensures var f := ConnectFlags(s);
            && f % 2 == 0 && f / 64 == 3 && (f / 2 % 2 == 1 <==> s.cfg.cleanSession) && (f / 4 % 2 == 1 <==> s.will.Some?)
            && (s.will.None? ==> f / 8 % 8 == 0)
            && (s.will.Some? ==> f / 8 % 4 == (if s.will.value.qos1 then 1 else 0) && (f / 32 % 2 == 1 <==> s.will.value.retain))
  {
  }

  /** A broker reads of the task's CONNECT what the application set. */
  lemma ConnectRead(s: Setup, e: Endpoint)
    requires IsSetup(s) && IsEndpoint(e)
    ensures ReadConnect(ConnectBody(s, e)) ==
            Some(Connect(s.cfg.version31, s.cfg.cleanSession, s.keepAlive, ClientId(s, e), s.will, e.username, e.password))
  {
    hide Text, ReadText, ReadWill, WillText, ConnectFlags, ReadPayload;
    var afterName := Text(e.password);
    var afterWill := Text(e.username) + afterName;
    var payload := Text(ClientId(s, e)) + (WillText(s) + afterWill);
    var fixed := [if s.cfg.version31 then 3 else 4, ConnectFlags(s)] + TwoBytes(s.keepAlive);
    var name := ProtocolName(s.cfg.version31);
    BodyIs(s, e, fixed, payload);
    TextRead(name, fixed + payload);
    FlagsRead(s);
    assert (fixed + payload)[4..] == payload && Number(fixed + payload, 2) == s.keepAlive;
    PayloadRead(s, e);
  }

  lemma BodyIs(s: Setup, e: Endpoint, fixed: seq<Byte>, payload: seq<Byte>)
    requires IsSetup(s) && IsEndpoint(e)
    requires fixed == [if s.cfg.version31 then 3 else 4, ConnectFlags(s)] + TwoBytes(s.keepAlive)
    requires payload == Text(ClientId(s, e)) + (WillText(s) + (Text(e.username) + Text(e.password)))
    ensures ConnectBody(s, e) == Text(ProtocolName(s.cfg.version31)) + (fixed + payload)
  {
    hide Text, ConnectFlags;
  }

  lemma PayloadRead(s: Setup, e: Endpoint)
    requires IsSetup(s) && IsEndpoint(e)
    ensures ReadPayload(s.cfg.version31, ConnectFlags(s), s.keepAlive,
                        Text(ClientId(s, e)) + (WillText(s) + (Text(e.username) + Text(e.password)))) ==
            Some(Connect(s.cfg.version31, s.cfg.cleanSession, s.keepAlive, ClientId(s, e), s.will, e.username, e.password))
  {
    hide Text, ReadText, ReadWill, WillText, ConnectFlags;
    var afterWill := Text(e.username) + Text(e.password);
    TextRead(ClientId(s, e), WillText(s) + afterWill);
    WillRead(s, afterWill);
    TextRead(e.username, Text(e.password));
    TextRead(e.password, []);
    assert Text(e.password) + [] == Text(e.password);
    FlagsRead(s);
  }

  /** And of its SUBSCRIBE, the identifier 1, the topic and the QoS asked for. */
  lemma SubscribeRead(s: Setup, e: Endpoint)
    requires IsEndpoint(e)
    ensures var body := SubscribeBody(s, e);
            Number(body, 0) == 1 && ReadText(body[2..]) == Some((e.topic, [if s.cfg.qos1 then 1 else 0]))
  {
    hide Text, ReadText;
    var body := SubscribeBody(s, e);
    TextRead(e.topic, [if s.cfg.qos1 then 1 else 0]);
    assert body[2..] == Text(e.topic) + [if s.cfg.qos1 then 1 else 0];
  }
}
