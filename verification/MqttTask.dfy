/** The MQTT task: a connection from CONNECT to the packets that come and go on it, and what ends it,
    again and again until the task exits. Each handler is one of the task's states. */
module MqttTask {
  import opened Options
  import opened Utf8
  import opened MqttPackets
  import opened MqttNetwork
  import opened MqttConnect
  import opened MqttConnection
  import opened MqttMessages
  import opened MqttRetry
  import opened MqttShared
  import opened Sequences
  import S = MqttSlot
  import P = MqttPublish

  datatype State =
    | InstallPush | GetEndpoint | SockConnect | SendConnect | RecvConnack | SendSubscribe | RecvSuback
    | RecvReady | RecvMsg | SendPingreq | SendPublish | Reconnect | ErrExit | Discontinued

  datatype TaskError = NoError | InstallationError | EndpointError | InsufficientBuff | CredentialsError

  /** How a request to the cloud ended. */
  datatype Outcome = Done | Temporary | Permanent

  // ---------- The state ----------

  /** mqtt_state_t, without the keep-alive's clock and the waits. */
  datatype Task = Task(state: State, error: TaskError, size: nat, qos: nat, dup: bool, retain: bool,
                       awaitingSuback: bool, pingresp: bool, sockConnected: bool, mqttConnected: bool, failures: nat)

  /** A broker that can't be reached after so many attempts may have moved. */
  const MAX_CONNECT_FAILURES: nat := 8

  /** The first byte of the PUBLISH being received. */
  function HeadOf(t: Task): Byte {
    0x30 + (if t.dup then 8 else 0) + 2 * (t.qos % 4) + (if t.retain then 1 else 0)
  }

  lemma HeadFields(b: Byte, t: Task)
    requires IsPublish(b) && t.qos == QosOf(b) && t.dup == DupOf(b) && t.retain == RetainOf(b)
    ensures t.qos <= 3 && HeadOf(t) == b
  {
  }

  /** Neither end of the connection is inside a packet. */
  predicate OnPackets(c: seq<Event>, sent: seq<Byte>, taken: seq<Byte>) {
    sent == SentBytes(c) && taken == TakenBytes(c) && Unacknowledged(c).None?
  }

  /** Waiting for SUBACK. */
  predicate IsSubscribing(cfg: Config, phase: P.Phase, c: seq<Event>) {
    phase == P.Accepted && Accepted(cfg, c) && Subscribed(c) && !Granted(cfg, c) && Pings(c) == 0
  }

  /** Subscribed, with PINGREQ unanswered if pingresp says so. */
  predicate IsReady(cfg: Config, t: Task, phase: P.Phase, c: seq<Event>) {
    phase == P.Ready && !t.awaitingSuback && InUse(cfg, t, c)
  }

  predicate InUse(cfg: Config, t: Task, c: seq<Event>) {
    Accepted(cfg, c) && Subscribed(c) && Granted(cfg, c) && Pings(c) == if t.pingresp then 0 else 1
  }

  /** The state knows its connection is open, and whether the broker accepted it. */
  predicate IsConnected(cfg: Config, t: Task, c: seq<Event>) {
    t.sockConnected && (t.mqttConnected <==> Accepted(cfg, c))
  }

  predicate IsOff(state: State) {
    state == InstallPush || state == GetEndpoint || state == SockConnect
  }

  /** Which states may come after which. The cloud isn't asked for an endpoint of the application's. */
  predicate Follows(given: bool, from: State, to: State) {
    match from
    case InstallPush => to in {InstallPush, GetEndpoint, ErrExit}
    case GetEndpoint => to in {GetEndpoint, SockConnect, ErrExit}
    case SockConnect => to in {SockConnect, SendConnect} || (to == GetEndpoint && !given)
    case SendConnect => to in {RecvConnack, Reconnect, ErrExit}
    case RecvConnack => to in {SendSubscribe, Reconnect} || to in (if given then {SockConnect, ErrExit} else {GetEndpoint})
    case SendSubscribe => to in {RecvSuback, Reconnect, ErrExit}
    case RecvSuback => to in {RecvMsg, RecvReady, Reconnect}
    case RecvReady => to in {RecvReady, RecvMsg, SendPingreq, SendPublish, Reconnect}
    case RecvMsg => to in {RecvSuback, RecvReady, Reconnect}
    case SendPingreq => to in {RecvReady, Reconnect}
    case SendPublish => to in {RecvReady, Reconnect}
    case Reconnect => to == SockConnect
    case _ => false
  }

  ghost predicate Path(given: bool, states: seq<State>) {
    states != [] && forall i :: 0 <= i < |states| - 1 ==> Follows(given, states[i], states[i + 1])
  }

  lemma PathStarts(given: bool, state: State)
    ensures Path(given, [state])
  {
  }

  lemma PathGoesOn(given: bool, states: seq<State>, to: State)
    requires Path(given, states) && Follows(given, states[|states| - 1], to)
    ensures Path(given, states + [to]) && to != Discontinued
  {
    hide Follows;
    NotDiscontinued(given, states[|states| - 1], to);
  }

  lemma NotDiscontinued(given: bool, from: State, to: State)
    requires Follows(given, from, to)
    ensures to != Discontinued
  {
  }

  /** How many turns it takes to wait so long. */
  function Rests(ms: nat): nat { (ms + WAIT_MS - 1) / WAIT_MS }

  lemma OneWaitMore(n: nat, rests: nat, left: nat, longest: nat)
    requires left <= longest && rests == Rests(longest)
    ensures (n + 1) * rests == n * rests + rests && Rests(left) <= rests
  {
  }

  predicate IsEnd(state: State) {
    state == ErrExit || state == Discontinued
  }

  /** Where each state is on its connection c, and the interleavings in theirs. */
  ghost predicate StateRight(cfg: Config, t: Task, phase: P.Phase, c: seq<Event>, sent: seq<Byte>, taken: seq<Byte>) {
    && (t.mqttConnected <==> t.sockConnected && Accepted(cfg, c))
    && if IsOff(t.state) then phase == P.Off && !t.sockConnected
       else if IsEnd(t.state) then phase != P.Ended && phase != P.ReadingPuback
       else
         && t.sockConnected
         && if t.state == Reconnect then phase == P.Broken
            else if t.state == SendConnect then phase == P.Open && c == [] && sent == [] && taken == []
            else
              && cfg.room >= 21
              && if t.state == RecvConnack then phase == P.Open && |c| == 1 && c[0].Out? && c[0].byte1 == 0x10 && OnPackets(c, sent, taken)
                 else if t.state == SendSubscribe then
                   && phase == P.Accepted && Accepted(cfg, c) && !Subscribed(c) && !Granted(cfg, c) && Pings(c) == 0 && t.pingresp
                   && OnPackets(c, sent, taken)
                 else if t.state == RecvSuback then IsSubscribing(cfg, phase, c) && t.pingresp && OnPackets(c, sent, taken)
                 else if t.state == RecvMsg then
                   && (if t.awaitingSuback then IsSubscribing(cfg, phase, c) && t.pingresp else IsReady(cfg, t, phase, c))
                   && t.qos <= 3 && t.size <= LENGTH_MAX && sent == SentBytes(c) && Unacknowledged(c).None?
                   && taken == TakenBytes(c) + Header(HeadOf(t), t.size)
                 else if t.state == SendPublish then phase == P.Publishing && !t.awaitingSuback && InUse(cfg, t, c) && OnPackets(c, sent, taken)
                 else IsReady(cfg, t, phase, c) && OnPackets(c, sent, taken)
  }

  // ---------- The task ----------

  class MqttTask {
    const setup: Setup
    const sock: MqttSocket
    const shared: SharedSlot
    const buffer: array<Byte>
    const retry: Retry
    var at: Task
    var endpoint: Endpoint
    /** The connections there have been, the last of them this one if the socket is open. */
    ghost var conns: seq<seq<Event>>
    /** What the message callback was given. */
    ghost var received: seq<Message>

    /** _init_mqtt_state(). installed says whether onboarding returned an endpoint. Earlier tasks may
        have had connections. */
    constructor (setup: Setup, sock: MqttSocket, shared: SharedSlot, buffer: array<Byte>, endpoint: Endpoint, installed: bool,
                 ghost conns: seq<seq<Event>>, ghost received: seq<Message>)
      requires IsSetup(setup) && IsEndpoint(endpoint) && setup.cfg.room == buffer.Length && !sock.open
      requires shared.Valid() && shared.System().phase == P.Off && shared.System().conn == |conns|
      requires RecordRight(setup.cfg, conns, received, shared.System().log)
      ensures this.setup == setup && this.sock == sock && this.shared == shared && this.buffer == buffer
      ensures Valid() && this.conns == conns && this.received == received
      ensures at == Task(if setup.given || installed then SockConnect else InstallPush, NoError, 0, 0, false, false, false, true, false, false, 0)
      ensures fresh(retry) && retry.failures == 0 && retry.left == 0
    {
      this.retry := new Retry(setup.retryMax);
      this.setup, this.sock, this.shared, this.buffer, this.endpoint := setup, sock, shared, buffer, endpoint;
      this.conns, this.received := conns, received;
      at := Task(if setup.given || installed then SockConnect else InstallPush, NoError, 0, 0, false, false, false, true, false, false, 0);
    }

    /** What this connection has had. */
    ghost function Current(): seq<Event>
      reads this, sock
    {
      if sock.open && conns != [] then conns[|conns| - 1] else []
    }

    ghost predicate Valid()
      reads this, sock, shared, shared.slot, retry
    {
      && Recorded() && at.sockConnected == sock.open
      && StateRight(setup.cfg, at, shared.System().phase, Current(), sock.sent, sock.taken)
    }

    /** What there has been so far is legal, whatever the state. */
    ghost predicate Recorded()
      reads this, sock, shared, shared.slot, retry
    {
      && retry.Valid() && retry.waitMax == setup.retryMax
      && shared.Valid() && IsSetup(setup) && IsEndpoint(endpoint) && setup.cfg.room == buffer.Length
      && shared.System().conn == |conns| && (sock.open ==> conns != [])
      && RecordRight(setup.cfg, conns, received, shared.System().log)
    }

    /** Adds what happened to the connection's record. The application has what it was given of it, and
        the interleavings what shows there. */
    ghost method Add(e: Event, before: seq<Message>, log: seq<P.Event>)
      requires retry.Valid() && retry.waitMax == setup.retryMax && shared.Valid() && IsSetup(setup) && IsEndpoint(endpoint) && setup.cfg.room == buffer.Length
      requires shared.System().conn == |conns| && sock.open && conns != []
      requires RecordRight(setup.cfg, conns, before, log) && Allowed(setup.cfg, Current(), e)
      requires received == before + Delivery(setup.cfg, e)
      requires MarksOf(shared.System().log) == MarksOf(log) + Marks(|conns|, e)
      modifies this`conns
      ensures Recorded() && conns == With(old(conns), e) && Current() == old(Current()) + [e] && |conns| == old(|conns|)
    {
      hide Allowed, MarksOf, Marks, Delivery, RecordRight;
      RecordGrows(setup.cfg, conns, before, log, e, received, shared.System().log);
      conns := With(conns, e);
    }

    /** Ends a connection: nothing read or sent on it counts any more. */
    method GoReconnect()
      requires Recorded() && sock.open && IsConnected(setup.cfg, at, Current())
      requires shared.System().phase in {P.Open, P.Accepted, P.Ready, P.ReadingPuback}
      modifies this`at, shared
      ensures Valid() && at == old(at).(state := Reconnect) && Same(old(shared.System()), shared.System())
      ensures old(shared.steps) <= shared.steps
    {
      hide RecordRight, P.Run, StateRight, IsConnected, SharedSlot.Valid, Retry.Valid, IsSetup, IsEndpoint;
      Reconnects(setup.cfg, at, Current(), sock.sent, sock.taken);
      shared.Make(P.Lose);
      at := at.(state := Reconnect);
    }

    // ---------- Without a connection ----------

    /** _mqtt_state_install_push() */
    method OnInstallPush(outcome: Outcome)
      requires Valid() && at.state == InstallPush
      modifies this`at, retry
      ensures Valid() && retry.failures == old(retry.failures) + (if outcome == Temporary then 1 else 0)
      ensures at == match outcome
                    case Done => old(at).(state := GetEndpoint)
                    case Temporary => old(at)
                    case Permanent => old(at).(state := ErrExit, error := InstallationError)
    {
      hide RecordRight, P.Run, Accepted, SharedSlot.Valid, Retry.Valid, IsSetup, IsEndpoint;
      if outcome == Temporary {
        retry.Schedule();
      } else if outcome == Permanent {
        at := at.(state := ErrExit, error := InstallationError);
      } else {
        at := at.(state := GetEndpoint);
      }
    }

    /** _mqtt_state_get_endpoint() */
    method OnGetEndpoint(outcome: Outcome, found: Endpoint)
      requires Valid() && at.state == GetEndpoint && IsEndpoint(found)
      modifies this`at, this`endpoint, retry
      ensures Valid() && endpoint == if outcome == Done then found else old(endpoint)
      ensures retry.failures == old(retry.failures) + if outcome == Temporary then 1 else 0
      ensures at == match outcome
                    case Done => old(at).(state := SockConnect)
                    case Temporary => old(at)
                    case Permanent => old(at).(state := ErrExit, error := EndpointError)
    {
      hide RecordRight, P.Run, Accepted, SharedSlot.Valid, Retry.Valid, IsSetup, IsEndpoint;
      if outcome == Temporary {
        retry.Schedule();
      } else if outcome == Permanent {
        at := at.(state := ErrExit, error := EndpointError);
      } else {
        endpoint := found;
        at := at.(state := SockConnect);
      }
    }

    /** _mqtt_state_sock_connect(). An endpoint of the application's can't be asked for again. */
    method OnSockConnect()
      requires Valid() && at.state == SockConnect
      modifies this`at, this`conns, shared, sock, retry
      ensures Valid() && retry.failures == old(retry.failures) + if sock.open then 0 else 1
      ensures sock.open ==> at == old(at).(state := SendConnect, sockConnected := true, failures := 0) && conns == old(conns) + [[]]
      ensures !sock.open ==> conns == old(conns)
      ensures !sock.open ==> var many := old(at.failures) + 1 >= MAX_CONNECT_FAILURES;
                at == old(at).(state := if many && !setup.given then GetEndpoint else SockConnect, failures := if many then 0 else old(at.failures) + 1)
    {
      hide RecordRight, P.Run, Accepted, SharedSlot.Valid, Retry.Valid, IsSetup, IsEndpoint;
      RecordDialed(setup.cfg, conns, received, shared.System().log);
      var code := sock.Connect();
      if !code.SockOk? {
        retry.Schedule();
        at := at.(failures := at.failures + 1);
        if at.failures >= MAX_CONNECT_FAILURES {
          at := at.(failures := 0, state := if setup.given then SockConnect else GetEndpoint);
        }
      } else {
        shared.Make(P.Dial);
        conns := conns + [[]];
        at := at.(state := SendConnect, sockConnected := true, failures := 0);
        NothingYet(setup.cfg);
      }
    }

    // ---------- CONNECT and SUBSCRIBE ----------

    /** _mqtt_send_connect() */
    method SendAndWipe(body: seq<Byte>) returns (ok: bool)
      requires sock.open && 8 + |body| <= buffer.Length && |body| <= LENGTH_MAX
      modifies buffer, sock`sent, sock`room
      ensures forall k :: 0 <= k < buffer.Length ==> buffer[k] == 0
      ensures ok <==> |Packet(0x10, body)| <= old(sock.room)
      ensures sock.sent == old(sock.sent) + Fitting(Packet(0x10, body), old(sock.room))
    {
      ok := SendBuilt(sock, buffer, 0x10, body);
      forall k | 0 <= k < 8 + |body| {
        buffer[k] := 0;
      }
    }

    /** _mqtt_state_send_connect(). The packet, which carries the password, doesn't stay in the buffer. */
    method OnSendConnect()
      requires Valid() && at.state == SendConnect
      modifies this`at, this`conns, shared, sock`sent, sock`room, buffer
      ensures Valid() && sock.open
      ensures var body := ConnectBody(setup, endpoint);
              if buffer.Length < RoomForConnect(setup, endpoint) then
                at == old(at).(state := ErrExit, error := InsufficientBuff) && sock.sent == []
              else
                && sock.sent == Fitting(Packet(0x10, body), old(sock.room))
                && Current() == [Out(0x10, body, |Packet(0x10, body)| <= old(sock.room))]
                && at == old(at).(state := if |Packet(0x10, body)| <= old(sock.room) then RecvConnack else Reconnect)
                && forall k :: 0 <= k < buffer.Length ==> buffer[k] == 0
    {
      hide RecordRight, P.Run, StateRight, IsConnected, ConnectBody, MarksOf, Marks, Delivery, Allowed, Packet, EncodeLength, Fitting, SharedSlot.Valid, Retry.Valid, IsSetup, IsEndpoint, RoomForConnect;
      ghost var c, log := Current(), shared.System().log;
      ConnectStarts(setup.cfg, at, shared.System().phase, c, sock.sent, sock.taken);
      if buffer.Length < RoomForConnect(setup, endpoint) {
        Ends(setup.cfg, at, shared.System().phase, c, sock.sent, sock.taken, InsufficientBuff);
        at := at.(state := ErrExit, error := InsufficientBuff);
        return;
      }
      var body := ConnectBody(setup, endpoint);
      ConnectFits(setup, endpoint);
      var ok := SendAndWipe(body);
      AllFits(Packet(0x10, body), old(sock.room));
      ConnectSent(setup.cfg, at, c, body, ok);
      Add(Out(0x10, body, ok), received, log);
      assert Current() == [Out(0x10, body, ok)];
      if ok {
        assert sock.sent == Packet(0x10, body);
        at := at.(state := RecvConnack);
      } else {
        GoReconnect();
      }
    }

    /** The broker refused the credentials: the same ones again would be refused for ever. */
    method AskCredentials(credentials: Option<Endpoint>)
      requires Recorded() && sock.open && IsConnected(setup.cfg, at, Current()) && !at.mqttConnected
      requires shared.System().phase == P.Open && (credentials.Some? ==> IsEndpoint(credentials.value))
      modifies this`at, this`endpoint, shared, sock`open, retry
      ensures Valid() && !sock.open
      ensures at == old(at).(sockConnected := false, error := if setup.given && credentials.None? then CredentialsError else old(at).error,
                             state := if !setup.given then GetEndpoint else if credentials.Some? then SockConnect else ErrExit)
      ensures endpoint == if setup.given && credentials.Some? then credentials.value else old(endpoint)
      ensures retry.failures == old(retry.failures) + if at.state == ErrExit then 0 else 1
    {
      hide RecordRight, P.Run, StateRight, SharedSlot.Valid, Retry.Valid, IsSetup, IsEndpoint;
      sock.Close();
      shared.Make(P.HangUp);
      at := at.(sockConnected := false);
      if setup.given {
        if credentials.Some? {
          endpoint := credentials.value;
          retry.Schedule();
          at := at.(state := SockConnect);
        } else {
          at := at.(error := CredentialsError, state := ErrExit);
        }
      } else {
        retry.Schedule();
        at := at.(state := GetEndpoint);
      }
      HungUp(setup.cfg, at, sock.sent, sock.taken);
    }

    /** _mqtt_state_recv_connack(). credentials is what the application has for an endpoint of its own
        that was refused. read is what came. */
    method OnRecvConnack(credentials: Option<Endpoint>) returns (ghost read: seq<Byte>)
      requires Valid() && at.state == RecvConnack && (credentials.Some? ==> IsEndpoint(credentials.value))
      modifies this`at, this`endpoint, this`conns, shared, shared.slot, sock`taken, sock`incoming, sock`misses, sock`codes, sock`open, retry
      ensures Valid() && sock.taken == old(sock.taken) + read
      ensures at.state == SendSubscribe <==> Accepts(setup.cfg, read)
      ensures !sock.open <==> RefusesCredentials(setup.cfg, read)
      ensures !sock.open ==> at.state == if !setup.given then GetEndpoint else if credentials.Some? then SockConnect else ErrExit
      ensures at.error == if at.state == ErrExit then CredentialsError else old(at.error)
      ensures endpoint == if at.state == SockConnect then credentials.value else old(endpoint)
      ensures at.state == SendSubscribe || !sock.open || at.state == Reconnect
      ensures at.state == Reconnect ==> sock.misses > old(sock.misses) || IsAnswer(read, 0x20, 2)
      ensures retry.failures == old(retry.failures) + if sock.open || at.state == ErrExit then 0 else 1
    {
      hide RecordRight, P.Run, StateRight, IsConnected, MarksOf, Marks, Delivery, Allowed, Packet, IsAccepting, FlagsAllowed, Accepts, RefusesCredentials, IsNone, NoneStarts, IsAnswer, EncodeLength, SharedSlot.Valid, Retry.Valid, IsSetup, IsEndpoint;
      ConnackDue(setup.cfg, at, shared.System().phase, Current(), sock.sent, sock.taken);
      var ok, body;
      ok, body, read := RecvPacket(sock, 0x20, 2);
      WhichConnack(setup.cfg, ok, read, body);
      AnswerIs(ok, read, 0x20, body);
      if !ok || !FlagsAllowed(setup.cfg, body) {
        GoReconnect();
        return;
      }
      if body[1] == 4 || body[1] == 5 {
        AskCredentials(credentials);
      } else if body[1] != 0 {
        GoReconnect();
      } else {
        TakeConnack(body, old(sock.taken));
      }
    }

    /** A CONNACK that accepts the connection has come, after what taken is. */
    method TakeConnack(body: seq<Byte>, ghost taken: seq<Byte>)
      requires Recorded() && at.sockConnected && sock.open && sock.taken == taken + Packet(0x20, body)
      requires StateRight(setup.cfg, at, shared.System().phase, Current(), sock.sent, taken)
      requires shared.System().phase == P.Open && at.state == RecvConnack && IsAccepting(setup.cfg, In(0x20, body))
      modifies this`at, this`conns, shared, shared.slot
      ensures Valid() && at == old(at).(pingresp := true, mqttConnected := true, state := SendSubscribe)
    {
      hide RecordRight, P.Run, StateRight, IsConnected, MarksOf, Marks, Delivery, Allowed, Packet, IsAccepting, SharedSlot.Valid, Retry.Valid, IsSetup, IsEndpoint;
      ghost var c, log := Current(), shared.System().log;
      ConnackTaken(setup.cfg, at, c, sock.sent, taken, body);
      shared.Accept();
      Add(In(0x20, body), received, log);
      at := at.(pingresp := true, mqttConnected := true, state := SendSubscribe);
    }

    /** _mqtt_state_send_subscribe() */
    method OnSendSubscribe()
      requires Valid() && at.state == SendSubscribe
      modifies this`at, this`conns, shared, sock`sent, sock`room, buffer
      ensures Valid() && sock.open
      ensures var p := Packet(0x82, SubscribeBody(setup, endpoint));
              if buffer.Length < 13 + |endpoint.topic| then
                at == old(at).(state := ErrExit, error := InsufficientBuff) && sock.sent == old(sock.sent)
              else
                && sock.sent == old(sock.sent) + Fitting(p, old(sock.room))
                && at == old(at).(state := if |p| <= old(sock.room) then RecvSuback else Reconnect)
    {
      hide RecordRight, P.Run, StateRight, IsConnected, MarksOf, Marks, Delivery, Allowed, Packet, EncodeLength, Header, SubscribeBody, SharedSlot.Valid, Retry.Valid;
      ghost var c, log := Current(), shared.System().log;
      SubscribeDue(setup.cfg, at, shared.System().phase, c, sock.sent, sock.taken, [], false);
      if buffer.Length < 13 + |endpoint.topic| {
        Ends(setup.cfg, at, shared.System().phase, c, sock.sent, sock.taken, InsufficientBuff);
        at := at.(state := ErrExit, error := InsufficientBuff);
        return;
      }
      var body := SubscribeBody(setup, endpoint);
      var ok := SendBuilt(sock, buffer, 0x82, body);
      SubscribeDue(setup.cfg, at, shared.System().phase, c, old(sock.sent), sock.taken, body, ok);
      Add(Out(0x82, body, ok), received, log);
      if ok {
        assert sock.sent == old(sock.sent) + Packet(0x82, body);
        at := at.(state := RecvSuback);
      } else {
        GoReconnect();
      }
    }

    /** The fixed header of a message has come, after what taken is. */
    method StartMessage(b: Byte, n: nat, awaiting: bool, ghost taken: seq<Byte>)
      requires Recorded() && at.sockConnected == sock.open && sock.taken == taken + Header(b, n)
      requires StateRight(setup.cfg, at, shared.System().phase, Current(), sock.sent, taken)
      requires !at.awaitingSuback && at.state == (if awaiting then RecvSuback else RecvReady) && IsPublish(b) && n <= LENGTH_MAX
      modifies this`at
      ensures Valid() && StartsPublish(Header(b, n)) && !Grants(setup.cfg, Header(b, n))
      ensures at == old(at).(size := n, qos := QosOf(b), dup := DupOf(b), retain := RetainOf(b), awaitingSuback := awaiting, state := RecvMsg)
    {
      hide RecordRight, P.Run, StateRight, Header, EncodeLength, IsPublish, QosOf, DupOf, RetainOf, StartsPublish, Grants, SharedSlot.Valid, Retry.Valid, IsSetup, IsEndpoint;
      PublishStarts(setup.cfg, at, shared.System().phase, Current(), sock.sent, taken, b, n, awaiting);
      at := at.(size := n, qos := QosOf(b), dup := DupOf(b), retain := RetainOf(b), state := RecvMsg);
      at := at.(awaitingSuback := awaiting);
    }

    /** A SUBACK that grants the subscription has come, after what taken is. */
    method EndSubscribing(body: seq<Byte>, ghost taken: seq<Byte>)
      requires Recorded() && at.sockConnected && sock.open && sock.taken == taken + Packet(0x90, body)
      requires StateRight(setup.cfg, at, shared.System().phase, Current(), sock.sent, taken)
      requires at.state == RecvSuback && !at.awaitingSuback && IsGranting(setup.cfg, In(0x90, body))
      modifies this`at, this`conns, shared, retry
      ensures Valid() && at == old(at).(state := RecvReady) && retry.failures == 0
    {
      hide RecordRight, P.Run, StateRight, IsConnected, MarksOf, Marks, Delivery, Allowed, Packet, EncodeLength, Header, IsGranting, SharedSlot.Valid, Retry.Valid, IsSetup, IsEndpoint;
      ghost var log := shared.System().log;
      SubackTaken(setup.cfg, at, shared.System().phase, Current(), sock.sent, taken, body);
      shared.Make(P.Grant);
      Add(In(0x90, body), received, log);
      retry.Restart();
      at := at.(state := RecvReady);
    }

    /** _mqtt_state_recv_suback(). A broker that kept the session may send messages before SUBACK. */
    method OnRecvSuback() returns (ghost read: seq<Byte>)
      requires Valid() && at.state == RecvSuback
      modifies this`at, this`conns, shared, sock`taken, sock`incoming, sock`misses, sock`codes, retry
      ensures Valid() && sock.taken == old(sock.taken) + read
      ensures retry.failures == if at.state == RecvReady then 0 else old(retry.failures)
      ensures at.state == RecvMsg <==> StartsPublish(read)
      ensures at.state == RecvReady <==> Grants(setup.cfg, read)
      ensures at.state == RecvMsg || at.state == RecvReady || at.state == Reconnect
      ensures at.awaitingSuback <==> at.state == RecvMsg
      ensures at.state == Reconnect ==> sock.misses > old(sock.misses) || (IsAnswer(read, 0x90, 3) && NoPublishGoesOn(read))
    {
      hide RecordRight, P.Run, StateRight, IsConnected, MarksOf, Marks, Delivery, Allowed, Packet, EncodeLength, Header, IsGranting, StartsPublish, Grants, IsPublish, QosOf, DupOf, RetainOf, NoHeader, NoHeaderStarts, NoneStarts, NoPublishGoesOn, SharedSlot.Valid, Retry.Valid, IsSetup, IsEndpoint;
      ghost var c, log, phase := Current(), shared.System().log, shared.System().phase;
      SubackDue(setup.cfg, at, shared.System().phase, c, sock.sent, sock.taken);
      at := at.(awaitingSuback := false);
      var ok, b, n, head := RecvHeader(sock);
      read := head;
      if !ok {
        NoStart(setup.cfg, read);
        NothingGoesOn(read);
        GoReconnect();
        return;
      }
      if IsPublish(b) {
        StartMessage(b, n, true, old(sock.taken));
        return;
      }
      var body;
      ghost var rest;
      ok, body, rest := RecvBody(sock, b, n, 0x90, 3, head);
      read := head + rest;
      WhichSuback(setup.cfg, b, n, rest, ok, body);
      OtherGoesOn(b, n, rest);
      if !ok || !IsGranting(setup.cfg, In(0x90, body)) {
        // Also for one that refuses the subscription.
        GoReconnect();
        return;
      }
      EndSubscribing(body, old(sock.taken));
    }

    // ---------- The connection in use ----------

    /** _mqtt_state_send_pingreq() */
    method OnSendPingreq()
      requires Valid() && at.state == SendPingreq
      modifies this`at, this`conns, shared, sock`sent, sock`room
      ensures Valid()
      ensures sock.sent == old(sock.sent) + if old(at.pingresp) then Fitting([0xC0, 0], old(sock.room)) else []
      ensures at == if old(at.pingresp) && old(sock.room) >= 2 then old(at).(pingresp := false, state := RecvReady)
                    else old(at).(state := Reconnect)
    {
      hide RecordRight, P.Run, StateRight, IsConnected, MarksOf, Marks, Delivery, Allowed, Packet, EncodeLength, Header, SharedSlot.Valid, Retry.Valid, IsSetup, IsEndpoint;
      ghost var c, log := Current(), shared.System().log;
      InUseConnected(setup.cfg, at, shared.System().phase, c, sock.sent, sock.taken);
      if !at.pingresp {
        // The last was never answered: the connection is gone.
        GoReconnect();
        return;
      }
      var ok := SendAll(sock, [0xC0, 0]);
      PingSent(setup.cfg, at, shared.System().phase, c, old(sock.sent), sock.taken, ok);
      Add(Out(0xC0, [], ok), received, log);
      if !ok {
        GoReconnect();
      } else {
        at := at.(pingresp := false, state := RecvReady);
      }
    }

    /** _mqtt_state_send_publish(): the message taken, sent whole or in part. */
    method OnSendPublish() returns (m: Message)
      requires Valid() && at.state == SendPublish
      modifies this`at, this`conns, shared, shared.slot, sock`sent, sock`room, buffer
      ensures Valid() && old(shared.IsSending(m))
      ensures var p := Packet(PublishByte1(m), PublishBody(m));
              && sock.sent == old(sock.sent) + Fitting(p, old(sock.room))
              && at == old(at).(state := if |p| <= old(sock.room) then RecvReady else Reconnect)
    {
      hide RecordRight, P.Run, StateRight, IsConnected, MarksOf, Marks, Delivery, Allowed, Packet, EncodeLength, Header, PublishByte1, PublishBody, P.Run, SharedSlot.Valid, Retry.Valid, IsSetup, IsEndpoint;
      ghost var c, log := Current(), shared.System().log;
      InUseConnected(setup.cfg, at, shared.System().phase, c, sock.sent, sock.taken);
      m := shared.Message();
      var ok := MqttNetwork.SendPublish(sock, buffer, m);
      PublishSent(setup.cfg, at, c, old(sock.sent), sock.taken, m, ok);
      shared.EndSend(m, ok);
      ghost var serial :| shared.System().log == log + [P.Publish(|conns|, serial, m, ok)];
      MarksOfMore(log, P.Publish(|conns|, serial, m, ok));
      Add(Out(PublishByte1(m), PublishBody(m), ok), received, log);
      if ok {
        assert sock.sent == old(sock.sent) + Packet(PublishByte1(m), PublishBody(m));
        at := at.(state := RecvReady);
      } else {
        Reconnects(setup.cfg, at, Current(), sock.sent, sock.taken);
        at := at.(state := Reconnect);
      }
    }

    /** _mqtt_state_reconnect() */
    method OnReconnect()
      requires Valid() && at.state == Reconnect
      modifies this`at, shared, sock`open, retry
      ensures Valid() && !sock.open && retry.failures == old(retry.failures) + 1
      ensures at == old(at).(sockConnected := false, mqttConnected := false, state := SockConnect)
    {
      hide RecordRight, P.Run, StateRight, IsConnected, MarksOf, Marks, Delivery, Allowed, Packet, EncodeLength, Header, SharedSlot.Valid, Retry.Valid, IsSetup, IsEndpoint;
      BrokenOff(setup.cfg, at, shared.System().phase, Current(), sock.sent, sock.taken);
      sock.Close();
      at := at.(sockConnected := false, mqttConnected := false);
      shared.Make(P.HangUp);
      retry.Schedule();
      at := at.(state := SockConnect);
      HungUp(setup.cfg, at, sock.sent, sock.taken);
    }

    /** _mqtt_wait_for_packet(): whether a packet is arriving, and how long it waited. It gives up as soon
        as the receive timeout has run out, or a message is there to be sent. turns bounds how long nothing
        at all happens. */
    method WaitForPacket(turns: nat) returns (arriving: bool, waitedMs: nat)
      requires shared.Valid() && IsSetup(setup) && sock.open
      modifies shared, shared.slot, sock`misses, sock`waits
      ensures shared.Valid() && Kept(old(shared.System()), shared.System()) && old(shared.steps) <= shared.steps
      ensures var n := sock.misses - old(sock.misses);
              0 <= n <= turns && sock.waits - old(sock.waits) == n + (if arriving then 1 else 0) && waitedMs == WaitedMs(n)
      ensures !arriving ==> sock.misses > old(sock.misses)
                            && ((setup.receiveSec > 0 && waitedMs == Min(1000 * setup.receiveSec, UINT32_MAX)) || (shared.slot.hasLock && S.CanTake(shared.System().slot)))
      ensures arriving && setup.receiveSec > 0 ==> waitedMs < 1000 * setup.receiveSec
      ensures arriving && sock.misses > old(sock.misses) && shared.slot.hasLock ==> WasNotQueued(old(shared.steps), shared.steps)
    {
      hide P.Run, WasNotQueued;
      waitedMs := 0;
      var left := turns;
      while true
        invariant shared.Valid() && Kept(old(shared.System()), shared.System()) && old(shared.steps) <= shared.steps
        invariant sock.misses - old(sock.misses) == sock.waits - old(sock.waits) == turns - left >= 0
        invariant waitedMs == WaitedMs(turns - left) && (setup.receiveSec > 0 ==> waitedMs < ReceiveMs())
        invariant sock.misses > old(sock.misses) && shared.slot.hasLock ==> WasNotQueued(old(shared.steps), shared.steps)
        decreases left
      {
        var turnMs := setup.turnMs;
        if setup.receiveSec > 0 && ReceiveMs() - waitedMs < turnMs {
          turnMs := ReceiveMs() - waitedMs;
        }
        arriving := sock.Wait(left == 0);
        if arriving {
          return true, waitedMs;
        }
        waitedMs := if waitedMs > UINT32_MAX - turnMs then UINT32_MAX else waitedMs + turnMs;
        OneTurnMore(turns - left);
        var queued := shared.IsQueued();
        if queued || (setup.receiveSec > 0 && waitedMs >= ReceiveMs()) {
          return false, waitedMs;
        }
        if shared.slot.hasLock {
          ThenNotQueued(old(shared.steps), shared.steps, shared.steps);
        }
        left := left - 1;
      }
    }

    /** How long n turns of that wait: no longer than the receive timeout, nor than 32 bits hold. */
    function WaitedMs(n: nat): nat {
      Min(n * setup.turnMs, if setup.receiveSec > 0 then ReceiveMs() else UINT32_MAX)
    }

    lemma OneTurnMore(n: nat)
      ensures (n + 1) * setup.turnMs == n * setup.turnMs + setup.turnMs
    {
    }

    /** _to_recv_ms() */
    function ReceiveMs(): nat {
      if setup.receiveSec > UINT32_MAX / 1000 then UINT32_MAX else setup.receiveSec * 1000
    }

    /** _mqtt_state_recv_ready(). canWait says whether the socket can wait for a packet without receiving
        it, for at most so many turns. Times decide whether PINGREQ is due, and whether a failed receive
        means the connection is lost. */
    method OnRecvReady(pingDue: bool, canWait: bool, turns: nat, lost: bool) returns (ghost read: seq<Byte>)
      requires Valid() && at.state == RecvReady
      modifies this`at, this`conns, shared, shared.slot, sock`taken, sock`incoming, sock`misses, sock`codes, sock`waits
      ensures Valid() && sock.taken == old(sock.taken) + read
      ensures sock.waits > old(sock.waits) <==> canWait && shared.slot.hasLock && at.state != SendPingreq && at.state != SendPublish
      ensures at.state == SendPingreq <==> setup.keepAlive > 0 && pingDue
      ensures at.state == SendPingreq || at.state == SendPublish ==> read == []
      ensures at.state == RecvMsg <==> StartsPublish(read)
      ensures at.state == RecvReady ==> read == [] || IsPingresp(read) || IsPuback(read)
      ensures IsPingresp(read) ==> at.state == RecvReady && at.pingresp
      ensures at.state in {SendPingreq, SendPublish, RecvMsg, RecvReady, Reconnect}
      ensures at.state != SendPingreq && shared.slot.hasLock ==> at.state == SendPublish || WasNotQueued(old(shared.steps), shared.steps)
      ensures at.state == RecvReady && read == [] ==> sock.misses > old(sock.misses)
      ensures at.state == RecvReady && read == [] ==> sock.codes == old(sock.codes) || SaysNothing(old(sock.codes), sock.codes, lost)
      ensures at.state == Reconnect && read == [] ==> SaysLost(old(sock.codes), sock.codes, lost)
      ensures at.state == Reconnect ==> sock.misses > old(sock.misses) || NoneExpected(S.AwaitedId(old(shared.System().slot)), read)
      ensures forall id: nat :: id <= 65535 && read == PubackPacket(id) ==>
                (at.state == RecvReady <==> S.AwaitedId(old(shared.System().slot)) == Some(id))
    {
      hide RecordRight, P.Run, StateRight, IsConnected, MarksOf, Marks, Delivery, Allowed, Packet, EncodeLength, Header, StartsPublish, IsPingresp, IsPuback, NoHeader, ReadyOn, NoneExpected, WasNotQueued, SharedSlot.Valid, Retry.Valid, IsSetup, IsEndpoint;
      read := [];
      NothingStarts();
      ReadyIs(setup.cfg, at, shared.System().phase, Current(), sock.sent, sock.taken);
      if setup.keepAlive > 0 && pingDue {
        at := at.(state := SendPingreq);
        return;
      }
      var taken := shared.TryTake();
      if taken {
        at := at.(state := SendPublish);
        return;
      }
      ghost var since := shared.steps;
      read := Receive(canWait, turns, lost);
      if shared.slot.hasLock {
        ThenNotQueued(old(shared.steps), since, shared.steps);
      }
    }

    /** The rest of RECV_READY, with no message to send. */
    method Receive(canWait: bool, turns: nat, lost: bool) returns (ghost read: seq<Byte>)
      requires Recorded() && shared.System().phase == P.Ready && at.state == RecvReady && sock.open
      requires ReadyOn(setup.cfg, at, Current(), sock.sent, sock.taken)
      modifies this`at, this`conns, shared, shared.slot, sock`taken, sock`incoming, sock`misses, sock`codes, sock`waits
      ensures Valid() && sock.taken == old(sock.taken) + read
      ensures sock.waits > old(sock.waits) <==> canWait && shared.slot.hasLock
      ensures at.state == RecvMsg <==> StartsPublish(read)
      ensures at.state == RecvReady ==> read == [] || IsPingresp(read) || IsPuback(read)
      ensures IsPingresp(read) ==> at.state == RecvReady && at.pingresp
      ensures at.state in {RecvMsg, RecvReady, Reconnect}
      ensures old(shared.steps) <= shared.steps
      ensures at.state == RecvReady && read == [] ==> sock.misses > old(sock.misses)
      ensures at.state == RecvReady && read == [] ==> sock.codes == old(sock.codes) || SaysNothing(old(sock.codes), sock.codes, lost)
      ensures at.state == Reconnect && read == [] ==> SaysLost(old(sock.codes), sock.codes, lost)
      ensures at.state == Reconnect ==> sock.misses > old(sock.misses) || NoneExpected(S.AwaitedId(old(shared.System().slot)), read)
      ensures forall id: nat :: id <= 65535 && read == PubackPacket(id) ==>
                (at.state == RecvReady <==> S.AwaitedId(old(shared.System().slot)) == Some(id))
    {
      hide RecordRight, P.Run, StateRight, IsConnected, MarksOf, Marks, Delivery, Allowed, Packet, EncodeLength, Header, StartsPublish, IsPingresp, IsPuback, NoHeader, ReadyOn, NoneExpected, SharedSlot.Valid, Retry.Valid, IsSetup, IsEndpoint;
      read := [];
      NothingStarts();
      ReadyIs(setup.cfg, at, shared.System().phase, Current(), sock.sent, sock.taken);
      if canWait && shared.slot.hasLock {
        var arriving, waitedMs := WaitForPacket(turns);
        if !arriving {
          return;
        }
      }
      var code, n, b := RecvByte(sock);
      if code.SockOk? && n == 0 {
        GoReconnect();
      } else if code.SockOk? {
        read := Packets(b, old(sock.taken));
      } else if code.SockFail? && lost {
        GoReconnect();
      } else {
        assert sock.taken == old(sock.taken);
      }
    }

    /** A packet's first byte has come, after what taken is. */
    method Packets(b: Byte, ghost taken: seq<Byte>) returns (ghost read: seq<Byte>)
      requires Recorded() && shared.System().phase == P.Ready && at.state == RecvReady && sock.open && sock.taken == taken + [b]
      requires ReadyOn(setup.cfg, at, Current(), sock.sent, taken)
      modifies this`at, this`conns, shared, shared.slot, sock`taken, sock`incoming, sock`misses, sock`codes
      ensures Valid() && sock.taken == taken + read && read != []
      ensures at.state == RecvMsg <==> StartsPublish(read)
      ensures at.state == RecvReady ==> IsPingresp(read) || IsPuback(read)
      ensures IsPingresp(read) ==> at.state == RecvReady && at.pingresp
      ensures at.state in {RecvMsg, RecvReady, Reconnect}
      ensures old(shared.steps) <= shared.steps
      ensures at.state == Reconnect ==> sock.misses > old(sock.misses) || NoneExpected(S.AwaitedId(old(shared.System().slot)), read)
      ensures forall id: nat :: id <= 65535 && read == PubackPacket(id) ==>
                (at.state == RecvReady <==> S.AwaitedId(old(shared.System().slot)) == Some(id))
    {
      hide RecordRight, P.Run, StateRight, IsConnected, MarksOf, Marks, Delivery, Allowed, Packet, EncodeLength, Header, StartsPublish, IsPingresp, IsPuback, NoHeader, NoHeaderStarts, NoLengthStarts, NoneExpected, PubackPacket, S.AwaitedId, Number, QosOf, DupOf, RetainOf, IsPublish, ReadyOn, SharedSlot.Valid, Retry.Valid, IsSetup, IsEndpoint;
      ReadyIs(setup.cfg, at, shared.System().phase, Current(), sock.sent, taken);
      var ok, n, rest := RecvLength(sock);
      read := [b] + rest;
      if !ok {
        NoHeaderAfter(b, rest);
        NoStart(setup.cfg, read);
        NoPingresp(read);
        NoStartAfter(b, rest);
        NoneComes(S.AwaitedId(shared.System().slot), read);
        GoReconnect();
        return;
      }
      HeaderIs(b, n);
      assert read == Header(b, n) && read + [] == read;
      WhichPacket(b, n, []);
      WhichPuback(S.AwaitedId(shared.System().slot), b, n, []);
      if IsPublish(b) {
        assert sock.taken == taken + Header(b, n);
        StartMessage(b, n, false, taken);
      } else if b == 0xD0 && n == 0 {
        assert sock.taken == taken + Packet(0xD0, []);
        TakePingresp(taken);
      } else if b == 0x40 && n == 2 {
        read := StartPuback(taken);
      } else {
        GoReconnect();
      }
    }

    /** The fixed header of a PUBACK has come, after what taken is. */
    method StartPuback(ghost taken: seq<Byte>) returns (ghost read: seq<Byte>)
      requires Recorded() && shared.System().phase == P.Ready && at.state == RecvReady && sock.open && sock.taken == taken + Header(0x40, 2)
      requires ReadyOn(setup.cfg, at, Current(), sock.sent, taken)
      modifies this`at, this`conns, shared, shared.slot, sock`taken, sock`incoming, sock`misses, sock`codes
      ensures Valid() && sock.taken == taken + read && read != [] && !StartsPublish(read) && !IsPingresp(read)
      ensures at.state == RecvReady ==> IsPuback(read)
      ensures at.state in {RecvReady, Reconnect}
      ensures old(shared.steps) <= shared.steps
      ensures at.state == Reconnect ==> sock.misses > old(sock.misses) || NoneExpected(S.AwaitedId(old(shared.System().slot)), read)
      ensures forall id: nat :: id <= 65535 && read == PubackPacket(id) ==>
                (at.state == RecvReady <==> S.AwaitedId(old(shared.System().slot)) == Some(id))
    {
      hide RecordRight, P.Run, StateRight, IsConnected, MarksOf, Marks, Delivery, Allowed, Packet, EncodeLength, Header, StartsPublish, IsPingresp, IsPuback, NoneExpected, PubackPacket, S.AwaitedId, Number, ReadyOn, SharedSlot.Valid, Retry.Valid, IsSetup, IsEndpoint;
      ReadyIs(setup.cfg, at, shared.System().phase, Current(), sock.sent, taken);
      ghost var rest: seq<Byte> := [];
      var awaited := shared.IsAwaited();
      if awaited {
        rest := TakePuback(taken);
      } else {
        GoReconnect();
      }
      read := Header(0x40, 2) + rest;
      assert taken + read == taken + Header(0x40, 2) + rest;
      HeaderIs(0x40, 2);
      WhichPacket(0x40, 2, rest);
      WhichPuback(S.AwaitedId(old(shared.System().slot)), 0x40, 2, rest);
    }

    method TakePingresp(ghost taken: seq<Byte>)
      requires Recorded() && shared.System().phase == P.Ready && at.state == RecvReady && sock.open && sock.taken == taken + Packet(0xD0, [])
      requires ReadyOn(setup.cfg, at, Current(), sock.sent, taken)
      modifies this`at, this`conns
      ensures Valid() && at == old(at).(pingresp := true)
    {
      hide RecordRight, P.Run, StateRight, IsConnected, MarksOf, Marks, Delivery, Allowed, Packet, EncodeLength, Header, ReadyOn, SharedSlot.Valid, Retry.Valid, IsSetup, IsEndpoint;
      ghost var log := shared.System().log;
      ReadyIs(setup.cfg, at, P.Ready, Current(), sock.sent, taken);
      PingrespTaken(setup.cfg, at, Current(), sock.sent, taken);
      Add(In(0xD0, []), received, log);
      at := at.(pingresp := true);
    }

    /** The rest of a PUBACK is to come, after what taken is and its fixed header. */
    method TakePuback(ghost taken: seq<Byte>) returns (ghost rest: seq<Byte>)
      requires Recorded() && shared.System().phase == P.ReadingPuback && at.state == RecvReady && sock.open && sock.taken == taken + Header(0x40, 2)
      requires ReadyOn(setup.cfg, at, Current(), sock.sent, taken)
      modifies this`at, this`conns, shared, shared.slot, sock`taken, sock`incoming, sock`misses, sock`codes
      ensures Valid() && sock.taken == taken + Header(0x40, 2) + rest
      ensures at.state == Reconnect || (at.state == RecvReady && IsPuback(Header(0x40, 2) + rest))
      ensures old(shared.steps) <= shared.steps
      ensures |rest| <= 2 && (|rest| == 2 ==> (at.state == RecvReady <==> S.AwaitedId(old(shared.System().slot)) == Some(Number(rest, 0))))
      ensures |rest| < 2 ==> at.state == Reconnect && sock.misses > old(sock.misses)
    {
      hide RecordRight, P.Run, StateRight, IsConnected, MarksOf, Marks, Delivery, Allowed, Packet, EncodeLength, Header, ReadyOn, IsPuback, SharedSlot.Valid, Retry.Valid, IsSetup, IsEndpoint;
      ghost var c, log := Current(), shared.System().log;
      ReadyIs(setup.cfg, at, P.Ready, c, sock.sent, taken);
      var two := new Byte[2];
      var ok;
      ok, rest := RecvRemaining(sock, 2, two);
      if !ok {
        GoReconnect();
        return;
      }
      var high: nat, low: nat := two[0], two[1];
      ghost var body := two[..2];
      assert Number(body, 0) == high * 256 + low;
      PubackTaken(setup.cfg, at, c, sock.sent, taken, body);
      var acked := shared.TryAck(high * 256 + low);
      MarksOfMore(log, P.Puback(|conns|, high * 256 + low));
      Add(In(0x40, body), received, log);
      assert sock.taken == taken + Packet(0x40, body);
      if !acked {
        // Of no message the task sent and awaits it for.
        Reconnects(setup.cfg, at, Current(), sock.sent, sock.taken);
        at := at.(state := Reconnect);
      }
    }

    /** _mqtt_state_recv_msg() */
    method OnRecvMsg() returns (ghost read: seq<Byte>)
      requires Valid() && at.state == RecvMsg
      modifies this, shared, sock`taken, sock`incoming, sock`misses, sock`codes, sock`sent, sock`room, buffer
      ensures Valid() && sock.taken == old(sock.taken) + read
      ensures at.state == Reconnect || at.state == if old(at.awaitingSuback) then RecvSuback else RecvReady
      ensures at.state != Reconnect <==> Takes(setup.cfg, old(at), read) && (old(at).qos == 1 ==> old(sock.room) >= 4)
      ensures !Takes(setup.cfg, old(at), read) ==> sock.misses > old(sock.misses) || NoneTaken(setup.cfg, old(at), read)
      ensures var taken := Takes(setup.cfg, old(at), read);
              && received == old(received) + (if taken then Delivery(setup.cfg, In(HeadOf(old(at)), read)) else [])
              && sock.sent == old(sock.sent)
                 + (if taken && old(at).qos == 1 then Fitting(PubackPacket(IdOf(read)), old(sock.room)) else [])
    {
      hide RecordRight, P.Run, StateRight, IsConnected, MarksOf, Marks, Delivery, Allowed, Packet, EncodeLength, Header, Takes, IsGoodPublish, PublishedMessage, IsGoodEnough, PubackPacket, SharedSlot.Valid, Retry.Valid, IsSetup, IsEndpoint;
      MessageDue(setup.cfg, at, shared.System().phase, Current(), sock.sent, sock.taken);
      var good, m, hasId, id;
      good, m, hasId, id, read := ReceiveMessage();
      if !good {
        GoReconnect();
        return;
      }
      TakeMessage(read, m, hasId, id, old(sock.taken));
    }

    /** The rest of the message: whether the task takes it, and what the callback is to be given of it. */
    method ReceiveMessage() returns (good: bool, m: Option<Message>, hasId: bool, id: nat, ghost read: seq<Byte>)
      requires sock.open && at.qos <= 3 && setup.cfg.room == buffer.Length
      modifies sock`taken, sock`incoming, sock`misses, sock`codes, buffer
      ensures sock.taken == old(sock.taken) + read && (good <==> Takes(setup.cfg, at, read))
      ensures !good ==> sock.misses > old(sock.misses) || NoneTaken(setup.cfg, at, read)
      ensures good ==> (m.Some? <==> |read| <= setup.cfg.room) && Delivery(setup.cfg, In(HeadOf(at), read)) == if m.Some? then [m.value] else []
      ensures good ==> (hasId <==> at.qos == 1) && (hasId ==> id == IdOf(read) && 0 < id <= 65535)
    {
      hide Takes, IsGoodPublish, PublishedMessage, IsGoodEnough, Delivery, HeadOf, IdOf, NoneTaken, NoneGoodStarts;
      m, hasId, id, read := None, false, 0, [];
      NotTaken(setup.cfg, at, read);
      if at.qos > 1 || (at.qos == 0 && at.dup) {
        NoneTakenThen(setup.cfg, at, read);
        return false, m, hasId, id, read;
      }
      if at.size > buffer.Length {
        good, hasId, id, read := DropMessage(sock, at.size, at.qos);
        WhichMessage(setup.cfg, at, read, None);
      } else {
        good, m, read := ReadMessage(sock, buffer, at.size, at.qos, at.dup, at.retain);
        NotTaken(setup.cfg, at, read);
        WhichMessage(setup.cfg, at, read, m);
        good := m.Some?;
        hasId, id := at.qos == 1, if m.Some? then m.value.id else 0;
      }
      NoneTakenThen(setup.cfg, at, read);
    }

    /** A message the task takes has come whole, after what taken is: the callback is given it, unless it
        was dropped, and then it is acknowledged, at QoS 1. */
    method TakeMessage(ghost read: seq<Byte>, m: Option<Message>, hasId: bool, id: nat, ghost taken: seq<Byte>)
      requires Recorded() && at.state == RecvMsg && sock.open && at.sockConnected && sock.taken == taken + read
      requires StateRight(setup.cfg, at, shared.System().phase, Current(), sock.sent, taken)
      requires Takes(setup.cfg, at, read) && (m.Some? <==> |read| <= setup.cfg.room)
      requires Delivery(setup.cfg, In(HeadOf(at), read)) == if m.Some? then [m.value] else []
      requires (hasId <==> at.qos == 1) && (hasId ==> id == IdOf(read) && 0 < id <= 65535)
      modifies this`at, this`conns, this`received, shared, sock`sent, sock`room
      ensures Valid() && received == old(received) + Delivery(setup.cfg, In(HeadOf(old(at)), read))
      ensures at.state == if hasId && old(sock.room) < 4 then Reconnect else if old(at.awaitingSuback) then RecvSuback else RecvReady
      ensures sock.sent == old(sock.sent) + if hasId then Fitting(PubackPacket(id), old(sock.room)) else []
    {
      hide RecordRight, P.Run, StateRight, IsConnected, MarksOf, Marks, Delivery, Allowed, Packet, EncodeLength, Header, Takes, IsGoodPublish, PublishedMessage, PubackPacket, IdOf, SharedSlot.Valid, Retry.Valid, IsSetup, IsEndpoint, HeadOf, Unacknowledged;
      ghost var c, log, before, t := Current(), shared.System().log, received, at;
      MessageDue(setup.cfg, t, shared.System().phase, c, sock.sent, taken);
      MessageTaken(setup.cfg, t, shared.System().phase, c, sock.sent, taken, read);
      if m.Some? {
        received := received + [m.value];
      }
      Add(In(HeadOf(t), read), before, log);
      if hasId {
        Acknowledge(c, read, id, taken);
      } else {
        at := at.(state := if at.awaitingSuback then RecvSuback else RecvReady);
      }
    }

    /** _mqtt_send_puback(), after a message at QoS 1, which came after what c and taken have. */
    method Acknowledge(ghost c: seq<Event>, ghost read: seq<Byte>, id: nat, ghost taken: seq<Byte>)
      requires Recorded() && at.state == RecvMsg && sock.open && at.sockConnected && sock.taken == taken + read
      requires StateRight(setup.cfg, at, shared.System().phase, c, sock.sent, taken) && Current() == c + [In(HeadOf(at), read)]
      requires Takes(setup.cfg, at, read) && at.qos == 1 && id == IdOf(read) && 0 < id <= 65535
      modifies this`at, this`conns, shared, sock`sent, sock`room
      ensures Valid()
      ensures at.state == if old(sock.room) < 4 then Reconnect else if old(at.awaitingSuback) then RecvSuback else RecvReady
      ensures sock.sent == old(sock.sent) + Fitting(PubackPacket(id), old(sock.room))
    {
      hide RecordRight, P.Run, StateRight, IsConnected, MarksOf, Marks, Delivery, Allowed, Packet, EncodeLength, Header, Takes, IsGoodPublish, PublishedMessage, PubackPacket, IdOf, HeadOf, Unacknowledged, SharedSlot.Valid, Retry.Valid, IsSetup, IsEndpoint;
      ghost var log, phase := shared.System().log, shared.System().phase;
      MessageDue(setup.cfg, at, phase, c, sock.sent, taken);
      var ok := SendAll(sock, [0x40, 2, id / 256, id % 256]);
      PubackSent(setup.cfg, at, phase, c, old(sock.sent), taken, read, ok);
      Add(Out(0x40, [id / 256, id % 256], ok), received, log);
      if !ok {
        GoReconnect();
        return;
      }
      assert sock.sent == old(sock.sent) + PubackPacket(id);
      at := at.(state := if at.awaitingSuback then RecvSuback else RecvReady);
    }

    // ---------- The loop ----------

    /** One turn of mqtt_start_task()'s loop that isn't spent waiting, as no wait is left: any state, with
        what the cloud, the application and the times come to. It goes on to another state, or something
        failed, or the socket had nothing, or some of a packet has come. */
    method Turn()
      requires Valid() && !IsEnd(at.state) && retry.left == 0
      modifies this, shared, shared.slot, sock, buffer, retry
      ensures Valid() && Follows(setup.given, old(at.state), at.state)
      ensures at.state != old(at.state) || retry.failures > old(retry.failures) || sock.misses > old(sock.misses)
              || |sock.taken| > |old(sock.taken)|
    {
      hide RecordRight, P.Run, StateRight, SharedSlot.Valid, Retry.Valid, IsSetup, IsEndpoint, Follows;
      if at.state in {InstallPush, GetEndpoint, SockConnect, Reconnect} {
        TurnToConnect();
      } else if at.state in {SendConnect, RecvConnack, SendSubscribe, RecvSuback} {
        TurnToSubscribe();
      } else {
        TurnInUse();
      }
    }

    /** One turn without a connection, or to be rid of it. */
    method TurnToConnect()
      requires Valid() && at.state in {InstallPush, GetEndpoint, SockConnect, Reconnect} && retry.left == 0
      modifies this, shared, shared.slot, sock, buffer, retry
      ensures Valid() && Follows(setup.given, old(at.state), at.state)
      ensures at.state != old(at.state) || retry.failures > old(retry.failures) || sock.misses > old(sock.misses)
              || |sock.taken| > |old(sock.taken)|
    {
      hide RecordRight, P.Run, StateRight, SharedSlot.Valid, Retry.Valid, IsSetup, IsEndpoint, Valid, Recorded, Current;
      var outcome: Outcome := *;
      if at.state == InstallPush {
        OnInstallPush(outcome);
      } else if at.state == GetEndpoint {
        var found := SomeEndpoint();
        OnGetEndpoint(outcome, found);
      } else if at.state == SockConnect {
        OnSockConnect();
      } else {
        OnReconnect();
      }
    }

    /** What the cloud may answer with, as its fields have fixed sizes, which MQTT can carry. */
    method SomeEndpoint() returns (found: Endpoint)
      requires Valid()
      ensures IsEndpoint(found)
    {
      found := *;
      if !IsEndpoint(found) {
        found := endpoint;
      }
    }

    /** One turn of a connection that isn't in use yet. */
    method TurnToSubscribe()
      requires Valid() && at.state in {SendConnect, RecvConnack, SendSubscribe, RecvSuback} && retry.left == 0
      modifies this, shared, shared.slot, sock, buffer, retry
      ensures Valid() && Follows(setup.given, old(at.state), at.state)
      ensures at.state != old(at.state) || retry.failures > old(retry.failures) || sock.misses > old(sock.misses)
              || |sock.taken| > |old(sock.taken)|
    {
      hide RecordRight, P.Run, StateRight, Accepts, RefusesCredentials, StartsPublish, Grants, Packet, SharedSlot.Valid, Retry.Valid, IsSetup, IsEndpoint, ConnectBody, SubscribeBody, RoomForConnect, IsAnswer, NoPublishGoesOn, Fitting;
      var credentials: Option<Endpoint> := *;
      if credentials.Some? && !IsEndpoint(credentials.value) {
        credentials := None;
      }
      if at.state == SendConnect {
        OnSendConnect();
      } else if at.state == RecvConnack {
        ghost var read := OnRecvConnack(credentials);
      } else if at.state == SendSubscribe {
        OnSendSubscribe();
      } else {
        ghost var read := OnRecvSuback();
      }
    }

    /** One turn of a connection in use. */
    method TurnInUse()
      requires Valid() && at.state in {RecvReady, RecvMsg, SendPingreq, SendPublish} && retry.left == 0
      modifies this, shared, shared.slot, sock, buffer, retry
      ensures Valid() && Follows(setup.given, old(at.state), at.state)
      ensures at.state != old(at.state) || retry.failures > old(retry.failures) || sock.misses > old(sock.misses)
              || |sock.taken| > |old(sock.taken)|
    {
      hide RecordRight, P.Run, StateRight, StartsPublish, Takes, Packet, IsPuback, IsPingresp, Delivery, SharedSlot.Valid, SharedSlot.IsSending, Retry.Valid, IsSetup, IsEndpoint, NoneExpected, NoneTaken, WasNotQueued, PubackPacket, PublishBody, PublishByte1, HeadOf, IdOf, S.AwaitedId, Fitting;
      var x: bool, y: bool, z: bool, turns: nat := *, *, *, *;
      NothingStarts();
      if at.state == RecvReady {
        ghost var read := OnRecvReady(x, y, turns, z);
      } else if at.state == RecvMsg {
        ghost var read := OnRecvMsg();
      } else if at.state == SendPingreq {
        OnSendPingreq();
      } else {
        var m := OnSendPublish();
      }
    }

    /** mqtt_start_task(), for as many turns as the application lets it go on. Whatever happens on the way,
        every connection is legal, and closed in the end, and no call can give the task a message. states
        is what it went through, and waits how many turns it spent waiting, between any two states no more
        than the longest wait takes. */
    method Run(turns: nat) returns (ghost states: seq<State>, ghost waits: nat)
      requires Valid() && !IsEnd(at.state)
      modifies this, shared, shared.slot, sock, buffer, retry
      ensures Recorded() && !sock.open && shared.System().phase == P.Ended && !shared.slot.open
      ensures states != [] && Path(setup.given, states) && states[0] == old(at.state)
      ensures (at.state == ErrExit && states[|states| - 1] == ErrExit) || (at.state == Discontinued && |states| - 1 + waits == turns)
      ensures waits <= Rests(old(retry.left)) + (|states| - 1) * Rests(retry.Longest())
    {
      hide Valid, Recorded, P.Run, SharedSlot.Valid, Path, Follows, Rests;
      PathStarts(setup.given, at.state);
      var left := turns;
      states, waits := [at.state], 0;
      while !IsEnd(at.state)
        invariant Valid() && states != [] && Path(setup.given, states) && states[0] == old(at.state)
        invariant if at.state == Discontinued then left == 0 else states[|states| - 1] == at.state
        invariant |states| - 1 + waits == turns - left
        invariant waits + Rests(retry.left) <= Rests(old(retry.left)) + (|states| - 1) * Rests(retry.Longest())
        decreases left, if IsEnd(at.state) then 0 else 1
      {
        if left == 0 {
          Discontinue();
          break;
        }
        var rested := WaitOrTurn();
        if rested {
          waits := waits + 1;
        } else {
          OneWaitMore(|states| - 1, Rests(retry.Longest()), retry.left, retry.Longest());
          PathGoesOn(setup.given, states, at.state);
          states := states + [at.state];
        }
        left := left - 1;
      }
      Finish();
    }

    /** A turn of the loop, spent waiting if some of the wait is left. */
    method WaitOrTurn() returns (rested: bool)
      requires Valid() && !IsEnd(at.state)
      modifies this, shared, shared.slot, sock, buffer, retry
      ensures Valid() && retry.left <= retry.Longest() && (rested <==> old(retry.left) > 0)
      ensures if rested then at == old(at) && Rests(retry.left) == Rests(old(retry.left)) - 1
              else Follows(setup.given, old(at.state), at.state)
    {
      hide RecordRight, P.Run, StateRight, SharedSlot.Valid, IsSetup, IsEndpoint, Follows;
      rested := retry.left > 0;
      if rested {
        retry.Pass();
      } else {
        Turn();
      }
    }

    /** The application stops the task. */
    method Discontinue()
      requires Valid() && !IsEnd(at.state)
      modifies this`at
      ensures Valid() && at == old(at).(state := Discontinued)
    {
      hide RecordRight, P.Run, StateRight, SharedSlot.Valid, Retry.Valid, IsSetup, IsEndpoint;
      NotReading(setup.cfg, at, shared.System().phase, Current(), sock.sent, sock.taken);
      Ends(setup.cfg, at, shared.System().phase, Current(), sock.sent, sock.taken, NoError);
      at := at.(state := Discontinued);
    }

    /** What mqtt_start_task() does as it ends. */
    method Finish()
      requires Valid() && IsEnd(at.state)
      modifies this`at, this`conns, shared, shared.slot, sock`sent, sock`room, sock`open
      ensures Recorded() && !sock.open && shared.System().phase == P.Ended && !shared.slot.open
      ensures at == old(at).(sockConnected := false, mqttConnected := false)
      ensures sock.sent == old(sock.sent) + if old(at.mqttConnected) then Fitting([0xE0, 0], old(sock.room)) else []
      ensures conns == if old(at.mqttConnected) then With(old(conns), Out(0xE0, [], old(sock.room) >= 2)) else old(conns)
    {
      hide RecordRight, P.Run, StateRight, MarksOf, Marks, Delivery, Allowed, With, SharedSlot.Valid, Retry.Valid, IsSetup, IsEndpoint;
      ghost var c, log := Current(), shared.System().log;
      EndsSomewhere(setup.cfg, at, shared.System().phase, c, sock.sent, sock.taken);
      if at.sockConnected {
        if at.mqttConnected {
          var ok := SendAll(sock, [0xE0, 0]);
          DisconnectSent(setup.cfg, c, ok);
          Add(Out(0xE0, [], ok), received, log);
          at := at.(mqttConnected := false);
        }
        sock.Close();
        at := at.(sockConnected := false);
      }
      shared.Close();
    }
  }

  lemma Ends(cfg: Config, t: Task, phase: P.Phase, c: seq<Event>, sent: seq<Byte>, taken: seq<Byte>, error: TaskError)
    requires StateRight(cfg, t, phase, c, sent, taken) && phase != P.Ended && phase != P.ReadingPuback
    ensures StateRight(cfg, t.(state := ErrExit, error := error), phase, c, sent, taken)
    ensures StateRight(cfg, t.(state := Discontinued), phase, c, sent, taken)
  {
  }

  lemma ConnectStarts(cfg: Config, t: Task, phase: P.Phase, c: seq<Event>, sent: seq<Byte>, taken: seq<Byte>)
    requires StateRight(cfg, t, phase, c, sent, taken) && t.state == SendConnect
    ensures phase == P.Open && c == [] && sent == [] && taken == [] && t.sockConnected && !t.mqttConnected
  {
  }

  lemma AllFits(data: seq<Byte>, room: nat)
    ensures |data| <= room ==> Fitting(data, room) == data
  {
  }

  lemma ConnectSent(cfg: Config, t: Task, c: seq<Event>, body: seq<Byte>, ok: bool)
    requires c == [] && t.sockConnected && !t.mqttConnected && |body| <= LENGTH_MAX
    ensures var e := Out(0x10, body, ok);
            && Allowed(cfg, c, e) && Delivery(cfg, e) == [] && Marks(1, e) == [] && (forall n: nat :: Marks(n, e) == [])
            && IsConnected(cfg, t, [e])
            && (cfg.room >= 21 ==> StateRight(cfg, t.(state := RecvConnack), P.Open, [e], Packet(0x10, body), []))
  {
    hide Packet;
    NothingYet(cfg);
    Grows(cfg, c, Out(0x10, body, ok));
    assert [] + [Out(0x10, body, ok)] == [Out(0x10, body, ok)];
  }

  /** A CONNACK that accepts the connection is what was read. */
  ghost predicate Accepts(cfg: Config, read: seq<Byte>) {
    exists body: seq<Byte> :: |body| <= LENGTH_MAX && read == Packet(0x20, body) && IsAccepting(cfg, In(0x20, body))
  }

  ghost predicate RefusesCredentials(cfg: Config, read: seq<Byte>) {
    exists body: seq<Byte> :: |body| == 2 && read == Packet(0x20, body) && FlagsAllowed(cfg, body) && (body[1] == 4 || body[1] == 5)
  }

  lemma WhichConnack(cfg: Config, ok: bool, read: seq<Byte>, body: seq<Byte>)
    requires |body| == 2 && if ok then read == Packet(0x20, body) else IsNone(read, 0x20, 2)
    ensures Accepts(cfg, read) <==> ok && FlagsAllowed(cfg, body) && body[1] == 0
    ensures ok && FlagsAllowed(cfg, body) && body[1] == 0 ==> IsAccepting(cfg, In(0x20, body))
    ensures RefusesCredentials(cfg, read) <==> ok && FlagsAllowed(cfg, body) && (body[1] == 4 || body[1] == 5)
  {
    hide Packet;
    forall other: seq<Byte> | ok && Packet(0x20, other) == read ensures other == body {
      PacketIsOne(0x20, other, 0x20, body);
    }
  }

  lemma AnswerIs(ok: bool, read: seq<Byte>, byte1: Byte, body: seq<Byte>)
    ensures NoneStarts(read, byte1, |body|) || (ok && read == Packet(byte1, body)) ==> IsAnswer(read, byte1, |body|)
  {
    hide Packet, NoneStarts;
  }

  lemma HungUp(cfg: Config, t: Task, sent: seq<Byte>, taken: seq<Byte>)
    requires (IsOff(t.state) || IsEnd(t.state)) && !t.sockConnected && !t.mqttConnected
    ensures StateRight(cfg, t, P.Off, [], sent, taken)
  {
  }

  /** A connection that has had CONNECT alone. */
  lemma OneSent(cfg: Config, c: seq<Event>)
    requires |c| == 1 && c[0].Out? && c[0].byte1 == 0x10
    ensures !Accepted(cfg, c) && !Subscribed(c) && !Granted(cfg, c) && Pings(c) == 0
  {
    hide IsAccepting, IsGranting;
    NothingYet(cfg);
    assert c[..|c| - 1] == [];
    NotIn(cfg, c[0]);
  }

  lemma NotIn(cfg: Config, e: Event)
    ensures e.Out? ==> !IsAccepting(cfg, e) && !IsGranting(cfg, e)
  {
  }

  lemma ConnackDue(cfg: Config, t: Task, phase: P.Phase, c: seq<Event>, sent: seq<Byte>, taken: seq<Byte>)
    requires StateRight(cfg, t, phase, c, sent, taken) && t.state == RecvConnack
    ensures phase == P.Open && IsConnected(cfg, t, c) && !t.mqttConnected && t.sockConnected
  {
    hide SentBytes, TakenBytes, Accepted, Subscribed, Granted, Pings, Unacknowledged;
    OneSent(cfg, c);
  }

  lemma ConnackTaken(cfg: Config, t: Task, c: seq<Event>, sent: seq<Byte>, taken: seq<Byte>, body: seq<Byte>)
    requires StateRight(cfg, t, P.Open, c, sent, taken) && t.state == RecvConnack && IsAccepting(cfg, In(0x20, body))
    ensures var e := In(0x20, body);
            && Allowed(cfg, c, e) && Delivery(cfg, e) == [] && (forall n: nat :: Marks(n, e) == [])
            && StateRight(cfg, t.(pingresp := true, mqttConnected := true, state := SendSubscribe), P.Accepted, c + [e],
                          sent, taken + Packet(0x20, body))
  {
    hide SentBytes, TakenBytes, Accepted, Subscribed, Granted, Pings, Packet;
    OneSent(cfg, c);
    Grows(cfg, c, In(0x20, body));
  }

  /** The fixed header of a PUBLISH is what was read. */
  ghost predicate StartsPublish(read: seq<Byte>) {
    exists b: Byte, n: nat :: n <= LENGTH_MAX && read == Header(b, n) && IsPublish(b)
  }

  /** A SUBACK that grants the subscription is. */
  ghost predicate Grants(cfg: Config, read: seq<Byte>) {
    exists body: seq<Byte> :: |body| <= LENGTH_MAX && read == Packet(0x90, body) && IsGranting(cfg, In(0x90, body))
  }

  lemma SubscribeDue(cfg: Config, t: Task, phase: P.Phase, c: seq<Event>, sent: seq<Byte>, taken: seq<Byte>, body: seq<Byte>, ok: bool)
    requires StateRight(cfg, t, phase, c, sent, taken) && t.state == SendSubscribe && |body| <= LENGTH_MAX
    ensures phase == P.Accepted && IsConnected(cfg, t, c) && t.sockConnected
    ensures var e := Out(0x82, body, ok);
            && Allowed(cfg, c, e) && Delivery(cfg, e) == [] && (forall n: nat :: Marks(n, e) == [])
            && IsConnected(cfg, t, c + [e])
            && StateRight(cfg, t.(state := RecvSuback), phase, c + [e], sent + Packet(0x82, body), taken)
  {
    hide SentBytes, TakenBytes, Accepted, Subscribed, Granted, Pings, Packet;
    Grows(cfg, c, Out(0x82, body, ok));
  }

  lemma SubackDue(cfg: Config, t: Task, phase: P.Phase, c: seq<Event>, sent: seq<Byte>, taken: seq<Byte>)
    requires StateRight(cfg, t, phase, c, sent, taken) && t.state == RecvSuback
    ensures phase == P.Accepted && t.sockConnected
    ensures var t' := t.(awaitingSuback := false); IsConnected(cfg, t', c) && StateRight(cfg, t', phase, c, sent, taken)
  {
    hide SentBytes, TakenBytes, Accepted, Subscribed, Granted, Pings;
  }

  /** The start of a message is read, before SUBACK if awaiting says so. */
  lemma PublishStarts(cfg: Config, t: Task, phase: P.Phase, c: seq<Event>, sent: seq<Byte>, taken: seq<Byte>, b: Byte, n: nat, awaiting: bool)
    requires StateRight(cfg, t, phase, c, sent, taken) && IsPublish(b) && n <= LENGTH_MAX && !t.awaitingSuback
    requires t.state == if awaiting then RecvSuback else RecvReady
    ensures StateRight(cfg, t.(size := n, qos := QosOf(b), dup := DupOf(b), retain := RetainOf(b), awaitingSuback := awaiting, state := RecvMsg),
                       phase, c, sent, taken + Header(b, n))
    ensures StartsPublish(Header(b, n)) && !Grants(cfg, Header(b, n))
  {
    hide SentBytes, TakenBytes, Accepted, Subscribed, Granted, Pings, Header, IsPublish, QosOf, DupOf, RetainOf;
    HeadFields(b, t.(size := n, qos := QosOf(b), dup := DupOf(b), retain := RetainOf(b)));
    OnePacket(b, n, []);
    assert Header(b, n) + [] == Header(b, n);
    NotSuback(b);
  }

  lemma NotSuback(b: Byte)
    ensures IsPublish(b) ==> b != 0x90 && b != 0xD0 && b != 0x40
  {
  }

  lemma NoStart(cfg: Config, read: seq<Byte>)
    requires NoHeader(read)
    ensures !StartsPublish(read) && !Grants(cfg, read)
    ensures forall byte1: Byte, body: seq<Byte> :: |body| <= LENGTH_MAX ==> read != Packet(byte1, body)
  {
    hide Packet, Header, IsGranting;
    NoPacket(read);
  }

  lemma WhichSuback(cfg: Config, b: Byte, n: nat, rest: seq<Byte>, ok: bool, body: seq<Byte>)
    requires !IsPublish(b) && |body| == 3
    requires var read := Header(b, n) + rest; if ok then read == Packet(0x90, body) else IsNone(read, 0x90, 3)
    ensures var read := Header(b, n) + rest; !StartsPublish(read) && (Grants(cfg, read) <==> ok && IsGranting(cfg, In(0x90, body)))
  {
    hide Packet, Header, IsPublish;
    var read := Header(b, n) + rest;
    NoPublishStarts(b, n, rest);
    forall other: seq<Byte> | ok && Packet(0x90, other) == read ensures other == body {
      PacketIsOne(0x90, other, 0x90, body);
    }
  }

  lemma NoPublishStarts(b: Byte, n: nat, rest: seq<Byte>)
    requires !IsPublish(b)
    ensures !StartsPublish(Header(b, n) + rest)
  {
    hide Header, IsPublish;
    forall b': Byte, n': nat | Header(b', n') == Header(b, n) + rest ensures b' == b {
      assert Header(b', n') + [] == Header(b', n');
      OneHeader(b', n', [], b, n, rest);
    }
  }

  lemma SubackTaken(cfg: Config, t: Task, phase: P.Phase, c: seq<Event>, sent: seq<Byte>, taken: seq<Byte>, body: seq<Byte>)
    requires StateRight(cfg, t, phase, c, sent, taken) && t.state == RecvSuback && IsGranting(cfg, In(0x90, body)) && !t.awaitingSuback
    ensures phase == P.Accepted
    ensures var e := In(0x90, body);
            && Allowed(cfg, c, e) && Delivery(cfg, e) == [] && (forall n: nat :: Marks(n, e) == [])
            && StateRight(cfg, t.(state := RecvReady), P.Ready, c + [e], sent, taken + Packet(0x90, body))
  {
    hide SentBytes, TakenBytes, Accepted, Subscribed, Granted, Pings, Packet;
    Grows(cfg, c, In(0x90, body));
  }

  lemma InUseConnected(cfg: Config, t: Task, phase: P.Phase, c: seq<Event>, sent: seq<Byte>, taken: seq<Byte>)
    requires StateRight(cfg, t, phase, c, sent, taken) && (t.state == SendPingreq || t.state == SendPublish || t.state == RecvReady)
    ensures IsConnected(cfg, t, c) && t.sockConnected && cfg.room >= 21 && phase == (if t.state == SendPublish then P.Publishing else P.Ready)
    ensures !t.awaitingSuback
  {
    hide SentBytes, TakenBytes, Accepted, Subscribed, Granted, Pings;
  }

  lemma PingSent(cfg: Config, t: Task, phase: P.Phase, c: seq<Event>, sent: seq<Byte>, taken: seq<Byte>, ok: bool)
    requires StateRight(cfg, t, phase, c, sent, taken) && t.state == SendPingreq && t.pingresp
    ensures Packet(0xC0, []) == [0xC0, 0]
    ensures var e := Out(0xC0, [], ok);
            && Allowed(cfg, c, e) && Delivery(cfg, e) == [] && (forall n: nat :: Marks(n, e) == [])
            && IsConnected(cfg, t, c + [e])
            && StateRight(cfg, t.(pingresp := false, state := RecvReady), phase, c + [e], sent + [0xC0, 0], taken)
  {
    hide SentBytes, TakenBytes, Accepted, Subscribed, Granted, Pings;
    Grows(cfg, c, Out(0xC0, [], ok));
  }

  lemma PublishSent(cfg: Config, t: Task, c: seq<Event>, sent: seq<Byte>, taken: seq<Byte>, m: Message, ok: bool)
    requires StateRight(cfg, t, P.Publishing, c, sent, taken) && t.state == SendPublish && IsMessage(m)
    ensures var e := Out(PublishByte1(m), PublishBody(m), ok);
            && Allowed(cfg, c, e) && Delivery(cfg, e) == [] && (forall n: nat :: Marks(n, e) == [Published(n, m, ok)])
            && IsConnected(cfg, t, c + [e])
            && StateRight(cfg, t.(state := RecvReady), P.Ready, c + [e], sent + Packet(PublishByte1(m), PublishBody(m)), taken)
  {
    hide SentBytes, TakenBytes, Accepted, Subscribed, Granted, Pings, Packet, PublishBody, PublishByte1, MessageOf, IsPublish, QosOf, DupOf;
    Grows(cfg, c, Out(PublishByte1(m), PublishBody(m), ok));
    PublishShows(m);
  }

  /** What shows of a message on the wire is all of it. */
  lemma PublishShows(m: Message)
    requires IsMessage(m)
    ensures var b := PublishByte1(m); IsPublish(b) && b != 0x40 && b != 0x10 && b != 0x82 && b != 0xC0 && b != 0xE0
    ensures MessageOf(PublishByte1(m), PublishBody(m)) == Some(m)
    ensures |PublishBody(m)| <= LENGTH_MAX
  {
    hide PublishedMessage, PublishBody, IsTopicText;
    PublishRoundTrip(m);
  }

  lemma Reconnects(cfg: Config, t: Task, c: seq<Event>, sent: seq<Byte>, taken: seq<Byte>)
    requires IsConnected(cfg, t, c)
    ensures t.sockConnected && StateRight(cfg, t.(state := Reconnect), P.Broken, c, sent, taken)
  {
  }

  lemma BrokenOff(cfg: Config, t: Task, phase: P.Phase, c: seq<Event>, sent: seq<Byte>, taken: seq<Byte>)
    requires StateRight(cfg, t, phase, c, sent, taken) && t.state == Reconnect
    ensures phase == P.Broken && t.sockConnected
  {
  }

  ghost predicate IsPingresp(read: seq<Byte>) {
    read == Packet(0xD0, [])
  }

  ghost predicate IsPuback(read: seq<Byte>) {
    exists body: seq<Byte> :: |body| == 2 && read == Packet(0x40, body)
  }

  function PubackPacket(id: nat): seq<Byte> {
    [0x40, 2, id / 256 % 256, id % 256]
  }

  /** RECV_READY's connection, and what the state knows of it. */
  predicate ReadyOn(cfg: Config, t: Task, c: seq<Event>, sent: seq<Byte>, taken: seq<Byte>) {
    cfg.room >= 21 && t.sockConnected && t.mqttConnected && !t.awaitingSuback && InUse(cfg, t, c) && OnPackets(c, sent, taken)
  }

  lemma ReadyIs(cfg: Config, t: Task, phase: P.Phase, c: seq<Event>, sent: seq<Byte>, taken: seq<Byte>)
    requires t.state == RecvReady && (StateRight(cfg, t, phase, c, sent, taken) || (ReadyOn(cfg, t, c, sent, taken) && phase == P.Ready))
    ensures phase == P.Ready && ReadyOn(cfg, t, c, sent, taken) && IsConnected(cfg, t, c) && t.sockConnected && !t.awaitingSuback
    ensures StateRight(cfg, t, P.Ready, c, sent, taken)
    ensures StateRight(cfg, t.(state := SendPingreq), P.Ready, c, sent, taken)
    ensures StateRight(cfg, t.(state := SendPublish), P.Publishing, c, sent, taken)
  {
    hide SentBytes, TakenBytes, Accepted, Subscribed, Granted, Pings;
  }

  lemma NothingStarts()
    ensures !StartsPublish([]) && !IsPingresp([]) && !IsPuback([])
  {
  }

  /** The answers the task tells apart, byte by byte (MQTT 3.1.1, sections 3.2, 3.4, 3.9 and 3.13). 3.1
      leaves a CONNACK's first byte open. */
  lemma AnswersAre(cfg: Config, read: seq<Byte>)
    ensures Accepts(cfg, read) <==> |read| == 4 && read[..2] == [0x20, 2] && read[3] == 0
                                    && (cfg.version31 || read[2] == 0 || (read[2] == 1 && !cfg.cleanSession))
    ensures RefusesCredentials(cfg, read) <==> |read| == 4 && read[..2] == [0x20, 2] && (read[3] == 4 || read[3] == 5)
                                               && (cfg.version31 || read[2] == 0)
    ensures Grants(cfg, read) <==> read == [0x90, 3, 0, 1, 0] || (read == [0x90, 3, 0, 1, 1] && cfg.qos1)
    ensures IsPingresp(read) <==> read == [0xD0, 0]
    ensures IsPuback(read) <==> |read| == 4 && read[..2] == [0x40, 2]
  {
    hide Packet, IsAccepting, IsGranting, FlagsAllowed;
    ConnackBytes(cfg, read);
    SubackBytes(cfg, read);
    PacketBytes(read, 0xD0, []);
    forall body: seq<Byte> | |body| == 2 ensures read == Packet(0x40, body) <==> |read| == 4 && read[..2] == [0x40, 2] && read[2..] == body {
      PacketBytes(read, 0x40, body);
    }
  }

  lemma PacketBytes(read: seq<Byte>, b: Byte, body: seq<Byte>)
    requires |body| < 128
    ensures read == Packet(b, body) <==> |read| == |body| + 2 && read[..2] == [b, |body|] && read[2..] == body
  {
    assert Packet(b, body) == [b, |body|] + body;
    if |read| == |body| + 2 {
      assert read == read[..2] + read[2..];
    }
  }

  lemma ConnackBytes(cfg: Config, read: seq<Byte>)
    ensures Accepts(cfg, read) <==> |read| == 4 && read[..2] == [0x20, 2] && read[3] == 0
                                    && (cfg.version31 || read[2] == 0 || (read[2] == 1 && !cfg.cleanSession))
    ensures RefusesCredentials(cfg, read) <==> |read| == 4 && read[..2] == [0x20, 2] && (read[3] == 4 || read[3] == 5)
                                               && (cfg.version31 || read[2] == 0)
  {
    hide Packet;
    forall body: seq<Byte> | |body| == 2 ensures read == Packet(0x20, body) <==> |read| == 4 && read[..2] == [0x20, 2] && read[2..] == body {
      PacketBytes(read, 0x20, body);
    }
  }

  lemma SubackBytes(cfg: Config, read: seq<Byte>)
    ensures Grants(cfg, read) <==> read == [0x90, 3, 0, 1, 0] || (read == [0x90, 3, 0, 1, 1] && cfg.qos1)
  {
    hide Packet;
    forall body: seq<Byte> | |body| == 3 ensures read == Packet(0x90, body) <==> |read| == 5 && read[..2] == [0x90, 3] && read[2..] == body {
      PacketBytes(read, 0x90, body);
    }
    if |read| == 5 {
      FiveBytes(read, read[2..]);
    }
  }

  lemma FiveBytes(s: seq<Byte>, body: seq<Byte>)
    requires |s| == 5 && body == s[2..]
    ensures s == [s[0], s[1], body[0], body[1], body[2]] && (s[..2] == [0x90, 3] <==> s[0] == 0x90 && s[1] == 3)
  {
  }

  lemma NoPingresp(read: seq<Byte>)
    requires forall byte1: Byte, body: seq<Byte> :: |body| <= LENGTH_MAX ==> read != Packet(byte1, body)
    ensures !IsPingresp(read)
  {
    hide Packet;
  }

  lemma HeaderIs(b: Byte, n: nat)
    ensures Header(b, n) == [b] + EncodeLength(n)
    ensures Packet(0xD0, []) == Header(0xD0, 0)
  {
    assert Packet(0xD0, []) == Header(0xD0, 0) + [];
  }

  lemma WhichPacket(b: Byte, n: nat, rest: seq<Byte>)
    requires n <= LENGTH_MAX
    ensures var read := Header(b, n) + rest;
            && (IsPingresp(read) <==> b == 0xD0 && n == 0 && rest == [])
            && (!IsPublish(b) ==> !StartsPublish(read))
            && (b == 0x40 && n == 2 && |rest| == 2 ==> IsPuback(read))
    ensures IsPublish(b) ==> b != 0xD0
  {
    hide Header, Packet, IsPublish;
    OnePacket(b, n, rest);
    NotSuback(b);
    HeaderIs(b, n);
    assert Header(b, n) + [] == Header(b, n);
    if !IsPublish(b) {
      NoPublishStarts(b, n, rest);
    }
    if b == 0x40 && n == 2 && |rest| == 2 {
      HeaderAndBody(0x40, rest);
    }
  }

  lemma PingrespTaken(cfg: Config, t: Task, c: seq<Event>, sent: seq<Byte>, taken: seq<Byte>)
    requires ReadyOn(cfg, t, c, sent, taken) && t.state == RecvReady
    ensures var e := In(0xD0, []);
            && Allowed(cfg, c, e) && Delivery(cfg, e) == [] && (forall n: nat :: Marks(n, e) == [])
            && StateRight(cfg, t.(pingresp := true), P.Ready, c + [e], sent, taken + Packet(0xD0, []))
  {
    hide SentBytes, TakenBytes, Accepted, Subscribed, Granted, Pings, Packet;
    Grows(cfg, c, In(0xD0, []));
  }

  lemma PubackTaken(cfg: Config, t: Task, c: seq<Event>, sent: seq<Byte>, taken: seq<Byte>, body: seq<Byte>)
    requires ReadyOn(cfg, t, c, sent, taken) && t.state == RecvReady && |body| == 2
    ensures var e := In(0x40, body);
            && Allowed(cfg, c, e) && Delivery(cfg, e) == [] && (forall n: nat :: Marks(n, e) == [Puback(n, Number(body, 0))])
            && IsConnected(cfg, t, c + [e])
            && StateRight(cfg, t, P.Ready, c + [e], sent, taken + Packet(0x40, body))
    ensures Packet(0x40, body) == Header(0x40, 2) + body && IsPuback(Header(0x40, 2) + body)
  {
    hide SentBytes, TakenBytes, Accepted, Subscribed, Granted, Pings, Packet, Number, Header;
    Grows(cfg, c, In(0x40, body));
    HeaderAndBody(0x40, body);
  }

  /** What read is of a message the task takes. */
  ghost predicate Takes(cfg: Config, t: Task, read: seq<Byte>) {
    |read| == t.size && IsGoodPublish(cfg, HeadOf(t), read)
  }

  /** What read is the start of no message the task takes. */
  ghost predicate NoneTaken(cfg: Config, t: Task, read: seq<Byte>) {
    forall body: seq<Byte> :: |body| == t.size && read <= body ==> !IsGoodPublish(cfg, HeadOf(t), body)
  }

  /** Asked for a byte once, the socket had none, and the connection isn't lost by that. */
  ghost predicate SaysNothing(before: seq<SockCode>, after: seq<SockCode>, lost: bool) {
    after == before + [SockAgain] || (after == before + [SockFail] && !lost)
  }

  /** It said that the connection has ended, or failed for good. */
  ghost predicate SaysLost(before: seq<SockCode>, after: seq<SockCode>, lost: bool) {
    after == before + [SockOk] || (after == before + [SockFail] && lost)
  }

  /** read is all of a packet of that type and size, or the start of none. */
  ghost predicate IsAnswer(read: seq<Byte>, byte1: Byte, size: nat) {
    NoneStarts(read, byte1, size) || exists body: seq<Byte> :: |body| == size && read == Packet(byte1, body)
  }

  /** The fixed header of a PUBLISH doesn't start with read. */
  ghost predicate NoPublishGoesOn(read: seq<Byte>) {
    forall b: Byte, n: nat :: n <= LENGTH_MAX && IsPublish(b) ==> !(read <= Header(b, n))
  }

  /** What RECV_READY takes: a message, PINGRESP, and a PUBACK with the identifier awaited. */
  predicate IsExpected(awaited: Option<nat>, byte1: Byte, body: seq<Byte>) {
    IsPublish(byte1) || (byte1 == 0xD0 && body == []) || (byte1 == 0x40 && |body| == 2 && awaited == Some(Number(body, 0)))
  }

  /** read is the start of none of that. */
  ghost predicate NoneExpected(awaited: Option<nat>, read: seq<Byte>) {
    forall byte1: Byte, body: seq<Byte> :: |body| <= LENGTH_MAX && read <= Packet(byte1, body) ==> !IsExpected(awaited, byte1, body)
  }

  /** At some time from one point of the interleavings to another no message waited to be sent. */
  ghost predicate WasNotQueued(before: seq<P.Step>, after: seq<P.Step>) {
    exists n :: |before| <= n <= |after| && P.Run(after[..n]).slot.state != S.Queued
  }

  lemma ThenNotQueued(before: seq<P.Step>, since: seq<P.Step>, after: seq<P.Step>)
    requires before <= since <= after && !S.CanTake(P.Run(since).slot)
    ensures WasNotQueued(before, after)
  {
    hide P.Run;
    assert after[..|since|] == since;
  }

  /** A packet that starts with a fixed header is one of that type and size. */
  lemma StartsIs(b: Byte, n: nat, rest: seq<Byte>, byte1: Byte, body: seq<Byte>)
    requires Header(b, n) + rest <= Packet(byte1, body)
    ensures byte1 == b && |body| == n && rest <= body
  {
    hide EncodeLength, Header, Packet;
    var p, k := Packet(byte1, body), |Header(b, n) + rest|;
    HeaderAndBody(byte1, body);
    assert p == Header(b, n) + (rest + p[k..]);
    OneHeader(b, n, rest + p[k..], byte1, |body|, body);
  }

  /** Bytes that start no fixed header start no packet. */
  lemma NoPacketStarts(read: seq<Byte>)
    requires NoHeader(read) && NoHeaderStarts(read)
    ensures forall byte1: Byte, body: seq<Byte> :: |body| <= LENGTH_MAX ==> !(read <= Packet(byte1, body))
  {
    hide EncodeLength, Header, Packet;
    forall byte1: Byte, body: seq<Byte> | |body| <= LENGTH_MAX ensures !(read <= Packet(byte1, body)) {
      HeaderAndBody(byte1, body);
      TwoStarts(read, Header(byte1, |body|), Packet(byte1, body));
    }
  }

  /** So they are neither an answer nor a message. */
  lemma NothingGoesOn(read: seq<Byte>)
    requires NoHeader(read)
    ensures NoHeaderStarts(read) ==> IsAnswer(read, 0x90, 3) && NoPublishGoesOn(read)
  {
    hide EncodeLength, Header, Packet;
    if NoHeaderStarts(read) {
      NoPacketStarts(read);
    }
  }

  /** Nor are they a PUBACK. */
  lemma NoneComes(awaited: Option<nat>, read: seq<Byte>)
    requires NoHeader(read)
    ensures NoHeaderStarts(read) ==> NoneExpected(awaited, read)
    ensures forall id: nat :: id <= 65535 ==> read != PubackPacket(id)
  {
    hide EncodeLength, Header, Packet, IsExpected, PubackPacket;
    if NoHeaderStarts(read) {
      NoPacketStarts(read);
    }
    NoPacket(read);
    forall id: nat | id <= 65535 ensures read != PubackPacket(id) {
      PubackIs(id);
    }
  }

  /** The start of a packet that is no message is the start of no message's. */
  lemma OtherGoesOn(b: Byte, n: nat, rest: seq<Byte>)
    requires !IsPublish(b)
    ensures NoPublishGoesOn(Header(b, n) + rest)
  {
    hide EncodeLength, Header, IsPublish;
    forall c: Byte, k: nat | Header(b, n) + rest <= Header(c, k) ensures c == b {
      HeaderIs(b, n);
      HeaderIs(c, k);
      assert (Header(b, n) + rest)[0] == b && Header(c, k)[0] == c;
    }
  }

  /** Which PUBACK the start of a packet is, and when it is the start of none of what is expected. */
  lemma WhichPuback(awaited: Option<nat>, b: Byte, n: nat, rest: seq<Byte>)
    requires |rest| <= n <= LENGTH_MAX
    ensures var read := Header(b, n) + rest;
            && (forall id: nat :: id <= 65535 && read == PubackPacket(id) ==> b == 0x40 && n == 2 && |rest| == 2 && Number(rest, 0) == id)
            && (!IsPublish(b) && !(b == 0xD0 && n == 0)
                && (b == 0x40 && n == 2 ==> awaited.None? || (|rest| == 2 && awaited != Some(Number(rest, 0))))
                ==> NoneExpected(awaited, read))
  {
    hide EncodeLength, Header, Packet, IsPublish;
    var read := Header(b, n) + rest;
    forall byte1: Byte, body: seq<Byte> | read <= Packet(byte1, body)
      ensures byte1 == b && |body| == n && rest <= body && (|rest| == n ==> body == rest)
    {
      StartsIs(b, n, rest, byte1, body);
    }
    forall id: nat | id <= 65535 && read == PubackPacket(id)
      ensures b == 0x40 && n == 2 && |rest| == 2 && Number(rest, 0) == id
    {
      PubackIs(id);
      OnePacket(b, n, rest);
      assert rest == [id / 256, id % 256];
    }
  }

  lemma NoneTakenThen(cfg: Config, t: Task, read: seq<Byte>)
    requires t.qos <= 3
    ensures t.qos > 1 || (t.qos == 0 && t.dup) || t.size == 0 ==> NoneTaken(cfg, t, read)
    ensures |read| == t.size && !Takes(cfg, t, read) ==> NoneTaken(cfg, t, read)
    ensures t.size > cfg.room && NoneGoodStarts(t.qos, read, t.size) ==> NoneTaken(cfg, t, read)
  {
    hide IsTopicText;
    HeadOfFields(t);
    assert forall body: seq<Byte> :: |body| == |read| && read <= body ==> body == read;
  }

  lemma HeadOfFields(t: Task)
    requires t.qos <= 3
    ensures var b := HeadOf(t); IsPublish(b) && QosOf(b) == t.qos && DupOf(b) == t.dup && RetainOf(b) == t.retain
    ensures var b := HeadOf(t); b != 0x20 && b != 0x90 && b != 0xD0 && b != 0x40
  {
  }

  lemma MessageDue(cfg: Config, t: Task, phase: P.Phase, c: seq<Event>, sent: seq<Byte>, taken: seq<Byte>)
    requires StateRight(cfg, t, phase, c, sent, taken) && t.state == RecvMsg
    ensures t.sockConnected && IsConnected(cfg, t, c) && t.qos <= 3 && t.size <= LENGTH_MAX
    ensures phase == if t.awaitingSuback then P.Accepted else P.Ready
  {
    hide SentBytes, TakenBytes, Accepted, Subscribed, Granted, Pings;
  }

  lemma NotTaken(cfg: Config, t: Task, read: seq<Byte>)
    requires t.qos <= 3
    ensures t.qos > 1 || (t.qos == 0 && t.dup) || |read| < t.size || read == [] ==> !Takes(cfg, t, read)
  {
    HeadOfFields(t);
  }

  /** m is what the message comes to, if it was read into the buffer. */
  lemma WhichMessage(cfg: Config, t: Task, read: seq<Byte>, m: Option<Message>)
    requires t.qos <= 1 && !(t.qos == 0 && t.dup)
    requires |read| == t.size <= cfg.room ==> m == PublishedMessage(t.qos, t.dup, t.retain, read) || (read == [] && m == None)
    ensures t.size > cfg.room ==> (Takes(cfg, t, read) <==> |read| == t.size && IsGoodEnough(t.qos, read))
    ensures |read| == t.size <= cfg.room ==> (Takes(cfg, t, read) <==> m.Some?)
    ensures Takes(cfg, t, read) ==> Delivery(cfg, In(HeadOf(t), read)) == if t.size > cfg.room then [] else [m.value]
    ensures Takes(cfg, t, read) && t.size <= cfg.room && t.qos == 1 ==> m.value.id == IdOf(read) && 0 < m.value.id <= 65535
  {
    hide IsTopicText;
    HeadOfFields(t);
  }

  /** A message taken is a packet of the connection's. */
  lemma MessageTaken(cfg: Config, t: Task, phase: P.Phase, c: seq<Event>, sent: seq<Byte>, taken: seq<Byte>, read: seq<Byte>)
    requires StateRight(cfg, t, phase, c, sent, taken) && t.state == RecvMsg && Takes(cfg, t, read)
    ensures var e := In(HeadOf(t), read);
            && Allowed(cfg, c, e) && (forall n: nat :: Marks(n, e) == [])
            && IsConnected(cfg, t, c + [e])
            && Unacknowledged(c + [e]) == (if t.qos == 1 then Some(IdOf(read)) else None)
            && (t.qos != 1 ==> StateRight(cfg, t.(state := if t.awaitingSuback then RecvSuback else RecvReady), phase, c + [e], sent, taken + read))
  {
    hide SentBytes, TakenBytes, Accepted, Subscribed, Granted, Pings, Packet, EncodeLength, Header, IsPublish, QosOf, DupOf, RetainOf, IdOf;
    var b := HeadOf(t);
    HeadOfFields(t);
    Grows(cfg, c, In(b, read));
    HeaderAndBody(b, read);
    Assoc(TakenBytes(c), Header(b, t.size), read);
  }

  /** And then acknowledged, at QoS 1. */
  lemma PubackSent(cfg: Config, t: Task, phase: P.Phase, c: seq<Event>, sent: seq<Byte>, taken: seq<Byte>, read: seq<Byte>, ok: bool)
    requires StateRight(cfg, t, phase, c, sent, taken) && t.state == RecvMsg && Takes(cfg, t, read) && t.qos == 1 && IdOf(read) <= 65535
    ensures var id := IdOf(read);
            var c1, e := c + [In(HeadOf(t), read)], Out(0x40, [id / 256, id % 256], ok);
            && Allowed(cfg, c1, e) && Delivery(cfg, e) == [] && (forall n: nat :: Marks(n, e) == [])
            && IsConnected(cfg, t, c1 + [e]) && PubackPacket(id) == [0x40, 2, id / 256, id % 256] == Packet(0x40, [id / 256, id % 256])
            && StateRight(cfg, t.(state := if t.awaitingSuback then RecvSuback else RecvReady), phase, c1 + [e], sent + PubackPacket(id), taken + read)
  {
    hide StateRight, IsConnected, SentBytes, TakenBytes, Accepted, Subscribed, Granted, Pings, Header, Packet, IsPublish, QosOf, DupOf, RetainOf, IdOf, IsGoodPublish, Takes, HeadOf;
    var id := IdOf(read);
    HeadOfFields(t);
    var e := Out(0x40, [id / 256, id % 256], ok);
    Grows(cfg, c, In(HeadOf(t), read));
    assert Number([id / 256, id % 256], 0) == id;
    PubackIs(id);
    PubackLeaves(cfg, t, phase, c, sent, taken, read, e);
  }

  lemma PubackIs(id: nat)
    requires id <= 65535
    ensures PubackPacket(id) == [0x40, 2, id / 256, id % 256] == Packet(0x40, [id / 256, id % 256])
  {
  }

  /** The connection is as it was before both. */
  lemma PubackLeaves(cfg: Config, t: Task, phase: P.Phase, c: seq<Event>, sent: seq<Byte>, taken: seq<Byte>, read: seq<Byte>, e: Event)
    requires StateRight(cfg, t, phase, c, sent, taken) && t.state == RecvMsg && Takes(cfg, t, read) && e.Out? && e.byte1 == 0x40
    ensures var c2 := c + [In(HeadOf(t), read)] + [e];
            && IsConnected(cfg, t, c2)
            && StateRight(cfg, t.(state := if t.awaitingSuback then RecvSuback else RecvReady), phase, c2, sent + Packet(e.byte1, e.body), taken + read)
  {
    hide SentBytes, TakenBytes, Accepted, Subscribed, Granted, Pings, Header, Packet, IsPublish, QosOf, DupOf, RetainOf, IdOf, IsGoodPublish, HeadOf, Allowed, Legal;
    var b := HeadOf(t);
    HeadOfFields(t);
    Grows(cfg, c, In(b, read));
    Grows(cfg, c + [In(b, read)], e);
    HeaderAndBody(b, read);
    Assoc(TakenBytes(c), Header(b, t.size), read);
  }

  lemma NotReading(cfg: Config, t: Task, phase: P.Phase, c: seq<Event>, sent: seq<Byte>, taken: seq<Byte>)
    requires StateRight(cfg, t, phase, c, sent, taken)
    ensures phase != P.Ended && phase != P.ReadingPuback
  {
  }

  lemma EndsSomewhere(cfg: Config, t: Task, phase: P.Phase, c: seq<Event>, sent: seq<Byte>, taken: seq<Byte>)
    requires StateRight(cfg, t, phase, c, sent, taken) && IsEnd(t.state)
    ensures phase != P.Ended && phase != P.ReadingPuback && (t.mqttConnected <==> t.sockConnected && Accepted(cfg, c))
  {
  }

  lemma DisconnectSent(cfg: Config, c: seq<Event>, ok: bool)
    requires Accepted(cfg, c)
    ensures var e := Out(0xE0, [], ok); Allowed(cfg, c, e) && Delivery(cfg, e) == [] && (forall n: nat :: Marks(n, e) == [])
  {
  }

  /** A connection that has just been opened. */
  lemma NothingYet(cfg: Config)
    ensures SentBytes([]) == [] && TakenBytes([]) == [] && !Accepted(cfg, []) && !Subscribed([]) && !Granted(cfg, []) && Pings([]) == 0
  {
  }
}
