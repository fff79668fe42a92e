/** Every interleaving of the MQTT task and any number of callers of kii_mqtt_publish(). Each step is
    one section that holds the lock, or something the task does between two. */
module MqttPublish {
  import opened MqttPackets
  import opened MqttSlot
  import opened Options
  import opened Utf8

  /** Where the task is, as far as the slot goes: with no connection, with one the broker hasn't
      accepted, one it has, one it granted the subscription on, reading a PUBACK's identifier there,
      sending a message there, with one it gave up on, or ended. */
  datatype Phase = Off | Open | Accepted | Ready | ReadingPuback | Publishing | Broken | Ended

  datatype CallerPhase = Giving | Waiting | Returned(code: KiiCode)

  /** A call of kii_mqtt_publish(). Its message gets a serial number as the task is given it. */
  datatype Caller = Caller(request: Request, phase: CallerPhase, serial: nat)

  /** What went over the network: a PUBLISH, whole or in part, and a PUBACK, each on a connection. */
  datatype Event = Publish(conn: nat, serial: nat, m: Message, whole: bool) | Puback(conn: nat, id: nat)

  /** serial is that of the message in the slot, givers the calls whose messages the task was given, by
      their serial numbers, stuck whether the task ended while the slot was SENDING, and ids the
      identifiers given to messages at QoS 1. */
  datatype System = System(slot: Slot, serial: nat, givers: seq<nat>, phase: Phase, conn: nat, stuck: bool,
                           callers: map<nat, Caller>, log: seq<Event>, ids: seq<nat>)

  datatype Step =
    | Call(c: nat, r: Request) | Refused(c: nat) | GiveMessage(c: nat) | GiveTimeout(c: nat) | Collect(c: nat, timedOut: bool)
    | Start | Dial | HangUp | Accept | Grant | TakeMessage | EndSending(ok: bool) | PubackComes | PubackRead(id: nat)
    | Lose | Stop

  predicate Enabled(s: System, t: Step) {
    match t
    case Call(c, r) => c !in s.callers && IsRequest(r)
    case Refused(c) => c in s.callers && s.callers[c].phase == Giving && !s.slot.open
    case GiveMessage(c) => c in s.callers && s.callers[c].phase == Giving && CanGive(s.slot)
    case GiveTimeout(c) => c in s.callers && s.callers[c].phase == Giving && s.slot.open && !CanGive(s.slot)
    case Collect(c, timedOut) => c in s.callers && s.callers[c].phase == Waiting && Answer(s.slot, timedOut).Some?
    case Start => s.phase == Ended
    case Dial => s.phase == Off
    // RECONNECT, or a CONNACK that refuses the credentials.
    case HangUp => s.phase == Broken || s.phase == Open
    case Accept => s.phase == Open
    case Grant => s.phase == Accepted
    case TakeMessage => s.phase == Ready && CanTake(s.slot)
    case EndSending(ok) => s.phase == Publishing
    case PubackComes => s.phase == Ready && AwaitsPuback(s.slot)
    case PubackRead(id) => s.phase == ReadingPuback
    case Lose => s.phase == Open || s.phase == Accepted || s.phase == Ready || s.phase == ReadingPuback
    // The continue callback is asked between two states, so not while a PUBACK is read.
    case Stop => s.phase != Ended && s.phase != ReadingPuback
  }

  function Set(s: System, c: nat, phase: CallerPhase): System
    requires c in s.callers
  {
    s.(callers := s.callers[c := s.callers[c].(phase := phase)])
  }

  function After(s: System, t: Step): System
    requires Enabled(s, t)
  {
    match t
    case Call(c, r) => s.(callers := s.callers[c := Caller(r, Giving, 0)])
    case Refused(c) => Set(s, c, Returned(KiiFail))
    case GiveMessage(c) =>
      var r := s.callers[c].request;
      s.(slot := Give(s.slot, r), serial := |s.givers|, givers := s.givers + [c],
         callers := s.callers[c := Caller(r, Waiting, |s.givers|)],
         ids := if r.qos == Qos1 then s.ids + [NextId(s.slot.lastId)] else s.ids)
    case GiveTimeout(c) => Set(s, c, Returned(KiiTimeout))
    case Collect(c, timedOut) => Set(s, c, Returned(Answer(s.slot, timedOut).value)).(slot := Leave(s.slot, timedOut))
    case Start => s.(phase := Off, slot := s.slot.(open := true))
    case Dial => s.(phase := Open, conn := s.conn + 1)
    case HangUp => s.(phase := Off)
    case Accept => s.(phase := Accepted, slot := Reconnected(s.slot))
    case Grant => s.(phase := Ready)
    case TakeMessage => s.(phase := Publishing, slot := Take(s.slot))
    case EndSending(ok) =>
      s.(phase := if ok then Ready else Broken, slot := SendEnded(s.slot, ok),
         log := s.log + [Publish(s.conn, s.serial, Outgoing(s.slot.msg), ok)])
    case PubackComes => s.(phase := ReadingPuback)
    case PubackRead(id) =>
      s.(phase := if IsAck(s.slot, id) then Ready else Broken, slot := Acked(s.slot, id),
         log := s.log + [Puback(s.conn, id)])
    case Lose => s.(phase := Broken)
    case Stop => s.(phase := Ended, stuck := s.stuck || s.slot.state == Sending, slot := Closed(s.slot))
  }

  const INITIAL: System := System(EMPTY, 0, [], Ended, 0, false, map[], [], [])

  /** What steps lead to, from the start. Steps that can't be made then are left out. */
  function Run(steps: seq<Step>): System {
    if steps == [] then INITIAL
    else
      Next(Run(steps[..|steps| - 1]), steps[|steps| - 1])
  }

  function Next(s: System, t: Step): System {
    if Enabled(s, t) then After(s, t) else s
  }

  // ---------- What every run keeps ----------

  /** The slot has a caller waiting for its message. */
  predicate IsOwned(state: PubState) {
    state == Queued || state == Sending || state == AwaitingPuback || state == Done
  }

  /** In the states with an owner there is exactly one caller waiting, whose message it is, and in the
      others there is none, and no memory of a caller's is pointed at. */
  ghost predicate Owned(s: System) {
    && (forall c :: c in s.callers && s.callers[c].phase == Waiting ==>
          IsOwned(s.slot.state) && s.callers[c].serial == s.serial && s.slot.msg.data == Some(s.callers[c].request)
          && s.slot.msg.qos == s.callers[c].request.qos && s.slot.msg.retain == s.callers[c].request.retain)
    && (forall c, d :: c in s.callers && d in s.callers && s.callers[c].phase == Waiting && s.callers[d].phase == Waiting ==> c == d)
    && (IsOwned(s.slot.state) ==> HasOwner(s))
    && (!IsOwned(s.slot.state) ==> s.slot.msg.data == None)
  }

  ghost predicate HasOwner(s: System) {
    exists c :: c in s.callers && s.callers[c].phase == Waiting
  }

  /** The task sends only what the slot has as SENDING, which only a stop then leaves so. */
  predicate SendingRight(s: System) {
    && (s.slot.state == Sending <==> s.phase == Publishing || s.stuck)
    && (s.phase == Publishing ==> !s.stuck)
    && (AwaitsPuback(s.slot) ==> s.slot.msg.qos == Qos1)
    && (s.phase == ReadingPuback ==> AwaitsPuback(s.slot))
    && (s.phase == Ended ==> !s.slot.open)
    && (s.phase == Ended ==> s.slot.state != Queued && !AwaitsPuback(s.slot))
    && (s.slot.state == Queued ==> s.phase != Ended)
    && (s.slot.lastId == 0 || 2 <= s.slot.lastId <= 65535)
    && (s.slot.state != Free && s.slot.msg.qos == Qos1 ==> 2 <= s.slot.msg.packetId <= 65535)
    && (IsOwned(s.slot.state) && s.slot.msg.qos == Qos0 ==> s.slot.msg.packetId == 0 && !s.slot.msg.dup)
  }

  /** A message was sent whole on a connection. */
  ghost predicate SentWhole(log: seq<Event>, conn: nat, serial: nat, id: nat) {
    exists i: nat :: i < |log| && log[i].Publish? && log[i].conn == conn && log[i].serial == serial && log[i].m.id == id && log[i].whole
  }

  /** A message was sent whole, and then its identifier acknowledged, both on one connection. */
  ghost predicate Acknowledged(log: seq<Event>, serial: nat) {
    exists i: nat, j: nat :: AckedAt(log, serial, i, j)
  }

  /** What KII_ERR_OK says of a message: at QoS 0, that it was sent whole. */
  ghost predicate Delivered(log: seq<Event>, serial: nat, qos: Qos) {
    if qos == Qos1 then Acknowledged(log, serial)
    else exists i: nat :: i < |log| && log[i].Publish? && log[i].serial == serial && log[i].whole
  }

  predicate AckedAt(log: seq<Event>, serial: nat, i: nat, j: nat) {
    && i < j < |log|
    && log[i].Publish? && log[i].serial == serial && log[i].whole && log[i].m.id >= 2
    && log[j] == Puback(log[i].conn, log[i].m.id)
  }

  /** What has been sent of a message so far fits what the slot says of it. */
  ghost predicate LogRight(s: System) {
    && (forall i :: 0 <= i < |s.log| && s.log[i].Publish? && s.log[i].serial == s.serial && s.slot.state != Free ==>
          s.log[i].m.id == s.slot.msg.packetId)
    && (s.slot.state == Queued || s.slot.state == Sending ==> (s.slot.msg.dup <==> WasSent(s.log, s.serial)))
    && (AwaitsPuback(s.slot) ==> WasSent(s.log, s.serial))
    && (AwaitsPuback(s.slot) && (s.phase == Accepted || s.phase == Ready || s.phase == ReadingPuback || s.phase == Publishing) ==>
          SentWhole(s.log, s.conn, s.serial, s.slot.msg.packetId))
    && (s.slot.state == Done && s.slot.result == KiiOk ==> Delivered(s.log, s.serial, s.slot.msg.qos))
    && ResendsRight(s.log)
  }

  ghost predicate WasSent(log: seq<Event>, serial: nat) {
    exists i :: 0 <= i < |log| && log[i].Publish? && log[i].serial == serial
  }

  /** Of two sendings of one message, the later has DUP, and the same packet identifier; the first has no DUP. */
  ghost predicate ResendsRight(log: seq<Event>) {
    && (forall i, j :: 0 <= i < j < |log| && log[i].Publish? && log[j].Publish? && log[i].serial == log[j].serial ==>
          log[j].m.dup && log[j].m.id == log[i].m.id)
    && (forall j :: 0 <= j < |log| && log[j].Publish? && log[j].m.dup ==> WasSent(log[..j], log[j].serial))
  }

  /** Each message is one call's, whose request every sending of it carries. */
  ghost predicate SentRight(s: System) {
    && (s.slot.state != Free ==> s.serial < |s.givers|)
    && (forall n :: 0 <= n < |s.givers| ==> IsGiver(s, n))
    && (forall c :: c in s.callers && HasGiven(s.callers[c].phase) ==> IsMessageOf(s, s.callers[c].serial, c))
    && (forall i :: 0 <= i < |s.log| && s.log[i].Publish? ==> IsCarried(s, s.log[i].serial, s.log[i].m))
  }

  /** The call's message has certainly been given. */
  predicate HasGiven(phase: CallerPhase) {
    phase == Waiting || phase == Returned(KiiOk)
  }

  predicate IsMessageOf(s: System, n: nat, c: nat) {
    n < |s.givers| && s.givers[n] == c
  }

  predicate IsGiver(s: System, n: nat)
    requires n < |s.givers|
  {
    var c := s.givers[n];
    c in s.callers && s.callers[c].serial == n && s.callers[c].phase != Giving
  }

  predicate IsCarried(s: System, n: nat, m: Message) {
    n < |s.givers| && s.givers[n] in s.callers && Carries(m, s.callers[s.givers[n]].request)
  }

  /** What calls that returned were told is true. */
  ghost predicate AnswersRight(s: System) {
    forall c :: c in s.callers && s.callers[c].phase == Returned(KiiOk) ==>
      Delivered(s.log, s.callers[c].serial, s.callers[c].request.qos)
  }

  /** Messages at QoS 1 have the identifiers from 2 up to 65535 in turn. */
  ghost predicate IdsRight(s: System) {
    && (forall i :: 0 <= i < |s.ids| ==> 2 <= s.ids[i] == IdAt(i) <= 65535)
    && (forall i :: 0 < i < |s.ids| ==> s.ids[i] != s.ids[i - 1])
    && s.slot.lastId == if s.ids == [] then 0 else s.ids[|s.ids| - 1]
  }

  function IdAt(i: nat): nat {
    2 + i % 65534
  }

  lemma NextIdAt(i: nat)
    ensures NextId(IdAt(i)) == IdAt(i + 1)
  {
  }

  /** kii_mqtt_publish() refuses the others. */
  ghost predicate RequestsFit(s: System) {
    forall c :: c in s.callers ==> IsRequest(s.callers[c].request)
  }

  ghost predicate Inv(s: System) {
    Owned(s) && SendingRight(s) && LogRight(s) && SentRight(s) && AnswersRight(s) && IdsRight(s) && RequestsFit(s)
  }

  // ---------- Each step keeps it ----------

  predicate IsCallers(t: Step) {
    t.Call? || t.Refused? || t.GiveMessage? || t.GiveTimeout? || t.Collect?
  }

  lemma OwnedKept(s: System, t: Step)
    requires Inv(s) && Enabled(s, t)
    ensures Owned(After(s, t))
  {
    hide Owned, LogRight, SentRight, AnswersRight, IdsRight, SendingRight, RequestsFit;
    if IsCallers(t) {
      OwnedByCallers(s, t);
    } else {
      OwnedByTask(s, t);
    }
  }

  /** The task's steps leave the callers as they are, and the slot owned if it was. */
  lemma OwnedByTask(s: System, t: Step)
    requires Owned(s) && SendingRight(s) && Enabled(s, t) && !IsCallers(t)
    ensures Owned(After(s, t))
  {
    hide IsTopic;
    var s' := After(s, t);
    assert s'.callers == s.callers && s'.serial == s.serial;
    assert s'.slot.msg.data == s.slot.msg.data && s'.slot.msg.qos == s.slot.msg.qos && s'.slot.msg.retain == s.slot.msg.retain;
    assert IsOwned(s'.slot.state) <==> IsOwned(s.slot.state);
    assert HasOwner(s) <==> HasOwner(s');
  }

  lemma OwnedByCallers(s: System, t: Step)
    requires Owned(s) && Enabled(s, t) && IsCallers(t)
    ensures Owned(After(s, t))
  {
    hide IsRequest;
    var s' := After(s, t);
    if t.GiveMessage? {
      GivesOwner(s, t);
    } else if t.Collect? {
      assert forall d :: d in s'.callers ==> s'.callers[d].phase != Waiting;
    } else {
      LeavesOwner(s, t);
    }
  }

  lemma LeavesOwner(s: System, t: Step)
    requires Owned(s) && Enabled(s, t) && (t.Call? || t.Refused? || t.GiveTimeout?)
    ensures Owned(After(s, t))
  {
    hide IsOwned, IsRequest;
    var s' := After(s, t);
    assert s'.slot == s.slot && s'.serial == s.serial;
    assert forall d :: d in s.callers && s.callers[d].phase == Waiting ==> d in s'.callers && s'.callers[d] == s.callers[d];
    assert forall d :: d in s'.callers && s'.callers[d].phase == Waiting ==> d in s.callers && s'.callers[d] == s.callers[d];
    assert HasOwner(s) ==> HasOwner(s');
  }

  lemma GivesOwner(s: System, t: Step)
    requires Owned(s) && Enabled(s, t) && t.GiveMessage?
    ensures Owned(After(s, t))
  {
    var s' := After(s, t);
    assert forall d :: d in s.callers ==> s.callers[d].phase != Waiting;
    assert forall d :: d in s'.callers && d != t.c ==> d in s.callers && s'.callers[d] == s.callers[d];
    assert t.c in s'.callers && s'.callers[t.c].phase == Waiting;
  }

  lemma SendingRightKept(s: System, t: Step)
    requires Inv(s) && Enabled(s, t)
    ensures SendingRight(After(s, t))
  {
    hide LogRight, SentRight, AnswersRight, IsRequest;
  }

  lemma IdsRightKept(s: System, t: Step)
    requires Inv(s) && Enabled(s, t)
    ensures IdsRight(After(s, t))
  {
    hide LogRight, SentRight, AnswersRight, Owned, IsRequest, IdAt;
    if s.ids != [] {
      NextIdAt(|s.ids| - 1);
    }
    assert IdAt(0) == 2 by { FirstId(); }
  }

  lemma FirstId()
    ensures IdAt(0) == 2
  {
  }

  lemma DeliveredGrows(log: seq<Event>, e: Event, serial: nat, qos: Qos)
    requires Delivered(log, serial, qos)
    ensures Delivered(log + [e], serial, qos)
  {
    if qos == Qos1 {
      var i: nat, j: nat :| AckedAt(log, serial, i, j);
      assert AckedAt(log + [e], serial, i, j);
    } else {
      var i: nat :| i < |log| && log[i].Publish? && log[i].serial == serial && log[i].whole;
      assert (log + [e])[i] == log[i];
    }
  }

  lemma SentWholeGrows(log: seq<Event>, e: Event, conn: nat, serial: nat, id: nat)
    requires SentWhole(log, conn, serial, id)
    ensures SentWhole(log + [e], conn, serial, id)
  {
    var i: nat :| i < |log| && log[i].Publish? && log[i].conn == conn && log[i].serial == serial && log[i].m.id == id && log[i].whole;
    assert (log + [e])[i] == log[i];
  }

  lemma AckCompletes(log: seq<Event>, conn: nat, serial: nat, id: nat)
    requires SentWhole(log, conn, serial, id) && id >= 2
    ensures Acknowledged(log + [Puback(conn, id)], serial)
  {
    var i: nat :| i < |log| && log[i].Publish? && log[i].conn == conn && log[i].serial == serial && log[i].m.id == id && log[i].whole;
    assert AckedAt(log + [Puback(conn, id)], serial, i, |log|);
  }

  /** Sending a message whole is logged as such. */
  lemma SendLogged(s: System, ok: bool)
    requires Inv(s) && s.phase == Publishing
    ensures LogRight(After(s, EndSending(ok)))
  {
    hide Owned, SentRight, AnswersRight, IdsRight, RequestsFit, ResendsRight, WasSent;
    ResendAdded(s);
    var s' := After(s, EndSending(ok));
    var e := Publish(s.conn, s.serial, Outgoing(s.slot.msg), ok);
    assert s'.log == s.log + [e] && s'.log[|s.log|] == e;
    if ok && s.slot.msg.qos == Qos1 {
      assert SentWhole(s'.log, s.conn, s.serial, s.slot.msg.packetId);
    }
  }

  lemma ResendAdded(s: System)
    requires LogRight(s) && s.slot.state == Sending
    ensures forall conn: nat, ok: bool :: var log := s.log + [Publish(conn, s.serial, Outgoing(s.slot.msg), ok)];
              ResendsRight(log) && WasSent(log, s.serial)
  {
    hide SentWhole, Delivered;
    forall conn: nat, ok: bool
      ensures var log := s.log + [Publish(conn, s.serial, Outgoing(s.slot.msg), ok)]; ResendsRight(log) && WasSent(log, s.serial)
    {
      var log := s.log + [Publish(conn, s.serial, Outgoing(s.slot.msg), ok)];
      assert log[|s.log|].Publish? && log[..|s.log|] == s.log;
      assert forall j :: 0 <= j < |s.log| ==> log[..j] == s.log[..j];
    }
  }

  lemma PubackAdded(log: seq<Event>, e: Event)
    requires ResendsRight(log) && e.Puback?
    ensures ResendsRight(log + [e]) && forall serial: nat :: WasSent(log + [e], serial) <==> WasSent(log, serial)
  {
    var more := log + [e];
    assert more[|log|] == e && forall j :: 0 <= j < |log| ==> more[j] == log[j] && more[..j] == log[..j];
  }

  lemma PubackLogged(s: System, id: nat)
    requires Inv(s) && s.phase == ReadingPuback
    ensures LogRight(After(s, PubackRead(id)))
  {
    hide Owned, SentRight, AnswersRight, IdsRight, RequestsFit, ResendsRight, WasSent;
    var s' := After(s, PubackRead(id));
    assert s'.log == s.log + [Puback(s.conn, id)];
    PubackAdded(s.log, Puback(s.conn, id));
    if IsAck(s.slot, id) {
      AckCompletes(s.log, s.conn, s.serial, id);
    } else {
      SentWholeGrows(s.log, Puback(s.conn, id), s.conn, s.serial, s.slot.msg.packetId);
    }
  }

  lemma LogRightKept(s: System, t: Step)
    requires Inv(s) && Enabled(s, t)
    ensures LogRight(After(s, t))
  {
    hide Owned, AnswersRight, IdsRight, RequestsFit, IsRequest, ResendsRight, WasSent, Delivered, SentWhole;
    if t.EndSending? {
      SendLogged(s, t.ok);
    } else if t.PubackRead? {
      PubackLogged(s, t.id);
    } else if t.GiveMessage? {
      NotGivenYet(s);
    }
  }

  lemma NotGivenYet(s: System)
    requires SentRight(s)
    ensures !WasSent(s.log, |s.givers|)
  {
  }

  lemma SentRightKept(s: System, t: Step)
    requires Inv(s) && Enabled(s, t)
    ensures SentRight(After(s, t))
  {
    hide LogRight, AnswersRight, IdsRight, RequestsFit, IsRequest, SendingRight, Carries, Owned;
    if IsCallers(t) {
      hide SentRight;
      SentByCallers(s, t);
    } else if t.EndSending? {
      SendCarries(s);
      SentByTask(s, t, [Publish(s.conn, s.serial, Outgoing(s.slot.msg), t.ok)]);
    } else {
      SentByTask(s, t, if t.PubackRead? then [Puback(s.conn, t.id)] else []);
    }
  }

  lemma SentByTask(s: System, t: Step, more: seq<Event>)
    requires SentRight(s) && SendingRight(s) && Enabled(s, t) && !IsCallers(t) && After(s, t).log == s.log + more
    requires forall i :: 0 <= i < |more| && more[i].Publish? ==> IsCarried(s, more[i].serial, more[i].m)
    ensures SentRight(After(s, t))
  {
    hide Carries, IsRequest, AwaitsPuback;
    var s' := After(s, t);
    assert s'.callers == s.callers && s'.givers == s.givers && s'.serial == s.serial;
    assert s'.slot.state != Free ==> s.slot.state != Free;
    assert forall n, m: Message :: IsCarried(s, n, m) ==> IsCarried(s', n, m);
    forall n | 0 <= n < |s.givers| ensures IsGiver(s', n) {
      assert IsGiver(s, n);
    }
  }

  lemma SentByCallers(s: System, t: Step)
    requires SentRight(s) && Enabled(s, t) && IsCallers(t)
    ensures SentRight(After(s, t))
  {
    hide Carries, IsRequest;
    var s' := After(s, t);
    assert |s.givers| <= |s'.givers| && forall n :: 0 <= n < |s.givers| ==> s'.givers[n] == s.givers[n];
    forall n | 0 <= n < |s.givers| ensures IsGiver(s', n) {
      assert IsGiver(s, n);
    }
    forall i | 0 <= i < |s.log| && s.log[i].Publish? ensures IsCarried(s', s.log[i].serial, s.log[i].m) {
      assert IsCarried(s, s.log[i].serial, s.log[i].m);
      assert IsGiver(s, s.log[i].serial);
    }
    forall c | c in s'.callers && HasGiven(s'.callers[c].phase) ensures IsMessageOf(s', s'.callers[c].serial, c) {
      if c in s.callers && HasGiven(s.callers[c].phase) {
        assert IsMessageOf(s, s.callers[c].serial, c);
      }
    }
  }

  /** What is sent is its owner's request. */
  lemma SendCarries(s: System)
    requires Inv(s) && s.phase == Publishing
    ensures IsCarried(s, s.serial, Outgoing(s.slot.msg))
  {
    hide LogRight, AnswersRight, IdsRight, RequestsFit;
    var c :| c in s.callers && s.callers[c].phase == Waiting;
    assert IsMessageOf(s, s.callers[c].serial, c);
  }

  lemma AnswersRightKept(s: System, t: Step)
    requires Inv(s) && Enabled(s, t)
    ensures AnswersRight(After(s, t))
  {
    hide IdsRight, ResendsRight, WasSent, SentWhole, Delivered, SentRight, IsRequest;
    var s' := After(s, t);
    forall c | c in s'.callers && s'.callers[c].phase == Returned(KiiOk)
      ensures Delivered(s'.log, s'.callers[c].serial, s'.callers[c].request.qos)
    {
      if t.EndSending? || t.PubackRead? {
        DeliveredGrows(s.log, s'.log[|s.log|], s'.callers[c].serial, s'.callers[c].request.qos);
        assert s'.log == s.log + [s'.log[|s.log|]];
      }
    }
  }

  lemma RequestsFitKept(s: System, t: Step)
    requires Inv(s) && Enabled(s, t)
    ensures RequestsFit(After(s, t))
  {
    hide LogRight, SentRight, AnswersRight, IdsRight, Owned, SendingRight, IsRequest;
    var s' := After(s, t);
    assert forall c :: c in s'.callers ==> (t.Call? && s'.callers[c].request == t.r) || (c in s.callers && s'.callers[c].request == s.callers[c].request);
  }

  lemma StepKeeps(s: System, t: Step)
    requires Inv(s) && Enabled(s, t)
    ensures Inv(After(s, t))
  {
    hide LogRight, SentRight, AnswersRight, IdsRight, Owned, SendingRight, RequestsFit, Enabled, After;
    OwnedKept(s, t);
    SendingRightKept(s, t);
    LogRightKept(s, t);
    SentRightKept(s, t);
    AnswersRightKept(s, t);
    IdsRightKept(s, t);
    RequestsFitKept(s, t);
  }

  /** Over every run. */
  lemma {:induction false} RunKeeps(steps: seq<Step>)
    ensures Inv(Run(steps))
  {
    if steps == [] {
      StartsRight();
    } else {
      hide Inv, After, Enabled;
      var s, t := Run(steps[..|steps| - 1]), steps[|steps| - 1];
      RunKeeps(steps[..|steps| - 1]);
      if Enabled(s, t) {
        StepKeeps(s, t);
      }
    }
  }

  lemma StartsRight()
    ensures Inv(INITIAL)
  {
  }

  /** One more step of a run. */
  lemma RunOn(steps: seq<Step>, t: Step)
    ensures Run(steps + [t]) == Next(Run(steps), t)
  {
    hide Next;
    assert (steps + [t])[..|steps|] == steps;
  }

  // ---------- What follows ----------

  /** A call that returns KII_ERR_OK had its message sent whole, and at QoS 1 then acknowledged with its
      own packet identifier, on the same connection. It is the one call with that serial number, and
      whatever was sent under it carries the call's own topic and payload. */
  lemma OkMeansDelivered(steps: seq<Step>, c: nat)
    requires c in Run(steps).callers && Run(steps).callers[c].phase == Returned(KiiOk)
    ensures Delivered(Run(steps).log, Run(steps).callers[c].serial, Run(steps).callers[c].request.qos)
    ensures var s := Run(steps); forall d :: d in s.callers && HasGiven(s.callers[d].phase) && s.callers[d].serial == s.callers[c].serial ==> d == c
    ensures SentAs(Run(steps).log, Run(steps).callers[c].serial, Run(steps).callers[c].request)
  {
    hide Run, Delivered, LogRight, Owned, SendingRight, IdsRight, RequestsFit, Carries;
    RunKeeps(steps);
    var s := Run(steps);
    assert IsMessageOf(s, s.callers[c].serial, c);
  }

  /** Every sending of a message is of what was to be published. */
  ghost predicate SentAs(log: seq<Event>, serial: nat, r: Request) {
    forall i :: 0 <= i < |log| && log[i].Publish? && log[i].serial == serial ==> Carries(log[i].m, r)
  }

  /** Every sending of a message after its first, which has no DUP, is of that very message with DUP, its packet
      identifier included, and those of consecutive messages at QoS 1 differ. */
  lemma ResendsAndIds(steps: seq<Step>)
    ensures var log := Run(steps).log;
            forall i, j :: 0 <= i < j < |log| && log[i].Publish? && log[j].Publish? && log[i].serial == log[j].serial ==>
              log[j].m == log[i].m.(dup := true)
    ensures var log := Run(steps).log;
            forall j :: 0 <= j < |log| && log[j].Publish? ==> (log[j].m.dup <==> WasSent(log[..j], log[j].serial))
    ensures IdsRight(Run(steps))
  {
    hide Run, Owned, SendingRight, IdsRight, RequestsFit, AnswersRight, Delivered, SentWhole;
    RunKeeps(steps);
    var s := Run(steps);
    forall i, j | 0 <= i < j < |s.log| && s.log[i].Publish? && s.log[j].Publish? && s.log[i].serial == s.log[j].serial
      ensures s.log[j].m == s.log[i].m.(dup := true)
    {
      assert IsCarried(s, s.log[i].serial, s.log[i].m) && IsCarried(s, s.log[j].serial, s.log[j].m);
    }
  }

  /** Each state with an owner has exactly one, the others none, and what a caller collects is the
      result of its own message. */
  lemma OneOwner(steps: seq<Step>)
    ensures var s := Run(steps);
            && (IsOwned(s.slot.state) <==> HasOwner(s))
            && (forall c, d :: c in s.callers && d in s.callers && s.callers[c].phase == Waiting && s.callers[d].phase == Waiting ==> c == d)
            && (forall c :: c in s.callers && s.callers[c].phase == Waiting ==>
                  s.callers[c].serial == s.serial && s.slot.msg.data == Some(s.callers[c].request))
  {
    hide Run;
    RunKeeps(steps);
  }

  /** While the task reads a message's topic and payload, they are there, and their owner waits, even
      once its timeout has run out. */
  lemma OwnerWaitsWhileSent(steps: seq<Step>, timedOut: bool)
    requires Run(steps).phase == Publishing
    ensures var s := Run(steps);
            && s.slot.state == Sending && s.slot.msg.data.Some?
            && (exists c :: c in s.callers && s.callers[c].phase == Waiting && s.slot.msg.data.value == s.callers[c].request)
            && (forall c :: !Enabled(s, Collect(c, timedOut)))
  {
    hide Run, SentRight, LogRight, IsRequest;
    RunKeeps(steps);
    var s := Run(steps);
    var c :| c in s.callers && s.callers[c].phase == Waiting;
    assert s.slot.msg.data.value == s.callers[c].request;
  }

  // ---------- A stop while sending ----------

  /** The task was stopped after it took a message and before it had sent it. */
  ghost predicate StoppedSending(steps: seq<Step>) {
    exists n :: 0 <= n < |steps| && StopsSending(steps, n)
  }

  predicate StopsSending(steps: seq<Step>, n: nat)
    requires n < |steps|
  {
    steps[n] == Stop && Run(steps[..n]).phase == Publishing
  }

  /** Such a stop is what leaves the slot SENDING, and nothing else. */
  lemma {:induction false} StuckOnlyBy(steps: seq<Step>)
    ensures Run(steps).stuck <==> StoppedSending(steps)
  {
    if steps != [] {
      hide Run, Inv, StoppedSending, Next;
      var before, t := steps[..|steps| - 1], steps[|steps| - 1];
      StuckOnlyBy(before);
      RunKeeps(before);
      RunOn(before, t);
      StuckStep(Run(before), t);
      StopsGrow(before, t);
      assert before + [t] == steps;
    }
  }

  lemma StuckStep(s: System, t: Step)
    requires Inv(s)
    ensures Next(s, t).stuck <==> s.stuck || (t == Stop && s.phase == Publishing)
  {
    hide LogRight, SentRight, AnswersRight, IdsRight, RequestsFit, IsRequest, Owned;
  }

  lemma StopsGrow(steps: seq<Step>, t: Step)
    ensures StoppedSending(steps + [t]) <==> StoppedSending(steps) || (t == Stop && Run(steps).phase == Publishing)
  {
    hide Run;
    var more := steps + [t];
    assert more[..|steps|] == steps && forall n :: 0 <= n < |steps| ==> more[..n] == steps[..n];
    if StoppedSending(steps) {
      var n :| 0 <= n < |steps| && StopsSending(steps, n);
      assert StopsSending(more, n);
    } else if t == Stop && Run(steps).phase == Publishing {
      assert StopsSending(more, |steps|);
    }
    if StoppedSending(more) {
      var n :| 0 <= n < |more| && StopsSending(more, n);
      assert n < |steps| ==> StopsSending(steps, n);
    }
  }

  /** Once the task has ended, the slot is free, or has a result for its caller, or is still SENDING,
      which it is exactly if the task was stopped between taking a message and sending it. */
  lemma EndsClean(steps: seq<Step>)
    requires Run(steps).phase == Ended
    ensures var s := Run(steps);
            && !s.slot.open
            && (s.slot.state == Free || s.slot.state == Done || s.slot.state == Sending)
            && (s.slot.state == Sending <==> StoppedSending(steps))
  {
    hide Run, StoppedSending;
    RunKeeps(steps);
    StuckOnlyBy(steps);
  }

  /** From then on the slot is never freed, whatever steps follow, the task started again or not, and
      its caller never returns. */
  lemma {:induction false} StuckForEver(steps: seq<Step>, more: seq<Step>, c: nat)
    requires StoppedSending(steps) && c in Run(steps).callers && Run(steps).callers[c].phase == Waiting
    ensures var s := Run(steps + more);
            && s.stuck && s.slot.state == Sending && c in s.callers && s.callers[c].phase == Waiting
            && s.callers[c].request == Run(steps).callers[c].request
  {
    hide Run, Inv, StoppedSending, Next;
    if more == [] {
      StuckOnlyBy(steps);
      StuckIsSending(steps);
      assert steps + more == steps;
    } else {
      var before, t := steps + more[..|more| - 1], more[|more| - 1];
      StuckForEver(steps, more[..|more| - 1], c);
      RunKeeps(before);
      RunOn(before, t);
      StuckStays(Run(before), t, c);
      assert before + [t] == steps + more;
    }
  }

  lemma StuckIsSending(steps: seq<Step>)
    ensures Run(steps).stuck ==> Run(steps).slot.state == Sending
  {
    hide Run;
    RunKeeps(steps);
  }

  lemma StuckStays(s: System, t: Step, c: nat)
    requires Inv(s) && s.stuck && c in s.callers && s.callers[c].phase == Waiting
    ensures var s' := Next(s, t);
            s'.stuck && s'.slot.state == Sending && c in s'.callers && s'.callers[c] == s.callers[c]
  {
    hide LogRight, SentRight, AnswersRight, IdsRight, IsRequest;
  }

  /** A run that leaves the slot SENDING: the task is stopped right after it takes a message. */
  const STOPPED_RUN: seq<Step> := [Start, Call(0, STOPPED_REQUEST), GiveMessage(0), Dial, Accept, Grant, TakeMessage, Stop]

  const STOPPED_REQUEST: Request := Request(['t' as int], [], Qos0, false)

  lemma StoppedWhileSending()
    ensures var s := Run(STOPPED_RUN); s.phase == Ended && s.stuck && s.slot.state == Sending && HasOwner(s)
    ensures StoppedSending(STOPPED_RUN)
  {
    hide Run;
    StoppedAfter(7);
    StoppedAfter(8);
    assert STOPPED_RUN[..8] == STOPPED_RUN;
    assert StopsSending(STOPPED_RUN, 7);
    assert 0 in Stopped(8).callers;
  }

  lemma IsTopicOfOne(c: Byte)
    requires 0 < c < 0x80 && c != '+' as int && c != '#' as int
    ensures IsTopic([c])
  {
    assert [c][1..] == [] && Bits([c], 1) == c;
  }

  /** What the run has come to after so many steps. */
  function Stopped(n: nat): System {
    var slot := Give(EMPTY.(open := true), STOPPED_REQUEST);
    var s := INITIAL.(slot := slot, givers := [0], callers := map[0 := Caller(STOPPED_REQUEST, Waiting, 0)]);
    if n == 0 then INITIAL
    else if n == 1 then INITIAL.(phase := Off, slot := EMPTY.(open := true))
    else if n == 2 then INITIAL.(phase := Off, slot := EMPTY.(open := true), callers := map[0 := Caller(STOPPED_REQUEST, Giving, 0)])
    else if n == 3 then s.(phase := Off)
    else if n == 4 then s.(phase := Open, conn := 1)
    else if n == 5 then s.(phase := Accepted, conn := 1)
    else if n == 6 then s.(phase := Ready, conn := 1)
    else if n == 7 then s.(phase := Publishing, conn := 1, slot := slot.(state := Sending))
    else s.(phase := Ended, conn := 1, slot := slot.(state := Sending, open := false), stuck := true)
  }

  lemma StoppedStep(n: nat)
    requires n < 8
    ensures Next(Stopped(n), STOPPED_RUN[n]) == Stopped(n + 1)
  {
    hide IsTopic;
    IsTopicOfOne('t' as int);
  }

  lemma {:induction false} StoppedAfter(n: nat)
    requires n <= 8
    ensures Run(STOPPED_RUN[..n]) == Stopped(n)
  {
    if n > 0 {
      hide Next, Stopped;
      StoppedAfter(n - 1);
      RunOn(STOPPED_RUN[..n - 1], STOPPED_RUN[n - 1]);
      StoppedStep(n - 1);
      assert STOPPED_RUN[..n] == STOPPED_RUN[..n - 1] + [STOPPED_RUN[n - 1]];
    }
  }
}
