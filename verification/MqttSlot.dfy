/** The one message slot that the callers of kii_mqtt_publish() and the MQTT task share, guarded by a
    lock: what each section of code that holds the lock does to it. */
module MqttSlot {
  import opened Options
  import opened Utf8
  import opened MqttPackets

  datatype PubState = Free | Queued | Sending | AwaitingPuback | Abandoned | Done

  datatype KiiCode = KiiOk | KiiFail | KiiTimeout | KiiSockSend | KiiTooLarge

  datatype Qos = Qos0 | Qos1

  /** What a caller has to publish. Both strings are the caller's, and so is their memory. */
  datatype Request = Request(topic: seq<Byte>, payload: seq<Byte>, qos: Qos, retain: bool)

  /** What kii_mqtt_publish() takes: a request MQTT can carry, with a topic a PUBLISH may have. */
  predicate IsRequest(r: Request) {
    r.topic != [] && IsTopic(r.topic) && Fits(r)
  }

  /** A request MQTT can carry, as far as sizes go. */
  predicate Fits(r: Request) {
    |r.topic| <= 65535 && 2 + |r.topic| + (if r.qos == Qos1 then 2 else 0) + |r.payload| <= LENGTH_MAX
  }

  /** kii_mqtt_publish()'s checks of what it is given: of what passes, MQTT can carry all. */
  method CheckRequest(r: Request) returns (code: KiiCode)
    ensures code == if |r.topic| > 65535 then KiiTooLarge
                    else if r.topic == [] || !IsTopicText(r.topic) then KiiFail
                    else if Fits(r) then KiiOk
                    else KiiTooLarge
    ensures code == KiiOk <==> IsRequest(r)
  {
    hide IsTopic, IsTopicText;
    IsTopicExactly(r.topic);
    if |r.topic| > 65535 {
      return KiiTooLarge;
    }
    var good := IsPublishTopic(r.topic);
    if !good {
      return KiiFail;
    }
    var idSize := if r.qos == Qos1 then 2 else 0;
    return if |r.payload| > LENGTH_MAX - 2 - |r.topic| - idSize then KiiTooLarge else KiiOk;
  }

  /** kii_mqtt_message_t as the slot holds it, with no topic and payload once they are the caller's
      own again. */
  datatype Pending = Pending(data: Option<Request>, qos: Qos, retain: bool, dup: bool, packetId: nat)

  /** What is sent of it. */
  function Outgoing(p: Pending): Message {
    var topic := if p.data.Some? then p.data.value.topic else [];
    var payload := if p.data.Some? then p.data.value.payload else [];
    Message(topic, payload, p.qos == Qos1, p.retain, p.dup, p.packetId)
  }

  /** A message with what was to be published. */
  predicate Carries(m: Message, r: Request) {
    m.topic == r.topic && m.payload == r.payload && m.retain == r.retain && (m.qos1 <==> r.qos == Qos1)
  }

  datatype Slot = Slot(open: bool, state: PubState, msg: Pending, result: KiiCode, lastId: nat)

  const EMPTY: Slot := Slot(false, Free, Pending(None, Qos0, false, false, 0), KiiOk, 0)

  /** Not 0, which MQTT doesn't allow, nor 1, which SUBSCRIBE has. */
  function NextId(last: nat): (id: nat)
    ensures 2 <= id && (last <= 65535 ==> id <= 65535 && id != last)
  {
    if last < 2 || last == 65535 then 2 else last + 1
  }

  // ---------- The callers' sections ----------

  predicate CanGive(s: Slot) {
    s.open && s.state == Free
  }

  /** kii_mqtt_publish(), giving the task its message. */
  function Give(s: Slot, r: Request): Slot {
    var id := if r.qos == Qos1 then NextId(s.lastId) else 0;
    s.(state := Queued, msg := Pending(Some(r), r.qos, r.retain, false, id), lastId := if r.qos == Qos1 then id else s.lastId)
  }

  /** kii_mqtt_publish(), waiting for the task to be done with it: what it returns, if it does. */
  function Answer(s: Slot, timedOut: bool): Option<KiiCode> {
    if s.state == Done then Some(s.result)
    else if timedOut && (s.state == Queued || s.state == AwaitingPuback) then Some(KiiTimeout)
    else None
  }

  function Leave(s: Slot, timedOut: bool): Slot {
    if s.state == Done || (timedOut && s.state == Queued) then s.(state := Free, msg := s.msg.(data := None))
    else if timedOut && s.state == AwaitingPuback then s.(state := Abandoned, msg := s.msg.(data := None))
    else s
  }

  // ---------- The task's sections ----------

  predicate CanTake(s: Slot) {
    s.state == Queued
  }

  function Take(s: Slot): Slot {
    if CanTake(s) then s.(state := Sending) else s
  }

  predicate AwaitsPuback(s: Slot) {
    s.state == AwaitingPuback || s.state == Abandoned
  }

  /** The packet identifier a PUBACK may have. */
  function AwaitedId(s: Slot): Option<nat> {
    if AwaitsPuback(s) then Some(s.msg.packetId) else None
  }

  predicate IsAck(s: Slot, id: nat) {
    AwaitsPuback(s) && s.msg.packetId == id
  }

  function Acked(s: Slot, id: nat): Slot {
    if !IsAck(s, id) then s
    else if s.state == AwaitingPuback then s.(result := KiiOk, state := Done)
    else s.(state := Free)
  }

  function Reconnected(s: Slot): Slot {
    if s.state == AwaitingPuback then s.(msg := s.msg.(dup := true), state := Queued)
    else if s.state == Abandoned then s.(state := Free)
    else s
  }

  /** _mqtt_state_send_publish(), once the message was sent, or its sending failed. */
  function SendEnded(s: Slot, ok: bool): Slot {
    if ok && s.msg.qos == Qos1 then s.(state := AwaitingPuback)
    else if s.msg.qos == Qos1 then s.(msg := s.msg.(dup := true), state := Queued)
    else s.(result := if ok then KiiOk else KiiSockSend, state := Done)
  }

  function Closed(s: Slot): Slot {
    if s.state == Queued || s.state == AwaitingPuback then s.(open := false, result := KiiFail, state := Done)
    else if s.state == Abandoned then s.(open := false, state := Free)
    else s.(open := false)
  }

  // ---------- The fields ----------

  /** The slot's fields in kii_t, and the code that changes them with the lock held. Without a lock,
      no call can give the task a message. */
  class PublishSlot {
    const hasLock: bool
    var open: bool
    var state: PubState
    var msg: Pending
    var result: KiiCode
    var lastId: nat

    constructor (hasLock: bool)
      ensures this.hasLock == hasLock && Contents() == EMPTY
    {
      this.hasLock := hasLock;
      open, state, msg, result, lastId := false, Free, Pending(None, Qos0, false, false, 0), KiiOk, 0;
    }

    function Contents(): Slot
      reads this
    {
      Slot(open, state, msg, result, lastId)
    }

    /** _kii_mqtt_publish_open() */
    method Open(value: bool)
      modifies this
      ensures Contents() == old(Contents()).(open := value)
    {
      open := value;
    }

    /** The first loop of kii_mqtt_publish(), one turn: whether the message was given, unless the
        call fails. */
    method TryGive(r: Request) returns (given: bool, failed: bool)
      modifies this
      ensures failed <==> !old(open)
      ensures given <==> old(CanGive(Contents()))
      ensures Contents() == if given then Give(old(Contents()), r) else old(Contents())
    {
      if !open {
        return false, true;
      }
      if state == Free {
        var packetId := 0;
        if r.qos == Qos1 {
          packetId := if lastId < 2 || lastId == 65535 then 2 else lastId + 1;
          lastId := packetId;
        }
        msg := Pending(Some(r), r.qos, r.retain, false, packetId);
        state := Queued;
        return true, false;
      }
      return false, false;
    }

    /** The second loop, one turn: what the call returns, if it does. */
    method TryCollect(timedOut: bool) returns (code: Option<KiiCode>)
      modifies this
      ensures code == Answer(old(Contents()), timedOut) && Contents() == Leave(old(Contents()), timedOut)
    {
      if state == Done || (timedOut && state == Queued) {
        code := Some(if state == Done then result else KiiTimeout);
        state, msg := Free, msg.(data := None);
        return;
      }
      if timedOut && state == AwaitingPuback {
        // Its PUBACK may still come, which is then no surprise.
        state, msg := Abandoned, msg.(data := None);
        return Some(KiiTimeout);
      }
      return None;
    }

    /** _publish_queued() */
    method IsQueued() returns (queued: bool)
      ensures queued <==> hasLock && CanTake(Contents())
    {
      queued := hasLock && state == Queued;
    }

    /** _publish_take() */
    method TryTake() returns (taken: bool)
      modifies this
      ensures taken <==> hasLock && old(CanTake(Contents()))
      ensures Contents() == if taken then Take(old(Contents())) else old(Contents())
    {
      if !hasLock {
        return false;
      }
      taken := state == Queued;
      if taken {
        state := Sending;
      }
    }

    /** _publish_awaits_puback() */
    method IsAwaited() returns (awaits: bool)
      ensures awaits <==> hasLock && AwaitsPuback(Contents())
    {
      awaits := hasLock && (state == AwaitingPuback || state == Abandoned);
    }

    /** _publish_acked() */
    method TryAck(id: nat) returns (acked: bool)
      modifies this
      ensures acked <==> hasLock && old(IsAck(Contents(), id))
      ensures Contents() == if hasLock then Acked(old(Contents()), id) else old(Contents())
    {
      if !hasLock {
        return false;
      }
      acked := (state == AwaitingPuback || state == Abandoned) && msg.packetId == id;
      if acked && state == AwaitingPuback {
        result, state := KiiOk, Done;
      } else if acked {
        state := Free;
      }
    }

    /** _publish_reconnected() */
    method Reconnect()
      modifies this
      ensures Contents() == if hasLock then Reconnected(old(Contents())) else old(Contents())
    {
      if !hasLock {
        return;
      }
      if state == AwaitingPuback {
        msg, state := msg.(dup := true), Queued;
      } else if state == Abandoned {
        state := Free;
      }
    }

    /** The section of _mqtt_state_send_publish(). */
    method EndSend(ok: bool)
      modifies this
      ensures Contents() == SendEnded(old(Contents()), ok)
    {
      var qos1 := msg.qos == Qos1;
      if ok && qos1 {
        state := AwaitingPuback;
      } else if qos1 {
        // Part of it may have reached the broker: send it again on the next connection.
        msg, state := msg.(dup := true), Queued;
      } else {
        result, state := if ok then KiiOk else KiiSockSend, Done;
      }
    }

    /** _publish_close() */
    method Close()
      modifies this
      ensures Contents() == if hasLock then Closed(old(Contents())) else old(Contents()).(open := false)
    {
      open := false;
      if !hasLock {
        return;
      }
      if state == Queued || state == AwaitingPuback {
        result, state := KiiFail, Done;
      } else if state == Abandoned {
        state := Free;
      }
    }
  }
}
