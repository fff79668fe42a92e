/** The message slot with everyone who uses it: the MQTT task, which makes its steps here, and callers
    of kii_mqtt_publish(), who may make any number of theirs before each. */
module MqttShared {
  import opened Options
  import opened Utf8
  import opened MqttSlot
  import opened MqttPublish
  import MqttPackets

  /** kii_mqtt_publish() takes part once its request is one it takes. */
  lemma Calls(s: System, t: Step)
    requires t.Call?
    ensures Enabled(s, t) <==> t.c !in s.callers && IsRequest(t.r)
  {
  }

  class SharedSlot {
    const slot: PublishSlot
    /** Every step so far, the callers' and the task's. */
    var steps: seq<Step>

    constructor (hasLock: bool)
      ensures fresh(slot) && slot.hasLock == hasLock && steps == [] && Valid()
    {
      slot := new PublishSlot(hasLock);
      steps := [];
    }

    function System(): System
      reads this
    {
      Run(steps)
    }

    /** What the slot holds is what the steps lead to. Without a lock no message is ever given. */
    ghost predicate Valid()
      reads this, slot
    {
      System().slot == slot.Contents() && (!slot.hasLock ==> slot.state == Free)
    }

    /** Any steps of any callers. None of them moves what is being sent. */
    method LetCallersRun()
      requires Valid()
      modifies this, slot
      ensures old(steps) <= steps
      ensures Valid() && Kept(old(System()), System())
      ensures old(slot.state) == Sending ==> System().slot == old(System().slot) && System().serial == old(System().serial)
    {
      hide Run, Enabled, After, IsRequest;
      var turns: nat := *;
      while turns > 0
        invariant old(steps) <= steps && Valid() && Kept(old(System()), System())
        invariant old(slot.state) == Sending ==> System().slot == old(System().slot) && System().serial == old(System().serial)
      {
        var t: Step := *;
        if t.Call? {
          var code := CheckRequest(t.r);
          Calls(Run(steps), t);
          if code == KiiOk && t.c !in Run(steps).callers {
            LetCallerStep(t);
          }
        } else if IsCallers(t) && Enabled(Run(steps), t) {
          LetCallerStep(t);
        }
        turns := turns - 1;
      }
    }

    method LetCallerStep(t: Step)
      requires Valid() && IsCallers(t) && Enabled(System(), t)
      modifies this, slot
      ensures old(steps) <= steps
      ensures Valid() && Kept(old(System()), System())
      ensures old(slot.state) == Sending ==> System().slot == old(System().slot) && System().serial == old(System().serial)
    {
      hide Run;
      if slot.hasLock || !(t.GiveMessage? || t.Collect?) {
        RunOn(steps, t);
        if t.GiveMessage? {
          var given, failed := slot.TryGive(Run(steps).callers[t.c].request);
        } else if t.Collect? {
          var code := slot.TryCollect(t.timedOut);
        }
        steps := steps + [t];
      }
    }

    // ---------- The task's steps ----------

    /** A step of the task's that leaves the slot as it is. */
    method Make(t: Step)
      requires Valid() && (t.Dial? || t.HangUp? || t.Grant? || t.Lose? || t.PubackComes?) && Enabled(System(), t)
      modifies this
      ensures old(steps) <= steps
      ensures Valid() && System() == After(old(System()), t)
      ensures slot.Contents() == old(slot.Contents())
    {
      hide Run;
      RunOn(steps, t);
      steps := steps + [t];
    }

    method Start()
      requires Valid() && System().phase == Ended
      modifies this, slot
      ensures old(steps) <= steps
      ensures Valid() && System().phase == Off && Same(old(System()), System())
    {
      hide Run;
      LetCallersRun();
      RunOn(steps, Step.Start);
      slot.Open(true);
      steps := steps + [Step.Start];
    }

    /** _publish_reconnected() */
    method Accept()
      requires Valid() && System().phase == Phase.Open
      modifies this, slot
      ensures old(steps) <= steps
      ensures Valid() && System().phase == Accepted && Same(old(System()), System())
    {
      hide Run;
      LetCallersRun();
      RunOn(steps, Step.Accept);
      slot.Reconnect();
      steps := steps + [Step.Accept];
    }

    /** _publish_queued() */
    method IsQueued() returns (queued: bool)
      requires Valid()
      modifies this, slot
      ensures old(steps) <= steps
      ensures Valid() && Kept(old(System()), System())
      ensures queued <==> slot.hasLock && CanTake(System().slot)
    {
      hide Run;
      LetCallersRun();
      queued := slot.IsQueued();
    }

    /** _publish_take() */
    method TryTake() returns (taken: bool)
      requires Valid() && System().phase == Ready
      modifies this, slot
      ensures old(steps) <= steps
      ensures Valid() && System().phase == (if taken then Publishing else Ready) && Same(old(System()), System())
      ensures taken ==> slot.hasLock
      ensures !taken ==> !slot.hasLock || !CanTake(System().slot)
      ensures !taken ==> AwaitedId(System().slot) == AwaitedId(old(System()).slot)
    {
      hide Run;
      LetCallersRun();
      taken := slot.TryTake();
      if taken {
        RunOn(steps, TakeMessage);
        steps := steps + [TakeMessage];
      }
    }

    /** _publish_awaits_puback(), as a PUBACK has started to come. */
    method IsAwaited() returns (awaits: bool)
      requires Valid() && System().phase == Ready
      modifies this, slot
      ensures old(steps) <= steps
      ensures Valid() && System().phase == (if awaits then ReadingPuback else Ready) && Same(old(System()), System())
      ensures awaits <==> AwaitedId(old(System()).slot).Some?
      ensures AwaitedId(System().slot) == AwaitedId(old(System()).slot)
    {
      hide Run;
      LetCallersRun();
      awaits := slot.IsAwaited();
      if awaits {
        Make(PubackComes);
      }
    }

    /** _publish_acked() */
    method TryAck(id: nat) returns (acked: bool)
      requires Valid() && System().phase == ReadingPuback
      modifies this, slot
      ensures old(steps) <= steps
      ensures Valid() && System().phase == (if acked then Ready else Broken) && System().conn == old(System().conn)
      ensures System().log == old(System().log) + [Puback(old(System().conn), id)]
      ensures acked <==> AwaitedId(old(System()).slot) == Some(id)
    {
      LetCallersRun();
      hide Run;
      RunOn(steps, PubackRead(id));
      acked := slot.TryAck(id);
      steps := steps + [PubackRead(id)];
    }

    /** What the task is sending, and what it makes of it. */
    ghost predicate IsSending(m: MqttPackets.Message)
      reads this, slot
    {
      slot.msg.data.Some? && Outgoing(slot.msg) == m && MqttPackets.IsMessage(m)
    }

    /** The message taken is there to be read, and can be sent, for as long as it takes. */
    method Message() returns (m: MqttPackets.Message)
      requires Valid() && System().phase == Publishing
      ensures IsSending(m) && Fits(slot.msg.data.value)
    {
      OwnerWaitsWhileSent(steps, false);
      RunKeeps(steps);
      SentFits(System());
      hide Run;
      m := Outgoing(slot.msg);
    }

    /** The section of _mqtt_state_send_publish(). */
    method EndSend(m: MqttPackets.Message, ok: bool)
      requires Valid() && System().phase == Publishing && IsSending(m)
      modifies this, slot
      ensures old(steps) <= steps
      ensures Valid() && System().phase == (if ok then Ready else Broken) && System().conn == old(System().conn)
      ensures exists serial :: System().log == old(System().log) + [Publish(old(System().conn), serial, m, ok)]
    {
      OwnerWaitsWhileSent(steps, false);
      LetCallersRun();
      hide Run, CanTake;
      RunOn(steps, EndSending(ok));
      ghost var serial := System().serial;
      slot.EndSend(ok);
      steps := steps + [EndSending(ok)];
      assert System().log == old(System().log) + [Publish(old(System().conn), serial, m, ok)];
    }

    /** _publish_close() */
    method Close()
      requires Valid() && System().phase != Ended && System().phase != ReadingPuback
      modifies this, slot
      ensures old(steps) <= steps
      ensures Valid() && System().phase == Ended && Same(old(System()), System()) && !slot.open
    {
      LetCallersRun();
      hide Run;
      RunOn(steps, Stop);
      slot.Close();
      steps := steps + [Stop];
    }
  }

  predicate Same(s: System, s': System) {
    s'.conn == s.conn && s'.log == s.log
  }

  predicate Kept(s: System, s': System) {
    Same(s, s') && s'.phase == s.phase && s'.stuck == s.stuck && s'.slot.open == s.slot.open
    && AwaitedId(s'.slot) == AwaitedId(s.slot)
  }

  /** The message in the slot is one of a caller's that kii_mqtt_publish() didn't refuse. */
  lemma SentFits(s: System)
    requires Inv(s) && s.slot.state == Sending
    ensures s.slot.msg.data.Some? && Fits(s.slot.msg.data.value)
    ensures MqttPackets.IsMessage(Outgoing(s.slot.msg))
  {
    hide LogRight, SentRight, AnswersRight, IdsRight, IsTopic, IsTopicText;
    var c :| c in s.callers && s.callers[c].phase == Waiting;
    assert s.slot.msg.data == Some(s.callers[c].request);
    IsTopicExactly(s.callers[c].request.topic);
  }
}
