/** Why a call of kii_mqtt_publish() returns what it does: in every interleaving, each answer has its own
    cause, and a message that was acknowledged, or sent whole at QoS 0, gets the answer KII_ERR_OK. */
module MqttAnswers {
  import opened MqttPublish
  import opened MqttSlot
  import opened Options

  predicate Waits(s: System, c: nat) {
    c in s.callers && s.callers[c].phase == Waiting
  }

  /** Step n of a run is t, and was made. */
  predicate IsStep(steps: seq<Step>, n: nat, t: Step) {
    n < |steps| && steps[n] == t && Enabled(Run(steps[..n]), t)
  }

  ghost predicate Took(steps: seq<Step>, t: Step) {
    exists n: nat :: IsStep(steps, n, t)
  }

  /** The task was stopped, at step n, with the call's message in the slot and not being sent. */
  predicate IsStop(steps: seq<Step>, n: nat, c: nat) {
    && IsStep(steps, n, Stop) && Waits(Run(steps[..n]), c)
    && (Run(steps[..n]).slot.state == Queued || Run(steps[..n]).slot.state == AwaitingPuback)
  }

  ghost predicate WasStopped(steps: seq<Step>, c: nat) {
    exists n: nat :: IsStop(steps, n, c)
  }

  /** Sending a message failed before all of it had gone. */
  ghost predicate CutShort(log: seq<Event>, serial: nat) {
    exists i :: 0 <= i < |log| && log[i].Publish? && log[i].serial == serial && !log[i].whole
  }

  /** What an answer says. */
  ghost predicate HasCause(steps: seq<Step>, c: nat, call: Caller, code: KiiCode) {
    match code
    case KiiOk => Delivered(Run(steps).log, call.serial, call.request.qos)
    case KiiFail => Took(steps, Refused(c)) || WasStopped(steps, c)
    case KiiTimeout => Took(steps, GiveTimeout(c)) || Took(steps, Collect(c, true))
    case KiiSockSend => call.request.qos == Qos0 && CutShort(Run(steps).log, call.serial)
    case KiiTooLarge => false
  }

  /** Every answer so far has its cause, and so has the one that waits in the slot for its call. */
  ghost predicate Explained(steps: seq<Step>) {
    var s := Run(steps);
    && (forall c :: c in s.callers && s.callers[c].phase.Returned? ==> HasCause(steps, c, s.callers[c], s.callers[c].phase.code))
    && (s.slot.state == Done ==> s.slot.result != KiiTimeout && forall c :: Waits(s, c) ==> HasCause(steps, c, s.callers[c], s.slot.result))
  }

  // ---------- A step more ----------

  lemma TookMore(steps: seq<Step>, more: Step, t: Step)
    requires Took(steps, t)
    ensures Took(steps + [more], t)
  {
    hide Run, Enabled;
    var n: nat :| IsStep(steps, n, t);
    assert (steps + [more])[..n] == steps[..n];
    assert IsStep(steps + [more], n, t);
  }

  lemma StoppedMore(steps: seq<Step>, more: Step, c: nat)
    requires WasStopped(steps, c)
    ensures WasStopped(steps + [more], c)
  {
    hide Run, Enabled;
    var n: nat :| IsStop(steps, n, c);
    assert (steps + [more])[..n] == steps[..n];
    assert IsStop(steps + [more], n, c);
  }

  lemma TookNow(steps: seq<Step>, t: Step)
    requires Enabled(Run(steps), t)
    ensures Took(steps + [t], t)
  {
    hide Run, Enabled;
    assert (steps + [t])[..|steps|] == steps;
    assert IsStep(steps + [t], |steps|, t);
  }

  lemma StoppedNow(steps: seq<Step>, c: nat)
    requires Enabled(Run(steps), Stop) && Waits(Run(steps), c)
    requires Run(steps).slot.state == Queued || Run(steps).slot.state == AwaitingPuback
    ensures WasStopped(steps + [Stop], c)
  {
    hide Run, Enabled;
    assert (steps + [Stop])[..|steps|] == steps;
    assert IsStop(steps + [Stop], |steps|, c);
  }

  /** The log only grows. */
  lemma LogGrows(s: System, t: Step)
    ensures s.log <= Next(s, t).log
  {
  }

  lemma DeliveredStill(log: seq<Event>, more: seq<Event>, serial: nat, qos: Qos)
    requires log <= more && Delivered(log, serial, qos)
    ensures Delivered(more, serial, qos)
  {
    if qos == Qos1 {
      var i: nat, j: nat :| AckedAt(log, serial, i, j);
      assert AckedAt(more, serial, i, j);
    } else {
      var i: nat :| i < |log| && log[i].Publish? && log[i].serial == serial && log[i].whole;
      assert more[i] == log[i];
    }
  }

  lemma CutStill(log: seq<Event>, more: seq<Event>, serial: nat)
    requires log <= more && CutShort(log, serial)
    ensures CutShort(more, serial)
  {
    var i :| 0 <= i < |log| && log[i].Publish? && log[i].serial == serial && !log[i].whole;
    assert more[i] == log[i];
  }

  /** A cause stays one. */
  lemma CauseStays(steps: seq<Step>, t: Step, c: nat, call: Caller, code: KiiCode)
    requires HasCause(steps, c, call, code)
    ensures HasCause(steps + [t], c, call, code)
  {
    hide Run, Next, Took, WasStopped, CutShort, Delivered;
    RunOn(steps, t);
    LogGrows(Run(steps), t);
    match code {
      case KiiOk => DeliveredStill(Run(steps).log, Run(steps + [t]).log, call.serial, call.request.qos);
      case KiiFail =>
        if Took(steps, Refused(c)) {
          TookMore(steps, t, Refused(c));
        } else {
          StoppedMore(steps, t, c);
        }
      case KiiTimeout =>
        if Took(steps, GiveTimeout(c)) {
          TookMore(steps, t, GiveTimeout(c));
        } else {
          TookMore(steps, t, Collect(c, true));
        }
      case KiiSockSend => CutStill(Run(steps).log, Run(steps + [t]).log, call.serial);
      case KiiTooLarge =>
    }
  }

  /** A call returns with what has a cause. */
  lemma ReturnHasCause(steps: seq<Step>, t: Step, c: nat)
    requires Explained(steps) && Enabled(Run(steps), t)
    requires var s, s' := Run(steps), After(Run(steps), t);
             c in s.callers && !s.callers[c].phase.Returned? && c in s'.callers && s'.callers[c].phase.Returned?
    ensures var call := After(Run(steps), t).callers[c]; HasCause(steps + [t], c, call, call.phase.code)
  {
    hide Run, Took, WasStopped, CutShort, Delivered, IsRequest;
    var s := Run(steps);
    assert (t.Refused? || t.GiveTimeout? || t.Collect?) && t.c == c;
    TookNow(steps, t);
    if t.Collect? && s.slot.state == Done {
      hide HasCause;
      assert Waits(s, c);
      CauseStays(steps, t, c, s.callers[c], s.slot.result);
      SameCause(steps + [t], c, s.callers[c], After(s, t).callers[c], s.slot.result);
    }
  }

  lemma SameCause(steps: seq<Step>, c: nat, a: Caller, b: Caller, code: KiiCode)
    requires HasCause(steps, c, a, code) && a.serial == b.serial && a.request == b.request
    ensures HasCause(steps, c, b, code)
  {
  }

  /** The slot comes to hold a result that has a cause. */
  lemma ResultHasCause(steps: seq<Step>, t: Step, c: nat)
    requires Inv(Run(steps)) && Enabled(Run(steps), t) && Waits(Run(steps), c) && Run(steps).slot.state != Done
    requires After(Run(steps), t).slot.state == Done
    ensures var s, s' := Run(steps), After(Run(steps), t);
            s'.slot.result != KiiTimeout && s'.callers == s.callers && HasCause(steps + [t], c, s.callers[c], s'.slot.result)
  {
    hide Run, Took, WasStopped, SentRight, AnswersRight, IdsRight, RequestsFit, IsRequest;
    var s, s' := Run(steps), After(Run(steps), t);
    RunOn(steps, t);
    if t.EndSending? {
      assert s'.log == s.log + [Publish(s.conn, s.serial, Outgoing(s.slot.msg), t.ok)] && s'.log[|s.log|].Publish?;
    } else if t.PubackRead? {
      PubackLogged(s, t.id);
    } else {
      assert t == Stop;
      StoppedNow(steps, c);
    }
  }

  lemma ExplainedKept(steps: seq<Step>, t: Step)
    requires Explained(steps) && Inv(Run(steps))
    ensures Explained(steps + [t])
  {
    hide Run, HasCause, Inv, IsRequest;
    var s, s' := Run(steps), Run(steps + [t]);
    RunOn(steps, t);
    forall c | c in s'.callers && s'.callers[c].phase.Returned? ensures HasCause(steps + [t], c, s'.callers[c], s'.callers[c].phase.code) {
      if Enabled(s, t) && !s.callers[c].phase.Returned? {
        ReturnHasCause(steps, t, c);
      } else {
        ReturnedStays(s, t, c);
        CauseStays(steps, t, c, s.callers[c], s.callers[c].phase.code);
      }
    }
    if s'.slot.state == Done {
      hide Enabled, After;
      ResultKept(steps, t);
    }
  }

  lemma ReturnedStays(s: System, t: Step, c: nat)
    ensures c in s.callers && s.callers[c].phase.Returned? ==> c in Next(s, t).callers && Next(s, t).callers[c] == s.callers[c]
    ensures c in Next(s, t).callers && Next(s, t).callers[c].phase.Returned? ==> c in s.callers
  {
    hide IsRequest;
  }

  lemma ResultKept(steps: seq<Step>, t: Step)
    requires Explained(steps) && Inv(Run(steps)) && Next(Run(steps), t).slot.state == Done
    ensures var s' := Run(steps + [t]); s'.slot.result != KiiTimeout && forall c :: Waits(s', c) ==> HasCause(steps + [t], c, s'.callers[c], s'.slot.result)
  {
    hide Run, HasCause, IsRequest, LogRight, SentRight, AnswersRight, IdsRight, RequestsFit;
    var s, s' := Run(steps), Run(steps + [t]);
    RunOn(steps, t);
    HasOneToTell(s, t);
    forall c | Waits(s', c) ensures s'.slot.result != KiiTimeout && HasCause(steps + [t], c, s'.callers[c], s'.slot.result) {
      if s.slot.state == Done {
        CauseStays(steps, t, c, s.callers[c], s.slot.result);
      } else {
        ResultHasCause(steps, t, c);
      }
    }
  }

  /** A result is there for a call that waits, and was waiting. */
  lemma HasOneToTell(s: System, t: Step)
    requires Inv(s) && Next(s, t).slot.state == Done
    ensures HasOwner(Next(s, t)) && forall c :: Waits(Next(s, t), c) ==> Waits(s, c) && Next(s, t).callers[c] == s.callers[c]
    ensures s.slot.state == Done ==> Next(s, t).slot.result == s.slot.result
  {
    hide LogRight, SentRight, AnswersRight, IdsRight, RequestsFit, IsRequest;
    if Enabled(s, t) {
      OwnedKept(s, t);
    }
  }

  lemma {:induction false} AllExplained(steps: seq<Step>)
    ensures Explained(steps)
  {
    if steps != [] {
      hide Explained, Inv, Run;
      var before := steps[..|steps| - 1];
      AllExplained(before);
      RunKeeps(before);
      ExplainedKept(before, steps[|steps| - 1]);
      assert before + [steps[|steps| - 1]] == steps;
    }
  }

  // ---------- What follows ----------

  /** KII_ERR_FAIL only for a call that found the slot closed, or whose message the task was stopped with;
      KII_ERR_TIMEOUT only for one that timed out; KII_ERR_SOCK_SEND only at QoS 0, if sending it failed part
      of the way; KII_ERR_OK only for a message that was delivered; and no call is told anything else. */
  lemma AnswerHasCause(steps: seq<Step>, c: nat)
    requires c in Run(steps).callers && Run(steps).callers[c].phase.Returned?
    ensures var s := Run(steps);
            var call, code := s.callers[c], s.callers[c].phase.code;
            && code in {KiiOk, KiiFail, KiiTimeout, KiiSockSend}
            && (code == KiiFail ==> Took(steps, Refused(c)) || WasStopped(steps, c))
            && (code == KiiTimeout ==> Took(steps, GiveTimeout(c)) || Took(steps, Collect(c, true)))
            && (code == KiiSockSend ==> call.request.qos == Qos0 && CutShort(s.log, call.serial))
            && (code == KiiOk ==> Delivered(s.log, call.serial, call.request.qos))
  {
    hide Run, Took, WasStopped, CutShort, Delivered;
    AllExplained(steps);
  }

  /** A result in the slot is what its call gets. */
  predicate HasResult(s: System, c: nat, code: KiiCode) {
    (Waits(s, c) && s.slot.state == Done && s.slot.result == code) || (c in s.callers && s.callers[c].phase == Returned(code))
  }

  lemma ResultStays(s: System, t: Step, c: nat, code: KiiCode)
    requires Inv(s) && HasResult(s, c, code)
    ensures HasResult(Next(s, t), c, code)
  {
    hide LogRight, SentRight, AnswersRight, IdsRight, RequestsFit, IsRequest;
  }

  lemma {:induction false} ResultReached(steps: seq<Step>, more: seq<Step>, c: nat, code: KiiCode)
    requires HasResult(Run(steps), c, code)
    ensures HasResult(Run(steps + more), c, code)
  {
    hide Run, Inv, Next, HasResult;
    if more == [] {
      assert steps + more == steps;
    } else {
      var before, t := steps + more[..|more| - 1], more[|more| - 1];
      ResultReached(steps, more[..|more| - 1], c, code);
      RunKeeps(before);
      RunOn(before, t);
      ResultStays(Run(before), t, c, code);
      assert before + [t] == steps + more;
    }
  }

  /** A call that waits as its own PUBACK is read has KII_ERR_OK there for it from then on, or has returned it,
      whatever else happens. */
  lemma AcknowledgedIsOk(steps: seq<Step>, id: nat, more: seq<Step>, c: nat)
    requires Run(steps).phase == ReadingPuback && IsAck(Run(steps).slot, id) && Waits(Run(steps), c)
    ensures HasResult(Run(steps + [PubackRead(id)] + more), c, KiiOk)
  {
    hide Run, LogRight, SentRight, AnswersRight, IdsRight, RequestsFit, IsRequest;
    RunKeeps(steps);
    RunOn(steps, PubackRead(id));
    ResultReached(steps + [PubackRead(id)], more, c, KiiOk);
  }

  /** So does one at QoS 0 whose message was sent whole; if it wasn't, it is told so. */
  lemma SentIsOk(steps: seq<Step>, ok: bool, more: seq<Step>, c: nat)
    requires Run(steps).phase == Publishing && Waits(Run(steps), c) && Run(steps).callers[c].request.qos == Qos0
    ensures HasResult(Run(steps + [EndSending(ok)] + more), c, if ok then KiiOk else KiiSockSend)
  {
    hide Run, LogRight, SentRight, AnswersRight, IdsRight, RequestsFit, IsRequest;
    RunKeeps(steps);
    RunOn(steps, EndSending(ok));
    ResultReached(steps + [EndSending(ok)], more, c, if ok then KiiOk else KiiSockSend);
  }

  /** At QoS 1 a message whose sending failed, or that was awaited as the connection was lost, is to be sent again
      once the broker has accepted the next one, to the same call. */
  lemma LostIsQueued(steps: seq<Step>, c: nat)
    requires Run(steps).phase == Open && Waits(Run(steps), c) && Run(steps).slot.state != Done && Run(steps).slot.state != Sending
    ensures var s := Run(steps + [Accept]);
            Waits(s, c) && s.slot.state == Queued && s.slot.msg.data == Some(s.callers[c].request)
            && (Run(steps).slot.state == AwaitingPuback ==> s.slot.msg.dup)
  {
    hide Run, LogRight, SentRight, AnswersRight, IdsRight, RequestsFit, IsRequest;
    RunKeeps(steps);
    RunOn(steps, Accept);
  }

  /** No call is kept: one that has yet to give its message can, or times out, or is refused, as the slot is; and one
      that waits returns once there is a result, or, unless its message is just being sent, once it has timed out. */
  lemma CallsGoOn(steps: seq<Step>, c: nat)
    requires c in Run(steps).callers
    ensures var s := Run(steps);
            && (s.callers[c].phase == Giving ==>
                  if !s.slot.open then Enabled(s, Refused(c))
                  else if s.slot.state == Free then Enabled(s, GiveMessage(c))
                  else Enabled(s, GiveTimeout(c)))
            && (s.callers[c].phase == Waiting ==>
                  && (Enabled(s, Collect(c, false)) <==> s.slot.state == Done)
                  && (Enabled(s, Collect(c, true)) <==> s.slot.state != Sending))
  {
    hide Run, LogRight, SentRight, AnswersRight, IdsRight, RequestsFit, IsRequest;
    RunKeeps(steps);
  }
}
