/** What a call of kii_mqtt_publish() that returns KII_ERR_OK says of the connections there were. */
module MqttDelivery {
  import opened Options
  import opened Utf8
  import opened MqttPackets
  import opened MqttConnection
  import S = MqttSlot
  import P = MqttPublish
  import T = MqttTask

  /** Event i of a connection shows as mark m. */
  ghost predicate ShowsAs(n: nat, c: seq<Event>, i: nat, m: Mark) {
    i < |c| && Marks(n, c[i]) == [m]
  }

  lemma {:induction false} EventOfMark(n: nat, c: seq<Event>, x: nat) returns (i: nat)
    requires x < |Traffic(n, c)|
    ensures ShowsAs(n, c, i, Traffic(n, c)[x]) && Traffic(n, c)[x].conn == n
  {
    hide IsPublish, MessageOf, Number;
    var before := c[..|c| - 1];
    if x < |Traffic(n, before)| {
      i := EventOfMark(n, before, x);
      assert before[i] == c[i];
    } else {
      i := |c| - 1;
    }
  }

  /** Marks come in the order of their events. */
  lemma {:induction false} EventsOfMarks(n: nat, c: seq<Event>, x: nat, y: nat) returns (i: nat, j: nat)
    requires x < y < |Traffic(n, c)|
    ensures i < j && ShowsAs(n, c, i, Traffic(n, c)[x]) && ShowsAs(n, c, j, Traffic(n, c)[y])
  {
    hide IsPublish, MessageOf, Number;
    var before := c[..|c| - 1];
    if y < |Traffic(n, before)| {
      i, j := EventsOfMarks(n, before, x, y);
      assert before[i] == c[i] && before[j] == c[j];
    } else {
      j := |c| - 1;
      i := EventOfMark(n, before, x);
      assert before[i] == c[i];
    }
  }

  lemma {:induction false} MarkOfAll(conns: seq<seq<Event>>, x: nat) returns (k: nat, i: nat)
    requires x < |AllTraffic(conns)|
    ensures k < |conns| && AllTraffic(conns)[x].conn == k + 1 && ShowsAs(k + 1, conns[k], i, AllTraffic(conns)[x])
  {
    hide Traffic, Marks;
    var before := conns[..|conns| - 1];
    if x < |AllTraffic(before)| {
      k, i := MarkOfAll(before, x);
    } else {
      k := |conns| - 1;
      i := EventOfMark(|conns|, conns[k], x - |AllTraffic(before)|);
    }
  }

  lemma {:induction false} MarksOfAll(conns: seq<seq<Event>>, x: nat, y: nat) returns (k: nat, i: nat, j: nat)
    requires x < y < |AllTraffic(conns)| && AllTraffic(conns)[x].conn == AllTraffic(conns)[y].conn
    ensures k < |conns| && i < j
    ensures ShowsAs(k + 1, conns[k], i, AllTraffic(conns)[x]) && ShowsAs(k + 1, conns[k], j, AllTraffic(conns)[y])
  {
    hide Traffic, Marks;
    var before := conns[..|conns| - 1];
    var size := |AllTraffic(before)|;
    if y < size {
      k, i, j := MarksOfAll(before, x, y);
    } else {
      k := |conns| - 1;
      if x < size {
        var k', i' := MarkOfAll(before, x);
        var j' := EventOfMark(|conns|, conns[k], y - size);
        assert false;
      }
      i, j := EventsOfMarks(|conns|, conns[k], x - size, y - size);
    }
  }

  /** The PUBLISH of a message went out whole, as event i of a connection. */
  ghost predicate WentOut(c: seq<Event>, i: nat, m: Message) {
    i < |c| && IsMessage(m) && c[i] == Out(PublishByte1(m), PublishBody(m), true)
  }

  /** And then a PUBACK with its packet identifier came in, as event j. */
  ghost predicate IsAcknowledged(c: seq<Event>, i: nat, j: nat, m: Message) {
    && WentOut(c, i, m)
    && i < j < |c| && c[j].In? && c[j].byte1 == 0x40 && |c[j].body| == 2 && Number(c[j].body, 0) == m.id
  }

  /** A whole PUBLISH's mark is its bytes: read as that message, they are what is sent of it. */
  lemma MarkIsBytes(cfg: Config, n: nat, c: seq<Event>, i: nat, m: Message)
    requires Legal(cfg, c) && ShowsAs(n, c, i, Published(n, m, true))
    ensures WentOut(c, i, m)
  {
    hide PublishedMessage, IsTopicText, PublishBody, PublishByte1, QosOf, DupOf, RetainOf, Accepted, Granted, Subscribed, Pings, Unacknowledged, IsGoodPublish;
    LegalBefore(cfg, c, i);
    assert IsPublish(c[i].byte1);
    ReadIsWritten(c[i].byte1, c[i].body);
  }

  /** Event x of the log is a whole sending of the call's own message, and event i of connection k its
      bytes. */
  ghost predicate IsSending(cfg: Config, conns: seq<seq<Event>>, s: P.System, c: nat, x: nat, k: nat, i: nat)
    requires c in s.callers
  {
    && x < |s.log| && s.log[x].Publish? && s.log[x].serial == s.callers[c].serial && s.log[x].whole
    && S.Carries(s.log[x].m, s.callers[c].request)
    && k < |conns| && s.log[x].conn == k + 1 && Legal(cfg, conns[k]) && WentOut(conns[k], i, s.log[x].m)
  }

  /** A call at QoS 1 that returned KII_ERR_OK, over every run of the task and every interleaving: on one
      connection the bytes of its own message, with the topic and payload it was called with, went out
      whole, and a PUBACK with that message's identifier came in after them. */
  lemma OkWasAcknowledged(cfg: Config, conns: seq<seq<Event>>, received: seq<Message>, steps: seq<P.Step>, c: nat)
    requires RecordRight(cfg, conns, received, P.Run(steps).log)
    requires c in P.Run(steps).callers && P.Run(steps).callers[c].phase == P.Returned(S.KiiOk) && P.Run(steps).callers[c].request.qos == S.Qos1
    ensures var s := P.Run(steps);
            exists x: nat, y: nat, k: nat, i: nat, j: nat ::
              P.AckedAt(s.log, s.callers[c].serial, x, y) && IsSending(cfg, conns, s, c, x, k, i) && IsAcknowledged(conns[k], i, j, s.log[x].m)
  {
    hide P.Run, Legal, IsPublish, Number, MessageOf, PublishBody, PublishByte1, IsMessage, S.Carries, AllTraffic;
    P.OkMeansDelivered(steps, c);
    var s := P.Run(steps);
    var x: nat, y: nat :| P.AckedAt(s.log, s.callers[c].serial, x, y);
    assert MarksOf(s.log)[x] == MarkOf(s.log[x]) && MarksOf(s.log)[y] == MarkOf(s.log[y]);
    var k, i, j := MarksOfAll(conns, x, y);
    MarkIsBytes(cfg, k + 1, conns[k], i, s.log[x].m);
    assert IsSending(cfg, conns, s, c, x, k, i) && IsAcknowledged(conns[k], i, j, s.log[x].m);
  }

  /** One at QoS 0: they went out whole. */
  lemma OkWasSent(cfg: Config, conns: seq<seq<Event>>, received: seq<Message>, steps: seq<P.Step>, c: nat)
    requires RecordRight(cfg, conns, received, P.Run(steps).log)
    requires c in P.Run(steps).callers && P.Run(steps).callers[c].phase == P.Returned(S.KiiOk) && P.Run(steps).callers[c].request.qos == S.Qos0
    ensures exists x: nat, k: nat, i: nat :: IsSending(cfg, conns, P.Run(steps), c, x, k, i)
  {
    hide P.Run, Legal, IsPublish, Number, MessageOf, PublishBody, PublishByte1, IsMessage, S.Carries, AllTraffic;
    P.OkMeansDelivered(steps, c);
    var s := P.Run(steps);
    var x: nat :| x < |s.log| && s.log[x].Publish? && s.log[x].serial == s.callers[c].serial && s.log[x].whole;
    assert MarksOf(s.log)[x] == MarkOf(s.log[x]);
    var k, i := MarkOfAll(conns, x);
    MarkIsBytes(cfg, k + 1, conns[k], i, s.log[x].m);
    assert IsSending(cfg, conns, s, c, x, k, i);
  }

  /** So at any time between two turns of the task, and once it has ended, for every call that returned
      KII_ERR_OK. */
  lemma OkWasDelivered(task: T.MqttTask, c: nat)
    requires task.Recorded()
    requires c in task.shared.System().callers && task.shared.System().callers[c].phase == P.Returned(S.KiiOk)
    ensures var s, conns := task.shared.System(), task.conns;
            exists x: nat, k: nat, i: nat :: IsSending(task.setup.cfg, conns, s, c, x, k, i) &&
              (s.callers[c].request.qos == S.Qos1 ==> exists j: nat :: IsAcknowledged(conns[k], i, j, s.log[x].m))
  {
    hide P.Run, IsSending, RecordRight;
    var steps, conns := task.shared.steps, task.conns;
    if task.shared.System().callers[c].request.qos == S.Qos1 {
      OkWasAcknowledged(task.setup.cfg, conns, task.received, steps, c);
    } else {
      OkWasSent(task.setup.cfg, conns, task.received, steps, c);
    }
  }

  /** The PUBLISH made of a message, received where there is room for it, is taken, and the callback is
      given that very message. */
  lemma PublishDelivered(cfg: Config, m: Message)
    requires IsMessage(m) && |PublishBody(m)| <= cfg.room
    ensures var e := In(PublishByte1(m), PublishBody(m));
            IsGoodPublish(cfg, e.byte1, e.body) && Delivery(cfg, e) == [m]
  {
    hide IsTopicText, PublishedMessage, PublishBody;
    PublishRoundTrip(m);
  }
}
