/** How the MQTT task reads the rest of a PUBLISH: into its buffer, where the topic is moved back over
    its length, or, if there is no room for it, dropping it as it comes. */
module MqttMessages {
  import opened Options
  import opened Utf8
  import opened MqttPackets
  import opened MqttNetwork
  import opened MqttConnection

  /** _mqtt_state_recv_msg(), of a message that fits. ok says whether it came whole, and m is what the
      callback is given, unless it is malformed. */
  method ReadMessage(sock: MqttSocket, buffer: array<Byte>, size: nat, qos: nat, dup: bool, retain: bool)
      returns (ok: bool, m: Option<Message>, ghost read: seq<Byte>)
    requires sock.open && size <= buffer.Length && qos <= 1
    modifies sock`taken, sock`incoming, sock`misses, sock`codes, buffer
    ensures sock.taken == old(sock.taken) + read
    ensures ok ==> |read| == size && m == PublishedMessage(qos, dup, retain, read)
    ensures !ok ==> m == None && (|read| < size || read == [])
    ensures if ok then sock.misses == old(sock.misses) else sock.misses > old(sock.misses) || size == 0
    ensures m.Some? ==> |m.value.topic| < buffer.Length && buffer[|m.value.topic|] == 0 && buffer[..|m.value.topic|] == m.value.topic
  {
    hide IsTopicText;
    forall k | 0 <= k < buffer.Length {
      buffer[k] := 0;
    }
    ok, read := RecvRemaining(sock, size, buffer);
    m := None;
    if !ok {
      return;
    }
    ghost var body := buffer[..size];
    var malformed, topicSize, id := ReadFields(buffer, size, qos);
    if malformed {
      return;
    }
    var payload := 2 + topicSize + 2 * qos;
    Inside(buffer[..], size, 2, 2 + topicSize);
    MoveTopic(buffer, topicSize);
    assert buffer[payload..size] == body[payload..];
    m := Some(Message(buffer[..topicSize], buffer[payload..size], qos == 1, retain, dup, id));
  }

  /** Where the topic ends, and the packet identifier, unless they don't fit, or MQTT doesn't allow
      them. */
  method ReadFields(buffer: array<Byte>, size: nat, qos: nat) returns (malformed: bool, topicSize: nat, id: nat)
    requires size <= buffer.Length && qos <= 1
    ensures var body := buffer[..size];
            && (malformed <==> !IsWellFormed(qos, body))
            && (!malformed ==> topicSize == Number(body, 0) && id == if qos == 1 then Number(body, 2 + topicSize) else 0)
  {
    hide IsTopicText;
    topicSize, id := 0, 0;
    if size < 2 {
      return true, 0, 0;
    }
    var high: nat, low: nat := buffer[0], buffer[1];
    topicSize := high * 256 + low;
    if topicSize + 2 * qos > size - 2 {
      return true, topicSize, 0;
    }
    if qos == 1 {
      high, low := buffer[2 + topicSize], buffer[3 + topicSize];
      id := high * 256 + low;
    }
    var good := IsPublishTopic(buffer[2..2 + topicSize]);
    assert buffer[2..2 + topicSize] == buffer[..size][2..2 + topicSize];
    malformed := !good || (qos == 1 && id == 0);
  }

  lemma Inside(s: seq<Byte>, size: nat, from: nat, to: nat)
    requires from <= to <= size <= |s|
    ensures s[..size][from..to] == s[from..to]
  {
  }

  ghost predicate IsWellFormed(qos: nat, body: seq<Byte>)
    requires qos <= 1
  {
    PublishedMessage(qos, false, false, body).Some?
  }

  /** The topic ends two bytes short of where it did, so what follows it stays where it is. */
  method MoveTopic(buffer: array<Byte>, topicSize: nat)
    requires topicSize + 2 <= buffer.Length
    modifies buffer
    ensures buffer[..topicSize] == old(buffer[2..2 + topicSize]) && buffer[topicSize] == 0
    ensures forall k :: 2 + topicSize <= k < buffer.Length ==> buffer[k] == old(buffer[k])
  {
    forall k | 0 <= k < topicSize {
      buffer[k] := buffer[2 + k];
    }
    buffer[topicSize] := 0;
  }

  /** read is the start of no message of that size the task takes dropped. */
  ghost predicate NoneGoodStarts(qos: nat, read: seq<Byte>, size: nat) {
    forall body: seq<Byte> :: |body| == size && read <= body ==> !IsGoodEnough(qos, body)
  }

  /** _mqtt_recv_msg_trash(): reads and drops a message larger than the buffer, up to where it turns out
      to be malformed. good says whether it came whole, and isn't. */
  method DropMessage(sock: MqttSocket, size: nat, qos: nat) returns (good: bool, hasId: bool, id: nat, ghost read: seq<Byte>)
    requires sock.open && qos <= 1
    modifies sock`taken, sock`incoming, sock`misses, sock`codes
    ensures sock.taken == old(sock.taken) + read && |read| <= size
    ensures good <==> |read| == size && IsGoodEnough(qos, read)
    ensures good ==> (hasId <==> qos == 1) && (hasId ==> id == IdOf(read) && 0 < id <= 65535)
    ensures good ==> sock.misses == old(sock.misses)
    ensures !good ==> sock.misses > old(sock.misses) || NoneGoodStarts(qos, read, size)
  {
    hasId, id, read := false, 0, [];
    if size < 2 {
      return false, hasId, id, read;
    }
    var two := new Byte[2];
    var ok, first := RecvRemaining(sock, 2, two);
    read := first;
    if !ok {
      return false, hasId, id, read;
    }
    var high: nat, low: nat := two[0], two[1];
    var topicSize := high * 256 + low;
    assert Number(read, 0) == topicSize;
    if topicSize == 0 || topicSize + 2 * qos > size - 2 {
      return false, hasId, id, read;
    }
    ghost var topic;
    ok, topic := RecvTrash(sock, topicSize);
    read := first + topic;
    if !ok {
      return false, hasId, id, read;
    }
    ghost var idBytes := [];
    if qos == 1 {
      ok, idBytes := RecvRemaining(sock, 2, two);
      read := first + topic + idBytes;
      if !ok {
        return false, hasId, id, read;
      }
      high, low := two[0], two[1];
      id := high * 256 + low;
      assert Number(read, 2 + topicSize) == id;
      if id == 0 {
        return false, hasId, id, read;
      }
      hasId := true;
    }
    ghost var rest;
    good, rest := RecvTrash(sock, size - 2 - topicSize - 2 * qos);
    read := first + topic + idBytes + rest;
  }
}
