/** End to end: what one client publishes, the broker handles and the other clients decode. */
module MqttDelivery {

  import opened Common
  import opened MqttCodec
  import opened MqttTopics
  import opened MqttStream
  import opened MqttBroker
  import opened MqttClient

  // ----- From a client to the broker -----

  function Messages(sender: ClientId, calls: seq<Call>): seq<(ClientId, Received)> {
    if calls == [] then []
    else
      var rest := Messages(sender, calls[1..]);
      match calls[0]
      case Publish(m) => if |m.topic| < 0x1_0000 then [(sender, Received(m.topic, m.payload, m.qos))] + rest else rest
      case Subscribe(_, _) => rest
  }

  /** The filters a series of calls subscribes to. */
  function Subscribed(calls: seq<Call>): set<bytes> {
    if calls == [] then {}
    else Subscribed(calls[1..]) + if calls[0].Subscribe? && |calls[0].filter| < 0x1_0000 then {calls[0].filter} else {}
  }

  lemma CallIsHandled(h: Hub, sender: ClientId, call: Call, packetId: nat)
    requires sender in h.clients && Packable(call) && packetId < 0x1_0000
    ensures var r := Handled(h, sender, CallPacket(call, packetId));
            r.Some? && sender in r.value.clients && r.value.handled == h.handled + Messages(sender, [call])
            && r.value.clients[sender].filters == h.clients[sender].filters + Subscribed([call])
  {
    hide Routed, Encode, ReadPublish, ReadSubscribe, SubscribeBody, PublishBody;
    match call
    case Publish(m) =>
      PublishRoundTrip(m, packetId);
      PublisherFilters(h, sender, CallPacket(call, packetId));
    case Subscribe(f, qos) =>
      SubscribeRoundTrip(packetId, f, qos);
      assert FilterSet([(f, qos)]) == {f};
  }

  lemma PublisherFilters(h: Hub, sender: ClientId, p: Packet)
    requires sender in h.clients && p.kind == PUBLISH && Handled(h, sender, p).Some?
    ensures Handled(h, sender, p).value.clients[sender].filters == h.clients[sender].filters
  {
    hide ReadPublish, Encode, PublishPacket, Wants;
  }

  lemma MessagesSplit(h: Hub, sender: ClientId, calls: seq<Call>)
    ensures calls == [] ==> Messages(sender, calls) == [] && Run(h, Arrivals(sender, [])) == h
    ensures calls != [] ==> Messages(sender, calls) == Messages(sender, [calls[0]]) + Messages(sender, calls[1..])
    ensures calls != [] && !Packable(calls[0]) ==> Messages(sender, [calls[0]]) == [] && Subscribed([calls[0]]) == {}
    ensures calls == [] ==> Subscribed(calls) == {}
    ensures calls != [] ==> Subscribed(calls) == Subscribed([calls[0]]) + Subscribed(calls[1..])
  {
  }

  lemma FirstArrival(h: Hub, sender: ClientId, p: Packet, rest: seq<Packet>)
    requires sender in h.clients && Handled(h, sender, p).Some?
    ensures Run(h, Arrivals(sender, [p] + rest)) == Run(Handled(h, sender, p).value, Arrivals(sender, rest))
  {
    hide Handled;
    assert ([p] + rest)[1..] == rest;
    assert Arrivals(sender, [p] + rest)[1..] == Arrivals(sender, rest);
  }

  /** Every publish that can be encoded is handled, in order, with its topic, payload and service level; every filter
      that can be encoded is subscribed to. */
  lemma {:induction false} CallsAreHandled(h: Hub, sender: ClientId, calls: seq<Call>, packetId: nat)
    requires sender in h.clients
    ensures var after := Run(h, Arrivals(sender, CallPackets(calls, packetId)));
            sender in after.clients && after.handled == h.handled + Messages(sender, calls)
            && after.clients[sender].filters == h.clients[sender].filters + Subscribed(calls)
    decreases |calls|
  {
    hide Handled, CallPacket, Run, Arrivals, Messages, Packable, Subscribed;
    MessagesSplit(h, sender, calls);
    if calls != [] {
      var id := NextPacketId(packetId);
      var rest := CallPackets(calls[1..], id);
      if Packable(calls[0]) {
        var p := CallPacket(calls[0], id);
        CallIsHandled(h, sender, calls[0], id);
        CallsAreHandled(Handled(h, sender, p).value, sender, calls[1..], id);
        FirstArrival(h, sender, p, rest);
      } else {
        CallsAreHandled(h, sender, calls[1..], id);
        assert [] + rest == rest;
      }
    }
  }

  /** What the broker writes back for a call made with packet id `id`: four bytes for a publish at level 1, five for a
      subscription, nothing for any other publish. */
  function AnswerTo(call: Call, id: nat): bytes
    requires id < 0x1_0000
  {
    match call
    case Publish(m) => if m.qos == 1 then [0x40, 2, id / 256, id % 256] else []
    case Subscribe(_, qos) => [0x90, 3, id / 256, id % 256, if qos == 0 then 0 else 1]
  }

  /** The answers to a series of calls, `last` being the packet id used before it: the ids count up to 65535 and start
      over at 1. */
  function AnswersTo(calls: seq<Call>, last: nat): bytes
    requires last <= 65535
  {
    if calls == [] then []
    else
      var id := if last == 65535 then 1 else last + 1;
      (if Packable(calls[0]) then AnswerTo(calls[0], id) else []) + AnswersTo(calls[1..], id)
  }

  lemma CallIsAnswered(h: Hub, sender: ClientId, call: Call, id: nat)
    requires sender in h.clients && Packable(call) && id < 0x1_0000
    ensures var r := Handled(h, sender, CallPacket(call, id));
            r.Some? && sender in r.value.clients
            && r.value.clients[sender].written == h.clients[sender].written + AnswerTo(call, id)
  {
    hide Handled, PublishBody;
    match call
    case Publish(m) => PublishCopies(h, sender, m, id, sender);
    case Subscribe(f, qos) =>
      var fs := [(f, qos)];
      OneFilter(id, f, qos);
      SubscribeAdds(h, sender, 2, id, fs);
      assert [0x90, 3, id / 256, id % 256] + Levels(fs) == AnswerTo(call, id);
  }

  lemma OneFilter(id: nat, f: bytes, qos: QoS)
    requires id < 0x1_0000 && |f| < 0x1_0000
    ensures Encodable([(f, qos)]) && SubscribeBody(id, f, qos) == [id / 256, id % 256] + FilterList([(f, qos)], true)
  {
    hide EncodeString;
    assert [(f, qos)][1..] == [];
    assert FilterList([], true) == [];
    assert FilterList([(f, qos)], true) == EncodeString(f).value + [qos] + [];
  }

  /** Over any series of calls the broker writes back to the client, in order, the acknowledgement of every publish at
      level 1 and of every subscription, each under the id of its own call. */
  lemma {:induction false} CallsAreAnswered(h: Hub, sender: ClientId, calls: seq<Call>, last: nat)
    requires sender in h.clients && last <= 65535
    ensures var after := Run(h, Arrivals(sender, CallPackets(calls, last)));
            sender in after.clients && after.clients[sender].written == h.clients[sender].written + AnswersTo(calls, last)
    decreases |calls|
  {
    hide Handled, CallPacket, Run, Arrivals, Packable, AnswerTo, AnswersTo;
    var written := h.clients[sender].written;
    FirstAnswer(calls, last, written);
    if calls == [] {
      NothingArrives(h, sender);
    } else {
      var id := NextPacketId(last);
      var rest := CallPackets(calls[1..], id);
      if Packable(calls[0]) {
        var p := CallPacket(calls[0], id);
        CallIsAnswered(h, sender, calls[0], id);
        var next := Handled(h, sender, p).value;
        CallsAreAnswered(next, sender, calls[1..], id);
        FirstArrival(h, sender, p, rest);
      } else {
        CallsAreAnswered(h, sender, calls[1..], id);
        assert [] + rest == rest;
      }
    }
  }

  lemma FirstAnswer(calls: seq<Call>, last: nat, written: bytes)
    requires last <= 65535
    ensures calls == [] ==> written + AnswersTo(calls, last) == written
    ensures calls != [] ==>
      var id := NextPacketId(last);
      written + AnswersTo(calls, last) ==
      (if Packable(calls[0]) then written + AnswerTo(calls[0], id) else written) + AnswersTo(calls[1..], id)
  {
    hide AnswerTo, Packable, NextPacketId;
    IdAfter(last);
    if calls != [] {
      var id := NextPacketId(last);
      var rest := AnswersTo(calls[1..], id);
      Regrouped(written, if Packable(calls[0]) then AnswerTo(calls[0], id) else [], rest);
    }
  }

  lemma IdAfter(last: nat)
    requires last <= 65535
    ensures NextPacketId(last) == if last == 65535 then 1 else last + 1
  {
  }

  lemma Regrouped(a: bytes, b: bytes, c: bytes)
    ensures a + (b + c) == (a + b) + c && a + [] == a
  {
  }

  lemma NothingArrives(h: Hub, sender: ClientId)
    ensures Run(h, Arrivals(sender, [])) == h
  {
  }

  /** The bytes of any calls, fragmented anyhow and cut off anywhere in a last packet, give exactly the calls'
      messages. */
  lemma ClientToBroker(h: Hub, sender: ClientId, calls: seq<Call>, packetId: nat, tail: bytes)
    requires sender in h.clients && ReadFrame(tail).None?
    ensures Served(h, sender, Packets(EncodeAll(CallPackets(calls, packetId)) + tail)).handled == h.handled + Messages(sender, calls)
  {
    hide CallPackets, ReadFrame, Arrivals, EncodeAll;
    var packets := CallPackets(calls, packetId);
    PacketsRoundTrip(packets, tail);
    assert Packets(tail) == [];
    assert packets + [] == packets;
    CallsAreHandled(h, sender, calls, packetId);
    RunAppend(h, Arrivals(sender, packets), [Leave(sender)]);
    var after := Run(h, Arrivals(sender, packets));
    assert Run(after, [Leave(sender)]) == Run(Step(after, Leave(sender)), []);
  }

  /** The same with both programs at work: a client writes its calls, the broker serves the connection. */
  method ServeClient(client: AsyncMqttClient, broker: Broker, sender: ClientId, calls: seq<Call>)
    requires sender in broker.clients && client.written == []
    modifies client, broker
    ensures broker.handled == old(broker.handled) + Messages(sender, calls)
    ensures broker.clients.Keys == old(broker.clients.Keys) - {sender}
  {
    hide Served, Packets, Messages, CallPackets, ReadFrame, EncodeAll;
    ghost var h, packetId := broker.State(), client.packetId;
    client.SendAll(calls);
    var stream := client.written;
    assert [] + EncodeAll(CallPackets(calls, packetId)) == stream == EncodeAll(CallPackets(calls, packetId)) + [];
    NothingToRead();
    ClientToBroker(h, sender, calls, packetId, []);
    SenderLeaves(h, sender, Packets(stream));
    var reader := new StreamReader(stream);
    broker.HandleConnection(reader, sender);
  }

  lemma NothingToRead()
    ensures ReadFrame([]).None?
  {
  }

  /** Serving one connection removes its client and no other. */
  lemma {:induction false} SenderLeaves(h: Hub, sender: ClientId, packets: seq<Packet>)
    requires sender in h.clients
    ensures Served(h, sender, packets).clients.Keys == h.clients.Keys - {sender}
    decreases |packets|
  {
    hide Handled, Served;
    ServedStep(h, sender, packets);
    if packets != [] && Handled(h, sender, packets[0]).Some? {
      SenderLeaves(Handled(h, sender, packets[0]).value, sender, packets[1..]);
    }
  }

  // ----- From the broker to a client -----

  /** The packets one event makes the broker write to client `b`. */
  ghost function Outgoing(h: Hub, e: Event, b: ClientId): seq<Packet>
    requires b in h.clients
  {
    match e
    case Join(_) => []
    case Leave(_) => []
    case Announce(m) =>
      if |m.topic| < 0x1_0000 && Wants(h.clients[b].filters, m.topic) then [PublishPacket(m, 0)] else []
    case Arrive(sender, p) =>
      if sender !in h.clients || Handled(h, sender, p).None? then []
      else if sender == b then Answers(p)
      else if p.kind != PUBLISH then []
      else
        var r := ReadPublish(p.flags, p.body);
        if r.Some? && Wants(h.clients[b].filters, r.value.topic) then [PublishPacket(Forwarded(r.value), 0)] else []
  }

  function Answers(p: Packet): seq<Packet> {
    if p.kind == PUBLISH then
      var r := ReadPublish(p.flags, p.body);
      if r.Some? && r.value.qos == 1 then [Packet(PUBACK, 0, Word(PublishId(p.body)))] else []
    else if p.kind == SUBSCRIBE then
      var fs := ReadSubscribe(p.body);
      if fs.Some? then [Packet(SUBACK, 0, Word(WordAt(p.body, 0)) + Granted(fs.value))] else []
    else if p.kind == UNSUBSCRIBE then
      var fs := ReadUnsubscribe(p.body);
      if fs.Some? then [Packet(UNSUBACK, 0, Word(WordAt(p.body, 0)))] else []
    else if p.kind == PINGREQ then [Packet(PINGRESP, 0, [])]
    else []
  }

  /** The messages client `b` ought to be given: every other client's publishes and the platform's, if it has a filter
      for them. */
  ghost function Expected(h: Hub, e: Event, b: ClientId): seq<Received>
    requires b in h.clients
  {
    match e
    case Join(_) => []
    case Leave(_) => []
    case Announce(m) =>
      if |m.topic| < 0x1_0000 && Wants(h.clients[b].filters, m.topic) then [Received(m.topic, m.payload, m.qos)] else []
    case Arrive(sender, p) =>
      if sender !in h.clients || sender == b || p.kind != PUBLISH then []
      else
        var r := ReadPublish(p.flags, p.body);
        if r.Some? && Wants(h.clients[b].filters, r.value.topic) then [r.value.(qos := if r.value.qos == 0 then 0 else 1)] else []
  }

  /** Client `b` neither reconnects nor subscribes to so many filters at once that the answer's length byte overflows.
      */
  predicate Modest(e: Event, b: ClientId) {
    match e
    case Join(c) => c != b
    case Leave(_) => true
    case Announce(_) => true
    case Arrive(sender, p) =>
      sender == b && p.kind == SUBSCRIBE ==> var fs := ReadSubscribe(p.body); fs.Some? ==> |fs.value| <= 125
  }

  /** The repository's own client names one filter at a time, so its calls never overflow an answer. */
  lemma {:induction false} OwnCallsModest(b: ClientId, calls: seq<Call>, packetId: nat)
    ensures forall e :: e in Arrivals(b, CallPackets(calls, packetId)) ==> Modest(e, b)
    decreases |calls|
  {
    hide CallPacket, Modest;
    if calls != [] {
      var id := NextPacketId(packetId);
      var rest := CallPackets(calls[1..], id);
      OwnCallsModest(b, calls[1..], id);
      if Packable(calls[0]) {
        var p := CallPacket(calls[0], id);
        OwnCallModest(b, calls[0], id);
        assert ([p] + rest)[1..] == rest;
        assert Arrivals(b, [p] + rest) == [Arrive(b, p)] + Arrivals(b, rest);
      } else {
        assert [] + rest == rest;
      }
    }
  }

  lemma OwnCallModest(b: ClientId, call: Call, packetId: nat)
    requires Packable(call) && packetId < 0x1_0000
    ensures Modest(Arrive(b, CallPacket(call, packetId)), b)
  {
    hide ReadSubscribe, SubscribeBody, PublishBody;
    if call.Subscribe? {
      SubscribeRoundTrip(packetId, call.filter, call.qos);
    }
  }

  lemma OnePacket(p: Packet)
    ensures EncodeAll([p]) == Encode(p)
  {
    assert EncodeAll([p][1..]) == [];
  }

  /** `after` is `before` followed by the packets, but for `missing` bytes of their lengths. */
  ghost predicate WrittenBut(before: bytes, packets: seq<Packet>, missing: nat, after: bytes) {
    && |after| + missing == |before| + |EncodeAll(packets)|
    && (missing == 0 ==> after == before + EncodeAll(packets))
  }

  function Missing(e: Event, b: ClientId): nat {
    if Modest(e, b) then 0 else 1
  }

  /** The bytes written to the sender are the answer's packet if and only if no more than 125 filters are answered;
      otherwise one byte is missing. */
  lemma AnswerBytes(h: Hub, b: ClientId, p: Packet)
    requires b in h.clients && Handled(h, b, p).Some?
    ensures var after := Handled(h, b, p).value.clients[b].written;
            && (after == h.clients[b].written + EncodeAll(Answers(p)) <==> Modest(Arrive(b, p), b))
            && WrittenBut(h.clients[b].written, Answers(p), Missing(Arrive(b, p), b), after)
  {
    hide Routed, ReadPublish, ReadSubscribe, ReadUnsubscribe, PublishPacket;
    var written := h.clients[b].written;
    assert written + [] == written;
    if Answers(p) != [] {
      OnePacket(Answers(p)[0]);
      if p.kind == PUBLISH {
        AckIsFrame(PUBACK, PublishId(p.body));
        SenderUntouched(h.clients[b := Written(h.clients[b], Ack(PUBACK, PublishId(p.body)))], b,
          ReadPublish(p.flags, p.body).value.topic, Encode(PublishPacket(Forwarded(ReadPublish(p.flags, p.body).value), 0)));
      } else if p.kind == SUBSCRIBE {
        SubackIsFrameIff(WordAt(p.body, 0), Granted(ReadSubscribe(p.body).value));
      } else if p.kind == UNSUBSCRIBE {
        AckIsFrame(UNSUBACK, WordAt(p.body, 0));
      } else {
        assert EncodeLength(0) == [0];
      }
    } else if p.kind == PUBLISH {
      SenderUntouched(h.clients, b,
        ReadPublish(p.flags, p.body).value.topic, Encode(PublishPacket(Forwarded(ReadPublish(p.flags, p.body).value), 0)));
    }
  }

  lemma SenderUntouched(clients: map<ClientId, Session>, b: ClientId, topic: bytes, packet: bytes)
    requires b in clients
    ensures b in Routed(clients, Some(b), topic, packet) && Routed(clients, Some(b), topic, packet)[b] == clients[b]
  {
  }

  /** What any event makes the broker write to a client is whole packets exactly when it is not the client's own
      subscription to more than 125 filters. */
  lemma StepBytes(h: Hub, e: Event, b: ClientId)
    requires b in h.clients && e != Join(b) && b in Step(h, e).clients
    ensures var after := Step(h, e).clients[b].written;
            && (after == h.clients[b].written + EncodeAll(Outgoing(h, e, b)) <==> Modest(e, b))
            && WrittenBut(h.clients[b].written, Outgoing(h, e, b), Missing(e, b), after)
  {
    hide Encode, ReadPublish, ReadSubscribe, ReadUnsubscribe, Accepts, Answers;
    var written := h.clients[b].written;
    assert written + [] == written;
    if Outgoing(h, e, b) != [] {
      OnePacket(Outgoing(h, e, b)[0]);
    }
    if e.Arrive? && e.sender == b {
      AnswerBytes(h, b, e.packet);
    }
  }

  /** All packets a run makes the broker write to client `b`. */
  ghost function OutgoingAll(h: Hub, events: seq<Event>, b: ClientId): seq<Packet>
    requires b in h.clients
    decreases |events|
  {
    if events == [] || b !in Step(h, events[0]).clients then []
    else Outgoing(h, events[0], b) + OutgoingAll(Step(h, events[0]), events[1..], b)
  }

  function MissingAll(events: seq<Event>, b: ClientId): nat {
    if events == [] then 0 else Missing(events[0], b) + MissingAll(events[1..], b)
  }

  lemma {:induction false} NoneMissingIff(events: seq<Event>, b: ClientId)
    ensures MissingAll(events, b) == 0 <==> forall e :: e in events ==> Modest(e, b)
  {
    hide Modest;
    if events != [] {
      NoneMissingIff(events[1..], b);
      assert events == [events[0]] + events[1..];
    }
  }

  lemma {:induction false} RunBytes(h: Hub, events: seq<Event>, b: ClientId)
    requires b in h.clients && b in Run(h, events).clients && Join(b) !in events
    ensures WrittenBut(h.clients[b].written, OutgoingAll(h, events, b), MissingAll(events, b), Run(h, events).clients[b].written)
    decreases |events|
  {
    hide Modest, Missing, EncodeAll, Outgoing, Step;
    if events == [] {
      NothingEncoded(h.clients[b].written);
    } else {
      var e, next := events[0], Step(h, events[0]);
      assert e in events;
      if b !in next.clients {
        OnceGone(next, events[1..], b);
      } else {
        StepBytes(h, e, b);
        RunBytes(next, events[1..], b);
        EncodeAllAppend(Outgoing(h, e, b), OutgoingAll(next, events[1..], b));
      }
    }
  }

  lemma NothingEncoded(s: bytes)
    ensures EncodeAll([]) == [] && s + [] == s
  {
  }

  /** Over any interleaving, the bytes written to a client that stays connected are its packets, one after another, if
      and only if it never subscribed to more than 125 filters at once. */
  lemma RunBytesIff(h: Hub, events: seq<Event>, b: ClientId)
    requires b in h.clients && b in Run(h, events).clients && Join(b) !in events
    ensures Run(h, events).clients[b].written == h.clients[b].written + EncodeAll(OutgoingAll(h, events, b))
            <==> forall e :: e in events ==> Modest(e, b)
  {
    hide Modest, EncodeAll, OutgoingAll, Run, MissingAll;
    RunBytes(h, events, b);
    NoneMissingIff(events, b);
  }

  /** `n` times the filter "a" with service level 0. */
  function Entries(n: nat): bytes {
    if n == 0 then [] else [0, 1, 97, 0] + Entries(n - 1)
  }

  lemma {:induction false} EntriesRead(prefix: bytes, n: nat)
    ensures var fs := ReadFilters(prefix + Entries(n), |prefix|, true);
            fs.Some? && |fs.value| == n && forall f :: f in fs.value ==> f == ([97], 0)
    decreases n
  {
    var body := prefix + Entries(n);
    if n > 0 {
      var rest := [0] + Entries(n - 1);
      assert EncodeString([97]).value == [0, 1, 97];
      assert body == prefix + EncodeString([97]).value + rest;
      StringRoundTrip(prefix, [97], rest);
      assert body == prefix + [0, 1, 97, 0] + Entries(n - 1);
      EntriesRead(prefix + [0, 1, 97, 0], n - 1);
    } else {
      assert body == prefix;
    }
  }

  /** A subscription that the broker accepts and answers with a byte missing: 126 filters in one packet. */
  lemma LongSubscription(h: Hub, b: ClientId)
    requires b in h.clients
    ensures var p := Packet(SUBSCRIBE, 2, [0, 1] + Entries(126));
            && Handled(h, b, p).Some? && !Modest(Arrive(b, p), b)
            && Handled(h, b, p).value.clients[b].written != h.clients[b].written + EncodeAll(Answers(p))
  {
    hide EncodeAll, Answers, ReadFilters;
    var p := Packet(SUBSCRIBE, 2, [0, 1] + Entries(126));
    EntriesRead([0, 1], 126);
    assert ReadSubscribe(p.body).Some? && |ReadSubscribe(p.body).value| == 126;
    AnswerBytes(h, b, p);
  }

  predicate Readable(packets: seq<Packet>) {
    forall p :: p in packets && p.kind == PUBLISH ==> ReadPublishLoosely(p.flags, p.body).Some?
  }

  lemma {:induction false} DeliveriesAppend(a: seq<Packet>, b: seq<Packet>)
    requires Readable(a)
    ensures Deliveries(a + b) == Deliveries(a) + Deliveries(b)
  {
    hide ReadPublishLoosely;
    if a == [] {
      assert a + b == b;
    } else {
      assert a[0] in a && (a + b)[1..] == a[1..] + b;
      DeliveriesAppend(a[1..], b);
    }
  }

  lemma OneDelivery(p: Packet)
    ensures p.kind != PUBLISH ==> Deliveries([p]) == []
    ensures p.kind == PUBLISH && ReadPublishLoosely(p.flags, p.body).Some? ==>
      Deliveries([p]) == [ReadPublishLoosely(p.flags, p.body).value]
  {
    hide ReadPublishLoosely;
    assert Deliveries([p][1..]) == [];
  }

  lemma StepDeliveries(h: Hub, e: Event, b: ClientId)
    requires b in h.clients
    ensures Readable(Outgoing(h, e, b)) && Deliveries(Outgoing(h, e, b)) == Expected(h, e, b)
  {
    hide ReadPublish, ReadPublishLoosely, ReadSubscribe, ReadUnsubscribe, Accepts, PublishBody, Wants, Routed;
    if Outgoing(h, e, b) != [] {
      var p := Outgoing(h, e, b)[0];
      OneDelivery(p);
      match e
      case Announce(m) => PublishRoundTrip(m, 0);
      case Arrive(sender, q) =>
        if sender != b {
          PublishRoundTrip(Forwarded(ReadPublish(q.flags, q.body).value), 0);
        }
    }
  }

  /** All the messages of a run, each judged by the filters client `b` has at that moment. */
  ghost function ExpectedAll(h: Hub, events: seq<Event>, b: ClientId): seq<Received>
    requires b in h.clients
    decreases |events|
  {
    if events == [] || b !in Step(h, events[0]).clients then []
    else Expected(h, events[0], b) + ExpectedAll(Step(h, events[0]), events[1..], b)
  }

  lemma {:induction false} OnceGone(h: Hub, events: seq<Event>, b: ClientId)
    requires b !in h.clients && Join(b) !in events
    ensures b !in Run(h, events).clients
    decreases |events|
  {
    hide Handled, Routed;
    if events != [] {
      assert events[0] in events;
      OnceGone(Step(h, events[0]), events[1..], b);
    }
  }

  lemma ModestStays(events: seq<Event>, b: ClientId)
    requires forall e :: e in events ==> Modest(e, b)
    ensures Join(b) !in events
  {
    assert !Modest(Join(b), b);
  }

  /**
    * Any interleaving of the connections' packets and the platform's announcements: a client that stays connected
    * is written well-framed packets, from which its reader recovers exactly the messages it ought to be given, in order.
    */
  lemma {:induction false} BrokerToClient(h: Hub, events: seq<Event>, b: ClientId, sent: seq<Packet>)
    requires b in h.clients && h.clients[b].written == EncodeAll(sent) && Readable(sent)
    requires b in Run(h, events).clients && forall e :: e in events ==> Modest(e, b)
    ensures Deliveries(Packets(Run(h, events).clients[b].written)) == Deliveries(sent) + ExpectedAll(h, events, b)
    decreases |events|
  {
    hide Modest, Readable, Deliveries, EncodeAll, Outgoing, Expected, Step;
    ModestStays(events, b);
    if events == [] {
      PacketsRoundTrip(sent, []);
      Whole(EncodeAll(sent));
      assert sent + [] == sent;
    } else {
      var e, next := events[0], Step(h, events[0]);
      assert e in events;
      if b !in next.clients {
        OnceGone(next, events[1..], b);
      } else {
        var out := Outgoing(h, e, b);
        StepBytes(h, e, b);
        StepDeliveries(h, e, b);
        EncodeAllAppend(sent, out);
        BothReadable(sent, out);
        DeliveriesAppend(sent, out);
        BrokerToClient(next, events[1..], b, sent + out);
      }
    }
  }

  lemma Whole(s: bytes)
    ensures s + [] == s && Packets([]) == []
  {
  }

  lemma BothReadable(a: seq<Packet>, b: seq<Packet>)
    requires Readable(a) && Readable(b)
    ensures Readable(a + b)
  {
  }

  // ----- From one client to another -----

  /** A call's message as the receiver sees it, when one of its filters takes the topic. */
  ghost function Relayed(filters: set<bytes>, calls: seq<Call>): seq<Received> {
    if calls == [] then []
    else
      var rest := Relayed(filters, calls[1..]);
      match calls[0]
      case Publish(m) =>
        if |m.topic| < 0x1_0000 && Wants(filters, m.topic) then [Received(m.topic, m.payload, if m.qos == 0 then 0 else 1)] + rest else rest
      case Subscribe(_, _) => rest
  }

  lemma RelayedOne(h: Hub, a: ClientId, b: ClientId, call: Call, packetId: nat)
    requires a != b && a in h.clients && b in h.clients && Packable(call) && packetId < 0x1_0000
    ensures var e := Arrive(a, CallPacket(call, packetId));
            Modest(e, b) && a in Step(h, e).clients && b in Step(h, e).clients
            && Step(h, e).clients[b].filters == h.clients[b].filters
            && Expected(h, e, b) == Relayed(h.clients[b].filters, [call])
  {
    hide ReadPublish, ReadSubscribe, SubscribeBody, PublishBody, Encode, Wants;
    CallIsHandled(h, a, call, packetId);
    match call
    case Publish(m) => PublishRoundTrip(m, packetId);
    case Subscribe(_, _) =>
  }

  lemma {:induction false} RelayedAll(h: Hub, a: ClientId, b: ClientId, calls: seq<Call>, packetId: nat)
    requires a != b && a in h.clients && b in h.clients
    ensures var events := Arrivals(a, CallPackets(calls, packetId));
            && (forall e :: e in events ==> Modest(e, b))
            && b in Run(h, events).clients
            && ExpectedAll(h, events, b) == Relayed(h.clients[b].filters, calls)
    decreases |calls|
  {
    hide Expected, Step, Modest, CallPacket, Wants;
    if calls != [] {
      var id := NextPacketId(packetId);
      var rest := CallPackets(calls[1..], id);
      var events := Arrivals(a, CallPackets(calls, packetId));
      if Packable(calls[0]) {
        var p := CallPacket(calls[0], id);
        RelayedOne(h, a, b, calls[0], id);
        RelayedAll(Step(h, Arrive(a, p)), a, b, calls[1..], id);
        assert CallPackets(calls, packetId)[1..] == rest;
        assert events == [Arrive(a, p)] + Arrivals(a, rest);
        assert events[1..] == Arrivals(a, rest);
        var filters := h.clients[b].filters;
        assert Relayed(filters, calls) == Relayed(filters, [calls[0]]) + Relayed(filters, calls[1..]);
      } else {
        RelayedAll(h, a, b, calls[1..], id);
        assert [] + rest == rest;
      }
    }
  }

  /** What client `a` publishes, client `b` decodes: the messages its filters take, in order, at service level at most
      1. */
  lemma ClientToClient(h: Hub, a: ClientId, b: ClientId, calls: seq<Call>, packetId: nat)
    requires a != b && a in h.clients && b in h.clients && h.clients[b].written == []
    ensures var after := Run(h, Arrivals(a, Packets(EncodeAll(CallPackets(calls, packetId)))));
            b in after.clients && Deliveries(Packets(after.clients[b].written)) == Relayed(h.clients[b].filters, calls)
  {
    hide Run, Arrivals, CallPackets, Expected, Packets, Modest;
    var packets := CallPackets(calls, packetId);
    PacketsRoundTrip(packets, []);
    Whole(EncodeAll(packets));
    assert packets + [] == packets;
    RelayedAll(h, a, b, calls, packetId);
    BrokerToClient(h, Arrivals(a, packets), b, []);
  }

  // ----- What an overlong subscription costs -----

  function Zeros(n: nat): (z: bytes)
    ensures |z| == n
  {
    seq(n, _ => 0)
  }

  /** A header byte that is no PUBLISH, followed by a length of zero, is skipped. */
  lemma EmptySkipped(header: octet, rest: bytes)
    requires header < 48
    ensures Deliveries(Packets([header, 0] + rest)) == Deliveries(Packets(rest))
  {
    var s := [header, 0] + rest;
    assert s[1..] == [0] + rest && DecodeLength(s[1..]) == Some((0, 1));
    assert s[2..2] == [] && s[2..] == rest;
    assert ReadFrame(s) == Some((Packet(header / 16, header % 16, []), rest));
    var more := Packets(rest);
    assert ([Packet(header / 16, header % 16, [])] + more)[1..] == more;
  }

  lemma {:induction false} ZerosSkipped(m: nat, rest: bytes)
    ensures Deliveries(Packets(Zeros(2 * m) + rest)) == Deliveries(Packets(rest))
  {
    hide Packets, Deliveries;
    if m == 0 {
      assert Zeros(0) + rest == rest;
    } else {
      assert Zeros(2 * m) + rest == [0, 0] + (Zeros(2 * (m - 1)) + rest);
      EmptySkipped(0, Zeros(2 * (m - 1)) + rest);
      ZerosSkipped(m - 1, rest);
    }
  }

  /** The answer to 126 filters as the client reads it: an empty packet, and its rest as more packets, the last of which
      takes the header of what follows for a length. */
  lemma AnswerMisread(granted: bytes, rest: bytes)
    requires granted == Zeros(126) && rest != [] && rest[0] < 128 && |rest| <= rest[0]
    ensures Deliveries(Packets(Suback(1, granted) + rest)) == []
  {
    hide Packets, Deliveries;
    var s := Suback(1, granted) + rest;
    var tail := [1, 0] + (Zeros(124) + ([0] + rest));
    assert s == [144, 128, 0] + tail;
    AnswerCut(s, tail);
    EmptySkipped(1, Zeros(124) + ([0] + rest));
    ZerosSkipped(62, [0] + rest);
    NothingLeft([0] + rest);
  }

  lemma AnswerCut(s: bytes, tail: bytes)
    requires s == [144, 128, 0] + tail
    ensures Deliveries(Packets(s)) == Deliveries(Packets(tail))
  {
    var length := s[1..];
    assert length[1..] == [0] + tail && DecodeLength(length[1..]) == Some((0, 1));
    assert DecodeLength(length) == Some((0, 2));
    assert s[3..3] == [] && s[3..] == tail;
    assert ReadFrame(s) == Some((Packet(9, 0, []), tail));
    var more := Packets(tail);
    assert ([Packet(9, 0, [])] + more)[1..] == more;
  }

  /** A stream that ends within a packet delivers nothing. */
  lemma NothingLeft(s: bytes)
    requires |s| >= 2 && s[1] < 128 && |s| - 2 < s[1]
    ensures Deliveries(Packets(s)) == []
  {
    assert DecodeLength(s[1..]) == Some((s[1], 1));
    assert ReadFrame(s).None?;
    assert Packets(s) == [];
  }

  /** A run in which a client is not given what it ought to be: it subscribes to 126 filters at once, the platform
      announces a message on one of them, and the client never reads it. */
  lemma LongSubscriptionLoses(h: Hub, b: ClientId)
    requires b in h.clients && h.clients[b].written == []
    ensures var events := [Arrive(b, Packet(SUBSCRIBE, 2, [0, 1] + Entries(126))), Announce(Message([97], [], 0))];
            && b in Run(h, events).clients
            && Deliveries(Packets(Run(h, events).clients[b].written)) == []
            && ExpectedAll(h, events, b) == [Received([97], [], 0)]
  {
    hide Suback, ReadFilters, Deliveries, Packets, PublishPacket, Accepts;
    var m := Message([97], [], 0);
    var p := Packet(SUBSCRIBE, 2, [0, 1] + Entries(126));
    var e1, e2 := Arrive(b, p), Announce(m);
    LongAnswer(h, b);
    var first := Step(h, e1);
    var bytes2 := Encode(PublishPacket(m, 0));
    AnnouncedBytes(m);
    AnnouncedTo(first, b, m);
    assert [e1, e2][1..] == [e2] && [e2][1..] == [];
    assert Run(h, [e1, e2]) == Run(first, [e2]) == Run(Step(first, e2), []);
    assert [] + Suback(1, Zeros(126)) == Suback(1, Zeros(126));
    AnswerMisread(Zeros(126), bytes2);
    OneExpected(h, first, e1, e2, b);
  }

  lemma LongAnswer(h: Hub, b: ClientId)
    requires b in h.clients
    ensures var next := Step(h, Arrive(b, Packet(SUBSCRIBE, 2, [0, 1] + Entries(126))));
            && b in next.clients && [97] in next.clients[b].filters
            && next.clients[b].written == h.clients[b].written + Suback(1, Zeros(126))
  {
    hide Suback, ReadFilters, Entries;
    var p := Packet(SUBSCRIBE, 2, [0, 1] + Entries(126));
    EntriesRead([0, 1], 126);
    var fs := ReadSubscribe(p.body).value;
    assert fs[0] in fs && fs[0].0 == [97];
    forall i | 0 <= i < 126 ensures Granted(fs)[i] == 0 {
      assert fs[i] in fs;
    }
    assert Granted(fs) == Zeros(126);
    assert WordAt(p.body, 0) == 1;
  }

  lemma AnnouncedBytes(m: Message)
    requires m == Message([97], [], 0)
    ensures Encode(PublishPacket(m, 0)) == [48, 3, 0, 1, 97]
  {
    assert PublishBody(m, 0) == [0, 1, 97];
    assert EncodeLength(3) == [3];
  }

  lemma AnnouncedTo(h: Hub, b: ClientId, m: Message)
    requires b in h.clients && m == Message([97], [], 0) && [97] in h.clients[b].filters
    ensures Wants(h.clients[b].filters, m.topic)
    ensures b in Step(h, Announce(m)).clients
    ensures Step(h, Announce(m)).clients[b].written == h.clients[b].written + Encode(PublishPacket(m, 0))
  {
    hide PublishPacket, Encode;
    var topic: bytes, empty: bytes := [97], [];
    assert topic[1..] == empty && Split(empty) == [empty] && [empty][1..] == [] && [topic[0]] + empty == topic;
    assert Split(topic) == [topic];
    assert [97] != [HASH];
    assert FirstHash([[97]]) == 1;
    assert Accepts(Split([97]), Split(m.topic));
  }

  lemma OneExpected(h: Hub, next: Hub, e1: Event, e2: Event, b: ClientId)
    requires b in h.clients && e1.Arrive? && e1.sender == b && next == Step(h, e1) && b in next.clients
    requires e2 == Announce(Message([97], [], 0)) && Wants(next.clients[b].filters, [97]) && b in Step(next, e2).clients
    ensures ExpectedAll(h, [e1, e2], b) == [Received([97], [], 0)]
  {
    hide Step, Wants;
    assert [e1, e2][1..] == [e2] && [e2][1..] == [];
    assert ExpectedAll(Step(next, e2), [], b) == [];
    assert ExpectedAll(next, [e2], b) == [Received([97], [], 0)] + [];
  }
}
