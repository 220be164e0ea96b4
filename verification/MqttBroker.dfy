/** The sessions of server/broker.py: what each packet does to the connected clients and what the handlers are given. */
module MqttBroker {

  import opened Common
  import opened MqttCodec
  import opened MqttTopics
  import opened MqttStream

  type ClientId = bytes

  /** A connected client: its topic filters and every byte written to it after the CONNACK. */
  datatype Session = Session(filters: set<bytes>, written: bytes)

  /** The connected clients, and the messages the platform's handlers were called with. */
  datatype Hub = Hub(clients: map<ClientId, Session>, handled: seq<(ClientId, Received)>)

  datatype Event =
    | Join(client: ClientId)
    | Arrive(sender: ClientId, packet: Packet)
    | Leave(client: ClientId)
    | Announce(message: Message)

  ghost predicate Wants(filters: set<bytes>, topic: bytes) {
    exists filter :: filter in filters && Accepts(Split(filter), Split(topic))
  }

  /** One copy to every client but `except` that has a filter for the topic, however many of its filters match. */
  ghost function Routed(clients: map<ClientId, Session>, except: Option<ClientId>, topic: bytes, packet: bytes): (r: map<ClientId, Session>)
    ensures r.Keys == clients.Keys
  {
    map c | c in clients :: Copied(clients[c], Some(c) != except, topic, packet)
  }

  ghost function Copied(s: Session, eligible: bool, topic: bytes, packet: bytes): Session {
    if eligible && Wants(s.filters, topic) then Written(s, packet) else s
  }

  lemma AllRouted(before: map<ClientId, Session>, after: map<ClientId, Session>, except: Option<ClientId>, topic: bytes, packet: bytes)
    requires after.Keys == before.Keys
    requires forall c :: c in after ==> after[c] == Copied(before[c], Some(c) != except, topic, packet)
    ensures after == Routed(before, except, topic, packet)
  {
  }

  function Written(s: Session, packet: bytes): Session {
    s.(written := s.written + packet)
  }

  function Least(a: nat, b: nat): nat {
    if a < b then a else b
  }

  /** The filters added by a SUBSCRIBE and the service levels granted for them. */
  function FilterSet(fs: seq<(bytes, octet)>): set<bytes> {
    set f | f in fs :: f.0
  }

  lemma FilterSetStep(fs: seq<(bytes, octet)>, k: nat)
    requires k < |fs|
    ensures FilterSet(fs[..k + 1]) == FilterSet(fs[..k]) + {fs[k].0}
  {
    assert fs[..k + 1] == fs[..k] + [fs[k]];
  }

  lemma NoFilters(fs: seq<(bytes, octet)>)
    requires fs == []
    ensures FilterSet(fs) == {}
  {
  }

  function Granted(fs: seq<(bytes, octet)>): (g: bytes)
    ensures |g| == |fs|
    ensures forall i :: 0 <= i < |fs| ==> g[i] == Least(fs[i].1, 1)
  {
    if fs == [] then [] else [Least(fs[0].1, 1)] + Granted(fs[1..])
  }

  /** A received message as it is sent on. */
  function Forwarded(r: Received): Message {
    Message(r.topic, r.payload, Least(r.qos, 1))
  }

  function PublishPacket(m: Message, packetId: nat): Packet
    requires |m.topic| < 0x1_0000 && packetId < 0x1_0000
  {
    Packet(PUBLISH, 2 * m.qos, PublishBody(m, packetId))
  }

  /** None is a DISCONNECT or an exception: the connection ends. */
  ghost function Handled(h: Hub, sender: ClientId, p: Packet): (r: Option<Hub>)
    requires sender in h.clients
    ensures r.Some? ==> r.value.clients.Keys == h.clients.Keys
  {
    var session := h.clients[sender];
    if p.kind == PUBLISH then
      var r := ReadPublish(p.flags, p.body);
      if r.None? then None
      else
        var acked := if r.value.qos == 1 then h.clients[sender := Written(session, Ack(PUBACK, PublishId(p.body)))] else h.clients;
        Some(Hub(Routed(acked, Some(sender), r.value.topic, Encode(PublishPacket(Forwarded(r.value), 0))), h.handled + [(sender, r.value)]))
    else if p.kind == SUBSCRIBE then
      hide ReadSubscribe, Suback, FilterSet, WordAt, Granted;
      var fs := ReadSubscribe(p.body);
      if fs.None? then None
      else
        var answer := Suback(WordAt(p.body, 0), Granted(fs.value));
        Some(h.(clients := h.clients[sender := Session(session.filters + FilterSet(fs.value), session.written + answer)]))
    else if p.kind == UNSUBSCRIBE then
      hide ReadUnsubscribe, Ack, FilterSet, WordAt;
      var fs := ReadUnsubscribe(p.body);
      if fs.None? then None
      else
        var answer := Ack(UNSUBACK, WordAt(p.body, 0));
        Some(h.(clients := h.clients[sender := Session(session.filters - FilterSet(fs.value), session.written + answer)]))
    else if p.kind == PINGREQ then
      Some(h.(clients := h.clients[sender := Written(session, [16 * PINGRESP, 0])]))
    else if p.kind == DISCONNECT then None
    else Some(h)
  }

  // ----- What each packet does -----

  /** A subscription to any list of filters adds exactly those and grants level 1 at most; one whose answer's length
      does not fit a byte ends the connection. Nobody else is touched. */
  lemma SubscribeAdds(h: Hub, sender: ClientId, flags: nibble, packetId: nat, fs: seq<(bytes, octet)>)
    requires sender in h.clients && packetId < 0x1_0000 && Encodable(fs)
    ensures var r := Handled(h, sender, Packet(8, flags, [packetId / 256, packetId % 256] + FilterList(fs, true)));
            && (r.Some? <==> |fs| <= 253)
            && (r.Some? ==>
                  && r.value.handled == h.handled && OthersKept(h, r.value, sender)
                  && (forall f :: f in r.value.clients[sender].filters
                                  <==> f in h.clients[sender].filters || exists i :: 0 <= i < |fs| && fs[i].0 == f)
                  && r.value.clients[sender].written == h.clients[sender].written
                       + ([0x90, 2 + |fs|, packetId / 256, packetId % 256] + Levels(fs)))
  {
    hide FilterList, ReadFilters, Granted, Suback, Handled, FilterSet, WordAt;
    var id: bytes := [packetId / 256, packetId % 256];
    var body := id + FilterList(fs, true);
    FilterListRead(id, fs, true);
    assert ReadFilters(body, 2, true).value == fs;
    IdOf(body, packetId);
    SubscribeHandled(h, sender, Packet(8, flags, body));
    if |fs| <= 253 {
      assert Granted(fs) == Levels(fs);
      AnswersSpelled(packetId, Granted(fs));
      FilterSetHolds(fs);
    }
  }

  lemma IdOf(body: bytes, packetId: nat)
    requires packetId < 0x1_0000 && [packetId / 256, packetId % 256] <= body
    ensures WordAt(body, 0) == packetId
  {
  }

  lemma FilterSetHolds(fs: seq<(bytes, octet)>)
    ensures forall f :: f in FilterSet(fs) <==> exists i :: 0 <= i < |fs| && fs[i].0 == f
  {
  }

  lemma SubscribeHandled(h: Hub, sender: ClientId, p: Packet)
    requires sender in h.clients && p.kind == SUBSCRIBE
    ensures var r, fs, session := Handled(h, sender, p), ReadSubscribe(p.body), h.clients[sender];
            && (r.None? <==> fs.None?)
            && (r.Some? ==> r.value == h.(clients := h.clients[sender :=
                 Session(session.filters + FilterSet(fs.value), session.written + Suback(WordAt(p.body, 0), Granted(fs.value)))]))
  {
    hide ReadSubscribe, Suback, FilterSet, WordAt, Granted;
  }

  /** Level 0 where it was asked for and level 1 otherwise. */
  function Levels(fs: seq<(bytes, octet)>): (g: bytes)
    ensures |g| == |fs|
  {
    seq(|fs|, i requires 0 <= i < |fs| => if fs[i].1 == 0 then 0 else 1)
  }

  ghost predicate OthersKept(before: Hub, after: Hub, sender: ClientId) {
    after.clients.Keys == before.clients.Keys
    && forall c :: c in before.clients && c != sender ==> after.clients[c] == before.clients[c]
  }

  /** Afterwards none of the named filters is left and all others are. */
  lemma UnsubscribeRemoves(h: Hub, sender: ClientId, flags: nibble, packetId: nat, fs: seq<(bytes, octet)>)
    requires sender in h.clients && packetId < 0x1_0000 && Encodable(fs)
    ensures var r := Handled(h, sender, Packet(10, flags, [packetId / 256, packetId % 256] + FilterList(fs, false)));
            && r.Some? && r.value.handled == h.handled && OthersKept(h, r.value, sender)
            && (forall f :: f in r.value.clients[sender].filters
                            <==> f in h.clients[sender].filters && forall i :: 0 <= i < |fs| ==> fs[i].0 != f)
            && r.value.clients[sender].written == h.clients[sender].written + [0xB0, 2, packetId / 256, packetId % 256]
  {
    hide FilterList, ReadFilters, Ack, WordAt, Handled, FilterSet;
    var id: bytes := [packetId / 256, packetId % 256];
    var body := id + FilterList(fs, false);
    FilterListRead(id, fs, false);
    var read := ReadFilters(body, 2, false).value;
    IdOf(body, packetId);
    AnswersSpelled(packetId, []);
    UnsubscribeHandled(h, sender, Packet(10, flags, body));
    FilterSetHolds(read);
    assert forall i :: 0 <= i < |fs| ==> read[i].0 == fs[i].0;
  }

  lemma UnsubscribeHandled(h: Hub, sender: ClientId, p: Packet)
    requires sender in h.clients && p.kind == UNSUBSCRIBE
    ensures var r, fs, session := Handled(h, sender, p), ReadUnsubscribe(p.body), h.clients[sender];
            && (r.None? <==> fs.None?)
            && (r.Some? ==> r.value == h.(clients := h.clients[sender :=
                 Session(session.filters - FilterSet(fs.value), session.written + Ack(UNSUBACK, WordAt(p.body, 0)))]))
  {
    hide ReadUnsubscribe, Ack, FilterSet, WordAt;
  }

  /** A ping is answered with its two bytes, a disconnect ends the connection, and any other packet that is neither a
      publish nor about filters is ignored. */
  lemma OtherPackets(h: Hub, sender: ClientId, p: Packet)
    requires sender in h.clients && p.kind !in [3, 8, 10]
    ensures Handled(h, sender, p).None? <==> p.kind == 14
    ensures p.kind == 12 ==>
      Handled(h, sender, p).value == h.(clients := h.clients[sender := h.clients[sender].(written := h.clients[sender].written + [0xD0, 0])])
    ensures p.kind != 12 && p.kind != 14 ==> Handled(h, sender, p).value == h
  {
  }

  /** The publish itself, byte by byte: to the sender its acknowledgement at level 1, to every other client that wants
      the topic one copy with level 1 at most, and to the handlers the message as it was sent. */
  lemma PublishCopies(h: Hub, sender: ClientId, m: Message, packetId: nat, c: ClientId)
    requires sender in h.clients && c in h.clients && |m.topic| < 0x1_0000 && packetId < 0x1_0000
    ensures var r := Handled(h, sender, Packet(3, 2 * m.qos, PublishBody(m, packetId)));
            && r.Some? && r.value.clients.Keys == h.clients.Keys
            && r.value.handled == h.handled + [(sender, Received(m.topic, m.payload, m.qos))]
            && r.value.clients[c].filters == h.clients[c].filters
            && r.value.clients[c].written == h.clients[c].written
                 + if c == sender then (if m.qos == 1 then [0x40, 2, packetId / 256, packetId % 256] else [])
                   else if Wants(h.clients[c].filters, m.topic) then CopyBytes(m.(qos := if m.qos == 0 then 0 else 1)) else []
  {
    hide Wants, Accepts, ReadPublish, PublishBody, PublishId, Ack, Encode;
    PublishRoundTrip(m, packetId);
    if m.qos == 1 {
      PublishIdRoundTrip(m, packetId);
      AnswersSpelled(packetId, []);
    }
    CopySpelled(m.(qos := if m.qos == 0 then 0 else 1));
    var written := h.clients[c].written;
    assert written + [] == written;
  }

  /** The platform's own message: one copy, at its own level, to every client that wants the topic. */
  lemma AnnounceCopies(h: Hub, m: Message, c: ClientId)
    requires c in h.clients && |m.topic| < 0x1_0000
    ensures var after := Step(h, Announce(m));
            && after.clients.Keys == h.clients.Keys && after.handled == h.handled
            && after.clients[c].filters == h.clients[c].filters
            && after.clients[c].written == h.clients[c].written + if Wants(h.clients[c].filters, m.topic) then CopyBytes(m) else []
  {
    hide Wants, Accepts, PublishBody, Encode;
    CopySpelled(m);
    var written := h.clients[c].written;
    assert written + [] == written;
  }

  /** A copy: type and level, the remaining length, the topic after its length, a packet id of zero above level 0, and
      the payload. */
  function CopyBytes(m: Message): bytes
    requires |m.topic| < 0x1_0000
  {
    var body := [|m.topic| / 256, |m.topic| % 256] + m.topic + (if m.qos == 0 then [] else [0, 0]) + m.payload;
    [0x30 + 2 * m.qos] + EncodeLength(|body|) + body
  }

  lemma CopySpelled(m: Message)
    requires |m.topic| < 0x1_0000
    ensures Encode(PublishPacket(m, 0)) == CopyBytes(m)
  {
    hide EncodeLength;
    assert Word(0) == [0, 0];
  }

  ghost function Closed(h: Hub, c: ClientId): Hub {
    h.(clients := h.clients - {c})
  }

  ghost function Step(h: Hub, e: Event): Hub {
    match e
    case Join(c) => h.(clients := h.clients[c := Session({}, [])])
    case Leave(c) => Closed(h, c)
    case Arrive(sender, p) =>
      if sender !in h.clients then h
      else
        var next := Handled(h, sender, p);
        if next.None? then Closed(h, sender) else next.value
    case Announce(m) =>
      if |m.topic| < 0x1_0000 then h.(clients := Routed(h.clients, None, m.topic, Encode(PublishPacket(m, 0)))) else h
  }

  ghost function Run(h: Hub, events: seq<Event>): Hub
    decreases |events|
  {
    if events == [] then h else Run(Step(h, events[0]), events[1..])
  }

  lemma {:induction false} RunAppend(h: Hub, a: seq<Event>, b: seq<Event>)
    ensures Run(h, a + b) == Run(Run(h, a), b)
    decreases |a|
  {
    hide Step;
    if a == [] {
      assert a + b == b;
    } else {
      assert (a + b)[1..] == a[1..] + b;
      RunAppend(Step(h, a[0]), a[1..], b);
    }
  }

  // ----- One connection -----

  function Arrivals(sender: ClientId, packets: seq<Packet>): seq<Event> {
    if packets == [] then [] else [Arrive(sender, packets[0])] + Arrivals(sender, packets[1..])
  }

  /** A whole connection: its packets in order, then the session is removed. */
  ghost function Served(h: Hub, sender: ClientId, packets: seq<Packet>): Hub {
    Run(h, Arrivals(sender, packets) + [Leave(sender)])
  }

  lemma {:induction false} GoneStays(h: Hub, sender: ClientId, packets: seq<Packet>)
    requires sender !in h.clients
    ensures Run(h, Arrivals(sender, packets)) == h
  {
    if packets != [] {
      assert Arrivals(sender, packets)[1..] == Arrivals(sender, packets[1..]);
      GoneStays(h, sender, packets[1..]);
    }
  }

  lemma ServedStep(h: Hub, sender: ClientId, packets: seq<Packet>)
    requires sender in h.clients
    ensures packets == [] ==> Served(h, sender, packets) == Closed(h, sender)
    ensures packets != [] && Handled(h, sender, packets[0]).None? ==> Served(h, sender, packets) == Closed(h, sender)
    ensures packets != [] && Handled(h, sender, packets[0]).Some? ==>
      Served(h, sender, packets) == Served(Handled(h, sender, packets[0]).value, sender, packets[1..])
  {
    hide Handled;
    var events := Arrivals(sender, packets) + [Leave(sender)];
    if packets == [] {
      assert events == [Leave(sender)];
      assert Run(h, events) == Run(Step(h, events[0]), []);
    } else {
      var after := Arrivals(sender, packets[1..]);
      assert events[1..] == after + [Leave(sender)];
      if Handled(h, sender, packets[0]).None? {
        var closed := Closed(h, sender);
        GoneStays(closed, sender, packets[1..]);
        RunAppend(closed, after, [Leave(sender)]);
        assert Run(closed, [Leave(sender)]) == Run(Step(closed, Leave(sender)), []);
        assert closed.clients - {sender} == closed.clients;
      }
    }
  }

  // ----- The broker -----

  class Broker {
    var clients: map<ClientId, Session>
    var handled: seq<(ClientId, Received)>

    ghost function State(): Hub
      reads this
    {
      Hub(clients, handled)
    }

    constructor ()
      ensures State() == Hub(map[], [])
    {
      clients, handled := map[], [];
    }

    /** The search through one session's filters stops at the first match. */
    method AnyMatch(filters: set<bytes>, topic: bytes) returns (found: bool)
      ensures found == Wants(filters, topic)
    {
      hide Split, Accepts;
      var rest := filters;
      while rest != {}
        invariant rest <= filters
        invariant forall f :: f in filters && f !in rest ==> !Accepts(Split(f), Split(topic))
        decreases |rest|
      {
        var f :| f in rest;
        var matches := TopicMatches(f, topic);
        if matches {
          return true;
        }
        rest := rest - {f};
      }
      return false;
    }

    method Route(except: Option<ClientId>, topic: bytes, packet: bytes)
      modifies this`clients
      ensures clients == Routed(old(clients), except, topic, packet)
    {
      hide Wants, Written, Routed;
      var rest := clients.Keys;
      while rest != {}
        invariant rest <= clients.Keys == old(clients.Keys)
        invariant forall c :: c in rest ==> clients[c] == old(clients)[c]
        invariant forall c :: c in clients && c !in rest ==> clients[c] == Copied(old(clients)[c], Some(c) != except, topic, packet)
        decreases |rest|
      {
        var c :| c in rest;
        rest := rest - {c};
        if Some(c) == except {
          continue;
        }
        var found := AnyMatch(clients[c].filters, topic);
        if found {
          clients := clients[c := Written(clients[c], packet)];
        }
      }
      AllRouted(old(clients), clients, except, topic, packet);
    }

    /** The platform's own messages go to every client with a matching filter. */
    method Publish(m: Message)
      modifies this
      ensures State() == Step(old(State()), Announce(m))
    {
      hide Routed, Encode;
      if |m.topic| < 0x1_0000 {
        Route(None, m.topic, Encode(PublishPacket(m, 0)));
      }
    }

    method HandlePublish(sender: ClientId, p: Packet) returns (ok: bool)
      requires p.kind == PUBLISH && sender in clients
      modifies this
      ensures ok == Handled(old(State()), sender, p).Some?
      ensures ok ==> State() == Handled(old(State()), sender, p).value
      ensures !ok ==> State() == old(State())
    {
      hide Routed, Encode, Ack, ReadPublish;
      var r := ReadPublish(p.flags, p.body);
      if r.None? {
        return false;
      }
      if r.value.qos == 1 {
        clients := clients[sender := Written(clients[sender], Ack(PUBACK, PublishId(p.body)))];
      }
      Route(Some(sender), r.value.topic, Encode(PublishPacket(Forwarded(r.value), 0)));
      handled := handled + [(sender, r.value)];
      return true;
    }

    method HandleSubscribe(sender: ClientId, p: Packet) returns (ok: bool)
      requires p.kind == SUBSCRIBE && sender in clients
      modifies this
      ensures ok == Handled(old(State()), sender, p).Some?
      ensures ok ==> State() == Handled(old(State()), sender, p).value
      ensures !ok ==> State() == old(State())
    {
      hide ReadSubscribe, Suback, FilterSet, WordAt, Granted;
      var fs := ReadSubscribe(p.body);
      if fs.None? {
        return false;
      }
      var session := clients[sender];
      var filters, granted: bytes, k := session.filters, [], 0;
      NoFilters(fs.value[..0]);
      while k < |fs.value|
        invariant 0 <= k <= |fs.value| && State() == old(State())
        invariant filters == session.filters + FilterSet(fs.value[..k])
        invariant granted == Granted(fs.value)[..k]
      {
        FilterSetStep(fs.value, k);
        filters := filters + {fs.value[k].0};
        granted := granted + [Least(fs.value[k].1, 1)];
        k := k + 1;
      }
      assert fs.value[..k] == fs.value && granted == Granted(fs.value);
      var answer := Suback(WordAt(p.body, 0), granted);
      clients := clients[sender := Session(filters, session.written + answer)];
      return true;
    }

    method HandleUnsubscribe(sender: ClientId, p: Packet) returns (ok: bool)
      requires p.kind == UNSUBSCRIBE && sender in clients
      modifies this
      ensures ok == Handled(old(State()), sender, p).Some?
      ensures ok ==> State() == Handled(old(State()), sender, p).value
      ensures !ok ==> State() == old(State())
    {
      hide ReadUnsubscribe, Ack, FilterSet, WordAt;
      var fs := ReadUnsubscribe(p.body);
      if fs.None? {
        return false;
      }
      var session := clients[sender];
      var filters, k := session.filters, 0;
      NoFilters(fs.value[..0]);
      while k < |fs.value|
        invariant 0 <= k <= |fs.value| && State() == old(State())
        invariant filters == session.filters - FilterSet(fs.value[..k])
      {
        FilterSetStep(fs.value, k);
        filters := filters - {fs.value[k].0};
        k := k + 1;
      }
      assert fs.value[..k] == fs.value;
      clients := clients[sender := Session(filters, session.written + Ack(UNSUBACK, WordAt(p.body, 0)))];
      return true;
    }

    method HandlePacket(sender: ClientId, p: Packet) returns (ok: bool)
      requires sender in clients
      modifies this
      ensures ok == Handled(old(State()), sender, p).Some?
      ensures ok ==> State() == Handled(old(State()), sender, p).value
      ensures !ok ==> State() == old(State())
    {
      hide ReadPublish, ReadSubscribe, ReadUnsubscribe, Routed, Encode, Ack, Suback;
      if p.kind == PUBLISH {
        ok := HandlePublish(sender, p);
      } else if p.kind == SUBSCRIBE {
        ok := HandleSubscribe(sender, p);
      } else if p.kind == UNSUBSCRIBE {
        ok := HandleUnsubscribe(sender, p);
      } else if p.kind == PINGREQ {
        clients := clients[sender := Written(clients[sender], [16 * PINGRESP, 0])];
        ok := true;
      } else {
        ok := p.kind != DISCONNECT;
      }
    }

    /** Header byte, length bytes, body; None when the connection breaks first. */
    method ReadPacket(reader: StreamReader) returns (r: Option<Packet>)
      modifies reader
      ensures ReadFrame(old(reader.pending)).None? ==> r.None?
      ensures ReadFrame(old(reader.pending)).Some? ==>
        r == Some(ReadFrame(old(reader.pending)).value.0) && reader.pending == ReadFrame(old(reader.pending)).value.1
    {
      hide DecodeLength;
      ghost var s := reader.pending;
      var header := reader.Read(1);
      if header == [] {
        return None;
      }
      assert s == header + reader.pending && s[1..] == reader.pending;
      var lengthBytes := reader.ReadLengthBytes();
      if lengthBytes.None? {
        return None;
      }
      assert lengthBytes.value[0..] == lengthBytes.value;
      var length := DecodeRemainingLength(lengthBytes.value, 0);
      FrameFrom(s, lengthBytes.value, reader.pending, length.value.0);
      var body: bytes := [];
      if length.value.0 > 0 {
        var exact := reader.ReadExact(length.value.0);
        if exact.None? {
          return None;
        }
        body := exact.value;
      }
      return Some(Packet(header[0] / 16, header[0] % 16, body));
    }

    /** Whatever the bytes and however they are fragmented, the session does what its packets say. */
    method HandleConnection(reader: StreamReader, sender: ClientId)
      requires sender in clients
      modifies this, reader
      ensures State() == Served(old(State()), sender, Packets(old(reader.pending)))
    {
      hide Handled, Served, ReadFrame, Closed;
      while true
        invariant sender in clients
        invariant Served(State(), sender, Packets(reader.pending)) == Served(old(State()), sender, Packets(old(reader.pending)))
        decreases |reader.pending|
      {
        ServedStep(State(), sender, Packets(reader.pending));
        var p := ReadPacket(reader);
        if p.None? {
          break;
        }
        var ok := HandlePacket(sender, p.value);
        if !ok {
          break;
        }
      }
      ClosedState(State(), sender);
      clients := clients - {sender};
    }
  }

  lemma ClosedState(h: Hub, c: ClientId)
    ensures Closed(h, c) == Hub(h.clients - {c}, h.handled)
  {
  }
}
