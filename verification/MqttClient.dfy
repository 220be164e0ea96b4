/** The AsyncMQTTClient of server/simulator.py: what it writes, and what it reads back from the broker. */
module MqttClient {

  import opened Common
  import opened MqttCodec
  import opened MqttStream
  import opened MqttBroker

  datatype Call = Publish(message: Message) | Subscribe(filter: bytes, qos: QoS)

  /** A text above 65535 bytes cannot be packed: the call fails, after it has taken a packet id. */
  predicate Packable(call: Call) {
    |match call case Publish(m) => m.topic case Subscribe(f, _) => f| < 0x1_0000
  }

  function CallPacket(call: Call, packetId: nat): Packet
    requires Packable(call) && packetId < 0x1_0000
  {
    match call
    case Publish(m) => PublishPacket(m, packetId)
    case Subscribe(f, qos) => Packet(SUBSCRIBE, 2, SubscribeBody(packetId, f, qos))
  }

  /** The packets of a series of calls; every call takes the next packet id. */
  function CallPackets(calls: seq<Call>, packetId: nat): seq<Packet> {
    if calls == [] then []
    else
      var id := NextPacketId(packetId);
      (if Packable(calls[0]) then [CallPacket(calls[0], id)] else []) + CallPackets(calls[1..], id)
  }

  /** What the read loop hands to the message callback; an unreadable PUBLISH ends it. */
  function Deliveries(packets: seq<Packet>): seq<Received> {
    if packets == [] then []
    else if packets[0].kind != PUBLISH then Deliveries(packets[1..])
    else
      var r := ReadPublishLoosely(packets[0].flags, packets[0].body);
      if r.None? then [] else [r.value] + Deliveries(packets[1..])
  }

  class AsyncMqttClient {
    var packetId: nat
    var written: bytes
    var delivered: seq<Received>

    constructor ()
      ensures packetId == 0 && written == [] && delivered == []
    {
      packetId, written, delivered := 0, [], [];
    }

    method Send(call: Call) returns (ok: bool)
      modifies this
      ensures packetId == NextPacketId(old(packetId)) && delivered == old(delivered) && ok == Packable(call)
      ensures written == old(written) + if ok then Encode(CallPacket(call, packetId)) else []
    {
      hide CallPacket, Encode, Packable, NextPacketId;
      packetId := NextPacketId(packetId);
      ok := Packable(call);
      if ok {
        Write(CallPacket(call, packetId));
      }
    }

    method Write(p: Packet)
      modifies this`written
      ensures written == old(written) + Encode(p)
    {
      hide EncodeLength;
      var length := EncodeRemainingLength(|p.body|);
      written := written + ([16 * p.kind + p.flags] + length + p.body);
    }

    method SendAll(calls: seq<Call>)
      modifies this
      ensures written == old(written) + EncodeAll(CallPackets(calls, old(packetId)))
    {
      hide Encode, CallPacket, Packable;
      var k := 0;
      while k < |calls|
        invariant 0 <= k <= |calls|
        invariant written + EncodeAll(CallPackets(calls[k..], packetId)) == old(written) + EncodeAll(CallPackets(calls, old(packetId)))
      {
        ghost var before, id := written, packetId;
        var ok := Send(calls[k]);
        FirstCall(calls[k..], id, before);
        assert calls[k..][1..] == calls[k + 1..];
        k := k + 1;
      }
    }

    /** The client's own decoding: a loop over the collected bytes with its own multiplier. */
    method LengthOf(lengthBytes: bytes) returns (value: nat)
      requires DecodeLength(lengthBytes).Some? && DecodeLength(lengthBytes).value.1 == |lengthBytes|
      ensures value == DecodeLength(lengthBytes).value.0
    {
      hide Resumed, Times, DecodeLength;
      var mult, k := 1, 0;
      value := 0;
      ResumedEnds(lengthBytes, 0, 1, 0);
      assert lengthBytes[0..] == lengthBytes;
      while k < |lengthBytes|
        invariant 0 <= k <= |lengthBytes| && mult >= 1
        invariant k < |lengthBytes| ==> Resumed(DecodeLength(lengthBytes[k..]), value, mult, k) == DecodeLength(lengthBytes)
        invariant k == |lengthBytes| ==> DecodeLength(lengthBytes) == Some((value, k))
      {
        ResumedStep(lengthBytes[k..], value, mult, k);
        ResumedEnds(lengthBytes, value + Times(lengthBytes[k] % 128, mult), mult * 128, k + 1);
        assert lengthBytes[k..][1..] == lengthBytes[k + 1..];
        value := value + Times(lengthBytes[k] % 128, mult);
        mult := mult * 128;
        k := k + 1;
      }
    }

    method ReadPacket(reader: StreamReader) returns (r: Option<Packet>)
      modifies reader
      ensures ReadFrame(old(reader.pending)).None? ==> r.None?
      ensures ReadFrame(old(reader.pending)).Some? ==>
        r == Some(ReadFrame(old(reader.pending)).value.0) && reader.pending == ReadFrame(old(reader.pending)).value.1
    {
      hide DecodeLength;
      ghost var s := reader.pending;
      var header := reader.Read(1);
      if header == [] {
        return None;
      }
      assert s == header + reader.pending && s[1..] == reader.pending;
      var lengthBytes := reader.ReadLengthBytes();
      if lengthBytes.None? {
        return None;
      }
      var length := LengthOf(lengthBytes.value);
      FrameFrom(s, lengthBytes.value, reader.pending, length);
      var body: bytes := [];
      if length > 0 {
        var exact := reader.ReadExact(length);
        if exact.None? {
          return None;
        }
        body := exact.value;
      }
      return Some(Packet(header[0] / 16, header[0] % 16, body));
    }

    /** Whatever the bytes and however they are fragmented, the callback is given what the packets say. */
    method ReadLoop(reader: StreamReader)
      modifies this, reader
      ensures delivered == old(delivered) + Deliveries(Packets(old(reader.pending)))
    {
      hide ReadFrame;
      while true
        invariant delivered + Deliveries(Packets(reader.pending)) == old(delivered) + Deliveries(Packets(old(reader.pending)))
        decreases |reader.pending|
      {
        var p := ReadPacket(reader);
        if p.None? {
          break;
        }
        if p.value.kind == PUBLISH {
          var r := ReadPublishLoosely(p.value.flags, p.value.body);
          if r.None? {
            break;
          }
          delivered := delivered + [r.value];
        }
      }
    }
  }

  lemma FirstCall(calls: seq<Call>, packetId: nat, before: bytes)
    requires calls != []
    ensures var id := NextPacketId(packetId);
            before + EncodeAll(CallPackets(calls, packetId)) ==
            (before + if Packable(calls[0]) then Encode(CallPacket(calls[0], id)) else []) + EncodeAll(CallPackets(calls[1..], id))
  {
    hide Encode, CallPacket, NextPacketId, Packable;
    var rest := CallPackets(calls[1..], NextPacketId(packetId));
    if Packable(calls[0]) {
      var p := CallPacket(calls[0], NextPacketId(packetId));
      assert ([p] + rest)[1..] == rest;
    } else {
      assert [] + rest == rest;
    }
  }
}
