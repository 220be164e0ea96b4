/** The MQTT 3.1.1 codec of server/broker.py and of its peer in server/simulator.py. Text is kept as its UTF-8 bytes. */
module MqttCodec {

  import opened Common

  type bytes = seq<octet>

  // ----- Remaining length (section 2.2.3 of MQTT 3.1.1) -----

  /** Seven bits to a byte, least significant first, the top bit set on all but the last byte. */
  function EncodeLength(n: nat): (b: bytes)
    ensures |b| >= 1
  {
    if n < 128 then [n] else [n % 128 + 128] + EncodeLength(n / 128)
  }

  /** The number at the front of `data` and how many bytes it takes; None when the data ends first. */
  function DecodeLength(data: bytes): (r: Option<(nat, nat)>)
    ensures r.Some? ==> 1 <= r.value.1 <= |data|
  {
    if data == [] then None
    else if data[0] < 128 then Some((data[0], 1))
    else
      var rest := DecodeLength(data[1..]);
      if rest.None? then None else Some((data[0] - 128 + 128 * rest.value.0, rest.value.1 + 1))
  }

  /** Decoding recovers the number, whatever follows, and consumes exactly its own bytes. */
  lemma {:induction false} LengthRoundTrip(n: nat, suffix: bytes)
    ensures DecodeLength(EncodeLength(n) + suffix) == Some((n, |EncodeLength(n)|))
  {
    var data := EncodeLength(n) + suffix;
    if n >= 128 {
      assert data[1..] == EncodeLength(n / 128) + suffix;
      LengthRoundTrip(n / 128, suffix);
      assert n == n % 128 + 128 * (n / 128);
    }
  }

  /** A number takes at most `k` bytes exactly when it is below 128^k. */
  lemma {:induction false} LengthSize(n: nat, k: nat)
    requires k >= 1
    ensures |EncodeLength(n)| <= k <==> n < Power128(k)
  {
    if n >= 128 {
      if k == 1 {
        assert Power128(1) == 128 * Power128(0);
      } else {
        LengthSize(n / 128, k - 1);
      }
    } else {
      PowerAtLeast(k);
    }
  }

  function Power128(k: nat): (p: nat) {
    if k == 0 then 1 else 128 * Power128(k - 1)
  }

  lemma {:induction false} PowerAtLeast(k: nat)
    requires k >= 1
    ensures Power128(k) >= 128
  {
    if k > 1 {
      PowerAtLeast(k - 1);
    }
  }

  /** The range of the standard: 1 to 4 bytes exactly up to 268 435 455. */
  lemma StandardRange(n: nat)
    ensures 1 <= |EncodeLength(n)| <= 4 <==> n <= 268_435_455
  {
    LengthSize(n, 4);
    assert Power128(4) == 128 * Power128(3) == 128 * (128 * Power128(2)) == 128 * (128 * (128 * Power128(1)));
    assert Power128(1) == 128 * Power128(0);
  }

  method EncodeRemainingLength(length: nat) returns (out: bytes)
    ensures out == EncodeLength(length)
  {
    out := [];
    var rest := length;
    while true
      invariant out + EncodeLength(rest) == EncodeLength(length)
      decreases rest
    {
      var b := rest % 128;
      FirstDigit(out, rest);
      rest := rest / 128;
      if rest > 0 {
        out := out + [b + 128];
      } else {
        out := out + [b];
        break;
      }
    }
  }

  lemma FirstDigit(out: bytes, n: nat)
    ensures n / 128 == 0 ==> out + EncodeLength(n) == out + [n % 128]
    ensures n / 128 > 0 ==> out + EncodeLength(n) == (out + [n % 128 + 128]) + EncodeLength(n / 128)
  {
  }

  /** What a decoding loop returns that has used `used` bytes, holds `value`, and still finds `rest`. */
  function Resumed(rest: Option<(nat, nat)>, value: nat, multiplier: nat, used: nat): Option<(nat, nat)> {
    if rest.None? then None else Some((value + Times(multiplier, rest.value.0), used + rest.value.1))
  }

  function Times(a: nat, b: nat): nat {
    a * b
  }

  lemma Distribute(multiplier: nat, digit: nat, more: nat)
    ensures Times(multiplier, digit) == Times(digit, multiplier)
    ensures Times(multiplier, digit + 128 * more) == Times(digit, multiplier) + Times(multiplier * 128, more)
  {
    assert multiplier * (digit + 128 * more) == multiplier * digit + multiplier * (128 * more);
    assert multiplier * (128 * more) == multiplier * 128 * more;
  }

  lemma ResumedEnds(data: bytes, value: nat, multiplier: nat, used: nat)
    ensures Resumed(DecodeLength(data), 0, 1, 0) == DecodeLength(data)
    ensures Resumed(DecodeLength([]), value, multiplier, used).None?
  {
  }

  lemma FirstByte(data: bytes)
    requires data != []
    ensures var digit, rest := data[0] % 128, DecodeLength(data[1..]);
            DecodeLength(data) == if data[0] < 128 then Some((digit, 1))
                                  else if rest.None? then None else Some((digit + 128 * rest.value.0, rest.value.1 + 1))
  {
  }

  lemma ResumedStep(data: bytes, value: nat, multiplier: nat, used: nat)
    requires data != []
    ensures Resumed(DecodeLength(data), value, multiplier, used) ==
            if data[0] < 128 then Some((value + Times(data[0] % 128, multiplier), used + 1))
            else Resumed(DecodeLength(data[1..]), value + Times(data[0] % 128, multiplier), multiplier * 128, used + 1)
  {
    hide Times, DecodeLength;
    var rest := DecodeLength(data[1..]);
    FirstByte(data);
    Distribute(multiplier, data[0] % 128, if rest.Some? then rest.value.0 else 0);
  }

  method DecodeRemainingLength(data: bytes, offset: nat) returns (r: Option<(nat, nat)>)
    requires offset <= |data|
    ensures r == DecodeLength(data[offset..])
  {
    hide Resumed, DecodeLength, Times;
    var multiplier, value, idx := 1, 0, offset;
    ResumedEnds(data[offset..], 0, 1, 0);
    while true
      invariant offset <= idx <= |data| && multiplier >= 1 && value >= 0
      invariant Resumed(DecodeLength(data[idx..]), value, multiplier, idx - offset) == DecodeLength(data[offset..])
      decreases |data| - idx
    {
      if idx >= |data| {
        ResumedEnds(data[offset..], value, multiplier, idx - offset);
        return None;
      }
      var b := data[idx];
      ResumedStep(data[idx..], value, multiplier, idx - offset);
      value := value + Times(b % 128, multiplier);
      idx := idx + 1;
      if b < 128 {
        break;
      }
      multiplier := multiplier * 128;
    }
    return Some((value, idx - offset));
  }

  // ----- Strings (section 1.5.3) -----

  function Word(n: nat): (w: bytes)
    requires n < 0x1_0000
    ensures |w| == 2
  {
    [n / 256, n % 256]
  }

  function WordAt(data: bytes, offset: nat): (n: nat)
    requires offset + 2 <= |data|
    ensures n < 0x1_0000
  {
    var high: nat := data[offset];
    256 * high + data[offset + 1]
  }

  /** None is the error of packing a length above 65535. */
  function EncodeString(s: bytes): (r: Option<bytes>)
    ensures r.Some? <==> |s| < 0x1_0000
    ensures r.Some? ==> |r.value| == 2 + |s|
  {
    if |s| < 0x1_0000 then Some(Word(|s|) + s) else None
  }

  /** The broker checks both bounds. */
  function DecodeString(data: bytes, offset: nat): (r: Option<(bytes, nat)>)
    ensures r.Some? ==> offset + 2 <= r.value.1 <= |data| && |r.value.0| < 0x1_0000
  {
    if offset + 2 > |data| then None
    else
      var end := offset + 2 + WordAt(data, offset);
      if end > |data| then None else Some((data[offset + 2..end], end))
  }

  /** The simulator's client lets a slice run short; only the length itself must be there. */
  function DecodeStringLoosely(data: bytes, offset: nat): Option<(bytes, nat)> {
    if offset + 2 > |data| then None
    else
      var end := offset + 2 + WordAt(data, offset);
      Some((data[offset + 2..if end <= |data| then end else |data|], end))
  }

  lemma StringRoundTrip(prefix: bytes, s: bytes, suffix: bytes)
    requires |s| < 0x1_0000
    ensures var data := prefix + EncodeString(s).value + suffix;
            var r := Some((s, |prefix| + 2 + |s|));
            DecodeString(data, |prefix|) == r && DecodeStringLoosely(data, |prefix|) == r
            && data[|prefix| + 2 + |s|..] == suffix
  {
    var data := prefix + EncodeString(s).value + suffix;
    assert data[|prefix|] == |s| / 256 && data[|prefix| + 1] == |s| % 256;
    assert WordAt(data, |prefix|) == |s|;
    assert data[|prefix| + 2..|prefix| + 2 + |s|] == s;
  }

  // ----- PUBLISH (section 3.3) -----

  type QoS = q: nat | q <= 2

  datatype Message = Message(topic: bytes, payload: bytes, qos: QoS)

  const PUBLISH: nat := 3
  const SUBSCRIBE: nat := 8
  const UNSUBSCRIBE: nat := 10
  const PINGREQ: nat := 12
  const DISCONNECT: nat := 14

  function PublishBody(m: Message, packetId: nat): bytes
    requires |m.topic| < 0x1_0000 && packetId < 0x1_0000
  {
    EncodeString(m.topic).value + (if m.qos > 0 then Word(packetId) else []) + m.payload
  }

  function Frame(kind: nat, flags: nat, body: bytes): bytes
    requires kind < 16 && flags < 16
  {
    [16 * kind + flags] + EncodeLength(|body|) + body
  }

  function NextPacketId(id: nat): (next: nat)
    ensures 1 <= next <= 65535
  {
    id % 65535 + 1
  }

  datatype Received = Received(topic: bytes, payload: bytes, qos: nat)

  /** The broker's reading of a PUBLISH body; None is an exception, which closes the connection. */
  function ReadPublish(flags: nat, body: bytes): (r: Option<Received>)
    ensures r.Some? ==> |r.value.topic| < 0x1_0000
  {
    var qos := flags / 2 % 4;
    var topic := DecodeString(body, 0);
    if topic.None? then None
    else if qos == 0 then Some(Received(topic.value.0, body[topic.value.1..], 0))
    else if topic.value.1 + 2 > |body| then None
    else Some(Received(topic.value.0, body[topic.value.1 + 2..], qos))
  }

  /** The packet id a PUBACK answers with. */
  function PublishId(body: bytes): (id: nat)
    ensures id < 0x1_0000
  {
    var topic := DecodeString(body, 0);
    if topic.Some? && topic.value.1 + 2 <= |body| then WordAt(body, topic.value.1) else 0
  }

  /** The client's reading: the packet id is skipped without looking. */
  function ReadPublishLoosely(flags: nat, body: bytes): Option<Received> {
    var qos := flags / 2 % 4;
    var topic := DecodeStringLoosely(body, 0);
    if topic.None? then None
    else
      var from := if qos > 0 then topic.value.1 + 2 else topic.value.1;
      Some(Received(topic.value.0, if from <= |body| then body[from..] else [], qos))
  }

  /** Either side reads back what either side wrote, whatever packet id was used. */
  lemma PublishRoundTrip(m: Message, packetId: nat)
    requires |m.topic| < 0x1_0000 && packetId < 0x1_0000
    ensures var r := Some(Received(m.topic, m.payload, m.qos));
            ReadPublish(2 * m.qos, PublishBody(m, packetId)) == r
            && ReadPublishLoosely(2 * m.qos, PublishBody(m, packetId)) == r
  {
    hide Word, WordAt;
    var body, id := PublishBody(m, packetId), if m.qos > 0 then Word(packetId) else [];
    assert body == [] + EncodeString(m.topic).value + (id + m.payload);
    StringRoundTrip([], m.topic, id + m.payload);
    var from := 2 + |m.topic|;
    assert body[from..] == id + m.payload;
    assert body[from + |id|..] == body[from..][|id|..] == m.payload;
  }

  /** The id a publish was given is the id it is answered with. */
  lemma PublishIdRoundTrip(m: Message, packetId: nat)
    requires |m.topic| < 0x1_0000 && packetId < 0x1_0000 && m.qos > 0
    ensures PublishId(PublishBody(m, packetId)) == packetId
  {
    hide EncodeString, DecodeString;
    var body := PublishBody(m, packetId);
    var id := Word(packetId);
    assert body == [] + EncodeString(m.topic).value + (id + m.payload);
    StringRoundTrip([], m.topic, id + m.payload);
    var from := 2 + |m.topic|;
    assert body[from..] == id + m.payload;
    assert body[from] == body[from..][0] == id[0] && body[from + 1] == body[from..][1] == id[1];
  }

  /** The two readers differ only on bodies the broker rejects. */
  lemma ReadersAgree(flags: nat, body: bytes)
    ensures ReadPublish(flags, body).Some? ==> ReadPublishLoosely(flags, body) == ReadPublish(flags, body)
  {
  }

  // ----- SUBSCRIBE and UNSUBSCRIBE (sections 3.8 and 3.10) -----

  /** The client subscribes to one filter at a time. */
  function SubscribeBody(packetId: nat, filter: bytes, qos: QoS): bytes
    requires packetId < 0x1_0000 && |filter| < 0x1_0000
  {
    Word(packetId) + EncodeString(filter).value + [qos]
  }

  predicate Encodable(fs: seq<(bytes, octet)>) {
    forall f :: f in fs ==> |f.0| < 0x1_0000
  }

  /** Any number of filters as sections 3.8.3 and 3.10.3 lay them out: each after its length, and before its option
      byte in a SUBSCRIBE. */
  function FilterList(fs: seq<(bytes, octet)>, options: bool): bytes
    requires Encodable(fs)
  {
    if fs == [] then []
    else EncodeString(fs[0].0).value + (if options then [fs[0].1] else []) + FilterList(fs[1..], options)
  }

  /** The filters from `offset` on, each with the option byte after it when `options` is set; None is an exception. */
  function ReadFilters(body: bytes, offset: nat, options: bool): Option<seq<(bytes, octet)>>
    requires offset <= |body|
    decreases |body| - offset
  {
    if offset == |body| then Some([])
    else
      var f := DecodeString(body, offset);
      if f.None? || (options && f.value.1 >= |body|) then None
      else
        var rest := ReadFilters(body, if options then f.value.1 + 1 else f.value.1, options);
        if rest.None? then None
        else Some([(f.value.0, if options then body[f.value.1] else 0)] + rest.value)
  }

  /** The filters of a SUBSCRIBE. A list too long for the one length byte of the answer is an exception as well. */
  function ReadSubscribe(body: bytes): (r: Option<seq<(bytes, octet)>>)
    ensures r.Some? ==> |body| >= 2 && |r.value| <= 253
  {
    if |body| < 2 then None
    else
      var r := ReadFilters(body, 2, true);
      if r.Some? && |r.value| <= 253 then r else None
  }

  function ReadUnsubscribe(body: bytes): (r: Option<seq<(bytes, octet)>>)
    ensures r.Some? ==> |body| >= 2
  {
    if |body| < 2 then None else ReadFilters(body, 2, false)
  }

  lemma SubscribeRoundTrip(packetId: nat, filter: bytes, qos: QoS)
    requires packetId < 0x1_0000 && |filter| < 0x1_0000
    ensures ReadSubscribe(SubscribeBody(packetId, filter, qos)) == Some([(filter, qos)])
  {
    var body := SubscribeBody(packetId, filter, qos);
    StringRoundTrip(Word(packetId), filter, [qos]);
    assert |body| == 2 + 2 + |filter| + 1;
    assert ReadFilters(body, |body|, true) == Some([]);
    assert DecodeString(body, 2) == Some((filter, 4 + |filter|));
    assert [(filter, qos)] + [] == [(filter, qos)];
  }

  /** Reading a list of filters gives the list. */
  lemma {:induction false} FilterListRead(prefix: bytes, fs: seq<(bytes, octet)>, options: bool)
    requires Encodable(fs)
    ensures var r := ReadFilters(prefix + FilterList(fs, options), |prefix|, options);
            && r.Some? && |r.value| == |fs|
            && forall i :: 0 <= i < |fs| ==> r.value[i] == (fs[i].0, if options then fs[i].1 else 0)
    decreases |fs|
  {
    hide EncodeString, DecodeString;
    var body := prefix + FilterList(fs, options);
    if fs == [] {
      assert body == prefix;
    } else {
      var (f, option) := fs[0];
      var text, byte: bytes := EncodeString(f).value, if options then [option] else [];
      assert fs[0] in fs && Encodable(fs[1..]);
      var rest := FilterList(fs[1..], options);
      assert body == prefix + text + (byte + rest) == (prefix + text + byte) + rest;
      StringRoundTrip(prefix, f, byte + rest);
      var end := |prefix| + 2 + |f|;
      assert body[end..] == byte + rest;
      assert options ==> body[end] == body[end..][0] == option;
      FilterListRead(prefix + text + byte, fs[1..], options);
    }
  }

  // ----- Answers -----

  const PUBACK: nat := 4
  const SUBACK: nat := 9
  const UNSUBACK: nat := 11
  const PINGRESP: nat := 13

  function Ack(kind: nat, packetId: nat): bytes
    requires kind < 16 && packetId < 0x1_0000
  {
    [16 * kind, 2] + Word(packetId)
  }

  /** The broker writes the length of a SUBACK as one plain byte. */
  function Suback(packetId: nat, granted: bytes): bytes
    requires packetId < 0x1_0000 && |granted| <= 253
  {
    [16 * SUBACK, 2 + |granted|] + Word(packetId) + granted
  }

  /** The answers byte by byte: type and flags, length, the two bytes of the id, high byte first, and what is granted. */
  lemma AnswersSpelled(packetId: nat, granted: bytes)
    requires packetId < 0x1_0000 && |granted| <= 253
    ensures Ack(PUBACK, packetId) == [0x40, 2, packetId / 256, packetId % 256]
    ensures Ack(UNSUBACK, packetId) == [0xB0, 2, packetId / 256, packetId % 256]
    ensures Suback(packetId, granted) == [0x90, 2 + |granted|, packetId / 256, packetId % 256] + granted
  {
  }

  lemma AckIsFrame(kind: nat, packetId: nat)
    requires kind < 16 && packetId < 0x1_0000
    ensures Ack(kind, packetId) == Frame(kind, 0, Word(packetId))
  {
    assert EncodeLength(2) == [2];
  }

  /** One plain byte is the remaining length of section 2.2.3 exactly up to 125 answers. */
  lemma SubackIsFrameIff(packetId: nat, granted: bytes)
    requires packetId < 0x1_0000 && |granted| <= 253
    ensures Suback(packetId, granted) == Frame(SUBACK, 0, Word(packetId) + granted) <==> |granted| <= 125
    ensures |granted| > 125 ==> |Suback(packetId, granted)| + 1 == |Frame(SUBACK, 0, Word(packetId) + granted)|
  {
    var n := 2 + |granted|;
    var b, f := Suback(packetId, granted), Frame(SUBACK, 0, Word(packetId) + granted);
    if |granted| <= 125 {
      assert EncodeLength(n) == [n];
      assert b == f;
    } else {
      assert n / 128 == 1 && |EncodeLength(n)| == 1 + |EncodeLength(1)|;
    }
  }
}
