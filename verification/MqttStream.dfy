/** Packets over a byte stream: the reading loops, the broker's sessions and the simulator's client. */
module MqttStream {

  import opened Common
  import opened MqttCodec
  import opened MqttTopics

  type nibble = n: nat | n < 16

  datatype Packet = Packet(kind: nibble, flags: nibble, body: bytes)

  function Encode(p: Packet): bytes {
    Frame(p.kind, p.flags, p.body)
  }

  function EncodeAll(packets: seq<Packet>): bytes {
    if packets == [] then [] else Encode(packets[0]) + EncodeAll(packets[1..])
  }

  // ----- Cutting a stream into packets -----

  /** The first packet of a stream and what follows it; None when the stream ends before the packet does. */
  function ReadFrame(s: bytes): (r: Option<(Packet, bytes)>)
    ensures r.Some? ==> |r.value.1| < |s|
  {
    if s == [] then None
    else
      var length := DecodeLength(s[1..]);
      if length.None? || 1 + length.value.1 + length.value.0 > |s| then None
      else
        var from, to := 1 + length.value.1, 1 + length.value.1 + length.value.0;
        Some((Packet(s[0] / 16, s[0] % 16, s[from..to]), s[to..]))
  }

  function Packets(s: bytes): seq<Packet>
    decreases |s|
  {
    var first := ReadFrame(s);
    if first.None? then [] else [first.value.0] + Packets(first.value.1)
  }

  lemma FrameRoundTrip(p: Packet, tail: bytes)
    ensures ReadFrame(Encode(p) + tail) == Some((p, tail))
  {
    var length := EncodeLength(|p.body|);
    var s := Encode(p) + tail;
    assert s[1..] == length + (p.body + tail);
    LengthRoundTrip(|p.body|, p.body + tail);
    assert s[1 + |length|..1 + |length| + |p.body|] == p.body;
    assert s[1 + |length| + |p.body|..] == tail;
  }

  /** Concatenated packets are cut apart again, whatever comes after them. */
  lemma {:induction false} PacketsRoundTrip(packets: seq<Packet>, tail: bytes)
    ensures Packets(EncodeAll(packets) + tail) == packets + Packets(tail)
  {
    hide ReadFrame, Encode;
    if packets == [] {
      assert EncodeAll(packets) + tail == tail;
    } else {
      var rest := EncodeAll(packets[1..]) + tail;
      assert EncodeAll(packets) + tail == Encode(packets[0]) + rest;
      FrameRoundTrip(packets[0], rest);
      PacketsRoundTrip(packets[1..], tail);
      assert packets == [packets[0]] + packets[1..];
    }
  }

  lemma {:induction false} EncodeAllAppend(a: seq<Packet>, b: seq<Packet>)
    ensures EncodeAll(a + b) == EncodeAll(a) + EncodeAll(b)
  {
    if a == [] {
      assert a + b == b;
    } else {
      assert (a + b)[1..] == a[1..] + b;
      EncodeAllAppend(a[1..], b);
    }
  }

  lemma {:induction false} LengthEnds(s: bytes, k: nat)
    requires k <= |s| && forall i :: 0 <= i < k ==> s[i] >= 128
    ensures k == |s| ==> DecodeLength(s).None?
    ensures k < |s| && s[k] < 128 ==>
      DecodeLength(s).Some? && DecodeLength(s).value.1 == k + 1 && DecodeLength(s[..k + 1]) == DecodeLength(s)
  {
    if k > 0 {
      LengthEnds(s[1..], k - 1);
      if k < |s| {
        assert s[..k + 1][1..] == s[1..][..k];
      }
    }
  }

  predicate AllContinue(s: bytes) {
    forall i :: 0 <= i < |s| ==> s[i] >= 128
  }

  lemma NoneYet(s: bytes)
    requires s == []
    ensures AllContinue(s)
  {
  }

  lemma LengthSoFar(collected: bytes, rest: bytes)
    requires AllContinue(collected)
    ensures rest == [] ==> DecodeLength(collected + rest).None?
    ensures rest != [] && rest[0] >= 128 ==> AllContinue(collected + [rest[0]])
    ensures rest != [] && rest[0] < 128 ==>
      var whole := DecodeLength(collected + rest);
      whole.Some? && whole.value.1 == |collected| + 1 && DecodeLength(collected + [rest[0]]) == whole
  {
    hide DecodeLength;
    var s := collected + rest;
    LengthEnds(s, |collected|);
    if rest != [] {
      assert s[..|collected| + 1] == collected + [rest[0]];
    }
  }

  // ----- Reading -----

  /** A connection: the bytes the peer still sends before it closes, handed out in fragments of any size. */
  class StreamReader {
    var pending: bytes

    constructor (stream: bytes)
      ensures pending == stream
    {
      pending := stream;
    }

    method Read(n: nat) returns (chunk: bytes)
      requires n > 0
      modifies this
      ensures old(pending) == chunk + pending
      ensures |chunk| <= n && (chunk == [] <==> old(pending) == [])
    {
      chunk := [];
      if pending != [] {
        var k: nat :| 0 < k <= n && k <= |pending| by {
          assert 0 < 1 <= n && 1 <= |pending|;
        }
        chunk, pending := pending[..k], pending[k..];
      }
    }

    method ReadExact(n: nat) returns (data: Option<bytes>)
      modifies this
      ensures if n <= |old(pending)| then data == Some(old(pending)[..n]) && pending == old(pending)[n..] else data.None?
    {
      var collected: bytes := [];
      while |collected| < n
        invariant old(pending) == collected + pending && |collected| <= n
        decreases n - |collected|
      {
        var chunk := Read(n - |collected|);
        if chunk == [] {
          return None;
        }
        collected := collected + chunk;
      }
      return Some(collected);
    }

    /** The bytes of a remaining length, one by one up to the first without the top bit. */
    method ReadLengthBytes() returns (collected: Option<bytes>)
      modifies this
      ensures collected.None? ==> DecodeLength(old(pending)).None?
      ensures collected.Some? ==> collected.value + pending == old(pending)
                                  && DecodeLength(old(pending)).Some?
                                  && DecodeLength(old(pending)).value.1 == |collected.value|
                                  && DecodeLength(collected.value) == DecodeLength(old(pending))
    {
      hide DecodeLength, AllContinue;
      var remainingBytes: bytes := [];
      NoneYet(remainingBytes);
      while true
        invariant old(pending) == remainingBytes + pending
        invariant AllContinue(remainingBytes)
        decreases |pending|
      {
        LengthSoFar(remainingBytes, pending);
        ghost var rest := pending;
        var b := Read(1);
        if b == [] {
          return None;
        }
        assert b == [rest[0]];
        remainingBytes := remainingBytes + b;
        if b[0] < 128 {
          return Some(remainingBytes);
        }
      }
    }
  }

  /** The end both reading loops share: what follows the header and the length bytes. */
  lemma FrameFrom(s: bytes, length: bytes, rest: bytes, n: nat)
    requires s != [] && s[1..] == length + rest && DecodeLength(s[1..]) == Some((n, |length|))
    ensures n > |rest| ==> ReadFrame(s).None?
    ensures n <= |rest| ==> ReadFrame(s) == Some((Packet(s[0] / 16, s[0] % 16, rest[..n]), rest[n..]))
  {
    if n <= |rest| {
      var from := 1 + |length|;
      assert s == [s[0]] + length + rest;
      assert s[from..] == rest;
      assert s[from..from + n] == rest[..n] && s[from + n..] == rest[n..];
    }
  }
}
