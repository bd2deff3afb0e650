/**
 MySQL packet framing with compression off (packet/conn.go): a payload travels
 in frames of at most 2^24-1 bytes, each after a four-byte header, and a frame
 of exactly that size announces another one. The writer puts every header in
 place over the caller's buffer, on top of bytes already sent.
 */
module PacketFraming {
  import opened Bytes
  import opened Lists

  const MAX_PAYLOAD_LEN: nat := 0xFF_FFFF
  const COPY_BUFFER_SIZE: nat := 16 * 1024

  function NextSequence(s: byte): (r: byte) { (s + 1) % 256 }

  /** Advancing a sequence counter n times. */
  function Advance(s: byte, n: nat): (r: byte) { (s + n) % 256 }

  function Header(length: nat, s: byte): (h: bytes)
    requires length <= MAX_PAYLOAD_LEN
    ensures |h| == 4
  {
    LE(3, length) + [s]
  }

  /** The wire image of a payload. */
  function Frames(payload: bytes, s: byte): (w: bytes)
    decreases |payload|
  {
    if |payload| < MAX_PAYLOAD_LEN then Header(|payload|, s) + payload
    else Header(MAX_PAYLOAD_LEN, s) + payload[..MAX_PAYLOAD_LEN] + Frames(payload[MAX_PAYLOAD_LEN..], NextSequence(s))
  }

  function FrameCount(length: nat): (n: nat) {
    if length < MAX_PAYLOAD_LEN then 1 else 1 + FrameCount(length - MAX_PAYLOAD_LEN)
  }

  datatype Unframed = Packet(payload: bytes, sequence: byte, rest: bytes) | BadConn | BadSequence

  /** ReadPacketTo as a function of the unread input. */
  function Unframe(input: bytes, s: byte): (r: Unframed)
    decreases |input|
  {
    if |input| < 4 then BadConn
    else
      var length := FromLE(input[..3]);
      if input[3] != s then BadSequence
      else if |input| - 4 < length then BadConn
      else if length < MAX_PAYLOAD_LEN then Packet(input[4..4 + length], NextSequence(s), input[4 + length..])
      else match Unframe(input[4 + length..], NextSequence(s))
        case Packet(p, t, rest) => Packet(input[4..4 + length] + p, t, rest)
        case BadConn => BadConn
        case BadSequence => BadSequence
  }

  lemma FramePrefix(length: nat, s: byte, body: bytes, rest: bytes)
    requires length == |body| <= MAX_PAYLOAD_LEN
    ensures var input := Header(length, s) + body + rest;
      && FromLE(input[..3]) == length && input[3] == s
      && input[4..4 + length] == body && input[4 + length..] == rest
  {
    var input := Header(length, s) + body + rest;
    assert Pow256(3) == 0x100_0000;
    LittleEndianRoundTrip(3, length);
    assert input[..3] == LE(3, length);
    Middle(Header(length, s), body, rest);
  }

  lemma UnframeLast(body: bytes, s: byte, rest: bytes)
    requires |body| < MAX_PAYLOAD_LEN
    ensures Unframe(Header(|body|, s) + body + rest, s) == Packet(body, NextSequence(s), rest)
  {
    FramePrefix(|body|, s, body, rest);
  }

  lemma UnframeMore(body: bytes, s: byte, more: bytes, p: bytes, t: byte, rest: bytes)
    requires |body| == MAX_PAYLOAD_LEN && Unframe(more, NextSequence(s)) == Packet(p, t, rest)
    ensures Unframe(Header(MAX_PAYLOAD_LEN, s) + body + more, s) == Packet(body + p, t, rest)
  {
    FramePrefix(MAX_PAYLOAD_LEN, s, body, more);
  }

  lemma AdvanceStep(s: byte, n: nat)
    ensures Advance(NextSequence(s), n) == Advance(s, 1 + n)
  {
  }

  /** Reading what was written returns the payload for every length, and both counters advance by the frame count. */
  lemma {:induction false} UnframeFrames(payload: bytes, s: byte, rest: bytes)
    ensures Unframe(Frames(payload, s) + rest, s) == Packet(payload, Advance(s, FrameCount(|payload|)), rest)
    decreases |payload|
  {
    if |payload| < MAX_PAYLOAD_LEN {
      UnframeLast(payload, s, rest);
    } else {
      var body, tail := payload[..MAX_PAYLOAD_LEN], payload[MAX_PAYLOAD_LEN..];
      var more := Frames(tail, NextSequence(s));
      UnframeFrames(tail, NextSequence(s), rest);
      UnframeMore(body, s, more + rest, tail, Advance(NextSequence(s), FrameCount(|tail|)), rest);
      ConcatAssoc(Header(MAX_PAYLOAD_LEN, s) + body, more, rest);
      AdvanceStep(s, FrameCount(|tail|));
      assert body + tail == payload;
    }
  }

  /** A frame with another sequence number than the expected one is refused. */
  lemma WrongSequence(payload: bytes, sent: byte, expected: byte, rest: bytes)
    requires sent != expected
    ensures Unframe(Frames(payload, sent) + rest, expected) == BadSequence
  {
    var input := Frames(payload, sent) + rest;
    assert input[3] == sent;
  }

  /** Input that ends inside a packet is refused, wherever it ends. */
  lemma {:induction false} CutShort(payload: bytes, s: byte, k: nat)
    requires k < |Frames(payload, s)|
    ensures Unframe(Frames(payload, s)[..k], s) == BadConn
    decreases |payload|
  {
    var w := Frames(payload, s);
    if k >= 4 {
      var n := if |payload| < MAX_PAYLOAD_LEN then |payload| else MAX_PAYLOAD_LEN;
      FirstFrame(payload, s, n, k);
      if |payload| >= MAX_PAYLOAD_LEN && k >= 4 + n {
        var more := Frames(payload[n..], NextSequence(s));
        assert w == Header(n, s) + payload[..n] + more;
        assert w[..k][4 + n..] == more[..k - 4 - n];
        CutShort(payload[n..], NextSequence(s), k - 4 - n);
      }
    }
  }

  lemma FirstFrame(payload: bytes, s: byte, n: nat, k: nat)
    requires n == (if |payload| < MAX_PAYLOAD_LEN then |payload| else MAX_PAYLOAD_LEN) && 4 <= k <= |Frames(payload, s)|
    ensures var c := Frames(payload, s)[..k]; FromLE(c[..3]) == n && c[3] == s
  {
    var w := Frames(payload, s);
    assert Pow256(3) == 0x100_0000;
    LittleEndianRoundTrip(3, n);
    assert w[..k][..3] == Header(n, s)[..3] == LE(3, n);
  }

  /** A frame is followed by another exactly when its length field is full. */
  lemma {:induction false} FramesAre(payload: bytes, s: byte)
    ensures MAX_PAYLOAD_LEN == Pow256(3) - 1
    ensures FrameCount(|payload|) == |payload| / (Pow256(3) - 1) + 1
    ensures |Frames(payload, s)| == |payload| + 4 * FrameCount(|payload|)
    decreases |payload|
  {
    assert Pow256(3) == 0x100_0000;
    if |payload| >= MAX_PAYLOAD_LEN { FramesAre(payload[MAX_PAYLOAD_LEN..], NextSequence(s)); }
  }

  class Conn {
    var sequence: byte
    var sent: bytes      // everything written to the network
    var unread: bytes    // what the network still has for this end

    constructor (sequence: byte, unread: bytes)
      ensures this.sequence == sequence && this.unread == unread && sent == []
    {
      this.sequence, this.unread, sent := sequence, unread, [];
    }

    /** A header written in place at `off`, and the frame of `length` payload bytes after it sent. */
    method SendFrame(data: array<byte>, off: nat, length: nat)
      requires length <= MAX_PAYLOAD_LEN && off + 4 + length <= data.Length
      modifies this`sequence, this`sent, data
      ensures data[off + 4..] == old(data[off + 4..])
      ensures sent == old(sent) + (Header(length, old(sequence)) + old(data[off + 4..off + 4 + length]))
      ensures sequence == NextSequence(old(sequence))
    {
      data[off], data[off + 1], data[off + 2] := length % 256, length / 256 % 256, length / 65536 % 256;
      data[off + 3] := sequence;
      HeaderBytes(length, sequence);
      assert data[off..off + 4] == Header(length, sequence);
      assert data[off..off + 4 + length] == data[off..off + 4] + data[off + 4..off + 4 + length];
      sent := sent + data[off..off + 4 + length];
      sequence := NextSequence(sequence);
    }

    /** WritePacket: the first four bytes of `data` are room for a header; the rest is the payload. */
    method WritePacket(data: array<byte>)
      requires data.Length >= 4
      modifies this`sequence, this`sent, data
      ensures sent == old(sent) + Frames(old(data[4..]), old(sequence))
      ensures sequence == Advance(old(sequence), FrameCount(data.Length - 4))
    {
      ghost var payload := data[4..];
      var length, off := data.Length - 4, 0;
      while length >= MAX_PAYLOAD_LEN
        invariant 0 <= off && 0 <= length && off + length == data.Length - 4
        invariant data[off + 4..] == payload[off..]
        invariant old(sent) + Frames(payload, old(sequence)) == sent + Frames(payload[off..], sequence)
        invariant Advance(old(sequence), FrameCount(data.Length - 4)) == Advance(sequence, FrameCount(length))
      {
        ghost var tail, before, s := payload[off..], sent, sequence;
        assert data[off + 4..off + 4 + MAX_PAYLOAD_LEN] == data[off + 4..][..MAX_PAYLOAD_LEN];
        SendFrame(data, off, MAX_PAYLOAD_LEN);
        length := length - MAX_PAYLOAD_LEN;
        off := off + MAX_PAYLOAD_LEN;
        assert payload[off..] == tail[MAX_PAYLOAD_LEN..];
        assert data[off + 4..] == data[off - MAX_PAYLOAD_LEN + 4..][MAX_PAYLOAD_LEN..];
        ConcatAssoc(before, Header(MAX_PAYLOAD_LEN, s) + tail[..MAX_PAYLOAD_LEN], Frames(payload[off..], sequence));
        AdvanceStep(s, FrameCount(length));
      }
      assert data[off + 4..off + 4 + length] == data[off + 4..];
      AdvanceStep(sequence, 0);
      SendFrame(data, off, length);
    }

    /** copyN: reads exactly n bytes through a bounded buffer, or fails when the input ends early. */
    method CopyN(n: nat) returns (ok: bool, copied: bytes)
      modifies this`unread
      ensures ok <==> n <= |old(unread)|
      ensures ok ==> copied == old(unread)[..n] && unread == old(unread)[n..]
    {
      copied := [];
      var left := n;
      while left > 0
        invariant 0 <= left <= n && |copied| == n - left
        invariant n - left <= |old(unread)|
        invariant copied == old(unread)[..n - left] && unread == old(unread)[n - left..]
      {
        var bcap := if COPY_BUFFER_SIZE > left then left else COPY_BUFFER_SIZE;
        if |unread| < bcap {
          unread := [];
          return false, copied;
        }
        copied := copied + unread[..bcap];
        unread := unread[bcap..];
        left := left - bcap;
      }
      ok := true;
    }

    /** ReadPacketTo: appends the payload of one logical packet to `into`. */
    method ReadPacketTo(into: bytes) returns (result: Unframed)
      modifies this`sequence, this`unread
      ensures match Unframe(old(unread), old(sequence))
              case Packet(p, t, rest) => result == Packet(into + p, t, rest) && sequence == t && unread == rest
              case BadConn => result == BadConn
              case BadSequence => result == BadSequence
      decreases |unread|
    {
      ghost var input := unread;
      var ok, header := CopyN(4);
      if !ok { return BadConn; }
      var length := FromLE(header[..3]);
      assert header[..3] == input[..3];
      if header[3] != sequence { return BadSequence; }
      sequence := NextSequence(sequence);
      var body;
      ok, body := CopyN(length);
      if !ok { return BadConn; }
      assert body == input[4..4 + length] && unread == input[4 + length..];
      if length < MAX_PAYLOAD_LEN { return Packet(into + body, sequence, unread); }
      result := ReadPacketTo(into + body);
      if result.Packet? {
        ConcatAssoc(into, body, Unframe(input[4 + length..], NextSequence(old(sequence))).payload);
      }
    }
  }

  /** The three length bytes and the sequence byte, as shifts of the length. */
  lemma HeaderBytes(length: nat, s: byte)
    requires length <= MAX_PAYLOAD_LEN
    ensures Header(length, s) == [length % 256, length / 256 % 256, length / 65536 % 256, s]
  {
    assert LE(0, length / 256 / 256 / 256) == [];
    assert LE(1, length / 256 / 256) == [length / 256 / 256 % 256];
    assert LE(2, length / 256) == [length / 256 % 256, length / 256 / 256 % 256];
    assert length / 256 / 256 == length / 65536;
  }

  /** A packet sent on one connection and read on its peer. */
  method SendAndReceive(sender: Conn, receiver: Conn, data: array<byte>) returns (got: Unframed)
    requires sender != receiver && data.Length >= 4
    requires sender.sent == [] && receiver.sequence == sender.sequence
    modifies sender, receiver, data
    ensures got == Packet(old(data[4..]), sender.sequence, [])
    ensures receiver.sequence == sender.sequence
  {
    ghost var payload, s := data[4..], sender.sequence;
    sender.WritePacket(data);
    receiver.unread := sender.sent;
    UnframeFrames(payload, s, []);
    assert [] + Frames(payload, s) == Frames(payload, s) + [];
    got := receiver.ReadPacketTo([]);
    assert [] + payload == payload;
  }
}
