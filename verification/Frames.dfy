/** Where every field of a packet and of a message sits, position by position. */
module FrameLayout {
  import opened Bytes
  import opened Streams
  import opened Fields
  import PrudpLite
  import Rmc

  type Packet = PrudpLite.Packet

  // ---- PRUDP-Lite packets ---------------------------------------------------------------------

  predicate Acks(p: Packet) {
    p.flags % 2 == 1
  }

  /** The bytes of the options: six for the supported functions of a SYN or a CONNECT, then the
      signature of a SYN acknowledgement or of a CONNECT request. */
  function OptionsSize(p: Packet): nat {
    (if p.ptype <= 1 then 6 else 0)
    + (if p.ptype == 0 && Acks(p) then 2 + |p.connectionSig|
       else if p.ptype == 1 && !Acks(p) then 2 + |p.signature|
       else 0)
  }

  predicate SignatureAt(b: bytes, at: nat, id: byte, sig: bytes) {
    ByteAt(b, at, id) && NumberAt(b, at + 1, |sig|, 1) && BytesAt(b, at + 2, sig)
  }

  predicate OptionsAt(b: bytes, at: nat, p: Packet) {
    && (p.ptype <= 1 ==>
          ByteAt(b, at, 0) && ByteAt(b, at + 1, 4)
          && ByteAt(b, at + 2, p.minorVersion) && NumberAt(b, at + 3, p.supportedFunc, 3))
    && (p.ptype == 0 && Acks(p) ==> SignatureAt(b, at + 6, 1, p.connectionSig))
    && (p.ptype == 1 && !Acks(p) ==> SignatureAt(b, at + 6, 128, p.signature))
  }

  predicate HeaderAt(b: bytes, p: Packet) {
    && ByteAt(b, 0, 0x80)
    && NumberAt(b, 1, OptionsSize(p), 1)
    && NumberAt(b, 2, |p.payload|, 2)
    && ByteAt(b, 4, p.sourceType % 16 * 16 + p.destType % 16)
    && ByteAt(b, 5, p.sourcePort) && ByteAt(b, 6, p.destPort) && ByteAt(b, 7, p.fragmentId)
    && NumberAt(b, 8, p.flags % 0x1000 * 16 + p.ptype % 16, 2)
    && NumberAt(b, 10, p.packetId, 2)
  }

  /** The bytes are this packet and nothing else. */
  predicate IsPacket(b: bytes, p: Packet) {
    && |b| == 12 + OptionsSize(p) + |p.payload|
    && HeaderAt(b, p) && OptionsAt(b, 12, p) && BytesAt(b, 12 + OptionsSize(p), p.payload)
  }

  lemma {:induction false} HeaderStep(b: bytes, p: Packet)
    requires |PrudpLite.EncodedOptions(p)| == OptionsSize(p)
    ensures PrudpLite.Header(p) <= b <==> HeaderAt(b, p)
  {
    hide LE, NumberAt, ByteAt, PrudpLite.EncodedOptions, OptionsSize;
    var n := OptionsSize(p);
    var c0: bytes := [];
    var c1 := c0 + [0x80];
    var c2 := c1 + LE(n, 1);
    var c3 := c2 + LE(|p.payload|, 2);
    var c4 := c3 + [p.sourceType % 16 * 16 + p.destType % 16];
    var c5 := c4 + [p.sourcePort];
    var c6 := c5 + [p.destPort];
    var c7 := c6 + [p.fragmentId];
    var c8 := c7 + LE(p.ptype % 16 + p.flags % 0x1000 * 16, 2);
    ByteStep(c0, b, 0x80);
    NumberStep(c1, b, n, 1);
    NumberStep(c2, b, |p.payload|, 2);
    ByteStep(c3, b, p.sourceType % 16 * 16 + p.destType % 16);
    ByteStep(c4, b, p.sourcePort);
    ByteStep(c5, b, p.destPort);
    ByteStep(c6, b, p.fragmentId);
    NumberStep(c7, b, p.ptype % 16 + p.flags % 0x1000 * 16, 2);
    NumberStep(c8, b, p.packetId, 2);
    assert LE(n, 1) == [n % 256] by { OneByte(n); }
    assert PrudpLite.Header(p) == c8 + LE(p.packetId, 2);
  }

  lemma {:induction false} OneByte(n: nat)
    ensures LE(n, 1) == [n % 256]
  {
    assert LE(n / 256, 0) == [];
  }

  lemma {:induction false} SignatureStep(buf: bytes, b: bytes, id: byte, sig: bytes)
    ensures |buf + PrudpLite.OptionBytes(id, sig)| == |buf| + 2 + |sig|
    ensures buf + PrudpLite.OptionBytes(id, sig) <= b <==> buf <= b && SignatureAt(b, |buf|, id, sig)
  {
    hide LE, NumberAt, ByteAt, BytesAt;
    OneByte(|sig|);
    var c1 := buf + [id];
    var c2 := c1 + LE(|sig|, 1);
    ByteStep(buf, b, id);
    NumberStep(c1, b, |sig|, 1);
    BytesStep(c2, b, sig);
    assert buf + PrudpLite.OptionBytes(id, sig) == c2 + sig;
  }

  lemma {:induction false} LowByteFirst(low: byte, high: nat)
    ensures LE(low + high * 256, 4) == [low] + LE(high, 3)
  {
    var v := low + high * 256;
    assert v % 256 == low && v / 256 == high;
    hide *;
    LEHead(v, 4);
  }

  lemma {:induction false} LEHead(v: nat, n: nat)
    requires n > 0
    ensures LE(v, n) == [v % 256] + LE(v / 256, n - 1)
  {
  }

  lemma {:induction false} SupportStep(buf: bytes, b: bytes, p: Packet)
    ensures var opt := PrudpLite.OptionBytes(0, PrudpLite.SupportBytes(p));
            && |buf + opt| == |buf| + 6
            && (buf + opt <= b
                <==> buf <= b && ByteAt(b, |buf|, 0) && ByteAt(b, |buf| + 1, 4)
                     && ByteAt(b, |buf| + 2, p.minorVersion) && NumberAt(b, |buf| + 3, p.supportedFunc, 3))
  {
    hide LE, NumberAt, ByteAt;
    LowByteFirst(p.minorVersion, p.supportedFunc);
    var c1 := buf + [0];
    var c2 := c1 + [4];
    var c3 := c2 + [p.minorVersion];
    ByteStep(buf, b, 0);
    ByteStep(c1, b, 4);
    ByteStep(c2, b, p.minorVersion);
    NumberStep(c3, b, p.supportedFunc, 3);
    assert buf + PrudpLite.OptionBytes(0, PrudpLite.SupportBytes(p)) == c3 + LE(p.supportedFunc, 3);
  }

  lemma {:induction false} OptionsStep(buf: bytes, b: bytes, p: Packet)
    ensures |PrudpLite.EncodedOptions(p)| == OptionsSize(p)
    ensures buf + PrudpLite.EncodedOptions(p) <= b <==> buf <= b && OptionsAt(b, |buf|, p)
  {
    hide PrudpLite.SupportBytes, PrudpLite.OptionBytes, NumberAt, ByteAt, SignatureAt;
    var support := PrudpLite.OptionBytes(0, PrudpLite.SupportBytes(p));
    SupportStep(buf, b, p);
    SignatureStep(buf + support, b, 1, p.connectionSig);
    SignatureStep(buf + support, b, 128, p.signature);
    SupportStep([], [], p);
    SignatureStep([], [], 1, p.connectionSig);
    SignatureStep([], [], 128, p.signature);
    assert [] + support == support;
    assert buf + [] == buf && buf + (support + []) == buf + support;
    Joined(buf, support, PrudpLite.OptionBytes(1, p.connectionSig));
    Joined(buf, support, PrudpLite.OptionBytes(128, p.signature));
    assert [] + PrudpLite.OptionBytes(1, p.connectionSig) == PrudpLite.OptionBytes(1, p.connectionSig);
    assert [] + PrudpLite.OptionBytes(128, p.signature) == PrudpLite.OptionBytes(128, p.signature);
  }

  /** A packet is printed as exactly the bytes that hold its fields at their places. */
  lemma {:induction false} PacketLayout(p: Packet, b: bytes)
    ensures b == PrudpLite.Encoded(p) <==> IsPacket(b, p)
  {
    hide PrudpLite.Header, PrudpLite.EncodedOptions, HeaderAt, OptionsAt, OptionsSize, BytesAt;
    var h := PrudpLite.Header(p);
    OptionsStep(h, b, p);
    HeaderStep(b, p);
    BytesStep(h + PrudpLite.EncodedOptions(p), b, p.payload);
    assert |PrudpLite.Encoded(p)| == 12 + OptionsSize(p) + |p.payload|;
    assert PrudpLite.Encoded(p) <= b && |b| == |PrudpLite.Encoded(p)| ==> b == PrudpLite.Encoded(p);
  }

  /** Bytes that hold a packet's fields at their places read as that packet. */
  lemma {:induction false} LaidOutPacketReads(p: Packet, b: bytes, tail: bytes)
    requires PrudpLite.Framable(p) && IsPacket(b, p)
    ensures PrudpLite.DecodeTurn(b + tail) == PrudpLite.Got(PrudpLite.OnWire(p), tail)
  {
    hide IsPacket, PrudpLite.Encoded, PrudpLite.DecodeTurn, PrudpLite.Framable, PrudpLite.OnWire;
    PacketLayout(p, b);
    PrudpLite.EncodeDecode(p, tail);
  }

  // ---- Remote method calls ----------------------------------------------------------------------

  /** One byte below 0x80, else the escape and two bytes; the high bit marks a request. */
  predicate ProtocolAt(b: bytes, at: nat, protocol: u16, request: bool) {
    var bit := if request then 0x80 else 0;
    if protocol < 0x80 then ByteAt(b, at, bit + protocol)
    else ByteAt(b, at, bit + 0x7F) && NumberAt(b, at + 1, protocol, 2)
  }

  function ProtocolSize(protocol: u16): nat {
    if protocol < 0x80 then 1 else 3
  }

  /** What follows the protocol. */
  function Rest(m: Rmc.Message): bytes {
    match m
    case Request(_, method_, callId, body) => LE(callId, 4) + LE(method_, 4) + body
    case Success(_, method_, callId, body) => [1] + LE(callId, 4) + LE(Rmc.ResponseMethod(method_), 4) + body
    case Failure(_, callId, result) => [0] + LE(Rmc.ErrorResult(result), 4) + LE(callId, 4)
  }

  predicate RestAt(b: bytes, at: nat, m: Rmc.Message) {
    match m
    case Request(_, method_, callId, body) =>
      NumberAt(b, at, callId, 4) && NumberAt(b, at + 4, method_, 4) && BytesAt(b, at + 8, body)
    case Success(_, method_, callId, body) =>
      ByteAt(b, at, 1) && NumberAt(b, at + 1, callId, 4)
      && NumberAt(b, at + 5, method_ - method_ / 0x8000 % 2 * 0x8000 + 0x8000, 4) && BytesAt(b, at + 9, body)
    case Failure(_, callId, result) =>
      ByteAt(b, at, 0) && NumberAt(b, at + 1, result % 0x8000_0000 + 0x8000_0000, 4) && NumberAt(b, at + 5, callId, 4)
  }

  function RestSize(m: Rmc.Message): nat {
    match m
    case Request(_, _, _, body) => 8 + |body|
    case Success(_, _, _, body) => 9 + |body|
    case Failure(_, _, _) => 9
  }

  /** The bytes are this message and nothing else: the size of the rest, the protocol, and by kind
      call and method and body, or one byte 1 and the same with bit 15 of the method set, or one
      byte 0, the result with bit 31 set and the call. */
  predicate IsMessage(b: bytes, m: Rmc.Message) {
    var at := 4 + ProtocolSize(m.protocol);
    && |b| == at + RestSize(m)
    && NumberAt(b, 0, |b| - 4, 4) && ProtocolAt(b, 4, m.protocol, m.Request?) && RestAt(b, at, m)
  }

  lemma {:induction false} ProtocolStep(buf: bytes, b: bytes, protocol: u16, request: bool)
    ensures var p := Rmc.ProtocolBytes(protocol, if request then 0x80 else 0);
            && |buf + p| == |buf| + ProtocolSize(protocol)
            && (buf + p <= b <==> buf <= b && ProtocolAt(b, |buf|, protocol, request))
  {
    hide LE, NumberAt, ByteAt;
    var bit: byte := if request then 0x80 else 0;
    if protocol < 0x80 {
      ByteStep(buf, b, bit + protocol);
    } else {
      ByteStep(buf, b, bit + 0x7F);
      NumberStep(buf + [bit + 0x7F], b, protocol, 2);
      Joined(buf, [0x7F + bit], LE(protocol, 2));
    }
  }

  lemma {:induction false} CallStep(buf: bytes, b: bytes, callId: u32, method_: nat, body: bytes)
    ensures |buf + LE(callId, 4) + LE(method_, 4) + body| == |buf| + 8 + |body|
    ensures buf + LE(callId, 4) + LE(method_, 4) + body <= b
       <==> buf <= b && NumberAt(b, |buf|, callId, 4) && NumberAt(b, |buf| + 4, method_, 4)
            && BytesAt(b, |buf| + 8, body)
  {
    hide LE, NumberAt, BytesAt;
    NumberStep(buf, b, callId, 4);
    NumberStep(buf + LE(callId, 4), b, method_, 4);
    BytesStep(buf + LE(callId, 4) + LE(method_, 4), b, body);
  }

  /** Bit 15 of the method, bit 31 of the result. */
  lemma {:induction false} MarkedBits(method_: u32, result: u32)
    ensures Rmc.ResponseMethod(method_) == method_ - method_ / 0x8000 % 2 * 0x8000 + 0x8000
    ensures Rmc.ErrorResult(result) == result % 0x8000_0000 + 0x8000_0000
  {
  }

  lemma {:induction false} RestStep(c: bytes, b: bytes, m: Rmc.Message)
    ensures |c + Rest(m)| == |c| + RestSize(m)
    ensures c + Rest(m) <= b <==> c <= b && RestAt(b, |c|, m)
  {
    hide LE, NumberAt, BytesAt, ByteAt, Rmc.ResponseMethod, Rmc.ErrorResult;
    match m {
      case Request(_, method_, callId, body) =>
        CallStep(c, b, callId, method_, body);
        assert c + Rest(m) == c + LE(callId, 4) + LE(method_, 4) + body;
      case Success(_, _, _, _) => SuccessStep(c, b, m);
      case Failure(_, _, _) => FailureStep(c, b, m);
    }
  }

  lemma {:induction false} SuccessStep(c: bytes, b: bytes, m: Rmc.Message)
    requires m.Success?
    ensures |c + Rest(m)| == |c| + RestSize(m)
    ensures c + Rest(m) <= b <==> c <= b && RestAt(b, |c|, m)
  {
    hide LE, NumberAt, BytesAt, ByteAt, Rmc.ResponseMethod, Rmc.ErrorResult;
    var wire := Rmc.ResponseMethod(m.method_);
    MarkedBits(m.method_, 0);
    ByteStep(c, b, 1);
    CallStep(c + [1], b, m.callId, wire, m.body);
    assert c + Rest(m) == c + [1] + LE(m.callId, 4) + LE(wire, 4) + m.body;
  }

  lemma {:induction false} FailureStep(c: bytes, b: bytes, m: Rmc.Message)
    requires m.Failure?
    ensures |c + Rest(m)| == |c| + RestSize(m)
    ensures c + Rest(m) <= b <==> c <= b && RestAt(b, |c|, m)
  {
    hide LE, NumberAt, BytesAt, ByteAt, Rmc.ResponseMethod, Rmc.ErrorResult;
    var wire := Rmc.ErrorResult(m.result);
    MarkedBits(0, m.result);
    ByteStep(c, b, 0);
    NumberStep(c + [0], b, wire, 4);
    NumberStep(c + [0] + LE(wire, 4), b, m.callId, 4);
    assert c + Rest(m) == c + [0] + LE(wire, 4) + LE(m.callId, 4);
  }

  lemma {:induction false} PayloadStep(head: bytes, b: bytes, m: Rmc.Message)
    requires |head| == 4
    ensures head + Rmc.Payload(m) <= b && |head + Rmc.Payload(m)| == |b| && NumberAt(b, 0, |b| - 4, 4)
       <==> head <= b && IsMessage(b, m)
  {
    hide Rest, NumberAt, ProtocolAt, ProtocolSize, Rmc.ProtocolBytes, RestAt, RestSize;
    var protocol := Rmc.ProtocolBytes(m.protocol, if m.Request? then 0x80 else 0);
    ProtocolStep(head, b, m.protocol, m.Request?);
    RestStep(head + protocol, b, m);
    PayloadIs(m);
    Joined(head, protocol, Rest(m));
  }

  lemma {:induction false} PayloadIs(m: Rmc.Message)
    ensures Rmc.Payload(m) == Rmc.ProtocolBytes(m.protocol, if m.Request? then 0x80 else 0) + Rest(m)
  {
    hide LE, Rmc.ProtocolBytes, Rmc.ResponseMethod, Rmc.ErrorResult;
    var head := Rmc.ProtocolBytes(m.protocol, if m.Request? then 0x80 else 0);
    match m {
      case Request(_, method_, callId, body) =>
        assert Rmc.Payload(m) == head + (LE(callId, 4) + LE(method_, 4) + body);
      case Success(_, method_, callId, body) =>
        assert Rmc.Payload(m) == head + ([1] + LE(callId, 4) + LE(Rmc.ResponseMethod(method_), 4) + body);
      case Failure(_, callId, result) =>
        assert Rmc.Payload(m) == head + ([0] + LE(Rmc.ErrorResult(result), 4) + LE(callId, 4));
    }
  }

  /** A message is printed as exactly the bytes that hold its fields at their places. */
  lemma {:induction false} MessageLayout(m: Rmc.Message, b: bytes)
    ensures b == Rmc.Encoded(m) <==> IsMessage(b, m)
  {
    hide LE, NumberAt, IsMessage, Rmc.Payload;
    var head := LE(|Rmc.Payload(m)|, 4);
    NumberStep([], b, |Rmc.Payload(m)|, 4);
    assert [] + head == head;
    PayloadStep(head, b, m);
    if IsMessage(b, m) {
      assert |b| >= 4 by { MessageSize(b, m); }
      var h := b[..4];
      PayloadStep(h, b, m);
      assert |h + Rmc.Payload(m)| == |b|;
    }
  }

  lemma {:induction false} MessageSize(b: bytes, m: Rmc.Message)
    requires IsMessage(b, m)
    ensures |b| >= 4 && NumberAt(b, 0, |b| - 4, 4)
  {
    hide NumberAt, RestAt, ProtocolAt;
  }
}
