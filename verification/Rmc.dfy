/** Remote method calls (rmc.go): the message layout inside a PRUDP payload. */
module Rmc {
  import opened Bytes
  import opened Streams

  datatype Message =
    | Request(protocol: u16, method_: u32, callId: u32, body: bytes)
    | Success(protocol: u16, method_: u32, callId: u32, body: bytes)
    | Failure(protocol: u16, callId: u32, result: u32)

  // Single-bit masks, written arithmetically.

  /** result | 1<<31 */
  function ErrorResult(result: u32): u32 {
    if result / 0x8000_0000 % 2 == 1 then result else result + 0x8000_0000
  }

  /** method | 0x8000 */
  function ResponseMethod(method_: u32): (r: u32)
    ensures r / 0x8000 % 2 == 1
  {
    if method_ / 0x8000 % 2 == 1 then method_ else method_ + 0x8000
  }

  /** method &^ 0x8000 */
  function PlainMethod(method_: u32): u32 {
    if method_ / 0x8000 % 2 == 1 then method_ - 0x8000 else method_
  }

  /** One byte below 0x80, otherwise an escape byte and the protocol on two bytes. */
  function ProtocolBytes(protocol: u16, flag: byte): bytes
    requires flag == 0 || flag == 0x80
  {
    if protocol < 0x80 then [protocol + flag]
    else [0x7F + flag] + LE(protocol, 2)
  }

  function Payload(m: Message): bytes {
    match m
    case Request(protocol, method_, callId, body) =>
      ProtocolBytes(protocol, 0x80) + LE(callId, 4) + LE(method_, 4) + body
    case Success(protocol, method_, callId, body) =>
      ProtocolBytes(protocol, 0) + [1] + LE(callId, 4) + LE(ResponseMethod(method_), 4) + body
    case Failure(protocol, callId, result) =>
      ProtocolBytes(protocol, 0) + [0] + LE(ErrorResult(result), 4) + LE(callId, 4)
  }

  function Encoded(m: Message): bytes {
    LE(|Payload(m)|, 4) + Payload(m)
  }

  method Encode(m: Message, settings: Settings) returns (out: bytes)
    ensures out == Encoded(m)
  {
    hide LE, ResponseMethod, ErrorResult;
    var s := new StreamOut(settings);
    var flag := if m.Request? then 0x80 else 0;
    if m.protocol < 0x80 {
      s.U8(m.protocol + flag);
    } else {
      s.U8(0x7F + flag);
      s.U16(m.protocol);
    }
    assert s.buf == ProtocolBytes(m.protocol, flag);
    match m {
      case Request(_, method_, callId, body) =>
        s.U32(callId);
        s.U32(method_);
        s.Write(body);
      case Failure(_, callId, result) =>
        s.Bool(false);
        s.U32(ErrorResult(result));
        s.U32(callId);
      case Success(_, method_, callId, body) =>
        s.Bool(true);
        s.U32(callId);
        s.U32(ResponseMethod(method_));
        s.Write(body);
    }
    assert s.buf == Payload(m);
    out := LE(|s.buf|, 4) + s.buf;
  }

  /** The byte that carries the request bit, and the protocol, escaped or not. */
  function ReadProtocol(data: bytes, c: Cursor): (byte, u16, Cursor) {
    var (proto, c1) := ReadU8(data, c);
    if proto % 0x80 == 0x7F then
      var (wide, c2) := ReadU16(data, c1);
      (proto, wide, c2)
    else (proto, proto % 0x80, c1)
  }

  function ReadCall(data: bytes, c: Cursor): (u32, u32, bytes, Cursor)
    requires c.pos <= |data|
  {
    var (callId, c1) := ReadU32(data, c);
    var (method_, c2) := ReadU32(data, c1);
    var (body, c3) := ReadRaw(data, c2, |data| - c2.pos);
    (callId, method_, body, c3)
  }

  /** The message, or None when the size prefix disagrees or a field is missing. */
  function Parsed(data: bytes): Option<Message> {
    var (length, c1) := ReadU32(data, Cursor(0, false));
    if length != |data| - 4 then None
    else
      var (proto, protocol, c2) := ReadProtocol(data, c1);
      if proto >= 0x80 then
        var (callId, method_, body, c3) := ReadCall(data, c2);
        if c3.err then None else Some(Request(protocol, method_, callId, body))
      else
        var (ok, c3) := ReadBool(data, c2);
        if ok then
          var (callId, method_, body, c4) := ReadCall(data, c3);
          if c4.err then None
          else Some(Success(protocol, PlainMethod(method_), callId, body))
        else
          var (result, c4) := ReadU32(data, c3);
          var (callId, c5) := ReadU32(data, c4);
          if c5.err then None else Some(Failure(protocol, callId, result))
  }

  method ParseRMC(data: bytes, settings: Settings) returns (m: Option<Message>)
    ensures m == Parsed(data)
  {
    var input := new StreamIn(data, settings);
    var length := input.U32();
    if length != |data| - 4 {
      return None;
    }
    var proto := input.U8();
    var protocol: u16 := proto % 0x80;
    if protocol == 0x7F {
      protocol := input.U16();
    }
    if proto >= 0x80 {
      var callId := input.U32();
      var method_ := input.U32();
      var body := input.ReadAll();
      m := Some(Request(protocol, method_, callId, body));
    } else {
      var ok := input.Bool();
      if ok {
        var callId := input.U32();
        var method_ := input.U32();
        var body := input.ReadAll();
        m := Some(Success(protocol, PlainMethod(method_), callId, body));
      } else {
        var result := input.U32();
        var callId := input.U32();
        m := Some(Failure(protocol, callId, result));
      }
    }
    if input.err {
      m := None;
    }
  }

  /** What the wire keeps of a message: a response method loses bit 15, an error result
      always carries the error bit. */
  function OnWire(m: Message): Message {
    match m
    case Request(_, _, _, _) => m
    case Success(_, method_, _, _) =>
      m.(method_ := PlainMethod(ResponseMethod(method_)))
    case Failure(_, _, result) => m.(result := ErrorResult(result))
  }

  lemma {:induction false} BitFifteen(method_: u32)
    ensures PlainMethod(ResponseMethod(method_)) == method_ <==> method_ / 0x8000 % 2 == 0
  {
  }

  lemma {:induction false} ReadProtocolBack(buf: bytes, protocol: u16, flag: byte, data: bytes)
    requires flag == 0 || flag == 0x80
    requires protocol != 0x7F
    requires buf + ProtocolBytes(protocol, flag) <= data
    ensures buf <= data
    ensures var (proto, p, c) := ReadProtocol(data, Cursor(|buf|, false));
            (proto >= 0x80 <==> flag == 0x80)
            && p == protocol && c == Cursor(|buf + ProtocolBytes(protocol, flag)|, false)
  {
    hide LE;
    if protocol < 0x80 {
      ReadU8Back(buf, protocol + flag, data);
    } else {
      assert buf + [0x7F + flag] + LE(protocol, 2) == buf + ProtocolBytes(protocol, flag);
      ReadU16Back(buf + [0x7F + flag], protocol, data);
      ReadU8Back(buf, 0x7F + flag, data);
    }
  }

  lemma {:induction false} ReadCallBack(buf: bytes, callId: u32, method_: u32, body: bytes)
    ensures ReadCall(buf + LE(callId, 4) + LE(method_, 4) + body, Cursor(|buf|, false))
         == (callId, method_, body, Cursor(|buf| + 8 + |body|, false))
    ensures buf <= buf + LE(callId, 4) + LE(method_, 4) + body
  {
    hide LE;
    var b1 := buf + LE(callId, 4);
    var b2 := b1 + LE(method_, 4);
    PrefixAt(b2, body, b2 + body);
    ReadU32Back(b1, method_, b2 + body);
    ReadU32Back(buf, callId, b2 + body);
  }

  /** The size prefix and the protocol of a printed message. */
  lemma {:induction false} ReadHeadBack(m: Message)
    requires m.protocol != 0x7F && |Payload(m)| < 0x1_0000_0000
    ensures ReadU32(Encoded(m), Cursor(0, false)) == (|Encoded(m)| - 4, Cursor(4, false))
    ensures var head := ProtocolBytes(m.protocol, if m.Request? then 0x80 else 0);
            var (proto, p, c) := ReadProtocol(Encoded(m), Cursor(4, false));
            (proto >= 0x80 <==> m.Request?) && p == m.protocol && c == Cursor(4 + |head|, false)
            && LE(|Payload(m)|, 4) + head <= Encoded(m)
  {
    hide LE, ReadU32, ReadProtocol, ProtocolBytes, ResponseMethod, ErrorResult;
    var flag: byte := if m.Request? then 0x80 else 0;
    var head := ProtocolBytes(m.protocol, flag);
    var b1 := LE(|Payload(m)|, 4);
    assert head <= Payload(m);
    assert b1 + head <= Encoded(m);
    ReadProtocolBack(b1, m.protocol, flag, Encoded(m));
    assert [] + b1 == b1;
    ReadU32Back([], |Payload(m)|, Encoded(m));
  }

  /** Messages whose protocol is not the escape value 0x7F and whose size fits the u32 prefix
      parse back to what the wire keeps of them. */
  lemma {:induction false} EncodeParse(m: Message)
    requires m.protocol != 0x7F && |Payload(m)| < 0x1_0000_0000
    ensures Parsed(Encoded(m)) == Some(OnWire(m))
  {
    ReadHeadBack(m);
    match m
    case Request(_, _, _, _) => EncodeParseRequest(m);
    case Success(_, _, _, _) => EncodeParseSuccess(m);
    case Failure(_, _, _) => EncodeParseFailure(m);
  }

  lemma {:induction false} EncodeParseRequest(m: Message)
    requires m.Request? && m.protocol != 0x7F && |Payload(m)| < 0x1_0000_0000
    ensures Parsed(Encoded(m)) == Some(m)
  {
    hide LE, ReadU32, ReadProtocol, ReadCall, ProtocolBytes;
    ReadHeadBack(m);
    var b2 := LE(|Payload(m)|, 4) + ProtocolBytes(m.protocol, 0x80);
    assert b2 + LE(m.callId, 4) + LE(m.method_, 4) + m.body == Encoded(m);
    ReadCallBack(b2, m.callId, m.method_, m.body);
  }

  lemma {:induction false} EncodeParseSuccess(m: Message)
    requires m.Success? && m.protocol != 0x7F && |Payload(m)| < 0x1_0000_0000
    ensures Parsed(Encoded(m)) == Some(OnWire(m))
  {
    hide LE, PlainMethod, ResponseMethod, ErrorResult, ReadU32, ReadProtocol, ReadCall, ReadBool, ProtocolBytes;
    ReadHeadBack(m);
    var data := Encoded(m);
    var b2 := LE(|Payload(m)|, 4) + ProtocolBytes(m.protocol, 0);
    var b3 := b2 + BoolBytes(true);
    var wire := ResponseMethod(m.method_);
    assert b3 + LE(m.callId, 4) + LE(wire, 4) + m.body == data;
    ReadCallBack(b3, m.callId, wire, m.body);
    ReadBoolBack(b2, true, data);
  }

  lemma {:induction false} EncodeParseFailure(m: Message)
    requires m.Failure? && m.protocol != 0x7F && |Payload(m)| < 0x1_0000_0000
    ensures Parsed(Encoded(m)) == Some(OnWire(m))
  {
    hide LE, PlainMethod, ResponseMethod, ErrorResult, ReadU32, ReadProtocol, ReadCall, ReadBool, ProtocolBytes;
    ReadHeadBack(m);
    var data := Encoded(m);
    var b2 := LE(|Payload(m)|, 4) + ProtocolBytes(m.protocol, 0);
    var b3 := b2 + BoolBytes(false);
    var wire := ErrorResult(m.result);
    var b4 := b3 + LE(wire, 4);
    assert b4 + LE(m.callId, 4) == data;
    ReadU32Back(b4, m.callId, data);
    ReadU32Back(b3, wire, data);
    ReadBoolBack(b2, false, data);
  }

  /** Where the body starts, given the byte that names the protocol. */
  function BodyOffset(m: Message, proto: byte): nat {
    4 + 1 + (if proto % 0x80 == 0x7F then 2 else 0) + (if m.Request? then 8 else 9)
  }

  lemma {:induction false} ParsedSize(data: bytes)
    requires Parsed(data).Some?
    ensures |data| >= 5
    ensures var m := Parsed(data).value;
            |data| >= BodyOffset(m, data[4]) + (if m.Failure? then 0 else |m.body|)
            && (!m.Failure? ==> |data| == BodyOffset(m, data[4]) + |m.body|)
  {
  }

  /** The protocol an escaped message names. */
  lemma {:induction false} ParsedWideProtocol(data: bytes)
    requires Parsed(data).Some? && |data| >= 5 && data[4] % 0x80 == 0x7F
    ensures |data| >= 7 && Parsed(data).value.protocol >= 256 * (data[6] as int)
  {
    ParsedSize(data);
    var b := data[5..7];
    assert b[1..][1..] == [] && UnLE(b) == b[0] + 256 * UnLE(b[1..]);
  }

  /** Bytes in front of a printed request never leave it readable as itself: they change its size
      by two at most, and only by making two bytes of it, too large, name the protocol. */
  lemma {:induction false} LeftoverSpoils(front: bytes, m: Message)
    requires front != [] && m.Request? && m.protocol != 0x7F && |Payload(m)| < 0x1_0000_0000
    ensures Parsed(front + Encoded(m)) != Some(m)
  {
    hide LE, Payload, Encoded, UnLE;
    var data, plain := front + Encoded(m), Encoded(m);
    EncodeParse(m);
    ParsedSize(plain);
    FirstByte(m);
    if Parsed(data) == Some(m) {
      hide Parsed;
      ParsedSize(data);
      assert |front| == 2 && data[4] % 0x80 == 0x7F && data[6] == plain[4];
      ParsedWideProtocol(data);
    }
  }

  lemma {:induction false} FirstByte(m: Message)
    requires m.Request? && m.protocol != 0x7F
    ensures |Encoded(m)| >= 5
    ensures m.protocol < 0x80 ==> Encoded(m)[4] == m.protocol + 0x80 && Encoded(m)[4] % 0x80 != 0x7F
    ensures m.protocol >= 0x80 ==> Encoded(m)[4] % 0x80 == 0x7F
  {
    hide LE;
  }

  lemma {:induction false} TooLongIsRefused(m: Message)
    requires |Payload(m)| >= 0x1_0000_0000
    ensures Parsed(Encoded(m)).None?
  {
    hide LE, Payload, ReadProtocol, ReadCall;
    assert LE(|Payload(m)|, 4) <= Encoded(m);
  }

  lemma {:induction false} EscapeDoesNotReturn(m: Message)
    requires m.protocol == 0x7F
    ensures Parsed(Encoded(m)) != Some(m)
  {
    hide LE, Parsed, ResponseMethod, ErrorResult;
    var data := Encoded(m);
    if Parsed(data).Some? {
      ParsedSize(data);
      assert data[4] % 0x80 == 0x7F;
    }
  }

  /** A message comes back from the wire unchanged exactly when its protocol is not 0x7F, its
      size fits the prefix, a response method has bit 15 clear and an error has the error bit. */
  lemma {:induction false} RoundTripIff(m: Message)
    ensures Parsed(Encoded(m)) == Some(m)
       <==> && m.protocol != 0x7F
            && |Payload(m)| < 0x1_0000_0000
            && (m.Success? ==> m.method_ / 0x8000 % 2 == 0)
            && (m.Failure? ==> m.result / 0x8000_0000 % 2 == 1)
  {
    hide Parsed, Encoded, Payload, PlainMethod, ResponseMethod;
    if |Payload(m)| >= 0x1_0000_0000 {
      TooLongIsRefused(m);
    } else if m.protocol == 0x7F {
      EscapeDoesNotReturn(m);
    } else {
      EncodeParse(m);
      if m.Success? { BitFifteen(m.method_); }
    }
  }
}
