/** What leaves a connection in answer to what arrives, read back from the bytes: handshake,
    acknowledgements and data. */
module Handshake {
  import opened Bytes
  import opened PrudpLite
  import opened Transport
  import opened Delivery

  // ---- Bits -----------------------------------------------------------------------------------

  predicate Bit(n: nat, i: nat) {
    n / Pow2(i) % 2 == 1
  }

  lemma {:induction false} HalfBit(n: nat, i: nat)
    ensures Bit(n, i + 1) <==> Bit(n / 2, i)
  {
    var p, q, r := Pow2(i), n / 2 / Pow2(i), n / 2 % Pow2(i);
    assert n == 2 * (n / 2) + n % 2 && n / 2 == q * p + r;
    assert q * (2 * p) == 2 * (q * p);
    QuotientUnique(n, 2 * p, q, 2 * r + n % 2);
  }

  /** A bit is agreed exactly when both sides have it. */
  lemma {:induction false} AndBits(a: nat, b: nat, i: nat)
    ensures Bit(And(a, b), i) <==> Bit(a, i) && Bit(b, i)
    decreases a, i
  {
    if a == 0 || b == 0 {
      assert And(a, b) == 0;
      NoBits(i);
    } else if i == 0 {
      assert Pow2(0) == 1;
      assert And(a, b) % 2 == 1 <==> a % 2 == 1 && b % 2 == 1;
    } else {
      AndBits(a / 2, b / 2, i - 1);
      assert And(a, b) / 2 == And(a / 2, b / 2);
      HalfBit(And(a, b), i - 1);
      HalfBit(a, i - 1);
      HalfBit(b, i - 1);
    }
  }

  lemma {:induction false} NoBits(i: nat)
    ensures !Bit(0, i)
  {
  }

  /** Dropping the high bits leaves the low ones. */
  lemma {:induction false} LowBits(n: nat, width: nat, i: nat)
    requires i < width
    ensures Bit(n % Pow2(width), i) <==> Bit(n, i)
  {
    HalfMod(n, width);
    if i == 0 {
      assert Pow2(0) == 1;
    } else {
      LowBits(n / 2, width - 1, i - 1);
      HalfBit(n, i - 1);
      HalfBit(n % Pow2(width), i - 1);
    }
  }

  // ---- One frame more ---------------------------------------------------------------------------

  /** After this step the connection has sent one frame more, and the frame reads as p. */
  predicate SentOne(before: State, after: State, p: Packet) {
    && |after.sent| == |before.sent| + 1 && before.sent <= after.sent
    && DecodeTurn(after.sent[|before.sent|]) == Got(p, [])
  }

  lemma {:induction false} SentEncoded(before: State, after: State, p: Packet)
    requires after.sent == before.sent + [Encoded(p)] && Framable(p)
    ensures SentOne(before, after, OnWire(p))
  {
    hide Encoded, DecodeTurn, Framable, OnWire;
    EncodeDecode(p, []);
    assert Encoded(p) + [] == Encoded(p);
  }

  // ---- The handshake ------------------------------------------------------------------------------

  /** The smaller version, the functions both sides know. */
  predicate Agreed(env: Env, p: Packet, minorVersion: byte, supportedFunc: u32)
    requires env.supportedFunctions >= 0
  {
    && minorVersion == (if env.minorVersion < p.minorVersion then env.minorVersion else p.minorVersion)
    && forall i: nat :: i < 24 ==>
         (Bit(supportedFunc, i) <==> Bit(env.supportedFunctions, i) && Bit(p.supportedFunc, i))
  }

  /** A SYN is answered as the port it was sent to, to the port it came from, with the version
      and the functions both sides know and the signature drawn for this peer; the connection keeps
      those ports for everything it sends later, starts with an empty window, and changes nothing
      else. */
  lemma {:induction false} SynAnswered(env: Env, s: State, p: Packet)
    requires p.ptype == 0 && !p.HasFlag(FLAG_ACK) && p.sourceType < 16 && p.destType < 16
    requires 0 <= env.minorVersion && 0 <= env.supportedFunctions && |env.connectionSignature| < 248
    ensures var t := HandlePacket(env, s, p);
            && t.ports == Ports(p.destType, p.destPort, p.sourceType, p.sourcePort)
            && t.window == [] && t.connectionSig == env.connectionSignature
            && Agreed(env, p, t.minorVersion, t.supportedFunc)
            && t == s.(ports := t.ports, window := [], connectionSig := t.connectionSig,
                       minorVersion := t.minorVersion, supportedFunc := t.supportedFunc, sent := t.sent)
            && SentOne(s, t, Packet(0, 0x009, p.destType, p.destPort, p.sourceType, p.sourcePort, 0, 0,
                                    [], env.connectionSignature, t.minorVersion, t.supportedFunc % 0x100_0000, []))
  {
    hide Encoded, And, Agreed;
    var t := HandlePacket(env, s, p);
    AgreedOnSyn(env, p, t.minorVersion, t.supportedFunc);
    var ack := Packet(0, 0x009, p.destType, p.destPort, p.sourceType, p.sourcePort, 0, 0,
                      [], env.connectionSignature, t.minorVersion, t.supportedFunc, []);
    assert t.sent == s.sent + [Encoded(ack)];
    SynFits(ack);
    SentEncoded(s, t, ack);
  }

  lemma {:induction false} SynFits(p: Packet)
    requires p.ptype == 0 && p.flags == 0x009 && p.payload == [] && |p.connectionSig| < 248
    requires p.sourceType < 16 && p.destType < 16 && p.signature == []
    ensures Framable(p) && OnWire(p) == p.(supportedFunc := p.supportedFunc % 0x100_0000)
  {
    hide LE;
  }

  lemma {:induction false} AgreedOnSyn(env: Env, p: Packet, minorVersion: byte, supportedFunc: u32)
    requires 0 <= env.minorVersion && 0 <= env.supportedFunctions
    requires minorVersion == if env.minorVersion < p.minorVersion then env.minorVersion % 256 else p.minorVersion
    requires supportedFunc == And(env.supportedFunctions % 0x1_0000_0000, p.supportedFunc)
    ensures Agreed(env, p, minorVersion, supportedFunc)
  {
    hide And;
    assert Pow2(32) == 0x1_0000_0000 by { ThirtyTwoBits(); }
    forall i: nat | i < 24
      ensures Bit(supportedFunc, i) <==> Bit(env.supportedFunctions, i) && Bit(p.supportedFunc, i)
    {
      AndBits(env.supportedFunctions % 0x1_0000_0000, p.supportedFunc, i);
      LowBits(env.supportedFunctions, 32, i);
    }
  }

  lemma {:induction false} ThirtyTwoBits()
    ensures Pow2(32) == 0x1_0000_0000
  {
    EightBits();
    assert Pow2(12) == 16 * Pow2(8);
    assert Pow2(16) == 16 * Pow2(12);
    assert Pow2(20) == 16 * Pow2(16);
    assert Pow2(24) == 16 * Pow2(20);
    assert Pow2(28) == 16 * Pow2(24);
  }

  /** A CONNECT whose login is accepted is answered once, under number 1, with the login's
      response, and connects; a refused one changes nothing. */
  lemma {:induction false} ConnectAnswered(env: Env, s: State, p: Packet)
    requires p.ptype == 1 && !p.HasFlag(FLAG_ACK) && WirePorts(s.ports)
    requires env.login(p).Some? ==> |env.login(p).value| < 0x1_0000
    ensures var t := HandlePacket(env, s, p);
            if env.login(p).None? then t == s
            else
              && t == s.(phase := Connected, sent := t.sent)
              && SentOne(s, t, Packet(1, 0x009, s.ports.srcType, s.ports.srcPort, s.ports.dstType, s.ports.dstPort,
                                      0, 1, [], [], s.minorVersion, s.supportedFunc % 0x100_0000, env.login(p).value))
  {
    hide Encoded;
    if env.login(p).Some? {
      var ack := Packet(1, 0x009, s.ports.srcType, s.ports.srcPort, s.ports.dstType, s.ports.dstPort,
                        0, 1, [], [], s.minorVersion, s.supportedFunc, env.login(p).value);
      assert HandlePacket(env, s, p).sent == s.sent + [Encoded(ack)];
      ConnectFits(ack);
      SentEncoded(s, HandlePacket(env, s, p), ack);
    }
  }

  lemma {:induction false} ConnectFits(p: Packet)
    requires p.ptype == 1 && p.flags == 0x009 && |p.payload| < 0x1_0000
    requires p.sourceType < 16 && p.destType < 16 && p.signature == [] && p.connectionSig == []
    ensures Framable(p) && OnWire(p) == p.(supportedFunc := p.supportedFunc % 0x100_0000)
  {
    hide LE;
  }

  // ---- Acknowledgements -----------------------------------------------------------------------------

  /** The acknowledgement of p, as the peer reads it. */
  function Acknowledgement(ports: Ports, p: Packet): Packet {
    Packet(p.ptype, 0x001, ports.srcType, ports.srcPort, ports.dstType, ports.dstPort,
           p.fragmentId, p.packetId, [], [], 0, 0, [])
  }

  lemma {:induction false} AckSent(s: State, p: Packet)
    requires WirePorts(s.ports) && p.ptype < 16
    ensures SentOne(s, SendAck(s, p), Acknowledgement(s.ports, p))
  {
    hide Encoded, AckOf;
    AckOnWire(s.ports, p);
    SentEncoded(s, SendAck(s, p), AckOf(s.ports, p));
  }

  /** A reliable data packet is answered with its own number, repeated or not. */
  lemma {:induction false} DataAnswered(env: Env, s: State, p: Packet)
    requires WirePorts(s.ports) && p.ptype == 2 && p.flags == FLAG_RELIABLE + FLAG_NEED_ACK
    ensures SentOne(s, HandlePacket(env, s, p), Acknowledgement(s.ports, p))
  {
    hide Encoded, AckOf, HandlePacket, DecodeTurn, Acknowledgement;
    HandleReliable(env, s, p);
    AckSent(s, p);
  }

  /** A ping is answered exactly when it asks to be and is no answer itself, and does nothing else;
      a disconnection closes the connection, answered if it asks to be. */
  lemma {:induction false} PingAndDisconnect(env: Env, s: State, p: Packet)
    requires WirePorts(s.ports) && (p.ptype == 3 || p.ptype == 4)
    ensures var t := HandlePacket(env, s, p);
            && t == s.(sent := t.sent, phase := t.phase)
            && t.phase == (if p.ptype == 3 && !p.HasFlag(FLAG_ACK) then Closed else s.phase)
            && (if !p.HasFlag(FLAG_ACK) && p.HasFlag(FLAG_NEED_ACK)
                then SentOne(s, t, Acknowledgement(s.ports, p)) else t.sent == s.sent)
  {
    hide Encoded, AckOf, DecodeTurn, Acknowledgement;
    AckSent(s, p);
  }

  // ---- Data -----------------------------------------------------------------------------------------

  /** A fragment goes out from our port to the peer's as reliable data under the next number, and
      stays pending under it. */
  lemma {:induction false} FragmentSent(s: State, f: Fragment)
    requires WirePorts(s.ports) && |f.payload| < 0x1_0000
    ensures var t := SendOneFragment(s, f);
            && SentOne(s, t, Packet(2, 0x006, s.ports.srcType, s.ports.srcPort, s.ports.dstType, s.ports.dstPort,
                                    f.id, s.outReliable, [], [], 0, 0, f.payload))
            && t.pending == s.pending[s.outReliable := t.sent[|s.sent|]]
            && t.outReliable == (if s.outReliable == 65535 then 0 else s.outReliable + 1)
            && t == s.(sent := t.sent, pending := t.pending, outReliable := t.outReliable)
  {
    hide Encoded, Framable, OnWire, DecodeTurn;
    DataPacketOnWire(s.ports, f, s.outReliable);
    SentEncoded(s, SendOneFragment(s, f), DataPacket(s.ports, f, s.outReliable));
  }
}
