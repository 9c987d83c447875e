/** One PRUDP-Lite connection (endpoint.go), with its buffers and counters updated in place. */
module Connections {
  import opened Bytes
  import opened PrudpLite
  import opened Transport
  import Streams

  /** A ring whose slots before `pos` are in use, or all of them once it has wrapped. */
  predicate RingValid(vus: seq<bool>, pos: nat) {
    && |vus| == WINDOW && pos < WINDOW
    && forall i :: 0 <= i < WINDOW ==> vus[i] == (vus[WINDOW - 1] || i < pos)
  }

  /** The ring read from the oldest entry to the newest. */
  function RingContents(ids: seq<u16>, full: bool, pos: nat): seq<u16>
    requires pos < |ids| == WINDOW
  {
    if full then ids[pos..] + ids[..pos] else ids[..pos]
  }

  lemma {:induction false} RingHolds(ids: seq<u16>, vus: seq<bool>, pos: nat, id: u16)
    requires RingValid(vus, pos) && |ids| == WINDOW
    ensures id in RingContents(ids, vus[WINDOW - 1], pos)
       <==> exists i :: 0 <= i < WINDOW && vus[i] && ids[i] == id
  {
    var w := RingContents(ids, vus[WINDOW - 1], pos);
    forall i | 0 <= i < WINDOW && vus[i] && ids[i] == id ensures id in w {
      assert w[if !vus[WINDOW - 1] then i else if i >= pos then i - pos else WINDOW - pos + i] == id;
    }
    if id in w {
      var k :| 0 <= k < |w| && w[k] == id;
      var i := if !vus[WINDOW - 1] then k else if k < WINDOW - pos then k + pos else k - (WINDOW - pos);
      assert vus[i] && ids[i] == id;
    }
  }

  lemma {:induction false} RingStaysValid(vus: seq<bool>, pos: nat)
    requires RingValid(vus, pos)
    ensures RingValid(vus[pos := true], (pos + 1) % WINDOW)
    ensures vus[pos := true][WINDOW - 1] == (vus[WINDOW - 1] || pos + 1 == WINDOW)
    ensures (pos + 1) % WINDOW == if pos + 1 == WINDOW then 0 else pos + 1
  {
  }

  lemma {:induction false} RingPush(ids: seq<u16>, full: bool, pos: nat, id: u16)
    requires pos < |ids| == WINDOW
    ensures RingContents(ids[pos := id], full || pos + 1 == WINDOW, if pos + 1 == WINDOW then 0 else pos + 1)
         == Remember(RingContents(ids, full, pos), id)
  {
    var ids' := ids[pos := id];
    if pos + 1 == WINDOW {
      assert ids' == ids[..pos] + [id];
      assert full ==> (ids[pos..] + ids[..pos])[1..] == ids[..pos];
    } else if full {
      assert ids'[pos + 1..] + ids'[..pos + 1] == (ids[pos..] + ids[..pos])[1..] + [id];
    } else {
      assert ids'[..pos + 1] == ids[..pos] + [id];
    }
  }

  class Connection {
    const settings: Streams.Settings
    const env: Env

    var recvBuf: bytes
    var fragBuf: bytes

    // The ring of the last accepted reliable sequence numbers.
    const recus: array<u16>
    const recusVus: array<bool>
    var recusPos: nat

    var outReliable: u16
    var pending: map<u16, bytes>
    var phase: Phase
    var ports: Ports
    var connectionSig: bytes
    var minorVersion: byte
    var supportedFunc: u32

    // What the send callback was given, and what the request handlers were given.
    var sent: seq<bytes>
    var dispatched: seq<Rmc.Message>

    ghost predicate Valid()
      reads this, recus, recusVus
    {
      recus.Length == WINDOW && recusVus.Length == WINDOW && RingValid(recusVus[..], recusPos)
    }

    ghost function Window(): seq<u16>
      requires Valid()
      reads this, recus, recusVus
    {
      RingContents(recus[..], recusVus[WINDOW - 1], recusPos)
    }

    ghost function Model(): State
      requires Valid()
      reads this, recus, recusVus
    {
      State(recvBuf, fragBuf, Window(), dispatched, sent, pending, outReliable, phase, ports,
            connectionSig, minorVersion, supportedFunc)
    }

    constructor (s: Streams.Settings, e: Env)
      ensures Valid() && fresh(recus) && fresh(recusVus) && settings == s && env == e
      ensures Model() == State([], [], [], [], [], map[], 1, Connecting, Ports(0, 0, 0, 0), [], 0, 0)
    {
      settings, env := s, e;
      recvBuf, fragBuf := [], [];
      recus := new u16[WINDOW](_ => 0);
      recusVus := new bool[WINDOW](_ => false);
      recusPos := 0;
      outReliable, pending, phase := 1, map[], Connecting;
      ports, connectionSig, minorVersion, supportedFunc := Ports(0, 0, 0, 0), [], 0, 0;
      sent, dispatched := [], [];
    }

    /** Whether this reliable number was already received; it is remembered otherwise. */
    method DejaRecu(id: u16) returns (seen: bool)
      requires Valid()
      modifies this`recusPos, recus, recusVus
      ensures Valid()
      ensures seen <==> id in old(Window())
      ensures Window() == if seen then old(Window()) else Remember(old(Window()), id)
    {
      hide RingContents;
      RingHolds(recus[..], recusVus[..], recusPos, id);
      var i := 0;
      while i < recus.Length
        invariant 0 <= i <= WINDOW
        invariant forall j :: 0 <= j < i ==> !(recusVus[j] && recus[j] == id)
      {
        if recusVus[i] && recus[i] == id {
          return true;
        }
        i := i + 1;
      }
      RingStaysValid(recusVus[..], recusPos);
      RingPush(recus[..], recusVus[WINDOW - 1], recusPos, id);
      recus[recusPos] := id;
      recusVus[recusPos] := true;
      recusPos := (recusPos + 1) % recus.Length;
      return false;
    }

    method AckPackets(base: u16, extra: seq<u16>)
      requires Valid()
      modifies this`pending
      ensures Valid() && Model() == old(Model()).(pending := AfterAcks(old(pending), base, extra))
    {
      var todo := pending.Keys;
      while todo != {}
        invariant todo <= pending.Keys
        invariant pending == map id | id in old(pending) && (id in todo || id > base) :: old(pending)[id]
        decreases todo
      {
        var id :| id in todo;
        if id <= base {
          pending := pending - {id};
        }
        todo := todo - {id};
      }
      var i := 0;
      while i < |extra|
        invariant 0 <= i <= |extra|
        invariant pending == AfterAcks(old(pending), base, extra[..i])
      {
        pending := pending - {extra[i]};
        i := i + 1;
      }
      assert extra[..i] == extra;
    }

    method Send(p: Packet)
      requires Valid()
      modifies this`sent
      ensures Valid() && Model() == old(Model()).(sent := old(sent) + [Encoded(p)])
    {
      var encoded := EncodePacket(p);
      sent := sent + [encoded];
    }

    method SendAck(p: Packet)
      requires Valid()
      modifies this`sent
      ensures Valid() && Model() == Transport.SendAck(old(Model()), p)
    {
      Send(AckOf(ports, p));
    }

    method DispatchRMC(payload: bytes)
      requires Valid()
      modifies this`dispatched
      ensures Valid() && Model() == old(Model()).(dispatched := DispatchTo(old(dispatched), payload))
    {
      var req := Rmc.ParseRMC(payload, settings);
      if req.None? || !req.value.Request? {
        return;
      }
      dispatched := dispatched + [req.value];
    }

    /** [substream][count][base u16][extra u16]*count, as far as the payload goes. */
    method MultiAck(pl: bytes)
      requires Valid() && |pl| >= 4
      modifies this`pending
      ensures Valid()
      ensures Model() == old(Model()).(pending := AfterAcks(old(pending), Get16(pl[2..4]), ExtraAcks(pl, pl[1], 4)))
    {
      hide RingContents;
      var count: nat := pl[1];
      var base := Get16(pl[2..4]);
      var extra: seq<u16> := [];
      var i, off := 0, 4;
      while i < count && off + 2 <= |pl|
        invariant 0 <= i <= count && off >= 4
        invariant ExtraAcks(pl, count, 4) == extra + ExtraAcks(pl, count - i, off)
        decreases count - i
      {
        extra := extra + [Get16(pl[off..off + 2])];
        i, off := i + 1, off + 2;
      }
      assert ExtraAcks(pl, count - i, off) == [];
      AckPackets(base, extra);
    }

    method ProcessData(p: Packet)
      requires Valid()
      modifies this, recus, recusVus
      ensures Valid() && Model() == Transport.ProcessData(old(Model()), p)
    {
      hide RingContents, ExtraAcks, AfterAcks, DispatchTo, Remember;
      if p.HasFlag(FLAG_MULTI_ACK) {
        if |p.payload| >= 4 {
          MultiAck(p.payload);
        }
        return;
      }
      if p.HasFlag(FLAG_ACK) {
        AckPackets(p.packetId, []);
        return;
      }
      if p.HasFlag(FLAG_NEED_ACK) {
        SendAck(p);
        var seen := DejaRecu(p.packetId);
        if seen {
          return;
        }
      }
      fragBuf := fragBuf + p.payload;
      if p.fragmentId == 0 {
        var full := fragBuf;
        fragBuf := [];
        DispatchRMC(full);
      }
    }

    method ForgetWindow()
      requires Valid()
      modifies this`recusPos, recusVus
      ensures Valid() && Model() == old(Model()).(window := [])
    {
      forall i | 0 <= i < recusVus.Length {
        recusVus[i] := false;
      }
      recusPos := 0;
    }

    method ProcessSYN(p: Packet)
      requires Valid()
      modifies this, recusVus
      ensures Valid() && Model() == Transport.ProcessSYN(env, old(Model()), p)
    {
      hide And, Encoded, RingContents;
      ports := Ports(p.destType, p.destPort, p.sourceType, p.sourcePort);
      connectionSig := env.connectionSignature;
      minorVersion := if env.minorVersion < p.minorVersion then env.minorVersion % 256 else p.minorVersion;
      ForgetWindow();
      supportedFunc := And(env.supportedFunctions % 0x1_0000_0000, p.supportedFunc);
      Send(BLANK_PACKET.(ptype := PACKET_SYN, flags := FLAG_ACK + FLAG_HAS_SIZE,
                         sourceType := ports.srcType, sourcePort := ports.srcPort,
                         destType := ports.dstType, destPort := ports.dstPort,
                         connectionSig := connectionSig,
                         minorVersion := minorVersion, supportedFunc := supportedFunc));
    }

    method ProcessCONNECT(p: Packet)
      requires Valid()
      modifies this
      ensures Valid() && Model() == Transport.ProcessCONNECT(env, old(Model()), p)
    {
      var response := env.login(p);
      if response.None? {
        return;
      }
      Send(BLANK_PACKET.(ptype := PACKET_CONNECT, flags := FLAG_ACK + FLAG_HAS_SIZE,
                         sourceType := ports.srcType, sourcePort := ports.srcPort,
                         destType := ports.dstType, destPort := ports.dstPort,
                         minorVersion := minorVersion, supportedFunc := supportedFunc,
                         packetId := 1, payload := response.value));
      phase := Connected;
    }

    method HandlePacket(p: Packet)
      requires Valid()
      modifies this, recus, recusVus
      ensures Valid() && Model() == Transport.HandlePacket(env, old(Model()), p)
    {
      hide Transport.ProcessSYN, Transport.ProcessCONNECT, Transport.ProcessData, RingContents;
      match p.ptype {
        case 0 =>
          if !p.HasFlag(FLAG_ACK) {
            ProcessSYN(p);
          }
        case 1 =>
          if !p.HasFlag(FLAG_ACK) {
            ProcessCONNECT(p);
          }
        case 2 =>
          ProcessData(p);
        case 4 =>
          if p.HasFlag(FLAG_ACK) {
            return;
          }
          if p.HasFlag(FLAG_NEED_ACK) {
            SendAck(p);
          }
        case 3 =>
          if !p.HasFlag(FLAG_ACK) {
            if p.HasFlag(FLAG_NEED_ACK) {
              SendAck(p);
            }
            phase := Closed;
          }
        case _ =>
          var frames := env.custom(p);
          if frames.Some? {
            sent := sent + frames.value;
          }
      }
    }

    /** Raw bytes from the transport: whole packets are handled, a partial one is kept. */
    method Feed(data: bytes)
      requires Valid()
      modifies this, recus, recusVus
      ensures Valid() && Model() == Transport.Feed(env, old(Model()), data)
    {
      hide Transport.HandlePacket, RingContents;
      recvBuf := recvBuf + data;
      var packets, rest, ok := DecodePackets(recvBuf);
      if !ok {
        recvBuf := [];
        return;
      }
      recvBuf := rest;
      ghost var start := Model();
      var i := 0;
      while i < |packets|
        invariant 0 <= i <= |packets| && Valid()
        invariant HandleAll(env, start, packets) == HandleAll(env, Model(), packets[i..])
      {
        HandlePacket(packets[i]);
        i := i + 1;
      }
    }

    method SendOneFragment(chunk: bytes, fragmentId: byte)
      requires Valid()
      modifies this
      ensures Valid() && Model() == Transport.SendOneFragment(old(Model()), Fragment(chunk, fragmentId))
      ensures phase == old(phase)
    {
      var pid := outReliable;
      var pkt := DataPacket(ports, Fragment(chunk, fragmentId), pid);
      outReliable := (outReliable + 1) % 0x1_0000;
      var encoded := EncodePacket(pkt);
      sent := sent + [encoded];
      pending := pending[pid := encoded];
    }

    method SendData(data: bytes)
      requires Valid()
      modifies this
      ensures Valid() && Model() == Transport.SendData(old(Model()), settings.fragmentSize, data)
    {
      hide Transport.SendOneFragment, RingContents;
      var fragSize := FragmentSize(settings.fragmentSize);
      if |data| <= fragSize {
        assert [Fragment(data, 0)][1..] == [];
        assert SendFragments(old(Model()), [Fragment(data, 0)])
            == Transport.SendOneFragment(old(Model()), Fragment(data, 0));
        SendOneFragment(data, 0);
        return;
      }
      var fragmentId: byte := 1;
      var rest := data;
      ghost var start := Model();
      while true
        invariant Valid() && phase == old(phase)
        invariant start.phase != Closed ==>
                    SendFragments(start, Fragments(data, fragSize, 1))
                    == SendFragments(Model(), Fragments(rest, fragSize, fragmentId))
        invariant start.phase == Closed ==> Model() == start
        decreases |rest|
      {
        if phase == Closed {
          return;
        }
        var chunk := rest;
        if |chunk| > fragSize {
          chunk := rest[..fragSize];
        } else {
          fragmentId := 0;
        }
        SendOneFragment(chunk, fragmentId);
        if fragmentId == 0 {
          return;
        }
        rest := rest[fragSize..];
        fragmentId := (fragmentId + 1) % 256;
      }
    }

    method SendRMC(m: Rmc.Message)
      requires Valid()
      modifies this
      ensures Valid() && Model() == Transport.SendData(old(Model()), settings.fragmentSize, Rmc.Encoded(m))
    {
      var data := Rmc.Encode(m, settings);
      SendData(data);
    }
  }
}
