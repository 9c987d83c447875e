/** End-to-end delivery over a connection: requests cut into numbered fragments, printed,
    repeated and re-cut by the network, framed, filtered, reassembled and parsed. */
module Delivery {
  import opened Bytes
  import opened PrudpLite
  import opened Transport

  // ---- Fragmentation ---------------------------------------------------------------

  function Payloads(fs: seq<Fragment>): bytes {
    if fs == [] then [] else fs[0].payload + Payloads(fs[1..])
  }

  /** Fragment ids are non-zero up to the last one, which is zero. */
  predicate EndsOnce(fs: seq<Fragment>)
    decreases |fs|
  {
    fs != [] && (fs[0].id == 0 <==> |fs| == 1) && (|fs| > 1 ==> EndsOnce(fs[1..]))
  }

  function Min(a: nat, b: nat): nat { if a < b then a else b }

  /** How many fragments can still be numbered when the next id is `id`. */
  function IdsLeft(id: byte): nat {
    if id == 0 then 1 else 257 - id
  }

  /** The bytes those fragments can carry. */
  function Capacity(id: byte, size: nat): nat {
    IdsLeft(id) * size
  }

  lemma {:induction false} CapacityStep(id: byte, size: nat)
    ensures Capacity(0, size) == size && Capacity(1, size) == 256 * size
    ensures size <= Capacity(id, size)
    ensures id != 0 ==> Capacity(id, size) == size + Capacity((id + 1) % 256, size)
  {
    if id != 0 {
      var next: byte := (id + 1) % 256;
      assert IdsLeft(id) == 1 + IdsLeft(next);
      assert (1 + IdsLeft(next)) * size == size + IdsLeft(next) * size;
    }
  }

  lemma {:induction false} FragmentsCarry(rest: bytes, size: nat, id: byte)
    requires size > 0
    ensures EndsOnce(Fragments(rest, size, id))
    ensures Payloads(Fragments(rest, size, id)) == rest[..Min(|rest|, Capacity(id, size))]
    decreases |rest|
  {
    hide Capacity;
    var fs := Fragments(rest, size, id);
    CapacityStep(id, size);
    if |rest| <= size || id == 0 {
      assert Payloads(fs[1..]) == [];
    } else {
      var next: byte := (id + 1) % 256;
      FragmentsCarry(rest[size..], size, next);
      assert fs[1..] == Fragments(rest[size..], size, next);
      TakeAfter(rest, size, Capacity(next, size));
    }
  }

  lemma {:induction false} TakeAfter(rest: bytes, size: nat, more: nat)
    requires size <= |rest|
    ensures rest[..size] + rest[size..][..Min(|rest| - size, more)] == rest[..Min(|rest|, size + more)]
  {
  }

  /** A send stops after 256 fragments: the reassembled message is the data cut at exactly
      256 * size bytes, so it is whole exactly when it is no longer than that. */
  lemma {:induction false} FragmentsOfMessage(data: bytes, size: nat)
    requires size > 0
    ensures EndsOnce(Fragments(data, size, 1))
    ensures Payloads(Fragments(data, size, 1)) == data[..Min(|data|, 256 * size)]
    ensures Payloads(Fragments(data, size, 1)) == data <==> |data| <= 256 * size
  {
    FragmentsCarry(data, size, 1);
    CapacityStep(1, size);
  }

  // ---- What a sender puts on the wire ------------------------------------------------

  function SentPackets(ports: Ports, size: nat, datas: seq<bytes>, start: nat): seq<Packet>
    requires size > 0
    decreases |datas|
  {
    if datas == [] then []
    else
      var fs := Fragments(datas[0], size, 1);
      Numbered(ports, fs, start) + SentPackets(ports, size, datas[1..], start + |fs|)
  }

  function EncodedEach(ps: seq<Packet>): (r: seq<bytes>)
    ensures |r| == |ps|
  {
    seq(|ps|, i requires 0 <= i < |ps| => Encoded(ps[i]))
  }

  function SendAll(s: State, configured: int, datas: seq<bytes>): State
    decreases |datas|
  {
    if datas == [] then s else SendAll(SendData(s, configured, datas[0]), configured, datas[1..])
  }

  lemma {:induction false} EncodedHead(ports: Ports, fs: seq<Fragment>, start: nat)
    requires fs != []
    ensures EncodedEach(Numbered(ports, fs, start))
         == [Encoded(DataPacket(ports, fs[0], start % 0x1_0000))]
            + EncodedEach(Numbered(ports, fs[1..], start + 1))
  {
    hide Encoded, DataPacket;
  }

  lemma {:induction false} SendFragmentsSends(s: State, fs: seq<Fragment>, start: nat)
    requires s.outReliable == start % 0x1_0000
    ensures var s' := SendFragments(s, fs);
            && s'.sent == s.sent + EncodedEach(Numbered(s.ports, fs, start))
            && s'.outReliable == (start + |fs|) % 0x1_0000
            && s'.phase == s.phase && s'.ports == s.ports
    decreases |fs|
  {
    hide Encoded, DataPacket, Numbered, EncodedEach;
    if fs == [] {
      assert EncodedEach(Numbered(s.ports, fs, start)) == [];
    } else {
      EncodedHead(s.ports, fs, start);
      SendFragmentsSends(SendOneFragment(s, fs[0]), fs[1..], start + 1);
    }
  }

  /** An open connection sends, for a list of messages, exactly the packets of SentPackets. */
  lemma {:induction false} SendAllSends(s: State, configured: int, datas: seq<bytes>, start: nat)
    requires s.outReliable == start % 0x1_0000 && s.phase != Closed
    ensures SendAll(s, configured, datas).sent
         == s.sent + EncodedEach(SentPackets(s.ports, FragmentSize(configured), datas, start))
    decreases |datas|
  {
    hide Encoded;
    var size := FragmentSize(configured);
    if datas == [] {
      assert EncodedEach(SentPackets(s.ports, size, datas, start)) == [];
    } else {
      var fs := Fragments(datas[0], size, 1);
      SendFragmentsSends(s, fs, start);
      SendAllSends(SendData(s, configured, datas[0]), configured, datas[1..], start + |fs|);
      var head := Numbered(s.ports, fs, start);
      var tail := SentPackets(s.ports, size, datas[1..], start + |fs|);
      assert EncodedEach(head + tail) == EncodedEach(head) + EncodedEach(tail);
    }
  }

  // ---- Reassembly without the network ------------------------------------------------

  datatype Progress = Progress(fragBuf: bytes, dispatched: seq<Rmc.Message>)

  function AssembleOne(g: Progress, p: Packet): Progress {
    var full := g.fragBuf + p.payload;
    if p.fragmentId == 0 then Progress([], DispatchTo(g.dispatched, full))
    else Progress(full, g.dispatched)
  }

  function Assemble(g: Progress, ps: seq<Packet>): Progress
    decreases |ps|
  {
    if ps == [] then g else Assemble(AssembleOne(g, ps[0]), ps[1..])
  }

  lemma {:induction false} AssembleConcat(g: Progress, a: seq<Packet>, b: seq<Packet>)
    ensures Assemble(g, a + b) == Assemble(Assemble(g, a), b)
    decreases |a|
  {
    if a == [] {
      assert a + b == b;
    } else {
      AssembleConcat(AssembleOne(g, a[0]), a[1..], b);
      assert (a + b)[1..] == a[1..] + b;
    }
  }

  lemma {:induction false} AssembleFragments(g: Progress, ports: Ports, fs: seq<Fragment>, start: nat)
    requires EndsOnce(fs)
    ensures Assemble(g, Numbered(ports, fs, start))
         == Progress([], DispatchTo(g.dispatched, g.fragBuf + Payloads(fs)))
    decreases |fs|
  {
    hide DispatchTo;
    var ps := Numbered(ports, fs, start);
    var full := g.fragBuf + fs[0].payload;
    assert ps[1..] == Numbered(ports, fs[1..], start + 1);
    if |fs| == 1 {
      assert Payloads(fs[1..]) == [] && g.fragBuf + Payloads(fs) == full;
    } else {
      AssembleFragments(Progress(full, g.dispatched), ports, fs[1..], start + 1);
      assert full + Payloads(fs[1..]) == g.fragBuf + Payloads(fs);
    }
  }

  function EncodedMessages(ms: seq<Rmc.Message>): seq<bytes> {
    seq(|ms|, i requires 0 <= i < |ms| => Rmc.Encoded(ms[i]))
  }

  /** Requests that survive the wire: not the escape protocol, and a size the prefix can hold. */
  predicate Sendable(m: Rmc.Message) {
    m.Request? && m.protocol != 0x7F && |Rmc.Payload(m)| < 0x1_0000_0000
  }

  /** The messages short enough for 256 fragments. */
  function Fitting(ms: seq<Rmc.Message>, size: nat): seq<Rmc.Message> {
    if ms == [] then []
    else Kept(ms[0], size) + Fitting(ms[1..], size)
  }

  function Kept(m: Rmc.Message, size: nat): seq<Rmc.Message> {
    if |Rmc.Encoded(m)| <= 256 * size then [m] else []
  }

  lemma {:induction false} TruncatedDoesNotParse(m: Rmc.Message, n: nat)
    requires |Rmc.Payload(m)| < 0x1_0000_0000 && 4 <= n < |Rmc.Encoded(m)|
    ensures Rmc.Parsed(Rmc.Encoded(m)[..n]).None?
  {
    hide LE, Get32, Rmc.Payload;
    var data := Rmc.Encoded(m)[..n];
    var b := LE(|Rmc.Payload(m)|, 4);
    assert data[0..4] == b;
    Get32LE(|Rmc.Payload(m)|);
  }

  /** One message, whatever was left in the fragment buffer before it. */
  lemma {:induction false} AssembleMessage(log: seq<Rmc.Message>, m: Rmc.Message, ports: Ports, size: nat, start: nat)
    requires size > 0 && Sendable(m)
    ensures var fs := Fragments(Rmc.Encoded(m), size, 1);
            Assemble(Progress([], log), Numbered(ports, fs, start)) == Progress([], log + Kept(m, size))
  {
    var data := Rmc.Encoded(m);
    var fs := Fragments(data, size, 1);
    FragmentsOfMessage(data, size);
    AssembleFragments(Progress([], log), ports, fs, start);
    assert [] + Payloads(fs) == Payloads(fs);
    if |data| <= 256 * size {
      Rmc.EncodeParse(m);
      assert data[..|data|] == data;
    } else {
      TruncatedDoesNotParse(m, 256 * size);
    }
  }

  lemma {:induction false} AssembleMessages(
    log: seq<Rmc.Message>, ms: seq<Rmc.Message>, ports: Ports, size: nat, start: nat)
    requires size > 0 && forall m :: m in ms ==> Sendable(m)
    ensures Assemble(Progress([], log), SentPackets(ports, size, EncodedMessages(ms), start))
         == Progress([], log + Fitting(ms, size))
    decreases |ms|
  {
    hide Sendable, Fragments, DispatchTo, Assemble, Numbered, Rmc.Encoded, Rmc.Payload, Kept;
    if ms == [] {
      AssembleNothing(log, ports, size, EncodedMessages(ms), start);
    } else {
      var datas := EncodedMessages(ms);
      var fs := Fragments(datas[0], size, 1);
      assert datas[1..] == EncodedMessages(ms[1..]);
      AssembleMessage(log, ms[0], ports, size, start);
      AssembleConcat(Progress([], log), Numbered(ports, fs, start),
                     SentPackets(ports, size, datas[1..], start + |fs|));
      AssembleMessages(log + Kept(ms[0], size), ms[1..], ports, size, start + |fs|);
      assert log + Fitting(ms, size) == log + Kept(ms[0], size) + Fitting(ms[1..], size);
    }
  }

  lemma {:induction false} AssembleNothing(
    log: seq<Rmc.Message>, ports: Ports, size: nat, datas: seq<bytes>, start: nat)
    requires size > 0 && datas == []
    ensures Assemble(Progress([], log), SentPackets(ports, size, datas, start)) == Progress([], log + Fitting([], size))
  {
    assert log + [] == log;
  }

  // ---- The duplicate window ----------------------------------------------------------

  /** Reliable data packets with consecutive 16-bit numbers. */
  predicate Consecutive(ps: seq<Packet>, start: nat) {
    forall i :: 0 <= i < |ps| ==>
      && ps[i].ptype == PACKET_DATA && ps[i].flags == FLAG_RELIABLE + FLAG_NEED_ACK
      && ps[i].packetId == (start + i) % 0x1_0000
  }

  /** The window after the first k packets were accepted. */
  function LastIds(start: nat, k: nat): seq<u16> {
    var n := Min(k, 128);
    seq(n, j requires 0 <= j < n => (start + k - n + j) % 0x1_0000)
  }

  /** Arrivals, given as packet indices: k packets were accepted so far; each arrival is the
      next one, or a repeat of one of the last 128 accepted; all n arrive. */
  predicate InOrderWithRepeats(trace: seq<nat>, k: nat, n: nat)
    decreases |trace|
  {
    if trace == [] then k == n
    else if trace[0] == k then k < n && InOrderWithRepeats(trace[1..], k + 1, n)
    else trace[0] < k <= n && k - trace[0] <= 128 && InOrderWithRepeats(trace[1..], k, n)
  }

  predicate Within(trace: seq<nat>, n: nat) {
    forall j :: 0 <= j < |trace| ==> trace[j] < n
  }

  lemma {:induction false} TraceIndices(trace: seq<nat>, k: nat, n: nat)
    requires InOrderWithRepeats(trace, k, n)
    ensures k <= n && Within(trace, n)
    decreases |trace|
  {
    if trace != [] {
      TraceIndices(trace[1..], if trace[0] == k then k + 1 else k, n);
    }
  }

  function Arrivals(ps: seq<Packet>, trace: seq<nat>): (r: seq<Packet>)
    requires Within(trace, |ps|)
    ensures |r| == |trace|
  {
    seq(|trace|, j requires 0 <= j < |trace| => ps[trace[j]])
  }

  function AcksOf(ports: Ports, arrivals: seq<Packet>): (r: seq<bytes>)
    ensures |r| == |arrivals|
  {
    seq(|arrivals|, j requires 0 <= j < |arrivals| => Encoded(AckOf(ports, arrivals[j])))
  }

  lemma {:induction false} ModDiffers(a: nat, d: nat)
    requires 0 < d < 0x1_0000
    ensures a % 0x1_0000 != (a + d) % 0x1_0000
  {
  }

  /** 128 is far below 65536, so a fresh number never collides with a remembered one, even
      after the counter has wrapped. */
  lemma {:induction false} WindowKnows(start: nat, k: nat, i: nat)
    requires i <= k && k - i <= 128
    ensures (start + i) % 0x1_0000 in LastIds(start, k) <==> i < k
  {
    var n := Min(k, WINDOW);
    if i < k {
      assert LastIds(start, k)[i - (k - n)] == (start + i) % 0x1_0000;
    } else {
      forall j | 0 <= j < n ensures LastIds(start, k)[j] != (start + k) % 0x1_0000 {
        ModDiffers(start + k - n + j, n - j);
      }
    }
  }

  lemma {:induction false} WindowGrows(start: nat, k: nat)
    ensures Remember(LastIds(start, k), (start + k) % 0x1_0000) == LastIds(start, k + 1)
  {
  }

  lemma {:induction false} FlagBits(p: Packet)
    requires p.flags == FLAG_RELIABLE + FLAG_NEED_ACK
    ensures p.HasFlag(FLAG_NEED_ACK) && !p.HasFlag(FLAG_ACK) && !p.HasFlag(FLAG_MULTI_ACK)
  {
  }

  /** One reliable data packet: always acknowledged, reassembled unless its number is known. */
  lemma {:induction false} HandleReliable(env: Env, s: State, p: Packet)
    requires p.ptype == PACKET_DATA && p.flags == FLAG_RELIABLE + FLAG_NEED_ACK
    ensures var acked := s.(sent := s.sent + [Encoded(AckOf(s.ports, p))]);
            var g := AssembleOne(Progress(s.fragBuf, s.dispatched), p);
            HandlePacket(env, s, p)
            == if p.packetId in s.window then acked
               else acked.(window := Remember(s.window, p.packetId),
                           fragBuf := g.fragBuf, dispatched := g.dispatched)
  {
    hide Encoded, Remember, DispatchTo, AckOf;
    FlagBits(p);
  }

  /** The packet with index i arrives when k were accepted: a repeat only adds an
      acknowledgement, the next one is reassembled and remembered. */
  lemma {:induction false} Arrive(env: Env, s: State, ps: seq<Packet>, start: nat, k: nat, i: nat)
    requires Consecutive(ps, start) && i < |ps| && i <= k && k - i <= WINDOW
    requires s.window == LastIds(start, k)
    ensures var acked := s.(sent := s.sent + [Encoded(AckOf(s.ports, ps[i]))]);
            var g := AssembleOne(Progress(s.fragBuf, s.dispatched), ps[i]);
            HandlePacket(env, s, ps[i])
            == if i < k then acked
               else acked.(window := LastIds(start, k + 1), fragBuf := g.fragBuf, dispatched := g.dispatched)
  {
    hide Encoded, LastIds, Remember, HandlePacket, AckOf, AssembleOne;
    HandleReliable(env, s, ps[i]);
    WindowKnows(start, k, i);
    WindowGrows(start, k);
  }

  lemma {:induction false} AcksHead(ports: Ports, arrivals: seq<Packet>)
    requires arrivals != []
    ensures AcksOf(ports, arrivals) == [Encoded(AckOf(ports, arrivals[0]))] + AcksOf(ports, arrivals[1..])
  {
    hide Encoded, AckOf;
  }

  /** Repeats are acknowledged and otherwise ignored; first arrivals are reassembled in order. */
  lemma {:induction false} RunTrace(env: Env, s: State, ps: seq<Packet>, start: nat, k: nat, trace: seq<nat>)
    requires Consecutive(ps, start) && InOrderWithRepeats(trace, k, |ps|)
    requires s.window == LastIds(start, k)
    requires Within(trace, |ps|)
    ensures k <= |ps|
    ensures var g := Assemble(Progress(s.fragBuf, s.dispatched), ps[k..]);
            HandleAll(env, s, Arrivals(ps, trace))
            == s.(fragBuf := g.fragBuf, dispatched := g.dispatched, window := LastIds(start, |ps|),
                  sent := s.sent + AcksOf(s.ports, Arrivals(ps, trace)))
    decreases |trace|
  {
    hide Encoded, LastIds, HandlePacket, AckOf, AssembleOne, AcksOf, Consecutive;
    TraceIndices(trace, k, |ps|);
    var arrivals := Arrivals(ps, trace);
    if trace == [] {
      assert AcksOf(s.ports, arrivals) == [];
      assert ps[k..] == [];
    } else {
      Arrive(env, s, ps, start, k, trace[0]);
      var s1 := HandlePacket(env, s, ps[trace[0]]);
      assert arrivals[1..] == Arrivals(ps, trace[1..]);
      AcksHead(s.ports, arrivals);
      RunTrace(env, s1, ps, start, if trace[0] == k then k + 1 else k, trace[1..]);
      if trace[0] == k {
        assert ps[k..][1..] == ps[k + 1..];
      }
    }
  }

  // ---- From packets to bytes ---------------------------------------------------------

  lemma {:induction false} ProcessDataKeepsBuffer(s: State, p: Packet, buf: bytes)
    ensures ProcessData(s.(recvBuf := buf), p) == ProcessData(s, p).(recvBuf := buf)
  {
    hide Encoded, DispatchTo, AfterAcks, ExtraAcks, Remember, AckOf;
  }

  lemma {:induction false} HandshakeKeepsBuffer(env: Env, s: State, p: Packet, buf: bytes)
    ensures ProcessSYN(env, s.(recvBuf := buf), p) == ProcessSYN(env, s, p).(recvBuf := buf)
    ensures ProcessCONNECT(env, s.(recvBuf := buf), p) == ProcessCONNECT(env, s, p).(recvBuf := buf)
  {
    hide Encoded, And;
  }

  lemma {:induction false} HandlePacketKeepsBuffer(env: Env, s: State, p: Packet, buf: bytes)
    ensures HandlePacket(env, s.(recvBuf := buf), p) == HandlePacket(env, s, p).(recvBuf := buf)
  {
    hide Encoded, ProcessData, ProcessSYN, ProcessCONNECT, SendAck;
    SendAckKeepsBuffer(s, p, buf);
    if p.ptype == PACKET_DATA {
      ProcessDataKeepsBuffer(s, p, buf);
    } else {
      HandshakeKeepsBuffer(env, s, p, buf);
    }
  }

  lemma {:induction false} SendAckKeepsBuffer(s: State, p: Packet, buf: bytes)
    ensures SendAck(s.(recvBuf := buf), p) == SendAck(s, p).(recvBuf := buf)
    ensures SendAck(s.(recvBuf := buf), p).(phase := Closed) == SendAck(s, p).(phase := Closed, recvBuf := buf)
  {
    hide Encoded, AckOf;
  }

  lemma {:induction false} HandleAllKeepsBuffer(env: Env, s: State, ps: seq<Packet>, buf: bytes)
    ensures HandleAll(env, s.(recvBuf := buf), ps) == HandleAll(env, s, ps).(recvBuf := buf)
    decreases |ps|
  {
    hide HandlePacket;
    if ps != [] {
      HandlePacketKeepsBuffer(env, s, ps[0], buf);
      HandleAllKeepsBuffer(env, HandlePacket(env, s, ps[0]), ps[1..], buf);
    }
  }

  lemma {:induction false} HandleAllConcat(env: Env, s: State, a: seq<Packet>, b: seq<Packet>)
    ensures HandleAll(env, s, a + b) == HandleAll(env, HandleAll(env, s, a), b)
    decreases |a|
  {
    hide HandlePacket;
    if a == [] {
      assert a + b == b;
    } else {
      HandleAllConcat(env, HandlePacket(env, s, a[0]), a[1..], b);
      assert (a + b)[1..] == a[1..] + b;
    }
  }

  /** Feeding chunks handles the decoded packets one after the other. */
  lemma {:induction false} FeedAllHandles(env: Env, s: State, chunks: seq<bytes>)
    ensures var (ps, rest) := FeedChunks(s.recvBuf, chunks);
            FeedAll(env, s, chunks) == HandleAll(env, s, ps).(recvBuf := rest)
    decreases |chunks|
  {
    hide HandlePacket, FeedOnce;
    if chunks != [] {
      var (ps, rest) := FeedOnce(s.recvBuf, chunks[0]);
      var (more, last) := FeedChunks(rest, chunks[1..]);
      HandleAllKeepsBuffer(env, s, ps, rest);
      var s1 := HandleAll(env, s, ps);
      FeedAllHandles(env, s1.(recvBuf := rest), chunks[1..]);
      HandleAllKeepsBuffer(env, s1, more, rest);
      HandleAllConcat(env, s, ps, more);
    }
  }

  predicate WirePorts(ports: Ports) {
    ports.srcType < 16 && ports.dstType < 16
  }

  lemma {:induction false} DataPacketOnWire(ports: Ports, f: Fragment, id: u16)
    requires WirePorts(ports) && |f.payload| < 0x1_0000
    ensures Framable(DataPacket(ports, f, id)) && OnWire(DataPacket(ports, f, id)) == DataPacket(ports, f, id)
  {
  }

  lemma {:induction false} FragmentsAreShort(rest: bytes, size: nat, id: byte)
    requires size > 0
    ensures forall f :: f in Fragments(rest, size, id) ==> |f.payload| <= size
    decreases |rest|
  {
    if |rest| > size && id != 0 {
      FragmentsAreShort(rest[size..], size, (id + 1) % 256);
    }
  }

  lemma {:induction false} SentPacketsOnWire(ports: Ports, size: nat, datas: seq<bytes>, start: nat)
    requires 0 < size < 0x1_0000 && WirePorts(ports)
    ensures var ps := SentPackets(ports, size, datas, start);
            Consecutive(ps, start)
            && forall i :: 0 <= i < |ps| ==> Framable(ps[i]) && OnWire(ps[i]) == ps[i]
    decreases |datas|
  {
    hide Framable, OnWire;
    if datas != [] {
      var fs := Fragments(datas[0], size, 1);
      FragmentsAreShort(datas[0], size, 1);
      var head := Numbered(ports, fs, start);
      forall i | 0 <= i < |head| ensures Framable(head[i]) && OnWire(head[i]) == head[i] {
        DataPacketOnWire(ports, fs[i], (start + i) % 0x1_0000);
      }
      SentPacketsOnWire(ports, size, datas[1..], start + |fs|);
      var tail := SentPackets(ports, size, datas[1..], start + |fs|);
      forall i | 0 <= i < |tail|
        ensures tail[i].packetId == (start + (|head| + i)) % 0x1_0000
      {
      }
      assert SentPackets(ports, size, datas, start) == head + tail;
    }
  }

  lemma {:induction false} EncodedAllIsConcat(ps: seq<Packet>)
    ensures EncodedAll(ps) == Concat(EncodedEach(ps))
    decreases |ps|
  {
    hide Encoded;
    if ps != [] {
      EncodedAllIsConcat(ps[1..]);
      assert EncodedEach(ps)[1..] == EncodedEach(ps[1..]);
    }
  }

  function Pick(frames: seq<bytes>, trace: seq<nat>): seq<bytes>
    requires Within(trace, |frames|)
  {
    seq(|trace|, j requires 0 <= j < |trace| => frames[trace[j]])
  }

  /** The receiving half: arrivals of printable consecutive packets, re-cut into any reads. */
  lemma {:induction false} ReceiveStream(
    env: Env, s: State, ps: seq<Packet>, start: nat, trace: seq<nat>, chunks: seq<bytes>)
    requires Consecutive(ps, start) && InOrderWithRepeats(trace, 0, |ps|) && Within(trace, |ps|)
    requires forall i :: 0 <= i < |ps| ==> Framable(ps[i]) && OnWire(ps[i]) == ps[i]
    requires s.recvBuf == [] && s.window == []
    requires Concat(chunks) == EncodedAll(Arrivals(ps, trace))
    ensures var g := Assemble(Progress(s.fragBuf, s.dispatched), ps);
            FeedAll(env, s, chunks)
            == s.(fragBuf := g.fragBuf, dispatched := g.dispatched, window := LastIds(start, |ps|),
                  sent := s.sent + AcksOf(s.ports, Arrivals(ps, trace)))
  {
    hide Encoded, HandleAll, Assemble, FeedAll, FeedChunks, EncodedAll, DecodeTurn, Framable, OnWire;
    var arrivals := Arrivals(ps, trace);
    assert OnWireAll(arrivals) == arrivals;
    assert EncodedAll(arrivals) + [] == EncodedAll(arrivals);
    EmptyNeedsMore();
    FramingRoundTrip(arrivals, [], chunks);
    FeedAllHandles(env, s, chunks);
    assert LastIds(start, 0) == [];
    RunTrace(env, s, ps, start, 0, trace);
    assert ps[0..] == ps;
  }

  lemma {:induction false} EmptyNeedsMore()
    ensures DecodeTurn([]).NeedMore?
  {
  }

  // ---- Handlers that answer meanwhile --------------------------------------------------

  /** Handling packets while the handlers, or anyone else, send on the same connection: after
      the k-th packet the messages answers(k) go out. */
  function HandleBusy(
    env: Env, s: State, configured: int, ps: seq<Packet>, answers: nat -> seq<bytes>, k: nat): State
    decreases |ps|
  {
    if ps == [] then s
    else
      var s1 := SendAll(HandlePacket(env, s, ps[0]), configured, answers(k));
      HandleBusy(env, s1, configured, ps[1..], answers, k + 1)
  }

  function FeedAllBusy(
    env: Env, s: State, configured: int, chunks: seq<bytes>, answers: nat -> seq<bytes>, k: nat): State
    decreases |chunks|
  {
    if chunks == [] then s
    else
      var (ps, rest) := FeedOnce(s.recvBuf, chunks[0]);
      var s1 := HandleBusy(env, s.(recvBuf := rest), configured, ps, answers, k);
      FeedAllBusy(env, s1, configured, chunks[1..], answers, k + |ps|)
  }

  /** All but what the sending side owns. */
  function Core(s: State): State {
    s.(sent := [], pending := map[], outReliable := 1)
  }

  predicate IsAck(frame: bytes) {
    DecodeTurn(frame).Got? && DecodeTurn(frame).packet.HasFlag(FLAG_ACK)
  }

  /** The acknowledgements among the frames sent. */
  function AckFrames(frames: seq<bytes>): seq<bytes> {
    if frames == [] then []
    else AckFrames(frames[..|frames| - 1]) + if IsAck(frames[|frames| - 1]) then [frames[|frames| - 1]] else []
  }

  lemma {:induction false} AckFramesConcat(a: seq<bytes>, b: seq<bytes>)
    ensures AckFrames(a + b) == AckFrames(a) + AckFrames(b)
    decreases |b|
  {
    hide IsAck;
    if b == [] {
      assert a + b == a;
    } else {
      var front, last := b[..|b| - 1], b[|b| - 1];
      assert (a + b)[..|a + b| - 1] == a + front;
      AckFramesConcat(a, front);
    }
  }

  lemma {:induction false} OnlyAcks(frames: seq<bytes>)
    requires forall f :: f in frames ==> IsAck(f)
    ensures AckFrames(frames) == frames
  {
    hide IsAck;
    if frames != [] {
      var front, last := frames[..|frames| - 1], frames[|frames| - 1];
      assert frames == front + [last];
      OnlyAcks(front);
    }
  }

  /** Two states alike but for the sending side, with the same acknowledgements sent. */
  predicate Alike(a: State, b: State) {
    Core(a) == Core(b) && AckFrames(a.sent) == AckFrames(b.sent)
  }

  lemma {:induction false} DataCore(s: State, p: Packet)
    ensures var t := ProcessData(Core(s), p);
            Core(ProcessData(s, p)) == Core(t) && ProcessData(s, p).sent == s.sent + t.sent
  {
    hide Encoded, DispatchTo, AfterAcks, ExtraAcks, Remember, AckOf;
    assert s.sent + [] == s.sent;
  }

  lemma {:induction false} HandshakeCore(env: Env, s: State, p: Packet)
    ensures var t := ProcessSYN(env, Core(s), p);
            Core(ProcessSYN(env, s, p)) == Core(t) && ProcessSYN(env, s, p).sent == s.sent + t.sent
    ensures var t := ProcessCONNECT(env, Core(s), p);
            Core(ProcessCONNECT(env, s, p)) == Core(t) && ProcessCONNECT(env, s, p).sent == s.sent + t.sent
  {
    hide Encoded, And;
    assert s.sent + [] == s.sent;
  }

  /** Handling a packet neither reads the sending side nor unsends anything. */
  lemma {:induction false} HandleCore(env: Env, s: State, p: Packet)
    ensures var t := HandlePacket(env, Core(s), p);
            Core(HandlePacket(env, s, p)) == Core(t) && HandlePacket(env, s, p).sent == s.sent + t.sent
  {
    hide Encoded, ProcessData, ProcessSYN, ProcessCONNECT, AckOf;
    DataCore(s, p);
    HandshakeCore(env, s, p);
    assert s.sent + [] == s.sent;
  }

  lemma {:induction false} HandleAlike(env: Env, a: State, b: State, p: Packet)
    requires Alike(a, b)
    ensures Alike(HandlePacket(env, a, p), HandlePacket(env, b, p))
  {
    hide HandlePacket, Core, AckFrames;
    HandleCore(env, a, p);
    HandleCore(env, b, p);
    var t := HandlePacket(env, Core(a), p);
    AckFramesConcat(a.sent, t.sent);
    AckFramesConcat(b.sent, t.sent);
  }

  lemma {:induction false} DataIsNoAck(ports: Ports, f: Fragment, id: u16)
    requires |f.payload| < 0x1_0000
    ensures !IsAck(Encoded(DataPacket(ports, f, id)))
  {
    hide Encoded, DecodeTurn;
    var p := DataPacket(ports, f, id);
    EncodeDecode(p, []);
    assert Encoded(p) + [] == Encoded(p);
  }

  lemma {:induction false} FragmentsAddNoAck(s: State, fs: seq<Fragment>)
    requires forall f :: f in fs ==> |f.payload| < 0x1_0000
    ensures var t := SendFragments(s, fs);
            Alike(t, s) && s.sent <= t.sent
    decreases |fs|
  {
    hide Encoded, DataPacket, IsAck;
    if fs != [] {
      var frame := Encoded(DataPacket(s.ports, fs[0], s.outReliable));
      DataIsNoAck(s.ports, fs[0], s.outReliable);
      AckFramesConcat(s.sent, [frame]);
      assert AckFrames([frame]) == [];
      FragmentsAddNoAck(SendOneFragment(s, fs[0]), fs[1..]);
    }
  }

  lemma {:induction false} SendingAddsNoAck(s: State, configured: int, datas: seq<bytes>)
    requires FragmentSize(configured) < 0x1_0000
    ensures var t := SendAll(s, configured, datas);
            Alike(t, s) && s.sent <= t.sent
    decreases |datas|
  {
    hide Fragments, SendFragments, Core, AckFrames;
    if datas != [] {
      FragmentsAreShort(datas[0], FragmentSize(configured), 1);
      FragmentsAddNoAck(s, Fragments(datas[0], FragmentSize(configured), 1));
      SendingAddsNoAck(SendData(s, configured, datas[0]), configured, datas[1..]);
    }
  }

  lemma {:induction false} BusyIsAlike(
    env: Env, a: State, b: State, configured: int, ps: seq<Packet>, answers: nat -> seq<bytes>, k: nat)
    requires Alike(a, b) && FragmentSize(configured) < 0x1_0000
    ensures var after := HandleBusy(env, a, configured, ps, answers, k);
            Alike(after, HandleAll(env, b, ps)) && a.sent <= after.sent
    decreases |ps|
  {
    hide HandlePacket, SendAll, Core, AckFrames;
    if ps != [] {
      var a1, b1 := HandlePacket(env, a, ps[0]), HandlePacket(env, b, ps[0]);
      HandleAlike(env, a, b, ps[0]);
      HandleCore(env, a, ps[0]);
      SendingAddsNoAck(a1, configured, answers(k));
      BusyIsAlike(env, SendAll(a1, configured, answers(k)), b1, configured, ps[1..], answers, k + 1);
    }
  }

  lemma {:induction false} AlikeButBuffer(a: State, b: State, buf: bytes)
    requires Alike(a, b)
    ensures a.recvBuf == b.recvBuf && a.dispatched == b.dispatched && a.fragBuf == b.fragBuf
    ensures Alike(a.(recvBuf := buf), b.(recvBuf := buf))
  {
    hide AckFrames;
    assert Core(a).(recvBuf := buf) == Core(b).(recvBuf := buf);
  }

  /** Whatever is sent on the connection meanwhile, the receiving side ends as if nothing were:
      same requests handed over, same buffers, same acknowledgements in the same order. */
  lemma {:induction false} AnswersChangeNothing(
    env: Env, a: State, b: State, configured: int, chunks: seq<bytes>, answers: nat -> seq<bytes>, k: nat)
    requires Alike(a, b) && FragmentSize(configured) < 0x1_0000
    ensures var after := FeedAllBusy(env, a, configured, chunks, answers, k);
            Alike(after, FeedAll(env, b, chunks)) && a.sent <= after.sent
    decreases |chunks|
  {
    hide HandlePacket, HandleBusy, HandleAll, FeedOnce, Alike;
    AlikeButBuffer(a, b, a.recvBuf);
    if chunks != [] {
      var (ps, rest) := FeedOnce(a.recvBuf, chunks[0]);
      AlikeButBuffer(a, b, rest);
      BusyIsAlike(env, a.(recvBuf := rest), b.(recvBuf := rest), configured, ps, answers, k);
      var a1 := HandleBusy(env, a.(recvBuf := rest), configured, ps, answers, k);
      AnswersChangeNothing(env, a1, Feed(env, b, chunks[0]), configured, chunks[1..], answers, k + |ps|);
    }
  }

  // ---- Exactly once --------------------------------------------------------------------

  /** The frame is the acknowledgement of the arrival: its type, number and fragment, the flag
      ACK alone, from our port to the peer's, and nothing else. */
  predicate Answers(ports: Ports, frame: bytes, arrival: bytes) {
    && DecodeTurn(arrival).Got?
    && var p := DecodeTurn(arrival).packet;
       DecodeTurn(frame)
       == Got(Packet(p.ptype, 0x001, ports.srcType % 16, ports.srcPort, ports.dstType % 16, ports.dstPort,
                     p.fragmentId, p.packetId, [], [], 0, 0, []), [])
  }

  /** The k-th acknowledgement sent while handling the arrivals answers the k-th arrival. */
  predicate AcksEach(ports: Ports, acks: seq<bytes>, arrivals: seq<bytes>) {
    |acks| == |arrivals| && forall j :: 0 <= j < |acks| ==> Answers(ports, acks[j], arrivals[j])
  }

  lemma {:induction false} AckOnWire(ports: Ports, p: Packet)
    ensures Framable(AckOf(ports, p))
    ensures OnWire(AckOf(ports, p))
         == Packet(p.ptype % 16, 0x001, ports.srcType % 16, ports.srcPort, ports.dstType % 16, ports.dstPort,
                   p.fragmentId, p.packetId, [], [], 0, 0, [])
  {
  }

  lemma {:induction false} AckAnswers(ports: Ports, p: Packet)
    requires Framable(p) && OnWire(p) == p
    ensures Answers(ports, Encoded(AckOf(ports, p)), Encoded(p))
  {
    hide Encoded, DecodeTurn, Framable, AckOf;
    EncodeDecode(p, []);
    AckOnWire(ports, p);
    EncodeDecode(AckOf(ports, p), []);
    assert Encoded(p) + [] == Encoded(p) && Encoded(AckOf(ports, p)) + [] == Encoded(AckOf(ports, p));
    assert p.ptype % 16 == p.ptype;
  }

  lemma {:induction false} AcksEachArrival(ports: Ports, arrivals: seq<Packet>)
    requires forall j :: 0 <= j < |arrivals| ==> Framable(arrivals[j]) && OnWire(arrivals[j]) == arrivals[j]
    ensures AcksEach(ports, AcksOf(ports, arrivals), EncodedEach(arrivals))
  {
    hide Encoded, DecodeTurn, Framable, OnWire, AckOf, Answers;
    forall j | 0 <= j < |arrivals|
      ensures Answers(ports, AcksOf(ports, arrivals)[j], EncodedEach(arrivals)[j])
    {
      AckAnswers(ports, arrivals[j]);
    }
  }

  lemma {:induction false} AckIsAck(ports: Ports, p: Packet)
    requires p.ptype == PACKET_DATA
    ensures IsAck(Encoded(AckOf(ports, p)))
  {
    hide Encoded, DecodeTurn;
    var ack := AckOf(ports, p);
    EncodeDecode(ack, []);
    assert Encoded(ack) + [] == Encoded(ack);
  }

  lemma {:induction false} AcksAreAcks(ports: Ports, arrivals: seq<Packet>)
    requires forall j :: 0 <= j < |arrivals| ==> arrivals[j].ptype == PACKET_DATA
    ensures AckFrames(AcksOf(ports, arrivals)) == AcksOf(ports, arrivals)
  {
    hide Encoded, IsAck, AckFrames;
    var acks := AcksOf(ports, arrivals);
    forall f | f in acks ensures IsAck(f) {
      var j :| 0 <= j < |acks| && acks[j] == f;
      AckIsAck(ports, arrivals[j]);
    }
    OnlyAcks(acks);
  }

  /** What a quiet receiver and a busy one have in common after the arrivals. */
  lemma {:induction false} BusyReceiver(
    env: Env, s: State, answering: int, chunks: seq<bytes>, answers: nat -> seq<bytes>, arrivals: seq<Packet>)
    requires FragmentSize(answering) < 0x1_0000
    requires forall j :: 0 <= j < |arrivals| ==> arrivals[j].ptype == PACKET_DATA
    requires FeedAll(env, s, chunks).sent == s.sent + AcksOf(s.ports, arrivals)
    ensures var after, quiet := FeedAllBusy(env, s, answering, chunks, answers, 0), FeedAll(env, s, chunks);
            && after.dispatched == quiet.dispatched && after.recvBuf == quiet.recvBuf && after.fragBuf == quiet.fragBuf
            && s.sent <= after.sent && AckFrames(after.sent[|s.sent|..]) == AcksOf(s.ports, arrivals)
  {
    hide FeedAll, FeedAllBusy, AcksOf, AckFrames, Core;
    AnswersChangeNothing(env, s, s, answering, chunks, answers, 0);
    var after, quiet := FeedAllBusy(env, s, answering, chunks, answers, 0), FeedAll(env, s, chunks);
    AlikeButBuffer(after, quiet, []);
    AckFramesConcat(s.sent, AcksOf(s.ports, arrivals));
    AckFramesConcat(s.sent, after.sent[|s.sent|..]);
    assert s.sent + after.sent[|s.sent|..] == after.sent;
    AcksAreAcks(s.ports, arrivals);
    var sofar, acks := AckFrames(s.sent), AcksOf(s.ports, arrivals);
    assert (sofar + AckFrames(after.sent[|s.sent|..]))[|sofar|..] == (sofar + acks)[|sofar|..] == acks;
  }

  /** Exactly-once delivery. A sender sends requests one after the other; the network delivers
      its frames in order, repeating any frame while its number is among the last 128 accepted;
      the bytes reach the receiver cut into arbitrary reads, and between packets the receiver
      sends whatever its handlers answer. Then the receiver hands over exactly the requests that
      fit 256 fragments, once each and in order, keeps no leftover bytes, and among the frames it
      sends the acknowledgements are one for every arrival, in order. The sequence counter may
      start anywhere and wrap. */
  lemma {:induction false} ExactlyOnce(
    env: Env, sender: State, receiver: State, configured: int, ms: seq<Rmc.Message>,
    frames: seq<bytes>, trace: seq<nat>, chunks: seq<bytes>, answering: int, answers: nat -> seq<bytes>)
    requires sender.phase != Closed && WirePorts(sender.ports) && FragmentSize(configured) < 0x1_0000
    requires forall m :: m in ms ==> Sendable(m)
    requires SendAll(sender, configured, EncodedMessages(ms)).sent == sender.sent + frames
    requires receiver.recvBuf == [] && receiver.fragBuf == [] && receiver.window == []
    requires InOrderWithRepeats(trace, 0, |frames|) && Within(trace, |frames|)
    requires Concat(chunks) == Concat(Pick(frames, trace))
    requires FragmentSize(answering) < 0x1_0000
    ensures var after := FeedAllBusy(env, receiver, answering, chunks, answers, 0);
            && after.dispatched == receiver.dispatched + Fitting(ms, FragmentSize(configured))
            && after.recvBuf == [] && after.fragBuf == []
            && receiver.sent <= after.sent
            && AcksEach(receiver.ports, AckFrames(after.sent[|receiver.sent|..]), Pick(frames, trace))
  {
    hide Encoded, HandleAll, Assemble, FeedAll, FeedAllBusy, EncodedAll, Framable, OnWire, SendAll, SentPackets,
         EncodedMessages, Fitting, AcksEach, Sendable, AcksOf, LastIds, AckFrames;
    var size := FragmentSize(configured);
    var start := sender.outReliable;
    var datas := EncodedMessages(ms);
    var ps := SentPackets(sender.ports, size, datas, start);
    SendAllSends(sender, configured, datas, start);
    assert frames == (sender.sent + frames)[|sender.sent|..] == EncodedEach(ps);
    SentPacketsOnWire(sender.ports, size, datas, start);
    var arrivals := Arrivals(ps, trace);
    assert Pick(frames, trace) == EncodedEach(arrivals);
    EncodedAllIsConcat(arrivals);
    ReceiveStream(env, receiver, ps, start, trace, chunks);
    AssembleMessages(receiver.dispatched, ms, sender.ports, size, start);
    AcksEachArrival(receiver.ports, arrivals);
    BusyReceiver(env, receiver, answering, chunks, answers, arrivals);
  }

  // ---- What a new session and a cumulative ack leave behind ----------------------------

  lemma {:induction false} DispatchIff(log: seq<Rmc.Message>, payload: bytes, m: Rmc.Message)
    requires m.Request?
    ensures DispatchTo(log, payload) == log + [m] <==> Rmc.Parsed(payload) == Some(m)
  {
    hide Rmc.Parsed;
    match Rmc.Parsed(payload)
    case Some(other) => assert (log + [other])[|log|] == other && (log + [m])[|log|] == m;
    case None =>
  }

  function Counting(k: nat, n: nat): (trace: seq<nat>)
    requires k <= n
  {
    seq(n - k, i requires 0 <= i < n - k => k + i)
  }

  lemma {:induction false} CountingIsInOrder(k: nat, n: nat)
    requires k <= n
    ensures InOrderWithRepeats(Counting(k, n), k, n)
    decreases n - k
  {
    if k < n {
      CountingIsInOrder(k + 1, n);
      assert Counting(k, n)[1..] == Counting(k + 1, n);
    }
  }

  /** Consecutive packets handled with an empty window are reassembled one after the other. */
  lemma {:induction false} HandleFresh(env: Env, s: State, ps: seq<Packet>, start: nat)
    requires Consecutive(ps, start) && s.window == []
    ensures var g := Assemble(Progress(s.fragBuf, s.dispatched), ps);
            var after := HandleAll(env, s, ps);
            after.fragBuf == g.fragBuf && after.dispatched == g.dispatched
  {
    hide Encoded, HandlePacket, AckOf, AssembleOne, AcksOf, Consecutive, Assemble, HandleAll, InOrderWithRepeats;
    var trace := Counting(0, |ps|);
    CountingIsInOrder(0, |ps|);
    assert LastIds(start, 0) == [];
    hide LastIds;
    RunTrace(env, s, ps, start, 0, trace);
    assert Arrivals(ps, trace) == ps && ps[0..] == ps;
  }

  lemma {:induction false} NumberedAreConsecutive(ports: Ports, fs: seq<Fragment>, start: nat)
    ensures Consecutive(Numbered(ports, fs, start), start)
  {
  }

  lemma {:induction false} SynKeepsBuffers(env: Env, s: State, syn: Packet)
    requires syn.ptype == PACKET_SYN && !syn.HasFlag(FLAG_ACK)
    ensures var after := HandlePacket(env, s, syn);
            after.window == [] && after.fragBuf == s.fragBuf && after.dispatched == s.dispatched
  {
    hide Encoded, And;
  }

  /** The packets of a new session's first request. */
  function FirstRequest(ports: Ports, m: Rmc.Message, size: nat, start: nat): seq<Packet>
    requires size > 0
  {
    Numbered(ports, Fragments(Rmc.Encoded(m), size, 1), start)
  }

  /** A SYN forgets the duplicate window but not a half-received message, so the first request
      of the new session is handed over exactly when nothing was left over. */
  lemma {:induction false} FirstRequestAfterSynIff(
    env: Env, s: State, syn: Packet, m: Rmc.Message, ports: Ports, size: nat, start: nat)
    requires syn.ptype == PACKET_SYN && !syn.HasFlag(FLAG_ACK)
    requires size > 0 && Sendable(m) && |Rmc.Encoded(m)| <= 256 * size
    ensures var after := HandleAll(env, HandlePacket(env, s, syn), FirstRequest(ports, m, size, start));
            after.fragBuf == [] && (after.dispatched == s.dispatched + [m] <==> s.fragBuf == [])
  {
    hide Encoded, HandleAll, HandlePacket, Assemble, Fragments, Numbered, DispatchTo, Consecutive,
         Rmc.Encoded, Rmc.Payload, Rmc.Parsed;
    var data := Rmc.Encoded(m);
    var fs := Fragments(data, size, 1);
    SynKeepsBuffers(env, s, syn);
    NumberedAreConsecutive(ports, fs, start);
    HandleFresh(env, HandlePacket(env, s, syn), Numbered(ports, fs, start), start);
    FragmentsOfMessage(data, size);
    AssembleFragments(Progress(s.fragBuf, s.dispatched), ports, fs, start);
    DispatchIff(s.dispatched, s.fragBuf + data, m);
    if s.fragBuf == [] {
      assert s.fragBuf + data == data;
      Rmc.EncodeParse(m);
    } else {
      Rmc.LeftoverSpoils(s.fragBuf, m);
    }
  }

  /** Such a leftover is one lost connection away: a fragment that does not end its message, a
      SYN, and the first request of the new session is not handed over. */
  lemma {:induction false} SynKeepsPartialMessage(
    env: Env, s: State, p: Packet, syn: Packet, m: Rmc.Message, ports: Ports, size: nat, start: nat)
    requires p.ptype == PACKET_DATA && p.flags == FLAG_RELIABLE + FLAG_NEED_ACK
    requires p.packetId !in s.window && p.fragmentId != 0 && p.payload != []
    requires syn.ptype == PACKET_SYN && !syn.HasFlag(FLAG_ACK)
    requires size > 0 && Sendable(m) && |Rmc.Encoded(m)| <= 256 * size
    ensures HandleAll(env, s, [p, syn] + FirstRequest(ports, m, size, start)).dispatched != s.dispatched + [m]
  {
    hide Encoded, HandlePacket, FirstRequest, Sendable, Rmc.Encoded, HandleAll;
    HandleReliable(env, s, p);
    var after := HandlePacket(env, HandlePacket(env, s, p), syn);
    assert HandleAll(env, s, [p, syn]) == after by { HandleTwo(env, s, p, syn); }
    HandleAllConcat(env, s, [p, syn], FirstRequest(ports, m, size, start));
    FirstRequestAfterSynIff(env, HandlePacket(env, s, p), syn, m, ports, size, start);
  }

  lemma {:induction false} HandleTwo(env: Env, s: State, p: Packet, q: Packet)
    ensures HandleAll(env, s, [p, q]) == HandlePacket(env, HandlePacket(env, s, p), q)
  {
    hide HandlePacket;
    var s1 := HandlePacket(env, s, p);
    assert [p, q][1..] == [q] && [q][1..] == [];
    assert HandleAll(env, s1, [q]) == HandleAll(env, HandlePacket(env, s1, q), []);
  }

  function Number(start: u16, i: nat): u16 {
    (start + i) % 0x1_0000
  }

  /** The numbers of packets a..b of a run that started at `start`. */
  ghost function Ids(start: u16, a: nat, b: nat): set<u16> {
    set i: nat | a <= i < b :: Number(start, i)
  }

  lemma {:induction false} NumberBeforeWrap(start: u16, i: nat)
    requires start + i < 0x1_0000
    ensures Number(start, i) == start + i
  {
  }

  /** Before the wrap the numbers are an interval. */
  lemma {:induction false} IdsBeforeWrap(start: u16, a: nat, b: nat, id: u16)
    requires start + b <= 0x1_0000
    ensures id in Ids(start, a, b) <==> start + a <= id < start + b
  {
    hide Number;
    forall i: nat | a <= i < b ensures Number(start, i) == start + i {
      NumberBeforeWrap(start, i);
    }
    if start + a <= id < start + b {
      assert Number(start, id - start) == id;
    }
  }

  function Listed(extra: seq<u16>): set<u16> {
    set id | id in extra
  }

  lemma {:induction false} AckBeforeWrap(pending: map<u16, bytes>, start: u16, n: nat, j: nat, extra: seq<u16>)
    requires j < n && start + n <= 0x1_0000 && pending.Keys <= Ids(start, 0, n)
    ensures AfterAcks(pending, Number(start, j), extra).Keys
         == pending.Keys * Ids(start, j + 1, n) - Listed(extra)
  {
    hide Ids, Number;
    NumberBeforeWrap(start, j);
    forall id: u16
      ensures id in AfterAcks(pending, Number(start, j), extra).Keys
         <==> id in pending.Keys * Ids(start, j + 1, n) - Listed(extra)
    {
      if id in pending {
        assert id in Ids(start, 0, n);
      }
      IdsBeforeWrap(start, 0, n, id);
      IdsBeforeWrap(start, j + 1, n, id);
    }
  }

  /** After the wrap either the newest packet is released with the acknowledged one, or the oldest
      is not. */
  lemma {:induction false} AckAfterWrap(pending: map<u16, bytes>, start: u16, n: nat, j: nat, extra: seq<u16>)
    requires j < n <= 0x1_0000 < start + n
    requires forall id :: id in [Number(start, 0), Number(start, n - 1)] ==> id in pending && id !in extra
    ensures AfterAcks(pending, Number(start, j), extra).Keys
         != pending.Keys * Ids(start, j + 1, n) - Listed(extra)
  {
    var kept := AfterAcks(pending, Number(start, j), extra).Keys;
    var oldest, newest := Number(start, 0), Number(start, n - 1);
    assert oldest in [oldest, newest] && newest in [oldest, newest];
    if start + j < 0x1_0000 {
      assert newest == start + n - 1 - 0x1_0000;
      assert newest in Ids(start, j + 1, n) && newest !in kept;
    } else {
      assert oldest == start;
      assert oldest in kept;
      forall i: nat | j + 1 <= i < n ensures Number(start, i) != oldest {
        ModDiffers(start, i);
      }
    }
  }

  /** A single acknowledgement, or an aggregate one with its list of further numbers. */
  predicate Acknowledges(p: Packet, base: u16, extra: seq<u16>) {
    && p.ptype == PACKET_DATA
    && if p.HasFlag(FLAG_MULTI_ACK) then
         |p.payload| >= 4 && base == Get16(p.payload[2..4]) && extra == ExtraAcks(p.payload, p.payload[1], 4)
       else p.HasFlag(FLAG_ACK) && base == p.packetId && extra == []
  }

  lemma {:induction false} AckReleases(env: Env, s: State, ack: Packet, base: u16, extra: seq<u16>)
    requires Acknowledges(ack, base, extra)
    ensures HandlePacket(env, s, ack) == s.(pending := AfterAcks(s.pending, base, extra))
  {
    hide AfterAcks, ExtraAcks;
  }

  /** An ack compares numbers as plain integers. Let at most 65536 packets be in flight, the
      oldest and the newest of them not released, any between them already released or not.
      Acknowledging number j releases exactly those up to number j, and those it lists besides, if
      and only if the numbers in flight have not wrapped. */
  lemma {:induction false} AckIsCumulativeIff(
    env: Env, s: State, ack: Packet, start: u16, n: nat, j: nat, extra: seq<u16>)
    requires j < n <= 0x1_0000 && s.pending.Keys <= Ids(start, 0, n)
    requires forall id :: id in [Number(start, 0), Number(start, n - 1)] ==> id in s.pending && id !in extra
    requires Acknowledges(ack, Number(start, j), extra)
    ensures HandlePacket(env, s, ack).pending.Keys == s.pending.Keys * Ids(start, j + 1, n) - Listed(extra)
       <==> start + n <= 0x1_0000
  {
    hide AfterAcks, Ids, Number, HandlePacket, Acknowledges;
    AckReleases(env, s, ack, Number(start, j), extra);
    if start + n <= 0x1_0000 {
      AckBeforeWrap(s.pending, start, n, j, extra);
    } else {
      AckAfterWrap(s.pending, start, n, j, extra);
    }
  }
}
