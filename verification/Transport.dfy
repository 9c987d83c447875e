/** What one connection does with the packets it handles and the data it sends
    (endpoint.go), as functions on its state. Connection.dfy does it in place. */
module Transport {
  import opened Bytes
  import opened PrudpLite
  import Rmc

  // ---- State ----------------------------------------------------------------------

  datatype Phase = Connecting | Connected | Closed

  /** Virtual ports: ours as source, the console's as destination. */
  datatype Ports = Ports(srcType: byte, srcPort: byte, dstType: byte, dstPort: byte)

  /** What a connection is given from outside: the endpoint's version settings, the signature
      it hands this peer, the outcome of checking a CONNECT (None refuses it), and what the
      handler of a non-standard packet sends (None: no handler for it). */
  datatype Env = Env(
    minorVersion: int,
    supportedFunctions: int,
    connectionSignature: bytes,
    login: Packet -> Option<bytes>,
    custom: Packet -> Option<seq<bytes>>)

  datatype State = State(
    recvBuf: bytes,
    fragBuf: bytes,
    window: seq<u16>,
    dispatched: seq<Rmc.Message>,
    sent: seq<bytes>,
    pending: map<u16, bytes>,
    outReliable: u16,
    phase: Phase,
    ports: Ports,
    connectionSig: bytes,
    minorVersion: byte,
    supportedFunc: u32)

  const WINDOW: nat := 128

  // ---- Receiving ------------------------------------------------------------------

  /** The last WINDOW accepted sequence numbers, oldest first. */
  function Remember(window: seq<u16>, id: u16): seq<u16> {
    if |window| < WINDOW then window + [id] else window[1..] + [id]
  }

  function AckOf(ports: Ports, p: Packet): Packet {
    BLANK_PACKET.(ptype := p.ptype, flags := FLAG_ACK,
                  sourceType := ports.srcType, sourcePort := ports.srcPort,
                  destType := ports.dstType, destPort := ports.dstPort,
                  fragmentId := p.fragmentId, packetId := p.packetId)
  }

  function SendAck(s: State, p: Packet): State {
    s.(sent := s.sent + [Encoded(AckOf(s.ports, p))])
  }

  /** A request is handed over; anything that does not parse to one is dropped. */
  function DispatchTo(log: seq<Rmc.Message>, payload: bytes): seq<Rmc.Message> {
    match Rmc.Parsed(payload)
    case Some(m) => if m.Request? then log + [m] else log
    case None => log
  }

  /** Append a fragment; fragment id zero completes the message. */
  function Reassemble(s: State, p: Packet): State {
    var full := s.fragBuf + p.payload;
    if p.fragmentId == 0 then
      s.(fragBuf := [], dispatched := DispatchTo(s.dispatched, full))
    else s.(fragBuf := full)
  }

  function AfterAcks(pending: map<u16, bytes>, base: u16, extra: seq<u16>): map<u16, bytes> {
    map id | id in pending && id > base && id !in extra :: pending[id]
  }

  /** The individually acknowledged ids of an aggregate ack, from offset `off`. */
  function ExtraAcks(payload: bytes, count: nat, off: nat): seq<u16>
    decreases count
  {
    if count == 0 || off + 2 > |payload| then []
    else [Get16(payload[off..off + 2])] + ExtraAcks(payload, count - 1, off + 2)
  }

  function ProcessData(s: State, p: Packet): State {
    if p.HasFlag(FLAG_MULTI_ACK) then
      if |p.payload| >= 4 then
        s.(pending := AfterAcks(s.pending, Get16(p.payload[2..4]), ExtraAcks(p.payload, p.payload[1], 4)))
      else s
    else if p.HasFlag(FLAG_ACK) then
      s.(pending := AfterAcks(s.pending, p.packetId, []))
    else if p.HasFlag(FLAG_NEED_ACK) then
      var acked := SendAck(s, p);
      if p.packetId in s.window then acked
      else Reassemble(acked.(window := Remember(s.window, p.packetId)), p)
    else Reassemble(s, p)
  }

  /** Bitwise and. */
  function And(a: nat, b: nat): (r: nat)
    ensures r <= a && r <= b
  {
    if a == 0 || b == 0 then 0
    else (if a % 2 == 1 && b % 2 == 1 then 1 else 0) + 2 * And(a / 2, b / 2)
  }

  function ProcessSYN(env: Env, s: State, p: Packet): State {
    var ports := Ports(p.destType, p.destPort, p.sourceType, p.sourcePort);
    var minor: byte := if env.minorVersion < p.minorVersion then env.minorVersion % 256 else p.minorVersion;
    var supported: u32 := And(env.supportedFunctions % 0x1_0000_0000, p.supportedFunc);
    var ack := BLANK_PACKET.(ptype := PACKET_SYN, flags := FLAG_ACK + FLAG_HAS_SIZE,
                             sourceType := ports.srcType, sourcePort := ports.srcPort,
                             destType := ports.dstType, destPort := ports.dstPort,
                             connectionSig := env.connectionSignature,
                             minorVersion := minor, supportedFunc := supported);
    s.(ports := ports, connectionSig := env.connectionSignature, minorVersion := minor,
       supportedFunc := supported, window := [], sent := s.sent + [Encoded(ack)])
  }

  function ProcessCONNECT(env: Env, s: State, p: Packet): State {
    match env.login(p)
    case None => s
    case Some(response) =>
      var ack := BLANK_PACKET.(ptype := PACKET_CONNECT, flags := FLAG_ACK + FLAG_HAS_SIZE,
                               sourceType := s.ports.srcType, sourcePort := s.ports.srcPort,
                               destType := s.ports.dstType, destPort := s.ports.dstPort,
                               minorVersion := s.minorVersion, supportedFunc := s.supportedFunc,
                               packetId := 1, payload := response);
      s.(sent := s.sent + [Encoded(ack)], phase := Connected)
  }

  function HandlePacket(env: Env, s: State, p: Packet): State {
    if p.ptype == PACKET_SYN then
      if p.HasFlag(FLAG_ACK) then s else ProcessSYN(env, s, p)
    else if p.ptype == PACKET_CONNECT then
      if p.HasFlag(FLAG_ACK) then s else ProcessCONNECT(env, s, p)
    else if p.ptype == PACKET_DATA then ProcessData(s, p)
    else if p.ptype == PACKET_PING then
      if !p.HasFlag(FLAG_ACK) && p.HasFlag(FLAG_NEED_ACK) then SendAck(s, p) else s
    else if p.ptype == PACKET_DISCONNECT then
      if p.HasFlag(FLAG_ACK) then s
      else (if p.HasFlag(FLAG_NEED_ACK) then SendAck(s, p) else s).(phase := Closed)
    else
      match env.custom(p)
      case Some(frames) => s.(sent := s.sent + frames)
      case None => s
  }

  function HandleAll(env: Env, s: State, ps: seq<Packet>): State
    decreases |ps|
  {
    if ps == [] then s else HandleAll(env, HandlePacket(env, s, ps[0]), ps[1..])
  }

  function Feed(env: Env, s: State, data: bytes): State {
    var (ps, rest) := FeedOnce(s.recvBuf, data);
    HandleAll(env, s.(recvBuf := rest), ps)
  }

  function FeedAll(env: Env, s: State, chunks: seq<bytes>): State
    decreases |chunks|
  {
    if chunks == [] then s else FeedAll(env, Feed(env, s, chunks[0]), chunks[1..])
  }

  // ---- Sending --------------------------------------------------------------------

  datatype Fragment = Fragment(payload: bytes, id: byte)

  function FragmentSize(configured: int): (f: nat)
    ensures f > 0
  {
    if configured <= 0 then 1300 else configured
  }

  /** The fragments cut from `rest` when the next fragment id is `id`. The id is one byte: it
      wraps, and a fragment that carries zero ends the message. */
  function Fragments(rest: bytes, size: nat, id: byte): seq<Fragment>
    requires size > 0
    decreases |rest|
  {
    if |rest| <= size then [Fragment(rest, 0)]
    else if id == 0 then [Fragment(rest[..size], 0)]
    else [Fragment(rest[..size], id)] + Fragments(rest[size..], size, (id + 1) % 256)
  }

  function DataPacket(ports: Ports, f: Fragment, id: u16): Packet {
    BLANK_PACKET.(ptype := PACKET_DATA, flags := FLAG_RELIABLE + FLAG_NEED_ACK,
                  sourceType := ports.srcType, sourcePort := ports.srcPort,
                  destType := ports.dstType, destPort := ports.dstPort,
                  fragmentId := f.id, packetId := id, payload := f.payload)
  }

  /** Consecutive 16-bit sequence numbers from `start`. */
  function Numbered(ports: Ports, fs: seq<Fragment>, start: nat): (ps: seq<Packet>)
    ensures |ps| == |fs|
  {
    seq(|fs|, i requires 0 <= i < |fs| => DataPacket(ports, fs[i], (start + i) % 0x1_0000))
  }

  function SendOneFragment(s: State, f: Fragment): State {
    var encoded := Encoded(DataPacket(s.ports, f, s.outReliable));
    s.(sent := s.sent + [encoded],
       pending := s.pending[s.outReliable := encoded],
       outReliable := (s.outReliable + 1) % 0x1_0000)
  }

  function SendFragments(s: State, fs: seq<Fragment>): State
    decreases |fs|
  {
    if fs == [] then s else SendFragments(SendOneFragment(s, fs[0]), fs[1..])
  }

  /** A one-fragment message always goes out; a longer one stops when the connection is closed. */
  function SendData(s: State, configured: int, data: bytes): State {
    var size := FragmentSize(configured);
    if |data| > size && s.phase == Closed then s
    else SendFragments(s, Fragments(data, size, 1))
  }
}
