/** The PRUDP-Lite packet codec (prudp_lite.go): encoding, incremental decoding, and the
    independence of the decoded packets from the way the bytes are cut into reads. */
module PrudpLite {
  import opened Bytes

  const PACKET_SYN: byte := 0
  const PACKET_CONNECT: byte := 1
  const PACKET_DATA: byte := 2
  const PACKET_DISCONNECT: byte := 3
  const PACKET_PING: byte := 4

  const FLAG_ACK: u16 := 0x001
  const FLAG_RELIABLE: u16 := 0x002
  const FLAG_NEED_ACK: u16 := 0x004
  const FLAG_HAS_SIZE: u16 := 0x008
  const FLAG_MULTI_ACK: u16 := 0x200

  const OPT_SUPPORT: byte := 0
  const OPT_CONNECTION_SIG: byte := 1
  const OPT_CONNECTION_SIG_LITE: byte := 128

  const LITE_MAGIC: byte := 0x80
  const LITE_HEADER_SIZE: nat := 12

  datatype Packet = Packet(
    ptype: byte, flags: u16,
    sourceType: byte, sourcePort: byte, destType: byte, destPort: byte,
    fragmentId: byte, packetId: u16,
    signature: bytes, connectionSig: bytes, minorVersion: byte, supportedFunc: u32,
    payload: bytes)
  {
    /** Flags&f != 0, for a single-bit flag f. */
    predicate HasFlag(f: u16)
      requires f > 0
    {
      flags / f % 2 == 1
    }
  }

  const BLANK_PACKET := Packet(0, 0, 0, 0, 0, 0, 0, 0, [], [], 0, 0, [])

  // ---- Encoding -------------------------------------------------------------------

  function OptionBytes(id: byte, val: bytes): bytes {
    [id, |val| % 256] + val
  }

  function SupportBytes(p: Packet): bytes {
    LE(p.minorVersion + p.supportedFunc * 256, 4)
  }

  predicate CarriesSupport(p: Packet) {
    p.ptype == PACKET_SYN || p.ptype == PACKET_CONNECT
  }

  predicate CarriesConnectionSig(p: Packet) {
    p.ptype == PACKET_SYN && p.HasFlag(FLAG_ACK)
  }

  predicate CarriesSignature(p: Packet) {
    p.ptype == PACKET_CONNECT && !p.HasFlag(FLAG_ACK)
  }

  function EncodedOptions(p: Packet): bytes {
    (if CarriesSupport(p) then OptionBytes(OPT_SUPPORT, SupportBytes(p)) else [])
    + (if CarriesConnectionSig(p) then OptionBytes(OPT_CONNECTION_SIG, p.connectionSig)
       else if CarriesSignature(p) then OptionBytes(OPT_CONNECTION_SIG_LITE, p.signature)
       else [])
  }

  function Header(p: Packet): (h: bytes)
    ensures |h| == LITE_HEADER_SIZE
  {
    [LITE_MAGIC, |EncodedOptions(p)| % 256]
    + LE(|p.payload|, 2)
    + [p.sourceType % 16 * 16 + p.destType % 16, p.sourcePort, p.destPort, p.fragmentId]
    + LE(p.ptype % 16 + p.flags % 0x1000 * 16, 2)
    + LE(p.packetId, 2)
  }

  function Encoded(p: Packet): bytes {
    Header(p) + EncodedOptions(p) + p.payload
  }

  method EncodeLiteOptions(p: Packet) returns (out: bytes)
    ensures out == EncodedOptions(p)
  {
    hide LE, OptionBytes;
    out := [];
    if p.ptype == PACKET_SYN || p.ptype == PACKET_CONNECT {
      var support := LE(p.minorVersion + p.supportedFunc * 256, 4);
      out := out + OptionBytes(OPT_SUPPORT, support);
    }
    if p.ptype == PACKET_SYN && p.HasFlag(FLAG_ACK) {
      out := out + OptionBytes(OPT_CONNECTION_SIG, p.connectionSig);
    }
    if p.ptype == PACKET_CONNECT && !p.HasFlag(FLAG_ACK) {
      out := out + OptionBytes(OPT_CONNECTION_SIG_LITE, p.signature);
    }
  }

  method EncodePacket(p: Packet) returns (out: bytes)
    ensures out == Encoded(p)
  {
    var options := EncodeLiteOptions(p);
    out := [LITE_MAGIC, |options| % 256];
    out := out + LE(|p.payload|, 2);
    out := out + [p.sourceType % 16 * 16 + p.destType % 16];
    out := out + [p.sourcePort, p.destPort, p.fragmentId];
    out := out + LE(p.ptype % 16 + p.flags % 0x1000 * 16, 2);
    out := out + LE(p.packetId, 2);
    out := out + options;
    out := out + p.payload;
  }

  // ---- Decoding -------------------------------------------------------------------

  function ApplyOption(p: Packet, id: byte, val: bytes): Packet {
    if id == OPT_SUPPORT then
      if |val| == 4 then
        p.(minorVersion := Get32(val) % 256, supportedFunc := Get32(val) / 256)
      else p
    else if id == OPT_CONNECTION_SIG then p.(connectionSig := val)
    else if id == OPT_CONNECTION_SIG_LITE then p.(signature := val)
    else p
  }

  function DecodedOptions(p: Packet, data: bytes): Option<Packet>
    decreases |data|
  {
    if data == [] then Some(p)
    else if |data| < 2 || |data| - 2 < data[1] then None
    else
      var size: nat := data[1];
      DecodedOptions(ApplyOption(p, data[0], data[2..2 + size]), data[2 + size..])
  }

  method DecodeLiteOptions(p0: Packet, data: bytes) returns (r: Option<Packet>)
    ensures r == DecodedOptions(p0, data)
  {
    var p := p0;
    var i := 0;
    while i < |data|
      invariant 0 <= i <= |data|
      invariant DecodedOptions(p0, data) == DecodedOptions(p, data[i..])
    {
      ghost var tail := data[i..];
      if i + 2 > |data| {
        return None;
      }
      var id, size := data[i], data[i + 1];
      i := i + 2;
      if i + size > |data| {
        return None;
      }
      var val := data[i..i + size];
      i := i + size;
      assert tail[2..2 + size] == val && tail[2 + size..] == data[i..];
      match id {
        case 0 =>
          if size == 4 {
            p := p.(minorVersion := Get32(val) % 256, supportedFunc := Get32(val) / 256);
          }
        case 1 => p := p.(connectionSig := val);
        case 128 => p := p.(signature := val);
        case _ =>
      }
    }
    return Some(p);
  }

  /** What one turn of the decoding loop makes of the buffer. */
  datatype Turn = NeedMore | Corrupt | Got(packet: Packet, rest: bytes)

  function TotalSize(buf: bytes): nat
    requires |buf| >= LITE_HEADER_SIZE
  {
    LITE_HEADER_SIZE + buf[1] + Get16(buf[2..4])
  }

  function HeaderFields(buf: bytes): Packet
    requires |buf| >= LITE_HEADER_SIZE
  {
    BLANK_PACKET.(sourceType := buf[4] / 16, destType := buf[4] % 16,
                  sourcePort := buf[5], destPort := buf[6], fragmentId := buf[7],
                  flags := Get16(buf[8..10]) / 16, ptype := Get16(buf[8..10]) % 16,
                  packetId := Get16(buf[10..12]))
  }

  function DecodeTurn(buf: bytes): (t: Turn)
    ensures t.Got? ==> |t.rest| < |buf|
  {
    if |buf| < LITE_HEADER_SIZE then NeedMore
    else if buf[0] != LITE_MAGIC then Corrupt
    else if |buf| < TotalSize(buf) then NeedMore
    else
      var body := LITE_HEADER_SIZE + buf[1];
      var p := DecodedOptions(HeaderFields(buf), buf[LITE_HEADER_SIZE..body]);
      if p.None? then Corrupt
      else Got(p.value.(payload := buf[body..TotalSize(buf)]), buf[TotalSize(buf)..])
  }

  /** Complete packets, unread bytes, and whether the framing is intact. */
  datatype Decoded = Decoded(packets: seq<Packet>, rest: bytes, ok: bool)

  function Decode(buf: bytes): Decoded
    decreases |buf|
  {
    match DecodeTurn(buf)
    case NeedMore => Decoded([], buf, true)
    case Corrupt => Decoded([], buf, false)
    case Got(p, rest) =>
      var d := Decode(rest);
      Decoded([p] + d.packets, d.rest, d.ok)
  }

  lemma {:induction false} DecodeStep(input: bytes, packets: seq<Packet>, buf: bytes)
    requires DecodeTurn(buf).Got?
    requires Decode(input) == Decoded(packets + Decode(buf).packets, Decode(buf).rest, Decode(buf).ok)
    ensures var rest := Decode(DecodeTurn(buf).rest);
            Decode(input) == Decoded(packets + [DecodeTurn(buf).packet] + rest.packets, rest.rest, rest.ok)
  {
    hide DecodeTurn;
  }

  method DecodePackets(input: bytes) returns (packets: seq<Packet>, buf: bytes, ok: bool)
    ensures Decoded(packets, buf, ok) == Decode(input)
  {
    packets, buf := [], input;
    while true
      invariant Decode(input) == Decoded(packets + Decode(buf).packets, Decode(buf).rest, Decode(buf).ok)
      decreases |buf|
    {
      if |buf| < LITE_HEADER_SIZE {
        break;
      }
      if buf[0] != LITE_MAGIC {
        return packets, buf, false;
      }
      var optSize := buf[1];
      var payloadSize := Get16(buf[2..4]);
      var total := LITE_HEADER_SIZE + optSize + payloadSize;
      if |buf| < total {
        break;
      }
      var p := HeaderFields(buf);
      var decoded := DecodeLiteOptions(p, buf[LITE_HEADER_SIZE..LITE_HEADER_SIZE + optSize]);
      if decoded.None? {
        return packets, buf, false;
      }
      p := decoded.value.(payload := buf[LITE_HEADER_SIZE + optSize..total]);
      assert DecodeTurn(buf) == Got(p, buf[total..]);
      DecodeStep(input, packets, buf);
      packets := packets + [p];
      buf := buf[total..];
    }
    return packets, buf, true;
  }

  // ---- Round trip -----------------------------------------------------------------

  /** The part of a packet the wire carries: 4-bit types, 12-bit flags, a 24-bit function
      mask, and the version and signature fields only in the packets that have room for them. */
  function OnWire(p: Packet): Packet {
    Packet(p.ptype % 16, p.flags % 0x1000,
           p.sourceType % 16, p.sourcePort, p.destType % 16, p.destPort,
           p.fragmentId, p.packetId,
           if CarriesSignature(p) then p.signature else [],
           if CarriesConnectionSig(p) then p.connectionSig else [],
           if CarriesSupport(p) then p.minorVersion else 0,
           if CarriesSupport(p) then p.supportedFunc % 0x100_0000 else 0,
           p.payload)
  }

  /** The one-byte option size and the two-byte payload size are exact. */
  predicate Framable(p: Packet) {
    |EncodedOptions(p)| < 0x100 && |p.payload| < 0x1_0000
  }

  lemma {:induction false} SplitLow(hi: nat, lo: nat, m: nat)
    requires lo < m
    ensures (lo + m * hi) % m == lo && (lo + m * hi) / m == hi
  {
    ModUnique(lo + m * hi, m, hi, lo);
    MulBound((lo + m * hi) / m - hi, m);
  }

  lemma {:induction false} SupportRoundTrip(p: Packet)
    ensures Get32(SupportBytes(p)) % 256 == p.minorVersion
    ensures Get32(SupportBytes(p)) / 256 == p.supportedFunc % 0x100_0000
  {
    var v := p.minorVersion + p.supportedFunc * 256;
    Get32LE(v);
    SplitLow(p.supportedFunc, p.minorVersion, 256);
    ModStep(v, 0x100_0000);
    SplitLow(p.supportedFunc % 0x100_0000, p.minorVersion, 256);
  }

  lemma {:induction false} OneOption(p: Packet, id: byte, val: bytes, tail: bytes)
    requires |val| < 256
    ensures DecodedOptions(p, OptionBytes(id, val) + tail)
         == DecodedOptions(ApplyOption(p, id, val), tail)
  {
    var data := OptionBytes(id, val) + tail;
    assert data[2..2 + data[1]] == val;
    assert data[2 + data[1]..] == tail;
  }

  lemma {:induction false} OptionsRoundTrip(p: Packet, h: Packet)
    requires |EncodedOptions(p)| < 0x100
    requires h == BLANK_PACKET.(sourceType := h.sourceType, destType := h.destType,
                                sourcePort := h.sourcePort, destPort := h.destPort,
                                fragmentId := h.fragmentId, flags := h.flags,
                                ptype := h.ptype, packetId := h.packetId)
    ensures DecodedOptions(h, EncodedOptions(p))
         == Some(h.(signature := OnWire(p).signature, connectionSig := OnWire(p).connectionSig,
                    minorVersion := OnWire(p).minorVersion, supportedFunc := OnWire(p).supportedFunc))
  {
    if CarriesSupport(p) {
      SupportRoundTrip(p);
      var tail := EncodedOptions(p)[6..];
      OneOption(h, OPT_SUPPORT, SupportBytes(p), tail);
      assert EncodedOptions(p) == OptionBytes(OPT_SUPPORT, SupportBytes(p)) + tail;
      var h' := ApplyOption(h, OPT_SUPPORT, SupportBytes(p));
      if CarriesConnectionSig(p) {
        assert tail == OptionBytes(OPT_CONNECTION_SIG, p.connectionSig) + [];
        OneOption(h', OPT_CONNECTION_SIG, p.connectionSig, []);
      } else if CarriesSignature(p) {
        assert tail == OptionBytes(OPT_CONNECTION_SIG_LITE, p.signature) + [];
        OneOption(h', OPT_CONNECTION_SIG_LITE, p.signature, []);
      }
    }
  }

  lemma {:induction false} HeaderLayout(p: Packet)
    ensures var h := Header(p);
            && h[0] == LITE_MAGIC && h[1] == |EncodedOptions(p)| % 256
            && h[2..4] == LE(|p.payload|, 2)
            && h[4] == p.sourceType % 16 * 16 + p.destType % 16
            && h[5] == p.sourcePort && h[6] == p.destPort && h[7] == p.fragmentId
            && h[8..10] == LE(p.ptype % 16 + p.flags % 0x1000 * 16, 2)
            && h[10..12] == LE(p.packetId, 2)
  {
    hide LE, EncodedOptions;
  }

  lemma {:induction false} HeaderRoundTrip(p: Packet, buf: bytes)
    requires Framable(p) && Header(p) <= buf
    ensures buf[0] == LITE_MAGIC && TotalSize(buf) == |Encoded(p)| && buf[1] == |EncodedOptions(p)|
    ensures HeaderFields(buf)
         == BLANK_PACKET.(sourceType := p.sourceType % 16, destType := p.destType % 16,
                          sourcePort := p.sourcePort, destPort := p.destPort,
                          fragmentId := p.fragmentId, flags := p.flags % 0x1000,
                          ptype := p.ptype % 16, packetId := p.packetId)
  {
    hide LE, Header, EncodedOptions, Get16;
    var h := Header(p);
    HeaderLayout(p);
    assert buf[2..4] == h[2..4] && buf[8..10] == h[8..10] && buf[10..12] == h[10..12];
    assert forall i :: 0 <= i < 12 ==> buf[i] == h[i];
    Get16LE(|p.payload|);
    Get16LE(p.ptype % 16 + p.flags % 0x1000 * 16);
    Get16LE(p.packetId);
    SplitLow(p.flags % 0x1000, p.ptype % 16, 16);
    SplitLow(p.sourceType % 16, p.destType % 16, 16);
  }

  /** Parsing a printed packet gives back everything the wire carries, and leaves exactly the
      bytes that followed it. */
  lemma {:induction false} EncodeDecode(p: Packet, tail: bytes)
    requires Framable(p)
    ensures DecodeTurn(Encoded(p) + tail) == Got(OnWire(p), tail)
  {
    hide LE, Header, EncodedOptions, Get16, DecodedOptions, HeaderFields, TotalSize;
    var buf := Encoded(p) + tail;
    assert |Header(p)| == LITE_HEADER_SIZE;
    HeaderRoundTrip(p, buf);
    var body := LITE_HEADER_SIZE + buf[1];
    assert buf[LITE_HEADER_SIZE..body] == EncodedOptions(p);
    assert buf[body..TotalSize(buf)] == p.payload;
    assert buf[TotalSize(buf)..] == tail;
    OptionsRoundTrip(p, HeaderFields(buf));
  }

  // ---- Chunk independence ---------------------------------------------------------

  function EncodedAll(ps: seq<Packet>): bytes {
    if ps == [] then [] else Encoded(ps[0]) + EncodedAll(ps[1..])
  }

  function OnWireAll(ps: seq<Packet>): seq<Packet> {
    seq(|ps|, i requires 0 <= i < |ps| => OnWire(ps[i]))
  }

  lemma {:induction false} DecodeOneMore(p: Packet, rest: bytes)
    requires Framable(p)
    ensures var d := Decode(rest);
            Decode(Encoded(p) + rest) == Decoded([OnWire(p)] + d.packets, d.rest, d.ok)
  {
    hide Encoded, DecodeTurn, OnWire, Framable;
    EncodeDecode(p, rest);
  }

  lemma {:induction false} OnWireHead(ps: seq<Packet>)
    requires ps != []
    ensures OnWireAll(ps) == [OnWire(ps[0])] + OnWireAll(ps[1..])
  {
    hide OnWire;
  }

  lemma {:induction false} DecodeEncodedAll(ps: seq<Packet>, tail: bytes)
    requires forall p :: p in ps ==> Framable(p)
    ensures Decode(EncodedAll(ps) + tail)
         == Decoded(OnWireAll(ps) + Decode(tail).packets, Decode(tail).rest, Decode(tail).ok)
  {
    hide Encoded, Decode, OnWire, Framable;
    if ps == [] {
      assert EncodedAll(ps) + tail == tail;
    } else {
      hide OnWireAll;
      var rest := EncodedAll(ps[1..]) + tail;
      assert EncodedAll(ps) + tail == Encoded(ps[0]) + rest;
      DecodeOneMore(ps[0], rest);
      DecodeEncodedAll(ps[1..], tail);
      OnWireHead(ps);
    }
  }

  lemma {:induction false} TurnExtends(a: bytes, b: bytes)
    ensures DecodeTurn(a).Got? ==> DecodeTurn(a + b) == Got(DecodeTurn(a).packet, DecodeTurn(a).rest + b)
    ensures DecodeTurn(a).Corrupt? ==> DecodeTurn(a + b).Corrupt?
  {
    var ab := a + b;
    if |a| >= LITE_HEADER_SIZE {
      assert ab[2..4] == a[2..4] && ab[8..10] == a[8..10] && ab[10..12] == a[10..12];
      if |a| >= TotalSize(a) {
        var body := LITE_HEADER_SIZE + a[1];
        assert ab[LITE_HEADER_SIZE..body] == a[LITE_HEADER_SIZE..body];
        assert ab[body..TotalSize(a)] == a[body..TotalSize(a)];
        assert ab[TotalSize(a)..] == a[TotalSize(a)..] + b;
      }
    }
  }

  /** Bytes that arrive later never change what was already decoded. */
  lemma {:induction false} DecodeExtends(a: bytes, b: bytes)
    ensures Decode(a).ok ==>
              var d := Decode(Decode(a).rest + b);
              Decode(a + b) == Decoded(Decode(a).packets + d.packets, d.rest, d.ok)
    ensures !Decode(a).ok ==> !Decode(a + b).ok
    decreases |a|
  {
    hide DecodeTurn;
    TurnExtends(a, b);
    match DecodeTurn(a)
    case NeedMore =>
      assert Decode(a) == Decoded([], a, true);
      assert [] + Decode(a + b).packets == Decode(a + b).packets;
    case Corrupt =>
    case Got(p, rest) =>
      DecodeExtends(rest, b);
      assert [p] + (Decode(rest).packets + Decode(Decode(rest).rest + b).packets)
          == [p] + Decode(rest).packets + Decode(Decode(rest).rest + b).packets;
  }

  /** The packets handled and the bytes kept after one Feed. */
  function FeedOnce(buf: bytes, data: bytes): (seq<Packet>, bytes) {
    var d := Decode(buf + data);
    if d.ok then (d.packets, d.rest) else ([], [])
  }

  function FeedChunks(buf: bytes, chunks: seq<bytes>): (seq<Packet>, bytes)
    decreases |chunks|
  {
    if chunks == [] then ([], buf)
    else
      var (ps, rest) := FeedOnce(buf, chunks[0]);
      var (more, last) := FeedChunks(rest, chunks[1..]);
      (ps + more, last)
  }

  function Concat(chunks: seq<bytes>): bytes {
    if chunks == [] then [] else chunks[0] + Concat(chunks[1..])
  }

  /** For a byte stream whose framing is intact, every way of cutting it into reads handles
      the packets that decoding the whole stream at once gives, and keeps the same tail. */
  lemma {:induction false} ChunkIndependence(buf: bytes, chunks: seq<bytes>)
    requires Decode(buf).ok && Decode(buf).packets == []
    requires Decode(buf + Concat(chunks)).ok
    ensures FeedChunks(buf, chunks)
         == (Decode(buf + Concat(chunks)).packets, Decode(buf + Concat(chunks)).rest)
    decreases |chunks|
  {
    if chunks == [] {
      assert buf + Concat(chunks) == buf;
      DecodedNothing(buf);
    } else {
      var tail := Concat(chunks[1..]);
      assert buf + Concat(chunks) == (buf + chunks[0]) + tail;
      DecodeExtends(buf + chunks[0], tail);
      var d := Decode(buf + chunks[0]);
      RestIsStuck(buf + chunks[0]);
      ChunkIndependence(d.rest, chunks[1..]);
    }
  }

  lemma {:induction false} DecodedNothing(buf: bytes)
    requires Decode(buf).ok && Decode(buf).packets == []
    ensures Decode(buf).rest == buf
  {
  }

  /** What is left over holds no complete packet. */
  lemma {:induction false} RestIsStuck(buf: bytes)
    requires Decode(buf).ok
    ensures Decode(Decode(buf).rest) == Decoded([], Decode(buf).rest, true)
    decreases |buf|
  {
    if DecodeTurn(buf).Got? {
      RestIsStuck(DecodeTurn(buf).rest);
    }
  }

  /** Any chunking of any list of framable packets followed by part of one more: exactly those
      packets, in order, with all their wire fields, and only the partial bytes kept. */
  lemma {:induction false} FramingRoundTrip(ps: seq<Packet>, partial: bytes, chunks: seq<bytes>)
    requires forall p :: p in ps ==> Framable(p)
    requires DecodeTurn(partial).NeedMore?
    requires Concat(chunks) == EncodedAll(ps) + partial
    ensures FeedChunks([], chunks) == (OnWireAll(ps), partial)
  {
    DecodeEncodedAll(ps, partial);
    assert [] + Concat(chunks) == Concat(chunks);
    assert OnWireAll(ps) + [] == OnWireAll(ps);
    ChunkIndependence([], chunks);
  }

  /** A strict prefix of a printed packet is such a partial tail. */
  lemma {:induction false} StrictPrefixNeedsMore(p: Packet, k: nat)
    requires Framable(p) && k < |Encoded(p)|
    ensures DecodeTurn(Encoded(p)[..k]).NeedMore?
  {
    var part := Encoded(p)[..k];
    if k >= LITE_HEADER_SIZE {
      assert Header(p) <= part by { assert part[..LITE_HEADER_SIZE] == Header(p); }
      HeaderRoundTrip(p, part);
    }
  }

  lemma {:induction false} OneChunk(buf: bytes, data: bytes)
    ensures FeedChunks(buf, [data]) == FeedOnce(buf, data)
  {
    hide Decode;
    var (ps, rest) := FeedOnce(buf, data);
    assert [data][1..] == [] && FeedChunks(rest, []) == ([], rest);
    assert ps + [] == ps;
  }

  /** On a corrupt stream the cut does matter: the whole stream in one read drops the packets
      that were complete before the damage, and a cut right before it keeps them. */
  lemma {:induction false} CorruptStreamDependsOnCut(good: bytes, bad: bytes)
    requires Decode(good).ok && Decode(good).rest == []
    requires DecodeTurn(bad).Corrupt?
    ensures Concat([good + bad]) == Concat([good, bad])
    ensures FeedChunks([], [good + bad]) == ([], [])
    ensures FeedChunks([], [good, bad]) == (Decode(good).packets, [])
  {
    hide DecodeTurn;
    DecodeExtends(good, bad);
    assert [] + bad == bad && [] + (good + bad) == good + bad && [] + good == good;
    assert Concat([bad]) == bad && Concat([good + bad]) == good + bad;
    assert Concat([good, bad]) == good + Concat([good, bad][1..]);
    assert [good, bad][1..] == [bad];
    OneChunk([], bad);
    OneChunk([], good + bad);
    assert Decode(good).packets + [] == Decode(good).packets;
  }

  // ---- When the cut does not matter -----------------------------------------------

  /** Every way of cutting the stream into reads gives the same packets and the same tail. */
  ghost predicate CutsAgree(s: bytes) {
    forall c1: seq<bytes>, c2: seq<bytes> ::
      Concat(c1) == s && Concat(c2) == s ==> FeedChunks([], c1) == FeedChunks([], c2)
  }

  /** The framing is intact, or it is broken by the very last byte and nothing was complete
      before it. */
  predicate Uncuttable(s: bytes) {
    Decode(s).ok || (s != [] && DecodeTurn(s[..|s| - 1]).NeedMore?)
  }

  lemma {:induction false} PrefixNeedsMore(s: bytes, k: nat)
    requires k < |s| && DecodeTurn(s[..|s| - 1]).NeedMore?
    ensures DecodeTurn(s[..k]).NeedMore?
  {
    hide DecodeTurn;
    TurnExtends(s[..k], s[k..|s| - 1]);
    assert s[..k] + s[k..|s| - 1] == s[..|s| - 1];
  }

  /** A stream that only its last byte breaks: every cut drops everything. */
  lemma {:induction false} BrokenAtTheEnd(s: bytes, buf: bytes, chunks: seq<bytes>)
    requires s != [] && !Decode(s).ok && DecodeTurn(s[..|s| - 1]).NeedMore?
    requires buf + Concat(chunks) == s && |buf| < |s|
    ensures FeedChunks(buf, chunks) == ([], [])
    decreases |chunks|
  {
    hide DecodeTurn;
    assert buf + [] == buf;
    if chunks != [] {
      var next := buf + chunks[0];
      assert next + Concat(chunks[1..]) == s;
      if |next| < |s| {
        PrefixNeedsMore(s, |next|);
        assert s[..|next|] == next;
        assert Decode(next) == Decoded([], next, true);
        BrokenAtTheEnd(s, next, chunks[1..]);
      } else {
        assert next == s && Concat(chunks[1..]) == [];
        NothingMore(chunks[1..]);
        var none: seq<Packet> := FeedOnce(buf, chunks[0]).0;
        assert none == [] && none + none == [];
      }
    }
  }

  lemma {:induction false} NothingMore(chunks: seq<bytes>)
    requires Concat(chunks) == []
    ensures FeedChunks([], chunks) == ([], [])
    decreases |chunks|
  {
    if chunks != [] {
      assert chunks[0] == [] && [] + chunks[0] == [];
      NothingMore(chunks[1..]);
    }
  }

  /** Otherwise the last byte read on its own makes a difference: it stays in the buffer, or the
      packets complete before it are handed over. */
  lemma {:induction false} LastByteApart(s: bytes)
    requires s != [] && !Decode(s).ok && !DecodeTurn(s[..|s| - 1]).NeedMore?
    ensures var front, last := s[..|s| - 1], s[|s| - 1..];
            Concat([s]) == s && Concat([front, last]) == s
            && FeedChunks([], [s]) != FeedChunks([], [front, last])
  {
    hide DecodeTurn;
    var front, last := s[..|s| - 1], s[|s| - 1..];
    assert front + last == s && [] + front == front && [] + s == s;
    assert [front, last][1..] == [last] && Concat([last]) == last && Concat([s]) == s;
    OneChunk([], s);
    OneChunk([], last);
    OneByteWaits(last);
    if Decode(front).ok {
      assert Decode(front).packets != [];
    }
  }

  lemma {:induction false} OneByteWaits(b: bytes)
    requires |b| == 1
    ensures Decode([] + b) == Decoded([], b, true)
  {
    assert [] + b == b;
  }

  lemma {:induction false} TwoCutsDisagree(s: bytes, c1: seq<bytes>, c2: seq<bytes>)
    requires Concat(c1) == s && Concat(c2) == s && FeedChunks([], c1) != FeedChunks([], c2)
    ensures !CutsAgree(s)
  {
  }

  /** Delivery is independent of the cut exactly for the intact streams and those that only
      their last byte breaks. */
  lemma {:induction false} CutsAgreeIff(s: bytes)
    ensures CutsAgree(s) <==> Uncuttable(s)
  {
    hide DecodeTurn, Decode;
    if Decode(s).ok {
      forall c | Concat(c) == s ensures FeedChunks([], c) == (Decode(s).packets, Decode(s).rest) {
        assert [] + Concat(c) == s;
        EmptyDecodes();
        ChunkIndependence([], c);
      }
    } else {
      EmptyDecodes();
      if DecodeTurn(s[..|s| - 1]).NeedMore? {
        forall c | Concat(c) == s ensures FeedChunks([], c) == ([], []) {
          assert [] + Concat(c) == s;
          BrokenAtTheEnd(s, [], c);
        }
      } else {
        LastByteApart(s);
        TwoCutsDisagree(s, [s], [s[..|s| - 1], s[|s| - 1..]]);
      }
    }
  }

  lemma {:induction false} EmptyDecodes()
    ensures Decode([]) == Decoded([], [], true)
  {
  }

  /** Damage in the first packet is not enough: thirteen zero bytes read at once leave nothing,
      and cut after the twelfth they leave the last one. */
  lemma {:induction false} DamageAtTheStart()
    ensures var s := seq(13, _ => 0);
            DecodeTurn(s).Corrupt? && !CutsAgree(s)
  {
    var s: bytes := seq(13, _ => 0);
    assert DecodeTurn(s).Corrupt? && DecodeTurn(s[..12]).Corrupt?;
    CutsAgreeIff(s);
  }
}
