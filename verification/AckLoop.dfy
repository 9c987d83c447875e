/** The loop between a sender and a receiver is closed: what the receiver acknowledges is exactly
    what the sender stops keeping for retransmission. */
module AckLoop {
  import opened Bytes
  import opened PrudpLite
  import opened Transport
  import opened Delivery

  // ---- What a sender keeps ----------------------------------------------------------------------

  lemma {:induction false} IdsJoin(start: u16, a: nat, b: nat, c: nat)
    requires a <= b <= c
    ensures Ids(start, a, b) + Ids(start, b, c) == Ids(start, a, c)
  {
    hide Number;
  }

  lemma {:induction false} IdsOfOne(start: u16, a: nat)
    ensures Ids(start, a, a + 1) == {Number(start, a)} && Ids(start, a, a) == {}
  {
    hide Number;
  }

  lemma {:induction false} NumberNext(start: u16, a: nat)
    ensures (Number(start, a) + 1) % 0x1_0000 == Number(start, a + 1)
  {
  }

  lemma {:induction false} FragmentsKept(s: State, fs: seq<Fragment>, start: u16, a: nat)
    requires s.outReliable == Number(start, a)
    ensures var t := SendFragments(s, fs);
            && t.pending.Keys == s.pending.Keys + Ids(start, a, a + |fs|)
            && t.outReliable == Number(start, a + |fs|)
            && t.phase == s.phase && t.ports == s.ports && t.recvBuf == s.recvBuf
    decreases |fs|
  {
    hide Encoded, DataPacket, Number, Ids;
    IdsOfOne(start, a);
    if fs != [] {
      NumberNext(start, a);
      FragmentsKept(SendOneFragment(s, fs[0]), fs[1..], start, a + 1);
      IdsJoin(start, a, a + 1, a + |fs|);
    }
  }

  /** An open connection keeps every packet it sent under its number. */
  lemma {:induction false} SentAreKept(s: State, configured: int, datas: seq<bytes>, start: u16, a: nat)
    requires s.outReliable == Number(start, a) && s.phase != Closed
    ensures var n := |SentPackets(s.ports, FragmentSize(configured), datas, start + a)|;
            var t := SendAll(s, configured, datas);
            t.pending.Keys == s.pending.Keys + Ids(start, a, a + n) && t.recvBuf == s.recvBuf
    decreases |datas|
  {
    hide Encoded, DataPacket, Number, Ids, SendFragments, Fragments;
    IdsOfOne(start, a);
    if datas != [] {
      var fs := Fragments(datas[0], FragmentSize(configured), 1);
      FragmentsKept(s, fs, start, a);
      var s1 := SendData(s, configured, datas[0]);
      assert s1 == SendFragments(s, fs);
      SentAreKept(s1, configured, datas[1..], start, a + |fs|);
      var more := |SentPackets(s.ports, FragmentSize(configured), datas[1..], start + (a + |fs|))|;
      IdsJoin(start, a, a + |fs|, a + |fs| + more);
    }
  }

  // ---- What the acknowledgements release ----------------------------------------------------------

  /** The acknowledgements as the sender reads them. */
  function AckPackets(ports: Ports, arrivals: seq<Packet>): (r: seq<Packet>)
    ensures |r| == |arrivals|
  {
    seq(|arrivals|, j requires 0 <= j < |arrivals| => OnWire(AckOf(ports, arrivals[j])))
  }

  lemma {:induction false} AckPacketsHead(ports: Ports, arrivals: seq<Packet>)
    requires arrivals != []
    ensures AckPackets(ports, arrivals) == [OnWire(AckOf(ports, arrivals[0]))] + AckPackets(ports, arrivals[1..])
  {
    hide OnWire, AckOf;
  }

  lemma {:induction false} AckHandled(env: Env, s: State, ports: Ports, p: Packet)
    requires p.ptype == PACKET_DATA
    ensures HandlePacket(env, s, OnWire(AckOf(ports, p))) == s.(pending := AfterAcks(s.pending, p.packetId, []))
  {
    hide AfterAcks, OnWire, AckOf, ExtraAcks, HandlePacket;
    AckOnWire(ports, p);
    AckReleases(env, s, OnWire(AckOf(ports, p)), p.packetId, []);
  }

  /** The acknowledgement of packet i, when k of n were accepted before it. */
  lemma {:induction false} OneReleased(pending: map<u16, bytes>, start: u16, n: nat, k: nat, i: nat)
    requires i <= k && i < n && k <= n && start + n <= 0x1_0000 && pending.Keys == Ids(start, k, n)
    ensures AfterAcks(pending, Number(start, i), []).Keys == Ids(start, if i == k then k + 1 else k, n)
  {
    hide Number, Ids, AfterAcks;
    IdsJoin(start, 0, k, n);
    AckBeforeWrap(pending, start, n, i, []);
    assert Listed([]) == {};
    if i == k {
      IdsJoin(start, k, k + 1, n);
    } else {
      IdsJoin(start, i + 1, k, n);
    }
  }

  /** Acknowledgements of arrivals in order, repeats included, release the numbers of the packets
      that arrived and no others. */
  lemma {:induction false} AcksRelease(
    env: Env, s: State, ports: Ports, ps: seq<Packet>, start: u16, trace: seq<nat>, k: nat, total: nat)
    requires Consecutive(ps, start) && start + |ps| <= 0x1_0000
    requires InOrderWithRepeats(trace, k, total) && total <= |ps| && Within(trace, |ps|)
    requires s.pending.Keys == Ids(start, k, |ps|)
    ensures var t := HandleAll(env, s, AckPackets(ports, Arrivals(ps, trace)));
            t == s.(pending := t.pending) && t.pending.Keys == Ids(start, total, |ps|)
    decreases |trace|
  {
    hide OnWire, AckOf, HandlePacket, AfterAcks, Ids, Encoded;
    TraceIndices(trace, k, total);
    var arrivals := Arrivals(ps, trace);
    if trace != [] {
      var i := trace[0];
      assert arrivals[0] == ps[i] && arrivals[1..] == Arrivals(ps, trace[1..]);
      AckPacketsHead(ports, arrivals);
      AckHandled(env, s, ports, ps[i]);
      assert ps[i].packetId == Number(start, i);
      OneReleased(s.pending, start, |ps|, k, i);
      var s1 := HandlePacket(env, s, OnWire(AckOf(ports, ps[i])));
      AcksRelease(env, s1, ports, ps, start, trace[1..], if i == k then k + 1 else k, total);
    }
  }

  // ---- From the sender to the receiver and back -----------------------------------------------------

  lemma {:induction false} AcksOnWire(ports: Ports, arrivals: seq<Packet>)
    ensures var acks := seq(|arrivals|, j requires 0 <= j < |arrivals| => AckOf(ports, arrivals[j]));
            && AcksOf(ports, arrivals) == EncodedEach(acks) && OnWireAll(acks) == AckPackets(ports, arrivals)
            && forall a :: a in acks ==> Framable(a)
  {
    hide OnWire, AckOf, Encoded, Framable;
    var acks := seq(|arrivals|, j requires 0 <= j < |arrivals| => AckOf(ports, arrivals[j]));
    forall a | a in acks ensures Framable(a) {
      var j :| 0 <= j < |acks| && acks[j] == a;
      AckOnWire(ports, arrivals[j]);
    }
  }

  lemma {:induction false} SenderReads(
    env: Env, s: State, ports: Ports, arrivals: seq<Packet>, chunks: seq<bytes>)
    requires s.recvBuf == [] && Concat(chunks) == Concat(AcksOf(ports, arrivals))
    ensures FeedAll(env, s, chunks) == HandleAll(env, s, AckPackets(ports, arrivals)).(recvBuf := [])
  {
    hide OnWire, AckOf, Encoded, Framable, HandleAll, FeedAll, FeedChunks, EncodedAll, DecodeTurn, AcksOf;
    var acks := seq(|arrivals|, j requires 0 <= j < |arrivals| => AckOf(ports, arrivals[j]));
    AcksOnWire(ports, arrivals);
    EncodedAllIsConcat(acks);
    assert EncodedAll(acks) + [] == EncodedAll(acks);
    EmptyNeedsMore();
    FramingRoundTrip(acks, [], chunks);
    FeedAllHandles(env, s, chunks);
  }

  /** A sender sends on a fresh connection; the first k of its n frames reach the receiver, in
      order and with repeats; what the receiver sends back reaches the sender, both ways cut into
      any reads. Then the sender keeps for retransmission exactly the n - k frames that did not
      arrive, as long as the numbers in flight have not wrapped. */
  lemma {:induction false} ArrivedIsReleased(
    here: Env, there: Env, sender: State, receiver: State, configured: int, datas: seq<bytes>,
    frames: seq<bytes>, trace: seq<nat>, k: nat, chunks: seq<bytes>, acks: seq<bytes>, back: seq<bytes>)
    requires sender.phase != Closed && WirePorts(sender.ports) && FragmentSize(configured) < 0x1_0000
    requires sender.pending == map[] && sender.recvBuf == []
    requires SendAll(sender, configured, datas).sent == sender.sent + frames
    requires sender.outReliable + |frames| <= 0x1_0000
    requires receiver.recvBuf == [] && receiver.window == []
    requires k <= |frames| && InOrderWithRepeats(trace, 0, k) && Within(trace, k)
    requires Concat(chunks) == Concat(Pick(frames, trace))
    requires FeedAll(there, receiver, chunks).sent == receiver.sent + acks && Concat(back) == Concat(acks)
    ensures FeedAll(here, SendAll(sender, configured, datas), back).pending.Keys
         == Ids(sender.outReliable, k, |frames|)
  {
    hide FeedAll, SendAll, SentPackets, AcksOf, Ids, AckPackets, Number, InOrderWithRepeats, Consecutive, HandleAll,
         Encoded;
    var start := sender.outReliable;
    var ps := SentPackets(sender.ports, FragmentSize(configured), datas, start);
    SendAllSends(sender, configured, datas, start);
    assert frames == (sender.sent + frames)[|sender.sent|..] == EncodedEach(ps);
    SentPacketsOnWire(sender.ports, FragmentSize(configured), datas, start);
    assert start == Number(start, 0) by { NumberBeforeWrap(start, 0); }
    SentAreKept(sender, configured, datas, start, 0);
    var sent := SendAll(sender, configured, datas);
    ReceiverAcks(there, receiver, ps, start, trace, k, chunks, acks);
    SenderReads(here, sent, receiver.ports, Arrivals(ps, trace), back);
    AcksRelease(here, sent, receiver.ports, ps, start, trace, 0, k);
  }

  /** The receiver answers the first k packets, however repeated and cut, with one acknowledgement
      per arrival. */
  lemma {:induction false} ReceiverAcks(
    env: Env, s: State, ps: seq<Packet>, start: nat, trace: seq<nat>, k: nat, chunks: seq<bytes>, acks: seq<bytes>)
    requires Consecutive(ps, start) && forall i :: 0 <= i < |ps| ==> Framable(ps[i]) && OnWire(ps[i]) == ps[i]
    requires s.recvBuf == [] && s.window == []
    requires k <= |ps| && InOrderWithRepeats(trace, 0, k) && Within(trace, k)
    requires Concat(chunks) == Concat(Pick(EncodedEach(ps), trace))
    requires FeedAll(env, s, chunks).sent == s.sent + acks
    ensures acks == AcksOf(s.ports, Arrivals(ps, trace))
  {
    hide Encoded, Assemble, FeedAll, EncodedAll, Framable, OnWire, AcksOf, LastIds, AckOf, InOrderWithRepeats,
         Consecutive;
    var arrivals := Arrivals(ps, trace);
    assert Pick(EncodedEach(ps), trace) == EncodedEach(arrivals);
    EncodedAllIsConcat(arrivals);
    FirstArrive(ps, trace, k, start);
    ReceiveStream(env, s, ps[..k], start, trace, chunks);
    assert acks == (s.sent + acks)[|s.sent|..] == AcksOf(s.ports, arrivals);
  }

  lemma {:induction false} FirstArrive(ps: seq<Packet>, trace: seq<nat>, k: nat, start: nat)
    requires k <= |ps| && Within(trace, k) && Consecutive(ps, start)
    ensures Arrivals(ps[..k], trace) == Arrivals(ps, trace) && Consecutive(ps[..k], start)
  {
  }
}
