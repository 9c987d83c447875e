/** The relay's port allocator (relaypair.go): one UDP port per pair of players, found by hashing
    and probing, released after two minutes of silence. */
module PairRelays {
  import opened Bytes
  import opened RelaySeats

  // Times are in nanoseconds, as Go's time.Duration.
  const PAIR_RELAY_TTL: int := 120_000_000_000
  const PROBES: nat := 8

  type Key = (u64, u64)

  /** The two PIDs in increasing order. */
  function KeyOf(a: u64, b: u64): (k: Key)
    ensures k.0 <= k.1
  {
    if a > b then (b, a) else (a, b)
  }

  /** Two requests are about one pair exactly when they name the same two players, in any order. */
  lemma {:induction false} SamePairIff(a: u64, b: u64, c: u64, d: u64)
    ensures KeyOf(a, b) == KeyOf(c, d) <==> (a == c && b == d) || (a == d && b == c)
  {
  }

  // ---- The hash -----------------------------------------------------------------------------

  const FNV_OFFSET: u64 := 14695981039346656037
  const FNV_PRIME: nat := 1099511628211

  /** h ^= b; h *= prime, on 64 bits. */
  function FnvByte(h: u64, b: byte): u64 {
    (h - h % 256 + Xor(h % 256, b)) * FNV_PRIME % 0x1_0000_0000_0000_0000
  }

  /** The eight bytes of v, low byte first. */
  function FnvWord(h: u64, v: nat, n: nat): u64
    decreases n
  {
    if n == 0 then h else FnvWord(FnvByte(h, v % 256), v / 256, n - 1)
  }

  function Hash(k: Key): u64 {
    FnvWord(FnvWord(FNV_OFFSET, k.0, 8), k.1, 8)
  }

  // ---- The hash is FNV-1a over sixteen bytes -------------------------------------------------

  /** For every byte: exclusive or on 64 bits, then times the prime. */
  function FnvFrom(h: u64, b: bytes): u64
    decreases |b|
  {
    if b == [] then h
    else FnvFrom(XorBits(h, b[0], 64) * 1099511628211 % 0x1_0000_0000_0000_0000, b[1..])
  }

  lemma {:induction false} XorLowByte(h: u64, b: byte)
    ensures XorBits(h, b, 64) == h - h % 256 + Xor(h % 256, b)
  {
    hide XorBits;
    EightBits();
    Fits(h);
    XorLow(h, b, 8, 56);
    LowIsMod(h, 8);
  }

  lemma {:induction false} Fits(h: u64)
    ensures h < Pow2(64)
  {
    EightBits();
    assert Pow2(12) == 16 * Pow2(8);
    assert Pow2(16) == 16 * Pow2(12);
    assert Pow2(20) == 16 * Pow2(16);
    assert Pow2(24) == 16 * Pow2(20);
    assert Pow2(28) == 16 * Pow2(24);
    assert Pow2(32) == 16 * Pow2(28);
    assert Pow2(36) == 16 * Pow2(32);
    assert Pow2(40) == 16 * Pow2(36);
    assert Pow2(44) == 16 * Pow2(40);
    assert Pow2(48) == 16 * Pow2(44);
    assert Pow2(52) == 16 * Pow2(48);
    assert Pow2(56) == 16 * Pow2(52);
    assert Pow2(60) == 16 * Pow2(56);
  }

  lemma {:induction false} FnvJoin(h: u64, a: bytes, b: bytes)
    ensures FnvFrom(h, a + b) == FnvFrom(FnvFrom(h, a), b)
    decreases |a|
  {
    hide XorBits;
    if a == [] {
      assert a + b == b;
    } else {
      assert (a + b)[1..] == a[1..] + b;
      FnvJoin(XorBits(h, a[0], 64) * 1099511628211 % 0x1_0000_0000_0000_0000, a[1..], b);
    }
  }

  lemma {:induction false} FnvOfWord(h: u64, v: nat, n: nat)
    ensures FnvWord(h, v, n) == FnvFrom(h, LE(v, n))
    decreases n
  {
    hide XorBits, Xor;
    if n > 0 {
      XorLowByte(h, v % 256);
      assert LE(v, n)[1..] == LE(v / 256, n - 1);
      FnvOfWord(FnvByte(h, v % 256), v / 256, n - 1);
    }
  }

  /** The eight bytes of the lower PID, low byte first, then those of the higher. */
  lemma {:induction false} HashIsFnv(lo: u64, hi: u64)
    ensures Hash((lo, hi)) == FnvFrom(14695981039346656037, LE(lo, 8) + LE(hi, 8))
  {
    hide FnvFrom, FnvWord, LE;
    FnvOfWord(FNV_OFFSET, lo, 8);
    FnvOfWord(FnvWord(FNV_OFFSET, lo, 8), hi, 8);
    FnvJoin(FNV_OFFSET, LE(lo, 8), LE(hi, 8));
  }

  // ---- State --------------------------------------------------------------------------------

  datatype Totals = Totals(received: nat, relayed: nat, rejected: nat, remaps: nat)

  function Plus(a: Totals, b: Totals): Totals {
    Totals(a.received + b.received, a.relayed + b.relayed, a.rejected + b.rejected, a.remaps + b.remaps)
  }

  function Tally(s: Sock): Totals {
    Totals(s.received, s.relayed, s.rejected, s.remaps)
  }

  const NOTHING := Totals(0, 0, 0, 0)

  /** `opened` and `mute` are the running counts of ports opened and of pairs closed without one
      relayed packet; `closed` counts the closing reports printed. */
  datatype Relay = Relay(
    host: string, base: nat, span: int,
    socks: map<nat, Sock>, ports: map<Key, nat>,
    total: Totals, openings: nat, mute: nat, closed: nat, reaping: bool)
  {
    predicate On() {
      host != "" && span > 0
    }
  }

  function KeyIn(s: Sock): Key {
    (s.lo, s.hi)
  }

  /** The two tables are inverse to each other, sockets sit on ordered pairs and are well formed,
      and someone is watching for silence whenever a socket is open. */
  ghost predicate Inv(r: Relay) {
    && (forall p :: p in r.socks ==>
          r.socks[p].Valid() && SeatsDiffer(r.socks[p]) && KeyIn(r.socks[p]) in r.ports
          && r.ports[KeyIn(r.socks[p])] == p && r.socks[p].lo <= r.socks[p].hi)
    && (forall k :: k in r.ports ==> r.ports[k] in r.socks && KeyIn(r.socks[r.ports[k]]) == k)
    && (r.socks != map[] ==> r.reaping)
  }

  // ---- Asking for a port ----------------------------------------------------------------------

  function PortFor(r: Relay, a: u64, b: u64): (p: Option<nat>)
    ensures p.Some? <==> r.On()
    ensures p.Some? ==> r.base <= p.value < r.base + r.span
  {
    if !r.On() then None else Some(r.base + Hash(KeyOf(a, b)) % r.span)
  }

  /** The i-th port to try, wrapping at the end of the range. */
  function PortAfter(base: nat, span: int, wished: nat, i: nat): (c: nat)
    requires span > 0 && base <= wished
    ensures base <= c < base + span
  {
    base + (wished - base + i) % span
  }

  function Candidate(r: Relay, wished: nat, i: nat): (c: nat)
    requires r.span > 0 && r.base <= wished
    ensures r.base <= c < r.base + r.span
  {
    PortAfter(r.base, r.span, wished, i)
  }

  /** The first candidate from the i-th on that is free or already ours. */
  function Probe(r: Relay, key: Key, wished: nat, i: nat): (p: Option<nat>)
    requires r.span > 0 && r.base <= wished
    ensures p.Some? ==> r.base <= p.value < r.base + r.span
    ensures p.Some? ==> p.value !in r.socks || KeyIn(r.socks[p.value]) == key
    decreases PROBES - i
  {
    if i >= PROBES then None
    else
      var cand := Candidate(r, wished, i);
      if cand !in r.socks || KeyIn(r.socks[cand]) == key then Some(cand)
      else Probe(r, key, wished, i + 1)
  }

  /** The expected addresses, in the order of the PIDs. */
  function ExpectedOrder(pidA: u64, pidB: u64, ipA: string, ipB: string): seq<string> {
    if pidA > pidB then [ipB, ipA] else [ipA, ipB]
  }

  function Armed(s: Sock, expected: seq<string>, now: int): Sock {
    s.(expected := expected, last := now)
  }

  /** `allowed` is the verdict of the eligibility rules, `listens` whether the port could be
      bound. The result is the state afterwards and the port announced, if any. */
  function Ask(r: Relay, pidA: u64, pidB: u64, ipA: string, ipB: string,
               allowed: bool, listens: bool, now: int): (Relay, Option<nat>) {
    if !r.On() || ipA == "" || ipB == "" || !allowed then (r, None)
    else
      var key := KeyOf(pidA, pidB);
      var expected := ExpectedOrder(pidA, pidB, ipA, ipB);
      if key in r.ports && r.ports[key] in r.socks then
        var p := r.ports[key];
        (r.(socks := r.socks[p := Armed(r.socks[p], expected, now)], reaping := true), Some(p))
      else
        var port := Probe(r, key, PortFor(r, pidA, pidB).value, 0);
        if port.None? || !listens then (r, None)
        else
          (r.(socks := r.socks[port.value := Armed(Fresh(key.0, key.1), expected, now)],
              ports := r.ports[key := port.value], openings := r.openings + 1, reaping := true), port)
  }

  lemma {:induction false} RefusedUnchanged(r: Relay, a: u64, b: u64, ipA: string, ipB: string, listens: bool, now: int)
    ensures Ask(r, a, b, ipA, ipB, false, listens, now) == (r, None)
    ensures !r.On() || ipA == "" || ipB == "" ==> Ask(r, a, b, ipA, ipB, true, listens, now) == (r, None)
  {
  }

  // ---- Closing --------------------------------------------------------------------------------

  predicate Idle(s: Sock, now: int) {
    now - s.last > PAIR_RELAY_TTL
  }

  ghost function AnyOf(S: set<nat>): (p: nat)
    requires S != {}
    ensures p in S
  {
    var p :| p in S;
    p
  }

  /** The counts of all sockets together. */
  ghost function Sum(m: map<nat, Sock>): Totals
    decreases |m|
  {
    if m.Keys == {} then NOTHING
    else
      var p: nat := AnyOf(m.Keys);
      Plus(Tally(m[p]), Sum(m - {p}))
  }

  lemma {:induction false} PlusRotate(a: Totals, b: Totals, c: Totals)
    ensures Plus(a, Plus(b, c)) == Plus(b, Plus(a, c))
  {
  }

  lemma {:induction false} SumSplit(m: map<nat, Sock>, p: nat)
    requires p in m
    ensures Sum(m) == Plus(Tally(m[p]), Sum(m - {p}))
    decreases |m|
  {
    hide Tally, Plus;
    var q: nat := AnyOf(m.Keys);
    if q != p {
      var rest: map<nat, Sock> := m - {q} - {p};
      SumSplit(m - {q}, p);
      SumSplit(m - {p}, q);
      assert rest == m - {p} - {q};
      assert (m - {q})[p] == m[p] && (m - {p})[q] == m[q];
      PlusRotate(Tally(m[q]), Tally(m[p]), Sum(rest));
    }
  }

  /** The sockets in S. */
  function Only(m: map<nat, Sock>, S: set<nat>): map<nat, Sock> {
    map p | p in m && p in S :: m[p]
  }

  lemma {:induction false} SumPartition(m: map<nat, Sock>, S: set<nat>)
    requires S <= m.Keys
    ensures Plus(Sum(Only(m, S)), Sum(m - S)) == Sum(m)
    decreases S
  {
    hide Tally, Sum, Plus;
    if S == {} {
      assert Only(m, S) == map[] && m - S == m;
      SumOfNothing(Sum(m));
    } else {
      var p: nat := AnyOf(S);
      SumPartition(m, S - {p});
      SumSplit(Only(m, S), p);
      SumSplit(m - (S - {p}), p);
      assert Only(m, S) - {p} == Only(m, S - {p});
      assert m - (S - {p}) - {p} == m - S;
      PlusSwap(Tally(m[p]), Sum(Only(m, S - {p})), Sum(m - S));
    }
  }

  lemma {:induction false} SumOfNothing(t: Totals)
    ensures Sum(map[]) == NOTHING && Plus(Sum(map[]), t) == t == Plus(t, Sum(map[]))
  {
  }

  lemma {:induction false} PlusSwap(t: Totals, a: Totals, b: Totals)
    ensures Plus(Plus(t, a), b) == Plus(a, Plus(t, b))
  {
  }

  function Mute(m: map<nat, Sock>): set<nat> {
    set p | p in m && m[p].relayed == 0
  }

  function KeysIn(m: map<nat, Sock>): set<Key> {
    set p | p in m :: KeyIn(m[p])
  }

  /** Closing the sockets in S: their counts join the totals. */
  ghost function CloseSet(r: Relay, S: set<nat>): Relay {
    var gone := Only(r.socks, S);
    r.(socks := r.socks - S, ports := r.ports - KeysIn(gone),
       total := Plus(r.total, Sum(gone)), mute := r.mute + |Mute(gone)|, closed := r.closed + |gone|)
  }

  function IdleSet(r: Relay, now: int): set<nat> {
    set p | p in r.socks && Idle(r.socks[p], now)
  }

  /** One pass of the reaper; it stops watching when nothing is left. */
  ghost function Reaped(r: Relay, now: int): Relay {
    var r1 := CloseSet(r, IdleSet(r, now));
    if r1.socks == map[] then r1.(reaping := false) else r1
  }

  ghost function Configured(r: Relay, host: string, base: nat, span: int): Relay {
    var r1 := r.(host := host, base := base, span := span);
    if host == "" then CloseSet(r1, r1.socks.Keys) else r1
  }

  ghost function Received(net: Net24, r: Relay, port: nat, now: int, src: Addr): Relay
    requires Inv(r)
  {
    if port in r.socks then r.(socks := r.socks[port := Forwarded(net, r.socks[port], now, src).0]) else r
  }

  // ---- What every step keeps ------------------------------------------------------------------

  /** Everything ever counted: what was closed and what is still open. */
  ghost function Everything(r: Relay): Totals {
    Plus(r.total, Sum(r.socks))
  }

  /** A pair that has no port has no socket: the probe's "already ours" branch and the later
      mismatch branch are never taken. */
  lemma {:induction false} NoForeignSocket(r: Relay, key: Key)
    requires Inv(r)
    ensures key in r.ports ==> r.ports[key] in r.socks && KeyIn(r.socks[r.ports[key]]) == key
    ensures key !in r.ports ==> forall p :: p in r.socks ==> KeyIn(r.socks[p]) != key
  {
  }

  /** The state after opening port p for a pair that has none. */
  function Opening(r: Relay, key: Key, p: nat): Relay {
    r.(socks := r.socks[p := Fresh(key.0, key.1)], ports := r.ports[key := p],
       openings := r.openings + 1, reaping := true)
  }

  lemma {:induction false} OpeningKeepsInv(r: Relay, key: Key, p: nat)
    requires Inv(r) && p !in r.socks && key !in r.ports && key.0 <= key.1
    ensures Inv(Opening(r, key, p))
  {
  }

  function Arming(r: Relay, p: nat, expected: seq<string>, now: int): Relay
    requires p in r.socks
  {
    r.(socks := r.socks[p := Armed(r.socks[p], expected, now)])
  }

  lemma {:induction false} ArmingKeepsInv(r: Relay, p: nat, expected: seq<string>, now: int)
    requires Inv(r) && p in r.socks && |expected| == 2
    ensures Inv(Arming(r, p, expected, now))
  {
  }

  /** A successful request opens the port if the pair has none, then arms it. */
  lemma {:induction false} AskInSteps(r: Relay, pidA: u64, pidB: u64, ipA: string, ipB: string, listens: bool, now: int)
    requires Inv(r) && r.On() && ipA != "" && ipB != ""
    ensures var key := KeyOf(pidA, pidB);
            var expected := ExpectedOrder(pidA, pidB, ipA, ipB);
            var found := if key in r.ports then Some(r.ports[key]) else Probe(r, key, PortFor(r, pidA, pidB).value, 0);
            Ask(r, pidA, pidB, ipA, ipB, true, listens, now)
            == if found.None? || (found.value !in r.socks && !listens) then (r, None)
               else if found.value in r.socks then (Arming(r, found.value, expected, now), found)
               else (Arming(Opening(r, key, found.value), found.value, expected, now), found)
    ensures var key := KeyOf(pidA, pidB);
            var found := if key in r.ports then Some(r.ports[key]) else Probe(r, key, PortFor(r, pidA, pidB).value, 0);
            found.Some? ==> (found.value in r.socks <==> key in r.ports)
                            && (found.value in r.socks ==> KeyIn(r.socks[found.value]) == key && r.reaping)
  {
    hide Hash, Probe;
    var key := KeyOf(pidA, pidB);
    NoForeignSocket(r, key);
    if key in r.ports {
      assert r.ports[key] in r.socks && r.socks != map[];
    } else {
      var found := Probe(r, key, PortFor(r, pidA, pidB).value, 0);
      if found.Some? && listens {
        var s := Armed(Fresh(key.0, key.1), ExpectedOrder(pidA, pidB, ipA, ipB), now);
        assert r.socks[found.value := Fresh(key.0, key.1)][found.value := s] == r.socks[found.value := s];
      }
    }
  }

  lemma {:induction false} AskKeepsInv(
    r: Relay, pidA: u64, pidB: u64, ipA: string, ipB: string, allowed: bool, listens: bool, now: int)
    requires Inv(r)
    ensures Inv(Ask(r, pidA, pidB, ipA, ipB, allowed, listens, now).0)
  {
    hide Probe;
    NoForeignSocket(r, KeyOf(pidA, pidB));
  }

  lemma {:induction false} KeysOfClosed(r: Relay, S: set<nat>)
    requires Inv(r) && S <= r.socks.Keys
    ensures forall k :: k in r.ports ==> (k in KeysIn(Only(r.socks, S)) <==> r.ports[k] in S)
  {
    forall k | k in r.ports && r.ports[k] in S ensures k in KeysIn(Only(r.socks, S)) {
      assert r.ports[k] in Only(r.socks, S);
    }
  }

  lemma {:induction false} CloseKeepsInv(r: Relay, S: set<nat>)
    requires Inv(r) && S <= r.socks.Keys
    ensures Inv(CloseSet(r, S))
    ensures CloseSet(r, S).socks == map[] ==> Inv(CloseSet(r, S).(reaping := false))
    ensures S == r.socks.Keys ==> CloseSet(r, S).ports == map[]
  {
    hide KeysIn, Only, Sum, Mute;
    KeysOfClosed(r, S);
  }

  lemma {:induction false} CloseKeepsEverything(r: Relay, S: set<nat>)
    requires S <= r.socks.Keys
    ensures Everything(CloseSet(r, S)) == Everything(r)
    ensures CloseSet(r, S).closed + |CloseSet(r, S).socks| == r.closed + |r.socks|
    ensures CloseSet(r, S).openings == r.openings
  {
    hide Sum, Plus, KeysIn, Mute;
    SumPartition(r.socks, S);
    PlusAssociates(r.total, Sum(Only(r.socks, S)), Sum(r.socks - S));
    OnlyCount(r.socks, S);
  }

  lemma {:induction false} PlusAssociates(a: Totals, b: Totals, c: Totals)
    ensures Plus(Plus(a, b), c) == Plus(a, Plus(b, c))
  {
  }

  lemma {:induction false} OnlyCount(m: map<nat, Sock>, S: set<nat>)
    requires S <= m.Keys
    ensures |Only(m, S)| + |m - S| == |m|
  {
    assert Only(m, S).Keys == S && (m - S).Keys == m.Keys - S;
    assert |Only(m, S)| == |S| && |m - S| == |m.Keys - S| && |m| == |m.Keys|;
  }

  lemma {:induction false} SumReplace(m: map<nat, Sock>, p: nat, s: Sock)
    ensures p in m ==> Sum(m) == Plus(Tally(m[p]), Sum(m - {p}))
    ensures Sum(m[p := s]) == Plus(Tally(s), Sum(m - {p}))
  {
    hide Tally, Sum;
    if p in m {
      SumSplit(m, p);
    }
    SumSplit(m[p := s], p);
    assert m[p := s] - {p} == m - {p};
  }

  lemma {:induction false} ArmingKeepsEverything(r: Relay, p: nat, expected: seq<string>, now: int)
    requires p in r.socks
    ensures var r1 := Arming(r, p, expected, now);
            Everything(r1) == Everything(r) && r1.closed == r.closed && r1.openings == r.openings
            && |r1.socks| == |r.socks|
  {
    hide Sum;
    var r1 := Arming(r, p, expected, now);
    SumReplace(r.socks, p, r1.socks[p]);
    assert r1.socks.Keys == r.socks.Keys && |r1.socks.Keys| == |r1.socks| && |r.socks.Keys| == |r.socks|;
  }

  lemma {:induction false} OpeningKeepsEverything(r: Relay, key: Key, p: nat)
    requires p !in r.socks
    ensures var r1 := Opening(r, key, p);
            Everything(r1) == Everything(r) && r1.closed == r.closed && r1.openings == r.openings + 1
            && |r1.socks| == |r.socks| + 1
  {
    hide Sum;
    var r1 := Opening(r, key, p);
    SumReplace(r.socks, p, r1.socks[p]);
    assert r.socks - {p} == r.socks;
    assert r1.socks.Keys == r.socks.Keys + {p} && |r1.socks.Keys| == |r1.socks| && |r.socks.Keys| == |r.socks|;
  }

  lemma {:induction false} AskKeepsEverything(
    r: Relay, pidA: u64, pidB: u64, ipA: string, ipB: string, allowed: bool, listens: bool, now: int)
    requires Inv(r)
    ensures var r1 := Ask(r, pidA, pidB, ipA, ipB, allowed, listens, now).0;
            Everything(r1) == Everything(r) && r1.closed == r.closed
            && r1.openings - r.openings == |r1.socks| - |r.socks|
  {
    hide Probe, Hash, Everything, Inv;
    if r.On() && ipA != "" && ipB != "" && allowed {
      AskInSteps(r, pidA, pidB, ipA, ipB, listens, now);
      hide Ask, Arming, Opening;
      var (r1, port) := Ask(r, pidA, pidB, ipA, ipB, true, listens, now);
      if port.Some? {
        var p, key, expected := port.value, KeyOf(pidA, pidB), ExpectedOrder(pidA, pidB, ipA, ipB);
        if p in r.socks {
          ArmingKeepsEverything(r, p, expected, now);
        } else {
          OpeningKeepsEverything(r, key, p);
          assert p in Opening(r, key, p).socks by { OpeningHolds(r, key, p); }
          ArmingKeepsEverything(Opening(r, key, p), p, expected, now);
        }
      }
    }
  }

  lemma {:induction false} OpeningHolds(r: Relay, key: Key, p: nat)
    ensures p in Opening(r, key, p).socks
  {
  }

  // ---- Runs -----------------------------------------------------------------------------------

  datatype Event =
    | Configure(host: string, base: nat, span: int)
    | AskPort(pidA: u64, pidB: u64, ipA: string, ipB: string, allowed: bool, listens: bool, now: int)
    | Packet(port: nat, now: int, src: Addr)
    | Reap(now: int)

  ghost function Step(net: Net24, r: Relay, e: Event): Relay
    requires Inv(r)
  {
    match e
    case Configure(host, base, span) => Configured(r, host, base, span)
    case AskPort(pidA, pidB, ipA, ipB, allowed, listens, now) =>
      Ask(r, pidA, pidB, ipA, ipB, allowed, listens, now).0
    case Packet(port, now, src) => Received(net, r, port, now, src)
    case Reap(now) => Reaped(r, now)
  }

  lemma {:induction false} StepKeepsInv(net: Net24, r: Relay, e: Event)
    requires Inv(r)
    ensures Inv(Step(net, r, e))
  {
    hide Probe, CloseSet, Forwarded;
    match e
    case Configure(host, base, span) =>
      CloseKeepsInv(r.(host := host, base := base, span := span), r.socks.Keys);
    case AskPort(pidA, pidB, ipA, ipB, allowed, listens, now) =>
      AskKeepsInv(r, pidA, pidB, ipA, ipB, allowed, listens, now);
    case Packet(port, now, src) =>
      if port in r.socks {
        SeatsStayDifferent(net, r.socks[port], now, src);
        ForwardKeepsIdentity(net, r.socks[port], now, src);
      }
    case Reap(now) =>
      CloseKeepsInv(r, IdleSet(r, now));
  }

  lemma {:induction false} ForwardKeepsIdentity(net: Net24, s: Sock, now: int, src: Addr)
    requires s.Valid()
    ensures var t := Forwarded(net, s, now, src).0;
            t.lo == s.lo && t.hi == s.hi && t.expected == s.expected && t.last == now
  {
    hide Admits, SameNetwork;
  }

  function Start(): Relay {
    Relay("", 0, 0, map[], map[], NOTHING, 0, 0, 0, false)
  }

  ghost function RunAll(net: Net24, es: seq<Event>): (r: Relay)
    ensures Inv(r)
  {
    if es == [] then Start()
    else
      var r := RunAll(net, es[..|es| - 1]);
      StepKeepsInv(net, r, es[|es| - 1]);
      Step(net, r, es[|es| - 1])
  }

  /** In every reachable state a pair has at most one port and a port at most one pair. */
  lemma {:induction false} TablesAreInverse(net: Net24, es: seq<Event>)
    ensures var r := RunAll(net, es);
            && (forall k, p :: k in r.ports && r.ports[k] == p ==> p in r.socks && KeyIn(r.socks[p]) == k)
            && (forall p :: p in r.socks ==> KeyIn(r.socks[p]) in r.ports && r.ports[KeyIn(r.socks[p])] == p)
            && (forall p, q :: p in r.socks && q in r.socks && KeyIn(r.socks[p]) == KeyIn(r.socks[q]) ==> p == q)
  {
  }

  /** Packets that arrived on an open port. */
  ghost function Arrived(net: Net24, es: seq<Event>): nat {
    if es == [] then 0
    else
      var e := es[|es| - 1];
      Arrived(net, es[..|es| - 1]) + if OnOpenPort(RunAll(net, es[..|es| - 1]), e) then 1 else 0
  }

  predicate OnOpenPort(r: Relay, e: Event) {
    e.Packet? && e.port in r.socks
  }

  /** What is neither relayed nor rejected. */
  function Waiting(t: Totals): int {
    t.received - t.relayed - t.rejected
  }

  /** The packet seats its sender, or finds it seated, with nobody opposite. */
  predicate SeatedAlone(net: Net24, r: Relay, port: nat, now: int, src: Addr) {
    port in r.socks && r.socks[port].Valid() && OutcomeOf(net, r.socks[port], Arrival(now, src)) == Alone
  }

  ghost function ArrivedAlone(net: Net24, es: seq<Event>): nat {
    if es == [] then 0
    else
      var e := es[|es| - 1];
      ArrivedAlone(net, es[..|es| - 1])
      + if AloneAt(net, RunAll(net, es[..|es| - 1]), e) then 1 else 0
  }

  predicate AloneAt(net: Net24, r: Relay, e: Event) {
    e.Packet? && SeatedAlone(net, r, e.port, e.now, e.src)
  }

  lemma {:induction false} ReceivedCounts(net: Net24, r: Relay, port: nat, now: int, src: Addr)
    requires Inv(r)
    ensures var r1 := Received(net, r, port, now, src);
            && r1.closed == r.closed && r1.openings == r.openings && r1.socks.Keys == r.socks.Keys
            && Everything(r1).received == Everything(r).received + (if port in r.socks then 1 else 0)
            && Waiting(Everything(r1))
               == Waiting(Everything(r)) + (if SeatedAlone(net, r, port, now, src) then 1 else 0)
  {
    hide Sum, Forwarded, OutcomeOf;
    if port in r.socks {
      var s := r.socks[port];
      OneOutcome(net, s, Arrival(now, src));
      SumReplace(r.socks, port, Forwarded(net, s, now, src).0);
    }
  }

  lemma {:induction false} StepCounts(net: Net24, r: Relay, e: Event)
    requires Inv(r)
    ensures var r1 := Step(net, r, e);
            && Everything(r1).received == Everything(r).received + (if OnOpenPort(r, e) then 1 else 0)
            && Waiting(Everything(r1)) == Waiting(Everything(r)) + (if AloneAt(net, r, e) then 1 else 0)
            && r1.openings - |r1.socks| - r1.closed == r.openings - |r.socks| - r.closed
  {
    hide Sum, CloseSet, Probe, Ask, Inv, Forwarded, Plus, SeatedAlone;
    match e
    case Configure(host, base, span) =>
      CloseKeepsEverything(r.(host := host, base := base, span := span), r.socks.Keys);
    case AskPort(pidA, pidB, ipA, ipB, allowed, listens, now) =>
      AskKeepsEverything(r, pidA, pidB, ipA, ipB, allowed, listens, now);
    case Packet(port, now, src) =>
      ReceivedCounts(net, r, port, now, src);
      assert |Received(net, r, port, now, src).socks.Keys| == |r.socks.Keys|;
    case Reap(now) =>
      CloseKeepsEverything(r, IdleSet(r, now));
  }

  /** Nothing is lost when pairs close: the totals and the open sockets together account for
      every packet that arrived on an open port; each was relayed, rejected or came from a seated
      player still alone; and every port opened is open or closed. */
  lemma {:induction false} TotalsAccountForEverything(net: Net24, es: seq<Event>)
    ensures var r := RunAll(net, es);
            var t := Everything(r);
            && t.received == Arrived(net, es)
            && t.received == t.relayed + t.rejected + ArrivedAlone(net, es)
            && r.openings == |r.socks| + r.closed
  {
    hide Everything, Step, Inv, OnOpenPort, AloneAt;
    if es == [] {
      NothingCounted(Start());
    } else {
      TotalsAccountForEverything(net, es[..|es| - 1]);
      StepCounts(net, RunAll(net, es[..|es| - 1]), es[|es| - 1]);
    }
  }

  lemma {:induction false} NothingCounted(r: Relay)
    requires r.socks == map[] && r.total == NOTHING
    ensures Everything(r).received == 0 && Waiting(Everything(r)) == 0
  {
    hide Sum, Plus;
    SumOfNothing(NOTHING);
  }

  /** A run that never changes the port range while ports are open. */
  predicate Steady(e: Event, base: nat, span: int) {
    e.Configure? && e.host != "" ==> e.base == base && e.span == span
  }

  predicate InRange(r: Relay, base: nat, span: int) {
    && (forall p :: p in r.socks ==> base <= p < base + span)
    && (r.On() ==> r.base == base && r.span == span)
  }

  lemma {:induction false} StepInRange(net: Net24, r: Relay, e: Event, base: nat, span: int)
    requires Inv(r) && InRange(r, base, span) && Steady(e, base, span)
    ensures InRange(Step(net, r, e), base, span)
  {
    hide Sum, Probe, Inv, Forwarded, KeysIn, Mute, Ask, Only;
    if e.AskPort? {
      AskInRange(r, e);
    }
  }

  /** Under one configuration every open port lies in the configured range. */
  lemma {:induction false} PortsInRange(net: Net24, es: seq<Event>, base: nat, span: int)
    requires forall e :: e in es ==> Steady(e, base, span)
    ensures InRange(RunAll(net, es), base, span)
  {
    hide Step, Inv, Steady;
    if es != [] {
      PortsInRange(net, es[..|es| - 1], base, span);
      StepInRange(net, RunAll(net, es[..|es| - 1]), es[|es| - 1], base, span);
    }
  }

  lemma {:induction false} AskInRange(r: Relay, e: Event)
    requires e.AskPort?
    ensures var r1 := Ask(r, e.pidA, e.pidB, e.ipA, e.ipB, e.allowed, e.listens, e.now).0;
            forall p :: p in r1.socks && p !in r.socks ==> r.On() && r.base <= p < r.base + r.span
    ensures var r1 := Ask(r, e.pidA, e.pidB, e.ipA, e.ipB, e.allowed, e.listens, e.now).0;
            r1.host == r.host && r1.base == r.base && r1.span == r.span
  {
  }

  /** No port is given: the relay is off, an address is missing, the pair is not entitled, or it
      has no port yet and the ports tried are all taken or the one found cannot be bound. */
  predicate Refuses(r: Relay, a: u64, b: u64, ipA: string, ipB: string, allowed: bool, listens: bool) {
    !r.On() || ipA == "" || ipB == "" || !allowed
    || (KeyOf(a, b) !in r.ports
        && (!listens || forall i: nat :: i < 8 ==> Tried(r, a, b, i) in r.socks))
  }

  /** The i-th port tried for a pair: from the one its hash names on, wrapping in the range. */
  function Tried(r: Relay, a: u64, b: u64, i: nat): nat
    requires r.span > 0
  {
    r.base + (Hash(KeyOf(a, b)) % r.span + i) % r.span
  }

  /** Both call orders of a pair are the same call, with the same port, expected addresses and
      state, exactly when the players differ, or the one player has one address, or no port is
      given. */
  lemma {:induction false} AskIsSymmetricIff(
    r: Relay, a: u64, b: u64, ipA: string, ipB: string, allowed: bool, listens: bool, now: int)
    requires Inv(r)
    ensures Ask(r, a, b, ipA, ipB, allowed, listens, now) == Ask(r, b, a, ipB, ipA, allowed, listens, now)
       <==> a != b || ipA == ipB || Refuses(r, a, b, ipA, ipB, allowed, listens)
  {
    AskOrders(r, a, b, ipA, ipB, allowed, listens, now);
    RefusedIff(r, a, b, ipA, ipB, allowed, listens, now);
  }

  lemma {:induction false} AskOrders(
    r: Relay, a: u64, b: u64, ipA: string, ipB: string, allowed: bool, listens: bool, now: int)
    ensures Ask(r, a, b, ipA, ipB, allowed, listens, now) == Ask(r, b, a, ipB, ipA, allowed, listens, now)
       <==> a != b || ipA == ipB || Ask(r, a, b, ipA, ipB, allowed, listens, now).1.None?
  {
    hide Probe, Hash;
    var (r1, port) := Ask(r, a, b, ipA, ipB, allowed, listens, now);
    var r2 := Ask(r, b, a, ipB, ipA, allowed, listens, now).0;
    if a == b && port.Some? {
      assert r1.socks[port.value].expected == [ipA, ipB] && r2.socks[port.value].expected == [ipB, ipA];
      assert [ipA, ipB][0] == ipA && [ipB, ipA][0] == ipB;
    }
  }

  // ---- Keeping a port ---------------------------------------------------------------------------

  predicate Holds(r: Relay, k: Key, p: nat) {
    k in r.ports && r.ports[k] == p && p in r.socks
  }

  /** What closes a pair's port: the relay is switched off, or a pass of the reaper finds the port
      silent for more than two minutes. */
  predicate Closes(r: Relay, k: Key, e: Event) {
    match e
    case Configure(host, _, _) => host == ""
    case Reap(now) =>
      k in r.ports && r.ports[k] in r.socks && now - r.socks[r.ports[k]].last > 120_000_000_000
    case _ => false
  }

  /** One event keeps the pair's port, and keeps it the same, exactly when it does not close it. */
  lemma {:induction false} KeptByStepIff(net: Net24, r: Relay, k: Key, e: Event)
    requires Inv(r) && k in r.ports
    ensures k in Step(net, r, e).ports <==> !Closes(r, k, e)
    ensures k in Step(net, r, e).ports <==> Holds(Step(net, r, e), k, r.ports[k])
  {
    hide Sum, Forwarded, Mute, KeysIn, Only, Ask;
    match e
    case Configure(host, base, span) =>
      KeysOfClosed(r.(host := host, base := base, span := span), r.socks.Keys);
    case AskPort(a, b, ipA, ipB, allowed, listens, now) =>
      AskKeepsInv(r, a, b, ipA, ipB, allowed, listens, now);
      if k == KeyOf(a, b) {
        AskKeepsOwn(r, a, b, ipA, ipB, allowed, listens, now);
      } else {
        AskLeavesOthersAlone(r, a, b, ipA, ipB, allowed, listens, now);
      }
    case Packet(_, _, _) =>
    case Reap(now) =>
      KeysOfClosed(r, IdleSet(r, now));
  }

  /** A pair that has a port gets that port, even when it could no longer be bound. */
  lemma {:induction false} AskKeepsOwn(
    r: Relay, a: u64, b: u64, ipA: string, ipB: string, allowed: bool, listens: bool, now: int)
    requires Inv(r) && KeyOf(a, b) in r.ports
    ensures var (r1, port) := Ask(r, a, b, ipA, ipB, allowed, listens, now);
            var p := r.ports[KeyOf(a, b)];
            Holds(r1, KeyOf(a, b), p) && (r.On() && ipA != "" && ipB != "" && allowed ==> port == Some(p))
  {
  }

  /** No event of the later run closes the pair's port. */
  ghost predicate NeverCloses(net: Net24, es: seq<Event>, later: seq<Event>, k: Key) {
    forall i :: 0 <= i < |later| ==> !Closes(RunAll(net, es + later[..i]), k, later[i])
  }

  ghost predicate HoldsThroughout(net: Net24, es: seq<Event>, later: seq<Event>, k: Key, p: nat) {
    forall i :: 0 <= i <= |later| ==> Holds(RunAll(net, es + later[..i]), k, p)
  }

  /** Whatever else happens, a pair holds its port through a run exactly when no event of the run
      closes it. */
  lemma {:induction false} PortIsHeldIff(net: Net24, es: seq<Event>, later: seq<Event>, k: Key)
    requires k in RunAll(net, es).ports
    ensures HoldsThroughout(net, es, later, k, RunAll(net, es).ports[k]) <==> NeverCloses(net, es, later, k)
    decreases |later|
  {
    hide Step, Inv, Holds, Closes, HoldsThroughout, NeverCloses;
    var p := RunAll(net, es).ports[k];
    HeldNow(net, es, k);
    if later == [] {
      NothingLater(net, es, k, p);
    } else {
      var n := |later| - 1;
      PortIsHeldIff(net, es, later[..n], k);
      OneMoreLater(net, es, later, k, p);
      if HoldsThroughout(net, es, later[..n], k, p) {
        assert Holds(RunAll(net, es + later[..n]), k, p) by {
          HeldAtEnd(net, es, later[..n], k, p);
        }
        HeldNext(net, es + later[..n], k, p, later[n]);
        assert es + later[..n] + [later[n]] == es + later;
      }
    }
  }

  lemma {:induction false} NothingLater(net: Net24, es: seq<Event>, k: Key, p: nat)
    ensures HoldsThroughout(net, es, [], k, p) <==> Holds(RunAll(net, es), k, p)
    ensures NeverCloses(net, es, [], k)
  {
    hide Step, Holds, Closes;
    var later: seq<Event> := [];
    assert es + later[..0] == es;
  }

  lemma {:induction false} HeldAtEnd(net: Net24, es: seq<Event>, later: seq<Event>, k: Key, p: nat)
    requires HoldsThroughout(net, es, later, k, p)
    ensures Holds(RunAll(net, es + later), k, p)
  {
    hide RunAll, Holds;
    assert later[..|later|] == later;
  }

  lemma {:induction false} OneMoreLater(net: Net24, es: seq<Event>, later: seq<Event>, k: Key, p: nat)
    requires later != []
    ensures var n := |later| - 1;
            && (HoldsThroughout(net, es, later, k, p)
                <==> HoldsThroughout(net, es, later[..n], k, p) && Holds(RunAll(net, es + later), k, p))
            && (NeverCloses(net, es, later, k)
                <==> NeverCloses(net, es, later[..n], k) && !Closes(RunAll(net, es + later[..n]), k, later[n]))
  {
    hide RunAll, Holds, Closes;
    var n := |later| - 1;
    var before := later[..n];
    assert forall i :: 0 <= i <= n ==> before[..i] == later[..i];
    assert forall i :: 0 <= i < n ==> before[i] == later[i];
    assert later[..n + 1] == later;
  }

  lemma {:induction false} HeldNow(net: Net24, es: seq<Event>, k: Key)
    requires k in RunAll(net, es).ports
    ensures Holds(RunAll(net, es), k, RunAll(net, es).ports[k])
  {
  }

  lemma {:induction false} HeldNext(net: Net24, es: seq<Event>, k: Key, p: nat, e: Event)
    requires Holds(RunAll(net, es), k, p)
    ensures Holds(RunAll(net, es + [e]), k, p) <==> !Closes(RunAll(net, es), k, e)
  {
    hide Step, Closes;
    assert (es + [e])[..|es + [e]| - 1] == es;
    KeptByStepIff(net, RunAll(net, es), k, e);
  }

  /** The port a request is answered with. */
  ghost function Answer(net: Net24, es: seq<Event>, e: Event): Option<nat>
    requires e.AskPort?
  {
    Ask(RunAll(net, es), e.pidA, e.pidB, e.ipA, e.ipB, e.allowed, e.listens, e.now).1
  }

  /** Until its port is closed a pair is told the same port: after any events that do not close
      it, a request for the same two players, in either order, is answered with the port given
      before as long as the relay is on, both addresses are known and the pair is entitled, even
      when the port could no longer be bound; and the address of the lower PID is expected first. */
  lemma {:induction false} PortIsSticky(
    net: Net24, es: seq<Event>, first: Event, later: seq<Event>, again: Event)
    requires first.AskPort? && again.AskPort? && KeyOf(again.pidA, again.pidB) == KeyOf(first.pidA, first.pidB)
    requires Answer(net, es, first).Some?
    requires NeverCloses(net, es + [first], later, KeyOf(first.pidA, first.pidB))
    requires RunAll(net, es + [first] + later).On() && again.ipA != "" && again.ipB != "" && again.allowed
    ensures var p := Answer(net, es, first).value;
            && Answer(net, es + [first] + later, again) == Some(p)
            && p in RunAll(net, es + [first] + later + [again]).socks
            && RunAll(net, es + [first] + later + [again]).socks[p].expected
               == if again.pidA <= again.pidB then [again.ipA, again.ipB] else [again.ipB, again.ipA]
  {
    hide Inv, Closes, NeverCloses, Ask;
    var k, p := KeyOf(first.pidA, first.pidB), Answer(net, es, first).value;
    AnsweredIsHeld(net, es, first);
    PortIsHeldIff(net, es + [first], later, k);
    HeldAtEnd(net, es + [first], later, k, p);
    AnsweredAgain(net, es + [first] + later, again);
  }

  // ---- When a port goes silent ------------------------------------------------------------------

  /** The event asks for a port for this pair and gets one, or is a packet on the pair's port. */
  ghost predicate Touches(r: Relay, k: Key, e: Event) {
    match e
    case AskPort(a, b, ipA, ipB, allowed, listens, now) =>
      KeyOf(a, b) == k && Ask(r, a, b, ipA, ipB, allowed, listens, now).1.Some?
    case Packet(port, _, _) => Holds(r, k, port)
    case _ => false
  }

  /** The time of the latest such event. */
  ghost function LastTouch(net: Net24, es: seq<Event>, k: Key): Option<int> {
    if es == [] then None
    else
      var before, e := es[..|es| - 1], es[|es| - 1];
      if Touches(RunAll(net, before), k, e) then Some(e.now) else LastTouch(net, before, k)
  }

  lemma {:induction false} TouchStep(net: Net24, r: Relay, k: Key, e: Event)
    requires Inv(r)
    ensures var t := Step(net, r, e);
            k in t.ports ==>
              && t.ports[k] in t.socks
              && (if Touches(r, k, e) then t.socks[t.ports[k]].last == e.now
                  else k in r.ports && r.ports[k] == t.ports[k] && r.ports[k] in r.socks
                       && t.socks[t.ports[k]].last == r.socks[r.ports[k]].last)
  {
    hide Sum, Forwarded, Mute, KeysIn, Only, Probe, Hash, Ask;
    StepKeepsInv(net, r, e);
    match e
    case Configure(host, base, span) =>
      KeysOfClosed(r.(host := host, base := base, span := span), r.socks.Keys);
    case AskPort(a, b, ipA, ipB, allowed, listens, now) =>
      if k == KeyOf(a, b) {
        AskTouches(r, a, b, ipA, ipB, allowed, listens, now);
      } else {
        AskLeavesOthersAlone(r, a, b, ipA, ipB, allowed, listens, now);
        AskAddsOwn(r, a, b, ipA, ipB, allowed, listens, now);
      }
    case Packet(port, now, src) =>
      if port in r.socks {
        ForwardKeepsIdentity(net, r.socks[port], now, src);
      }
    case Reap(now) =>
      KeysOfClosed(r, IdleSet(r, now));
  }

  lemma {:induction false} AskTouches(
    r: Relay, a: u64, b: u64, ipA: string, ipB: string, allowed: bool, listens: bool, now: int)
    requires Inv(r)
    ensures var (t, port) := Ask(r, a, b, ipA, ipB, allowed, listens, now);
            if port.None? then t == r
            else KeyOf(a, b) in t.ports && t.ports[KeyOf(a, b)] == port.value && port.value in t.socks
                 && t.socks[port.value].last == now
  {
    hide Probe, Hash;
  }

  lemma {:induction false} AskAddsOwn(
    r: Relay, a: u64, b: u64, ipA: string, ipB: string, allowed: bool, listens: bool, now: int)
    ensures var t := Ask(r, a, b, ipA, ipB, allowed, listens, now).0;
            forall k :: k in t.ports ==> k in r.ports || k == KeyOf(a, b)
  {
    hide Probe, Hash;
  }

  lemma {:induction false} LastIsTouch(net: Net24, es: seq<Event>, k: Key)
    requires k in RunAll(net, es).ports
    ensures var r := RunAll(net, es);
            r.ports[k] in r.socks && LastTouch(net, es, k) == Some(r.socks[r.ports[k]].last)
  {
    hide Step, Touches;
    var before, e := es[..|es| - 1], es[|es| - 1];
    TouchStep(net, RunAll(net, before), k, e);
    if !Touches(RunAll(net, before), k, e) {
      LastIsTouch(net, before, k);
    }
  }

  /** A pass of the reaper closes a pair's port exactly when for more than two minutes the pair has
      neither asked for it nor received a packet on it, whatever else happened. */
  lemma {:induction false} ReaperClosesIff(net: Net24, es: seq<Event>, k: Key, now: int)
    requires k in RunAll(net, es).ports
    ensures LastTouch(net, es, k).Some?
    ensures k !in RunAll(net, es + [Reap(now)]).ports <==> now - LastTouch(net, es, k).value > 120_000_000_000
  {
    hide Step, LastTouch;
    assert (es + [Reap(now)])[..|es + [Reap(now)]| - 1] == es;
    LastIsTouch(net, es, k);
    KeptByStepIff(net, RunAll(net, es), k, Reap(now));
  }

  lemma {:induction false} AnsweredIsHeld(net: Net24, es: seq<Event>, e: Event)
    requires e.AskPort? && Answer(net, es, e).Some?
    ensures Holds(RunAll(net, es + [e]), KeyOf(e.pidA, e.pidB), Answer(net, es, e).value)
  {
    hide Inv, Hash, Probe;
    assert (es + [e])[..|es + [e]| - 1] == es;
  }

  lemma {:induction false} AnsweredAgain(net: Net24, es: seq<Event>, e: Event)
    requires e.AskPort? && KeyOf(e.pidA, e.pidB) in RunAll(net, es).ports
    requires RunAll(net, es).On() && e.ipA != "" && e.ipB != "" && e.allowed
    ensures var p := RunAll(net, es).ports[KeyOf(e.pidA, e.pidB)];
            && Answer(net, es, e) == Some(p) && p in RunAll(net, es + [e]).socks
            && RunAll(net, es + [e]).socks[p].expected
               == if e.pidA <= e.pidB then [e.ipA, e.ipB] else [e.ipB, e.ipA]
  {
    hide Hash, Probe;
    assert (es + [e])[..|es + [e]| - 1] == es;
  }

  /** A request never touches another pair's socket or port. */
  lemma {:induction false} AskLeavesOthersAlone(
    r: Relay, a: u64, b: u64, ipA: string, ipB: string, allowed: bool, listens: bool, now: int)
    requires Inv(r)
    ensures var r1 := Ask(r, a, b, ipA, ipB, allowed, listens, now).0;
            && (forall p :: p in r.socks && KeyIn(r.socks[p]) != KeyOf(a, b) ==>
                  p in r1.socks && r1.socks[p] == r.socks[p])
            && (forall k :: k in r.ports && k != KeyOf(a, b) ==> k in r1.ports && r1.ports[k] == r.ports[k])
  {
    hide Hash;
  }

  /** When is a request left without a port? Exactly when one of the guards refuses it. */
  lemma {:induction false} RefusedIff(
    r: Relay, a: u64, b: u64, ipA: string, ipB: string, allowed: bool, listens: bool, now: int)
    requires Inv(r)
    ensures Ask(r, a, b, ipA, ipB, allowed, listens, now).1.None? <==> Refuses(r, a, b, ipA, ipB, allowed, listens)
  {
    hide Hash, Probe;
    if r.On() && KeyOf(a, b) !in r.ports {
      NoForeignSocket(r, KeyOf(a, b));
      ProbeFails(r, KeyOf(a, b), PortFor(r, a, b).value, 0);
      TriedAre(r, a, b);
    }
  }

  lemma {:induction false} TriedAre(r: Relay, a: u64, b: u64)
    requires r.On()
    ensures forall i: nat :: Candidate(r, PortFor(r, a, b).value, i) == Tried(r, a, b, i)
  {
    hide Hash;
  }

  /** A pair that has no port is given the first of the eight tried that no other pair holds. */
  lemma {:induction false} FirstFreeIsGiven(
    r: Relay, a: u64, b: u64, ipA: string, ipB: string, allowed: bool, listens: bool, now: int)
    requires Inv(r) && KeyOf(a, b) !in r.ports && !Refuses(r, a, b, ipA, ipB, allowed, listens)
    ensures exists i: nat :: i < 8 && Tried(r, a, b, i) !in r.socks
                             && (forall j: nat :: j < i ==> Tried(r, a, b, j) in r.socks)
                             && Ask(r, a, b, ipA, ipB, allowed, listens, now).1 == Some(Tried(r, a, b, i))
  {
    hide Hash, Probe, Tried;
    NoForeignSocket(r, KeyOf(a, b));
    TriedAre(r, a, b);
    ProbeFails(r, KeyOf(a, b), PortFor(r, a, b).value, 0);
    var i := ProbeFinds(r, KeyOf(a, b), PortFor(r, a, b).value, 0);
  }

  lemma {:induction false} ProbeFinds(r: Relay, key: Key, wished: nat, i: nat) returns (k: nat)
    requires r.span > 0 && r.base <= wished && Probe(r, key, wished, i).Some?
    requires forall p :: p in r.socks ==> KeyIn(r.socks[p]) != key
    ensures i <= k < PROBES && Probe(r, key, wished, i) == Some(Candidate(r, wished, k))
    ensures Candidate(r, wished, k) !in r.socks
    ensures forall j :: i <= j < k ==> Candidate(r, wished, j) in r.socks
    decreases PROBES - i
  {
    hide PortAfter;
    if Candidate(r, wished, i) !in r.socks {
      k := i;
    } else {
      k := ProbeFinds(r, key, wished, i + 1);
    }
  }

  lemma {:induction false} ProbeFails(r: Relay, key: Key, wished: nat, i: nat)
    requires r.span > 0 && r.base <= wished && i <= PROBES
    requires forall p :: p in r.socks ==> KeyIn(r.socks[p]) != key
    ensures Probe(r, key, wished, i).None? <==> forall j :: i <= j < PROBES ==> Candidate(r, wished, j) in r.socks
    decreases PROBES - i
  {
    if i < PROBES {
      ProbeFails(r, key, wished, i + 1);
    }
  }

  // ---- Closing one at a time --------------------------------------------------------------------

  lemma {:induction false} OnlyOneMore(m: map<nat, Sock>, S: set<nat>, p: nat)
    requires S <= m.Keys && p in m && p !in S
    ensures var gone := Only(m, S);
            var more := Only(m, S + {p});
            && Sum(more) == Plus(Tally(m[p]), Sum(gone))
            && |more| == |gone| + 1
            && |Mute(more)| == |Mute(gone)| + (if m[p].relayed == 0 then 1 else 0)
            && KeysIn(more) == KeysIn(gone) + {KeyIn(m[p])}
            && m - S - {p} == m - (S + {p})
  {
    hide Sum, Plus, Tally, Mute, KeysIn;
    var gone: map<nat, Sock>, more: map<nat, Sock> := Only(m, S), Only(m, S + {p});
    assert more == gone[p := m[p]] && p !in gone;
    assert more - {p} == gone;
    SumSplit(more, p);
    MuteUpdate(gone, p, m[p]);
    KeysInUpdate(gone, p, m[p]);
  }

  lemma {:induction false} MuteUpdate(m: map<nat, Sock>, p: nat, s: Sock)
    requires p !in m
    ensures |Mute(m[p := s])| == |Mute(m)| + (if s.relayed == 0 then 1 else 0)
  {
    assert Mute(m[p := s]) == Mute(m) + (if s.relayed == 0 then {p} else {});
  }

  lemma {:induction false} KeysInUpdate(m: map<nat, Sock>, p: nat, s: Sock)
    requires p !in m
    ensures KeysIn(m[p := s]) == KeysIn(m) + {KeyIn(s)}
  {
    var more := m[p := s];
    assert more[p] == s;
    forall k | k in KeysIn(m) ensures k in KeysIn(more) {
      var q :| q in m && KeyIn(m[q]) == k;
      assert q in more && KeyIn(more[q]) == k;
    }
  }

  lemma {:induction false} CloseOneMore(r: Relay, S: set<nat>, p: nat)
    requires S <= r.socks.Keys && p in r.socks && p !in S
    ensures var r1 := CloseSet(r, S);
            var s := r.socks[p];
            CloseSet(r, S + {p})
            == r1.(socks := r1.socks - {p}, ports := r1.ports - {KeyIn(s)},
                   total := Plus(r1.total, Tally(s)), mute := r1.mute + (if s.relayed == 0 then 1 else 0),
                   closed := r1.closed + 1)
  {
    hide Sum, Plus, Tally, Mute, KeysIn, Only;
    OnlyOneMore(r.socks, S, p);
    var gone := Only(r.socks, S);
    assert r.ports - KeysIn(gone) - {KeyIn(r.socks[p])} == r.ports - (KeysIn(gone) + {KeyIn(r.socks[p])});
    PlusShift(r.total, Sum(gone), Tally(r.socks[p]));
  }

  lemma {:induction false} PlusShift(a: Totals, b: Totals, t: Totals)
    ensures Plus(a, Plus(t, b)) == Plus(Plus(a, b), t)
  {
  }

  lemma {:induction false} CloseNone(r: Relay)
    ensures CloseSet(r, {}) == r
  {
    assert Only(r.socks, {}) == map[];
    SumOfNothing(r.total);
    assert Plus(r.total, NOTHING) == r.total;
    assert r.socks - {} == r.socks && KeysIn(map[]) == {} && r.ports - {} == r.ports && Mute(map[]) == {};
  }
}
