/** The relay's shared tables (relaypair.go), updated in place: sockets by port, ports by pair. */
module RelayTable {
  import opened Bytes
  import opened RelaySeats
  import opened PairRelays

  /** FNV-1a over the eight bytes of each PID, low byte first. */
  method HashPair(lo: u64, hi: u64) returns (h: u64)
    ensures h == Hash((lo, hi))
  {
    hide FnvByte;
    h := FNV_OFFSET;
    var i := 0;
    var v: nat := lo;
    while i < 8
      invariant 0 <= i <= 8 && FnvWord(FNV_OFFSET, lo, 8) == FnvWord(h, v, 8 - i)
    {
      h := FnvByte(h, v % 256);
      v := v / 256;
      i := i + 1;
    }
    ghost var mid := h;
    i, v := 0, hi;
    while i < 8
      invariant 0 <= i <= 8 && FnvWord(mid, hi, 8) == FnvWord(h, v, 8 - i)
    {
      h := FnvByte(h, v % 256);
      v := v / 256;
      i := i + 1;
    }
  }

  type Sockets = map<nat, PairSocket>

  ghost function Models(m: Sockets): map<nat, Sock>
    reads m.Values
  {
    map p | p in m :: m[p].Model()
  }

  /** Each port has a socket object of its own. */
  ghost predicate Separate(m: Sockets) {
    forall p, q :: p in m && q in m && m[p] == m[q] ==> p == q
  }

  lemma {:induction false} SeparateWithout(m: Sockets, S: set<nat>)
    requires Separate(m)
    ensures Separate(m - S)
  {
  }

  lemma {:induction false} ModelsPut(m: Sockets, p: nat)
    requires p in m
    ensures Models(m) == Models(m - {p})[p := m[p].Model()]
    ensures Models(m - {p}) == Models(m) - {p}
    ensures Models(m).Keys == m.Keys && Models(m)[p] == m[p].Model()
    ensures Separate(m) ==> m[p] !in (m - {p}).Values && Separate(m - {p})
  {
  }

  lemma {:induction false} SocketAt(m: Sockets, p: nat)
    ensures p in Models(m) <==> p in m
    ensures p in m ==> Models(m)[p].lo == m[p].pidLo && Models(m)[p].hi == m[p].pidHi
  {
  }

  lemma {:induction false} ModelsAdd(m: Sockets, p: nat, ps: PairSocket)
    requires p !in m && ps !in m.Values && Separate(m)
    ensures Models(m[p := ps]) == Models(m)[p := ps.Model()] && Separate(m[p := ps])
  {
  }

  lemma {:induction false} SilentOnes(r: Relay, now: int)
    ensures IdleSet(r, now) <= r.socks.Keys
    ensures forall p: nat :: p in r.socks ==> (p in IdleSet(r, now) <==> r.socks[p].last < now - PAIR_RELAY_TTL)
  {
  }

  class PairRelayTable {
    var host: string
    var portBase: nat
    var portSpan: int
    var pairSocks: Sockets
    var pairPorts: map<Key, nat>
    var total: Totals
    var pairesOuvertes: nat
    var pairesMuettes: nat
    var fermetures: nat
    var reaping: bool

    ghost function Model(): Relay
      reads this, pairSocks.Values
    {
      Relay(host, portBase, portSpan, Models(pairSocks), pairPorts,
            total, pairesOuvertes, pairesMuettes, fermetures, reaping)
    }

    ghost predicate Valid()
      reads this, pairSocks.Values
    {
      Separate(pairSocks) && Inv(Model())
    }

    constructor ()
      ensures Valid() && Model() == Start()
    {
      host, portBase, portSpan := "", 0, 0;
      pairSocks, pairPorts := map[], map[];
      total, pairesOuvertes, pairesMuettes, fermetures, reaping := NOTHING, 0, 0, 0, false;
    }

    method PairPortFor(a: u64, b: u64) returns (port: Option<nat>)
      ensures port == PortFor(Model(), a, b)
    {
      hide Hash;
      if host == "" || portSpan <= 0 {
        return None;
      }
      var lo, hi := a, b;
      if lo > hi {
        lo, hi := hi, lo;
      }
      var h := HashPair(lo, hi);
      return Some(portBase + h % portSpan);
    }

    /** The pair's own port, or the first probed one that no other pair holds. */
    method ChoosePort(key: Key, wished: nat) returns (found: Option<nat>)
      requires Valid() && portSpan > 0 && portBase <= wished
      ensures found == if key in pairPorts then Some(pairPorts[key]) else Probe(Model(), key, wished, 0)
    {
      hide Inv, Models, Separate, PortAfter;
      if key in pairPorts {
        return Some(pairPorts[key]);
      }
      var i := 0;
      while i < PROBES
        invariant 0 <= i <= PROBES
        invariant Probe(Model(), key, wished, 0) == Probe(Model(), key, wished, i)
      {
        var cand := PortAfter(portBase, portSpan, wished, i);
        SocketAt(pairSocks, cand);
        if cand !in pairSocks || (pairSocks[cand].pidLo == key.0 && pairSocks[cand].pidHi == key.1) {
          return Some(cand);
        }
        i := i + 1;
      }
      return None;
    }

    method OpenSocket(p: nat, key: Key)
      requires Valid() && p !in pairSocks && key !in pairPorts && key.0 <= key.1
      modifies this
      ensures Valid() && fresh(pairSocks.Values - old(pairSocks.Values))
      ensures Model() == Opening(old(Model()), key, p)
    {
      hide Inv, Models, Separate;
      ModelsKeys(pairSocks);
      OpeningKeepsInv(Model(), key, p);
      var ps := new PairSocket(p, key.0, key.1);
      ModelsAdd(pairSocks, p, ps);
      pairSocks := pairSocks[p := ps];
      pairPorts := pairPorts[key := p];
      pairesOuvertes := pairesOuvertes + 1;
      reaping := true;
    }

    method ArmSocket(p: nat, expected: seq<string>, now: int)
      requires Valid() && p in pairSocks && |expected| == 2
      modifies pairSocks[p]
      ensures Valid() && Model() == Arming(old(Model()), p, expected, now)
    {
      hide Inv, Models, Separate, Armed;
      ModelsPut(pairSocks, p);
      ghost var r := Model();
      ghost var others: Sockets := pairSocks - {p};
      ghost var kept := Models(others);
      ArmingKeepsInv(r, p, expected, now);
      pairSocks[p].Arm(expected, now);
      assert Models(others) == kept;
      ModelsPut(pairSocks, p);
      assert pairSocks[p].Model() == Armed(r.socks[p], expected, now) by { ArmedIs(r.socks[p], expected, now); }
      assert Models(pairSocks) == r.socks[p := Armed(r.socks[p], expected, now)];
    }

    /** Gives the pair its port, opening it if needed. Whatever happens, no other pair's socket
        changes, and the tables stay inverse. */
    method PairRelayFor(pidA: u64, pidB: u64, ipA: string, ipB: string, allowed: bool, listens: bool, now: int)
      returns (port: Option<nat>)
      requires Valid()
      modifies this, pairSocks.Values
      ensures Valid() && fresh(pairSocks.Values - old(pairSocks.Values))
      ensures (Model(), port) == Ask(old(Model()), pidA, pidB, ipA, ipB, allowed, listens, now)
    {
      hide Hash, Inv, Probe, Ask, Opening, Arming, Models, Separate;
      RefusedUnchanged(Model(), pidA, pidB, ipA, ipB, listens, now);
      if host == "" || portSpan <= 0 || ipA == "" || ipB == "" {
        return None;
      }
      if !allowed {
        return None;
      }
      AskInSteps(Model(), pidA, pidB, ipA, ipB, listens, now);
      var wished := PairPortFor(pidA, pidB);
      var lo, hi := pidA, pidB;
      if lo > hi {
        lo, hi := hi, lo;
      }
      var key := (lo, hi);
      port := ChoosePort(key, wished.value);
      if port.None? {
        return None;
      }
      var p := port.value;
      SocketAt(pairSocks, p);
      if p !in pairSocks {
        if !listens {
          return None;
        }
        OpenSocket(p, key);
        OpeningHolds(old(Model()), key, p);
        ModelsKeys(pairSocks);
      } else if pairSocks[p].pidLo != lo || pairSocks[p].pidHi != hi {
        return None;
      }
      ArmSocket(p, if pidA > pidB then [ipB, ipA] else [ipA, ipB], now);
    }

    /** One turn of one socket's receive loop; the others stay as they are. */
    method ForwardOn(net: Net24, port: nat, now: int, src: Addr) returns (dst: Option<Addr>)
      requires Separate(pairSocks) && port in pairSocks && pairSocks[port].Model().Valid()
      modifies pairSocks[port]
      ensures Models(pairSocks)
           == old(Models(pairSocks))[port := Forwarded(net, old(pairSocks[port].Model()), now, src).0]
      ensures dst == Forwarded(net, old(pairSocks[port].Model()), now, src).1
    {
      hide Models, Separate, Forwarded;
      ModelsPut(pairSocks, port);
      ghost var others: Sockets := pairSocks - {port};
      ghost var kept := Models(others);
      dst := pairSocks[port].Boucle(net, now, src);
      assert Models(others) == kept;
      ModelsPut(pairSocks, port);
    }

    /** A datagram on an open port. */
    method Receive(net: Net24, port: nat, now: int, src: Addr) returns (dst: Option<Addr>)
      requires Valid()
      modifies pairSocks.Values
      ensures Valid() && Model() == Received(net, old(Model()), port, now, src)
      ensures dst == if port in old(Model()).socks then Forwarded(net, old(Model()).socks[port], now, src).1 else None
    {
      hide Forwarded, Inv;
      ghost var r := Model();
      if port !in pairSocks {
        return None;
      }
      SocketsAreValid(r);
      ReceivedKeepsInv(net, r, port, now, src);
      ModelsPut(pairSocks, port);
      hide Models, Separate;
      dst := ForwardOn(net, port, now, src);
    }

    /** Takes a socket and its pair out of the tables. */
    method RemoveSocket(p: nat)
      requires p in pairSocks
      modifies this`pairSocks, this`pairPorts
      ensures pairSocks == old(pairSocks) - {p}
      ensures Models(pairSocks) == old(Models(pairSocks)) - {p}
      ensures pairPorts == old(pairPorts) - {(old(pairSocks)[p].pidLo, old(pairSocks)[p].pidHi)}
    {
      hide Models;
      var ps := pairSocks[p];
      ModelsPut(pairSocks, p);
      pairSocks := pairSocks - {p};
      pairPorts := pairPorts - {(ps.pidLo, ps.pidHi)};
    }

    /** Close one socket: its counts join the totals, its port and its pair are released. `done`
        is what was closed since the state `start`. */
    method CloseSocket(p: nat, ghost start: Relay, ghost done: set<nat>)
      requires p in pairSocks && done <= start.socks.Keys && p !in done
      requires p in start.socks && start.socks[p] == pairSocks[p].Model()
      requires Model() == CloseSet(start, done)
      modifies this
      ensures Model() == CloseSet(start, done + {p}) && pairSocks == old(pairSocks) - {p}
    {
      hide CloseSet, Models, Inv, Separate;
      var ps := pairSocks[p];
      CloseOneMore(start, done, p);
      RemoveSocket(p);
      total := Totals(total.received + ps.recus, total.relayed + ps.relayes,
                      total.rejected + ps.rejets, total.remaps + ps.remaps);
      if ps.relayes == 0 {
        pairesMuettes := pairesMuettes + 1;
      }
      fermetures := fermetures + 1;
    }

    /** Close every socket for which `all` is set or that has been silent too long. */
    method CloseWhere(all: bool, now: int)
      requires Valid()
      modifies this
      ensures Separate(pairSocks)
      ensures Model() == CloseSet(old(Model()), if all then old(Model()).socks.Keys else IdleSet(old(Model()), now))
    {
      hide CloseSet, Models, Inv, IdleSet, Separate;
      ghost var start := Model();
      ghost var target := if all then start.socks.Keys else IdleSet(start, now);
      SilentOnes(start, now);
      ModelsKeys(pairSocks);
      CloseNone(start);
      var todo := pairSocks.Keys;
      ghost var done: set<nat> := {};
      while todo != {}
        invariant todo <= start.socks.Keys && done == target - todo
        invariant Model() == CloseSet(start, done)
        invariant pairSocks == old(pairSocks) - done
        decreases todo
      {
        var p :| p in todo;
        assert pairSocks[p].Model() == start.socks[p] by { ModelsPut(old(pairSocks), p); }
        if all || pairSocks[p].dernier < now - PAIR_RELAY_TTL {
          CloseSocket(p, start, done);
          done := done + {p};
        }
        todo := todo - {p};
      }
      assert done == target;
      SeparateWithout(old(pairSocks), done);
    }

    /** One pass of the reaper. */
    method ReapPairSockets(now: int)
      requires Valid()
      modifies this
      ensures Valid() && Model() == Reaped(old(Model()), now)
    {
      hide CloseSet, Models, Inv;
      CloseKeepsInv(Model(), IdleSet(Model(), now));
      CloseWhere(false, now);
      ModelsKeys(pairSocks);
      if pairSocks.Keys == {} {
        reaping := false;
      }
    }

    method SetPairRelay(newHost: string, base: nat, span: int)
      requires Valid()
      modifies this
      ensures Valid() && Model() == Configured(old(Model()), newHost, base, span)
    {
      hide CloseSet, Models, Inv;
      ghost var r := Model();
      ghost var r1 := r.(host := newHost, base := base, span := span);
      assert Inv(r1) by { InvIgnoresConfiguration(r, newHost, base, span); }
      host, portBase, portSpan := newHost, base, span;
      if newHost == "" {
        CloseKeepsInv(r1, r1.socks.Keys);
        CloseWhere(true, 0);
        pairPorts := map[];
      }
    }
  }

  lemma {:induction false} InvIgnoresConfiguration(r: Relay, host: string, base: nat, span: int)
    requires Inv(r)
    ensures Inv(r.(host := host, base := base, span := span))
  {
  }

  lemma {:induction false} ReceivedKeepsInv(net: Net24, r: Relay, port: nat, now: int, src: Addr)
    requires Inv(r)
    ensures Inv(Received(net, r, port, now, src))
  {
    hide Inv, Received;
    StepKeepsInv(net, r, Packet(port, now, src));
  }

  lemma {:induction false} ArmedIs(s: Sock, expected: seq<string>, now: int)
    ensures Armed(s, expected, now) == s.(expected := expected, last := now)
  {
  }

  lemma {:induction false} ModelsKeys(m: Sockets)
    ensures Models(m).Keys == m.Keys
  {
  }

  lemma {:induction false} SocketsAreValid(r: Relay)
    requires Inv(r)
    ensures forall p :: p in r.socks ==> r.socks[p].Valid()
  {
  }
}
