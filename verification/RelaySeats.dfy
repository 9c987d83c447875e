/** The two seats of a pair relay (relaypair.go): which endpoint holds each side, where each
    packet goes, and what the counters count. */
module RelaySeats {
  import opened Bytes
  import opened Lists

  datatype Addr = Addr(ip: string, port: u16)

  /** The /24 of an address text, or None when it is not IPv4. Any parser will do. */
  type Net24 = string -> Option<nat>

  datatype Sock = Sock(
    lo: u64, hi: u64,
    expected: seq<string>,
    seats: seq<Option<Addr>>,
    last: int,
    received: nat, relayed: nat, relayedTo: seq<nat>, rejected: nat, remaps: nat,
    rejectedBy: map<Addr, nat>)
  {
    predicate Valid() {
      |expected| == 2 && |seats| == 2 && |relayedTo| == 2
    }
  }

  predicate SameNetwork(net: Net24, a: string, b: string) {
    net(a).Some? && net(a) == net(b)
  }

  /** Exact address, or the same /24. */
  predicate Admits(net: Net24, expected: string, src: string) {
    expected == src || SameNetwork(net, expected, src)
  }

  /** The two sides can be told apart by network, so a seat may follow a moved port. */
  predicate Apart(net: Net24, expected: seq<string>)
    requires |expected| == 2
  {
    !SameNetwork(net, expected[0], expected[1]) && expected[0] != expected[1]
  }

  function Sit(s: Sock, i: nat, src: Addr): Sock
    requires s.Valid() && i < 2
  {
    s.(seats := s.seats[i := Some(src)])
  }

  function Reject(s: Sock, src: Addr): Sock {
    s.(rejected := s.rejected + 1,
       rejectedBy := s.rejectedBy[src := (if src in s.rejectedBy then s.rejectedBy[src] else 0) + 1])
  }

  /** Where a packet from src goes, and what is learned from it. */
  function Paired(net: Net24, s0: Sock, now: int, src: Addr): (r: (Sock, Option<Addr>))
    requires s0.Valid()
    ensures r.0.Valid()
  {
    var s := s0.(last := now);
    if s.seats[0] == Some(src) then (s, s.seats[1])
    else if s.seats[1] == Some(src) then (s, s.seats[0])
    else if Admits(net, s.expected[0], src.ip) && s.seats[0].None? then (Sit(s, 0, src), s.seats[1])
    else if Admits(net, s.expected[1], src.ip) && s.seats[1].None? then (Sit(s, 1, src), s.seats[0])
    else if Apart(net, s.expected) && Admits(net, s.expected[0], src.ip) then
      (Sit(s, 0, src).(remaps := s.remaps + 1), s.seats[1])
    else if Apart(net, s.expected) && Admits(net, s.expected[1], src.ip) then
      (Sit(s, 1, src).(remaps := s.remaps + 1), s.seats[0])
    else (Reject(s, src), None)
  }

  /** One datagram: counted as received, and as relayed to the first seat its target holds. */
  function Forwarded(net: Net24, s: Sock, now: int, src: Addr): (r: (Sock, Option<Addr>))
    requires s.Valid()
    ensures r.0.Valid()
  {
    var (s1, dst) := Paired(net, s.(received := s.received + 1), now, src);
    if dst.None? then (s1, None)
    else
      var s2 := s1.(relayed := s1.relayed + 1);
      (if s2.seats[0] == dst then s2.(relayedTo := s2.relayedTo[0 := s2.relayedTo[0] + 1])
       else if s2.seats[1] == dst then s2.(relayedTo := s2.relayedTo[1 := s2.relayedTo[1] + 1])
       else s2, dst)
  }

  // ---- One socket, in place ---------------------------------------------------------------

  class PairSocket {
    const port: nat
    const pidLo: u64
    const pidHi: u64
    var attendus: seq<string>
    var vus: seq<Option<Addr>>
    var dernier: int
    var recus: nat
    var relayes: nat
    var relayesVers: seq<nat>
    var rejets: nat
    var remaps: nat
    var rejetVu: map<Addr, nat>

    function Model(): Sock
      reads this
    {
      Sock(pidLo, pidHi, attendus, vus, dernier, recus, relayes, relayesVers, rejets, remaps, rejetVu)
    }

    constructor (port: nat, lo: u64, hi: u64)
      ensures this.port == port && pidLo == lo && pidHi == hi
      ensures Model() == Fresh(lo, hi)
    {
      this.port, pidLo, pidHi := port, lo, hi;
      attendus, vus, dernier := ["", ""], [None, None], 0;
      recus, relayes, relayesVers, rejets, remaps, rejetVu := 0, 0, [0, 0], 0, 0, map[];
    }

    method Arm(expected: seq<string>, now: int)
      modifies this
      ensures Model() == old(Model()).(expected := expected, last := now)
    {
      attendus := expected;
      dernier := now;
    }

    method Apparier(net: Net24, now: int, src: Addr) returns (dst: Option<Addr>)
      requires Model().Valid()
      modifies this
      ensures (Model(), dst) == Paired(net, old(Model()), now, src)
    {
      hide Admits, SameNetwork;
      dernier := now;
      var i := 0;
      while i < 2
        invariant 0 <= i <= 2 && Model() == old(Model()).(last := now)
        invariant forall j :: 0 <= j < i ==> vus[j] != Some(src)
      {
        if vus[i] == Some(src) {
          return vus[1 - i];
        }
        i := i + 1;
      }
      i := 0;
      while i < 2
        invariant 0 <= i <= 2 && Model() == old(Model()).(last := now)
        invariant forall j :: 0 <= j < i ==> !(Admits(net, attendus[j], src.ip) && vus[j].None?)
      {
        if Admits(net, attendus[i], src.ip) && vus[i].None? {
          vus := vus[i := Some(src)];
          return vus[1 - i];
        }
        i := i + 1;
      }
      if !SameNetwork(net, attendus[0], attendus[1]) && attendus[0] != attendus[1] {
        i := 0;
        while i < 2
          invariant 0 <= i <= 2 && Model() == old(Model()).(last := now)
          invariant forall j :: 0 <= j < i ==> !(Admits(net, attendus[j], src.ip) && vus[j].Some?)
        {
          if Admits(net, attendus[i], src.ip) && vus[i].Some? {
            vus := vus[i := Some(src)];
            remaps := remaps + 1;
            return vus[1 - i];
          }
          i := i + 1;
        }
      }
      rejets := rejets + 1;
      rejetVu := rejetVu[src := (if src in rejetVu then rejetVu[src] else 0) + 1];
      return None;
    }

    /** One turn of the receive loop. */
    method Boucle(net: Net24, now: int, src: Addr) returns (dst: Option<Addr>)
      requires Model().Valid()
      modifies this
      ensures (Model(), dst) == Forwarded(net, old(Model()), now, src)
    {
      hide Paired;
      recus := recus + 1;
      dst := Apparier(net, now, src);
      if dst.None? {
        return;
      }
      relayes := relayes + 1;
      var i := 0;
      while i < 2
        invariant 0 <= i <= 2
        invariant var s := Paired(net, old(Model()).(received := old(recus) + 1), now, src).0;
                  Model() == s.(relayed := s.relayed + 1)
        invariant forall j :: 0 <= j < i ==> vus[j] != dst
      {
        if vus[i] == dst {
          relayesVers := relayesVers[i := relayesVers[i] + 1];
          break;
        }
        i := i + 1;
      }
    }
  }

  function Fresh(lo: u64, hi: u64): Sock {
    Sock(lo, hi, ["", ""], [None, None], 0, 0, 0, [0, 0], 0, 0, map[])
  }

  // ---- Runs -------------------------------------------------------------------------------

  datatype Arrival = Arrival(now: int, src: Addr)

  function Run(net: Net24, s: Sock, log: seq<Arrival>): (r: Sock)
    requires s.Valid()
    ensures r.Valid()
  {
    if log == [] then s
    else
      var a := log[|log| - 1];
      Forwarded(net, Run(net, s, log[..|log| - 1]), a.now, a.src).0
  }

  predicate SeatsDiffer(s: Sock)
    requires s.Valid()
  {
    s.seats[0].Some? ==> s.seats[0] != s.seats[1]
  }

  /** Nobody ever holds both seats, whatever the expected addresses are or become. */
  lemma {:induction false} SeatsStayDifferent(net: Net24, s: Sock, now: int, src: Addr)
    requires s.Valid() && SeatsDiffer(s)
    ensures SeatsDiffer(Forwarded(net, s, now, src).0)
    ensures Forwarded(net, s, now, src).1 != Some(src)
  {
    hide Admits, SameNetwork;
  }

  /** The same address, or IPv4 addresses with the same first three numbers. */
  predicate Near(net: Net24, a: string, b: string) {
    a == b || (net(a).Some? && net(b).Some? && net(a).value == net(b).value)
  }

  lemma {:induction false} NearIs(net: Net24, expected: seq<string>, src: string)
    requires |expected| == 2
    ensures Admits(net, expected[0], src) <==> Near(net, expected[0], src)
    ensures Admits(net, expected[1], src) <==> Near(net, expected[1], src)
    ensures Apart(net, expected) <==> !Near(net, expected[0], expected[1])
  {
  }

  // -- two different networks --

  lemma {:induction false} SidesAreDisjoint(net: Net24, expected: seq<string>, src: string)
    requires |expected| == 2 && !Near(net, expected[0], expected[1])
    ensures !(Near(net, expected[0], src) && Near(net, expected[1], src))
  {
  }

  /** The source of the latest packet admitted on side i. */
  function Latest(net: Net24, expected: seq<string>, log: seq<Arrival>, i: nat): Option<Addr>
    requires |expected| == 2 && i < 2
  {
    if log == [] then None
    else if Near(net, expected[i], log[|log| - 1].src.ip) then Some(log[|log| - 1].src)
    else Latest(net, expected, log[..|log| - 1], i)
  }

  /** A fresh socket with its two expected addresses. */
  predicate Opened(s: Sock, expected: seq<string>) {
    s.Valid() && s.expected == expected && s.seats == [None, None]
  }

  lemma {:induction false} LatestIsAdmitted(net: Net24, expected: seq<string>, log: seq<Arrival>, i: nat)
    requires |expected| == 2 && i < 2
    ensures var l := Latest(net, expected, log, i); l.Some? ==> Near(net, expected[i], l.value.ip)
  {
    if log != [] {
      LatestIsAdmitted(net, expected, log[..|log| - 1], i);
    }
  }

  /** A seated source is one its side admits: then a packet admitted on a side takes that seat, and
      any other changes neither. */
  lemma {:induction false} SeatsAfterOne(net: Net24, s: Sock, a: Arrival)
    requires s.Valid() && !Near(net, s.expected[0], s.expected[1])
    requires forall i :: 0 <= i < 2 && s.seats[i].Some? ==> Near(net, s.expected[i], s.seats[i].value.ip)
    ensures var r := Forwarded(net, s, a.now, a.src).0;
            r.expected == s.expected
            && r.seats == [if Near(net, s.expected[0], a.src.ip) then Some(a.src) else s.seats[0],
                           if Near(net, s.expected[1], a.src.ip) then Some(a.src) else s.seats[1]]
  {
    hide Near, Admits, SameNetwork, Apart;
    NearIs(net, s.expected, a.src.ip);
    SidesAreDisjoint(net, s.expected, a.src.ip);
  }

  lemma {:induction false} SeatsFollowLatest(net: Net24, s: Sock, expected: seq<string>, log: seq<Arrival>)
    requires |expected| == 2 && Opened(s, expected) && !Near(net, expected[0], expected[1])
    ensures var r := Run(net, s, log);
            r.expected == expected
            && r.seats == [Latest(net, expected, log, 0), Latest(net, expected, log, 1)]
  {
    hide Near, Forwarded;
    if log != [] {
      var before := log[..|log| - 1];
      SeatsFollowLatest(net, s, expected, before);
      LatestIsAdmitted(net, expected, before, 0);
      LatestIsAdmitted(net, expected, before, 1);
      SeatsAfterOne(net, Run(net, s, before), log[|log| - 1]);
    }
  }

  /** Two expected addresses in different networks: after any packets, seat i holds the source of
      the latest packet admitted on side i; the next packet, if admitted on a side, goes to the
      latest source of the other side or nowhere, and is otherwise rejected. */
  lemma {:induction false} PairingIsALog(net: Net24, s: Sock, expected: seq<string>, log: seq<Arrival>, next: Arrival)
    requires |expected| == 2 && Opened(s, expected) && !Near(net, expected[0], expected[1])
    ensures var r := Run(net, s, log);
            var (after, dst) := Forwarded(net, r, next.now, next.src);
            && (after.rejected == r.rejected + 1
                <==> !Near(net, expected[0], next.src.ip) && !Near(net, expected[1], next.src.ip))
            && r.seats[0] == Latest(net, expected, log, 0) && r.seats[1] == Latest(net, expected, log, 1)
            && dst == (if Near(net, expected[0], next.src.ip) then Latest(net, expected, log, 1)
                       else if Near(net, expected[1], next.src.ip) then Latest(net, expected, log, 0)
                       else None)
  {
    hide Near, Admits, SameNetwork, Apart, Run, Latest;
    NearIs(net, expected, next.src.ip);
    SeatsFollowLatest(net, s, expected, log);
    LatestIsAdmitted(net, expected, log, 0);
    LatestIsAdmitted(net, expected, log, 1);
    SidesAreDisjoint(net, expected, next.src.ip);
  }

  // -- one shared network --

  lemma {:induction false} SidesAreTheSame(net: Net24, expected: seq<string>, src: string)
    requires |expected| == 2 && Near(net, expected[0], expected[1])
    ensures Near(net, expected[0], src) <==> Near(net, expected[1], src)
  {
  }

  /** The admitted endpoints in order of first appearance. */
  function Newcomers(net: Net24, expected: seq<string>, log: seq<Arrival>): seq<Addr>
    requires |expected| == 2
  {
    if log == [] then []
    else
      var seen := Newcomers(net, expected, log[..|log| - 1]);
      var src := log[|log| - 1].src;
      if Near(net, expected[0], src.ip) && src !in seen then seen + [src] else seen
  }

  function Nth(seen: seq<Addr>, i: nat): Option<Addr> {
    if i < |seen| then Some(seen[i]) else None
  }

  lemma {:induction false} NoDupSnoc(seen: seq<Addr>, a: Addr)
    requires NoDup(seen) && a !in seen
    ensures NoDup(seen + [a])
  {
    assert forall i :: 0 <= i < |seen| ==> seen[i] in seen;
  }

  lemma {:induction false} NewcomersAreNew(net: Net24, expected: seq<string>, log: seq<Arrival>)
    requires |expected| == 2
    ensures var seen := Newcomers(net, expected, log);
            NoDup(seen) && forall a :: a in seen ==> Near(net, expected[0], a.ip)
  {
    hide Near, NoDup;
    if log == [] {
      assert NoDup<Addr>([]) by { EmptyIsNoDup(); }
    } else {
      NewcomersAreNew(net, expected, log[..|log| - 1]);
      var seen := Newcomers(net, expected, log[..|log| - 1]);
      if log[|log| - 1].src !in seen {
        NoDupSnoc(seen, log[|log| - 1].src);
      }
    }
  }

  lemma {:induction false} EmptyIsNoDup()
    ensures NoDup<Addr>([])
  {
  }

  /** One more arrival, when the seats hold the first two newcomers. */
  lemma {:induction false} SeatsKeepNext(net: Net24, r: Sock, expected: seq<string>, seen: seq<Addr>, a: Arrival)
    requires |expected| == 2 && r.Valid() && r.expected == expected && Near(net, expected[0], expected[1])
    requires r.seats == [Nth(seen, 0), Nth(seen, 1)]
    requires forall x :: x in seen ==> Near(net, expected[0], x.ip)
    ensures var after := Forwarded(net, r, a.now, a.src).0;
            var more := if Near(net, expected[0], a.src.ip) && a.src !in seen then seen + [a.src] else seen;
            after.expected == expected && after.seats == [Nth(more, 0), Nth(more, 1)]
  {
    hide Near, Admits, SameNetwork, Apart;
    NearIs(net, expected, a.src.ip);
    SidesAreTheSame(net, expected, a.src.ip);
  }

  /** Two expected addresses in one network: the first two distinct admitted endpoints take the
      seats and keep them. */
  lemma {:induction false} SeatsKeepFirstTwo(net: Net24, s: Sock, expected: seq<string>, log: seq<Arrival>)
    requires |expected| == 2 && Opened(s, expected) && Near(net, expected[0], expected[1])
    ensures var r := Run(net, s, log);
            var seen := Newcomers(net, expected, log);
            r.expected == expected && r.seats == [Nth(seen, 0), Nth(seen, 1)]
  {
    hide Near, Forwarded;
    if log != [] {
      var before := log[..|log| - 1];
      SeatsKeepFirstTwo(net, s, expected, before);
      NewcomersAreNew(net, expected, before);
      SeatsKeepNext(net, Run(net, s, before), expected, Newcomers(net, expected, before), log[|log| - 1]);
    }
  }

  /** ... and everybody else is rejected. */
  lemma {:induction false} SharedNetworkPairing(
    net: Net24, s: Sock, expected: seq<string>, log: seq<Arrival>, next: Arrival)
    requires |expected| == 2 && Opened(s, expected) && Near(net, expected[0], expected[1])
    ensures var r := Run(net, s, log);
            var seen := Newcomers(net, expected, log + [next]);
            var (after, dst) := Forwarded(net, r, next.now, next.src);
            && dst == (if Nth(seen, 0) == Some(next.src) then Nth(seen, 1)
                       else if Nth(seen, 1) == Some(next.src) then Nth(seen, 0)
                       else None)
            && (after.rejected == r.rejected + 1 <==>
                  Nth(seen, 0) != Some(next.src) && Nth(seen, 1) != Some(next.src))
  {
    hide Near, Admits, SameNetwork, Apart, Run;
    NearIs(net, expected, next.src.ip);
    assert (log + [next])[..|log|] == log;
    SeatsKeepFirstTwo(net, s, expected, log);
    NewcomersAreNew(net, expected, log);
    SidesAreTheSame(net, expected, next.src.ip);
  }

  // ---- Accounting ---------------------------------------------------------------------------

  /** What became of one packet: sent to the seat opposite its own, seated alone, or refused. */
  datatype Outcome = Relayed(to: nat) | Alone | Refused

  function OutcomeOf(net: Net24, s: Sock, a: Arrival): Outcome
    requires s.Valid()
  {
    var after := Paired(net, s, a.now, a.src).0;
    if after.seats[0] == Some(a.src) then (if after.seats[1].Some? then Relayed(1) else Alone)
    else if after.seats[1] == Some(a.src) then (if after.seats[0].Some? then Relayed(0) else Alone)
    else Refused
  }

  function Outcomes(net: Net24, s: Sock, log: seq<Arrival>): (r: seq<Outcome>)
    requires s.Valid()
    ensures |r| == |log|
  {
    if log == [] then []
    else Outcomes(net, s, log[..|log| - 1]) + [OutcomeOf(net, Run(net, s, log[..|log| - 1]), log[|log| - 1])]
  }

  function Count(os: seq<Outcome>, o: Outcome): nat {
    if os == [] then 0 else Count(os[..|os| - 1], o) + if os[|os| - 1] == o then 1 else 0
  }

  lemma {:induction false} OneOutcome(net: Net24, s: Sock, a: Arrival)
    requires s.Valid() && SeatsDiffer(s)
    ensures var r := Forwarded(net, s, a.now, a.src).0;
            var o := OutcomeOf(net, s, a);
            && (o.Relayed? ==> o.to < 2)
            && r.received == s.received + 1
            && r.relayed == s.relayed + (if o.Relayed? then 1 else 0)
            && r.relayedTo[0] == s.relayedTo[0] + (if o == Relayed(0) then 1 else 0)
            && r.relayedTo[1] == s.relayedTo[1] + (if o == Relayed(1) then 1 else 0)
            && r.rejected == s.rejected + (if o == Refused then 1 else 0)
  {
    hide Paired;
    PairedShape(net, s, a);
  }

  /** Pairing seats the source and aims at the other seat, or refuses; counting the packet first
      makes no difference to that. */
  lemma {:induction false} PairedShape(net: Net24, s: Sock, a: Arrival)
    requires s.Valid() && SeatsDiffer(s)
    ensures var (r, dst) := Paired(net, s.(received := s.received + 1), a.now, a.src);
            var seated := r.seats[0] == Some(a.src) || r.seats[1] == Some(a.src);
            && r.seats == Paired(net, s, a.now, a.src).0.seats && SeatsDiffer(r)
            && r.received == s.received + 1 && r.relayed == s.relayed && r.relayedTo == s.relayedTo
            && r.rejected == s.rejected + (if seated then 0 else 1)
            && dst == (if r.seats[0] == Some(a.src) then r.seats[1] else if seated then r.seats[0] else None)
  {
    hide Paired;
    PairedIgnoresCount(net, s, a, s.received + 1);
    PairedSeats(net, s, a);
    PairedCounts(net, s, a);
  }

  lemma {:induction false} PairedIgnoresCount(net: Net24, s: Sock, a: Arrival, n: nat)
    requires s.Valid()
    ensures var (r, dst) := Paired(net, s, a.now, a.src);
            Paired(net, s.(received := n), a.now, a.src) == (r.(received := n), dst)
  {
    hide Admits, SameNetwork, Apart;
  }

  lemma {:induction false} PairedSeats(net: Net24, s: Sock, a: Arrival)
    requires s.Valid() && SeatsDiffer(s)
    ensures var (r, dst) := Paired(net, s, a.now, a.src);
            var seated := r.seats[0] == Some(a.src) || r.seats[1] == Some(a.src);
            && SeatsDiffer(r)
            && dst == (if r.seats[0] == Some(a.src) then r.seats[1] else if seated then r.seats[0] else None)
  {
    hide Admits, SameNetwork, Apart;
  }

  lemma {:induction false} PairedCounts(net: Net24, s: Sock, a: Arrival)
    requires s.Valid()
    ensures var r := Paired(net, s, a.now, a.src).0;
            var seated := r.seats[0] == Some(a.src) || r.seats[1] == Some(a.src);
            r.received == s.received && r.relayed == s.relayed && r.relayedTo == s.relayedTo
            && r.rejected == s.rejected + (if seated then 0 else 1)
  {
    hide Admits, SameNetwork, Apart;
  }

  lemma {:induction false} CountsAddUp(os: seq<Outcome>)
    requires forall o :: o in os && o.Relayed? ==> o.to < 2
    ensures Count(os, Relayed(0)) + Count(os, Relayed(1)) + Count(os, Alone) + Count(os, Refused) == |os|
  {
    if os != [] {
      CountsAddUp(os[..|os| - 1]);
      assert os[|os| - 1] in os;
    }
  }

  /** Every received packet was relayed, refused, or came from a seated player still alone; the
      counters say how many of each, and each side's count is exact because the seats differ. */
  lemma {:induction false} Accounting(net: Net24, s: Sock, log: seq<Arrival>)
    requires s.Valid() && SeatsDiffer(s)
    ensures var r := Run(net, s, log);
            var os := Outcomes(net, s, log);
            && SeatsDiffer(r)
            && r.received == s.received + |log|
            && r.relayed == s.relayed + Count(os, Relayed(0)) + Count(os, Relayed(1))
            && r.relayedTo[0] == s.relayedTo[0] + Count(os, Relayed(0))
            && r.relayedTo[1] == s.relayedTo[1] + Count(os, Relayed(1))
            && r.rejected == s.rejected + Count(os, Refused)
            && r.received - s.received
               == (r.relayed - s.relayed) + (r.rejected - s.rejected) + Count(os, Alone)
            && forall o :: o in os && o.Relayed? ==> o.to < 2
  {
    hide Forwarded, Paired, OutcomeOf;
    if log != [] {
      var before := log[..|log| - 1];
      Accounting(net, s, before);
      OneOutcome(net, Run(net, s, before), log[|log| - 1]);
      SeatsStayDifferent(net, Run(net, s, before), log[|log| - 1].now, log[|log| - 1].src);
      var os := Outcomes(net, s, log);
      assert os[..|os| - 1] == Outcomes(net, s, before);
      CountsAddUp(os);
    }
  }
}
