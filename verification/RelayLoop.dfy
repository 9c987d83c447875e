/** The eligibility loop (relaypair.go, relayvolontaires.go, nattraversal.go): a verdict makes a
    player eligible, eligibility grants a relay, a grant silences the verdict. */
module RelayLoop {
  import opened Bytes
  import opened RelaySeats
  import opened PairRelays
  import opened RelayTable
  import opened RelayNeed
  import opened RelaySeen

  // ---- Who may be relayed ---------------------------------------------------------------------

  datatype Volunteers = Volunteers(listed: set<u64>, forced: set<u64>, everyone: bool)
  {
    predicate May(pid: u64) {
      everyone || pid in listed
    }
  }

  function Nobody(): Volunteers {
    Volunteers({}, {}, false)
  }

  function PidsIn(pids: seq<u64>): set<u64> {
    set p | p in pids && p != 0
  }

  /** Forcing a player also authorises them; PID 0 is ignored. */
  function Listed(pids: seq<u64>, forces: seq<u64>, everyone: bool): Volunteers {
    Volunteers(PidsIn(pids) + PidsIn(forces), PidsIn(forces), everyone)
  }

  /** Authorised are all, or the listed and the forced; PID 0 never is by name. */
  lemma {:induction false} VolunteerLaw(pids: seq<u64>, forces: seq<u64>, everyone: bool, a: u64)
    ensures var vol := Listed(pids, forces, everyone);
            && (vol.May(a) <==> everyone || (a != 0 && (a in pids || a in forces)))
            && (a in vol.forced <==> a != 0 && a in forces)
  {
  }

  class VolunteerList {
    var volontaires: set<u64>
    var volForces: set<u64>
    var volOuvert: bool

    function Model(): Volunteers
      reads this
    {
      Volunteers(volontaires, volForces, volOuvert)
    }

    constructor ()
      ensures Model() == Nobody()
    {
      volontaires, volForces, volOuvert := {}, {}, false;
    }

    method SetRelayVolontaires(pids: seq<u64>, forces: seq<u64>, ouvert: bool)
      modifies this
      ensures Model() == Listed(pids, forces, ouvert)
      ensures forall a: u64 :: Model().May(a) <==> ouvert || (a != 0 && (a in pids || a in forces))
      ensures forall a: u64 :: a in Model().forced <==> a != 0 && a in forces
    {
      volontaires := {};
      for i := 0 to |pids|
        invariant volontaires == PidsIn(pids[..i])
      {
        if pids[i] != 0 {
          volontaires := volontaires + {pids[i]};
        }
        assert pids[..i + 1] == pids[..i] + [pids[i]];
      }
      assert pids[..|pids|] == pids;
      volForces := {};
      for i := 0 to |forces|
        invariant volForces == PidsIn(forces[..i])
        invariant volontaires == PidsIn(pids) + PidsIn(forces[..i])
      {
        if forces[i] != 0 {
          volForces := volForces + {forces[i]};
          volontaires := volontaires + {forces[i]};
        }
        assert forces[..i + 1] == forces[..i] + [forces[i]];
      }
      assert forces[..|forces|] == forces;
      volOuvert := ouvert;
      forall a: u64
        ensures Model().May(a) <==> ouvert || (a != 0 && (a in pids || a in forces))
        ensures a in Model().forced <==> a != 0 && a in forces
      {
        VolunteerLaw(pids, forces, ouvert, a);
      }
    }
  }

  // ---- The loop ---------------------------------------------------------------------------------

  datatype Loop = Loop(vol: Volunteers, needs: Registry, memory: Memory, relay: Relay)

  function Idling(): Loop {
    Loop(Nobody(), Registry(map[], Never), Memory(map[], Never), Start())
  }

  /** Both players authorised, and at least one needy or forced. */
  predicate Admitted(vol: Volunteers, a: u64, b: u64, needyA: bool, needyB: bool) {
    vol.May(a) && vol.May(b) && (needyA || needyB || a in vol.forced || b in vol.forced)
  }

  /** One request for a relay port; a port announced is noted in the grant registry. */
  function Requested(s: Loop, a: u64, b: u64, ipA: string, ipB: string, listens: bool, now: int): (Loop, Option<nat>) {
    var allowed := Admitted(s.vol, a, b, NeedsRelay(s.needs.needs, a, now), NeedsRelay(s.needs.needs, b, now));
    var (r, port) := Ask(s.relay, a, b, ipA, ipB, allowed, listens, now);
    (s.(relay := r, memory := if port.Some? then Remembered(s.memory, now, a, b) else s.memory), port)
  }

  /** A console's verdict on its direct hole-punch to a connection: counted unless that peer is
      connected and the pair went through the relay lately. */
  function Reported(s: Loop, pid: u64, peer: u64, ok: bool, now: int): Loop {
    if peer != 0 && PairRelayed(s.memory.seen, pid, peer, now) then s
    else s.(needs := Noted(s.needs, now, pid, ok))
  }

  /** The PID behind a connection id, 0 when there is none. */
  function PeerOf(connections: map<u32, u64>, cid: u32): u64 {
    if cid in connections then connections[cid] else 0
  }

  /** The shared registries and the relay's tables, updated in place. */
  class RelayService {
    const volunteers: VolunteerList
    const needs: NeedRegistry
    const seen: SeenRegistry
    const table: PairRelayTable

    ghost function Model(): Loop
      reads this, volunteers, needs, seen, table, table.pairSocks.Values
    {
      Loop(volunteers.Model(), needs.Model(), seen.Model(), table.Model())
    }

    ghost predicate Valid()
      reads this, needs, seen, table, table.pairSocks.Values
    {
      needs.Valid() && seen.Valid() && table.Valid()
    }

    constructor ()
      ensures Valid() && Model() == Idling()
      ensures fresh(volunteers) && fresh(needs) && fresh(seen) && fresh(table)
    {
      volunteers := new VolunteerList();
      needs := new NeedRegistry();
      seen := new SeenRegistry();
      table := new PairRelayTable();
    }

    method PairRelayFor(a: u64, b: u64, ipA: string, ipB: string, listens: bool, now: int) returns (port: Option<nat>)
      requires Valid()
      modifies table, table.pairSocks.Values, seen
      ensures Valid() && fresh(table.pairSocks.Values - old(table.pairSocks.Values))
      ensures (Model(), port) == Requested(old(Model()), a, b, ipA, ipB, listens, now)
    {
      hide Ask, Remembered, Inv, NeedsRelay, EligibleByLog, Ordered, NotBefore, NotedAll, Tracks, KnowsAll, Models,
           Separate;
      if table.host == "" || table.portSpan <= 0 || ipA == "" || ipB == "" {
        RefusedUnchanged(table.Model(), a, b, ipA, ipB, listens, now);
        return None;
      }
      var vol := volunteers.Model();
      if !vol.May(a) || !vol.May(b) {
        RefusedUnchanged(table.Model(), a, b, ipA, ipB, listens, now);
        return None;
      }
      var needyA := needs.BesoinDeRelais(a, now);
      var needyB := needs.BesoinDeRelais(b, now);
      if !needyA && !needyB && a !in vol.forced && b !in vol.forced {
        RefusedUnchanged(table.Model(), a, b, ipA, ipB, listens, now);
        return None;
      }
      port := table.PairRelayFor(a, b, ipA, ipB, true, listens, now);
      if port.Some? {
        seen.NoterPaireRelayee(a, b, now);
      }
    }

    method LogNATResult(pid: u64, connections: map<u32, u64>, cid: u32, ok: bool, now: int)
      requires Valid()
      modifies needs
      ensures Valid() && Model() == Reported(old(Model()), pid, PeerOf(connections, cid), ok, now)
    {
      hide Noted, NotedAll, Inv, EligibleByLog, GrantedLately, Tracks, KnowsAll, Models, Separate;
      var relaye := false;
      if cid in connections && connections[cid] != 0 {
        relaye := seen.PaireRelayee(pid, connections[cid], now);
      }
      if !relaye {
        needs.NotePercage(pid, ok, now);
      }
    }
  }

  // ---- Runs, with registries and with full logs ---------------------------------------------------

  datatype What =
    | Appoint(pids: seq<u64>, forces: seq<u64>, everyone: bool)
    | Request(a: u64, b: u64, ipA: string, ipB: string, listens: bool)
    | Report(pid: u64, connections: map<u32, u64>, cid: u32, ok: bool)
    | Traffic(port: nat, src: Addr)
    | Sweep
    | Configuration(host: string, base: nat, span: int)

  datatype Happening = Happening(now: int, what: What)

  type History = seq<Happening>

  predicate Chronological(h: History) {
    forall i, j :: 0 <= i < j < |h| ==> h[i].now <= h[j].now
  }

  /** The steps that do not go through the eligibility rules. */
  function RelayEvent(e: Happening): Option<PairRelays.Event> {
    match e.what
    case Traffic(port, src) => Some(Packet(port, e.now, src))
    case Sweep => Some(Reap(e.now))
    case Configuration(host, base, span) => Some(Configure(host, base, span))
    case _ => None
  }

  ghost function Elsewhere(net: Net24, r: Relay, e: Happening): (r1: Relay)
    requires Inv(r)
    ensures Inv(r1)
  {
    if RelayEvent(e).None? then r
    else
      StepKeepsInv(net, r, RelayEvent(e).value);
      Step(net, r, RelayEvent(e).value)
  }

  ghost function LoopStep(net: Net24, s: Loop, e: Happening): (s1: Loop)
    requires Inv(s.relay)
    ensures Inv(s1.relay)
  {
    match e.what
    case Appoint(pids, forces, everyone) => s.(vol := Listed(pids, forces, everyone))
    case Request(a, b, ipA, ipB, listens) =>
      var allowed := Admitted(s.vol, a, b, NeedsRelay(s.needs.needs, a, e.now), NeedsRelay(s.needs.needs, b, e.now));
      AskKeepsInv(s.relay, a, b, ipA, ipB, allowed, listens, e.now);
      Requested(s, a, b, ipA, ipB, listens, e.now).0
    case Report(pid, connections, cid, ok) => Reported(s, pid, PeerOf(connections, cid), ok, e.now)
    case _ => s.(relay := Elsewhere(net, s.relay, e))
  }

  ghost function RunLoop(net: Net24, h: History): (s: Loop)
    ensures Inv(s.relay)
  {
    if h == [] then Idling() else LoopStep(net, RunLoop(net, h[..|h| - 1]), h[|h| - 1])
  }

  /** The same loop that forgets nothing: every counted verdict and every grant ever made. */
  datatype Ledger = Ledger(vol: Volunteers, verdicts: seq<RelayNeed.Event>, grants: seq<Grant>, relay: Relay)

  function AskByLog(
    l: Ledger, a: u64, b: u64, ipA: string, ipB: string, listens: bool, now: int): (Relay, Option<nat>) {
    Ask(l.relay, a, b, ipA, ipB,
        Admitted(l.vol, a, b, EligibleByLog(l.verdicts, a, now), EligibleByLog(l.verdicts, b, now)), listens, now)
  }

  /** Does this verdict count? */
  predicate Counts(l: Ledger, e: Happening) {
    e.what.Report? && e.what.pid != 0
    && var peer := PeerOf(e.what.connections, e.what.cid);
       (peer == 0 || !GrantedLately(l.grants, KeyOf(e.what.pid, peer), e.now))
  }

  ghost function LedgerStep(net: Net24, l: Ledger, e: Happening): (l1: Ledger)
    requires Inv(l.relay)
    ensures Inv(l1.relay)
  {
    match e.what
    case Appoint(pids, forces, everyone) => l.(vol := Listed(pids, forces, everyone))
    case Request(a, b, ipA, ipB, listens) =>
      var allowed := Admitted(l.vol, a, b, EligibleByLog(l.verdicts, a, e.now), EligibleByLog(l.verdicts, b, e.now));
      AskKeepsInv(l.relay, a, b, ipA, ipB, allowed, listens, e.now);
      var (r, port) := AskByLog(l, a, b, ipA, ipB, listens, e.now);
      l.(relay := r, grants := if port.Some? then l.grants + [Grant(e.now, a, b)] else l.grants)
    case Report(pid, _, _, ok) =>
      if Counts(l, e) then l.(verdicts := l.verdicts + [Verdict(e.now, pid, ok)]) else l
    case _ => l.(relay := Elsewhere(net, l.relay, e))
  }

  ghost function RunLedger(net: Net24, h: History): (l: Ledger)
    ensures Inv(l.relay)
  {
    if h == [] then Ledger(Nobody(), [], [], Start()) else LedgerStep(net, RunLedger(net, h[..|h| - 1]), h[|h| - 1])
  }

  /** The registries answer as the logs do, now and at every later moment. */
  ghost predicate Mirrors(s: Loop, l: Ledger, now: int) {
    && s.vol == l.vol && s.relay == l.relay
    && (forall pid :: Agrees(s.needs.needs, l.verdicts, pid, now))
    && (forall k :: Knows(s.memory.seen, l.grants, k, now))
  }

  lemma {:induction false} MirrorsLater(s: Loop, l: Ledger, now: int, later: int)
    requires Mirrors(s, l, now) && now <= later
    ensures Mirrors(s, l, later)
  {
    hide Agrees, Knows;
    forall pid ensures Agrees(s.needs.needs, l.verdicts, pid, later) {
      AgreesLater(s.needs.needs, l.verdicts, pid, now, later);
    }
    forall k ensures Knows(s.memory.seen, l.grants, k, later) {
      KnowsLater(s.memory.seen, l.grants, k, now, later);
    }
  }

  lemma {:induction false} MirrorsDecides(s: Loop, l: Ledger, now: int)
    requires Mirrors(s, l, now)
    ensures forall pid :: NeedsRelay(s.needs.needs, pid, now) <==> EligibleByLog(l.verdicts, pid, now)
    ensures forall a, b :: PairRelayed(s.memory.seen, a, b, now) <==> GrantedLately(l.grants, KeyOf(a, b), now)
  {
    hide NeedsRelay, EligibleByLog, Agrees, GrantedLately;
    forall pid ensures NeedsRelay(s.needs.needs, pid, now) <==> EligibleByLog(l.verdicts, pid, now) {
      AgreesDecides(s.needs.needs, l.verdicts, pid, now);
    }
    forall a, b ensures PairRelayed(s.memory.seen, a, b, now) <==> GrantedLately(l.grants, KeyOf(a, b), now) {
      assert Knows(s.memory.seen, l.grants, KeyOf(a, b), now);
    }
  }

  lemma {:induction false} StepMirrors(net: Net24, s: Loop, l: Ledger, e: Happening)
    requires Inv(s.relay) && Inv(l.relay) && Mirrors(s, l, e.now)
    ensures Mirrors(LoopStep(net, s, e), LedgerStep(net, l, e), e.now)
  {
    hide NeedsRelay, EligibleByLog, Agrees, GrantedLately, Knows, Ask, Elsewhere, Inv, Remembered, Noted, PairRelayed;
    MirrorsDecides(s, l, e.now);
    match e.what
    case Request(a, b, _, _, _) =>
      forall k ensures Knows(Remembered(s.memory, e.now, a, b).seen, l.grants + [Grant(e.now, a, b)], k, e.now) {
        RememberedKnows(s.memory, l.grants, k, e.now, a, b);
      }
    case Report(p, connections, cid, ok) =>
      if p == 0 {
        NobodyNoted(s.needs, e.now, ok);
      } else {
        forall pid
          ensures Agrees(Noted(s.needs, e.now, p, ok).needs, l.verdicts + [Verdict(e.now, p, ok)], pid, e.now)
        {
          NotedAgrees(s.needs, l.verdicts, pid, e.now, p, ok);
        }
      }
    case _ =>
  }

  /** Forgetting is unobservable: over any chronological run, with every clean-up of both
      registries happening when the code does it, the relay's whole state is what it would be with
      unbounded logs, and so is every later answer about eligibility and about relayed pairs. */
  lemma {:induction false} LoopRefinesLedger(net: Net24, h: History, t: int)
    requires Chronological(h) && (h != [] ==> h[|h| - 1].now <= t)
    ensures Mirrors(RunLoop(net, h), RunLedger(net, h), t)
  {
    hide Mirrors, LoopStep, LedgerStep;
    if h == [] {
      StartMirrors(t);
    } else {
      var before, e := h[..|h| - 1], h[|h| - 1];
      LoopRefinesLedger(net, before, e.now);
      StepMirrors(net, RunLoop(net, before), RunLedger(net, before), e);
      MirrorsLater(RunLoop(net, h), RunLedger(net, h), e.now, t);
    }
  }

  lemma {:induction false} StartMirrors(t: int)
    ensures Mirrors(Idling(), Ledger(Nobody(), [], [], Start()), t)
  {
  }

  // ---- The loop is cut ----------------------------------------------------------------------------

  /** A port is granted exactly when the two players are authorised, one of them is forced or has
      two counted failures, at most fifteen minutes apart, the last at most fifteen minutes ago,
      and the allocator does not refuse: the relay is on, both addresses are known, and the pair
      has a port or one of the eight ports tried is free and can be bound. */
  lemma {:induction false} GrantIff(
    net: Net24, h: History, a: u64, b: u64, ipA: string, ipB: string, listens: bool, now: int)
    requires Chronological(h) && (h != [] ==> h[|h| - 1].now <= now)
    ensures var s := RunLoop(net, h);
            var verdicts := RunLedger(net, h).verdicts;
            var entitled := s.vol.May(a) && s.vol.May(b)
                            && (EligibleByLog(verdicts, a, now) || EligibleByLog(verdicts, b, now)
                                || a in s.vol.forced || b in s.vol.forced);
            Requested(s, a, b, ipA, ipB, listens, now).1.Some?
            <==> entitled && !Refuses(s.relay, a, b, ipA, ipB, true, listens)
  {
    hide NeedsRelay, EligibleByLog, GrantedLately, PairRelayed, Mirrors;
    var s, l := RunLoop(net, h), RunLedger(net, h);
    LoopRefinesLedger(net, h, now);
    MirrorsDecides(s, l, now);
    hide Ask, Refuses, Inv;
    RefusedUnchanged(s.relay, a, b, ipA, ipB, listens, now);
    RefusedIff(s.relay, a, b, ipA, ipB, true, listens, now);
  }

  /** A verdict about a connected peer changes nothing, for anyone and at any later moment, when
      that pair was granted a relay at most five minutes before; otherwise it is counted. */
  lemma {:induction false} VerdictCountsIff(net: Net24, h: History, e: Happening)
    requires e.what.Report? && e.what.pid != 0 && Chronological(h) && (h != [] ==> h[|h| - 1].now <= e.now)
    ensures var peer := PeerOf(e.what.connections, e.what.cid);
            var s, l := RunLoop(net, h), RunLedger(net, h);
            var s1, l1 := RunLoop(net, h + [e]), RunLedger(net, h + [e]);
            if peer != 0 && GrantedLately(l.grants, KeyOf(e.what.pid, peer), e.now) then s1 == s && l1 == l
            else s1 == s.(needs := Noted(s.needs, e.now, e.what.pid, e.what.ok))
                 && l1 == l.(verdicts := l.verdicts + [Verdict(e.now, e.what.pid, e.what.ok)])
  {
    hide NeedsRelay, EligibleByLog, GrantedLately, PairRelayed, Mirrors, Noted;
    var s, l := RunLoop(net, h), RunLedger(net, h);
    LoopRefinesLedger(net, h, e.now);
    MirrorsDecides(s, l, e.now);
    assert (h + [e])[..|h|] == h;
  }

  /** Every verdict of this player in the later part of the run is about a pair just relayed. */
  ghost predicate OnlyRelayedVerdicts(net: Net24, h: History, later: History, pid: u64) {
    forall i :: 0 <= i < |later| && later[i].what.Report? && later[i].what.pid == pid
      ==> !Counts(RunLedger(net, h + later[..i]), later[i])
  }

  lemma {:induction false} StepKeepsLast(net: Net24, l: Ledger, e: Happening, pid: u64)
    requires Inv(l.relay) && (e.what.Report? && e.what.pid == pid ==> !Counts(l, e))
    ensures Last(LedgerStep(net, l, e).verdicts, pid) == Last(l.verdicts, pid)
  {
    hide Elsewhere, AskByLog, Admitted, EligibleByLog, GrantedLately, Inv, Ask;
    if e.what.Report? && Counts(l, e) {
      var more := l.verdicts + [Verdict(e.now, e.what.pid, e.what.ok)];
      assert more[..|more| - 1] == l.verdicts;
    }
  }

  lemma {:induction false} VerdictsFrozen(net: Net24, h: History, later: History, pid: u64)
    requires OnlyRelayedVerdicts(net, h, later, pid)
    ensures Last(RunLedger(net, h + later).verdicts, pid) == Last(RunLedger(net, h).verdicts, pid)
  {
    hide Counts, LedgerStep, Last, Inv;
    if later == [] {
      assert h + later == h;
    } else {
      var before, e := later[..|later| - 1], later[|later| - 1];
      forall i | 0 <= i < |before| ensures later[..i] == before[..i] {
      }
      VerdictsFrozen(net, h, before, pid);
      assert (h + later)[..|h + later| - 1] == h + before;
      StepKeepsLast(net, RunLedger(net, h + before), e, pid);
    }
  }

  lemma {:induction false} VerdictsAreDated(net: Net24, h: History, t: int)
    requires forall e :: e in h ==> e.now <= t
    ensures forall v :: v in RunLedger(net, h).verdicts ==> v.now <= t
  {
    hide Counts, Elsewhere, AskByLog, Admitted;
    if h != [] {
      VerdictsAreDated(net, h[..|h| - 1], t);
      assert h[|h| - 1] in h;
    }
  }

  /** The feedback is cut: once a player's only verdicts are about pairs just relayed, whatever
      those verdicts say the player stops needing the relay fifteen minutes later. */
  lemma {:induction false} EligibilityDecays(net: Net24, h: History, later: History, pid: u64, t0: int, t: int)
    requires Chronological(h + later) && (h + later != [] ==> (h + later)[|h + later| - 1].now <= t)
    requires (forall e :: e in h ==> e.now <= t0) && t0 + NEED_WINDOW < t
    requires OnlyRelayedVerdicts(net, h, later, pid)
    ensures !NeedsRelay(RunLoop(net, h + later).needs.needs, pid, t)
  {
    hide Mirrors, NeedsRelay;
    LoopRefinesLedger(net, h + later, t);
    MirrorsDecides(RunLoop(net, h + later), RunLedger(net, h + later), t);
    VerdictsFrozen(net, h, later, pid);
    VerdictsAreDated(net, h, t0);
    assert !EligibleByLog(RunLedger(net, h + later).verdicts, pid, t);
  }
}
