/** Participation events (matchmaking_handlers.go, matchmaking_local.go): who has been told of
    whom, when announcements are sent after the lock is released, at once or after a delay. */
module Participation {
  import opened Bytes
  import opened MatchCriteria
  import opened MatchStore
  import opened MatchRuns

  /** An announcement waiting to be sent: the caller over its connection, and the members at the
      moment the lock was released. A delayed one checks and filters when it fires. */
  datatype Notice = Notice(gid: u32, caller: u64, conn: u32, parts: seq<u64>, delayed: bool)

  /** In this gathering, the first player has received a Participate event naming the second. */
  type Told = (u32, u64, u64)

  /** Each connected player's newest connection. `steady` holds the members, by gathering, whose
      connection has not changed since they last entered or searched it. */
  datatype World = World(
    store: Store, conns: map<u64, u32>, pending: multiset<Notice>, told: set<Told>, steady: set<(u32, u64)>)

  datatype Move =
    | Handle(e: Event, delayed: bool)
    | Deliver(n: Notice)
    | Connect(pid: u64, conn: u32)
    | Disconnect(pid: u64)

  predicate Member(s: Store, g: u32, x: u64) {
    g in s.rooms && x in s.rooms[g].members
  }

  ghost predicate InNoRoom(s: Store, pid: u64) {
    forall g :: !Member(s, g, pid)
  }

  /** The announcement a handler leaves behind. */
  ghost function Scheduled(o: Options, w: World, e: Event, delayed: bool): Option<Notice> {
    if !Possible(o, w.store, e) then None
    else
      match e
      case CreateSession(pid, conn, _, _, _) => Some(Notice(w.store.nextGid, pid, conn, [pid], delayed))
      case AutoMatchmake(q, chosen, key, now) =>
        var d := Destination(w.store, chosen);
        Some(Notice(d, q.pid, q.conn, AutoMatched(o, w.store, q, chosen, key, now).rooms[d].members, delayed))
      case JoinSession(pid, gid) =>
        if gid in w.store.rooms && pid !in w.store.rooms[gid].members && !Full(w.store.rooms[gid]) && pid in w.conns
        then Some(Notice(gid, pid, w.conns[pid], w.store.rooms[gid].members + [pid], delayed))
        else None
      case _ => None
  }

  /** Callers speak over their own connection. Players connect, reconnect and disconnect at any
      moment, inside a room or not. */
  ghost predicate Enabled(o: Options, w: World, m: Move) {
    match m
    case Handle(e, _) =>
      (match e
       case CreateSession(pid, conn, _, _, _) => Current(w, pid, conn)
       case AutoMatchmake(q, _, _, _) => Possible(o, w.store, e) && Current(w, q.pid, q.conn)
       case JoinSession(pid, _) => pid in w.conns
       case _ => true)
    case Deliver(n) => n in w.pending
    case Connect(_, _) => true
    case Disconnect(_) => true
  }

  /** What a player was told lasts while both stay in the gathering. */
  ghost function StillTold(o: Options, w: World, e: Event, s1: Store): set<Told> {
    set t | t in w.told && !(Creates(o, w.store, e) && t.0 == w.store.nextGid)
            && Member(w.store, t.0, t.1) && Member(w.store, t.0, t.2) && Member(s1, t.0, t.1) && Member(s1, t.0, t.2)
  }

  predicate Current(w: World, pid: u64, conn: u32) {
    pid in w.conns && w.conns[pid] == conn
  }

  /** The present members reached by an announcement, as pairs. */
  ghost function Reached(w: World, n: Notice): set<Told> {
    if !Member(w.store, n.gid, n.caller) || (n.delayed && !Current(w, n.caller, n.conn)) then {}
    else
      (set p | p in n.parts && Member(w.store, n.gid, p) && p in w.conns :: (n.gid, p, n.caller))
      + (set p | p in n.parts && Member(w.store, n.gid, p) && Current(w, n.caller, n.conn) :: (n.gid, n.caller, p))
  }

  /** Who is still where it was, and the announced caller. */
  ghost function StillSteady(o: Options, w: World, e: Event, s1: Store, n: Option<Notice>): set<(u32, u64)> {
    (set t | t in w.steady && Member(s1, t.0, t.1) && !(Creates(o, w.store, e) && t.0 == w.store.nextGid))
    + (if n.Some? then {(n.value.gid, n.value.caller)} else {})
  }

  function Without(steady: set<(u32, u64)>, pid: u64): set<(u32, u64)> {
    set t | t in steady && t.1 != pid
  }

  ghost function Next(o: Options, w: World, m: Move): World {
    if !Enabled(o, w, m) then w
    else
      match m
      case Handle(e, delayed) =>
        var s1 := Step(o, w.store, e);
        var n := Scheduled(o, w, e, delayed);
        World(s1, w.conns, if n.Some? then w.pending + multiset{n.value} else w.pending,
              StillTold(o, w, e, s1), StillSteady(o, w, e, s1, n))
      case Deliver(n) => w.(pending := w.pending - multiset{n}, told := w.told + Reached(w, n))
      case Connect(pid, conn) => w.(conns := w.conns[pid := conn], steady := Without(w.steady, pid))
      case Disconnect(pid) => w.(conns := w.conns - {pid}, steady := Without(w.steady, pid))
  }

  ghost function Play(o: Options, ms: seq<Move>): World {
    if ms == [] then World(MatchStore.Start(), map[], multiset{}, {}, {})
    else Next(o, Play(o, ms[..|ms| - 1]), ms[|ms| - 1])
  }

  // ---- The invariant --------------------------------------------------------------------------

  /** When this announcement fires, as things stand, x will have been told of y. */
  predicate WillTell(w: World, n: Notice, g: u32, x: u64, y: u64) {
    && n.gid == g
    && ((n.caller == y && x in n.parts && x in w.conns && (n.delayed ==> Current(w, y, n.conn)))
        || (n.caller == x && y in n.parts && Current(w, x, n.conn)))
  }

  ghost predicate ToldOrPending(w: World, g: u32, x: u64, y: u64) {
    (g, x, y) in w.told || exists n :: n in w.pending && WillTell(w, n, g, x, y)
  }

  predicate Steady(w: World, g: u32, x: u64) {
    (g, x) in w.steady
  }

  ghost predicate Covered(w: World) {
    && (forall g: u32, x: u64 :: Steady(w, g, x) ==> Member(w.store, g, x) && x in w.conns)
    && (forall g: u32, x: u64, y: u64 :: Steady(w, g, x) && Steady(w, g, y) ==> ToldOrPending(w, g, x, y))
  }

  // ---- Handlers -------------------------------------------------------------------------------

  /** The announcement speaks over the caller's current connection, of the members there are, the
      caller among them. */
  ghost predicate GoodNotice(w: World, s1: Store, n: Notice) {
    && Current(w, n.caller, n.conn) && n.gid in s1.rooms
    && n.parts == s1.rooms[n.gid].members && n.caller in n.parts
  }

  lemma {:induction false} CreateAnnounces(o: Options, w: World, e: Event, delayed: bool)
    requires e.CreateSession? && Enabled(o, w, Handle(e, delayed))
    ensures var n := Scheduled(o, w, e, delayed);
            n.Some? && GoodNotice(w, Step(o, w.store, e), n.value)
  {
    hide Finalized, NormalizedRv, CodesOf;
  }

  lemma {:induction false} SearchAnnounces(o: Options, w: World, e: Event, delayed: bool)
    requires e.AutoMatchmake? && Enabled(o, w, Handle(e, delayed))
    ensures var n := Scheduled(o, w, e, delayed);
            n.Some? && GoodNotice(w, Step(o, w.store, e), n.value)
  {
    hide Finalized, CodesOf, Eligible, OwnerOnline;
  }

  lemma {:induction false} JoinAnnounces(o: Options, w: World, e: Event, delayed: bool)
    requires e.JoinSession? && Enabled(o, w, Handle(e, delayed)) && Scheduled(o, w, e, delayed).Some?
    ensures GoodNotice(w, Step(o, w.store, e), Scheduled(o, w, e, delayed).value)
  {
    hide Full;
  }

  lemma {:induction false} ScheduledIsGood(o: Options, w: World, e: Event, delayed: bool)
    requires Enabled(o, w, Handle(e, delayed)) && Scheduled(o, w, e, delayed).Some?
    ensures GoodNotice(w, Step(o, w.store, e), Scheduled(o, w, e, delayed).value)
  {
    hide Step, GoodNotice;
    match e
    case CreateSession(_, _, _, _, _) => CreateAnnounces(o, w, e, delayed);
    case AutoMatchmake(_, _, _, _) => SearchAnnounces(o, w, e, delayed);
    case JoinSession(_, _) => JoinAnnounces(o, w, e, delayed);
    case _ => assert false;
  }

  lemma {:induction false} StayersStayCovered(
    o: Options, w: World, e: Event, delayed: bool, g: u32, x: u64, y: u64)
    requires ToldOrPending(w, g, x, y) && Enabled(o, w, Handle(e, delayed))
    requires Member(w.store, g, x) && Member(w.store, g, y) && !(Creates(o, w.store, e) && g == w.store.nextGid)
    requires var s1 := Step(o, w.store, e); Member(s1, g, x) && Member(s1, g, y)
    ensures ToldOrPending(Next(o, w, Handle(e, delayed)), g, x, y)
  {
    hide Step, Scheduled, Creates, Enabled;
    var w1 := Next(o, w, Handle(e, delayed));
    if (g, x, y) !in w.told {
      var n :| n in w.pending && WillTell(w, n, g, x, y);
      assert n in w1.pending && WillTell(w1, n, g, x, y);
    }
  }

  /** A snapshot taken after an arrival holds both players of every pair with the newcomer. */
  lemma {:induction false} NoticeCovers(w: World, n: Notice, g: u32, x: u64, y: u64)
    requires n in w.pending && n.gid == g && x in n.parts && y in n.parts && x in w.conns
    requires (n.caller == x || n.caller == y) && Current(w, n.caller, n.conn)
    ensures ToldOrPending(w, g, x, y)
  {
    assert WillTell(w, n, g, x, y);
  }

  lemma {:induction false} HandleKeepsCovered(o: Options, w: World, e: Event, delayed: bool)
    requires Covered(w) && Enabled(o, w, Handle(e, delayed))
    ensures Covered(Next(o, w, Handle(e, delayed)))
  {
    hide Step, Scheduled, Creates, Enabled, ToldOrPending, StillTold;
    var w1 := Next(o, w, Handle(e, delayed));
    var n := Scheduled(o, w, e, delayed);
    if n.Some? {
      ScheduledIsGood(o, w, e, delayed);
    }
    forall g: u32, x: u64 | Steady(w1, g, x) ensures Member(w1.store, g, x) && x in w1.conns {
      assert Steady(w, g, x) || (n.Some? && n.value.gid == g && n.value.caller == x);
    }
    forall g: u32, x: u64, y: u64 | Steady(w1, g, x) && Steady(w1, g, y) ensures ToldOrPending(w1, g, x, y) {
      if n.Some? && n.value.gid == g && (n.value.caller == x || n.value.caller == y) {
        assert n.value in w1.pending;
        NoticeCovers(w1, n.value, g, x, y);
      } else {
        assert Steady(w, g, x) && Steady(w, g, y);
        StayersStayCovered(o, w, e, delayed, g, x, y);
      }
    }
  }

  // ---- Deliveries and connections -----------------------------------------------------------------

  lemma {:induction false} DeliverKeepsCovered(o: Options, w: World, n: Notice)
    requires Covered(w) && n in w.pending
    ensures Covered(Next(o, w, Deliver(n)))
  {
    var w1 := Next(o, w, Deliver(n));
    forall g: u32, x: u64 | Steady(w1, g, x) ensures Member(w1.store, g, x) && x in w1.conns {
      assert Steady(w, g, x);
    }
    forall g: u32, x: u64, y: u64 | Steady(w1, g, x) && Steady(w1, g, y) ensures ToldOrPending(w1, g, x, y) {
      assert Steady(w, g, x) && Steady(w, g, y) && ToldOrPending(w, g, x, y);
      if (g, x, y) !in w.told {
        var p :| p in w.pending && WillTell(w, p, g, x, y);
        if p == n {
          FiringTells(w, n, g, x, y);
        } else {
          assert p in w1.pending && WillTell(w1, p, g, x, y);
        }
      }
    }
  }

  lemma {:induction false} FiringTells(w: World, n: Notice, g: u32, x: u64, y: u64)
    requires Member(w.store, g, x) && Member(w.store, g, y) && WillTell(w, n, g, x, y)
    ensures (g, x, y) in Reached(w, n)
  {
  }

  lemma {:induction false} ConnectionsKeepCovered(o: Options, w: World, m: Move)
    requires Covered(w) && (m.Connect? || m.Disconnect?)
    ensures Covered(Next(o, w, m))
  {
    var w1 := Next(o, w, m);
    forall g: u32, x: u64 | Steady(w1, g, x) ensures Member(w1.store, g, x) && x in w1.conns {
      assert Steady(w, g, x) && x != m.pid;
    }
    forall g: u32, x: u64, y: u64 | Steady(w1, g, x) && Steady(w1, g, y) ensures ToldOrPending(w1, g, x, y) {
      assert Steady(w, g, x) && Steady(w, g, y) && ToldOrPending(w, g, x, y) && x != m.pid && y != m.pid;
      if (g, x, y) !in w.told {
        var p :| p in w.pending && WillTell(w, p, g, x, y);
        assert WillTell(w1, p, g, x, y);
      }
    }
  }

  /** However handlers, delayed and immediate announcements, departures, disconnections and
      reconnections interleave, every ordered pair of present members of a gathering that kept
      their connection since they entered, a player paired with itself included, has the first
      told of the second, or an announcement on its way that will do it: the later of the two to
      arrive was announced with both in the snapshot. */
  lemma {:induction false} EveryPairIsToldOrPending(o: Options, ms: seq<Move>)
    ensures Covered(Play(o, ms))
  {
    hide Covered, Next, Enabled;
    if ms == [] {
      NobodyYet(o);
    } else {
      var w, m := Play(o, ms[..|ms| - 1]), ms[|ms| - 1];
      EveryPairIsToldOrPending(o, ms[..|ms| - 1]);
      if !Enabled(o, w, m) {
        DisabledMove(o, w, m);
      } else {
        match m
        case Handle(e, delayed) => HandleKeepsCovered(o, w, e, delayed);
        case Deliver(n) => DeliverIsEnabled(o, w, n); DeliverKeepsCovered(o, w, n);
        case Connect(_, _) => ConnectionsKeepCovered(o, w, m);
        case Disconnect(_) => ConnectionsKeepCovered(o, w, m);
      }
    }
  }

  lemma {:induction false} NobodyYet(o: Options)
    ensures Covered(Play(o, []))
  {
  }

  lemma {:induction false} DisabledMove(o: Options, w: World, m: Move)
    requires !Enabled(o, w, m)
    ensures Next(o, w, m) == w
  {
  }

  lemma {:induction false} DeliverIsEnabled(o: Options, w: World, n: Notice)
    requires Enabled(o, w, Deliver(n))
    ensures n in w.pending
  {
  }

  /** Once nothing is on its way, such members have all been told of one another. */
  lemma {:induction false} QuietMeansComplete(o: Options, ms: seq<Move>, g: u32, x: u64, y: u64)
    requires Play(o, ms).pending == multiset{}
    requires Steady(Play(o, ms), g, x) && Steady(Play(o, ms), g, y)
    ensures (g, x, y) in Play(o, ms).told
  {
    EveryPairIsToldOrPending(o, ms);
    hide Play, Steady, WillTell;
    assert ToldOrPending(Play(o, ms), g, x, y);
  }

  // ---- Who is steady ------------------------------------------------------------------------------

  /** Whoever is in room g after the step was there before or is the announced caller. */
  ghost predicate OnlyAnnounced(o: Options, w: World, e: Event, n: Option<Notice>, g: u32, x: u64) {
    || (Member(w.store, g, x) && !(Creates(o, w.store, e) && g == w.store.nextGid))
    || (n.Some? && n.value.gid == g && n.value.caller == x)
  }

  lemma {:induction false} NewcomerOfCreate(o: Options, w: World, e: Event, delayed: bool, g: u32, x: u64)
    requires e.CreateSession? && Member(Step(o, w.store, e), g, x)
    ensures OnlyAnnounced(o, w, e, Scheduled(o, w, e, delayed), g, x)
  {
    hide Finalized, NormalizedRv, CodesOf;
  }

  lemma {:induction false} NewcomerOfSearch(o: Options, w: World, e: Event, delayed: bool, g: u32, x: u64)
    requires e.AutoMatchmake? && Possible(o, w.store, e) && Member(Step(o, w.store, e), g, x)
    ensures OnlyAnnounced(o, w, e, Scheduled(o, w, e, delayed), g, x)
  {
    hide Finalized, CodesOf, Eligible, OwnerOnline;
  }

  lemma {:induction false} NewcomerOfJoin(o: Options, w: World, e: Event, delayed: bool, g: u32, x: u64)
    requires e.JoinSession? && e.pid in w.conns && Member(Step(o, w.store, e), g, x)
    ensures OnlyAnnounced(o, w, e, Scheduled(o, w, e, delayed), g, x)
  {
    hide Full;
  }

  predicate Arrives(e: Event) {
    e.CreateSession? || e.AutoMatchmake? || e.JoinSession?
  }

  lemma {:induction false} NobodyArrives(o: Options, s: Store, e: Event, g: u32, x: u64)
    requires !Arrives(e) && Member(Step(o, s, e), g, x)
    ensures Member(s, g, x)
  {
    hide Drop, Newest, FirstMember, IndexOf, Unreachable, Successor, CodesOf;
    var s1 := Step(o, s, e);
    if g in s.rooms {
      var members := s.rooms[g].members;
      match e
      case SetParticipation(pid, gid, open, links) =>
        DropMembers(members, Unreachable(links, members, pid));
      case RemovePlayer(pid) => DropMembers(members, {pid});
      case EndParticipation(pid, gid) => DropMembers(members, {pid});
      case MigrateHosting(pid, links) =>
        var next := Successor(links, members, pid);
        if next.Some? {
          DropMembers(members, {next.value});
        }
      case _ =>
    }
  }

  lemma {:induction false} StepAnnounces(o: Options, w: World, e: Event, delayed: bool, g: u32, x: u64)
    requires Enabled(o, w, Handle(e, delayed)) && Member(Step(o, w.store, e), g, x)
    ensures OnlyAnnounced(o, w, e, Scheduled(o, w, e, delayed), g, x)
  {
    hide Step, Scheduled;
    if Arrives(e) {
      match e
      case CreateSession(_, _, _, _, _) => NewcomerOfCreate(o, w, e, delayed, g, x);
      case AutoMatchmake(_, _, _, _) => NewcomerOfSearch(o, w, e, delayed, g, x);
      case JoinSession(_, _) => NewcomerOfJoin(o, w, e, delayed, g, x);
    } else {
      NobodyArrives(o, w.store, e, g, x);
    }
  }

  /** Nobody's connection changes while it is in a room. */
  ghost predicate Calm(o: Options, ms: seq<Move>) {
    forall i :: 0 <= i < |ms| && (ms[i].Connect? || ms[i].Disconnect?) ==>
      InNoRoom(Play(o, ms[..i]).store, ms[i].pid)
  }

  ghost predicate AllSteady(w: World) {
    forall g: u32, x: u64 :: Member(w.store, g, x) ==> Steady(w, g, x)
  }

  lemma {:induction false} HandleKeepsAllSteady(o: Options, w: World, e: Event, delayed: bool)
    requires AllSteady(w) && Enabled(o, w, Handle(e, delayed))
    ensures AllSteady(Next(o, w, Handle(e, delayed)))
  {
    hide Step, Scheduled, Creates, Enabled, StillTold;
    var w1 := Next(o, w, Handle(e, delayed));
    forall g: u32, x: u64 | Member(w1.store, g, x) ensures Steady(w1, g, x) {
      StepAnnounces(o, w, e, delayed, g, x);
    }
  }

  lemma {:induction false} OthersKeepAllSteady(o: Options, w: World, m: Move)
    requires AllSteady(w) && !m.Handle?
    requires m.Connect? || m.Disconnect? ==> InNoRoom(w.store, m.pid)
    ensures AllSteady(Next(o, w, m))
  {
    hide Reached;
    assert forall g: u32, x: u64 :: Member(w.store, g, x) ==> Steady(w, g, x);
  }

  /** Where nobody reconnects inside a room every member is steady, so the two theorems above speak
      of all pairs of members. */
  lemma {:induction false} CalmMeansAllSteady(o: Options, ms: seq<Move>)
    requires Calm(o, ms)
    ensures AllSteady(Play(o, ms))
  {
    hide AllSteady, Next, Enabled, InNoRoom;
    if ms == [] {
      NobodyIn(o);
    } else {
      var before, m := ms[..|ms| - 1], ms[|ms| - 1];
      forall i | 0 <= i < |before| ensures before[..i] == ms[..i] {
      }
      CalmMeansAllSteady(o, before);
      var w := Play(o, before);
      if !Enabled(o, w, m) {
        DisabledMove(o, w, m);
      } else if m.Handle? {
        HandleKeepsAllSteady(o, w, m.e, m.delayed);
      } else {
        OthersKeepAllSteady(o, w, m);
      }
    }
  }

  lemma {:induction false} NobodyIn(o: Options)
    ensures AllSteady(Play(o, []))
  {
  }

  // ---- What a change of connection loses ------------------------------------------------------------

  /** The announcement still tells x of y after pid's connection changes: it is not a recap over the
      connection given up, nor a delayed announcement by the player who changed, and x is there. */
  predicate Outlives(w: World, n: Notice, m: Move, g: u32, x: u64, y: u64)
    requires m.Connect? || m.Disconnect?
  {
    && n.gid == g
    && ((n.caller == y && x in n.parts && (if x == m.pid then m.Connect? else x in w.conns)
         && (n.delayed ==> y != m.pid && Current(w, y, n.conn)))
        || (n.caller == x && y in n.parts && x != m.pid && Current(w, x, n.conn)))
  }

  /** When a player, in a room or not, disconnects or moves to a fresh connection, a pair stays
      covered exactly when it was told already or one of these announcements is on its way. */
  lemma {:induction false} ConnectionChangeLoses(o: Options, w: World, m: Move, g: u32, x: u64, y: u64)
    requires m.Disconnect? || (m.Connect? && forall n :: n in w.pending ==> n.conn != m.conn)
    ensures ToldOrPending(Next(o, w, m), g, x, y)
       <==> (g, x, y) in w.told || exists n :: n in w.pending && Outlives(w, n, m, g, x, y)
  {
    var w1 := Next(o, w, m);
    forall n | n in w.pending ensures WillTell(w1, n, g, x, y) <==> Outlives(w, n, m, g, x, y) {
    }
  }

  /** So a member who reconnects before its own delayed announcement is due is told of nobody by it,
      and nobody of that member. */
  lemma {:induction false} ReconnectionLosesNews(o: Options, w: World, n: Notice, conn: u32, y: u64)
    requires w.pending == multiset{n} && n.delayed && conn != n.conn
    requires (n.gid, n.caller, y) !in w.told && (n.gid, y, n.caller) !in w.told
    ensures var w1 := Next(o, w, Connect(n.caller, conn));
            w1.store == w.store && !ToldOrPending(w1, n.gid, n.caller, y) && !ToldOrPending(w1, n.gid, y, n.caller)
  {
    ConnectionChangeLoses(o, w, Connect(n.caller, conn), n.gid, n.caller, y);
    ConnectionChangeLoses(o, w, Connect(n.caller, conn), n.gid, y, n.caller);
  }
}
