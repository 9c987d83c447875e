/** What every run of matchmaking handlers keeps, in whatever order the rooms are visited. */
module MatchRuns {
  import opened Bytes
  import opened Lists
  import opened Structures
  import opened MatchCriteria
  import opened MatchStore

  // ---- Invariants -----------------------------------------------------------------------------

  /** The room carries its own id, lists each member once and announces their exact number. */
  predicate RoomOk(gid: u32, room: Room) {
    && room.session.gathering.id == gid
    && NoDup(room.members)
    && room.session.numParticipants == |room.members|
    && |room.members| < 0x1_0000
    && room.session.gathering.maxParticipants >= 1
  }

  predicate Inv(s: Store) {
    forall g :: g in s.rooms ==> g < s.nextGid && RoomOk(g, s.rooms[g])
  }

  /** No room holds more members than it announces. */
  predicate Within(s: Store) {
    forall g :: g in s.rooms ==> |s.rooms[g].members| <= s.rooms[g].session.gathering.maxParticipants
  }

  predicate Inhabited(s: Store) {
    forall g :: g in s.rooms ==> s.rooms[g].members != []
  }

  /** Both stores' rooms are those of s, some changed by a step that keeps all three properties. */
  predicate Gentle(gid: u32, old_: Room, room: Room) {
    && (RoomOk(gid, old_) ==> RoomOk(gid, room))
    && (|old_.members| <= old_.session.gathering.maxParticipants ==>
          |room.members| <= room.session.gathering.maxParticipants)
    && (old_.members != [] ==> room.members != [])
  }

  predicate GentleStep(s: Store, s1: Store) {
    && s1.nextGid == s.nextGid
    && forall g :: g in s1.rooms ==> g in s.rooms && Gentle(g, s.rooms[g], s1.rooms[g])
  }

  lemma {:induction false} GentleKeeps(s: Store, s1: Store)
    requires GentleStep(s, s1)
    ensures Inv(s) ==> Inv(s1)
    ensures Within(s) ==> Within(s1)
    ensures Inhabited(s) ==> Inhabited(s1)
  {
    hide RoomOk;
  }

  lemma {:induction false} EnteredOk(gid: u32, room: Room, pid: u64)
    requires RoomOk(gid, room)
    requires pid in room.members || |room.members| % 0x1_0000 < room.session.gathering.maxParticipants
    ensures RoomOk(gid, Entered(room, pid)) && Gentle(gid, room, Entered(room, pid))
    ensures Entered(room, pid).members == if pid in room.members then room.members else room.members + [pid]
  {
  }

  lemma {:induction false} ShrunkOk(gid: u32, room: Room, out: set<u64>)
    requires RoomOk(gid, room)
    ensures RoomOk(gid, WithCount(room.(members := Drop(room.members, out))))
    ensures |Drop(room.members, out)| <= |room.members|
  {
    hide Drop;
    DropMembers(room.members, out);
    DropNoDup(room.members, out);
  }

  /** A new room is well formed, and the store stays so exactly when the id counter has not
      reached its last value: there it wraps to zero, below every room. */
  lemma {:induction false} CreateKeepsInvIff(
    o: Options, s: Store, pid: u64, conn: u32, src: MatchmakeSession, key: bytes, now: u64)
    requires Inv(s)
    ensures Inv(Created(o, s, pid, conn, src, key, now)) <==> s.nextGid < U32_LIMIT - 1
    ensures Created(o, s, pid, conn, src, key, now).nextGid == (s.nextGid + 1) % U32_LIMIT
    ensures Within(s) ==> Within(Created(o, s, pid, conn, src, key, now))
    ensures Inhabited(s) ==> Inhabited(Created(o, s, pid, conn, src, key, now))
  {
    hide Padded;
    var s1 := Created(o, s, pid, conn, src, key, now);
    assert RoomOk(s.nextGid, s1.rooms[s.nextGid]);
    assert forall g :: g in s1.rooms && g != s.nextGid ==> g in s.rooms && s1.rooms[g] == s.rooms[g];
    assert s.nextGid == U32_LIMIT - 1 ==> s1.nextGid == 0;
  }

  lemma {:induction false} SessionCreatedKeeps(
    o: Options, s: Store, pid: u64, conn: u32, src: MatchmakeSession, key: bytes, now: u64)
    requires Inv(s) && s.nextGid < U32_LIMIT - 1
    ensures var s1 := SessionCreated(o, s, pid, conn, src, key, now);
            Inv(s1) && s1.nextGid == s.nextGid + 1 && (Within(s) ==> Within(s1)) && (Inhabited(s) ==> Inhabited(s1))
  {
    hide NewRoom, NormalizedRv;
    CreateKeepsInvIff(o, s, pid, conn, src, key, now);
    var s0 := Created(o, s, pid, conn, src, key, now);
    assert RoomOk(s.nextGid, s0.rooms[s.nextGid]);
  }

  lemma {:induction false} FoundRoomKeeps(o: Options, s: Store, q: Search, g: u32, key: bytes, now: u64)
    requires Inv(s) && g in s.rooms && Eligible(o, q, s.rooms[g])
    ensures GentleStep(s, AutoMatched(o, s, q, Some(g), key, now))
  {
    EnteredOk(g, s.rooms[g], q.pid);
    hide RoomOk, Entered, Eligible;
  }

  lemma {:induction false} OwnRoomKeeps(o: Options, s: Store, q: Search, key: bytes, now: u64)
    requires Inv(s) && s.nextGid < U32_LIMIT - 1
    ensures var s1 := AutoMatched(o, s, q, None, key, now);
            Inv(s1) && s1.nextGid == s.nextGid + 1
            && (Within(s) ==> Within(s1)) && (Inhabited(s) ==> Inhabited(s1))
  {
    hide NewRoom, Created;
    CreateKeepsInvIff(o, s, q.pid, q.conn, q.src, key, now);
    var s0 := Created(o, s, q.pid, q.conn, q.src, key, now);
    NewRoomMembers(o, s, q, key, now);
    assert RoomOk(s.nextGid, s0.rooms[s.nextGid]) && s0.rooms[s.nextGid].members == [q.pid];
  }

  lemma {:induction false} AutoMatchKeeps(o: Options, s: Store, q: Search, chosen: Option<u32>, key: bytes, now: u64)
    requires Inv(s) && ValidChoice(o, s, q, chosen) && (chosen.None? ==> s.nextGid < U32_LIMIT - 1)
    ensures var s1 := AutoMatched(o, s, q, chosen, key, now);
            Inv(s1) && s1.nextGid == s.nextGid + (if chosen.None? then 1 else 0)
            && (Within(s) ==> Within(s1)) && (Inhabited(s) ==> Inhabited(s1))
  {
    hide AutoMatched, Inv, Within, Inhabited, Eligible, OwnerOnline;
    if chosen.Some? {
      FoundRoomKeeps(o, s, q, chosen.value, key, now);
      GentleKeeps(s, AutoMatched(o, s, q, chosen, key, now));
    } else {
      OwnRoomKeeps(o, s, q, key, now);
    }
  }

  lemma {:induction false} NewRoomMembers(o: Options, s: Store, q: Search, key: bytes, now: u64)
    ensures NewRoom(o, s, q.pid, q.conn, q.src, key, now).members == [q.pid]
  {
  }

  lemma {:induction false} JoinIsGentle(s: Store, pid: u64, gid: u32)
    requires Inv(s)
    ensures GentleStep(s, JoinedStore(s, pid, gid))
  {
    if gid in s.rooms {
      if pid in s.rooms[gid].members || !Full(s.rooms[gid]) {
        EnteredOk(gid, s.rooms[gid], pid);
      }
    }
  }

  lemma {:induction false} HandOverIsGentle(s: Store, gid: u32, candidates: seq<u64>)
    ensures GentleStep(s, HandedOver(s, gid, candidates))
    ensures var s1 := HandedOver(s, gid, candidates);
            gid in s.rooms ==> gid in s1.rooms && multiset(s1.rooms[gid].members) == multiset(s.rooms[gid].members)
  {
    hide FirstMember, IndexOf;
    var s1 := HandedOver(s, gid, candidates);
    if gid in s.rooms && FirstMember(candidates, s.rooms[gid].members).Some? {
      var members := s.rooms[gid].members;
      var c := FirstMember(candidates, members).value;
      var i := IndexOf(members, c);
      assert s1.rooms[gid].members == members[0 := members[i]][i := members[0]];
    }
  }

  lemma {:induction false} RemovalIsGentle(o: Options, s: Store, pid: u64)
    requires Inv(s)
    ensures GentleStep(s, Removed(o, s, pid))
  {
    var s1 := Removed(o, s, pid);
    forall g | g in s1.rooms ensures g in s.rooms && Gentle(g, s.rooms[g], s1.rooms[g]) {
      hide Drop, RoomOk;
      ShrunkOk(g, s.rooms[g], {pid});
      OwnerIsNotCounted(g, WithCount(s.rooms[g].(members := Drop(s.rooms[g].members, {pid}))));
    }
  }

  /** Who owns and hosts a room does not matter to its being well formed. */
  lemma {:induction false} OwnerIsNotCounted(gid: u32, room: Room)
    requires RoomOk(gid, room)
    ensures forall owner, host ::
              var g := room.session.gathering.(ownerPid := owner, hostPid := host);
              RoomOk(gid, room.(session := room.session.(gathering := g)))
  {
  }

  lemma {:induction false} EndIsGentle(s: Store, pid: u64, gid: u32)
    requires Inv(s)
    ensures GentleStep(s, Ended(s, pid, gid))
  {
    if gid in s.rooms {
      hide Drop;
      ShrunkOk(gid, s.rooms[gid], {pid});
    }
  }

  lemma {:induction false} RehostIsGentle(s: Store, pid: u64, links: Links)
    requires Inv(s)
    ensures GentleStep(s, HostingMigrated(s, pid, links))
  {
    var s1 := HostingMigrated(s, pid, links);
    forall g | g in s1.rooms ensures g in s.rooms && Gentle(g, s.rooms[g], s1.rooms[g]) {
      hide Drop, Newest, Successor;
      var next := Successor(links, s.rooms[g].members, pid);
      if next.Some? {
        FrontKeepsNoDup(s.rooms[g].members, next.value);
      }
    }
  }

  lemma {:induction false} ParticipationKeepsInv(s: Store, pid: u64, gid: u32, open: bool, links: Links)
    requires Inv(s)
    ensures var s1 := Participation(s, pid, gid, open, links);
            Inv(s1) && s1.nextGid == s.nextGid && (Within(s) ==> Within(s1))
  {
    if gid in s.rooms {
      hide Drop, Unreachable;
      var room := s.rooms[gid].(session := s.rooms[gid].session.(openParticipation := open));
      assert RoomOk(gid, room);
      ShrunkOk(gid, room, Unreachable(links, room.members, pid));
    }
  }

  /** Closing empties a room exactly when an outsider closes it and no member can be reached. */
  lemma {:induction false} CloseKeepsInhabitedIff(s: Store, pid: u64, gid: u32, open: bool, links: Links)
    requires Inhabited(s)
    ensures Inhabited(Participation(s, pid, gid, open, links))
            <==> open || gid !in s.rooms || pid in s.rooms[gid].members
                 || exists p :: p in s.rooms[gid].members && Online(links, p)
  {
    hide Online;
    if gid in s.rooms && !open {
      var members := s.rooms[gid].members;
      var out := Unreachable(links, members, pid);
      var s1 := Participation(s, pid, gid, open, links);
      DropMembers(members, out);
      DropEverybodyIff(members, out);
      if out == {} {
        DropNobody(members, out);
      }
      hide Drop;
      assert forall g :: g in s1.rooms && g != gid ==> s1.rooms[g].members != [];
      assert s1.rooms[gid].members == Drop(members, out);
      if pid in members {
        assert pid in Drop(members, out);
      } else if p :| p in members && Online(links, p) {
        assert p in Drop(members, out);
      } else {
        assert forall x :: x in members ==> x in out;
        assert gid in s1.rooms && s1.rooms[gid].members == [];
      }
    }
  }

  /** A partial update keeps the store well formed, and keeps rooms within their maximum exactly
      when it does not announce fewer places than there are members. */
  lemma {:induction false} PartKeepsWithinIff(s: Store, p: Part)
    requires Inv(s)
    ensures Inv(PartApplied(s, p)) && PartApplied(s, p).nextGid == s.nextGid
    ensures Inhabited(s) ==> Inhabited(PartApplied(s, p))
    ensures Within(s) ==> (Within(PartApplied(s, p)) <==> !Lowers(s, p))
  {
    if p.gid in s.rooms {
      var s1 := PartApplied(s, p);
      assert RoomOk(p.gid, s1.rooms[p.gid]);
      assert forall g :: g in s1.rooms && g != p.gid ==> s1.rooms[g] == s.rooms[g];
      assert p.gid in s1.rooms;
    }
  }

  predicate Lowers(s: Store, p: Part) {
    p.gid in s.rooms && 0 < p.maxParticipants < |s.rooms[p.gid].members|
  }

  // ---- Runs -----------------------------------------------------------------------------------

  datatype Event =
    | CreateSession(pid: u64, conn: u32, src: MatchmakeSession, key: bytes, now: u64)
    | AutoMatchmake(q: Search, chosen: Option<u32>, key: bytes, now: u64)
    | JoinSession(pid: u64, gid: u32)
    | SetParticipation(pid: u64, gid: u32, open: bool, links: Links)
    | MigrateOwnership(gid: u32, candidates: seq<u64>)
    | RemovePlayer(pid: u64)
    | EndParticipation(pid: u64, gid: u32)
    | Unregister(pid: u64, gid: u32)
    | MigrateHosting(pid: u64, links: Links)
    | UpdatePart(part: Part)

  /** Any choice the search could make; an impossible one is not an event. */
  ghost predicate Possible(o: Options, s: Store, e: Event) {
    e.AutoMatchmake? ==> ValidChoice(o, s, e.q, e.chosen)
  }

  ghost predicate Creates(o: Options, s: Store, e: Event) {
    Possible(o, s, e) && (e.CreateSession? || (e.AutoMatchmake? && e.chosen.None?))
  }

  ghost function Step(o: Options, s: Store, e: Event): Store {
    if !Possible(o, s, e) then s
    else
      match e
      case CreateSession(pid, conn, src, key, now) => SessionCreated(o, s, pid, conn, src, key, now)
      case AutoMatchmake(q, chosen, key, now) => AutoMatched(o, s, q, chosen, key, now)
      case JoinSession(pid, gid) => JoinedStore(s, pid, gid)
      case SetParticipation(pid, gid, open, links) => Participation(s, pid, gid, open, links)
      case MigrateOwnership(gid, candidates) => HandedOver(s, gid, candidates)
      case RemovePlayer(pid) => Removed(o, s, pid)
      case EndParticipation(pid, gid) => Ended(s, pid, gid)
      case Unregister(pid, gid) => Unregistered(s, pid, gid)
      case MigrateHosting(pid, links) => HostingMigrated(s, pid, links)
      case UpdatePart(p) => PartApplied(s, p)
  }

  ghost function RunAll(o: Options, es: seq<Event>): Store {
    if es == [] then Start() else Step(o, RunAll(o, es[..|es| - 1]), es[|es| - 1])
  }

  ghost function Creations(o: Options, es: seq<Event>): nat {
    if es == [] then 0
    else
      Creations(o, es[..|es| - 1])
      + if Creates(o, RunAll(o, es[..|es| - 1]), es[|es| - 1]) then 1 else 0
  }

  lemma {:induction false} UnregisterIsGentle(s: Store, pid: u64, gid: u32)
    ensures GentleStep(s, Unregistered(s, pid, gid))
  {
  }

  predicate IsGentle(e: Event) {
    || e.JoinSession? || e.MigrateOwnership? || e.RemovePlayer?
    || e.EndParticipation? || e.Unregister? || e.MigrateHosting?
  }

  lemma {:induction false} GentleEvents(o: Options, s: Store, e: Event)
    requires Inv(s) && IsGentle(e)
    ensures GentleStep(s, Step(o, s, e))
  {
    hide GentleStep, Inv, JoinedStore, HandedOver, Removed, Ended, Unregistered, HostingMigrated;
    match e
    case JoinSession(pid, gid) => JoinIsGentle(s, pid, gid);
    case MigrateOwnership(gid, candidates) => HandOverIsGentle(s, gid, candidates);
    case RemovePlayer(pid) => RemovalIsGentle(o, s, pid);
    case EndParticipation(pid, gid) => EndIsGentle(s, pid, gid);
    case Unregister(pid, gid) => UnregisterIsGentle(s, pid, gid);
    case MigrateHosting(pid, links) => RehostIsGentle(s, pid, links);
  }

  /** An event after which a room may hold more members than it announces, or none. */
  ghost predicate LowersAt(s: Store, e: Event) {
    e.UpdatePart? && Lowers(s, e.part)
  }

  ghost predicate EmptiesAt(s: Store, e: Event) {
    e.SetParticipation? && !e.open && e.gid in s.rooms && e.pid !in s.rooms[e.gid].members
  }

  lemma {:induction false} StepKeeps(o: Options, s: Store, e: Event)
    requires Inv(s) && (Creates(o, s, e) ==> s.nextGid < U32_LIMIT - 1)
    ensures var s1 := Step(o, s, e);
            && Inv(s1) && s1.nextGid == s.nextGid + (if Creates(o, s, e) then 1 else 0)
            && (Within(s) && !LowersAt(s, e) ==> Within(s1))
            && (Inhabited(s) && !EmptiesAt(s, e) ==> Inhabited(s1))
  {
    hide Inv, Within, Inhabited, GentleStep, ValidChoice, SessionCreated, AutoMatched, Participation, PartApplied;
    if IsGentle(e) {
      GentleEvents(o, s, e);
      GentleKeeps(s, Step(o, s, e));
      GentleNextGid(s, Step(o, s, e));
    } else if Possible(o, s, e) {
      match e
      case CreateSession(pid, conn, src, key, now) => SessionCreatedKeeps(o, s, pid, conn, src, key, now);
      case AutoMatchmake(q, chosen, key, now) => AutoMatchKeeps(o, s, q, chosen, key, now);
      case SetParticipation(pid, gid, open, links) =>
        ParticipationKeepsInv(s, pid, gid, open, links);
        if Inhabited(s) {
          CloseKeepsInhabitedIff(s, pid, gid, open, links);
        }
      case UpdatePart(p) => PartKeepsWithinIff(s, p);
    }
  }

  lemma {:induction false} GentleNextGid(s: Store, s1: Store)
    requires GentleStep(s, s1)
    ensures s1.nextGid == s.nextGid
  {
  }

  /** After every run that creates fewer than 2^32 - 1 gatherings, each room is stored under its
      own id, below the next id; lists each member once; and announces exactly how many there
      are, a number that fits the 16-bit comparisons. */
  lemma {:induction false} StoreInvariant(o: Options, es: seq<Event>)
    requires Creations(o, es) < U32_LIMIT - 1
    ensures Inv(RunAll(o, es)) && RunAll(o, es).nextGid == 1 + Creations(o, es)
  {
    hide Inv, Step, Creates;
    if es == [] {
      NothingStored();
    } else {
      StoreInvariant(o, es[..|es| - 1]);
      StepKeeps(o, RunAll(o, es[..|es| - 1]), es[|es| - 1]);
    }
  }

  lemma {:induction false} NothingStored()
    ensures Inv(Start()) && Within(Start()) && Inhabited(Start())
  {
  }

  ghost predicate Never(o: Options, es: seq<Event>, bad: (Store, Event) -> bool) {
    forall i :: 0 <= i < |es| ==> !bad(RunAll(o, es[..i]), es[i])
  }

  lemma {:induction false} NeverBefore(o: Options, es: seq<Event>, bad: (Store, Event) -> bool)
    requires es != [] && Never(o, es, bad)
    ensures Never(o, es[..|es| - 1], bad) && !bad(RunAll(o, es[..|es| - 1]), es[|es| - 1])
  {
    var before := es[..|es| - 1];
    forall i | 0 <= i < |before| ensures !bad(RunAll(o, before[..i]), before[i]) {
      assert before[..i] == es[..i] && before[i] == es[i];
    }
  }

  /** As long as no partial update announces fewer places than there are members, no room ever
      holds more members than it announces. */
  lemma {:induction false} RoomsStayWithin(o: Options, es: seq<Event>)
    requires Creations(o, es) < U32_LIMIT - 1 && Never(o, es, (s, e) => LowersAt(s, e))
    ensures Within(RunAll(o, es))
  {
    hide Inv, Step, Creates, LowersAt, Within, Never;
    if es == [] {
      NothingStored();
    } else {
      NeverBefore(o, es, (s, e) => LowersAt(s, e));
      RoomsStayWithin(o, es[..|es| - 1]);
      StoreInvariant(o, es[..|es| - 1]);
      StoreInvariant(o, es);
      StepKeeps(o, RunAll(o, es[..|es| - 1]), es[|es| - 1]);
    }
  }

  /** As long as rooms are closed by their own members, no room is ever empty. */
  lemma {:induction false} RoomsStayInhabited(o: Options, es: seq<Event>)
    requires Creations(o, es) < U32_LIMIT - 1 && Never(o, es, (s, e) => EmptiesAt(s, e))
    ensures Inhabited(RunAll(o, es))
  {
    hide Inv, Step, Creates, EmptiesAt, Inhabited, Never;
    if es == [] {
      NothingStored();
    } else {
      NeverBefore(o, es, (s, e) => EmptiesAt(s, e));
      RoomsStayInhabited(o, es[..|es| - 1]);
      StoreInvariant(o, es[..|es| - 1]);
      StoreInvariant(o, es);
      StepKeeps(o, RunAll(o, es[..|es| - 1]), es[|es| - 1]);
    }
  }
}
