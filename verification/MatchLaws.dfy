/** What departures, host migration and the automatic search guarantee. */
module MatchLaws {
  import opened Bytes
  import opened Lists
  import opened MatchCriteria
  import opened MatchStore
  import opened MatchRuns

  // ---- A player leaves ------------------------------------------------------------------------

  predicate HasOther(room: Room, pid: u64) {
    exists p :: p in room.members && p != pid
  }

  /** The title announces departures and the room's flags have bit 0x10. */
  predicate MayMigrate(o: Options, room: Room) {
    o.notifyDepartures && room.session.gathering.flags / 16 % 2 == 1
  }

  lemma {:induction false} MigratesIff(o: Options, room: Room)
    ensures Migrates(o, room) <==> MayMigrate(o, room)
  {
  }

  lemma {:induction false} NobodyLeft(room: Room, pid: u64)
    ensures Drop(room.members, {pid}) == [] <==> !HasOther(room, pid)
  {
    DropEverybodyIff(room.members, {pid});
  }

  /** RemovePlayer: the player is in no room; a room goes exactly when nobody else is left in it
      or its owner leaves and migration is off or unflagged; the other members keep their order;
      a departed owner is replaced, as owner and host, by the first of them; and nothing else
      about any room changes. */
  lemma {:induction false} RemovalLaw(o: Options, s: Store, pid: u64, g: u32)
    requires pid != 0 && g in s.rooms
    ensures var before := s.rooms[g];
            var rooms := Removed(o, s, pid).rooms;
            var owned := before.session.gathering.ownerPid == pid;
            && (g in rooms <==> pid !in before.members || (HasOther(before, pid) && (owned ==> MayMigrate(o, before))))
            && (pid !in before.members ==> rooms[g] == before)
            && (g in rooms ==> pid !in rooms[g].members)
            && (g in rooms && pid in before.members ==>
                  var after := rooms[g];
                  var head := after.members[0];
                  && after.members == Drop(before.members, {pid}) && after.members != []
                  && after.session.numParticipants == |after.members| % U32_LIMIT
                  && after.session.gathering
                     == (if owned then before.session.gathering.(ownerPid := head, hostPid := head)
                         else before.session.gathering)
                  && after.hostConn == before.hostConn && after.code == before.code)
    ensures Removed(o, s, pid).rooms.Keys <= s.rooms.Keys
  {
    NobodyLeft(s.rooms[g], pid);
    MigratesIff(o, s.rooms[g]);
    DropMembers(s.rooms[g].members, {pid});
    hide Drop, HasOther, Migrates, MayMigrate;
  }

  /** When the owner of a room leaves others behind, the room is handed over or deleted. */
  lemma {:induction false} DepartureFate(o: Options, s: Store, pid: u64, g: u32)
    requires pid != 0 && g in s.rooms && OwnerLeaves(s.rooms[g], pid) && HasOther(s.rooms[g], pid)
    ensures var rooms := Removed(o, s, pid).rooms;
            && (g in rooms <==> MayMigrate(o, s.rooms[g]))
            && (g in Migrations(o, s.rooms, pid) <==> g in rooms)
            && (g in rooms ==>
                  && Migrations(o, s.rooms, pid)[g] == rooms[g] && rooms[g].members != []
                  && rooms[g].members == Drop(s.rooms[g].members, {pid})
                  && rooms[g].session.gathering.ownerPid == rooms[g].members[0])
            && (g in Orphans(o, s.rooms, pid) <==> g !in rooms && o.ownerLeaveUnregisters)
            && (g in Orphans(o, s.rooms, pid) ==> Orphans(o, s.rooms, pid)[g] == Drop(s.rooms[g].members, {pid}))
  {
    NobodyLeft(s.rooms[g], pid);
    hide Drop, HasOther;
  }

  /** A list without repetitions names the player of a connection at most once, and then only by
      that player's newest connection. */
  lemma {:induction false} CopiesOnce(list: seq<u64>, links: Links, conn: u32, x: u64)
    requires NoDup(list) && Owns(links, conn, x)
    ensures Copies(list, links, conn) == if x in list && Newest(links, x) == Some(conn) then 1 else 0
  {
    hide Newest;
    if list != [] {
      var before, last := list[..|list| - 1], list[|list| - 1];
      assert list == before + [last] && last !in before;
      CopiesOnce(before, links, conn, x);
      if Newest(links, last) == Some(conn) {
        assert Owns(links, conn, last);
      }
    }
  }

  /** What everyone left behind by an owner should be told, if anything. */
  function RightNews(o: Options, room: Room, head: u64): Option<About> {
    if MayMigrate(o, room) then Some(NewOwner(head))
    else if o.ownerLeaveUnregisters then Some(RoomGone)
    else None
  }

  /** The owner of a room leaves and x stays. On each connection of x the fate of the room is
      announced exactly once if it is x's newest one, the announcement is the right one (the new
      owner where the room migrates, its end where it does not and the title wants that told) and
      never otherwise: so an offline member hears nothing, nor does anyone when the room is deleted
      by a title that does not announce it. */
  lemma {:induction false} DepartureNotices(
    o: Options, s: Store, pid: u64, links: Links, later: Links, g: u32, x: u64, conn: u32, about: About)
    requires Inv(s) && pid != 0 && g in s.rooms && OwnerLeaves(s.rooms[g], pid)
    requires x in s.rooms[g].members && x != pid && Owns(later, conn, x) && !about.MemberLeft?
    ensures var rest := Drop(s.rooms[g].members, {pid});
            && rest != []
            && DepartureSends(o, s.rooms, pid, links, later, DepartureNotice(conn, g, about))
               == if Newest(later, x) == Some(conn) && RightNews(o, s.rooms[g], rest[0]) == Some(about)
                  then 1 else 0
  {
    hide Newest, Copies, Migrations, Orphans, OwnersTold, Removed, MayMigrate, Drop;
    var rest := Drop(s.rooms[g].members, {pid});
    assert HasOther(s.rooms[g], pid);
    DepartureFate(o, s, pid, g);
    DropNoDup(s.rooms[g].members, {pid});
    DropMembers(s.rooms[g].members, {pid});
    CopiesOnce(rest, later, conn, x);
  }

  /** The owner of a surviving room, the new one if the owner left, is told that the player went:
      exactly once, on the connection that was its newest under the lock, where the title announces
      departures; no other connection is. */
  lemma {:induction false} OwnerHearsOfDeparture(
    o: Options, s: Store, pid: u64, links: Links, later: Links, g: u32, conn: u32)
    requires pid != 0
    ensures DepartureSends(o, s.rooms, pid, links, later, DepartureNotice(conn, g, MemberLeft))
            == if g in s.rooms && LosesOne(o, s.rooms[g], pid)
                  && Newest(links, OwnerLeft(s.rooms[g], pid)) == Some(conn) then 1 else 0
    ensures g in s.rooms && LosesOne(o, s.rooms[g], pid)
        ==> g in Removed(o, s, pid).rooms
            && Removed(o, s, pid).rooms[g].session.gathering.ownerPid == OwnerLeft(s.rooms[g], pid)
  {
    hide Newest, Copies, Migrations, Orphans, Migrates, Drop, HasOther;
    if g in s.rooms {
      RemovalLaw(o, s, pid, g);
      NobodyLeft(s.rooms[g], pid);
    }
  }

  /** The player was in the room, and the room survives in a title that announces departures. */
  predicate LosesOne(o: Options, room: Room, pid: u64) {
    o.notifyDepartures && pid in room.members && HasOther(room, pid)
    && (room.session.gathering.ownerPid == pid ==> MayMigrate(o, room))
  }

  /** Who owns the room once the player is gone. */
  function OwnerLeft(room: Room, pid: u64): u64
    requires HasOther(room, pid)
  {
    NobodyLeft(room, pid);
    if room.session.gathering.ownerPid == pid then Drop(room.members, {pid})[0]
    else room.session.gathering.ownerPid
  }

  lemma {:induction false} CopiesOfMembers(list: seq<u64>, links: Links, conn: u32)
    requires Copies(list, links, conn) > 0
    ensures exists x :: x in list && Newest(links, x) == Some(conn)
  {
    hide Newest;
    var last := list[|list| - 1];
    if Newest(links, last) == Some(conn) {
      assert last in list;
    } else {
      CopiesOfMembers(list[..|list| - 1], links, conn);
    }
  }

  /** Nobody else hears of it: whatever is announced about a room goes to the newest connection of
      a member other than the one who left. */
  lemma {:induction false} OnlyMembersHear(
    o: Options, s: Store, pid: u64, links: Links, later: Links, n: DepartureNotice)
    requires DepartureSends(o, s.rooms, pid, links, later, n) > 0 && !n.about.MemberLeft?
    ensures n.gid in s.rooms && OwnerLeaves(s.rooms[n.gid], pid)
    ensures exists x :: x in s.rooms[n.gid].members && x != pid && Newest(later, x) == Some(n.conn)
  {
    hide Newest, Copies, Drop, OwnersTold, Migrations, Orphans, OwnerLeaves;
    WhoIsTold(o, s.rooms, pid, n.gid);
    var members := s.rooms[n.gid].members;
    DropMembers(members, {pid});
    CopiesOfMembers(Drop(members, {pid}), later, n.conn);
  }

  lemma {:induction false} WhoIsTold(o: Options, rooms: Rooms, pid: u64, g: u32)
    ensures g in Migrations(o, rooms, pid) ==>
              g in rooms && OwnerLeaves(rooms[g], pid)
              && Migrations(o, rooms, pid)[g].members == Drop(rooms[g].members, {pid})
    ensures g in Orphans(o, rooms, pid) ==>
              g in rooms && OwnerLeaves(rooms[g], pid)
              && Orphans(o, rooms, pid)[g] == Drop(rooms[g].members, {pid})
  {
    hide Drop, Migrates;
  }

  /** One player leaving one room, which may already be gone. */
  function Leave(o: Options, room: Option<Room>, pid: u64): Option<Room> {
    if room.None? then None
    else if pid in room.value.members then LeftRoom(o, room.value, pid)
    else room
  }

  lemma {:induction false} DropHead(list: seq<u64>, out: set<u64>)
    requires list != [] && list[0] !in out
    ensures Drop(list, out) != [] && Drop(list, out)[0] == list[0]
  {
    if |list| > 1 {
      DropHead(list[..|list| - 1], out);
    }
  }

  lemma {:induction false} DropPair(list: seq<u64>, p: u64, q: u64)
    ensures Drop(Drop(list, {p}), {q}) == Drop(Drop(list, {q}), {p})
  {
    DropTwice(list, {p}, {q});
    DropTwice(list, {q}, {p});
    assert {p} + {q} == {q} + {p};
  }

  /** The departing owner hands the room to whoever would head it after both departures. */
  lemma {:induction false} OwnerFirst(o: Options, room: Room, p: u64, q: u64)
    requires p in room.members && q in room.members && p != q && room.session.gathering.ownerPid == p
    ensures Leave(o, Leave(o, Some(room), p), q) == Leave(o, Leave(o, Some(room), q), p)
  {
    hide Drop;
    DropPair(room.members, p, q);
    DropMembers(room.members, {p});
    DropMembers(room.members, {q});
    var rest := Drop(room.members, {p});
    if rest != [] && rest[0] != q {
      DropHead(rest, {q});
    }
  }

  lemma {:induction false} LeavesCommute(o: Options, room: Room, p: u64, q: u64)
    ensures Leave(o, Leave(o, Some(room), p), q) == Leave(o, Leave(o, Some(room), q), p)
  {
    hide Drop;
    DropMembers(room.members, {p});
    DropMembers(room.members, {q});
    if p in room.members && q in room.members && p != q {
      if room.session.gathering.ownerPid == p {
        OwnerFirst(o, room, p, q);
      } else if room.session.gathering.ownerPid == q {
        OwnerFirst(o, room, q, p);
      } else {
        DropPair(room.members, p, q);
      }
    }
  }

  lemma {:induction false} RemovedByLeave(o: Options, s: Store, pid: u64)
    requires pid != 0
    ensures var s1 := Removed(o, s, pid);
            && (forall g :: g in s1.rooms <==> g in s.rooms && Leave(o, Some(s.rooms[g]), pid).Some?)
            && (forall g :: g in s1.rooms ==> Leave(o, Some(s.rooms[g]), pid) == Some(s1.rooms[g]))
            && (forall c :: c in s1.byCode <==> c in s.byCode && !CodeDies(o, s, pid, c))
            && (forall c :: c in s1.byCode ==> s1.byCode[c] == s.byCode[c])
            && s1.nextGid == s.nextGid
  {
    hide LeftRoom;
    assert forall c :: c in CodesOf(s.rooms, Emptied(o, s.rooms, pid)) <==> CodeDies(o, s, pid, c);
  }

  /** A deleted room takes its code with it. */
  predicate CodeDies(o: Options, s: Store, pid: u64, c: bytes) {
    exists g :: g in s.rooms && Leave(o, Some(s.rooms[g]), pid).None? && s.rooms[g].code != [] && s.rooms[g].code == c
  }

  lemma {:induction false} LeaveKeepsCode(o: Options, room: Room, pid: u64)
    ensures Leave(o, Some(room), pid).Some? ==> Leave(o, Some(room), pid).value.code == room.code
  {
  }

  predicate DiesTwice(o: Options, room: Room, p: u64, q: u64, c: bytes) {
    room.code != [] && room.code == c && Leave(o, Leave(o, Some(room), p), q).None?
  }

  predicate CodeDiesTwice(o: Options, s: Store, p: u64, q: u64, c: bytes) {
    exists g :: g in s.rooms && DiesTwice(o, s.rooms[g], p, q, c)
  }

  lemma {:induction false} CodesAfterTwo(o: Options, s: Store, p: u64, q: u64, c: bytes)
    requires p != 0 && q != 0
    ensures CodeDies(o, s, p, c) || CodeDies(o, Removed(o, s, p), q, c) <==> CodeDiesTwice(o, s, p, q, c)
  {
    hide LeftRoom;
    var s1 := Removed(o, s, p);
    RemovedByLeave(o, s, p);
    forall g | g in s.rooms {
      LeaveKeepsCode(o, s.rooms[g], p);
    }
    hide Removed;
    if CodeDiesTwice(o, s, p, q, c) {
      var g :| g in s.rooms && DiesTwice(o, s.rooms[g], p, q, c);
      if g in s1.rooms {
        assert Leave(o, Some(s1.rooms[g]), q).None?;
      }
    }
    if CodeDies(o, s1, q, c) {
      var g :| g in s1.rooms && Leave(o, Some(s1.rooms[g]), q).None? && s1.rooms[g].code != [] && s1.rooms[g].code == c;
      assert Leave(o, Leave(o, Some(s.rooms[g]), p), q).None? && s.rooms[g].code == c;
    }
    if CodeDies(o, s, p, c) {
      var g :| g in s.rooms && Leave(o, Some(s.rooms[g]), p).None? && s.rooms[g].code != [] && s.rooms[g].code == c;
      assert Leave(o, Leave(o, Some(s.rooms[g]), p), q).None?;
    }
  }

  lemma {:induction false} RoomsCommute(o: Options, s: Store, p: u64, q: u64)
    requires p != 0 && q != 0
    ensures Removed(o, Removed(o, s, p), q).rooms == Removed(o, Removed(o, s, q), p).rooms
  {
    hide Leave, Removed;
    RemovedByLeave(o, s, p);
    RemovedByLeave(o, s, q);
    RemovedByLeave(o, Removed(o, s, p), q);
    RemovedByLeave(o, Removed(o, s, q), p);
    var pq, qp := Removed(o, Removed(o, s, p), q), Removed(o, Removed(o, s, q), p);
    forall g | g in s.rooms
      ensures (g in pq.rooms <==> g in qp.rooms) && (g in pq.rooms ==> pq.rooms[g] == qp.rooms[g])
    {
      LeavesCommute(o, s.rooms[g], p, q);
      assert g in Removed(o, s, p).rooms || Leave(o, Leave(o, Some(s.rooms[g]), p), q).None? by { LeaveNone(o, q); }
      assert g in Removed(o, s, q).rooms || Leave(o, Leave(o, Some(s.rooms[g]), q), p).None? by { LeaveNone(o, p); }
    }
  }

  lemma {:induction false} LeaveNone(o: Options, pid: u64)
    ensures Leave(o, None, pid) == None
  {
  }

  lemma {:induction false} CodesCommute(o: Options, s: Store, p: u64, q: u64)
    requires p != 0 && q != 0
    ensures Removed(o, Removed(o, s, p), q).byCode == Removed(o, Removed(o, s, q), p).byCode
  {
    hide Leave, Removed, CodeDies, CodeDiesTwice;
    RemovedByLeave(o, s, p);
    RemovedByLeave(o, s, q);
    RemovedByLeave(o, Removed(o, s, p), q);
    RemovedByLeave(o, Removed(o, s, q), p);
    var pq, qp := Removed(o, Removed(o, s, p), q), Removed(o, Removed(o, s, q), p);
    forall c
      ensures (c in pq.byCode <==> c in qp.byCode) && (c in pq.byCode ==> pq.byCode[c] == qp.byCode[c])
    {
      CodesAfterTwo(o, s, p, q, c);
      CodesAfterTwo(o, s, q, p, c);
      DyingCommutes(o, s, p, q, c);
    }
  }

  /** Departures commute: whichever of two disconnections is handled first, the store is the
      same. */
  lemma {:induction false} RemovalsCommute(o: Options, s: Store, p: u64, q: u64)
    ensures Removed(o, Removed(o, s, p), q) == Removed(o, Removed(o, s, q), p)
  {
    if p != 0 && q != 0 {
      RoomsCommute(o, s, p, q);
      CodesCommute(o, s, p, q);
    }
    hide LeftRooms, Emptied, CodesOf;
  }

  lemma {:induction false} DyingCommutes(o: Options, s: Store, p: u64, q: u64, c: bytes)
    ensures CodeDiesTwice(o, s, p, q, c) <==> CodeDiesTwice(o, s, q, p, c)
  {
    hide Leave;
    forall g | g in s.rooms {
      LeavesCommute(o, s.rooms[g], p, q);
    }
  }

  // ---- The host becomes unreachable -----------------------------------------------------------

  predicate HostedBy(room: Room, pid: u64) {
    room.session.gathering.hostPid == pid || room.session.gathering.ownerPid == pid
  }

  ghost predicate HasReachableOther(links: Links, room: Room, pid: u64) {
    exists p :: p in room.members && p != pid && Online(links, p)
  }

  /** The first member, other than this player, that is connected. */
  ghost predicate IsNextHost(links: Links, members: seq<u64>, pid: u64, head: u64) {
    exists i :: 0 <= i < |members| && members[i] == head && head != pid
                && forall j :: 0 <= j < i ==> members[j] == pid || forall id: u32 :: !Owns(links, id, members[j])
  }

  lemma {:induction false} SuccessorIsNext(links: Links, members: seq<u64>, pid: u64)
    ensures var next := Successor(links, members, pid);
            next.Some? ==> IsNextHost(links, members, pid, next.value)
  {
    hide Newest;
    if members != [] {
      if members[0] != pid && Online(links, members[0]) {
        assert members[0] == Successor(links, members, pid).value;
      } else {
        SuccessorIsNext(links, members[1..], pid);
        var next := Successor(links, members[1..], pid);
        if next.Some? {
          var i :| 0 <= i < |members[1..]| && members[1..][i] == next.value
                   && forall j :: 0 <= j < i ==> members[1..][j] == pid
                                                 || forall id: u32 :: !Owns(links, id, members[1..][j]);
          assert members[i + 1] == next.value;
          forall j | 0 <= j < i + 1 ensures members[j] == pid || forall id: u32 :: !Owns(links, id, members[j]) {
            if j > 0 {
              assert members[1..][j - 1] == members[j];
            }
          }
        }
      }
    }
  }

  /** Host migration loses no member and no room; afterwards the unreachable player hosts or owns
      a room exactly when it did and no other member can be reached; and every room taken over is
      hosted, owned and headed by the first other member that can be, over that member's newest
      connection. */
  lemma {:induction false} HostingLaw(s: Store, pid: u64, links: Links, g: u32)
    requires Inv(s) && pid != 0 && g in s.rooms
    ensures var before := s.rooms[g];
            g in HostingMigrated(s, pid, links).rooms
            && var after := HostingMigrated(s, pid, links).rooms[g];
            && multiset(after.members) == multiset(before.members)
            && (HostedBy(after, pid) <==> HostedBy(before, pid) && !HasReachableOther(links, before, pid))
            && (if HostedBy(before, pid) && HasReachableOther(links, before, pid)
                then after.members != []
                     && var head := after.members[0];
                        IsNextHost(links, before.members, pid, head)
                        && after.session.gathering.hostPid == head && after.session.gathering.ownerPid == head
                        && IsNewest(links, after.hostConn, head)
                else after == before)
  {
    hide Drop, Newest;
    var room := s.rooms[g];
    var next := Successor(links, room.members, pid);
    if next.Some? {
      FrontIsPermutation(room.members, next.value);
      assert Newest(links, next.value).Some?;
    }
    SuccessorIsNext(links, room.members, pid);
    hide Successor, IsNextHost;
    assert HostingMigrated(s, pid, links).rooms[g] == Rehosted(links, room, pid);
  }

  /** Moving the host's rooms first protects them: when the grace period ends and the player is
      removed, every room in which somebody else could be reached survives, even where the title
      has no owner migration. */
  lemma {:induction false} HostingSavesRooms(o: Options, s: Store, pid: u64, links: Links, g: u32)
    requires Inv(s) && pid != 0 && g in s.rooms && HasReachableOther(links, s.rooms[g], pid)
    ensures var rooms := Removed(o, HostingMigrated(s, pid, links), pid).rooms;
            g in rooms && forall p :: p in rooms[g].members <==> p in s.rooms[g].members && p != pid
  {
    hide Online, Newest, HostingMigrated, Removed, Drop, LeftRoom, Migrates;
    HostingLaw(s, pid, links, g);
    var moved := HostingMigrated(s, pid, links);
    RemovalLaw(o, moved, pid, g);
    var p :| p in s.rooms[g].members && p != pid && Online(links, p);
    var before, after := s.rooms[g], moved.rooms[g];
    forall x ensures x in after.members <==> x in before.members {
      assert multiset(after.members)[x] == multiset(before.members)[x];
    }
    assert p in after.members;
    DropMembers(after.members, {pid});
  }

  // ---- The automatic search -------------------------------------------------------------------

  /** The room suits the search: same mode, open, a place free, the same non-empty password if it
      has one, a criterion met where the title uses them, and every connected other member one the
      searcher can punch through to. */
  ghost predicate Suits(o: Options, q: Search, room: Room) {
    var x := room.session;
    && x.gameMode == q.src.gameMode && x.openParticipation
    && |room.members| < x.gathering.maxParticipants
    && (x.userPasswordEnabled ==>
          q.src.userPasswordEnabled && x.userPassword == q.src.userPassword && |x.userPassword| > 0)
    && (o.useCriteria && |q.criteria| > 0 ==>
          exists i :: 0 <= i < |q.criteria| && CriterionAccepts(q.criteria[i], x, |room.members|))
    && ReachesAll(q.links, q.mapping, q.filtering, room.members, q.pid)
  }

  lemma {:induction false} EligibleSuits(o: Options, q: Search, room: Room)
    requires |room.members| < 0x1_0000
    ensures Eligible(o, q, room) <==> Suits(o, q, room)
  {
    hide CriterionAccepts, GatheringCompatible, ReachesAll;
    CompatibleReaches(q.links, q.mapping, q.filtering, room.members, q.pid);
  }

  /** Somebody connected owns the room. */
  ghost predicate OwnerConnected(q: Search, room: Room) {
    exists id: u32 :: Owns(q.links, id, room.session.gathering.ownerPid)
  }

  /** Whatever order the rooms are visited in, the caller ends up in the destination, whose other
      members it found there in order and whose announced number is exact; an existing room is
      left alone except for that; a new one is opened exactly when no room suits it (always,
      for an isolated player), and then the caller is alone in no other: such rooms go, with
      their codes. */
  lemma {:induction false} AutoMatchLaw(o: Options, s: Store, q: Search, chosen: Option<u32>, key: bytes, now: u64)
    requires Inv(s) && ValidChoice(o, s, q, chosen) && (chosen.None? ==> s.nextGid < U32_LIMIT - 1)
    ensures var s1 := AutoMatched(o, s, q, chosen, key, now);
            var d := Destination(s, chosen);
            && q.pid in s1.rooms[d].members
            && s1.rooms[d].session.numParticipants == |s1.rooms[d].members|
            && (q.pid !in o.solo ==> (chosen.None? <==> forall g :: g in s.rooms ==> !Suits(o, q, s.rooms[g])))
            && (chosen.Some? ==>
                  && s1.rooms.Keys == s.rooms.Keys && s1.byCode == s.byCode && s1.nextGid == s.nextGid
                  && Suits(o, q, s.rooms[d])
                  && s.rooms[d].members <= s1.rooms[d].members
                  && (forall p :: p in s1.rooms[d].members ==> p == q.pid || p in s.rooms[d].members)
                  && (forall g :: g in s.rooms && g != d ==> s1.rooms[g] == s.rooms[g])
                  && ((exists g :: g in s.rooms && Suits(o, q, s.rooms[g]) && OwnerConnected(q, s.rooms[g])) ==>
                        OwnerConnected(q, s.rooms[d])))
            && (chosen.None? ==>
                  && s1.rooms[d].members == [q.pid] && d !in s.rooms
                  && s1.rooms[d].session.gathering.ownerPid == q.pid && s1.rooms[d].hostConn == q.conn
                  && s1.rooms[d].session.gathering.minParticipants
                     == (if q.pid in o.solo then 1 else q.src.gathering.minParticipants)
                  && (forall g :: g in s.rooms ==> (g in s1.rooms <==> q.pid == 0 || s.rooms[g].members != [q.pid]))
                  && (forall g :: g in s.rooms && g in s1.rooms ==> s1.rooms[g] == s.rooms[g])
                  && (q.pid != 0 ==> forall g :: g in s1.rooms && g != d ==> s1.rooms[g].members != [q.pid])
                  && (forall c :: c in s1.byCode <==> c in s.byCode && !CodeReleased(s, q.pid, c))
                  && (forall c :: c in s1.byCode ==> s1.byCode[c] == s.byCode[c]))
  {
    hide Eligible, OwnerOnline, AutoMatched, Suits, OwnerConnected;
    forall g | g in s.rooms
      ensures Eligible(o, q, s.rooms[g]) <==> Suits(o, q, s.rooms[g])
      ensures OwnerOnline(q, s.rooms[g]) <==> OwnerConnected(q, s.rooms[g])
    {
      InvFits(s, g);
      EligibleSuits(o, q, s.rooms[g]);
      OnlineConnected(q, s.rooms[g]);
    }
    if chosen.Some? {
      FoundRoom(o, s, q, chosen.value, key, now);
    } else {
      OwnRoom(o, s, q, key, now);
    }
  }

  lemma {:induction false} OnlineConnected(q: Search, room: Room)
    ensures OwnerOnline(q, room) <==> OwnerConnected(q, room)
  {
    hide Newest;
    var c := Newest(q.links, room.session.gathering.ownerPid);
    assert c.Some? ==> Owns(q.links, c.value, room.session.gathering.ownerPid);
  }

  lemma {:induction false} InvFits(s: Store, g: u32)
    requires Inv(s) && g in s.rooms
    ensures |s.rooms[g].members| < 0x1_0000
  {
  }

  lemma {:induction false} FoundRoom(o: Options, s: Store, q: Search, d: u32, key: bytes, now: u64)
    requires Inv(s) && d in s.rooms && Eligible(o, q, s.rooms[d])
    ensures var s1 := AutoMatched(o, s, q, Some(d), key, now);
            && q.pid in s1.rooms[d].members && s1.rooms[d].session.numParticipants == |s1.rooms[d].members|
            && s1.rooms.Keys == s.rooms.Keys && s1.byCode == s.byCode && s1.nextGid == s.nextGid
            && s.rooms[d].members <= s1.rooms[d].members
            && (forall p :: p in s1.rooms[d].members ==> p == q.pid || p in s.rooms[d].members)
            && (forall g :: g in s.rooms && g != d ==> s1.rooms[g] == s.rooms[g])
  {
    hide Eligible;
    EligibleHasPlace(o, q, s.rooms[d]);
    EnteredOk(d, s.rooms[d], q.pid);
  }

  lemma {:induction false} OwnRoom(o: Options, s: Store, q: Search, key: bytes, now: u64)
    requires Inv(s)
    ensures var s1 := AutoMatched(o, s, q, None, key, now);
            var d := s.nextGid;
            && s1.rooms[d].members == [q.pid] && s1.rooms[d].session.numParticipants == 1 && d !in s.rooms
            && s1.rooms[d].session.gathering.ownerPid == q.pid && s1.rooms[d].hostConn == q.conn
            && s1.rooms[d].session.gathering.minParticipants
               == (if q.pid in o.solo then 1 else q.src.gathering.minParticipants)
            && (forall g :: g in s.rooms ==> (g in s1.rooms <==> q.pid == 0 || s.rooms[g].members != [q.pid]))
            && (forall g :: g in s.rooms && g in s1.rooms ==> s1.rooms[g] == s.rooms[g])
            && (q.pid != 0 ==> forall g :: g in s1.rooms && g != d ==> s1.rooms[g].members != [q.pid])
            && (forall c :: c in s1.byCode <==> c in s.byCode && !CodeReleased(s, q.pid, c))
            && (forall c :: c in s1.byCode ==> s1.byCode[c] == s.byCode[c])
  {
    hide Padded, CodesOf, CodeReleased;
    ReleasedCodes(o, s, q, key, now);
  }

  /** The code is that of a room in which the player is alone. */
  predicate CodeReleased(s: Store, pid: u64, c: bytes) {
    pid != 0 && c != [] && exists g :: g in s.rooms && s.rooms[g].members == [pid] && s.rooms[g].code == c
  }

  lemma {:induction false} ReleasedCodes(o: Options, s: Store, q: Search, key: bytes, now: u64)
    requires Inv(s)
    ensures var room := NewRoom(o, s, q.pid, q.conn, q.src, key, now);
            var rooms := s.rooms[s.nextGid := room];
            forall c: bytes :: q.pid != 0 && c in CodesOf(rooms, Abandoned(rooms, q.pid, s.nextGid))
                          <==> CodeReleased(s, q.pid, c)
  {
    hide Finalized;
    assert s.nextGid !in s.rooms;
    var rooms := s.rooms[s.nextGid := NewRoom(o, s, q.pid, q.conn, q.src, key, now)];
    forall c: bytes | CodeReleased(s, q.pid, c) ensures c in CodesOf(rooms, Abandoned(rooms, q.pid, s.nextGid)) {
      var g :| g in s.rooms && s.rooms[g].members == [q.pid] && s.rooms[g].code == c;
      assert rooms[g] == s.rooms[g] && g in Abandoned(rooms, q.pid, s.nextGid);
    }
  }

  lemma {:induction false} EligibleHasPlace(o: Options, q: Search, room: Room)
    requires Eligible(o, q, room)
    ensures |room.members| % 0x1_0000 < room.session.gathering.maxParticipants
  {
  }

  // ---- Joining by id --------------------------------------------------------------------------

  /** A direct join is void exactly for an unknown id, refused exactly when a newcomer finds as
      many members as the room announces, and otherwise the newcomer is last; the answer carries
      the room's session, with its exact number of members or, where asked, the number before. */
  lemma {:induction false} JoinLaw(o: Options, s: Store, pid: u64, gid: u32)
    requires Inv(s)
    ensures var r := JoinOutcome(o, s, pid, gid);
            var s1 := JoinedStore(s, pid, gid);
            && (r.SessionVoid? <==> gid !in s.rooms)
            && (r.SessionFull? <==> gid in s.rooms && pid !in s.rooms[gid].members
                                    && |s.rooms[gid].members| >= s.rooms[gid].session.gathering.maxParticipants)
            && (!r.Joined? ==> s1 == s)
            && (r.Joined? ==>
                  && s1.rooms[gid].members == s.rooms[gid].members + (if r.added then [pid] else [])
                  && (r.added <==> pid !in s.rooms[gid].members)
                  && r.session == s1.rooms[gid].session.(numParticipants := r.session.numParticipants)
                  && r.session.numParticipants
                     == (if o.joinCountsExisting then |s.rooms[gid].members| else |s1.rooms[gid].members|)
                  && s1 == s.(rooms := s.rooms[gid := s1.rooms[gid]]))
  {
    if gid in s.rooms && JoinOutcome(o, s, pid, gid).Joined? {
      EnteredOk(gid, s.rooms[gid], pid);
    }
  }
}
