/** The in-memory matchmaking store and its handlers' lock sections (matchmaking_handlers.go,
    matchmaking_hebergement.go, matchmaking_acnh.go), updated in place; every loop over the rooms
    visits them in an arbitrary order. */
module MatchmakingHandlers {
  import opened Bytes
  import opened Structures
  import opened MatchCriteria
  import opened MatchStore

  /** The list without this player, in order. */
  method RemovePID(list: seq<u64>, pid: u64) returns (out: seq<u64>)
    ensures out == Drop(list, {pid})
  {
    out := [];
    for i := 0 to |list|
      invariant out == Drop(list[..i], {pid})
    {
      DropLast(list[..i], list[i], {pid});
      assert list[..i + 1] == list[..i] + [list[i]];
      if list[i] != pid {
        out := out + [list[i]];
      }
    }
    assert list[..|list|] == list;
  }

  /** The members that can be reached, the caller among them, and the others. */
  method Prune(members: seq<u64>, pid: u64, links: Links) returns (vivants: seq<u64>, elagues: seq<u64>)
    ensures vivants == Drop(members, Unreachable(links, members, pid))
    ensures elagues == [] <==> Unreachable(links, members, pid) == {}
  {
    hide Newest;
    ghost var out := Unreachable(links, members, pid);
    vivants, elagues := [], [];
    for i := 0 to |members|
      invariant vivants == Drop(members[..i], out)
      invariant forall p :: p in elagues <==> p in members[..i] && p in out
    {
      var p := members[i];
      DropLast(members[..i], p, out);
      assert members[..i + 1] == members[..i] + [p];
      var alive := p == pid;
      if !alive {
        var c := FindConnectionByPID(links, p);
        alive := c.Some?;
      }
      if alive {
        vivants := vivants + [p];
      } else {
        elagues := elagues + [p];
      }
    }
    assert members[..|members|] == members;
    if elagues != [] {
      assert elagues[0] in elagues && elagues[0] in out;
    } else {
      assert out == {} by { assert forall p :: p in out ==> p in elagues; }
    }
  }

  method FinalizeCreatedSession(o: Options, src: MatchmakeSession, gid: u32, owner: u64, key: bytes, now: u64)
    returns (session: MatchmakeSession)
    ensures session == Finalized(o, src, gid, owner, key, now)
  {
    session := src.(gathering := src.gathering.(id := gid, ownerPid := owner, hostPid := owner));
    if session.gathering.maxParticipants == 0 {
      session := session.(gathering := session.gathering.(maxParticipants := DEFAULT_MAX));
    }
    session := session.(numParticipants := 1, sessionKey := key, startedTime := now, systemPasswordEnabled := false);
    if o.openByDefault {
      session := session.(userPasswordEnabled := false, openParticipation := true,
                          gathering := session.gathering.(state := 1));
    }
    while |session.attribs| < MIN_ATTRIBS
      invariant Padded(session.attribs) == Padded(src.attribs)
      invariant session == Finalized(o, src, gid, owner, key, now).(attribs := session.attribs, params := src.params)
      decreases MIN_ATTRIBS - |session.attribs|
    {
      session := session.(attribs := session.attribs + [0]);
    }
    session := session.(params := session.params[PARAM_SR := Variant.Bool(true)]);
    session := session.(params := session.params[PARAM_GIR := Variant.Int64(3)]);
  }

  lemma {:induction false} OneMoreCode(rooms: Rooms, gone: set<u32>, g: u32)
    requires g in rooms
    ensures CodesOf(rooms, gone + {g}) == CodesOf(rooms, gone) + (if rooms[g].code != [] then {rooms[g].code} else {})
  {
    var more := CodesOf(rooms, gone + {g});
    forall c | c in CodesOf(rooms, gone) ensures c in more {
      var h :| h in gone && h in rooms && rooms[h].code != [] && rooms[h].code == c;
      assert h in gone + {g};
    }
    if rooms[g].code != [] {
      assert g in gone + {g};
    }
  }

  lemma {:induction false} NoCode(rooms: Rooms)
    ensures CodesOf(rooms, {}) == {}
  {
  }

  // ---- Notices of a departure --------------------------------------------------------------------

  /** The same notice to everyone in the list who is connected. */
  method SendToAll(list: seq<u64>, gid: u32, about: About, links: Links) returns (sent: multiset<DepartureNotice>)
    ensures forall n :: sent[n] == if n.gid == gid && n.about == about then Copies(list, links, n.conn) else 0
  {
    hide Newest;
    sent := multiset{};
    for i := 0 to |list|
      invariant forall n :: sent[n] == if n.gid == gid && n.about == about then Copies(list[..i], links, n.conn) else 0
    {
      assert list[..i + 1][..i] == list[..i];
      var c := FindConnectionByPID(links, list[i]);
      if c.Some? {
        sent := sent + multiset{DepartureNotice(c.value, gid, about)};
      }
    }
    assert list[..|list|] == list;
  }

  method SendMigrations(moved: map<u32, Room>, links: Links) returns (sent: multiset<DepartureNotice>)
    ensures forall n :: sent[n] == MigrationSends(moved, links, n)
  {
    hide Copies;
    sent := multiset{};
    var todo := moved.Keys;
    while todo != {}
      invariant todo <= moved.Keys
      invariant forall n :: sent[n] == if n.gid in todo then 0 else MigrationSends(moved, links, n)
      decreases todo
    {
      var g :| g in todo;
      todo := todo - {g};
      var copies := SendToAll(moved[g].members, g, NewOwner(moved[g].session.gathering.ownerPid), links);
      sent := sent + copies;
    }
  }

  method SendOrphans(orphans: map<u32, seq<u64>>, links: Links) returns (sent: multiset<DepartureNotice>)
    ensures forall n :: sent[n] == OrphanSends(orphans, links, n)
  {
    hide Copies;
    sent := multiset{};
    var todo := orphans.Keys;
    while todo != {}
      invariant todo <= orphans.Keys
      invariant forall n :: sent[n] == if n.gid in todo then 0 else OrphanSends(orphans, links, n)
      decreases todo
    {
      var g :| g in todo;
      todo := todo - {g};
      var copies := SendToAll(orphans[g], g, RoomGone, links);
      sent := sent + copies;
    }
  }

  method SendDepartures(told: map<u32, u32>) returns (sent: multiset<DepartureNotice>)
    ensures forall n :: sent[n] == OwnerSends(told, n)
  {
    sent := multiset{};
    var todo := told.Keys;
    while todo != {}
      invariant todo <= told.Keys
      invariant forall n :: sent[n] == if n.gid in todo then 0 else OwnerSends(told, n)
      decreases todo
    {
      var g :| g in todo;
      todo := todo - {g};
      sent := sent + multiset{DepartureNotice(told[g], g, MemberLeft)};
    }
  }

  lemma {:induction false} NothingToSend(links: Links)
    ensures forall n :: MigrationSends(map[], links, n) == 0 && OrphanSends(map[], links, n) == 0
                        && OwnerSends(map[], n) == 0
  {
  }

  // ---- Visiting the rooms one by one ------------------------------------------------------------

  /** The rooms when those in todo have not been visited yet. */
  function Visited(o: Options, rooms: Rooms, pid: u64, todo: set<u32>): Rooms {
    map g | g in rooms && (g in todo || Survives(o, rooms[g], pid))
      :: if g in todo then rooms[g] else AfterLeaving(o, rooms[g], pid)
  }

  lemma {:induction false} MapStep<V>(m: map<u32, V>, todo: set<u32>, g: u32)
    requires g in todo
    ensures m - (todo - {g}) == if g in m then (m - todo)[g := m[g]] else m - todo
  {
  }

  /** What one visit contributes, in terms of the room visited. */
  ghost predicate LeavingStep(o: Options, rooms: Rooms, pid: u64, links: Links, todo: set<u32>, g: u32)
    requires g in rooms
  {
    var room := rooms[g];
    var left := LeftRoom(o, room, pid);
    var rest := Drop(room.members, {pid});
    var owned := room.session.gathering.ownerPid == pid;
    var here, after := Visited(o, rooms, pid, todo), Visited(o, rooms, pid, todo - {g});
    if pid !in room.members then
      && after == here && g !in Emptied(o, rooms, pid)
      && g !in Migrations(o, rooms, pid) && g !in Orphans(o, rooms, pid) && g !in OwnersTold(o, rooms, pid, links)
    else if left.None? then
      && after == here - {g} && g in Emptied(o, rooms, pid)
      && g !in Migrations(o, rooms, pid) && g !in OwnersTold(o, rooms, pid, links)
      && (g in Orphans(o, rooms, pid) <==> owned && o.ownerLeaveUnregisters && rest != [])
      && (g in Orphans(o, rooms, pid) ==> Orphans(o, rooms, pid)[g] == rest)
    else
      var owner := Newest(links, left.value.session.gathering.ownerPid);
      && after == here[g := left.value] && g !in Emptied(o, rooms, pid) && g !in Orphans(o, rooms, pid)
      && (g in Migrations(o, rooms, pid) <==> owned)
      && (owned ==> Migrations(o, rooms, pid)[g] == left.value)
      && (g in OwnersTold(o, rooms, pid, links) <==> o.notifyDepartures && owner.Some?)
      && (g in OwnersTold(o, rooms, pid, links) ==> OwnersTold(o, rooms, pid, links)[g] == owner.value)
  }

  lemma {:induction false} LeavingStepHolds(o: Options, rooms: Rooms, pid: u64, links: Links, todo: set<u32>, g: u32)
    requires g in todo && todo <= rooms.Keys
    ensures LeavingStep(o, rooms, pid, links, todo, g)
  {
    hide LeftRoom, Newest, Drop;
  }

  lemma {:induction false} VisitStep(o: Options, rooms: Rooms, pid: u64, links: Links, todo: set<u32>, g: u32)
    requires g in todo && todo <= rooms.Keys
    ensures Visited(o, rooms, pid, todo).Keys >= todo && Visited(o, rooms, pid, todo)[g] == rooms[g]
    ensures LeavingStep(o, rooms, pid, links, todo, g)
    ensures var m := Migrations(o, rooms, pid);
            m - (todo - {g}) == if g in m then (m - todo)[g := m[g]] else m - todo
    ensures var m := Orphans(o, rooms, pid);
            m - (todo - {g}) == if g in m then (m - todo)[g := m[g]] else m - todo
    ensures var m := OwnersTold(o, rooms, pid, links);
            m - (todo - {g}) == if g in m then (m - todo)[g := m[g]] else m - todo
    ensures var e := Emptied(o, rooms, pid);
            e - (todo - {g}) == if g in e then (e - todo) + {g} else e - todo
  {
    hide LeftRoom, Newest, Drop, Migrations, Orphans, OwnersTold, Emptied, LeavingStep;
    LeavingStepHolds(o, rooms, pid, links, todo, g);
    MapStep(Migrations(o, rooms, pid), todo, g);
    MapStep(Orphans(o, rooms, pid), todo, g);
    MapStep(OwnersTold(o, rooms, pid, links), todo, g);
  }

  lemma {:induction false} NoneVisited(o: Options, rooms: Rooms, pid: u64, links: Links)
    ensures Visited(o, rooms, pid, rooms.Keys) == rooms
    ensures Emptied(o, rooms, pid) - rooms.Keys == {} && Migrations(o, rooms, pid) - rooms.Keys == map[]
    ensures Orphans(o, rooms, pid) - rooms.Keys == map[] && OwnersTold(o, rooms, pid, links) - rooms.Keys == map[]
  {
    hide LeftRoom, Newest, Drop, AfterLeaving, Survives, OwnerLeaves;
  }

  lemma {:induction false} AllVisited(o: Options, rooms: Rooms, pid: u64, links: Links)
    ensures Visited(o, rooms, pid, {}) == LeftRooms(o, rooms, pid)
    ensures Emptied(o, rooms, pid) - {} == Emptied(o, rooms, pid)
    ensures Migrations(o, rooms, pid) - {} == Migrations(o, rooms, pid)
    ensures Orphans(o, rooms, pid) - {} == Orphans(o, rooms, pid)
    ensures OwnersTold(o, rooms, pid, links) - {} == OwnersTold(o, rooms, pid, links)
  {
    hide LeftRoom, Newest, Drop, AfterLeaving, Survives, OwnerLeaves, Migrations, Orphans, OwnersTold, Emptied;
  }

  ghost function PartlyRehosted(links: Links, rooms: Rooms, pid: u64, todo: set<u32>): Rooms {
    map g | g in rooms :: if g in todo then rooms[g] else Rehosted(links, rooms[g], pid)
  }

  lemma {:induction false} RehostStep(rooms: Rooms, pid: u64, links: Links, todo: set<u32>, g: u32)
    requires g in todo && todo <= rooms.Keys
    ensures var here := PartlyRehosted(links, rooms, pid, todo);
            g in here && here[g] == rooms[g]
            && PartlyRehosted(links, rooms, pid, todo - {g}) == here[g := Rehosted(links, rooms[g], pid)]
            && here[g := rooms[g]] == here
    ensures var m := Transfers(rooms, pid, links);
            m - (todo - {g}) == if g in m then (m - todo)[g := m[g]] else m - todo
    ensures var m := Transfers(rooms, pid, links);
            var gathering := rooms[g].session.gathering;
            var next := Successor(links, rooms[g].members, pid);
            (g in m <==> (gathering.hostPid == pid || gathering.ownerPid == pid) && next.Some?)
            && (g in m ==> m[g] == next.value)
  {
    hide Newest, Drop, Successor, Rehosted;
    MapStep(Transfers(rooms, pid, links), todo, g);
  }

  lemma {:induction false} RehostNone(rooms: Rooms, pid: u64, links: Links)
    ensures PartlyRehosted(links, rooms, pid, rooms.Keys) == rooms && Transfers(rooms, pid, links) - rooms.Keys == map[]
  {
    hide Rehosted, Successor;
  }

  lemma {:induction false} RehostAll(rooms: Rooms, pid: u64, links: Links)
    ensures PartlyRehosted(links, rooms, pid, {}) == map g | g in rooms :: Rehosted(links, rooms[g], pid)
    ensures Transfers(rooms, pid, links) - {} == Transfers(rooms, pid, links)
  {
    hide Rehosted, Transfers;
  }

  class Matchmaking {
    const opts: Options
    var gatherings: Rooms
    var byCode: map<bytes, u32>
    var nextGID: u32

    function Model(): Store
      reads this
    {
      Store(gatherings, byCode, nextGID)
    }

    constructor (o: Options)
      ensures Model() == Start() && opts == o
    {
      opts, gatherings, byCode, nextGID := o, map[], map[], 1;
    }

    method DeleteGathering(g: u32)
      requires g in gatherings
      modifies this
      ensures gatherings == old(gatherings) - {g} && nextGID == old(nextGID)
      ensures byCode == old(byCode) - (if old(gatherings)[g].code != [] then {old(gatherings)[g].code} else {})
    {
      var code := gatherings[g].code;
      gatherings := gatherings - {g};
      if code != [] {
        byCode := byCode - {code};
      }
    }

    method ReleaseAbandonedSolo(pid: u64, gardeGID: u32)
      modifies this
      ensures Model() == Released(old(Model()), pid, gardeGID)
    {
      hide CodesOf;
      if pid == 0 {
        return;
      }
      ghost var rooms := gatherings;
      ghost var gone: set<u32> := {};
      var todo := gatherings.Keys;
      NoCode(rooms);
      while todo != {}
        invariant todo <= rooms.Keys && nextGID == old(nextGID)
        invariant gone == Abandoned(rooms, pid, gardeGID) - todo
        invariant gatherings == rooms - gone && byCode == old(byCode) - CodesOf(rooms, gone)
        decreases todo
      {
        var g :| g in todo;
        todo := todo - {g};
        if g != gardeGID && |gatherings[g].members| == 1 && gatherings[g].members[0] == pid {
          assert gatherings[g].members == [pid];
          OneMoreCode(rooms, gone, g);
          DeleteGathering(g);
          gone := gone + {g};
        }
      }
      assert gone == Abandoned(rooms, pid, gardeGID);
    }

    method CreateGathering(pid: u64, conn: u32, src: MatchmakeSession, key: bytes, now: u64) returns (gid: u32)
      modifies this
      ensures Model() == Created(opts, old(Model()), pid, conn, src, key, now) && gid == old(nextGID)
    {
      hide Released, Finalized;
      gid := nextGID;
      nextGID := (nextGID + 1) % U32_LIMIT;
      var session := FinalizeCreatedSession(opts, src, gid, pid, key, now);
      gatherings := gatherings[gid := Room(session, [pid], conn, [])];
      ReleaseAbandonedSolo(pid, gid);
    }

    method CreateSession(pid: u64, conn: u32, src: MatchmakeSession, key: bytes, now: u64)
      returns (result: MatchmakeSession, parts: seq<u64>)
      modifies this
      ensures Model() == SessionCreated(opts, old(Model()), pid, conn, src, key, now)
      ensures result == gatherings[old(nextGID)].session && parts == gatherings[old(nextGID)].members
    {
      hide Created;
      var gid := CreateGathering(pid, conn, src, key, now);
      assert gid in gatherings by { assert gid in Created(opts, old(Model()), pid, conn, src, key, now).rooms; }
      if opts.normalizeRv {
        var params := gatherings[gid].session.params;
        if PARAM_RV in params && params[PARAM_RV].Uint64? && params[PARAM_RV].uint <= 0x7FFF_FFFF_FFFF_FFFF {
          params := params[PARAM_RV := Variant.Int64(params[PARAM_RV].uint)];
        }
        gatherings := gatherings[gid := gatherings[gid].(session := gatherings[gid].session.(params := params))];
      }
      return gatherings[gid].session, gatherings[gid].members;
    }

    /** Walks the rooms in any order: the first eligible one whose owner is online, or else an
        eligible one whose owner is not. */
    method FindRoom(q: Search) returns (chosen: Option<u32>)
      ensures ValidChoice(opts, Model(), q, chosen)
    {
      hide Newest, CriteriaAccept, PasswordCompatible, GatheringCompatible, Eligible;
      if q.pid in opts.solo {
        return None;
      }
      var repli: Option<u32> := None;
      var todo := gatherings.Keys;
      while todo != {}
        invariant todo <= gatherings.Keys
        invariant repli.Some? ==> repli.value in gatherings && Eligible(opts, q, gatherings[repli.value])
        invariant forall g :: g in gatherings && g !in todo && Eligible(opts, q, gatherings[g]) ==>
                    repli.Some? && !OwnerOnline(q, gatherings[g])
        decreases todo
      {
        var g :| g in todo;
        todo := todo - {g};
        var ok := IsEligible(q, g);
        if ok {
          var owner := FindConnectionByPID(q.links, gatherings[g].session.gathering.ownerPid);
          if owner.Some? {
            return Some(g);
          }
          if repli.None? {
            repli := Some(g);
          }
        }
      }
      return repli;
    }

    method IsEligible(q: Search, g: u32) returns (ok: bool)
      requires g in gatherings
      ensures ok == Eligible(opts, q, gatherings[g])
    {
      hide CriteriaAccept, PasswordCompatible, GatheringCompatible;
      var cand := gatherings[g];
      if cand.session.gameMode == q.src.gameMode && cand.session.openParticipation
         && PasswordCompatible(cand.session, q.src)
         && |cand.members| % 0x1_0000 < cand.session.gathering.maxParticipants {
        if opts.useCriteria && !CriteriaAccept(q.criteria, cand.session, |cand.members|) {
          return false;
        }
        ok := GatheringNatCompatible(q.links, q.Nat(), cand.members, q.pid);
        return;
      }
      return false;
    }

    method AutoMatchmake(q: Search, key: bytes, now: u64)
      returns (ghost chosen: Option<u32>, gid: u32, result: MatchmakeSession, parts: seq<u64>)
      modifies this
      ensures ValidChoice(opts, old(Model()), q, chosen)
      ensures Model() == AutoMatched(opts, old(Model()), q, chosen, key, now)
      ensures gid == Destination(old(Model()), chosen) && gid in gatherings
      ensures result == gatherings[gid].session && parts == gatherings[gid].members
    {
      hide Created, Eligible, OwnerOnline;
      var g := FindRoom(q);
      chosen := g;
      if g.None? {
        gid := CreateGathering(q.pid, q.conn, q.src, key, now);
        assert gid in Created(opts, old(Model()), q.pid, q.conn, q.src, key, now).rooms;
        if q.pid in opts.solo {
          var session := gatherings[gid].session;
          session := session.(gathering := session.gathering.(minParticipants := 1));
          gatherings := gatherings[gid := gatherings[gid].(session := session)];
        }
      } else {
        gid := g.value;
        if q.pid !in gatherings[gid].members {
          gatherings := gatherings[gid := gatherings[gid].(members := gatherings[gid].members + [q.pid])];
        }
      }
      var room := gatherings[gid];
      gatherings := gatherings[gid := room.(session := room.session.(numParticipants := |room.members| % U32_LIMIT))];
      result, parts := gatherings[gid].session, gatherings[gid].members;
    }

    /** The snapshot is what a newcomer's arrival is announced to. */
    method JoinSession(pid: u64, gid: u32) returns (r: JoinResult, parts: seq<u64>)
      modifies this
      ensures Model() == JoinedStore(old(Model()), pid, gid)
      ensures r == JoinOutcome(opts, old(Model()), pid, gid)
      ensures parts == if r.Joined? && r.added then gatherings[gid].members else []
    {
      if gid !in gatherings {
        return SessionVoid, [];
      }
      var g := gatherings[gid];
      var existing := |g.members|;
      var added := false;
      if pid !in g.members {
        if g.session.gathering.maxParticipants > 0 && |g.members| % 0x1_0000 >= g.session.gathering.maxParticipants {
          return SessionFull, [];
        }
        g := g.(members := g.members + [pid]);
        added := true;
      }
      g := g.(session := g.session.(numParticipants := |g.members| % U32_LIMIT));
      gatherings := gatherings[gid := g];
      var result := g.session;
      if opts.joinCountsExisting && added {
        result := result.(numParticipants := existing % U32_LIMIT);
      }
      r := Joined(result, added);
      parts := if added then g.members else [];
    }

    method SetParticipation(pid: u64, gid: u32, open: bool, links: Links)
      modifies this
      ensures Model() == Participation(old(Model()), pid, gid, open, links)
    {
      hide Drop, Unreachable;
      if gid !in gatherings {
        return;
      }
      var g := gatherings[gid];
      g := g.(session := g.session.(openParticipation := open));
      if !open {
        var vivants, elagues := Prune(g.members, pid, links);
        if |elagues| > 0 {
          g := g.(members := vivants, session := g.session.(numParticipants := |vivants| % U32_LIMIT));
        }
      }
      gatherings := gatherings[gid := g];
    }

    /** The snapshot is announced again to everyone when the room exists and has members. */
    method MigrateGatheringOwnership(gid: u32, candidates: seq<u64>) returns (parts: Option<seq<u64>>)
      modifies this
      ensures Model() == HandedOver(old(Model()), gid, candidates)
      ensures parts == if gid in gatherings && gatherings[gid].members != [] then Some(gatherings[gid].members)
                       else None
    {
      if gid !in gatherings || gatherings[gid].members == [] {
        assert gid in gatherings ==> FirstMember(candidates, gatherings[gid].members).None?;
        return None;
      }
      var g := gatherings[gid];
      var i := 0;
      var migrated := false;
      while i < |candidates| && !migrated
        invariant 0 <= i <= |candidates| && Model() == old(Model())
        invariant !migrated ==> g == old(gatherings)[gid]
                                && FirstMember(candidates, g.members) == FirstMember(candidates[i..], g.members)
        invariant migrated ==>
                    HandedOver(old(Model()), gid, candidates) == old(Model()).(rooms := old(gatherings)[gid := g])
        invariant g.members != []
        decreases |candidates| - i, !migrated
      {
        var c := candidates[i];
        var idx := 0;
        while idx < |g.members| && g.members[idx] != c
          invariant 0 <= idx <= |g.members| && c !in g.members[..idx] && Model() == old(Model())
        {
          idx := idx + 1;
        }
        if idx < |g.members| {
          FirstIndex(g.members, c, idx);
          assert candidates[i..][0] == c && c in g.members;
          g := g.(members := g.members[0 := g.members[idx]][idx := g.members[0]]);
          migrated := true;
        } else {
          assert candidates[i..][1..] == candidates[i + 1..] && g.members[..idx] == g.members;
          i := i + 1;
        }
      }
      if migrated {
        gatherings := gatherings[gid := g];
      }
      parts := Some(g.members);
    }

    /** One room this player is in: the player goes, and the room with it or with a new owner. */
    method LeaveGathering(g: u32, pid: u64)
      requires g in gatherings && pid in gatherings[g].members
      modifies this
      ensures var left := LeftRoom(opts, old(gatherings)[g], pid);
              var code := old(gatherings)[g].code;
              && gatherings == (if left.None? then old(gatherings) - {g} else old(gatherings)[g := left.value])
              && byCode == old(byCode) - (if left.None? && code != [] then {code} else {})
              && nextGID == old(nextGID)
    {
      hide Drop;
      var room := gatherings[g];
      var rest := RemovePID(room.members, pid);
      room := room.(members := rest);
      if |rest| == 0 {
        DeleteGathering(g);
        return;
      }
      if room.session.gathering.ownerPid == pid {
        if !opts.notifyDepartures || !Flagged(room.session.gathering.flags, FLAG_MIGRATION) {
          DeleteGathering(g);
          return;
        }
        var nouveau := rest[0];
        var gathering := room.session.gathering.(ownerPid := nouveau, hostPid := nouveau);
        room := room.(session := room.session.(gathering := gathering));
      }
      room := room.(session := room.session.(numParticipants := |rest| % U32_LIMIT));
      gatherings := gatherings[g := room];
    }

    /** The store and everything sent, whatever order the rooms are visited in: first under the
        lock, then the notices. */
    method RemovePlayer(pid: u64, links: Links, later: Links) returns (sent: multiset<DepartureNotice>)
      modifies this
      ensures Model() == Removed(opts, old(Model()), pid)
      ensures forall n :: sent[n] == DepartureSends(opts, old(gatherings), pid, links, later, n)
    {
      hide Migrations, Orphans, OwnersTold, MigrationSends, OrphanSends, OwnerSends, Removed;
      var aMigrer, orphans, aPrevenir := LeaveEverywhere(pid, links);
      var moves := SendMigrations(aMigrer, later);
      var ends := SendOrphans(orphans, later);
      var departures := SendDepartures(aPrevenir);
      NothingToSend(later);
      sent := moves + ends + departures;
    }

    /** The lock section; what remains to be told is gathered by room. */
    method LeaveEverywhere(pid: u64, links: Links)
      returns (aMigrer: map<u32, Room>, orphans: map<u32, seq<u64>>, aPrevenir: map<u32, u32>)
      modifies this
      ensures Model() == Removed(opts, old(Model()), pid)
      ensures pid != 0 ==> aMigrer == Migrations(opts, old(gatherings), pid)
                           && orphans == Orphans(opts, old(gatherings), pid)
                           && aPrevenir == OwnersTold(opts, old(gatherings), pid, links)
      ensures pid == 0 ==> aMigrer == map[] && orphans == map[] && aPrevenir == map[]
    {
      hide CodesOf, LeftRoom, Newest, Drop, LeftRooms, Migrations, Orphans, OwnersTold, Emptied, Visited;
      aMigrer, orphans, aPrevenir := map[], map[], map[];
      if pid == 0 {
        return;
      }
      ghost var rooms := gatherings;
      var todo := gatherings.Keys;
      NoneVisited(opts, rooms, pid, links);
      NoCode(rooms);
      while todo != {}
        invariant todo <= rooms.Keys && todo <= gatherings.Keys && nextGID == old(nextGID)
        invariant gatherings == Visited(opts, rooms, pid, todo)
        invariant byCode == old(byCode) - CodesOf(rooms, Emptied(opts, rooms, pid) - todo)
        invariant aMigrer == Migrations(opts, rooms, pid) - todo
        invariant orphans == Orphans(opts, rooms, pid) - todo
        invariant aPrevenir == OwnersTold(opts, rooms, pid, links) - todo
        decreases todo
      {
        var g :| g in todo;
        VisitStep(opts, rooms, pid, links, todo, g);
        OneMoreCode(rooms, Emptied(opts, rooms, pid) - todo, g);
        todo := todo - {g};
        if pid in gatherings[g].members {
          var owned := gatherings[g].session.gathering.ownerPid == pid;
          var rest := RemovePID(gatherings[g].members, pid);
          LeaveGathering(g, pid);
          if g !in gatherings {
            if owned && opts.ownerLeaveUnregisters && rest != [] {
              orphans := orphans[g := rest];
            }
          } else {
            if owned {
              aMigrer := aMigrer[g := gatherings[g]];
            }
            if opts.notifyDepartures {
              var c := FindConnectionByPID(links, gatherings[g].session.gathering.ownerPid);
              if c.Some? {
                aPrevenir := aPrevenir[g := c.value];
              }
            }
          }
        }
      }
      AllVisited(opts, rooms, pid, links);
    }

    method EndParticipation(pid: u64, gid: u32)
      modifies this
      ensures Model() == Ended(old(Model()), pid, gid)
    {
      if gid in gatherings {
        var rest := RemovePID(gatherings[gid].members, pid);
        if |rest| == 0 {
          gatherings := gatherings - {gid};
        } else {
          var g := gatherings[gid];
          var session := g.session.(numParticipants := |rest| % U32_LIMIT);
          gatherings := gatherings[gid := g.(members := rest, session := session)];
        }
      }
    }

    method Unregister(pid: u64, gid: u32)
      modifies this
      ensures Model() == Unregistered(old(Model()), pid, gid)
    {
      var existed := gid in gatherings;
      var mine := existed && gatherings[gid].session.gathering.ownerPid == pid;
      if existed && mine {
        gatherings := gatherings - {gid};
      }
    }

    method FindSuccessor(links: Links, members: seq<u64>, pid: u64) returns (next: Option<u64>, conn: u32)
      ensures next == Successor(links, members, pid)
      ensures next.Some? ==> Newest(links, next.value) == Some(conn)
    {
      hide Newest;
      next, conn := None, 0;
      var i := 0;
      while i < |members|
        invariant 0 <= i <= |members| && next.None?
        invariant Successor(links, members, pid) == Successor(links, members[i..], pid)
      {
        if members[i] != pid {
          var c := FindConnectionByPID(links, members[i]);
          if c.Some? {
            return Some(members[i]), c.value;
          }
        }
        assert members[i..][1..] == members[i + 1..];
        i := i + 1;
      }
    }

    method MigrerHebergementDepuis(pid: u64, links: Links) returns (faits: map<u32, u64>)
      modifies this
      ensures Model() == HostingMigrated(old(Model()), pid, links)
      ensures faits == if pid == 0 then map[] else Transfers(old(gatherings), pid, links)
    {
      hide Newest, Drop, Successor, Transfers, PartlyRehosted;
      faits := map[];
      if pid == 0 {
        return;
      }
      ghost var rooms := gatherings;
      var todo := gatherings.Keys;
      RehostNone(rooms, pid, links);
      while todo != {}
        invariant todo <= rooms.Keys && byCode == old(byCode) && nextGID == old(nextGID)
        invariant gatherings == PartlyRehosted(links, rooms, pid, todo)
        invariant faits == Transfers(rooms, pid, links) - todo
        decreases todo
      {
        var gid :| gid in todo;
        RehostStep(rooms, pid, links, todo, gid);
        todo := todo - {gid};
        var g := gatherings[gid];
        if g.session.gathering.hostPid == pid || g.session.gathering.ownerPid == pid {
          var next, conn := FindSuccessor(links, g.members, pid);
          if next.Some? {
            faits := faits[gid := next.value];
            var others := RemovePID(g.members, next.value);
            var session := g.session.(gathering := g.session.gathering.(hostPid := next.value, ownerPid := next.value));
            gatherings := gatherings[gid := Room(session, [next.value] + others, conn, g.code)];
          }
        }
      }
      RehostAll(rooms, pid, links);
    }

    method ApplySessionPart(p: Part) returns (known: bool)
      modifies this
      ensures Model() == PartApplied(old(Model()), p)
      ensures known <==> p.gid in old(gatherings)
    {
      hide Parted;
      if p.gid !in gatherings {
        return false;
      }
      var g := WritePart(gatherings[p.gid], p);
      if p.codeword != [] {
        byCode := byCode[p.codeword := p.gid];
      }
      gatherings := gatherings[p.gid := g];
      return true;
    }
  }

  /** A field is written when its flag is set or its value is not blank; the code word needs
      either, the open door its flag. */
  method WritePart(room: Room, p: Part) returns (g: Room)
    ensures g == Parted(room, p)
  {
    hide Flagged;
    var x := room.session;
    var codeword, code := x.codeword, room.code;
    if Flagged(p.flags, MOD_CODEWORD) || p.codeword != [] {
      codeword, code := p.codeword, p.codeword;
    }
    var attribs := x.attribs;
    if |p.attributes| > 0 {
      attribs := p.attributes;
    }
    var applicationData := x.applicationData;
    if |p.buffer| > 0 {
      applicationData := p.buffer;
    }
    var gameMode := x.gameMode;
    if p.gameMode != 0 {
      gameMode := p.gameMode;
    }
    var gathering := x.gathering;
    if p.maxParticipants != 0 {
      gathering := gathering.(maxParticipants := p.maxParticipants);
    }
    var openParticipation := x.openParticipation;
    if Flagged(p.flags, MOD_OPEN) {
      openParticipation := p.open;
    }
    x := x.(codeword := codeword, attribs := attribs, applicationData := applicationData,
            gameMode := gameMode, gathering := gathering, openParticipation := openParticipation);
    g := room.(session := x, code := code);
  }

  lemma {:induction false} FirstIndex(list: seq<u64>, x: u64, i: nat)
    requires i < |list| && list[i] == x && x !in list[..i]
    ensures IndexOf(list, x) == i
  {
    if i > 0 {
      assert list[0] in list[..i];
      assert list[1..][..i - 1] == list[..i][1..];
      FirstIndex(list[1..], x, i - 1);
    }
  }
}
