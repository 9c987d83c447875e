/** What the smaller handlers of the matchmaking store do, field by field: creating, opening and
    closing, handing over, leaving, unregistering and partial updates. */
module StoreLaws {
  import opened Bytes
  import opened Lists
  import opened Structures
  import opened MatchCriteria
  import opened MatchStore
  import opened MatchRuns

  // ---- Order ----------------------------------------------------------------------------------

  /** The members of the list that satisfy keep, in the order of the list. */
  ghost predicate KeptInOrder(list: seq<u64>, kept: seq<u64>, keep: u64 -> bool) {
    && (forall x :: x in kept <==> x in list && keep(x))
    && (forall i, j :: 0 <= i < j < |kept| && kept[i] in list && kept[j] in list ==>
          IndexOf(list, kept[i]) < IndexOf(list, kept[j]))
  }

  lemma {:induction false} IndexOfBefore(list: seq<u64>, x: u64, i: nat)
    requires NoDup(list) && i < |list| && list[i] == x
    ensures IndexOf(list, x) == i
  {
    assert IndexOf(list, x) == i by { SamePlace(list, IndexOf(list, x), i); }
  }

  lemma {:induction false} SamePlace(list: seq<u64>, k: nat, i: nat)
    requires NoDup(list) && k < |list| && i < |list| && list[k] == list[i]
    ensures k == i
  {
  }

  /** Dropping keeps the order of the others. */
  lemma {:induction false} DropKeepsOrder(list: seq<u64>, out: set<u64>)
    requires NoDup(list)
    ensures KeptInOrder(list, Drop(list, out), (x: u64) => x !in out)
  {
    DropMembers(list, out);
    DropOrder(list, out);
  }

  lemma {:induction false} DropOrder(list: seq<u64>, out: set<u64>)
    requires NoDup(list)
    ensures var kept := Drop(list, out);
            forall i, j :: 0 <= i < j < |kept| && kept[i] in list && kept[j] in list ==>
              IndexOf(list, kept[i]) < IndexOf(list, kept[j])
  {
    if list != [] {
      var n := |list| - 1;
      var before, kept := list[..n], Drop(list, out);
      DropOrder(before, out);
      DropMembers(before, out);
      forall i, j | 0 <= i < j < |kept| && kept[i] in list && kept[j] in list
        ensures IndexOf(list, kept[i]) < IndexOf(list, kept[j])
      {
        var early := Drop(before, out);
        assert kept[i] == early[i] && kept[i] in before;
        IndexInPrefix(list, n, kept[i]);
        if j < |early| {
          assert kept[j] == early[j] && kept[j] in before;
          IndexInPrefix(list, n, kept[j]);
        } else {
          IndexOfBefore(list, kept[j], n);
        }
      }
    }
  }

  lemma {:induction false} IndexInPrefix(list: seq<u64>, n: nat, x: u64)
    requires NoDup(list) && n <= |list| && x in list[..n]
    ensures x in list && IndexOf(list, x) == IndexOf(list[..n], x) < n
  {
    var k := IndexOf(list[..n], x);
    assert list[k] == x;
    IndexOfBefore(list, x, k);
  }

  // ---- Creating ---------------------------------------------------------------------------------

  /** The attributes the client sent, then zeros up to six. */
  lemma {:induction false} PaddedIs(attribs: seq<u32>)
    ensures var p := Padded(attribs);
            && attribs <= p && |p| == (if |attribs| < 6 then 6 else |attribs|)
            && forall i :: |attribs| <= i < |p| ==> p[i] == 0
    decreases 6 - |attribs|
  {
    if |attribs| < MIN_ATTRIBS {
      PaddedIs(attribs + [0]);
    }
  }

  /** A new session belongs to its creator, who owns, hosts and fills it alone, under the fresh key
      and the present time; it takes at most twelve when the client names no maximum, has no system
      password, at least six attributes and the two parameters the service answers; where the title
      opens rooms by default it is open, active and without password; everything else is as the
      client sent it. */
  lemma {:induction false} CreatedSession(
    o: Options, s: Store, pid: u64, conn: u32, src: MatchmakeSession, key: bytes, now: u64)
    ensures var room := NewRoom(o, s, pid, conn, src, key, now);
            var x, g := room.session, room.session.gathering;
            && room.members == [pid] && room.hostConn == conn && room.code == []
            && g.id == s.nextGid && g.ownerPid == pid && g.hostPid == pid
            && g.maxParticipants == (if src.gathering.maxParticipants == 0 then 12 else src.gathering.maxParticipants)
            && x.numParticipants == 1 && x.sessionKey == key && x.startedTime == now && !x.systemPasswordEnabled
            && (if o.openByDefault then x.openParticipation && g.state == 1 && !x.userPasswordEnabled
                else x.openParticipation == src.openParticipation && g.state == src.gathering.state
                     && x.userPasswordEnabled == src.userPasswordEnabled)
            && src.attribs <= x.attribs && |x.attribs| == (if |src.attribs| < 6 then 6 else |src.attribs|)
            && (forall i :: |src.attribs| <= i < |x.attribs| ==> x.attribs[i] == 0)
            && (forall k: bytes :: k in x.params <==> k in src.params || k in [PARAM_SR, PARAM_GIR])
            && PARAM_SR in x.params && x.params[PARAM_SR] == Variant.Bool(true)
            && PARAM_GIR in x.params && x.params[PARAM_GIR] == Variant.Int64(3)
            && (forall k: bytes :: k in src.params && k !in [PARAM_SR, PARAM_GIR] ==>
                  k in x.params && x.params[k] == src.params[k])
            && g == src.gathering.(id := g.id, ownerPid := pid, hostPid := pid,
                                   maxParticipants := g.maxParticipants, state := g.state)
            && x == src.(gathering := g, numParticipants := 1, sessionKey := key, startedTime := now,
                         systemPasswordEnabled := false, userPasswordEnabled := x.userPasswordEnabled,
                         openParticipation := x.openParticipation, attribs := x.attribs, params := x.params)
  {
    hide Padded;
    PaddedIs(src.attribs);
    assert PARAM_SR != PARAM_GIR by { assert |PARAM_SR| != |PARAM_GIR|; }
  }

  /** A created session differs from the new one in at most one way: where the title asks for it, an
      "@RV" parameter sent unsigned, and small enough, is answered signed with the same value. */
  lemma {:induction false} SessionCreatedLaw(
    o: Options, s: Store, pid: u64, conn: u32, src: MatchmakeSession, key: bytes, now: u64)
    ensures var t := SessionCreated(o, s, pid, conn, src, key, now);
            s.nextGid in t.rooms
            && var made, room := NewRoom(o, s, pid, conn, src, key, now), t.rooms[s.nextGid];
               var sent, got := made.session.params, room.session.params;
               && room == made.(session := made.session.(params := got)) && got.Keys == sent.Keys
               && (forall k: bytes :: k in sent && k != PARAM_RV ==> got[k] == sent[k])
               && (PARAM_RV in sent ==>
                     got[PARAM_RV]
                     == if o.normalizeRv && sent[PARAM_RV].Uint64? && sent[PARAM_RV].uint < 0x8000_0000_0000_0000
                        then Variant.Int64(sent[PARAM_RV].uint) else sent[PARAM_RV])
  {
    hide Finalized, Released;
  }

  // ---- Opening and closing ------------------------------------------------------------------------

  ghost predicate Connected(links: Links, pid: u64) {
    exists id: u32 :: Owns(links, id, pid)
  }

  /** Only this room changes: its open flag is what was asked; opening changes nothing else; closing
      keeps exactly the caller and the connected members, in order, under their exact number. */
  lemma {:induction false} ParticipationLaw(s: Store, pid: u64, gid: u32, open: bool, links: Links)
    requires Inv(s)
    ensures var t := Participation(s, pid, gid, open, links);
            if gid !in s.rooms then t == s
            else
              var before := s.rooms[gid];
              gid in t.rooms
              && var after := t.rooms[gid];
                 && after.session.openParticipation == open
                 && (if open then after.members == before.members
                     else KeptInOrder(before.members, after.members, (x: u64) => x == pid || Connected(links, x)))
                 && after.session.numParticipants == |after.members|
                 && after == before.(members := after.members,
                                     session := before.session.(openParticipation := open,
                                                                numParticipants := after.session.numParticipants))
                 && t == s.(rooms := s.rooms[gid := after])
  {
    hide Drop, Newest, Unreachable, KeptInOrder;
    if gid in s.rooms {
      var before := s.rooms[gid];
      var out := Unreachable(links, before.members, pid);
      RoomCount(s, gid);
      hide Inv;
      ClosingKeeps(links, before.members, pid);
      DropNobody(before.members, {});
      DropMembers(before.members, out);
    }
  }

  /** Without the unreachable, those connected and the caller are left, in order. */
  lemma {:induction false} ClosingKeeps(links: Links, members: seq<u64>, pid: u64)
    requires NoDup(members)
    ensures KeptInOrder(members, Drop(members, Unreachable(links, members, pid)),
                        (x: u64) => x == pid || Connected(links, x))
  {
    hide Drop, Newest, Online, Connected;
    DropKeepsOrder(members, Unreachable(links, members, pid));
    forall x: u64 | x in members ensures x !in Unreachable(links, members, pid) <==> x == pid || Connected(links, x) {
      OnlineIsConnected(links, x);
    }
  }

  lemma {:induction false} OnlineIsConnected(links: Links, pid: u64)
    ensures Online(links, pid) <==> Connected(links, pid)
  {
    hide Newest;
    var c := Newest(links, pid);
    assert c.Some? ==> Owns(links, c.value, pid);
  }

  lemma {:induction false} RoomCount(s: Store, g: u32)
    requires Inv(s) && g in s.rooms
    ensures NoDup(s.rooms[g].members) && |s.rooms[g].members| < 0x1_0000
    ensures s.rooms[g].session.numParticipants == |s.rooms[g].members|
  {
  }

  // ---- Handing over ---------------------------------------------------------------------------------

  /** The first candidate that is a member, and the member at the front, change places; the owner
      and everything else stay; without such a candidate nothing changes. */
  lemma {:induction false} HandOverLaw(s: Store, gid: u32, candidates: seq<u64>)
    requires Inv(s)
    ensures var t := HandedOver(s, gid, candidates);
            if gid !in s.rooms || forall c :: c in candidates ==> c !in s.rooms[gid].members then t == s
            else
              gid in t.rooms
              && var before, after := s.rooms[gid].members, t.rooms[gid].members;
                 && |after| == |before| && |after| > 0
                 && t == s.(rooms := s.rooms[gid := s.rooms[gid].(members := after)])
                 && exists k, i :: 0 <= k < |candidates| && 0 <= i < |before|
                                   && IsFirst(candidates, before, k) && candidates[k] == before[i]
                                   && after[0] == before[i] && after[i] == before[0]
                                   && forall j :: 0 < j < |before| && j != i ==> after[j] == before[j]
  {
    hide IndexOf;
    if gid in s.rooms {
      var members := s.rooms[gid].members;
      FirstIs(candidates, members);
      var c := FirstMember(candidates, members);
      if c.Some? {
        var k :| 0 <= k < |candidates| && candidates[k] == c.value && IsFirst(candidates, members, k);
        var i := IndexOf(members, c.value);
        assert candidates[k] == members[i];
      }
    }
  }

  /** Candidate k is a member and none before it is. */
  predicate IsFirst(candidates: seq<u64>, members: seq<u64>, k: nat)
    requires k < |candidates|
  {
    candidates[k] in members && forall j :: 0 <= j < k ==> candidates[j] !in members
  }

  lemma {:induction false} FirstIs(candidates: seq<u64>, members: seq<u64>)
    ensures var c := FirstMember(candidates, members);
            && (c.None? <==> forall x :: x in candidates ==> x !in members)
            && (c.Some? ==> exists k :: 0 <= k < |candidates| && candidates[k] == c.value
                                        && IsFirst(candidates, members, k))
  {
    if candidates != [] {
      if candidates[0] in members {
        assert IsFirst(candidates, members, 0);
      } else {
        FirstIs(candidates[1..], members);
        var c := FirstMember(candidates[1..], members);
        assert candidates == [candidates[0]] + candidates[1..];
        if c.Some? {
          var k :| 0 <= k < |candidates[1..]| && candidates[1..][k] == c.value && IsFirst(candidates[1..], members, k);
          assert candidates[k + 1] == c.value;
          forall j | 0 <= j < k + 1 ensures candidates[j] !in members {
            if j > 0 {
              assert candidates[1..][j - 1] == candidates[j];
            }
          }
          assert IsFirst(candidates, members, k + 1);
        }
      }
    }
  }

  // ---- Leaving one room, unregistering ---------------------------------------------------------------

  /** The caller is in the room no longer; the others keep their order under their exact number and
      the owner stays named, whoever left; the room goes exactly when nobody else was in it; no other
      room and no code changes. */
  lemma {:induction false} EndLaw(s: Store, pid: u64, gid: u32)
    requires Inv(s)
    ensures var t := Ended(s, pid, gid);
            && t.byCode == s.byCode && t.nextGid == s.nextGid
            && (forall g :: g in s.rooms && g != gid ==> g in t.rooms && t.rooms[g] == s.rooms[g])
            && (forall g :: g in t.rooms ==> g in s.rooms)
            && (gid in t.rooms <==> gid in s.rooms && exists x :: x in s.rooms[gid].members && x != pid)
            && (gid in t.rooms ==>
                  var before, after := s.rooms[gid], t.rooms[gid];
                  && KeptInOrder(before.members, after.members, (x: u64) => x != pid)
                  && after.session.numParticipants == |after.members|
                  && after == before.(members := after.members,
                                      session := before.session.(numParticipants := |after.members|)))
  {
    hide Drop, KeptInOrder;
    if gid in s.rooms {
      var members := s.rooms[gid].members;
      RoomCount(s, gid);
      hide Inv;
      LeavingKeeps(members, pid);
      DropMembers(members, {pid});
      DropEverybodyIff(members, {pid});
    }
  }

  lemma {:induction false} LeavingKeeps(members: seq<u64>, pid: u64)
    requires NoDup(members)
    ensures KeptInOrder(members, Drop(members, {pid}), (x: u64) => x != pid)
  {
    hide Drop;
    DropKeepsOrder(members, {pid});
    assert forall x: u64 :: x in members ==> (x !in {pid} <==> x != pid);
  }

  /** A room is deleted by its owner and by nobody else, and nothing else happens. */
  lemma {:induction false} UnregisterLaw(s: Store, pid: u64, gid: u32)
    ensures var t := Unregistered(s, pid, gid);
            && (gid in t.rooms <==> gid in s.rooms && s.rooms[gid].session.gathering.ownerPid != pid)
            && (forall g :: g != gid ==> (g in t.rooms <==> g in s.rooms))
            && (forall g :: g in t.rooms ==> t.rooms[g] == s.rooms[g])
            && t.byCode == s.byCode && t.nextGid == s.nextGid
  {
  }

  // ---- Partial updates -------------------------------------------------------------------------------

  /** Bit 0x2 of the flags alone decides whether the open flag is written; bit 0x4000 or a codeword
      whether the codeword and the room's code are; attributes, buffer, mode and maximum are written
      when they are not empty or zero; members, owner and everything else stay, and a codeword leads
      to this room. */
  lemma {:induction false} PartLaw(s: Store, p: Part)
    requires p.gid in s.rooms
    ensures var t := PartApplied(s, p);
            var before, after := s.rooms[p.gid], t.rooms[p.gid];
            var x, y := before.session, after.session;
            var coded := p.flags / 0x4000 % 2 == 1 || |p.codeword| > 0;
            && y.openParticipation == (if p.flags / 2 % 2 == 1 then p.open else x.openParticipation)
            && y.codeword == (if coded then p.codeword else x.codeword)
            && after.code == (if coded then p.codeword else before.code)
            && y.attribs == (if |p.attributes| > 0 then p.attributes else x.attribs)
            && y.applicationData == (if |p.buffer| > 0 then p.buffer else x.applicationData)
            && y.gameMode == (if p.gameMode > 0 then p.gameMode else x.gameMode)
            && y.gathering == x.gathering.(maxParticipants :=
                 if p.maxParticipants > 0 then p.maxParticipants else x.gathering.maxParticipants)
            && y == x.(openParticipation := y.openParticipation, codeword := y.codeword, attribs := y.attribs,
                       applicationData := y.applicationData, gameMode := y.gameMode, gathering := y.gathering)
            && after == before.(session := y, code := after.code)
            && t == s.(rooms := s.rooms[p.gid := after], byCode := t.byCode)
            && (|p.codeword| > 0 ==> p.codeword in t.byCode && t.byCode[p.codeword] == p.gid)
            && (forall c: bytes :: c != p.codeword ==>
                  (c in t.byCode <==> c in s.byCode) && (c in t.byCode ==> t.byCode[c] == s.byCode[c]))
            && (p.codeword == [] ==> t.byCode == s.byCode)
  {
  }
}
