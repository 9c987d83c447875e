/** The matchmaking store as a value (matchmaking_handlers.go, matchmaking_hebergement.go,
    matchmaking_acnh.go): what each handler makes of it under its lock, and what every run of
    handlers keeps. */
module MatchStore {
  import opened Bytes
  import opened Lists
  import opened Structures
  import opened MatchCriteria

  const U32_LIMIT: nat := 0x1_0000_0000
  const DEFAULT_MAX: u16 := 12
  const MIN_ATTRIBS: nat := 6
  const FLAG_MIGRATION: u32 := 0x10
  const MOD_OPEN: u32 := 0x2
  const MOD_CODEWORD: u32 := 0x4000

  // "@SR", "@GIR" and "@RV"
  const PARAM_SR: bytes := [64, 83, 82]
  const PARAM_GIR: bytes := [64, 71, 73, 82]
  const PARAM_RV: bytes := [64, 82, 86]

  /** A gathering; the member at index 0 is its host by convention. */
  datatype Room = Room(session: MatchmakeSession, members: seq<u64>, hostConn: u32, code: bytes)

  type Rooms = map<u32, Room>

  datatype Store = Store(rooms: Rooms, byCode: map<bytes, u32>, nextGid: u32)

  datatype Options = Options(
    useCriteria: bool, openByDefault: bool, normalizeRv: bool, joinCountsExisting: bool,
    notifyDepartures: bool, ownerLeaveUnregisters: bool, solo: set<u64>)

  function Start(): Store {
    Store(map[], map[], 1)
  }

  // ---- Member lists -----------------------------------------------------------------------------

  /** The list without those in `out`, in order. */
  function Drop(list: seq<u64>, out: set<u64>): seq<u64> {
    if list == [] then []
    else
      var last := list[|list| - 1];
      Drop(list[..|list| - 1], out) + if last in out then [] else [last]
  }

  lemma {:induction false} DropMembers(list: seq<u64>, out: set<u64>)
    ensures forall x :: x in Drop(list, out) <==> x in list && x !in out
    ensures |Drop(list, out)| <= |list|
  {
    if list != [] {
      var before, last := list[..|list| - 1], list[|list| - 1];
      DropMembers(before, out);
      assert list == before + [last];
    }
  }

  lemma {:induction false} DropNoDup(list: seq<u64>, out: set<u64>)
    requires NoDup(list)
    ensures NoDup(Drop(list, out))
  {
    if list != [] {
      var before, last := list[..|list| - 1], list[|list| - 1];
      DropNoDup(before, out);
      DropMembers(before, out);
      assert last !in before;
    }
  }

  /** Dropping nobody present changes nothing. */
  lemma {:induction false} DropNobody(list: seq<u64>, out: set<u64>)
    requires forall x :: x in list ==> x !in out
    ensures Drop(list, out) == list
  {
    if list != [] {
      var before, last := list[..|list| - 1], list[|list| - 1];
      assert list == before + [last] && last in list;
      DropNobody(before, out);
    }
  }

  lemma {:induction false} DropEverybodyIff(list: seq<u64>, out: set<u64>)
    ensures Drop(list, out) == [] <==> forall x :: x in list ==> x in out
  {
    if list != [] {
      var before, last := list[..|list| - 1], list[|list| - 1];
      assert list == before + [last] && last in list;
      DropEverybodyIff(before, out);
    }
  }

  lemma {:induction false} DropTwice(list: seq<u64>, a: set<u64>, b: set<u64>)
    ensures Drop(Drop(list, a), b) == Drop(list, a + b)
  {
    if list != [] {
      var before, last := list[..|list| - 1], list[|list| - 1];
      DropTwice(before, a, b);
      if last in a {
        assert Drop(list, a) == Drop(before, a);
      } else {
        var kept := Drop(before, a) + [last];
        assert kept[..|kept| - 1] == Drop(before, a);
      }
    }
  }

  lemma {:induction false} DropLast(before: seq<u64>, last: u64, out: set<u64>)
    ensures Drop(before + [last], out) == if last in out then Drop(before, out) else Drop(before, out) + [last]
  {
    var list := before + [last];
    assert list[..|list| - 1] == before;
  }

  /** Moving one member to the front reorders the list. */
  lemma {:induction false} FrontIsPermutation(list: seq<u64>, x: u64)
    requires NoDup(list) && x in list
    ensures multiset([x] + Drop(list, {x})) == multiset(list)
  {
    hide Drop;
    var before, last := list[..|list| - 1], list[|list| - 1];
    assert list == before + [last];
    DropLast(before, last, {x});
    if last == x {
      assert x !in before;
      DropNobody(before, {x});
    } else {
      assert x in before;
      FrontIsPermutation(before, x);
      assert [x] + Drop(list, {x}) == [x] + Drop(before, {x}) + [last];
    }
  }

  lemma {:induction false} FrontKeepsNoDup(list: seq<u64>, x: u64)
    requires NoDup(list) && x in list
    ensures NoDup([x] + Drop(list, {x})) && |[x] + Drop(list, {x})| == |list|
  {
    hide Drop;
    DropMembers(list, {x});
    DropNoDup(list, {x});
    FrontIsPermutation(list, x);
    assert |multiset([x] + Drop(list, {x}))| == |multiset(list)|;
  }

  // ---- Creating ---------------------------------------------------------------------------------

  function WithCount(room: Room): Room {
    room.(session := room.session.(numParticipants := |room.members| % U32_LIMIT))
  }

  function Padded(attribs: seq<u32>): seq<u32>
    decreases MIN_ATTRIBS - |attribs|
  {
    if |attribs| < MIN_ATTRIBS then Padded(attribs + [0]) else attribs
  }

  /** Everything the server owns on a new session. */
  function Finalized(o: Options, src: MatchmakeSession, gid: u32, owner: u64, key: bytes, now: u64): MatchmakeSession {
    var g := src.gathering.(
      id := gid, ownerPid := owner, hostPid := owner,
      maxParticipants := if src.gathering.maxParticipants == 0 then DEFAULT_MAX else src.gathering.maxParticipants,
      state := if o.openByDefault then 1 else src.gathering.state);
    src.(gathering := g, numParticipants := 1, sessionKey := key, startedTime := now,
         systemPasswordEnabled := false,
         userPasswordEnabled := src.userPasswordEnabled && !o.openByDefault,
         openParticipation := src.openParticipation || o.openByDefault,
         attribs := Padded(src.attribs),
         params := src.params[PARAM_SR := Variant.Bool(true)][PARAM_GIR := Variant.Int64(3)])
  }

  /** The rooms, other than `keep`, where this player is alone. */
  function Abandoned(rooms: Rooms, pid: u64, keep: u32): set<u32> {
    set g | g in rooms && g != keep && rooms[g].members == [pid]
  }

  function CodesOf(rooms: Rooms, gone: set<u32>): set<bytes> {
    set g | g in gone && g in rooms && rooms[g].code != [] :: rooms[g].code
  }

  function Deleted(s: Store, gone: set<u32>): Store {
    s.(rooms := s.rooms - gone, byCode := s.byCode - CodesOf(s.rooms, gone))
  }

  function Released(s: Store, pid: u64, keep: u32): Store {
    if pid == 0 then s else Deleted(s, Abandoned(s.rooms, pid, keep))
  }

  function NewRoom(o: Options, s: Store, pid: u64, conn: u32, src: MatchmakeSession, key: bytes, now: u64): Room {
    Room(Finalized(o, src, s.nextGid, pid, key, now), [pid], conn, [])
  }

  /** A new gathering with the next id; the id counter wraps at 32 bits. */
  function Created(o: Options, s: Store, pid: u64, conn: u32, src: MatchmakeSession, key: bytes, now: u64): (s1: Store)
    ensures s.nextGid in s1.rooms && s1.rooms[s.nextGid] == NewRoom(o, s, pid, conn, src, key, now)
  {
    Released(s.(rooms := s.rooms[s.nextGid := NewRoom(o, s, pid, conn, src, key, now)],
                nextGid := (s.nextGid + 1) % U32_LIMIT), pid, s.nextGid)
  }

  function NormalizedRv(params: map<bytes, Variant>): map<bytes, Variant> {
    if PARAM_RV in params && params[PARAM_RV].Uint64? && params[PARAM_RV].uint < 0x8000_0000_0000_0000
    then params[PARAM_RV := Variant.Int64(params[PARAM_RV].uint)]
    else params
  }

  /** CreateMatchmakeSession. */
  function SessionCreated(
    o: Options, s: Store, pid: u64, conn: u32, src: MatchmakeSession, key: bytes, now: u64): Store {
    var s1 := Created(o, s, pid, conn, src, key, now);
    if !o.normalizeRv then s1
    else
      var room := s1.rooms[s.nextGid];
      s1.(rooms := s1.rooms[s.nextGid := room.(session := room.session.(params := NormalizedRv(room.session.params)))])
  }

  // ---- AutoMatchmake ------------------------------------------------------------------------------

  /** A searching player: what it asks for, the NAT behaviour it reported, and who is connected. */
  datatype Search = Search(
    pid: u64, conn: u32, src: MatchmakeSession, criteria: seq<Criterion>, mapping: u32, filtering: u32,
    links: Links)
  {
    function Nat(): NatClass {
      ClassifyNat(mapping, filtering)
    }
  }

  ghost predicate Eligible(o: Options, q: Search, room: Room) {
    && room.session.gameMode == q.src.gameMode
    && room.session.openParticipation
    && PasswordCompatible(room.session, q.src)
    && |room.members| % 0x1_0000 < room.session.gathering.maxParticipants
    && (o.useCriteria ==> CriteriaAccept(q.criteria, room.session, |room.members|))
    && GatheringCompatible(q.links, q.Nat(), room.members, q.pid)
  }

  ghost predicate OwnerOnline(q: Search, room: Room) {
    Online(q.links, room.session.gathering.ownerPid)
  }

  /** What the search may settle on, over all orders in which the rooms can be visited. */
  ghost predicate ValidChoice(o: Options, s: Store, q: Search, chosen: Option<u32>) {
    if q.pid in o.solo then chosen.None?
    else if chosen.None? then forall g :: g in s.rooms ==> !Eligible(o, q, s.rooms[g])
    else
      && chosen.value in s.rooms && Eligible(o, q, s.rooms[chosen.value])
      && (OwnerOnline(q, s.rooms[chosen.value])
          || forall g :: g in s.rooms && Eligible(o, q, s.rooms[g]) ==> !OwnerOnline(q, s.rooms[g]))
  }

  function Entered(room: Room, pid: u64): Room {
    WithCount(if pid in room.members then room else room.(members := room.members + [pid]))
  }

  /** The room entered. */
  function Destination(s: Store, chosen: Option<u32>): u32 {
    if chosen.Some? then chosen.value else s.nextGid
  }

  function AutoMatched(o: Options, s: Store, q: Search, chosen: Option<u32>, key: bytes, now: u64): (s1: Store)
    requires chosen.Some? ==> chosen.value in s.rooms
    ensures Destination(s, chosen) in s1.rooms
  {
    if chosen.Some? then s.(rooms := s.rooms[chosen.value := Entered(s.rooms[chosen.value], q.pid)])
    else
      var s1 := Created(o, s, q.pid, q.conn, q.src, key, now);
      var room := s1.rooms[s.nextGid];
      var g := room.session.gathering;
      var room1 :=
        if q.pid in o.solo then room.(session := room.session.(gathering := g.(minParticipants := 1))) else room;
      s1.(rooms := s1.rooms[s.nextGid := WithCount(room1)])
  }

  // ---- The other handlers ---------------------------------------------------------------------------

  datatype JoinResult = SessionVoid | SessionFull | Joined(session: MatchmakeSession, added: bool)

  predicate Full(room: Room) {
    room.session.gathering.maxParticipants > 0
    && |room.members| % 0x1_0000 >= room.session.gathering.maxParticipants
  }

  /** The answer to a direct join; a title may ask that a newcomer be told how many were there
      before. */
  function JoinOutcome(o: Options, s: Store, pid: u64, gid: u32): JoinResult {
    if gid !in s.rooms then SessionVoid
    else if pid !in s.rooms[gid].members && Full(s.rooms[gid]) then SessionFull
    else
      var room := s.rooms[gid];
      var added := pid !in room.members;
      var session := Entered(room, pid).session;
      Joined(if o.joinCountsExisting && added then session.(numParticipants := |room.members| % U32_LIMIT)
             else session, added)
  }

  function JoinedStore(s: Store, pid: u64, gid: u32): Store {
    if gid in s.rooms && (pid in s.rooms[gid].members || !Full(s.rooms[gid]))
    then s.(rooms := s.rooms[gid := Entered(s.rooms[gid], pid)]) else s
  }

  /** The members, other than the one who closes, that cannot be reached. */
  ghost function Unreachable(links: Links, members: seq<u64>, pid: u64): set<u64> {
    set p | p in members && p != pid && !Online(links, p)
  }

  /** Opening or closing; closing also removes the unreachable members. */
  ghost function Participation(s: Store, pid: u64, gid: u32, open: bool, links: Links): Store {
    if gid !in s.rooms then s
    else
      var room := s.rooms[gid].(session := s.rooms[gid].session.(openParticipation := open));
      var out := Unreachable(links, room.members, pid);
      var pruned := WithCount(room.(members := Drop(room.members, out)));
      s.(rooms := s.rooms[gid := if open || out == {} then room else pruned])
  }

  function IndexOf(list: seq<u64>, x: u64): (i: nat)
    requires x in list
    ensures i < |list| && list[i] == x && x !in list[..i]
  {
    if list[0] == x then 0 else 1 + IndexOf(list[1..], x)
  }

  function FirstMember(candidates: seq<u64>, members: seq<u64>): (r: Option<u64>)
    ensures r.Some? ==> r.value in candidates && r.value in members
  {
    if candidates == [] then None
    else if candidates[0] in members then Some(candidates[0])
    else FirstMember(candidates[1..], members)
  }

  /** The first candidate that is a member trades places with the member at the front. */
  function HandedOver(s: Store, gid: u32, candidates: seq<u64>): Store {
    if gid !in s.rooms then s
    else
      var members := s.rooms[gid].members;
      var c := FirstMember(candidates, members);
      if c.None? then s
      else
        var i := IndexOf(members, c.value);
        s.(rooms := s.rooms[gid := s.rooms[gid].(members := members[0 := members[i]][i := members[0]])])
  }

  /** flags & bit != 0, for a single bit. */
  predicate Flagged(flags: u32, bit: u32)
    requires bit > 0
  {
    flags / bit % 2 == 1
  }

  predicate Migrates(o: Options, room: Room) {
    o.notifyDepartures && Flagged(room.session.gathering.flags, FLAG_MIGRATION)
  }

  /** What is left of a room when one of its members leaves it. */
  function LeftRoom(o: Options, room: Room, pid: u64): Option<Room> {
    var rest := Drop(room.members, {pid});
    if rest == [] then None
    else if room.session.gathering.ownerPid != pid then Some(WithCount(room.(members := rest)))
    else if !Migrates(o, room) then None
    else
      var g := room.session.gathering.(ownerPid := rest[0], hostPid := rest[0]);
      Some(WithCount(room.(members := rest, session := room.session.(gathering := g))))
  }

  predicate Survives(o: Options, room: Room, pid: u64) {
    pid in room.members ==> LeftRoom(o, room, pid).Some?
  }

  function AfterLeaving(o: Options, room: Room, pid: u64): Room {
    if pid in room.members && LeftRoom(o, room, pid).Some? then LeftRoom(o, room, pid).value else room
  }

  function Emptied(o: Options, rooms: Rooms, pid: u64): set<u32> {
    set g | g in rooms && !Survives(o, rooms[g], pid)
  }

  function LeftRooms(o: Options, rooms: Rooms, pid: u64): Rooms {
    map g | g in rooms && Survives(o, rooms[g], pid) :: AfterLeaving(o, rooms[g], pid)
  }

  /** RemovePlayer. */
  function Removed(o: Options, s: Store, pid: u64): Store {
    if pid == 0 then s
    else s.(rooms := LeftRooms(o, s.rooms, pid), byCode := s.byCode - CodesOf(s.rooms, Emptied(o, s.rooms, pid)))
  }

  /** The departing player was in the room and owned it. */
  predicate OwnerLeaves(room: Room, pid: u64) {
    pid in room.members && room.session.gathering.ownerPid == pid
  }

  /** The rooms handed to a new owner: everyone left in them is told. */
  function Migrations(o: Options, rooms: Rooms, pid: u64): map<u32, Room> {
    map g | g in rooms && OwnerLeaves(rooms[g], pid) && Survives(o, rooms[g], pid) :: AfterLeaving(o, rooms[g], pid)
  }

  /** The rooms deleted under their remaining members, who are told when the title wants it. */
  function Orphans(o: Options, rooms: Rooms, pid: u64): map<u32, seq<u64>> {
    map g | o.ownerLeaveUnregisters && g in rooms && OwnerLeaves(rooms[g], pid) && !Survives(o, rooms[g], pid)
            && Drop(rooms[g].members, {pid}) != [] :: Drop(rooms[g].members, {pid})
  }

  /** The owners told of the departure, by room. */
  ghost function OwnersTold(o: Options, rooms: Rooms, pid: u64, links: Links): map<u32, u32> {
    map g | o.notifyDepartures && g in rooms && pid in rooms[g].members && Survives(o, rooms[g], pid)
            && Newest(links, AfterLeaving(o, rooms[g], pid).session.gathering.ownerPid).Some?
      :: Newest(links, AfterLeaving(o, rooms[g], pid).session.gathering.ownerPid).value
  }

  // ---- What RemovePlayer sends once the lock is released ------------------------------------------

  /** The departing player is the source of every one of these. */
  datatype About = NewOwner(owner: u64) | RoomGone | MemberLeft

  datatype DepartureNotice = DepartureNotice(conn: u32, gid: u32, about: About)

  /** How often a list names a player whose newest connection is this one. */
  ghost function Copies(list: seq<u64>, links: Links, conn: u32): nat {
    if list == [] then 0
    else
      Copies(list[..|list| - 1], links, conn)
      + if Newest(links, list[|list| - 1]) == Some(conn) then 1 else 0
  }

  ghost function MigrationSends(moved: map<u32, Room>, links: Links, n: DepartureNotice): nat {
    if n.about.NewOwner? && n.gid in moved && moved[n.gid].session.gathering.ownerPid == n.about.owner
    then Copies(moved[n.gid].members, links, n.conn) else 0
  }

  ghost function OrphanSends(orphans: map<u32, seq<u64>>, links: Links, n: DepartureNotice): nat {
    if n.about.RoomGone? && n.gid in orphans then Copies(orphans[n.gid], links, n.conn) else 0
  }

  function OwnerSends(told: map<u32, u32>, n: DepartureNotice): nat {
    if n.about.MemberLeft? && n.gid in told && told[n.gid] == n.conn then 1 else 0
  }

  /** How often RemovePlayer sends this notice. The owners' connections are looked up under the
      lock, all the others afterwards. */
  ghost function DepartureSends(
    o: Options, rooms: Rooms, pid: u64, links: Links, later: Links, n: DepartureNotice): nat {
    if pid == 0 then 0
    else
      MigrationSends(Migrations(o, rooms, pid), later, n) + OrphanSends(Orphans(o, rooms, pid), later, n)
      + OwnerSends(OwnersTold(o, rooms, pid, links), n)
  }

  /** EndParticipation: the owner may leave without anyone taking over. */
  function Ended(s: Store, pid: u64, gid: u32): Store {
    if gid !in s.rooms then s
    else
      var room := s.rooms[gid].(members := Drop(s.rooms[gid].members, {pid}));
      s.(rooms := if room.members == [] then s.rooms - {gid} else s.rooms[gid := WithCount(room)])
  }

  /** Only the owner may unregister. */
  function Unregistered(s: Store, pid: u64, gid: u32): Store {
    if gid in s.rooms && s.rooms[gid].session.gathering.ownerPid == pid then s.(rooms := s.rooms - {gid}) else s
  }

  /** The first other member that can be reached. */
  ghost function Successor(links: Links, members: seq<u64>, pid: u64): (r: Option<u64>)
    ensures r.Some? ==> r.value in members && r.value != pid && Online(links, r.value)
    ensures r.None? ==> forall p :: p in members && p != pid ==> !Online(links, p)
  {
    if members == [] then None
    else if members[0] != pid && Online(links, members[0]) then Some(members[0])
    else Successor(links, members[1..], pid)
  }

  ghost function Rehosted(links: Links, room: Room, pid: u64): Room {
    var g := room.session.gathering;
    var next := Successor(links, room.members, pid);
    if (g.hostPid != pid && g.ownerPid != pid) || next.None? then room
    else
      Room(room.session.(gathering := g.(hostPid := next.value, ownerPid := next.value)),
           [next.value] + Drop(room.members, {next.value}), Newest(links, next.value).value, room.code)
  }

  /** MigrerHebergementDepuis. */
  ghost function HostingMigrated(s: Store, pid: u64, links: Links): Store {
    if pid == 0 then s else s.(rooms := map g | g in s.rooms :: Rehosted(links, s.rooms[g], pid))
  }

  /** The rooms taken over, and by whom. */
  ghost function Transfers(rooms: Rooms, pid: u64, links: Links): map<u32, u64> {
    map g | g in rooms && (rooms[g].session.gathering.hostPid == pid || rooms[g].session.gathering.ownerPid == pid)
            && Successor(links, rooms[g].members, pid).Some?
      :: Successor(links, rooms[g].members, pid).value
  }

  datatype Part = Part(
    gid: u32, flags: u32, attributes: seq<u32>, open: bool, buffer: bytes,
    gameMode: u32, maxParticipants: u16, codeword: bytes)

  predicate SetsCode(p: Part) {
    Flagged(p.flags, MOD_CODEWORD) || p.codeword != []
  }

  function Parted(room: Room, p: Part): Room {
    var x := room.session;
    var g := if p.maxParticipants != 0 then x.gathering.(maxParticipants := p.maxParticipants) else x.gathering;
    Room(x.(gathering := g,
            codeword := if SetsCode(p) then p.codeword else x.codeword,
            attribs := if p.attributes != [] then p.attributes else x.attribs,
            applicationData := if p.buffer != [] then p.buffer else x.applicationData,
            gameMode := if p.gameMode != 0 then p.gameMode else x.gameMode,
            openParticipation := if Flagged(p.flags, MOD_OPEN) then p.open else x.openParticipation),
         room.members, room.hostConn, if SetsCode(p) then p.codeword else room.code)
  }

  /** A partial update of a session. */
  function PartApplied(s: Store, p: Part): Store {
    if p.gid !in s.rooms then s
    else s.(rooms := s.rooms[p.gid := Parted(s.rooms[p.gid], p)],
            byCode := if p.codeword != [] then s.byCode[p.codeword := p.gid] else s.byCode)
  }
}
