/** NEX structures on the wire (types.go, matchmaking.go): framed class levels, tagged
    variants, maps in arbitrary order, and the two-level MatchmakeSession. */
module Structures {
  import opened Bytes
  import opened Streams

  type i64 = n: int | -0x8000_0000_0000_0000 <= n < 0x8000_0000_0000_0000

  /** A tagged value. A double is carried by its bit pattern; an unknown tag carries nothing. */
  datatype Variant =
    | NilValue
    | Int64(int_: i64)
    | Double(bits: u64)
    | Bool(bool_: bool)
    | Text(text: bytes)
    | DateTime(date: u64)
    | Uint64(uint: u64)
    | Other(tag: byte)

  datatype Gathering = Gathering(
    id: u32, ownerPid: u64, hostPid: u64,
    minParticipants: u16, maxParticipants: u16,
    participationPolicy: u32, policyArgument: u32, flags: u32, state: u32,
    description: bytes)

  datatype MatchmakeSession = MatchmakeSession(
    gathering: Gathering,
    gameMode: u32, attribs: seq<u32>, openParticipation: bool, matchmakeSystem: u32,
    applicationData: bytes, numParticipants: u32, progressScore: byte, sessionKey: bytes,
    option: u32, params: map<bytes, Variant>, startedTime: u64,
    userPassword: bytes, referGid: u32, userPasswordEnabled: bool,
    systemPasswordEnabled: bool, codeword: bytes)

  type Entry = (bytes, Variant)

  // ---- Writing: what each value appends to a buffer ---------------------------------

  /** Two's complement on eight bytes. */
  function ToU64(v: i64): u64 {
    if v < 0 then v + 0x1_0000_0000_0000_0000 else v
  }

  function Tag(v: Variant): byte {
    match v
    case NilValue => 0
    case Int64(_) => 1
    case Double(_) => 2
    case Bool(_) => 3
    case Text(_) => 4
    case DateTime(_) => 5
    case Uint64(_) => 6
    case Other(t) => t
  }

  function VariantBody(v: Variant): bytes {
    match v
    case NilValue => []
    case Int64(i) => LE(ToU64(i), 8)
    case Double(d) => LE(d, 8)
    case Bool(b) => BoolBytes(b)
    case Text(t) => StringBytes(t)
    case DateTime(d) => LE(d, 8)
    case Uint64(u) => LE(u, 8)
    case Other(_) => []
  }

  function PutVariant(buf: bytes, v: Variant): bytes {
    buf + [Tag(v)] + VariantBody(v)
  }

  function PutEntry(buf: bytes, e: Entry): bytes {
    PutVariant(buf + StringBytes(e.0), e.1)
  }

  function PutEntries(buf: bytes, es: seq<Entry>): bytes
    decreases |es|
  {
    if es == [] then buf else PutEntries(PutEntry(buf, es[0]), es[1..])
  }

  function PutMap(buf: bytes, order: seq<Entry>): bytes {
    PutEntries(buf + LE(|order|, 4), order)
  }

  function PutU32s(buf: bytes, vs: seq<u32>): bytes
    decreases |vs|
  {
    if vs == [] then buf else PutU32s(buf + LE(vs[0], 4), vs[1..])
  }

  function PutU32List(buf: bytes, vs: seq<u32>): bytes {
    PutU32s(buf + LE(|vs|, 4), vs)
  }

  /** One framed class level: a version byte and a length-prefixed body. */
  function PutFrame(buf: bytes, body: bytes): bytes {
    buf + [0] + BufferBytes(body)
  }

  function PutGathering(s: Settings, buf: bytes, g: Gathering): bytes {
    var b1 := buf + LE(g.id, 4);
    var b2 := b1 + PidBytes(s, g.ownerPid);
    var b3 := b2 + PidBytes(s, g.hostPid);
    var b4 := b3 + LE(g.minParticipants, 2);
    var b5 := b4 + LE(g.maxParticipants, 2);
    var b6 := b5 + LE(g.participationPolicy, 4);
    var b7 := b6 + LE(g.policyArgument, 4);
    var b8 := b7 + LE(g.flags, 4);
    var b9 := b8 + LE(g.state, 4);
    b9 + StringBytes(g.description)
  }

  function PutParam(s: Settings, buf: bytes, order: seq<Entry>): bytes {
    if s.structHeader then PutFrame(buf, PutMap([], order)) else PutMap(buf, order)
  }

  /** The fields before the parameter map, and those after it. */
  function PutSessionHead(buf: bytes, m: MatchmakeSession): bytes {
    var b1 := buf + LE(m.gameMode, 4);
    var b2 := PutU32List(b1, m.attribs);
    var b3 := b2 + BoolBytes(m.openParticipation);
    var b4 := b3 + LE(m.matchmakeSystem, 4);
    var b5 := b4 + BufferBytes(m.applicationData);
    var b6 := b5 + LE(m.numParticipants, 4);
    var b7 := b6 + [m.progressScore];
    var b8 := b7 + BufferBytes(m.sessionKey);
    b8 + LE(m.option, 4)
  }

  function PutSessionTail(buf: bytes, m: MatchmakeSession): bytes {
    var b1 := buf + LE(m.startedTime, 8);
    var b2 := b1 + StringBytes(m.userPassword);
    var b3 := b2 + LE(m.referGid, 4);
    var b4 := b3 + BoolBytes(m.userPasswordEnabled);
    var b5 := b4 + BoolBytes(m.systemPasswordEnabled);
    b5 + StringBytes(m.codeword)
  }

  function PutSessionLevel(s: Settings, buf: bytes, m: MatchmakeSession, order: seq<Entry>): bytes {
    PutSessionTail(PutParam(s, PutSessionHead(buf, m), order), m)
  }

  /** Base level then derived level; `order` is the order the parameter map was walked in. */
  function PutSession(s: Settings, buf: bytes, m: MatchmakeSession, order: seq<Entry>): bytes {
    if s.structHeader then
      PutFrame(PutFrame(buf, PutGathering(s, [], m.gathering)), PutSessionLevel(s, [], m, order))
    else
      PutSessionLevel(s, PutGathering(s, buf, m.gathering), m, order)
  }

  /** Every key once, with its value: one of the orders a Go map can be walked in. */
  predicate Enumerates(order: seq<Entry>, m: map<bytes, Variant>) {
    && (forall i :: 0 <= i < |order| ==> order[i].0 in m && m[order[i].0] == order[i].1)
    && (forall k :: k in m ==> exists i :: 0 <= i < |order| && order[i].0 == k)
    && (forall i, j :: 0 <= i < j < |order| ==> order[i].0 != order[j].0)
  }

  // ---- Reading ----------------------------------------------------------------------

  function FromU64(v: u64): i64 {
    if v >= 0x8000_0000_0000_0000 then v - 0x1_0000_0000_0000_0000 else v
  }

  function ReadVariant(d: bytes, c: Cursor): (Variant, Cursor) {
    var (tag, c1) := ReadU8(d, c);
    if tag == 0 then (NilValue, c1)
    else if tag == 1 then var (v, c2) := ReadU64(d, c1); (Int64(FromU64(v)), c2)
    else if tag == 2 then var (v, c2) := ReadU64(d, c1); (Double(v), c2)
    else if tag == 3 then var (v, c2) := ReadBool(d, c1); (Bool(v), c2)
    else if tag == 4 then var (v, c2) := ReadString(d, c1); (Text(v), c2)
    else if tag == 5 then var (v, c2) := ReadU64(d, c1); (DateTime(v), c2)
    else if tag == 6 then var (v, c2) := ReadU64(d, c1); (Uint64(v), c2)
    else (Other(tag), c1)
  }

  function ReadEntries(d: bytes, c: Cursor, n: nat, m: map<bytes, Variant>): (map<bytes, Variant>, Cursor)
    decreases n
  {
    if n == 0 then (m, c)
    else
      var (k, c1) := ReadString(d, c);
      var (v, c2) := ReadVariant(d, c1);
      ReadEntries(d, c2, n - 1, m[k := v])
  }

  /** A count larger than the bytes that are left is corruption. */
  function ReadMap(d: bytes, c: Cursor): (map<bytes, Variant>, Cursor) {
    var (n, c1) := ReadU32(d, c);
    if c1.pos + n > |d| then (map[], c1.(err := true))
    else ReadEntries(d, c1, n, map[])
  }

  function ReadU32s(d: bytes, c: Cursor, n: nat, vs: seq<u32>): (seq<u32>, Cursor)
    decreases n
  {
    if n == 0 then (vs, c)
    else
      var (v, c1) := ReadU32(d, c);
      ReadU32s(d, c1, n - 1, vs + [v])
  }

  function ReadU32List(d: bytes, c: Cursor): (seq<u32>, Cursor) {
    var (n, c1) := ReadU32(d, c);
    if c1.pos + n > |d| then ([], c1.(err := true))
    else ReadU32s(d, c1, n, [])
  }

  /** The body of a framed level, read by a cursor of its own: what goes wrong inside stays
      inside, as the substream's error is never looked at. */
  function ReadFrame(d: bytes, c: Cursor): (bytes, Cursor) {
    var (_, c1) := ReadU8(d, c);
    ReadBuffer(d, c1)
  }

  function ReadGathering(s: Settings, d: bytes, c: Cursor): (Gathering, Cursor) {
    var (id, c1) := ReadU32(d, c);
    var (owner, c2) := ReadPid(s, d, c1);
    var (host, c3) := ReadPid(s, d, c2);
    var (minP, c4) := ReadU16(d, c3);
    var (maxP, c5) := ReadU16(d, c4);
    var (policy, c6) := ReadU32(d, c5);
    var (argument, c7) := ReadU32(d, c6);
    var (flags, c8) := ReadU32(d, c7);
    var (state, c9) := ReadU32(d, c8);
    var (description, c10) := ReadString(d, c9);
    (Gathering(id, owner, host, minP, maxP, policy, argument, flags, state, description), c10)
  }

  function ReadParam(s: Settings, d: bytes, c: Cursor): (map<bytes, Variant>, Cursor) {
    if s.structHeader then
      var (sub, c1) := ReadFrame(d, c);
      (ReadMap(sub, Cursor(0, false)).0, c1)
    else ReadMap(d, c)
  }

  const BLANK_GATHERING := Gathering(0, 0, 0, 0, 0, 0, 0, 0, 0, [])
  const BLANK_SESSION := MatchmakeSession(BLANK_GATHERING, 0, [], false, 0, [], 0, 0, [], 0, map[], 0,
                                          [], 0, false, false, [])

  function ReadSessionHead(d: bytes, c: Cursor, m: MatchmakeSession): (MatchmakeSession, Cursor) {
    var (gameMode, c1) := ReadU32(d, c);
    var (attribs, c2) := ReadU32List(d, c1);
    var (open, c3) := ReadBool(d, c2);
    var (system, c4) := ReadU32(d, c3);
    var (application, c5) := ReadBuffer(d, c4);
    var (num, c6) := ReadU32(d, c5);
    var (score, c7) := ReadU8(d, c6);
    var (key, c8) := ReadBuffer(d, c7);
    var (option, c9) := ReadU32(d, c8);
    (m.(gameMode := gameMode, attribs := attribs, openParticipation := open, matchmakeSystem := system,
        applicationData := application, numParticipants := num, progressScore := score,
        sessionKey := key, option := option), c9)
  }

  function ReadSessionTail(d: bytes, c: Cursor, m: MatchmakeSession): (MatchmakeSession, Cursor) {
    var (started, c1) := ReadU64(d, c);
    var (password, c2) := ReadString(d, c1);
    var (refer, c3) := ReadU32(d, c2);
    var (userOn, c4) := ReadBool(d, c3);
    var (systemOn, c5) := ReadBool(d, c4);
    var (codeword, c6) := ReadString(d, c5);
    (m.(startedTime := started, userPassword := password, referGid := refer,
        userPasswordEnabled := userOn, systemPasswordEnabled := systemOn, codeword := codeword), c6)
  }

  function ReadSessionLevel(s: Settings, d: bytes, c: Cursor, m: MatchmakeSession): (MatchmakeSession, Cursor) {
    var (m1, c1) := ReadSessionHead(d, c, m);
    var (params, c2) := ReadParam(s, d, c1);
    ReadSessionTail(d, c2, m1.(params := params))
  }

  function ReadSession(s: Settings, d: bytes, c: Cursor): (MatchmakeSession, Cursor) {
    if s.structHeader then
      var (sub1, c1) := ReadFrame(d, c);
      var g := ReadGathering(s, sub1, Cursor(0, false)).0;
      var (sub2, c2) := ReadFrame(d, c1);
      (ReadSessionLevel(s, sub2, Cursor(0, false), BLANK_SESSION.(gathering := g)).0, c2)
    else
      var (g, c1) := ReadGathering(s, d, c);
      ReadSessionLevel(s, d, c1, BLANK_SESSION.(gathering := g))
  }

  // ---- Reading back what was written --------------------------------------------------

  /** Strings whose length, terminator included, fits the two-byte prefix; tags that are tags. */
  predicate VariantFits(v: Variant) {
    match v
    case Text(t) => |t| < 0xFFFF
    case Other(t) => t > 6
    case _ => true
  }

  lemma {:induction false} ReadVariantBack(buf: bytes, v: Variant, data: bytes)
    requires PutVariant(buf, v) <= data && VariantFits(v)
    ensures buf <= data
    ensures ReadVariant(data, Cursor(|buf|, false)) == (v, Cursor(|PutVariant(buf, v)|, false))
  {
    hide LE, ReadU64, ReadString, ReadBool, ReadU8;
    var b1 := buf + [Tag(v)];
    match v {
      case NilValue => assert b1 + [] == b1;
      case Int64(i) => ReadU64Back(b1, ToU64(i), data);
      case Double(d) => ReadU64Back(b1, d, data);
      case Bool(b) => ReadBoolBack(b1, b, data);
      case Text(t) => ReadStringBack(b1, t, data);
      case DateTime(d) => ReadU64Back(b1, d, data);
      case Uint64(u) => ReadU64Back(b1, u, data);
      case Other(_) => assert b1 + [] == b1;
    }
    ReadU8Back(buf, Tag(v), data);
  }

  predicate EntryFits(e: Entry) {
    |e.0| < 0xFFFF && VariantFits(e.1)
  }

  function Collect(m: map<bytes, Variant>, es: seq<Entry>): map<bytes, Variant>
    decreases |es|
  {
    if es == [] then m else Collect(m[es[0].0 := es[0].1], es[1..])
  }

  lemma {:induction false} ReadEntriesBack(buf: bytes, es: seq<Entry>, m: map<bytes, Variant>, data: bytes)
    requires PutEntries(buf, es) <= data && forall e :: e in es ==> EntryFits(e)
    ensures buf <= data
    ensures ReadEntries(data, Cursor(|buf|, false), |es|, m)
         == (Collect(m, es), Cursor(|PutEntries(buf, es)|, false))
    ensures |PutEntries(buf, es)| >= |buf| + |es|
    decreases |es|
  {
    hide PutVariant, StringBytes, ReadVariant, ReadString;
    if es != [] {
      var (k, v) := es[0];
      assert EntryFits(es[0]);
      ReadEntriesBack(PutEntry(buf, es[0]), es[1..], m[k := v], data);
      ReadVariantBack(buf + StringBytes(k), v, data);
      ReadStringBack(buf, k, data);
      assert |PutEntry(buf, es[0])| >= |buf| + 1 by { EntrySize(buf, k, v); }
    }
  }

  lemma {:induction false} EntrySize(buf: bytes, k: bytes, v: Variant)
    ensures |PutVariant(buf + StringBytes(k), v)| >= |buf| + 1
  {
  }

  /** Collecting keys that are all different keeps each key's own value. */
  lemma {:induction false} CollectKeeps(m: map<bytes, Variant>, es: seq<Entry>)
    requires forall i, j :: 0 <= i < j < |es| ==> es[i].0 != es[j].0
    ensures var c := Collect(m, es);
            && (forall i :: 0 <= i < |es| ==> es[i].0 in c && c[es[i].0] == es[i].1)
            && (forall k :: k in c ==> k in m || exists i :: 0 <= i < |es| && es[i].0 == k)
            && (forall k :: k in m && (forall i :: 0 <= i < |es| ==> es[i].0 != k) ==> k in c && c[k] == m[k])
    decreases |es|
  {
    if es != [] {
      var m1 := m[es[0].0 := es[0].1];
      CollectKeeps(m1, es[1..]);
      var c := Collect(m1, es[1..]);
      forall i | 0 <= i < |es| ensures es[i].0 in c && c[es[i].0] == es[i].1 {
        if i > 0 { assert es[1..][i - 1] == es[i]; }
      }
      forall k | k in c ensures k in m || exists i :: 0 <= i < |es| && es[i].0 == k {
        if k !in m1 {
          var i :| 0 <= i < |es[1..]| && es[1..][i].0 == k;
          assert es[i + 1].0 == k;
        } else if k !in m {
          assert es[0].0 == k;
        }
      }
    }
  }

  /** Whatever the walk order, the collected pairs are the map. */
  lemma {:induction false} CollectEnumeration(order: seq<Entry>, m: map<bytes, Variant>)
    requires Enumerates(order, m)
    ensures Collect(map[], order) == m
  {
    CollectKeeps(map[], order);
    var c := Collect(map[], order);
    forall k | k in m ensures k in c && c[k] == m[k] {
      var i :| 0 <= i < |order| && order[i].0 == k;
    }
  }

  predicate MapFits(order: seq<Entry>) {
    |order| < 0x1_0000_0000 && forall e :: e in order ==> EntryFits(e)
  }

  lemma {:induction false} ReadMapBack(buf: bytes, order: seq<Entry>, m: map<bytes, Variant>, data: bytes)
    requires PutMap(buf, order) <= data && Enumerates(order, m) && MapFits(order)
    ensures buf <= data
    ensures ReadMap(data, Cursor(|buf|, false)) == (m, Cursor(|PutMap(buf, order)|, false))
  {
    hide PutEntries, ReadEntries, LE, ReadU32, Collect, EntryFits, Enumerates;
    CollectEnumeration(order, m);
    var b1 := buf + LE(|order|, 4);
    ReadEntriesBack(b1, order, map[], data);
    ReadU32Back(buf, |order|, data);
  }

  lemma {:induction false} ReadU32sBack(buf: bytes, vs: seq<u32>, done: seq<u32>, data: bytes)
    requires PutU32s(buf, vs) <= data
    ensures buf <= data
    ensures ReadU32s(data, Cursor(|buf|, false), |vs|, done) == (done + vs, Cursor(|PutU32s(buf, vs)|, false))
    ensures |PutU32s(buf, vs)| >= |buf| + |vs|
    decreases |vs|
  {
    hide LE, ReadU32;
    if vs == [] {
      assert done + vs == done;
    } else {
      ReadU32sBack(buf + LE(vs[0], 4), vs[1..], done + [vs[0]], data);
      ReadU32Back(buf, vs[0], data);
      assert done + [vs[0]] + vs[1..] == done + vs;
    }
  }

  lemma {:induction false} ReadU32ListBack(buf: bytes, vs: seq<u32>, data: bytes)
    requires PutU32List(buf, vs) <= data && |vs| < 0x1_0000_0000
    ensures buf <= data
    ensures ReadU32List(data, Cursor(|buf|, false)) == (vs, Cursor(|PutU32List(buf, vs)|, false))
  {
    hide PutU32s, ReadU32s, LE, ReadU32;
    var b1 := buf + LE(|vs|, 4);
    ReadU32sBack(b1, vs, [], data);
    assert [] + vs == vs;
    ReadU32Back(buf, |vs|, data);
  }

  lemma {:induction false} ReadFrameBack(buf: bytes, body: bytes, data: bytes)
    requires PutFrame(buf, body) <= data && |body| < 0x1_0000_0000
    ensures buf <= data
    ensures ReadFrame(data, Cursor(|buf|, false)) == (body, Cursor(|PutFrame(buf, body)|, false))
  {
    hide BufferBytes, ReadBuffer, ReadU8;
    ReadBufferBack(buf + [0], body, data);
    ReadU8Back(buf, 0, data);
  }

  predicate GatheringFits(s: Settings, g: Gathering) {
    PidSurvives(s, g.ownerPid) && PidSurvives(s, g.hostPid) && |g.description| < 0xFFFF
  }

  lemma {:induction false} ReadGatheringBack(s: Settings, buf: bytes, g: Gathering, data: bytes)
    requires PutGathering(s, buf, g) <= data && GatheringFits(s, g)
    ensures buf <= data
    ensures ReadGathering(s, data, Cursor(|buf|, false)) == (g, Cursor(|PutGathering(s, buf, g)|, false))
  {
    hide LE, PidBytes, StringBytes, ReadU32, ReadU16, ReadPid, ReadString, PidSurvives;
    var b1 := buf + LE(g.id, 4);
    var b2 := b1 + PidBytes(s, g.ownerPid);
    var b3 := b2 + PidBytes(s, g.hostPid);
    var b4 := b3 + LE(g.minParticipants, 2);
    var b5 := b4 + LE(g.maxParticipants, 2);
    var b6 := b5 + LE(g.participationPolicy, 4);
    var b7 := b6 + LE(g.policyArgument, 4);
    var b8 := b7 + LE(g.flags, 4);
    var b9 := b8 + LE(g.state, 4);
    ReadStringBack(b9, g.description, data);
    ReadU32Back(b8, g.state, data);
    ReadU32Back(b7, g.flags, data);
    ReadU32Back(b6, g.policyArgument, data);
    ReadU32Back(b5, g.participationPolicy, data);
    ReadU16Back(b4, g.maxParticipants, data);
    ReadU16Back(b3, g.minParticipants, data);
    ReadPidBack(s, b2, g.hostPid, data);
    ReadPidBack(s, b1, g.ownerPid, data);
    ReadU32Back(buf, g.id, data);
  }

  predicate SessionFits(s: Settings, m: MatchmakeSession, order: seq<Entry>) {
    && GatheringFits(s, m.gathering) && MapFits(order)
    && |m.userPassword| < 0xFFFF && |m.codeword| < 0xFFFF
    && |m.attribs| < 0x1_0000_0000
    && |m.applicationData| < 0x1_0000_0000 && |m.sessionKey| < 0x1_0000_0000
    && |PutGathering(s, [], m.gathering)| < 0x1_0000_0000
    && |PutMap([], order)| < 0x1_0000_0000
    && |PutSessionLevel(s, [], m, order)| < 0x1_0000_0000
  }

  lemma {:induction false} ReadParamBack(
    s: Settings, buf: bytes, order: seq<Entry>, m: map<bytes, Variant>, data: bytes)
    requires PutParam(s, buf, order) <= data && Enumerates(order, m) && MapFits(order)
    requires |PutMap([], order)| < 0x1_0000_0000
    ensures buf <= data
    ensures ReadParam(s, data, Cursor(|buf|, false)) == (m, Cursor(|PutParam(s, buf, order)|, false))
  {
    hide PutMap, ReadMap, PutFrame, ReadFrame, Enumerates, MapFits;
    if s.structHeader {
      ReadFrameBack(buf, PutMap([], order), data);
      ReadMapBack([], order, m, PutMap([], order));
    } else {
      ReadMapBack(buf, order, m, data);
    }
  }

  lemma {:induction false} ReadSessionHeadBack(buf: bytes, m: MatchmakeSession, m0: MatchmakeSession, data: bytes)
    requires PutSessionHead(buf, m) <= data
    requires |m.attribs| < 0x1_0000_0000 && |m.applicationData| < 0x1_0000_0000 && |m.sessionKey| < 0x1_0000_0000
    ensures buf <= data
    ensures ReadSessionHead(data, Cursor(|buf|, false), m0)
         == (m0.(gameMode := m.gameMode, attribs := m.attribs, openParticipation := m.openParticipation,
                 matchmakeSystem := m.matchmakeSystem, applicationData := m.applicationData,
                 numParticipants := m.numParticipants, progressScore := m.progressScore,
                 sessionKey := m.sessionKey, option := m.option),
             Cursor(|PutSessionHead(buf, m)|, false))
  {
    hide LE, PutU32List, BoolBytes, BufferBytes, ReadU8, ReadU32, ReadU32List, ReadBool, ReadBuffer;
    var b1 := buf + LE(m.gameMode, 4);
    var b2 := PutU32List(b1, m.attribs);
    var b3 := b2 + BoolBytes(m.openParticipation);
    var b4 := b3 + LE(m.matchmakeSystem, 4);
    var b5 := b4 + BufferBytes(m.applicationData);
    var b6 := b5 + LE(m.numParticipants, 4);
    var b7 := b6 + [m.progressScore];
    var b8 := b7 + BufferBytes(m.sessionKey);
    ReadU32Back(b8, m.option, data);
    ReadBufferBack(b7, m.sessionKey, data);
    ReadU8Back(b6, m.progressScore, data);
    ReadU32Back(b5, m.numParticipants, data);
    ReadBufferBack(b4, m.applicationData, data);
    ReadU32Back(b3, m.matchmakeSystem, data);
    ReadBoolBack(b2, m.openParticipation, data);
    ReadU32ListBack(b1, m.attribs, data);
    ReadU32Back(buf, m.gameMode, data);
  }

  lemma {:induction false} ReadSessionTailBack(buf: bytes, m: MatchmakeSession, m0: MatchmakeSession, data: bytes)
    requires PutSessionTail(buf, m) <= data && |m.userPassword| < 0xFFFF && |m.codeword| < 0xFFFF
    ensures buf <= data
    ensures ReadSessionTail(data, Cursor(|buf|, false), m0)
         == (m0.(startedTime := m.startedTime, userPassword := m.userPassword, referGid := m.referGid,
                 userPasswordEnabled := m.userPasswordEnabled,
                 systemPasswordEnabled := m.systemPasswordEnabled, codeword := m.codeword),
             Cursor(|PutSessionTail(buf, m)|, false))
  {
    hide LE, StringBytes, BoolBytes, ReadU64, ReadU32, ReadString, ReadBool;
    var b1 := buf + LE(m.startedTime, 8);
    var b2 := b1 + StringBytes(m.userPassword);
    var b3 := b2 + LE(m.referGid, 4);
    var b4 := b3 + BoolBytes(m.userPasswordEnabled);
    var b5 := b4 + BoolBytes(m.systemPasswordEnabled);
    ReadStringBack(b5, m.codeword, data);
    ReadBoolBack(b4, m.systemPasswordEnabled, data);
    ReadBoolBack(b3, m.userPasswordEnabled, data);
    ReadU32Back(b2, m.referGid, data);
    ReadStringBack(b1, m.userPassword, data);
    ReadU64Back(buf, m.startedTime, data);
  }

  lemma {:induction false} ReadSessionLevelBack(
    s: Settings, buf: bytes, m: MatchmakeSession, order: seq<Entry>, data: bytes)
    requires PutSessionLevel(s, buf, m, order) <= data && SessionFits(s, m, order) && Enumerates(order, m.params)
    ensures buf <= data
    ensures ReadSessionLevel(s, data, Cursor(|buf|, false), BLANK_SESSION.(gathering := m.gathering))
         == (m, Cursor(|PutSessionLevel(s, buf, m, order)|, false))
  {
    hide PutSessionHead, PutParam, PutSessionTail, ReadSessionHead, ReadParam, ReadSessionTail,
         PutGathering, PutMap, MapFits, Enumerates, GatheringFits;
    var b1 := PutSessionHead(buf, m);
    var b2 := PutParam(s, b1, order);
    var m0 := BLANK_SESSION.(gathering := m.gathering);
    var m1 := ReadSessionHead(data, Cursor(|buf|, false), m0).0;
    ReadSessionTailBack(b2, m, m1.(params := m.params), data);
    ReadParamBack(s, b1, order, m.params, data);
    ReadSessionHeadBack(buf, m, m0, data);
  }

  /** A session decodes to itself, with no error and every byte consumed, whatever the order its
      parameter map was written in and whether or not structure headers are on. */
  lemma {:induction false} SessionRoundTrip(s: Settings, m: MatchmakeSession, order: seq<Entry>)
    requires SessionFits(s, m, order) && Enumerates(order, m.params)
    ensures var data := PutSession(s, [], m, order);
            ReadSession(s, data, Cursor(0, false)) == (m, Cursor(|data|, false))
  {
    hide PutGathering, PutSessionLevel, PutFrame, ReadFrame, ReadGathering, ReadSessionLevel, Enumerates;
    var data := PutSession(s, [], m, order);
    var base := PutGathering(s, [], m.gathering);
    if s.structHeader {
      var derived := PutSessionLevel(s, [], m, order);
      ReadFrameBack(PutFrame([], base), derived, data);
      ReadFrameBack([], base, data);
      ReadGatheringBack(s, [], m.gathering, base);
      ReadSessionLevelBack(s, [], m, order, derived);
    } else {
      ReadSessionLevelBack(s, base, m, order, data);
      ReadGatheringBack(s, [], m.gathering, data);
    }
  }

  /** With headers on, the outer stream reports success for any two framed bodies at all: a
      truncated or foreign level is not detected. */
  lemma {:induction false} FramedLevelsNeverFail(s: Settings, base: bytes, derived: bytes)
    requires s.structHeader && |base| < 0x1_0000_0000 && |derived| < 0x1_0000_0000
    ensures var data := PutFrame(PutFrame([], base), derived);
            ReadSession(s, data, Cursor(0, false)).1 == Cursor(|data|, false)
  {
    hide PutFrame, ReadFrame, ReadGathering, ReadSessionLevel;
    var data := PutFrame(PutFrame([], base), derived);
    ReadFrameBack(PutFrame([], base), derived, data);
    ReadFrameBack([], base, data);
  }

  // ---- When the outer stream notices ---------------------------------------------------

  /** Where the frame that starts at pos ends, if the bytes hold all of it. */
  function FrameEnd(d: bytes, pos: nat): (end: Option<nat>)
    ensures end.Some? ==> pos + 5 <= end.value <= |d|
  {
    if pos + 5 > |d| then None
    else
      var end := pos + 5 + Get32(d[pos + 1..pos + 5]);
      if end > |d| then None else Some(end)
  }

  /** Two frames one after the other, going by their length prefixes alone. */
  predicate HoldsTwoFrames(d: bytes) {
    FrameEnd(d, 0).Some? && FrameEnd(d, FrameEnd(d, 0).value).Some?
  }

  lemma {:induction false} ReadFrameErrs(d: bytes, pos: nat)
    requires pos <= |d|
    ensures var c := ReadFrame(d, Cursor(pos, false)).1;
            if FrameEnd(d, pos).Some? then c == Cursor(FrameEnd(d, pos).value, false) else c.err
  {
    hide UnLE;
  }

  lemma {:induction false} ErrorSticks(d: bytes, c: Cursor)
    requires c.err
    ensures ReadFrame(d, c).1.err
  {
    hide UnLE;
  }

  /** With headers on, reading a session fails exactly when the bytes do not hold two frames:
      what is inside the frames is never looked at. */
  lemma {:induction false} SessionErrorIff(s: Settings, d: bytes)
    requires s.structHeader
    ensures ReadSession(s, d, Cursor(0, false)).1.err <==> !HoldsTwoFrames(d)
  {
    hide FrameEnd, ReadFrame, ReadGathering, ReadSessionLevel;
    var c1 := ReadFrame(d, Cursor(0, false)).1;
    ReadFrameErrs(d, 0);
    if FrameEnd(d, 0).Some? {
      assert FrameEnd(d, 0).value <= |d|;
      ReadFrameErrs(d, FrameEnd(d, 0).value);
    } else {
      ErrorSticks(d, c1);
    }
  }

  /** Two empty frames: neither level can be read, and no error is reported. */
  lemma {:induction false} EmptyLevelsGoUnseen(s: Settings, m: MatchmakeSession)
    requires s.structHeader
    ensures ReadGathering(s, [], Cursor(0, false)).1.err && ReadSessionLevel(s, [], Cursor(0, false), m).1.err
    ensures !ReadSession(s, PutFrame(PutFrame([], []), []), Cursor(0, false)).1.err
  {
    EmptyFails(s, m);
    hide ReadSession, PutFrame, ReadGathering, ReadSessionLevel;
    FramedLevelsNeverFail(s, [], []);
  }

  lemma {:induction false} EmptyFails(s: Settings, m: MatchmakeSession)
    ensures ReadGathering(s, [], Cursor(0, false)).1.err && ReadSessionLevel(s, [], Cursor(0, false), m).1.err
  {
    hide UnLE;
  }
}
