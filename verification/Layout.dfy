/** Where every field of a session sits on the wire, position by position. */
module WireLayout {
  import opened Bytes
  import opened Streams
  import opened Structures
  import opened Fields

  // ---- The base level of a session --------------------------------------------------------------

  /** The gathering, with PIDs of w bytes in their public form. */
  predicate GatheringAt(s: Settings, b: bytes, at: nat, g: Gathering) {
    var w := PidSize(s);
    && NumberAt(b, at, g.id, 4)
    && NumberAt(b, at + 4, s.publique(g.ownerPid), w)
    && NumberAt(b, at + 4 + w, s.publique(g.hostPid), w)
    && NumberAt(b, at + 4 + 2 * w, g.minParticipants, 2)
    && NumberAt(b, at + 6 + 2 * w, g.maxParticipants, 2)
    && NumberAt(b, at + 8 + 2 * w, g.participationPolicy, 4)
    && NumberAt(b, at + 12 + 2 * w, g.policyArgument, 4)
    && NumberAt(b, at + 16 + 2 * w, g.flags, 4)
    && NumberAt(b, at + 20 + 2 * w, g.state, 4)
    && TextAt(b, at + 24 + 2 * w, g.description)
  }

  function GatheringSize(s: Settings, g: Gathering): nat {
    27 + 2 * PidSize(s) + |g.description|
  }

  lemma {:induction false} GatheringStep(s: Settings, buf: bytes, b: bytes, g: Gathering)
    ensures |PutGathering(s, buf, g)| == |buf| + GatheringSize(s, g)
    ensures PutGathering(s, buf, g) <= b <==> buf <= b && GatheringAt(s, b, |buf|, g)
  {
    hide LE, PidBytes, StringBytes, NumberAt, TextAt, PidSize;
    var b1 := buf + LE(g.id, 4);
    var b2 := b1 + PidBytes(s, g.ownerPid);
    var b3 := b2 + PidBytes(s, g.hostPid);
    var b4 := b3 + LE(g.minParticipants, 2);
    var b5 := b4 + LE(g.maxParticipants, 2);
    var b6 := b5 + LE(g.participationPolicy, 4);
    var b7 := b6 + LE(g.policyArgument, 4);
    var b8 := b7 + LE(g.flags, 4);
    var b9 := b8 + LE(g.state, 4);
    NumberStep(buf, b, g.id, 4);
    PidStep(s, b1, b, g.ownerPid);
    PidStep(s, b2, b, g.hostPid);
    NumberStep(b3, b, g.minParticipants, 2);
    NumberStep(b4, b, g.maxParticipants, 2);
    NumberStep(b5, b, g.participationPolicy, 4);
    NumberStep(b6, b, g.policyArgument, 4);
    NumberStep(b7, b, g.flags, 4);
    NumberStep(b8, b, g.state, 4);
    TextStep(b9, b, g.description);
  }

  // ---- Variants, lists and maps -------------------------------------------------------------------

  /** The tag, then eight bytes, one byte, a text or nothing. */
  predicate VariantAt(b: bytes, at: nat, v: Variant) {
    match v
    case NilValue => ByteAt(b, at, 0)
    case Int64(i) =>
      ByteAt(b, at, 1) && NumberAt(b, at + 1, if i < 0 then i + 0x1_0000_0000_0000_0000 else i, 8)
    case Double(d) => ByteAt(b, at, 2) && NumberAt(b, at + 1, d, 8)
    case Bool(x) => ByteAt(b, at, 3) && FlagAt(b, at + 1, x)
    case Text(t) => ByteAt(b, at, 4) && TextAt(b, at + 1, t)
    case DateTime(d) => ByteAt(b, at, 5) && NumberAt(b, at + 1, d, 8)
    case Uint64(u) => ByteAt(b, at, 6) && NumberAt(b, at + 1, u, 8)
    case Other(t) => ByteAt(b, at, t)
  }

  function VariantSize(v: Variant): nat {
    match v
    case NilValue => 1
    case Other(_) => 1
    case Bool(_) => 2
    case Text(t) => 4 + |t|
    case _ => 9
  }

  lemma {:induction false} VariantStep(buf: bytes, b: bytes, v: Variant)
    ensures |PutVariant(buf, v)| == |buf| + VariantSize(v)
    ensures PutVariant(buf, v) <= b <==> buf <= b && VariantAt(b, |buf|, v)
  {
    hide LE, BoolBytes, StringBytes, NumberAt, TextAt, ByteAt, FlagAt;
    var b1 := buf + [Tag(v)];
    ByteStep(buf, b, Tag(v));
    match v {
      case NilValue => assert b1 + [] == b1;
      case Int64(i) => NumberStep(b1, b, ToU64(i), 8);
      case Double(d) => NumberStep(b1, b, d, 8);
      case Bool(x) => FlagStep(b1, b, x);
      case Text(t) => TextStep(b1, b, t);
      case DateTime(d) => NumberStep(b1, b, d, 8);
      case Uint64(u) => NumberStep(b1, b, u, 8);
      case Other(_) => assert b1 + [] == b1;
    }
  }

  /** Keys and values one after the other. */
  predicate EntriesAt(b: bytes, at: nat, es: seq<Entry>)
    decreases |es|
  {
    es == []
    || (TextAt(b, at, es[0].0) && VariantAt(b, at + 3 + |es[0].0|, es[0].1)
        && EntriesAt(b, at + EntrySize(es[0]), es[1..]))
  }

  function EntrySize(e: Entry): nat {
    3 + |e.0| + VariantSize(e.1)
  }

  function EntriesSize(es: seq<Entry>): nat {
    if es == [] then 0 else EntrySize(es[0]) + EntriesSize(es[1..])
  }

  lemma {:induction false} EntryStep(buf: bytes, b: bytes, e: Entry)
    ensures |PutEntry(buf, e)| == |buf| + EntrySize(e)
    ensures PutEntry(buf, e) <= b
       <==> buf <= b && TextAt(b, |buf|, e.0) && VariantAt(b, |buf| + 3 + |e.0|, e.1)
  {
    hide PutVariant, StringBytes, TextAt, VariantAt, VariantSize;
    TextStep(buf, b, e.0);
    VariantStep(buf + StringBytes(e.0), b, e.1);
  }

  lemma {:induction false} EntriesStep(buf: bytes, b: bytes, es: seq<Entry>)
    ensures |PutEntries(buf, es)| == |buf| + EntriesSize(es)
    ensures PutEntries(buf, es) <= b <==> buf <= b && EntriesAt(b, |buf|, es)
    decreases |es|
  {
    hide PutEntry, TextAt, VariantAt, EntrySize;
    if es != [] {
      EntryStep(buf, b, es[0]);
      EntriesStep(PutEntry(buf, es[0]), b, es[1..]);
    }
  }

  /** The count, then the entries. */
  predicate MapAt(b: bytes, at: nat, order: seq<Entry>) {
    NumberAt(b, at, |order|, 4) && EntriesAt(b, at + 4, order)
  }

  lemma {:induction false} MapStep(buf: bytes, b: bytes, order: seq<Entry>)
    ensures |PutMap(buf, order)| == |buf| + 4 + EntriesSize(order)
    ensures PutMap(buf, order) <= b <==> buf <= b && MapAt(b, |buf|, order)
  {
    hide LE, PutEntries, NumberAt, EntriesAt, EntriesSize;
    NumberStep(buf, b, |order|, 4);
    EntriesStep(buf + LE(|order|, 4), b, order);
  }

  /** The numbers, four bytes each. */
  predicate NumbersAt(b: bytes, at: nat, vs: seq<u32>) {
    forall i: nat :: i < |vs| ==> NumberAt(b, at + 4 * i, vs[i], 4)
  }

  lemma {:induction false} NumbersStep(buf: bytes, b: bytes, vs: seq<u32>)
    ensures |PutU32s(buf, vs)| == |buf| + 4 * |vs|
    ensures PutU32s(buf, vs) <= b <==> buf <= b && NumbersAt(b, |buf|, vs)
    decreases |vs|
  {
    hide LE, NumberAt;
    if vs != [] {
      NumberStep(buf, b, vs[0], 4);
      NumbersStep(buf + LE(vs[0], 4), b, vs[1..]);
      NumbersSplit(b, |buf|, vs);
    }
  }

  lemma {:induction false} NumbersSplit(b: bytes, at: nat, vs: seq<u32>)
    requires vs != []
    ensures NumbersAt(b, at, vs) <==> NumberAt(b, at, vs[0], 4) && NumbersAt(b, at + 4, vs[1..])
  {
    hide NumberAt;
    if NumbersAt(b, at, vs) {
      assert NumberAt(b, at + 4 * 0, vs[0], 4);
      forall i: nat | i < |vs[1..]| ensures NumberAt(b, at + 4 + 4 * i, vs[1..][i], 4) {
        assert NumberAt(b, at + 4 * (i + 1), vs[i + 1], 4);
      }
    }
    if NumberAt(b, at, vs[0], 4) && NumbersAt(b, at + 4, vs[1..]) {
      forall i: nat | i < |vs| ensures NumberAt(b, at + 4 * i, vs[i], 4) {
        if i > 0 {
          assert NumberAt(b, at + 4 + 4 * (i - 1), vs[1..][i - 1], 4);
        }
      }
    }
  }

  predicate ListAt(b: bytes, at: nat, vs: seq<u32>) {
    NumberAt(b, at, |vs|, 4) && NumbersAt(b, at + 4, vs)
  }

  lemma {:induction false} ListStep(buf: bytes, b: bytes, vs: seq<u32>)
    ensures |PutU32List(buf, vs)| == |buf| + 4 + 4 * |vs|
    ensures PutU32List(buf, vs) <= b <==> buf <= b && ListAt(b, |buf|, vs)
  {
    hide LE, PutU32s, NumberAt, NumbersAt;
    NumberStep(buf, b, |vs|, 4);
    NumbersStep(buf + LE(|vs|, 4), b, vs);
  }

  // ---- The derived level --------------------------------------------------------------------------

  /** The fields before the parameters; what follows the attributes shifts with their number. */
  predicate HeadAt(b: bytes, at: nat, m: MatchmakeSession) {
    var n, a := 4 * |m.attribs|, |m.applicationData|;
    && NumberAt(b, at, m.gameMode, 4)
    && ListAt(b, at + 4, m.attribs)
    && FlagAt(b, at + 8 + n, m.openParticipation)
    && NumberAt(b, at + 9 + n, m.matchmakeSystem, 4)
    && BufferAt(b, at + 13 + n, m.applicationData)
    && NumberAt(b, at + 17 + n + a, m.numParticipants, 4)
    && ByteAt(b, at + 21 + n + a, m.progressScore)
    && BufferAt(b, at + 22 + n + a, m.sessionKey)
    && NumberAt(b, at + 26 + n + a + |m.sessionKey|, m.option, 4)
  }

  function HeadSize(m: MatchmakeSession): nat {
    30 + 4 * |m.attribs| + |m.applicationData| + |m.sessionKey|
  }

  lemma {:induction false} HeadStep(buf: bytes, b: bytes, m: MatchmakeSession)
    ensures |PutSessionHead(buf, m)| == |buf| + HeadSize(m)
    ensures PutSessionHead(buf, m) <= b <==> buf <= b && HeadAt(b, |buf|, m)
  {
    hide LE, PutU32List, BoolBytes, BufferBytes, NumberAt, ListAt, FlagAt, BufferAt, ByteAt;
    var b1 := buf + LE(m.gameMode, 4);
    var b2 := PutU32List(b1, m.attribs);
    var b3 := b2 + BoolBytes(m.openParticipation);
    var b4 := b3 + LE(m.matchmakeSystem, 4);
    var b5 := b4 + BufferBytes(m.applicationData);
    var b6 := b5 + LE(m.numParticipants, 4);
    var b7 := b6 + [m.progressScore];
    var b8 := b7 + BufferBytes(m.sessionKey);
    NumberStep(buf, b, m.gameMode, 4);
    ListStep(b1, b, m.attribs);
    FlagStep(b2, b, m.openParticipation);
    NumberStep(b3, b, m.matchmakeSystem, 4);
    BufferStep(b4, b, m.applicationData);
    NumberStep(b5, b, m.numParticipants, 4);
    ByteStep(b6, b, m.progressScore);
    BufferStep(b7, b, m.sessionKey);
    NumberStep(b8, b, m.option, 4);
  }

  /** The fields after the parameters. */
  predicate TailAt(b: bytes, at: nat, m: MatchmakeSession) {
    var p := |m.userPassword|;
    && NumberAt(b, at, m.startedTime, 8)
    && TextAt(b, at + 8, m.userPassword)
    && NumberAt(b, at + 11 + p, m.referGid, 4)
    && FlagAt(b, at + 15 + p, m.userPasswordEnabled)
    && FlagAt(b, at + 16 + p, m.systemPasswordEnabled)
    && TextAt(b, at + 17 + p, m.codeword)
  }

  function TailSize(m: MatchmakeSession): nat {
    20 + |m.userPassword| + |m.codeword|
  }

  lemma {:induction false} TailStep(buf: bytes, b: bytes, m: MatchmakeSession)
    ensures |PutSessionTail(buf, m)| == |buf| + TailSize(m)
    ensures PutSessionTail(buf, m) <= b <==> buf <= b && TailAt(b, |buf|, m)
  {
    hide LE, BoolBytes, StringBytes, NumberAt, TextAt, FlagAt;
    var b1 := buf + LE(m.startedTime, 8);
    var b2 := b1 + StringBytes(m.userPassword);
    var b3 := b2 + LE(m.referGid, 4);
    var b4 := b3 + BoolBytes(m.userPasswordEnabled);
    var b5 := b4 + BoolBytes(m.systemPasswordEnabled);
    NumberStep(buf, b, m.startedTime, 8);
    TextStep(b1, b, m.userPassword);
    NumberStep(b2, b, m.referGid, 4);
    FlagStep(b3, b, m.userPasswordEnabled);
    FlagStep(b4, b, m.systemPasswordEnabled);
    TextStep(b5, b, m.codeword);
  }

  /** The five bytes in front of a framed body: version zero and the body's size. */
  predicate FrameAt(s: Settings, b: bytes, at: nat, size: nat) {
    s.structHeader ==> ByteAt(b, at, 0) && NumberAt(b, at + 1, size, 4)
  }

  function FrameSize(s: Settings): nat {
    if s.structHeader then 5 else 0
  }

  function Framing(s: Settings, buf: bytes, size: nat): bytes {
    if s.structHeader then buf + [0] + LE(size, 4) else buf
  }

  lemma {:induction false} FrameStep(s: Settings, buf: bytes, b: bytes, size: nat)
    ensures |Framing(s, buf, size)| == |buf| + FrameSize(s)
    ensures Framing(s, buf, size) <= b <==> buf <= b && FrameAt(s, b, |buf|, size)
  {
    hide LE, NumberAt, ByteAt;
    ByteStep(buf, b, 0);
    NumberStep(buf + [0], b, size, 4);
  }

  // Writing at the end of a buffer is appending what is written into an empty one.

  lemma {:induction false} EntriesAppend(buf: bytes, start: bytes, es: seq<Entry>)
    ensures PutEntries(buf + start, es) == buf + PutEntries(start, es)
    decreases |es|
  {
    hide StringBytes, VariantBody, Tag;
    if es != [] {
      assert PutEntry(buf + start, es[0]) == buf + PutEntry(start, es[0]);
      EntriesAppend(buf, PutEntry(start, es[0]), es[1..]);
    }
  }

  lemma {:induction false} MapAppend(buf: bytes, order: seq<Entry>)
    ensures PutMap(buf, order) == buf + PutMap([], order)
  {
    hide LE, PutEntries;
    EntriesAppend(buf, [] + LE(|order|, 4), order);
    assert buf + ([] + LE(|order|, 4)) == buf + LE(|order|, 4);
  }

  lemma {:induction false} NumbersAppend(buf: bytes, start: bytes, vs: seq<u32>)
    ensures PutU32s(buf + start, vs) == buf + PutU32s(start, vs)
    decreases |vs|
  {
    hide LE;
    if vs != [] {
      assert buf + start + LE(vs[0], 4) == buf + (start + LE(vs[0], 4));
      NumbersAppend(buf, start + LE(vs[0], 4), vs[1..]);
    }
  }

  lemma {:induction false} GatheringAppend(s: Settings, buf: bytes, g: Gathering)
    ensures PutGathering(s, buf, g) == buf + PutGathering(s, [], g)
  {
    hide LE, PidBytes, StringBytes;
    var c1 := [] + LE(g.id, 4);
    var c2 := c1 + PidBytes(s, g.ownerPid);
    var c3 := c2 + PidBytes(s, g.hostPid);
    var c4 := c3 + LE(g.minParticipants, 2);
    var c5 := c4 + LE(g.maxParticipants, 2);
    var c6 := c5 + LE(g.participationPolicy, 4);
    var c7 := c6 + LE(g.policyArgument, 4);
    var c8 := c7 + LE(g.flags, 4);
    var c9 := c8 + LE(g.state, 4);
    assert buf + LE(g.id, 4) == buf + c1;
    Joined(buf, c1, PidBytes(s, g.ownerPid));
    Joined(buf, c2, PidBytes(s, g.hostPid));
    Joined(buf, c3, LE(g.minParticipants, 2));
    Joined(buf, c4, LE(g.maxParticipants, 2));
    Joined(buf, c5, LE(g.participationPolicy, 4));
    Joined(buf, c6, LE(g.policyArgument, 4));
    Joined(buf, c7, LE(g.flags, 4));
    Joined(buf, c8, LE(g.state, 4));
    Joined(buf, c9, StringBytes(g.description));
  }

  lemma {:induction false} HeadAppend(buf: bytes, m: MatchmakeSession)
    ensures PutSessionHead(buf, m) == buf + PutSessionHead([], m)
  {
    hide LE, PutU32s, BoolBytes, BufferBytes;
    var c1 := [] + LE(m.gameMode, 4);
    var c2 := PutU32List(c1, m.attribs);
    var c3 := c2 + BoolBytes(m.openParticipation);
    var c4 := c3 + LE(m.matchmakeSystem, 4);
    var c5 := c4 + BufferBytes(m.applicationData);
    var c6 := c5 + LE(m.numParticipants, 4);
    var c7 := c6 + [m.progressScore];
    var c8 := c7 + BufferBytes(m.sessionKey);
    assert buf + LE(m.gameMode, 4) == buf + c1;
    Joined(buf, c1, LE(|m.attribs|, 4));
    NumbersAppend(buf, c1 + LE(|m.attribs|, 4), m.attribs);
    Joined(buf, c2, BoolBytes(m.openParticipation));
    Joined(buf, c3, LE(m.matchmakeSystem, 4));
    Joined(buf, c4, BufferBytes(m.applicationData));
    Joined(buf, c5, LE(m.numParticipants, 4));
    Joined(buf, c6, [m.progressScore]);
    Joined(buf, c7, BufferBytes(m.sessionKey));
    Joined(buf, c8, LE(m.option, 4));
  }

  lemma {:induction false} ParamAppend(s: Settings, buf: bytes, start: bytes, order: seq<Entry>)
    ensures PutParam(s, buf + start, order) == buf + PutParam(s, start, order)
  {
    hide PutMap, BufferBytes;
    if s.structHeader {
      Joined(buf, start, [0]);
      Joined(buf, start + [0], BufferBytes(PutMap([], order)));
    } else {
      MapAppend(buf + start, order);
      MapAppend(start, order);
      Joined(buf, start, PutMap([], order));
    }
  }

  lemma {:induction false} TailAppend(buf: bytes, start: bytes, m: MatchmakeSession)
    ensures PutSessionTail(buf + start, m) == buf + PutSessionTail(start, m)
  {
    hide LE, BoolBytes, StringBytes;
    var c1 := start + LE(m.startedTime, 8);
    var c2 := c1 + StringBytes(m.userPassword);
    var c3 := c2 + LE(m.referGid, 4);
    var c4 := c3 + BoolBytes(m.userPasswordEnabled);
    var c5 := c4 + BoolBytes(m.systemPasswordEnabled);
    Joined(buf, start, LE(m.startedTime, 8));
    Joined(buf, c1, StringBytes(m.userPassword));
    Joined(buf, c2, LE(m.referGid, 4));
    Joined(buf, c3, BoolBytes(m.userPasswordEnabled));
    Joined(buf, c4, BoolBytes(m.systemPasswordEnabled));
    Joined(buf, c5, StringBytes(m.codeword));
  }

  lemma {:induction false} LevelAppend(s: Settings, buf: bytes, m: MatchmakeSession, order: seq<Entry>)
    ensures PutSessionLevel(s, buf, m, order) == buf + PutSessionLevel(s, [], m, order)
  {
    hide PutSessionHead, PutParam, PutSessionTail;
    HeadAppend(buf, m);
    ParamAppend(s, buf, PutSessionHead([], m), order);
    TailAppend(buf, PutParam(s, PutSessionHead([], m), order), m);
  }

  // ---- The whole session ----------------------------------------------------------------------------

  /** The parameters, framed when headers are on. */
  predicate ParamAt(s: Settings, b: bytes, at: nat, order: seq<Entry>) {
    FrameAt(s, b, at, 4 + EntriesSize(order)) && MapAt(b, at + FrameSize(s), order)
  }

  function ParamSize(s: Settings, order: seq<Entry>): nat {
    FrameSize(s) + 4 + EntriesSize(order)
  }

  lemma {:induction false} ParamStep(s: Settings, buf: bytes, b: bytes, order: seq<Entry>)
    ensures |PutParam(s, buf, order)| == |buf| + ParamSize(s, order)
    ensures PutParam(s, buf, order) <= b <==> buf <= b && ParamAt(s, b, |buf|, order)
  {
    hide LE, PutMap, FrameAt, MapAt, EntriesSize;
    var size := 4 + EntriesSize(order);
    var head := Framing(s, buf, size);
    MapStep([], b, order);
    MapAppend(head, order);
    Joined(buf + [0], LE(size, 4), PutMap([], order));
    assert PutParam(s, buf, order) == PutMap(head, order);
    FrameStep(s, buf, b, size);
    MapStep(head, b, order);
  }

  predicate LevelAt(s: Settings, b: bytes, at: nat, m: MatchmakeSession, order: seq<Entry>) {
    && HeadAt(b, at, m)
    && ParamAt(s, b, at + HeadSize(m), order)
    && TailAt(b, at + HeadSize(m) + ParamSize(s, order), m)
  }

  function LevelSize(s: Settings, m: MatchmakeSession, order: seq<Entry>): nat {
    HeadSize(m) + ParamSize(s, order) + TailSize(m)
  }

  lemma {:induction false} LevelStep(s: Settings, buf: bytes, b: bytes, m: MatchmakeSession, order: seq<Entry>)
    ensures |PutSessionLevel(s, buf, m, order)| == |buf| + LevelSize(s, m, order)
    ensures PutSessionLevel(s, buf, m, order) <= b <==> buf <= b && LevelAt(s, b, |buf|, m, order)
  {
    hide PutSessionHead, PutParam, PutSessionTail, HeadAt, ParamAt, TailAt, HeadSize, ParamSize, TailSize;
    var b1 := PutSessionHead(buf, m);
    HeadStep(buf, b, m);
    ParamStep(s, b1, b, order);
    TailStep(PutParam(s, b1, order), b, m);
  }

  /** Both levels, each behind its frame when headers are on; `order` is the order of the
      parameters. */
  predicate SessionAt(s: Settings, b: bytes, at: nat, m: MatchmakeSession, order: seq<Entry>) {
    var base := at + FrameSize(s);
    var second := base + GatheringSize(s, m.gathering);
    && FrameAt(s, b, at, GatheringSize(s, m.gathering)) && GatheringAt(s, b, base, m.gathering)
    && FrameAt(s, b, second, LevelSize(s, m, order)) && LevelAt(s, b, second + FrameSize(s), m, order)
  }

  function SessionSize(s: Settings, m: MatchmakeSession, order: seq<Entry>): nat {
    2 * FrameSize(s) + GatheringSize(s, m.gathering) + LevelSize(s, m, order)
  }

  /** A session is written at the end of a buffer exactly when, the buffer kept, every field of
      both levels sits at its place behind it. */
  lemma {:induction false} SessionLayout(s: Settings, buf: bytes, b: bytes, m: MatchmakeSession, order: seq<Entry>)
    ensures |PutSession(s, buf, m, order)| == |buf| + SessionSize(s, m, order)
    ensures PutSession(s, buf, m, order) <= b <==> buf <= b && SessionAt(s, b, |buf|, m, order)
  {
    hide LE, PutGathering, PutSessionLevel, FrameAt, GatheringAt, LevelAt, GatheringSize, LevelSize;
    var n1, n2 := GatheringSize(s, m.gathering), LevelSize(s, m, order);
    var b1 := Framing(s, buf, n1);
    var b2 := PutGathering(s, b1, m.gathering);
    var b3 := Framing(s, b2, n2);
    SessionInSteps(s, buf, m, order);
    FrameStep(s, buf, b, n1);
    GatheringStep(s, b1, b, m.gathering);
    FrameStep(s, b2, b, n2);
    LevelStep(s, b3, b, m, order);
  }

  lemma {:induction false} SessionInSteps(s: Settings, buf: bytes, m: MatchmakeSession, order: seq<Entry>)
    ensures var b1 := Framing(s, buf, GatheringSize(s, m.gathering));
            var b2 := PutGathering(s, b1, m.gathering);
            PutSession(s, buf, m, order) == PutSessionLevel(s, Framing(s, b2, LevelSize(s, m, order)), m, order)
  {
    hide LE, PutGathering, PutSessionLevel, GatheringSize, LevelSize;
    var g, l := PutGathering(s, [], m.gathering), PutSessionLevel(s, [], m, order);
    GatheringStep(s, [], [], m.gathering);
    LevelStep(s, [], [], m, order);
    var b1 := Framing(s, buf, |g|);
    GatheringAppend(s, b1, m.gathering);
    LevelAppend(s, Framing(s, b1 + g, |l|), m, order);
    if s.structHeader {
      Joined(buf + [0], LE(|g|, 4), g);
      Joined(b1 + g + [0], LE(|l|, 4), l);
    }
  }

  /** The bytes hold this session, within the length bounds, and nothing else. */
  predicate LaysOut(s: Settings, b: bytes, m: MatchmakeSession, order: seq<Entry>) {
    && SessionFits(s, m, order) && Enumerates(order, m.params)
    && SessionAt(s, b, 0, m, order) && |b| == SessionSize(s, m, order)
  }

  /** Whatever bytes lay a session out in this way read as that session. */
  lemma {:induction false} LaidOutReads(s: Settings, b: bytes, m: MatchmakeSession, order: seq<Entry>)
    requires LaysOut(s, b, m, order)
    ensures ReadSession(s, b, Cursor(0, false)) == (m, Cursor(|b|, false))
  {
    hide SessionAt, SessionSize, PutSession, ReadSession, SessionFits, Enumerates;
    SessionLayout(s, [], b, m, order);
    SessionRoundTrip(s, m, order);
    assert PutSession(s, [], m, order) == b;
  }
}
