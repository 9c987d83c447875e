/** Saving and loading structures through the streams (stream.go, types.go, matchmaking.go). */
module SessionCodec {
  import opened Bytes
  import opened Streams
  import opened Structures
  import opened WireLayout

  // ---- Save -------------------------------------------------------------------------

  method WriteVariant(o: StreamOut, v: Variant)
    modifies o
    ensures o.buf == PutVariant(old(o.buf), v)
  {
    o.U8(Tag(v));
    match v {
      case Int64(i) => o.U64(ToU64(i));
      case Double(d) => o.U64(d);
      case Bool(b) => o.Bool(b);
      case Text(t) => o.String(t);
      case DateTime(d) => o.U64(d);
      case Uint64(u) => o.U64(u);
      case _ =>
    }
  }

  method WriteU32List(o: StreamOut, list: seq<u32>)
    modifies o
    ensures o.buf == PutU32List(old(o.buf), list)
  {
    o.U32(|list|);
    var i := 0;
    while i < |list|
      invariant 0 <= i <= |list|
      invariant PutU32List(old(o.buf), list) == PutU32s(o.buf, list[i..])
    {
      o.U32(list[i]);
      i := i + 1;
    }
  }

  lemma {:induction false} PutEntriesSnoc(buf: bytes, es: seq<Entry>, e: Entry)
    ensures PutEntries(buf, es + [e]) == PutEntry(PutEntries(buf, es), e)
    decreases |es|
  {
    hide PutEntry;
    if es == [] {
      assert es + [e] == [e] && [e][1..] == [];
    } else {
      PutEntriesSnoc(PutEntry(buf, es[0]), es[1..], e);
      assert (es + [e])[1..] == es[1..] + [e];
    }
  }

  lemma {:induction false} EnumeratesSnoc(order: seq<Entry>, m: map<bytes, Variant>, k: bytes, v: Variant)
    requires Enumerates(order, m) && k !in m
    ensures Enumerates(order + [(k, v)], m[k := v])
  {
    var order' := order + [(k, v)];
    assert order'[|order|].0 == k;
    forall k' | k' in m ensures exists i :: 0 <= i < |order'| && order'[i].0 == k' {
      var i :| 0 <= i < |order| && order[i].0 == k';
      assert order'[i].0 == k';
    }
  }

  /** A Go map is walked in an arbitrary order, each key once. */
  method WriteMap(o: StreamOut, m: map<bytes, Variant>) returns (ghost order: seq<Entry>)
    modifies o
    ensures Enumerates(order, m) && o.buf == PutMap(old(o.buf), order)
  {
    hide PutVariant, StringBytes, PutEntry, Enumerates;
    o.U32(|m|);
    ghost var start := o.buf;
    order := [];
    var todo := m.Keys;
    assert m - todo == map[];
    assert Enumerates(order, m - todo) by { EnumeratesNothing(); }
    while todo != {}
      invariant todo <= m.Keys && |order| + |todo| == |m|
      invariant Enumerates(order, m - todo)
      invariant o.buf == PutEntries(start, order)
      decreases todo
    {
      var k :| k in todo;
      o.String(k);
      WriteVariant(o, m[k]);
      EntryIsAppended(PutEntries(start, order), k, m[k]);
      assert o.buf == PutEntry(PutEntries(start, order), (k, m[k]));
      PutEntriesSnoc(start, order, (k, m[k]));
      EnumeratesSnoc(order, m - todo, k, m[k]);
      assert (m - todo)[k := m[k]] == m - (todo - {k});
      order := order + [(k, m[k])];
      todo := todo - {k};
    }
    assert m - {} == m;
  }

  lemma {:induction false} EnumeratesNothing()
    ensures Enumerates([], map[])
  {
  }

  lemma {:induction false} EntryIsAppended(buf: bytes, k: bytes, v: Variant)
    ensures PutEntry(buf, (k, v)) == PutVariant(buf + StringBytes(k), v)
  {
  }

  method SaveGathering(o: StreamOut, g: Gathering)
    modifies o
    ensures o.buf == PutGathering(o.settings, old(o.buf), g)
  {
    hide LE, PidBytes, StringBytes;
    o.U32(g.id);
    o.PID(g.ownerPid);
    o.PID(g.hostPid);
    o.U16(g.minParticipants);
    o.U16(g.maxParticipants);
    o.U32(g.participationPolicy);
    o.U32(g.policyArgument);
    o.U32(g.flags);
    o.U32(g.state);
    o.String(g.description);
  }

  method AddFrame(o: StreamOut, body: bytes)
    modifies o
    ensures o.buf == PutFrame(old(o.buf), body)
  {
    o.U8(0);
    o.Buffer(body);
  }

  method AddParam(o: StreamOut, params: map<bytes, Variant>) returns (ghost order: seq<Entry>)
    modifies o
    ensures Enumerates(order, params) && o.buf == PutParam(o.settings, old(o.buf), order)
  {
    hide PutMap, Enumerates;
    if o.settings.structHeader {
      var sub := new StreamOut(o.settings);
      order := WriteMap(sub, params);
      AddFrame(o, sub.buf);
    } else {
      order := WriteMap(o, params);
    }
  }

  method SaveSessionLevel(o: StreamOut, m: MatchmakeSession) returns (ghost order: seq<Entry>)
    modifies o
    ensures Enumerates(order, m.params) && o.buf == PutSessionLevel(o.settings, old(o.buf), m, order)
  {
    hide LE, BoolBytes, BufferBytes, StringBytes, PutU32List, PutParam, Enumerates;
    o.U32(m.gameMode);
    WriteU32List(o, m.attribs);
    o.Bool(m.openParticipation);
    o.U32(m.matchmakeSystem);
    o.Buffer(m.applicationData);
    o.U32(m.numParticipants);
    o.U8(m.progressScore);
    o.Buffer(m.sessionKey);
    o.U32(m.option);
    assert o.buf == PutSessionHead(old(o.buf), m);
    order := AddParam(o, m.params);
    ghost var b := o.buf;
    o.U64(m.startedTime);
    o.String(m.userPassword);
    o.U32(m.referGid);
    o.Bool(m.userPasswordEnabled);
    o.Bool(m.systemPasswordEnabled);
    o.String(m.codeword);
    assert o.buf == PutSessionTail(b, m);
  }

  /** Every field of both levels ends up at its place behind what was there. */
  method WriteSession(o: StreamOut, m: MatchmakeSession) returns (ghost order: seq<Entry>)
    modifies o
    ensures Enumerates(order, m.params) && o.buf == PutSession(o.settings, old(o.buf), m, order)
    ensures old(o.buf) <= o.buf && |o.buf| == |old(o.buf)| + SessionSize(o.settings, m, order)
    ensures SessionAt(o.settings, o.buf, |old(o.buf)|, m, order)
  {
    hide PutGathering, PutSessionLevel, Enumerates, SessionAt, SessionSize;
    if o.settings.structHeader {
      var sub := new StreamOut(o.settings);
      SaveGathering(sub, m.gathering);
      AddFrame(o, sub.buf);
      sub := new StreamOut(o.settings);
      order := SaveSessionLevel(sub, m);
      AddFrame(o, sub.buf);
    } else {
      SaveGathering(o, m.gathering);
      order := SaveSessionLevel(o, m);
    }
    SessionLayout(o.settings, old(o.buf), o.buf, m, order);
  }

  // ---- Load -------------------------------------------------------------------------

  method LoadVariant(i: StreamIn) returns (v: Variant)
    requires i.Valid()
    modifies i
    ensures i.Valid() && (v, i.Cur()) == ReadVariant(i.data, old(i.Cur()))
  {
    hide ReadU64, ReadBool, ReadString;
    var tag := i.U8();
    match tag {
      case 0 => v := NilValue;
      case 1 => var w := i.U64(); v := Int64(FromU64(w));
      case 2 => var w := i.U64(); v := Double(w);
      case 3 => var w := i.Bool(); v := Bool(w);
      case 4 => var w := i.String(); v := Text(w);
      case 5 => var w := i.U64(); v := DateTime(w);
      case 6 => var w := i.U64(); v := Uint64(w);
      case _ => v := Other(tag);
    }
  }

  method LoadMap(i: StreamIn) returns (m: map<bytes, Variant>)
    requires i.Valid()
    modifies i
    ensures i.Valid() && (m, i.Cur()) == ReadMap(i.data, old(i.Cur()))
  {
    hide ReadU32, ReadString, ReadVariant;
    var n := i.U32();
    if i.pos + n > |i.data| {
      i.err := true;
      return map[];
    }
    m := map[];
    var k := 0;
    while k < n
      invariant 0 <= k <= n && i.Valid()
      invariant ReadMap(i.data, old(i.Cur())) == ReadEntries(i.data, i.Cur(), n - k, m)
    {
      var key := i.String();
      var value := LoadVariant(i);
      m := m[key := value];
      k := k + 1;
    }
  }

  method LoadU32List(i: StreamIn) returns (vs: seq<u32>)
    requires i.Valid()
    modifies i
    ensures i.Valid() && (vs, i.Cur()) == ReadU32List(i.data, old(i.Cur()))
  {
    hide ReadU32;
    var n := i.U32();
    if i.pos + n > |i.data| {
      i.err := true;
      return [];
    }
    vs := [];
    var k := 0;
    while k < n
      invariant 0 <= k <= n && i.Valid()
      invariant ReadU32List(i.data, old(i.Cur())) == ReadU32s(i.data, i.Cur(), n - k, vs)
    {
      var v := i.U32();
      vs := vs + [v];
      k := k + 1;
    }
  }

  method Frame(i: StreamIn) returns (sub: StreamIn)
    requires i.Valid()
    modifies i
    ensures i.Valid() && fresh(sub) && sub.Valid() && sub.settings == i.settings
    ensures (sub.data, i.Cur()) == ReadFrame(i.data, old(i.Cur())) && sub.Cur() == Cursor(0, false)
  {
    hide ReadU8, ReadBuffer;
    var version := i.U8();
    var body := i.Buffer();
    sub := new StreamIn(body, i.settings);
  }

  method LoadGathering(i: StreamIn) returns (g: Gathering)
    requires i.Valid()
    modifies i
    ensures i.Valid() && (g, i.Cur()) == ReadGathering(i.settings, i.data, old(i.Cur()))
  {
    hide ReadU32, ReadU16, ReadPid, ReadString;
    g := BLANK_GATHERING;
    var id := i.U32();
    var owner := i.PID();
    var host := i.PID();
    var minP := i.U16();
    var maxP := i.U16();
    var policy := i.U32();
    var argument := i.U32();
    var flags := i.U32();
    var state := i.U32();
    var description := i.String();
    g := Gathering(id, owner, host, minP, maxP, policy, argument, flags, state, description);
  }

  method ExtractParam(i: StreamIn) returns (params: map<bytes, Variant>)
    requires i.Valid()
    modifies i
    ensures i.Valid() && (params, i.Cur()) == ReadParam(i.settings, i.data, old(i.Cur()))
  {
    hide ReadFrame, ReadMap;
    if i.settings.structHeader {
      var sub := Frame(i);
      params := LoadMap(sub);
    } else {
      params := LoadMap(i);
    }
  }

  method LoadSessionHead(i: StreamIn, m0: MatchmakeSession) returns (m: MatchmakeSession)
    requires i.Valid()
    modifies i
    ensures i.Valid() && (m, i.Cur()) == ReadSessionHead(i.data, old(i.Cur()), m0)
  {
    hide ReadU8, ReadU32, ReadU32List, ReadBool, ReadBuffer;
    var gameMode := i.U32();
    var attribs := LoadU32List(i);
    var open := i.Bool();
    var system := i.U32();
    var application := i.Buffer();
    var num := i.U32();
    var score := i.U8();
    var key := i.Buffer();
    var option := i.U32();
    m := m0.(gameMode := gameMode, attribs := attribs, openParticipation := open,
             matchmakeSystem := system, applicationData := application, numParticipants := num,
             progressScore := score, sessionKey := key, option := option);
  }

  method LoadSessionTail(i: StreamIn, m0: MatchmakeSession) returns (m: MatchmakeSession)
    requires i.Valid()
    modifies i
    ensures i.Valid() && (m, i.Cur()) == ReadSessionTail(i.data, old(i.Cur()), m0)
  {
    hide ReadU64, ReadU32, ReadString, ReadBool;
    var started := i.U64();
    var password := i.String();
    var refer := i.U32();
    var userOn := i.Bool();
    var systemOn := i.Bool();
    var codeword := i.String();
    m := m0.(startedTime := started, userPassword := password, referGid := refer,
             userPasswordEnabled := userOn, systemPasswordEnabled := systemOn, codeword := codeword);
  }

  method LoadSessionLevel(i: StreamIn, m0: MatchmakeSession) returns (m: MatchmakeSession)
    requires i.Valid()
    modifies i
    ensures i.Valid() && (m, i.Cur()) == ReadSessionLevel(i.settings, i.data, old(i.Cur()), m0)
  {
    hide ReadSessionHead, ReadParam, ReadSessionTail;
    m := LoadSessionHead(i, m0);
    var params := ExtractParam(i);
    m := LoadSessionTail(i, m.(params := params));
  }

  /** Bytes that lay a session out field by field are read as that session. */
  method ExtractSession(i: StreamIn) returns (m: MatchmakeSession)
    requires i.Valid()
    modifies i
    ensures i.Valid() && (m, i.Cur()) == ReadSession(i.settings, i.data, old(i.Cur()))
    ensures old(i.Cur()) == Cursor(0, false) ==>
              forall x, order | LaysOut(i.settings, i.data, x, order) :: m == x && i.Cur() == Cursor(|i.data|, false)
  {
    hide ReadFrame, ReadGathering, ReadSessionLevel, LaysOut;
    if i.settings.structHeader {
      var sub := Frame(i);
      var g := LoadGathering(sub);
      sub := Frame(i);
      m := LoadSessionLevel(sub, BLANK_SESSION.(gathering := g));
    } else {
      var g := LoadGathering(i);
      m := LoadSessionLevel(i, BLANK_SESSION.(gathering := g));
    }
    forall x, order | LaysOut(i.settings, i.data, x, order)
      ensures ReadSession(i.settings, i.data, Cursor(0, false)) == (x, Cursor(|i.data|, false))
    {
      LaidOutReads(i.settings, i.data, x, order);
    }
  }

  /** Save then load through the real streams. */
  method Echo(s: Settings, m: MatchmakeSession) returns (back: MatchmakeSession, ok: bool)
    requires forall order | Enumerates(order, m.params) :: SessionFits(s, m, order)
    ensures back == m && ok
  {
    hide PutSession, ReadSession, SessionFits, Enumerates;
    var o := new StreamOut(s);
    ghost var order := WriteSession(o, m);
    SessionRoundTrip(s, m, order);
    var i := new StreamIn(o.buf, s);
    back := ExtractSession(i);
    ok := !i.err && i.pos == |i.data|;
  }
}
