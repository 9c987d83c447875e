/** Player-made tournaments (tournament.go): finding the code field inside an opaque structure,
    stamping the identifier, mark and code into it, and the tournament store. */
module Tournaments {
  import opened Bytes
  import opened Lists

  const CODE_LEN: nat := 12
  const MAX_BLOB: nat := 4096
  const MAX_TOURNAMENTS: nat := 2000
  const NAME_LENGTH_OFFSET: nat := 0x69

  // ---- Locating the code field --------------------------------------------------------

  /** How far the property at pos reaches, by its type byte; zero for an unknown type. */
  function PropertySize(kind: byte): nat {
    if kind == 1 then 4 else if kind == 2 then 5 else if kind == 4 then 7 else 0
  }

  /** Walk the property list from pos to its 0xFF terminator. */
  function Walk(b: bytes, pos: nat): (r: int)
    ensures r == -1 || pos + 5 <= r <= |b| - 3
    decreases |b| - pos
  {
    if pos >= |b| then -1
    else if b[pos] == 0xFF then
      if pos + 8 <= |b| then pos + 5 else -1
    else if pos + 2 > |b| then -1
    else if PropertySize(b[pos + 1]) == 0 then -1
    else Walk(b, pos + PropertySize(b[pos + 1]))
  }

  function CodeOffset(b: bytes): (r: int)
    ensures r == -1 || NAME_LENGTH_OFFSET + 9 <= r <= |b| - 3
  {
    if |b| < NAME_LENGTH_OFFSET + 2 then -1
    else
      var nameLen := Get16(b[NAME_LENGTH_OFFSET..NAME_LENGTH_OFFSET + 2]);
      if nameLen < 2 || nameLen % 2 != 0 then -1
      else
        Walk(b, NAME_LENGTH_OFFSET + 2 + nameLen)
  }

  method TournamentCodeOffset(b: bytes) returns (r: int)
    ensures r == CodeOffset(b)
  {
    if |b| < NAME_LENGTH_OFFSET + 2 {
      return -1;
    }
    var nameLen := Get16(b[NAME_LENGTH_OFFSET..NAME_LENGTH_OFFSET + 2]);
    if nameLen < 2 || nameLen % 2 != 0 {
      return -1;
    }
    var pos: nat := NAME_LENGTH_OFFSET + 2 + nameLen;
    if pos >= |b| {
      return -1;
    }
    while pos < |b|
      invariant CodeOffset(b) == Walk(b, pos)
      decreases |b| - pos
    {
      var id := b[pos];
      if id == 0xFF {
        var codeOffset := pos + 5;
        if codeOffset + 3 <= |b| {
          return codeOffset;
        }
        return -1;
      }
      if pos + 2 > |b| {
        return -1;
      }
      match b[pos + 1] {
        case 1 => pos := pos + 4;
        case 2 => pos := pos + 5;
        case 4 => pos := pos + 7;
        case _ => return -1;
      }
    }
    return -1;
  }

  // ---- What the walk finds --------------------------------------------------------------

  /** A rule property: an identifier, a type, and two, three or five bytes by type. */
  datatype Property = Property(id: byte, kind: byte, value: bytes)
  {
    predicate Proper() {
      id != 0xFF
      && ((kind == 1 && |value| == 2) || (kind == 2 && |value| == 3) || (kind == 4 && |value| == 5))
    }
  }

  /** The properties lie one after the other from pos to end. */
  predicate PropertiesAt(b: bytes, pos: nat, ps: seq<Property>, end: nat)
    decreases |ps|
  {
    if ps == [] then pos == end
    else
      var p := ps[0];
      var next := pos + 2 + |p.value|;
      p.Proper() && next <= |b| && b[pos] == p.id && b[pos + 1] == p.kind && b[pos + 2..next] == p.value
      && PropertiesAt(b, next, ps[1..], end)
  }

  /** A name of a positive even number of bytes behind its size, the properties, a terminator of five
      bytes that starts with 0xFF, then the code field. */
  predicate CodeAt(b: bytes, name: bytes, ps: seq<Property>, at: nat) {
    && 0x6B + |name| < |b| && |name| == b[0x69] as nat + 256 * b[0x6A] as nat
    && |name| > 0 && |name| % 2 == 0 && b[0x6B..0x6B + |name|] == name
    && 5 <= at && at + 3 <= |b|
    && PropertiesAt(b, 0x6B + |name|, ps, at - 5) && b[at - 5] == 0xFF
  }

  lemma {:induction false} WalkOver(b: bytes, pos: nat, ps: seq<Property>, end: nat)
    requires PropertiesAt(b, pos, ps, end) && end + 8 <= |b| && b[end] == 0xFF
    ensures Walk(b, pos) == end + 5
    decreases |ps|
  {
    if ps != [] {
      WalkOver(b, pos + 2 + |ps[0].value|, ps[1..], end);
    }
  }

  lemma {:induction false} WalkedOver(b: bytes, pos: nat) returns (ps: seq<Property>)
    requires Walk(b, pos) >= 0
    ensures PropertiesAt(b, pos, ps, Walk(b, pos) - 5) && b[Walk(b, pos) - 5] == 0xFF
    decreases |b| - pos
  {
    if b[pos] == 0xFF {
      ps := [];
    } else {
      var next := pos + PropertySize(b[pos + 1]);
      var rest := WalkedOver(b, next);
      var p := Property(b[pos], b[pos + 1], b[pos + 2..next]);
      ps := [p] + rest;
      assert ps[0] == p && ps[1..] == rest;
    }
  }

  /** The code field is found at a position exactly when the payload is laid out so that it is
      there. */
  lemma {:induction false} CodeOffsetIff(b: bytes, at: nat)
    ensures CodeOffset(b) == at <==> exists name: bytes, ps: seq<Property> :: CodeAt(b, name, ps, at)
  {
    hide Walk, PropertiesAt;
    if |b| >= 0x6B {
      TwoBytes(b[0x69..0x6B]);
      var n := Get16(b[0x69..0x6B]);
      if CodeOffset(b) == at {
        var ps := WalkedOver(b, 0x6B + n);
        assert 0x6B + n < |b| by { WalkStarts(b, 0x6B + n); }
        assert CodeAt(b, b[0x6B..0x6B + n], ps, at);
      }
      forall name: bytes, ps: seq<Property> | CodeAt(b, name, ps, at) ensures CodeOffset(b) == at {
        assert |name| == n;
        WalkOver(b, 0x6B + n, ps, at - 5);
      }
    }
  }

  lemma {:induction false} WalkStarts(b: bytes, pos: nat)
    requires Walk(b, pos) >= 0
    ensures pos < |b|
  {
  }

  lemma {:induction false} TwoBytes(b: bytes)
    requires |b| == 2
    ensures Get16(b) == b[0] as nat + 256 * b[1] as nat
  {
    assert UnLE(b[1..]) == b[1] as nat + 256 * UnLE(b[1..][1..]);
    assert b[1..][1..] == [];
  }

  predicate ValidCode(code: bytes) {
    |code| == CODE_LEN && forall c :: c in code ==> 0x30 <= c <= 0x39
  }

  predicate CodeMatches(b: bytes, code: bytes) {
    var i := CodeOffset(b);
    i >= 0 && ValidCode(code)
    && Get16(b[i..i + 2]) == CODE_LEN + 1
    && i + 2 + CODE_LEN + 1 <= |b|
    && b[i + 2 + CODE_LEN] == 0
    && b[i + 2..i + 2 + CODE_LEN] == code
  }

  // ---- Stamping -----------------------------------------------------------------------

  /** The payload with the identifier and the mark written over its first 12 bytes. */
  function Marked(payload: bytes, id: u32, mark: bytes): bytes
    requires |payload| >= 12 && |mark| == 8
  {
    LE(id, 4) + mark + payload[12..]
  }

  const EMPTY_STRING: bytes := [1, 0, 0]

  method StampTournament(payload: bytes, id: u32, mark: bytes, code: bytes) returns (res: bytes)
    requires |mark| == 8
    ensures res == Stamped(payload, id, mark, code)
  {
    var out := payload;
    if |out| < 12 {
      return out;
    }
    out := LE(id, 4) + out[4..];
    out := out[..4] + mark + out[12..];
    assert out == Marked(payload, id, mark);
    var i := TournamentCodeOffset(out);
    if i < 0 || !ValidCode(code) || out[i..i + 3] != EMPTY_STRING {
      return out;
    }
    var n := |code| + 1;
    var str := LE(n, 2);
    str := str + code;
    str := str + [0];
    res := out[..i];
    res := res + str;
    res := res + out[i + 3..];
  }

  /** The empty string at the code field becomes twelve digits and a terminator. */
  function Stamped(payload: bytes, id: u32, mark: bytes, code: bytes): bytes
    requires |mark| == 8
  {
    if |payload| < 12 then payload
    else
      var out := Marked(payload, id, mark);
      var i := CodeOffset(out);
      if i < 0 || !ValidCode(code) || out[i..i + 3] != EMPTY_STRING then out
      else out[..i] + (LE(|code| + 1, 2) + code + [0]) + out[i + 3..]
  }

  /** What CreateTournament asks of a payload. */
  predicate Accepted(payload: bytes) {
    0 < |payload| <= MAX_BLOB
    && var i := CodeOffset(payload);
       i >= 0 && payload[i..i + 3] == EMPTY_STRING
  }

  /** The walk only looks at the bytes before the field it finds. */
  lemma {:induction false} WalkAgrees(a: bytes, b: bytes, pos: nat)
    requires Walk(a, pos) >= 0 && Walk(a, pos) + 3 <= |b|
    requires forall k :: pos <= k < Walk(a, pos) ==> a[k] == b[k]
    ensures Walk(b, pos) == Walk(a, pos)
    decreases |a| - pos
  {
    if a[pos] != 0xFF {
      WalkAgrees(a, b, pos + PropertySize(a[pos + 1]));
    }
  }

  lemma {:induction false} OffsetAgrees(a: bytes, b: bytes)
    requires CodeOffset(a) >= 0 && CodeOffset(a) + 3 <= |b|
    requires forall k :: NAME_LENGTH_OFFSET <= k < CodeOffset(a) ==> a[k] == b[k]
    ensures CodeOffset(b) == CodeOffset(a)
  {
    var n := NAME_LENGTH_OFFSET;
    assert a[n..n + 2] == b[n..n + 2];
    WalkAgrees(a, b, n + 2 + Get16(a[n..n + 2]));
  }

  /** Replacing three bytes of `out` at i by a longer field. */
  function Spliced(out: bytes, i: nat, field: bytes): bytes
    requires i + 3 <= |out|
  {
    out[..i] + field + out[i + 3..]
  }

  lemma {:induction false} SpliceLayout(payload: bytes, id: u32, mark: bytes, i: nat, field: bytes)
    requires |payload| >= 12 && |mark| == 8 && 12 <= i && i + 3 <= |payload|
    ensures var r := Spliced(Marked(payload, id, mark), i, field);
            && |r| == |payload| - 3 + |field|
            && r[..4] == LE(id, 4) && r[4..12] == mark
            && r[12..i] == payload[12..i] && r[i..i + |field|] == field
            && r[i + |field|..] == payload[i + 3..]
            && forall k :: 12 <= k < i ==> r[k] == payload[k]
  {
    hide LE;
    var out := Marked(payload, id, mark);
    assert out[12..] == payload[12..];
    assert forall k :: 12 <= k < |out| ==> out[k] == payload[k];
    var r := Spliced(out, i, field);
    assert forall k :: 0 <= k < i ==> r[k] == out[k];
    assert r[i + |field|..] == out[i + 3..] == payload[i + 3..];
  }

  function CodeField(code: bytes): bytes {
    LE(|code| + 1, 2) + code + [0]
  }

  lemma {:induction false} FieldReadsBack(b: bytes, code: bytes)
    requires ValidCode(code) && CodeOffset(b) >= 0
    requires var i := CodeOffset(b); i + 3 + CODE_LEN <= |b| && b[i..i + 3 + CODE_LEN] == CodeField(code)
    ensures CodeMatches(b, code)
  {
    hide CodeOffset, LE;
    var i := CodeOffset(b);
    var field := b[i..i + 3 + CODE_LEN];
    FieldParts(field, code);
    SlicedAt(b, i, i + 3 + CODE_LEN, 0, 2);
    SlicedAt(b, i, i + 3 + CODE_LEN, 2, 2 + CODE_LEN);
    Get16LE(CODE_LEN + 1);
    assert b[i + 2 + CODE_LEN] == field[2 + CODE_LEN];
  }

  lemma {:induction false} SlicedAt(b: bytes, from: nat, to: nat, lo: nat, hi: nat)
    requires from <= to <= |b| && lo <= hi <= to - from
    ensures b[from..to][lo..hi] == b[from + lo..from + hi]
  {
    var x := b[from..to];
    forall k | 0 <= k < hi - lo ensures x[lo..hi][k] == b[from + lo..from + hi][k] {
      assert x[lo + k] == b[from + lo + k];
    }
  }

  lemma {:induction false} FieldParts(field: bytes, code: bytes)
    requires |code| == CODE_LEN && field == CodeField(code)
    ensures |field| == 3 + CODE_LEN
    ensures field[0..2] == LE(CODE_LEN + 1, 2) && field[2..2 + CODE_LEN] == code && field[2 + CODE_LEN] == 0
  {
    hide LE;
  }

  /** Stamping an accepted payload: twelve bytes longer, the walk finds the code where it found
      the empty string, the code reads back, and apart from the identifier, the mark and the
      code field every byte is the creator's. */
  lemma {:induction false} StampAccepted(payload: bytes, id: u32, mark: bytes, code: bytes)
    requires Accepted(payload) && |mark| == 8 && ValidCode(code)
    ensures var i := CodeOffset(payload);
            var r := Stamped(payload, id, mark, code);
            && |r| == |payload| + CODE_LEN
            && Get32(r[..4]) == id && r[4..12] == mark
            && r[12..i] == payload[12..i] && r[i + 3 + CODE_LEN..] == payload[i + 3..]
            && CodeOffset(r) == i && CodeMatches(r, code)
  {
    hide CodeOffset, LE, Marked, CodeMatches, Spliced;
    var i := CodeOffset(payload);
    OffsetRange(payload);
    var out := Marked(payload, id, mark);
    SpliceLayout(payload, id, mark, i, payload[i..i + 3]);
    SpliceSame(payload, id, mark, i);
    OffsetAgrees(payload, out);
    var r := Spliced(out, i, CodeField(code));
    assert r == Stamped(payload, id, mark, code) by { SpliceIsStamped(payload, id, mark, code); }
    SpliceLayout(payload, id, mark, i, CodeField(code));
    OffsetAgrees(payload, r);
    FieldReadsBack(r, code);
    Get32LE(id);
  }

  lemma {:induction false} OffsetRange(b: bytes)
    ensures CodeOffset(b) == -1 || NAME_LENGTH_OFFSET + 9 <= CodeOffset(b) <= |b| - 3
  {
  }

  lemma {:induction false} SpliceSame(payload: bytes, id: u32, mark: bytes, i: nat)
    requires |payload| >= 12 && |mark| == 8 && 12 <= i && i + 3 <= |payload|
    ensures Spliced(Marked(payload, id, mark), i, payload[i..i + 3]) == Marked(payload, id, mark)
  {
    hide LE;
  }

  lemma {:induction false} SpliceIsStamped(payload: bytes, id: u32, mark: bytes, code: bytes)
    requires |payload| >= 12 && |mark| == 8 && ValidCode(code)
    requires var out := Marked(payload, id, mark);
             CodeOffset(out) >= 0 && out[CodeOffset(out)..CodeOffset(out) + 3] == EMPTY_STRING
    ensures var out := Marked(payload, id, mark);
            Stamped(payload, id, mark, code) == Spliced(out, CodeOffset(out), CodeField(code))
  {
    hide LE, CodeOffset, Marked;
  }

  // ---- The store ------------------------------------------------------------------------

  datatype Tournament = Tournament(
    id: u32, owner: u64, code: bytes, mark: bytes, blob: bytes, participants: seq<u64>, createdAt: int)

  predicate ValidStored(t: Tournament) {
    && t.id != 0 && 12 <= |t.blob| <= MAX_BLOB + CODE_LEN
    && Get32(t.blob[..4]) == t.id && CodeMatches(t.blob, t.code)
  }

  /** A stamped payload can be stored under any identifier but zero. */
  lemma {:induction false} StampedIsStored(payload: bytes, t: Tournament)
    requires Accepted(payload) && |t.mark| == 8 && ValidCode(t.code)
    requires t.blob == Stamped(payload, t.id, t.mark, t.code)
    ensures ValidStored(t) <==> t.id != 0
  {
    hide CodeOffset, Stamped, CodeMatches;
    OffsetRange(payload);
    StampAccepted(payload, t.id, t.mark, t.code);
  }

  class TournamentStore {
    var byId: map<u32, Tournament>
    var nextId: u32

    /** Every stored tournament can be served, sits under its own identifier, and lists its
        participants once, the creator among them. */
    ghost predicate Valid()
      reads this
    {
      |byId| <= MAX_TOURNAMENTS
      && forall id :: id in byId ==>
           && byId[id].id == id && ValidStored(byId[id])
           && byId[id].owner in byId[id].participants
           && NoDup(byId[id].participants)
    }

    constructor ()
      ensures Valid() && byId == map[] && nextId == 1000
    {
      byId, nextId := map[], 1000;
    }

    /** The validity check after stamping never refuses an accepted payload, except when the
        identifier counter has wrapped to zero. */
    method CreateTournament(owner: u64, payload: bytes, mark: bytes, code: bytes, now: int)
      returns (t: Option<Tournament>)
      requires Valid() && |mark| == 8 && ValidCode(code)
      modifies this
      ensures Valid()
      ensures t.Some? <==> Accepted(payload) && old(|byId|) < MAX_TOURNAMENTS && old(nextId) != 0
      ensures t.Some? ==>
                && t.value == Tournament(old(nextId), owner, code, mark,
                                         Stamped(payload, old(nextId), mark, code), [owner], now)
                && byId == old(byId)[old(nextId) := t.value]
      ensures t.None? ==> byId == old(byId)
      ensures nextId == if Accepted(payload) && old(|byId|) < MAX_TOURNAMENTS
                        then (old(nextId) + 1) % 0x1_0000_0000 else old(nextId)
    {
      hide CodeOffset, Stamped, ValidStored;
      var i := TournamentCodeOffset(payload);
      if |payload| == 0 || |payload| > MAX_BLOB || i < 0 || payload[i..i + 3] != EMPTY_STRING {
        return None;
      }
      if |byId| >= MAX_TOURNAMENTS {
        return None;
      }
      var id := nextId;
      nextId := (nextId + 1) % 0x1_0000_0000;
      var blob := StampTournament(payload, id, mark, code);
      var made := Tournament(id, owner, code, mark, blob, [owner], now);
      StampedIsStored(payload, made);
      if !ValidStored(made) {
        return None;
      }
      byId := byId[id := made];
      return Some(made);
    }

    /** A player joins at most once. */
    method JoinTournament(id: u32, pid: u64) returns (ok: bool)
      requires Valid()
      modifies this
      ensures Valid() && nextId == old(nextId)
      ensures ok <==> id in old(byId)
      ensures byId == if ok && pid !in old(byId)[id].participants
                      then old(byId)[id := old(byId)[id].(participants := old(byId)[id].participants + [pid])]
                      else old(byId)
    {
      hide ValidStored;
      if id !in byId || !ValidStored(byId[id]) {
        return false;
      }
      var t := byId[id];
      var i := 0;
      while i < |t.participants|
        invariant 0 <= i <= |t.participants| && pid !in t.participants[..i]
      {
        if t.participants[i] == pid {
          return true;
        }
        i := i + 1;
      }
      assert t.participants[..i] == t.participants;
      ParticipantsDoNotMatter(t, t.participants + [pid]);
      byId := byId[id := t.(participants := t.participants + [pid])];
      return true;
    }

    /** Only the creator deletes. */
    method DeleteTournament(id: u32, pid: u64) returns (ok: bool)
      requires Valid()
      modifies this
      ensures Valid() && nextId == old(nextId)
      ensures ok <==> id in old(byId) && old(byId)[id].owner == pid
      ensures byId == if ok then old(byId) - {id} else old(byId)
    {
      hide ValidStored;
      if id !in byId || !ValidStored(byId[id]) || byId[id].owner != pid {
        return false;
      }
      byId := byId - {id};
      return true;
    }
  }

  lemma {:induction false} ParticipantsDoNotMatter(t: Tournament, participants: seq<u64>)
    requires ValidStored(t)
    ensures ValidStored(t.(participants := participants))
  {
  }
}
