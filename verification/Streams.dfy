/** The NEX stream codec (stream.go). StreamOut appends little-endian values to a buffer;
    StreamIn reads them back with a sticky error: after the first underflow every read yields
    a zero value. The functions say what each primitive does to a buffer or a cursor, the
    classes do it in place. */
module Streams {
  import opened Bytes

  /** The settings that change the wire form, with the two identity translations. */
  datatype Settings = Settings(
    structHeader: bool,
    pidSize: int,
    fragmentSize: int,
    kerberosKeySize: nat,
    kerberosTicketVersion: int,
    publique: u64 -> u64,
    interne: u64 -> u64)

  // ---- Writing --------------------------------------------------------------------

  function PidWidth(s: Settings): nat {
    if s.pidSize == 8 then 8 else 4
  }

  function PidBytes(s: Settings, v: u64): bytes {
    LE(s.publique(v), PidWidth(s))
  }

  function BoolBytes(v: bool): bytes {
    [if v then 1 else 0]
  }

  /** u16 length counting the terminator, the text, a zero byte. */
  function StringBytes(str: bytes): bytes {
    LE(|str| + 1, 2) + (str + [0])
  }

  function BufferBytes(b: bytes): bytes {
    LE(|b|, 4) + b
  }

  class StreamOut {
    const settings: Settings
    var buf: bytes

    constructor (s: Settings)
      ensures buf == [] && settings == s
    {
      settings := s;
      buf := [];
    }

    method Write(b: bytes)
      modifies this
      ensures buf == old(buf) + b
    {
      buf := buf + b;
    }

    method U8(v: byte)
      modifies this
      ensures buf == old(buf) + [v]
    {
      buf := buf + [v];
    }

    method U16(v: nat)
      modifies this
      ensures buf == old(buf) + LE(v, 2)
    {
      buf := buf + LE(v, 2);
    }

    method U32(v: nat)
      modifies this
      ensures buf == old(buf) + LE(v, 4)
    {
      buf := buf + LE(v, 4);
    }

    method U64(v: nat)
      modifies this
      ensures buf == old(buf) + LE(v, 8)
    {
      buf := buf + LE(v, 8);
    }

    method Bool(v: bool)
      modifies this
      ensures buf == old(buf) + BoolBytes(v)
    {
      if v {
        U8(1);
      } else {
        U8(0);
      }
    }

    method PID(v: u64)
      modifies this
      ensures buf == old(buf) + PidBytes(settings, v)
    {
      var w := settings.publique(v);
      if settings.pidSize == 8 {
        U64(w);
      } else {
        U32(w);
      }
    }

    method String(str: bytes)
      modifies this
      ensures buf == old(buf) + StringBytes(str)
    {
      var data := str + [0];
      U16(|data|);
      Write(data);
      assert buf == old(buf) + (LE(|str| + 1, 2) + data);
    }

    method Buffer(b: bytes)
      modifies this
      ensures buf == old(buf) + BufferBytes(b)
    {
      U32(|b|);
      Write(b);
      assert buf == old(buf) + (LE(|b|, 4) + b);
    }
  }

  // ---- Reading --------------------------------------------------------------------

  datatype Cursor = Cursor(pos: nat, err: bool)

  /** The next n bytes, or nothing and the sticky error. */
  function ReadRaw(d: bytes, c: Cursor, n: nat): (bytes, Cursor) {
    if c.err || c.pos + n > |d| then ([], if n != 0 then c.(err := true) else c)
    else (d[c.pos..c.pos + n], c.(pos := c.pos + n))
  }

  function ReadLE(d: bytes, c: Cursor, n: nat): (nat, Cursor) {
    var (b, c') := ReadRaw(d, c, n);
    (if |b| < n then 0 else UnLE(b), c')
  }

  function ReadU8(d: bytes, c: Cursor): (byte, Cursor) {
    var (b, c') := ReadRaw(d, c, 1);
    (if |b| < 1 then 0 else b[0], c')
  }

  function ReadU16(d: bytes, c: Cursor): (r: (u16, Cursor))
    ensures r == ReadLE(d, c, 2)
  {
    var (b, c') := ReadRaw(d, c, 2);
    (if |b| < 2 then 0 else Get16(b), c')
  }

  function ReadU32(d: bytes, c: Cursor): (r: (u32, Cursor))
    ensures r == ReadLE(d, c, 4)
  {
    var (b, c') := ReadRaw(d, c, 4);
    (if |b| < 4 then 0 else Get32(b), c')
  }

  function ReadU64(d: bytes, c: Cursor): (r: (u64, Cursor))
    ensures r == ReadLE(d, c, 8)
  {
    var (b, c') := ReadRaw(d, c, 8);
    (if |b| < 8 then 0 else Get64(b), c')
  }

  function ReadBool(d: bytes, c: Cursor): (bool, Cursor) {
    var (v, c') := ReadU8(d, c);
    (v != 0, c')
  }

  function ReadPid(s: Settings, d: bytes, c: Cursor): (u64, Cursor) {
    if s.pidSize == 8 then
      var (v, c') := ReadU64(d, c);
      (s.interne(v), c')
    else
      var (v, c') := ReadU32(d, c);
      (s.interne(v), c')
  }

  function ReadString(d: bytes, c: Cursor): (bytes, Cursor) {
    var (length, c1) := ReadU16(d, c);
    if length == 0 then ([], c1)
    else
      var (b, c2) := ReadRaw(d, c1, length);
      if |b| < length then ([], c2)
      else if b[|b| - 1] == 0 then (b[..|b| - 1], c2)
      else (b, c2)
  }

  function ReadBuffer(d: bytes, c: Cursor): (bytes, Cursor) {
    var (n, c1) := ReadU32(d, c);
    ReadRaw(d, c1, n)
  }

  class StreamIn {
    const settings: Settings
    const data: bytes
    var pos: nat
    var err: bool

    constructor (d: bytes, s: Settings)
      ensures data == d && settings == s && Valid() && Cur() == Cursor(0, false)
    {
      data, settings := d, s;
      pos, err := 0, false;
    }

    predicate Valid()
      reads this
    {
      pos <= |data|
    }

    function Cur(): Cursor
      reads this
    {
      Cursor(pos, err)
    }

    method Read(n: nat) returns (b: bytes)
      requires Valid()
      modifies this
      ensures Valid() && (b, Cur()) == ReadRaw(data, old(Cur()), n)
    {
      if err || pos + n > |data| {
        if !err && n != 0 {
          err := true;
        }
        return [];
      }
      b := data[pos..pos + n];
      pos := pos + n;
    }

    method ReadAll() returns (b: bytes)
      requires Valid()
      modifies this
      ensures Valid() && (b, Cur()) == ReadRaw(data, old(Cur()), |data| - old(pos))
    {
      b := Read(|data| - pos);
    }

    method U8() returns (v: byte)
      requires Valid()
      modifies this
      ensures Valid() && (v, Cur()) == ReadU8(data, old(Cur()))
    {
      var b := Read(1);
      if |b| < 1 { return 0; }
      v := b[0];
    }

    method U16() returns (v: u16)
      requires Valid()
      modifies this
      ensures Valid() && (v, Cur()) == ReadU16(data, old(Cur()))
    {
      var b := Read(2);
      if |b| < 2 { return 0; }
      v := Get16(b);
    }

    method U32() returns (v: u32)
      requires Valid()
      modifies this
      ensures Valid() && (v, Cur()) == ReadU32(data, old(Cur()))
    {
      var b := Read(4);
      if |b| < 4 { return 0; }
      v := Get32(b);
    }

    method U64() returns (v: u64)
      requires Valid()
      modifies this
      ensures Valid() && (v, Cur()) == ReadU64(data, old(Cur()))
    {
      var b := Read(8);
      if |b| < 8 { return 0; }
      v := Get64(b);
    }

    method Bool() returns (v: bool)
      requires Valid()
      modifies this
      ensures Valid() && (v, Cur()) == ReadBool(data, old(Cur()))
    {
      var b := U8();
      v := b != 0;
    }

    method PID() returns (v: u64)
      requires Valid()
      modifies this
      ensures Valid() && (v, Cur()) == ReadPid(settings, data, old(Cur()))
    {
      if settings.pidSize == 8 {
        var w := U64();
        return settings.interne(w);
      }
      var w := U32();
      return settings.interne(w);
    }

    method String() returns (str: bytes)
      requires Valid()
      modifies this
      ensures Valid() && (str, Cur()) == ReadString(data, old(Cur()))
    {
      var length := U16();
      if length == 0 {
        return [];
      }
      var b := Read(length);
      if |b| < length {
        return [];
      }
      if b[|b| - 1] == 0 {
        b := b[..|b| - 1];
      }
      return b;
    }

    method Buffer() returns (b: bytes)
      requires Valid()
      modifies this
      ensures Valid() && (b, Cur()) == ReadBuffer(data, old(Cur()))
    {
      var n := U32();
      b := Read(n);
    }
  }

  // ---- Reading back what was written ------------------------------------------------
  //
  // Each lemma says: if data starts with buf followed by the encoding of a value, a cursor
  // standing at |buf| reads that value and moves past it. `buf <= data` lets a caller chain
  // the lemmas from the last field of a structure to the first.

  lemma {:induction false} PrefixAt(buf: bytes, e: bytes, data: bytes)
    requires buf + e <= data
    ensures buf <= data
    ensures ReadRaw(data, Cursor(|buf|, false), |e|) == (e, Cursor(|buf + e|, false))
  {
    assert buf == (buf + e)[..|buf|];
    assert e == (buf + e)[|buf|..] == data[|buf|..|buf| + |e|];
  }

  lemma {:induction false} ReadLEBack(buf: bytes, v: nat, n: nat, data: bytes)
    requires buf + LE(v, n) <= data
    ensures buf <= data
    ensures ReadLE(data, Cursor(|buf|, false), n) == (v % Pow256(n), Cursor(|buf + LE(v, n)|, false))
  {
    PrefixAt(buf, LE(v, n), data);
    LERoundTrip(v, n);
  }

  lemma {:induction false} ReadU8Back(buf: bytes, v: byte, data: bytes)
    requires buf + [v] <= data
    ensures buf <= data
    ensures ReadU8(data, Cursor(|buf|, false)) == (v, Cursor(|buf + [v]|, false))
  {
    PrefixAt(buf, [v], data);
  }

  lemma {:induction false} ReadU16Back(buf: bytes, v: u16, data: bytes)
    requires buf + LE(v, 2) <= data
    ensures buf <= data
    ensures ReadU16(data, Cursor(|buf|, false)) == (v, Cursor(|buf + LE(v, 2)|, false))
  {
    ReadLEBack(buf, v, 2, data);
    Widths();
  }

  lemma {:induction false} ReadU32Back(buf: bytes, v: u32, data: bytes)
    requires buf + LE(v, 4) <= data
    ensures buf <= data
    ensures ReadU32(data, Cursor(|buf|, false)) == (v, Cursor(|buf + LE(v, 4)|, false))
  {
    ReadLEBack(buf, v, 4, data);
    Widths();
  }

  lemma {:induction false} ReadU64Back(buf: bytes, v: u64, data: bytes)
    requires buf + LE(v, 8) <= data
    ensures buf <= data
    ensures ReadU64(data, Cursor(|buf|, false)) == (v, Cursor(|buf + LE(v, 8)|, false))
  {
    ReadLEBack(buf, v, 8, data);
    Widths();
  }

  lemma {:induction false} ReadBoolBack(buf: bytes, v: bool, data: bytes)
    requires buf + BoolBytes(v) <= data
    ensures buf <= data
    ensures ReadBool(data, Cursor(|buf|, false)) == (v, Cursor(|buf + BoolBytes(v)|, false))
  {
    ReadU8Back(buf, if v then 1 else 0, data);
  }

  /** The PID a reader gets for a written one: translated, cut to the width, translated back. */
  function PidRead(s: Settings, v: u64): u64 {
    s.interne(if s.pidSize == 8 then s.publique(v) else s.publique(v) % 0x1_0000_0000)
  }

  predicate PidSurvives(s: Settings, v: u64) {
    PidRead(s, v) == v
  }

  lemma {:induction false} ReadAnyPidBack(s: Settings, buf: bytes, v: u64, data: bytes)
    requires buf + PidBytes(s, v) <= data
    ensures buf <= data
    ensures ReadPid(s, data, Cursor(|buf|, false)) == (PidRead(s, v), Cursor(|buf + PidBytes(s, v)|, false))
  {
    var w := s.publique(v);
    if s.pidSize == 8 {
      ReadU64Back(buf, w, data);
    } else {
      ReadLEBack(buf, w, 4, data);
      Widths();
    }
  }

  lemma {:induction false} ReadPidBack(s: Settings, buf: bytes, v: u64, data: bytes)
    requires buf + PidBytes(s, v) <= data && PidSurvives(s, v)
    ensures buf <= data
    ensures ReadPid(s, data, Cursor(|buf|, false)) == (v, Cursor(|buf + PidBytes(s, v)|, false))
  {
    ReadAnyPidBack(s, buf, v, data);
  }

  lemma {:induction false} ReadStringBack(buf: bytes, str: bytes, data: bytes)
    requires buf + StringBytes(str) <= data && |str| < 0xFFFF
    ensures buf <= data
    ensures ReadString(data, Cursor(|buf|, false)) == (str, Cursor(|buf + StringBytes(str)|, false))
  {
    hide LE;
    var b1 := buf + LE(|str| + 1, 2);
    assert b1 + (str + [0]) == buf + StringBytes(str);
    PrefixAt(b1, str + [0], data);
    ReadU16Back(buf, |str| + 1, data);
    assert (str + [0])[..|str|] == str;
  }

  lemma {:induction false} ReadBufferBack(buf: bytes, b: bytes, data: bytes)
    requires buf + BufferBytes(b) <= data && |b| < 0x1_0000_0000
    ensures buf <= data
    ensures ReadBuffer(data, Cursor(|buf|, false)) == (b, Cursor(|buf + BufferBytes(b)|, false))
  {
    hide LE;
    var b1 := buf + LE(|b|, 4);
    assert b1 + b == buf + BufferBytes(b);
    PrefixAt(b1, b, data);
    ReadU32Back(buf, |b|, data);
  }
}
