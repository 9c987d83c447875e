/** Fields at a position of a byte string, spelled byte by byte, and how they relate to the writers
    of the stream codec: what a writer appends is what sits at the end of the buffer. */
module Fields {
  import opened Bytes
  import opened Streams

  // ---- Fields at a position -----------------------------------------------------------------

  /** A number on `width` bytes from position `at`, least significant first. */
  predicate NumberAt(b: bytes, at: nat, v: nat, width: nat) {
    at + width <= |b| && forall i: nat :: i < width ==> b[at + i] == v / Pow256(i) % 256
  }

  predicate BytesAt(b: bytes, at: nat, s: bytes) {
    at + |s| <= |b| && b[at..at + |s|] == s
  }

  predicate ByteAt(b: bytes, at: nat, v: byte) {
    at < |b| && b[at] == v
  }

  /** A 16-bit length that counts the terminator, the text, a zero. */
  predicate TextAt(b: bytes, at: nat, text: bytes) {
    NumberAt(b, at, |text| + 1, 2) && BytesAt(b, at + 2, text) && ByteAt(b, at + 2 + |text|, 0)
  }

  /** A 32-bit length and the bytes. */
  predicate BufferAt(b: bytes, at: nat, s: bytes) {
    NumberAt(b, at, |s|, 4) && BytesAt(b, at + 4, s)
  }

  predicate FlagAt(b: bytes, at: nat, v: bool) {
    ByteAt(b, at, if v then 1 else 0)
  }

  // ---- A field is at the end of a prefix exactly when the prefix goes on with it --------------

  lemma {:induction false} DivDiv(v: nat, p: nat)
    requires p > 0
    ensures v / 256 / p == v / (256 * p)
  {
    var q, r := v / 256 / p, v / 256 % p;
    assert v / 256 == q * p + r && v == 256 * (v / 256) + v % 256;
    assert q * (256 * p) == 256 * (q * p);
    QuotientUnique(v, 256 * p, q, 256 * r + v % 256);
  }

  lemma {:induction false} LEDigit(v: nat, n: nat, i: nat)
    requires i < n
    ensures LE(v, n)[i] == v / Pow256(i) % 256
  {
    if i == 0 {
      assert Pow256(0) == 1;
    } else {
      LEDigit(v / 256, n - 1, i - 1);
      DivDiv(v, Pow256(i - 1));
      assert Pow256(i) == 256 * Pow256(i - 1);
    }
  }

  lemma {:induction false} NumberStep(buf: bytes, b: bytes, v: nat, width: nat)
    ensures |buf + LE(v, width)| == |buf| + width
    ensures buf + LE(v, width) <= b <==> buf <= b && NumberAt(b, |buf|, v, width)
  {
    hide LE, Pow256;
    var d := LE(v, width);
    forall i: nat | i < width ensures d[i] == v / Pow256(i) % 256 && (buf + d)[|buf| + i] == d[i] {
      LEDigit(v, width, i);
    }
    if buf + d <= b {
      forall i: nat | i < width ensures b[|buf| + i] == v / Pow256(i) % 256 {
        assert b[|buf| + i] == (buf + d)[|buf| + i];
      }
    }
    if buf <= b && NumberAt(b, |buf|, v, width) {
      forall k | 0 <= k < |buf + d| ensures (buf + d)[k] == b[k] {
        if k >= |buf| {
          var i: nat := k - |buf|;
          assert b[|buf| + i] == v / Pow256(i) % 256;
        }
      }
      assert b[..|buf + d|] == buf + d;
    }
  }

  lemma {:induction false} BytesStep(buf: bytes, b: bytes, s: bytes)
    ensures buf + s <= b <==> buf <= b && BytesAt(b, |buf|, s)
  {
    if buf + s <= b {
      assert b[|buf|..|buf| + |s|] == (buf + s)[|buf|..] == s;
    }
    if buf <= b && BytesAt(b, |buf|, s) {
      assert b[..|buf| + |s|] == b[..|buf|] + b[|buf|..|buf| + |s|];
    }
  }

  lemma {:induction false} ByteStep(buf: bytes, b: bytes, v: byte)
    ensures buf + [v] <= b <==> buf <= b && ByteAt(b, |buf|, v)
  {
    BytesStep(buf, b, [v]);
  }

  lemma {:induction false} TextStep(buf: bytes, b: bytes, text: bytes)
    ensures |buf + StringBytes(text)| == |buf| + |text| + 3
    ensures buf + StringBytes(text) <= b <==> buf <= b && TextAt(b, |buf|, text)
  {
    hide LE, NumberAt, BytesAt, ByteAt;
    var b1 := buf + LE(|text| + 1, 2);
    NumberStep(buf, b, |text| + 1, 2);
    BytesStep(b1, b, text);
    ByteStep(b1 + text, b, 0);
    assert buf + StringBytes(text) == b1 + text + [0];
  }

  lemma {:induction false} BufferStep(buf: bytes, b: bytes, s: bytes)
    ensures |buf + BufferBytes(s)| == |buf| + 4 + |s|
    ensures buf + BufferBytes(s) <= b <==> buf <= b && BufferAt(b, |buf|, s)
  {
    hide LE, NumberAt, BytesAt;
    var b1 := buf + LE(|s|, 4);
    NumberStep(buf, b, |s|, 4);
    BytesStep(b1, b, s);
    assert buf + BufferBytes(s) == b1 + s;
  }

  lemma {:induction false} FlagStep(buf: bytes, b: bytes, v: bool)
    ensures |buf + BoolBytes(v)| == |buf| + 1
    ensures buf + BoolBytes(v) <= b <==> buf <= b && FlagAt(b, |buf|, v)
  {
    hide ByteAt;
    ByteStep(buf, b, if v then 1 else 0);
  }

  function PidSize(s: Settings): nat {
    if s.pidSize == 8 then 8 else 4
  }

  lemma {:induction false} PidStep(s: Settings, buf: bytes, b: bytes, pid: u64)
    ensures |buf + PidBytes(s, pid)| == |buf| + PidSize(s)
    ensures buf + PidBytes(s, pid) <= b <==> buf <= b && NumberAt(b, |buf|, s.publique(pid), PidSize(s))
  {
    hide NumberAt;
    NumberStep(buf, b, s.publique(pid), PidSize(s));
  }

  lemma {:induction false} Joined(a: bytes, b: bytes, c: bytes)
    ensures a + b + c == a + (b + c)
  {
  }
}
