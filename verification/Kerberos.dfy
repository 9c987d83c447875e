/** Tickets (kerberos.go), their minting at login (ticketgranting.go) and their use when a
    console connects to a secure endpoint (endpoint.go). The primitives are parameters: any
    MD5, any HMAC with 16-byte output, any keystream. */
module Kerberos {
  import opened Bytes
  import opened Streams
  import opened Fields

  type digest = b: bytes | |b| == 16 witness [0, 0, 0, 0, 0, 0, 0, 0, 0, 0, 0, 0, 0, 0, 0, 0]

  datatype Crypto = Crypto(
    md5: bytes -> digest,
    hmac: (bytes, bytes) -> digest,
    keystream: (bytes, nat) -> byte)

  // ---- The cipher -----------------------------------------------------------------------

  function XorKeyStream(c: Crypto, key: bytes, data: bytes): (r: bytes)
    ensures |r| == |data|
  {
    seq<byte>(|data|, (i: nat) requires i < |data| => Xor(data[i], c.keystream(key, i)))
  }

  lemma {:induction false} XorKeyStreamTwice(c: Crypto, key: bytes, data: bytes)
    ensures XorKeyStream(c, key, XorKeyStream(c, key, data)) == data
  {
    hide XorBits;
    var x := XorKeyStream(c, key, data);
    forall i | 0 <= i < |data| ensures XorKeyStream(c, key, x)[i] == data[i] {
      EightBits();
      XorTwice(data[i], c.keystream(key, i), 8);
    }
  }

  /** The ciphertext followed by its checksum. */
  function Encrypted(c: Crypto, key: bytes, data: bytes): (r: bytes)
    ensures |r| == |data| + 16
  {
    var enc := XorKeyStream(c, key, data);
    enc + c.hmac(key, enc)
  }

  /** The plaintext, or None when the checksum does not match. */
  function Decrypted(c: Crypto, key: bytes, buffer: bytes): Option<bytes> {
    if |buffer| < 16 then None
    else
      var data := buffer[..|buffer| - 16];
      if buffer[|buffer| - 16..] != c.hmac(key, data) then None
      else Some(XorKeyStream(c, key, data))
  }

  lemma {:induction false} DecryptEncrypted(c: Crypto, key: bytes, data: bytes)
    ensures Decrypted(c, key, Encrypted(c, key, data)) == Some(data)
  {
    hide XorKeyStream;
    var enc := XorKeyStream(c, key, data);
    var buffer := Encrypted(c, key, data);
    assert buffer[..|buffer| - 16] == enc;
    assert buffer[|buffer| - 16..] == c.hmac(key, enc);
    XorKeyStreamTwice(c, key, data);
  }

  // ---- Tickets ----------------------------------------------------------------------------

  datatype ServerTicket = ServerTicket(timestamp: u64, source: u64, sessionKey: bytes)
  datatype ClientTicket = ClientTicket(sessionKey: bytes, target: u64, internal: bytes)

  function ServerBody(s: Settings, t: ServerTicket): bytes {
    var b1 := [] + LE(t.timestamp, 8);
    var b2 := b1 + PidBytes(s, t.source);
    b2 + t.sessionKey
  }

  /** Ticket version 1 wraps the body with a random key mixed into the server's. */
  function ServerTicketEncrypted(c: Crypto, s: Settings, t: ServerTicket, key: bytes, ticketKey: bytes): Option<bytes> {
    if |t.sessionKey| != s.kerberosKeySize then None
    else if s.kerberosTicketVersion == 1 then
      var enc := Encrypted(c, c.md5(key + ticketKey), ServerBody(s, t));
      Some([] + BufferBytes(ticketKey) + BufferBytes(enc))
    else Some(Encrypted(c, key, ServerBody(s, t)))
  }

  method EncryptServerTicket(c: Crypto, s: Settings, t: ServerTicket, key: bytes, ticketKey: bytes)
    returns (r: Option<bytes>)
    ensures r == ServerTicketEncrypted(c, s, t, key, ticketKey)
  {
    if |t.sessionKey| != s.kerberosKeySize {
      return None;
    }
    var body := new StreamOut(s);
    body.U64(t.timestamp);
    body.PID(t.source);
    body.Write(t.sessionKey);
    if s.kerberosTicketVersion == 1 {
      var finalKey := c.md5(key + ticketKey);
      var enc := Encrypted(c, finalKey, body.buf);
      var out := new StreamOut(s);
      out.Buffer(ticketKey);
      out.Buffer(enc);
      return Some(out.buf);
    }
    return Some(Encrypted(c, key, body.buf));
  }

  function ReadServerBody(s: Settings, d: bytes): (ServerTicket, Cursor) {
    var (timestamp, c1) := ReadU64(d, Cursor(0, false));
    var (source, c2) := ReadPid(s, d, c1);
    var (sessionKey, c3) := ReadRaw(d, c2, s.kerberosKeySize);
    (ServerTicket(timestamp, source, sessionKey), c3)
  }

  function OpenedBody(c: Crypto, s: Settings, key: bytes, data: bytes): Option<ServerTicket> {
    match Decrypted(c, key, data)
    case None => None
    case Some(dec) =>
      var (t, cur) := ReadServerBody(s, dec);
      if cur.err then None else Some(t)
  }

  function ServerTicketOpened(c: Crypto, s: Settings, data: bytes, key: bytes): Option<ServerTicket> {
    if s.kerberosTicketVersion == 1 then
      var (ticketKey, c1) := ReadBuffer(data, Cursor(0, false));
      var (inner, c2) := ReadBuffer(data, c1);
      if c2.err then None else OpenedBody(c, s, c.md5(key + ticketKey), inner)
    else OpenedBody(c, s, key, data)
  }

  method DecryptServerTicket(c: Crypto, s: Settings, data: bytes, key: bytes) returns (r: Option<ServerTicket>)
    ensures r == ServerTicketOpened(c, s, data, key)
  {
    hide ReadBuffer, ReadU64, ReadPid, ReadRaw, Decrypted;
    var finalKey, inner := key, data;
    if s.kerberosTicketVersion == 1 {
      var input := new StreamIn(data, s);
      var ticketKey := input.Buffer();
      inner := input.Buffer();
      if input.err {
        return None;
      }
      finalKey := c.md5(key + ticketKey);
    }
    var dec := Decrypted(c, finalKey, inner);
    if dec.None? {
      return None;
    }
    var input := new StreamIn(dec.value, s);
    var timestamp := input.U64();
    var source := input.PID();
    var sessionKey := input.Read(s.kerberosKeySize);
    if input.err {
      return None;
    }
    return Some(ServerTicket(timestamp, source, sessionKey));
  }

  function ClientBody(s: Settings, t: ClientTicket): bytes {
    var b1 := [] + t.sessionKey;
    var b2 := b1 + PidBytes(s, t.target);
    b2 + BufferBytes(t.internal)
  }

  function ClientTicketEncrypted(c: Crypto, s: Settings, t: ClientTicket, key: bytes): Option<bytes> {
    if |t.sessionKey| != s.kerberosKeySize then None
    else Some(Encrypted(c, key, ClientBody(s, t)))
  }

  function ClientTicketOpened(c: Crypto, s: Settings, data: bytes, key: bytes): Option<ClientTicket> {
    match Decrypted(c, key, data)
    case None => None
    case Some(dec) =>
      var (sessionKey, c1) := ReadRaw(dec, Cursor(0, false), s.kerberosKeySize);
      var (target, c2) := ReadPid(s, dec, c1);
      var (internal, c3) := ReadBuffer(dec, c2);
      if c3.err then None else Some(ClientTicket(sessionKey, target, internal))
  }

  // ---- Where everything sits ----------------------------------------------------------------

  /** The bytes are the body, each byte xored with the keystream, and the checksum of the result. */
  predicate Seals(c: Crypto, key: bytes, b: bytes, body: bytes) {
    && |b| == |body| + 16
    && (forall i: nat :: i < |body| ==> b[i] == Xor(body[i], c.keystream(key, i)))
    && b[|body|..] == c.hmac(key, b[..|body|])
  }

  lemma {:induction false} SealedIff(c: Crypto, key: bytes, b: bytes, body: bytes)
    ensures b == Encrypted(c, key, body) <==> Seals(c, key, b, body)
  {
    var enc := XorKeyStream(c, key, body);
    if b == Encrypted(c, key, body) {
      assert b[..|body|] == enc;
    }
    if Seals(c, key, b, body) {
      assert b[..|body|] == enc;
      assert b == b[..|body|] + b[|body|..];
    }
  }

  /** Time, PID, session key. */
  predicate IsServerBody(s: Settings, b: bytes, t: ServerTicket) {
    var w := PidSize(s);
    && |b| == 8 + w + |t.sessionKey|
    && NumberAt(b, 0, t.timestamp, 8) && NumberAt(b, 8, s.publique(t.source), w) && BytesAt(b, 8 + w, t.sessionKey)
  }

  /** Session key, PID, the inner ticket. */
  predicate IsClientBody(s: Settings, b: bytes, t: ClientTicket) {
    var w, k := PidSize(s), |t.sessionKey|;
    && |b| == k + w + 4 + |t.internal|
    && BytesAt(b, 0, t.sessionKey) && NumberAt(b, k, s.publique(t.target), w) && BufferAt(b, k + w, t.internal)
  }

  lemma {:induction false} ServerBodyLayout(s: Settings, t: ServerTicket)
    ensures IsServerBody(s, ServerBody(s, t), t)
  {
    hide LE, PidBytes, NumberAt, BytesAt, PidSize;
    var b := ServerBody(s, t);
    var b1 := [] + LE(t.timestamp, 8);
    NumberStep([], b, t.timestamp, 8);
    PidStep(s, b1, b, t.source);
    BytesStep(b1 + PidBytes(s, t.source), b, t.sessionKey);
  }

  lemma {:induction false} ClientBodyLayout(s: Settings, t: ClientTicket)
    ensures IsClientBody(s, ClientBody(s, t), t)
  {
    hide PidBytes, BufferBytes, NumberAt, BytesAt, BufferAt, PidSize;
    var b := ClientBody(s, t);
    var b1 := [] + t.sessionKey;
    BytesStep([], b, t.sessionKey);
    PidStep(s, b1, b, t.target);
    BufferStep(b1 + PidBytes(s, t.target), b, t.internal);
  }

  /** The inner ticket is the body sealed under the server's key, or behind the ticket key and under
      the digest of both; the outer ticket is the body sealed under the client's. */
  lemma {:induction false} TicketLayout(
    c: Crypto, s: Settings, st: ServerTicket, ct: ClientTicket, key: bytes, ticketKey: bytes)
    requires |st.sessionKey| == s.kerberosKeySize && |ct.sessionKey| == s.kerberosKeySize
    ensures var inner := ServerTicketEncrypted(c, s, st, key, ticketKey);
            inner.Some?
            && exists body, sealed ::
                 && IsServerBody(s, body, st)
                 && if s.kerberosTicketVersion == 1
                    then |inner.value| == 8 + |ticketKey| + |sealed| && BufferAt(inner.value, 0, ticketKey)
                         && BufferAt(inner.value, 4 + |ticketKey|, sealed)
                         && Seals(c, c.md5(key + ticketKey), sealed, body)
                    else sealed == inner.value && Seals(c, key, sealed, body)
    ensures var outer := ClientTicketEncrypted(c, s, ct, key);
            outer.Some? && exists body :: IsClientBody(s, body, ct) && Seals(c, key, outer.value, body)
  {
    hide Encrypted, Seals, BufferAt, BufferBytes, IsServerBody, IsClientBody, ServerBody, ClientBody;
    ServerBodyLayout(s, st);
    ClientBodyLayout(s, ct);
    SealedIff(c, key, Encrypted(c, key, ClientBody(s, ct)), ClientBody(s, ct));
    var sealKey := if s.kerberosTicketVersion == 1 then c.md5(key + ticketKey) else key;
    var sealed := Encrypted(c, sealKey, ServerBody(s, st));
    SealedIff(c, sealKey, sealed, ServerBody(s, st));
    if s.kerberosTicketVersion == 1 {
      var inner := ServerTicketEncrypted(c, s, st, key, ticketKey).value;
      BufferStep([], inner, ticketKey);
      BufferStep([] + BufferBytes(ticketKey), inner, sealed);
      assert [] + BufferBytes(ticketKey) + BufferBytes(sealed) == inner;
    }
  }

  // ---- Minting at login -------------------------------------------------------------------

  /** What the login handler mints for an authenticated PID. */
  datatype Mint = Mint(internal: bytes, ticket: bytes)

  function SessionKeyLength(s: Settings, configured: nat): nat {
    if configured == 0 then s.kerberosKeySize else configured
  }

  /** randomness: the session key drawn for this login, and the ticket key. */
  function Minted(c: Crypto, s: Settings, pid: u64, securePid: u64, targetKey: bytes, sourceKey: bytes,
                  now: u64, sessionKey: bytes, ticketKey: bytes): Option<Mint> {
    var internal := ServerTicketEncrypted(c, s, ServerTicket(now, pid, sessionKey), targetKey, ticketKey);
    if internal.None? then None
    else
      var ticket := ClientTicketEncrypted(c, s, ClientTicket(sessionKey, securePid, internal.value), sourceKey);
      if ticket.None? then None else Some(Mint(internal.value, ticket.value))
  }

  /** Draws arrive as arguments; the session key has the configured length, or the profile's. */
  method MintTicket(c: Crypto, s: Settings, configured: nat, pid: u64, securePid: u64, targetKey: bytes,
                    sourceKey: bytes, now: u64, sessionKey: bytes, ticketKey: bytes) returns (r: Option<Mint>)
    requires |sessionKey| == SessionKeyLength(s, configured)
    ensures r == Minted(c, s, pid, securePid, targetKey, sourceKey, now, sessionKey, ticketKey)
  {
    hide Encrypted;
    var internal := EncryptServerTicket(c, s, ServerTicket(now, pid, sessionKey), targetKey, ticketKey);
    if internal.None? {
      return None;
    }
    var out := new StreamOut(s);
    out.Write(sessionKey);
    out.PID(securePid);
    out.Buffer(internal.value);
    return Some(Mint(internal.value, Encrypted(c, sourceKey, out.buf)));
  }

  function Next(check: u32): u32 {
    var n: nat := check;
    (n + 1) % 0x1_0000_0000
  }

  /** What proves to the client that the server holds the session key. */
  function Answer(check: u32): bytes {
    LE(4, 4) + LE(Next(check), 4)
  }

  lemma {:induction false} AnswerLayout(check: u32)
    ensures |Answer(check)| == 8 && NumberAt(Answer(check), 0, 4, 4)
    ensures NumberAt(Answer(check), 4, if check == 0xFFFF_FFFF then 0 else check + 1, 4)
  {
    hide LE, NumberAt;
    NumberStep([], Answer(check), 4, 4);
    NumberStep(LE(4, 4), Answer(check), Next(check), 4);
    assert [] + LE(4, 4) == LE(4, 4);
  }

  // ---- Using the ticket at CONNECT ----------------------------------------------------------

  datatype Identity = Identity(pid: u64, cid: u32, sessionKey: bytes)

  /** Checks a CONNECT payload. None refuses; otherwise the connection's identity afterwards
      and the response. `recall` is the PID that logged in from this address a moment ago. */
  function LoginRequest(c: Crypto, s: Settings, secure: bool, secureKey: bytes, recall: Option<u64>,
                        who: Identity, payload: bytes): Option<(Identity, bytes)> {
    if !secure then Some((who, []))
    else if payload == [] then
      (if recall.None? then None else Some((who.(pid := recall.value), [])))
    else
      var (ticketData, c1) := ReadBuffer(payload, Cursor(0, false));
      var (requestData, c2) := ReadBuffer(payload, c1);
      if c2.err then None
      else
        var ticket := ServerTicketOpened(c, s, ticketData, secureKey);
        if ticket.None? then None
        else
          var dec := Decrypted(c, ticket.value.sessionKey, requestData);
          if dec.None? || |dec.value| != s.pidSize + 8 then None
          else
            var (pid, d1) := ReadPid(s, dec.value, Cursor(0, false));
            if pid != ticket.value.source then None
            else
              var (cid, d2) := ReadU32(dec.value, d1);
              var (check, d3) := ReadU32(dec.value, d2);
              Some((Identity(pid, cid, ticket.value.sessionKey), Answer(check)))
  }

  method ProcessLoginRequest(c: Crypto, s: Settings, secure: bool, secureKey: bytes, recall: Option<u64>,
                             who: Identity, payload: bytes) returns (r: Option<(Identity, bytes)>)
    ensures r == LoginRequest(c, s, secure, secureKey, recall, who, payload)
  {
    hide ReadBuffer, ReadU32, ReadPid, Decrypted, ServerTicketOpened;
    if !secure {
      return Some((who, []));
    }
    if |payload| == 0 {
      if recall.None? {
        return None;
      }
      return Some((who.(pid := recall.value), []));
    }
    var input := new StreamIn(payload, s);
    var ticketData := input.Buffer();
    var requestData := input.Buffer();
    if input.err {
      return None;
    }
    var ticket := DecryptServerTicket(c, s, ticketData, secureKey);
    if ticket.None? {
      return None;
    }
    var decrypted := Decrypted(c, ticket.value.sessionKey, requestData);
    if decrypted.None? || |decrypted.value| != s.pidSize + 8 {
      return None;
    }
    var rs := new StreamIn(decrypted.value, s);
    var pid := rs.PID();
    if pid != ticket.value.source {
      return None;
    }
    var cid := rs.U32();
    var check := rs.U32();
    var out := new StreamOut(s);
    out.U32(4);
    out.U32(Next(check));
    assert out.buf == Answer(check);
    return Some((Identity(pid, cid, ticket.value.sessionKey), out.buf));
  }

  /** What a client sends: the inner ticket, and (pid, cid, check) under the session key. */
  function CheckBody(s: Settings, declared: u64, cid: u32, check: u32): bytes {
    var b1 := [] + PidBytes(s, declared);
    var b2 := b1 + LE(cid, 4);
    b2 + LE(check, 4)
  }

  function ConnectPayload(c: Crypto, s: Settings, t: ClientTicket, declared: u64, cid: u32, check: u32): bytes {
    [] + BufferBytes(t.internal) + BufferBytes(Encrypted(c, t.sessionKey, CheckBody(s, declared, cid, check)))
  }

  // ---- From login to identity -----------------------------------------------------------------

  predicate SaneSettings(s: Settings) {
    (s.pidSize == 4 || s.pidSize == 8) && s.kerberosKeySize < 0x1000_0000
  }

  lemma {:induction false} ReadServerBodyBack(s: Settings, t: ServerTicket)
    requires |t.sessionKey| == s.kerberosKeySize
    ensures ReadServerBody(s, ServerBody(s, t))
         == (t.(source := PidRead(s, t.source)), Cursor(|ServerBody(s, t)|, false))
  {
    hide LE, PidBytes, ReadU64, ReadPid, PidRead;
    var b1 := [] + LE(t.timestamp, 8);
    var b2 := b1 + PidBytes(s, t.source);
    PrefixAt(b2, t.sessionKey, ServerBody(s, t));
    ReadAnyPidBack(s, b1, t.source, ServerBody(s, t));
    ReadU64Back([], t.timestamp, ServerBody(s, t));
  }

  lemma {:induction false} TwoBuffersBack(a: bytes, b: bytes)
    requires |a| < 0x1_0000_0000 && |b| < 0x1_0000_0000
    ensures var d := [] + BufferBytes(a) + BufferBytes(b);
            var (x, c1) := ReadBuffer(d, Cursor(0, false));
            var (y, c2) := ReadBuffer(d, c1);
            x == a && y == b && c2 == Cursor(|d|, false)
  {
    hide BufferBytes, ReadBuffer;
    var d := [] + BufferBytes(a) + BufferBytes(b);
    ReadBufferBack([] + BufferBytes(a), b, d);
    ReadBufferBack([], a, d);
  }

  /** The secure server recovers the minted server ticket, for both ticket versions, with the
      player's PID as it reads back: unchanged exactly when the PID survives the wire. */
  lemma {:induction false} ServerTicketRoundTrip(c: Crypto, s: Settings, t: ServerTicket, key: bytes, ticketKey: bytes)
    requires SaneSettings(s) && |ticketKey| == 16
    requires |t.sessionKey| == s.kerberosKeySize
    ensures var data := ServerTicketEncrypted(c, s, t, key, ticketKey);
            data.Some? && |data.value| < 0x1000_0100
            && ServerTicketOpened(c, s, data.value, key) == Some(t.(source := PidRead(s, t.source)))
  {
    hide Encrypted, Decrypted, ReadBuffer, ReadServerBody, PidRead;
    ReadServerBodyBack(s, t);
    var body := ServerBody(s, t);
    if s.kerberosTicketVersion == 1 {
      var finalKey := c.md5(key + ticketKey);
      DecryptEncrypted(c, finalKey, body);
      assert |Encrypted(c, finalKey, body)| == |body| + 16;
      TwoBuffersBack(ticketKey, Encrypted(c, finalKey, body));
    } else {
      assert |Encrypted(c, key, body)| == |body| + 16;
      DecryptEncrypted(c, key, body);
    }
  }

  lemma {:induction false} ClientTicketRoundTrip(c: Crypto, s: Settings, t: ClientTicket, key: bytes)
    requires |t.sessionKey| == s.kerberosKeySize && |t.internal| < 0x1_0000_0000
    ensures var data := ClientTicketEncrypted(c, s, t, key);
            data.Some? && ClientTicketOpened(c, s, data.value, key) == Some(t.(target := PidRead(s, t.target)))
  {
    hide Encrypted, Decrypted, PidBytes, BufferBytes, ReadPid, ReadBuffer, PidRead;
    var body := ClientBody(s, t);
    DecryptEncrypted(c, key, body);
    var b1 := [] + t.sessionKey;
    var b2 := b1 + PidBytes(s, t.target);
    ReadBufferBack(b2, t.internal, body);
    ReadAnyPidBack(s, b1, t.target, body);
    PrefixAt([], t.sessionKey, body);
  }

  lemma {:induction false} CheckBodyBack(s: Settings, declared: u64, cid: u32, check: u32)
    requires SaneSettings(s)
    ensures var d := CheckBody(s, declared, cid, check);
            var (pid, c1) := ReadPid(s, d, Cursor(0, false));
            var (x, c2) := ReadU32(d, c1);
            var (y, c3) := ReadU32(d, c2);
            |d| == s.pidSize + 8 && pid == PidRead(s, declared) && x == cid && y == check
  {
    hide LE, ReadU32, ReadPid, PidRead;
    var d := CheckBody(s, declared, cid, check);
    assert |LE(s.publique(declared), PidWidth(s))| == PidWidth(s);
    assert |LE(cid, 4)| == 4 && |LE(check, 4)| == 4;
    var b1 := [] + PidBytes(s, declared);
    var b2 := b1 + LE(cid, 4);
    ReadU32Back(b2, check, d);
    ReadU32Back(b1, cid, d);
    ReadAnyPidBack(s, [], declared, d);
  }

  /** A login mints a ticket exactly when the configured session key length is the profile's. */
  lemma {:induction false} MintIff(c: Crypto, s: Settings, pid: u64, securePid: u64, targetKey: bytes, sourceKey: bytes,
                now: u64, sessionKey: bytes, ticketKey: bytes, configured: nat)
    requires |sessionKey| == SessionKeyLength(s, configured)
    ensures Minted(c, s, pid, securePid, targetKey, sourceKey, now, sessionKey, ticketKey).Some?
       <==> configured == 0 || configured == s.kerberosKeySize
  {
    hide Encrypted;
  }

  /** From login to identity, for both ticket versions. The client opens the minted ticket with
      its source key and finds the session key, the secure server and the inner ticket. Presenting
      that inner ticket with (declared, cid, check) under the session key, it is accepted and
      answered [4][check + 1] exactly when the PID it declares reads back as the login's does, and
      then as that PID. */
  lemma {:induction false} TicketToIdentity(
    c: Crypto, s: Settings, pid: u64, securePid: u64, targetKey: bytes, sourceKey: bytes,
    now: u64, sessionKey: bytes, ticketKey: bytes,
    recall: Option<u64>, who: Identity, declared: u64, cid: u32, check: u32)
    requires SaneSettings(s) && |sessionKey| == s.kerberosKeySize && |ticketKey| == 16
    ensures var mint := Minted(c, s, pid, securePid, targetKey, sourceKey, now, sessionKey, ticketKey);
            mint.Some?
            && var found := ClientTicketOpened(c, s, mint.value.ticket, sourceKey);
               found == Some(ClientTicket(sessionKey, PidRead(s, securePid), mint.value.internal))
               && LoginRequest(c, s, true, targetKey, recall, who,
                               ConnectPayload(c, s, found.value, declared, cid, check))
                  == if PidRead(s, declared) == PidRead(s, pid)
                     then Some((Identity(PidRead(s, pid), cid, sessionKey), Answer(check)))
                     else None
    ensures |Answer(check)| == 8 && NumberAt(Answer(check), 0, 4, 4)
    ensures NumberAt(Answer(check), 4, if check == 0xFFFF_FFFF then 0 else check + 1, 4)
  {
    hide Encrypted, Decrypted, ServerTicketEncrypted, ServerTicketOpened, ClientTicketEncrypted,
         ClientTicketOpened, BufferBytes, Answer, NumberAt, CheckBody, ReadPid, ReadU32, ReadBuffer, PidRead;
    var st := ServerTicket(now, pid, sessionKey);
    ServerTicketRoundTrip(c, s, st, targetKey, ticketKey);
    var internal := ServerTicketEncrypted(c, s, st, targetKey, ticketKey).value;
    ClientTicketRoundTrip(c, s, ClientTicket(sessionKey, securePid, internal), sourceKey);
    var ct := ClientTicket(sessionKey, PidRead(s, securePid), internal);
    var body := CheckBody(s, declared, cid, check);
    CheckBodyBack(s, declared, cid, check);
    AnswerLayout(check);
    DecryptEncrypted(c, sessionKey, body);
    assert |Encrypted(c, sessionKey, body)| == |body| + 16;
    TwoBuffersBack(internal, Encrypted(c, sessionKey, body));
    assert ConnectPayload(c, s, ct, declared, cid, check) != [] by {
      PayloadNotEmpty(internal, Encrypted(c, sessionKey, body));
    }
  }

  // ---- What an accepted login must have held --------------------------------------------------

  lemma {:induction false} NumberRead(d: bytes, c: Cursor)
    ensures var (v, c1) := ReadU32(d, c);
            !c1.err ==> !c.err && c1.pos == c.pos + 4 <= |d| && NumberAt(d, c.pos, v, 4)
  {
    var (v, c1) := ReadU32(d, c);
    if !c1.err {
      var b := d[c.pos..c.pos + 4];
      UnLERoundTrip(b);
      assert d[..c.pos] + LE(v, 4) == d[..c.pos + 4];
      hide NumberAt, LE;
      NumberStep(d[..c.pos], d, v, 4);
    }
  }

  lemma {:induction false} BufferRead(d: bytes, c: Cursor)
    ensures var (b, c2) := ReadBuffer(d, c);
            !c2.err ==> !c.err && c2.pos == c.pos + 4 + |b| && BufferAt(d, c.pos, b)
  {
    hide ReadU32, NumberAt;
    NumberRead(d, c);
  }

  lemma {:induction false} DecryptedIsSealed(c: Crypto, key: bytes, b: bytes)
    ensures var body := Decrypted(c, key, b);
            body.Some? ==> Seals(c, key, b, body.value)
  {
    hide XorKeyStream, Seals;
    var body := Decrypted(c, key, b);
    if body.Some? {
      var data := b[..|b| - 16];
      XorKeyStreamTwice(c, key, data);
      assert b == data + b[|b| - 16..] == Encrypted(c, key, body.value);
      SealedIff(c, key, b, body.value);
    }
  }

  lemma {:induction false} CheckRead(s: Settings, d: bytes)
    requires SaneSettings(s) && |d| == s.pidSize + 8
    ensures var (pid, c1) := ReadPid(s, d, Cursor(0, false));
            var (cid, c2) := ReadU32(d, c1);
            var (check, c3) := ReadU32(d, c2);
            NumberAt(d, s.pidSize, cid, 4) && NumberAt(d, s.pidSize + 4, check, 4)
  {
    hide NumberAt;
    var c1 := ReadPid(s, d, Cursor(0, false)).1;
    assert c1 == Cursor(s.pidSize, false);
    NumberRead(d, c1);
    NumberRead(d, ReadU32(d, c1).1);
  }

  /** What the payload of an accepted login held: a ticket that opens under the server's key and, sealed
      under that ticket's session key, a PID that reads as the ticket's, a connection id and a check
      value; the identity is made of these, and the answer is four and the check value plus one. */
  predicate Proves(c: Crypto, s: Settings, key: bytes, payload: bytes, r: (Identity, bytes),
                   ticket: ServerTicket, sealed: bytes, request: bytes, body: bytes, check: u32)
    requires SaneSettings(s)
  {
    && BufferAt(payload, 0, sealed) && BufferAt(payload, 4 + |sealed|, request)
    && ServerTicketOpened(c, s, sealed, key) == Some(ticket)
    && Seals(c, ticket.sessionKey, request, body) && |body| == s.pidSize + 8
    && ReadPid(s, body, Cursor(0, false)).0 == ticket.source
    && NumberAt(body, s.pidSize, r.0.cid, 4) && NumberAt(body, s.pidSize + 4, check, 4)
    && r.0.pid == ticket.source && r.0.sessionKey == ticket.sessionKey
    && |r.1| == 8 && NumberAt(r.1, 0, 4, 4) && NumberAt(r.1, 4, if check == 0xFFFF_FFFF then 0 else check + 1, 4)
  }

  /** Nobody enters a secure endpoint with a payload that does not prove it. */
  lemma {:induction false} LoginIsProved(
    c: Crypto, s: Settings, key: bytes, recall: Option<u64>, who: Identity, payload: bytes)
    requires SaneSettings(s) && payload != []
    ensures var r := LoginRequest(c, s, true, key, recall, who, payload);
            r.Some? ==> exists ticket, sealed, request, body, check ::
                          Proves(c, s, key, payload, r.value, ticket, sealed, request, body, check)
  {
    hide BufferAt, NumberAt, Seals, ServerTicketOpened, Decrypted, ReadBuffer, ReadU32, ReadPid, Answer;
    var r := LoginRequest(c, s, true, key, recall, who, payload);
    if r.Some? {
      var (sealed, c1) := ReadBuffer(payload, Cursor(0, false));
      var (request, c2) := ReadBuffer(payload, c1);
      BufferRead(payload, Cursor(0, false));
      BufferRead(payload, c1);
      var ticket := ServerTicketOpened(c, s, sealed, key).value;
      var body := Decrypted(c, ticket.sessionKey, request).value;
      DecryptedIsSealed(c, ticket.sessionKey, request);
      CheckRead(s, body);
      var check := ReadU32(body, ReadU32(body, ReadPid(s, body, Cursor(0, false)).1).1).0;
      AnswerLayout(check);
      assert Proves(c, s, key, payload, r.value, ticket, sealed, request, body, check);
    }
  }

  lemma {:induction false} PayloadNotEmpty(a: bytes, b: bytes)
    ensures [] + BufferBytes(a) + BufferBytes(b) != []
  {
    assert |BufferBytes(a)| >= 4;
  }
}
