/** Who may be matched with whom (matchmaking_criteria.go, matchmaking_handlers.go): search
    filters, passwords, NAT classes, and the newest connection of a player (endpoint.go). */
module MatchCriteria {
  import opened Bytes
  import opened Structures

  // ---- Search filters -------------------------------------------------------------------------

  const COMMA: byte := 44
  const DIGIT_ZERO: byte := 48

  predicate IsSpace(c: byte) {
    c == 32 || 9 <= c <= 13
  }

  predicate IsDigit(c: byte) {
    DIGIT_ZERO <= c < DIGIT_ZERO + 10
  }

  function TrimLeft(s: bytes): bytes {
    if s != [] && IsSpace(s[0]) then TrimLeft(s[1..]) else s
  }

  function TrimRight(s: bytes): bytes {
    if s != [] && IsSpace(s[|s| - 1]) then TrimRight(s[..|s| - 1]) else s
  }

  function TrimSpace(s: bytes): bytes {
    TrimRight(TrimLeft(s))
  }

  /** The text before the first comma, the text after it, and whether there is one. */
  function Cut(s: bytes): (bytes, bytes, bool) {
    if s == [] then ([], [], false)
    else if s[0] == COMMA then ([], s[1..], true)
    else
      var (lo, hi, found) := Cut(s[1..]);
      ([s[0]] + lo, hi, found)
  }

  function Digits(s: bytes): Option<nat> {
    if s == [] then Some(0)
    else
      var high := Digits(s[..|s| - 1]);
      if high.None? || !IsDigit(s[|s| - 1]) then None else Some(10 * high.value + (s[|s| - 1] - DIGIT_ZERO))
  }

  /** Decimal digits only, at least one, at most 64 bits. */
  function ParseUint(s: bytes): Option<u64> {
    var n := Digits(s);
    if s == [] || n.None? || n.value >= 0x1_0000_0000_0000_0000 then None else Some(n.value)
  }

  /** "" accepts anything, "n" that value, "lo,hi" the inclusive range; what does not parse
      does not filter. */
  predicate FilterAccepts(filter: bytes, v: u64) {
    var f := TrimSpace(filter);
    f == []
    || var (lo, hi, isRange) := Cut(f);
       var min := ParseUint(TrimSpace(lo));
       var max := ParseUint(TrimSpace(hi));
       min.None?
       || if !isRange then v == min.value
          else min.value <= v && (max.Some? ==> v <= max.value)
  }

  function Decimal(n: nat): (s: bytes)
    ensures s != [] && forall c :: c in s ==> IsDigit(c)
  {
    (if n < 10 then [] else Decimal(n / 10)) + [DIGIT_ZERO + n % 10]
  }

  lemma {:induction false} ParseDecimal(n: u64)
    ensures ParseUint(Decimal(n)) == Some(n)
  {
    DigitsOfDecimal(n);
  }

  lemma {:induction false} DigitsOfDecimal(n: nat)
    ensures Digits(Decimal(n)) == Some(n)
  {
    var s := Decimal(n);
    assert s[..|s| - 1] == if n < 10 then [] else Decimal(n / 10);
    if n >= 10 {
      DigitsOfDecimal(n / 10);
    }
  }

  lemma {:induction false} NothingToTrim(s: bytes)
    requires s != [] && !IsSpace(s[0]) && !IsSpace(s[|s| - 1])
    ensures TrimSpace(s) == s
  {
  }

  lemma {:induction false} NoComma(s: bytes)
    requires COMMA !in s
    ensures Cut(s) == (s, [], false)
  {
    if s != [] {
      NoComma(s[1..]);
      assert [s[0]] + s[1..] == s;
    }
  }

  lemma {:induction false} CutAt(lo: bytes, hi: bytes)
    requires COMMA !in lo
    ensures Cut(lo + [COMMA] + hi) == (lo, hi, true)
  {
    var s := lo + [COMMA] + hi;
    if lo == [] {
      assert s[1..] == hi;
    } else {
      assert s[1..] == lo[1..] + [COMMA] + hi;
      CutAt(lo[1..], hi);
      assert [lo[0]] + lo[1..] == lo;
    }
  }

  /** What the printed forms mean. */
  lemma {:induction false} FilterMeaning(lo: u64, hi: u64, v: u64)
    ensures FilterAccepts([], v)
    ensures FilterAccepts(Decimal(lo), v) <==> v == lo
    ensures FilterAccepts(Decimal(lo) + [COMMA] + Decimal(hi), v) <==> lo <= v <= hi
    ensures FilterAccepts(Decimal(lo) + [COMMA], v) <==> lo <= v
  {
    hide Decimal, Digits, TrimSpace, Cut, ParseUint;
    var a, b := Decimal(lo), Decimal(hi);
    ParseDecimal(lo);
    ParseDecimal(hi);
    assert a[0] in a && a[|a| - 1] in a && b[0] in b && b[|b| - 1] in b;
    NothingToTrim(a);
    NothingToTrim(b);
    NoComma(a);
    CutAt(a, b);
    CutAt(a, []);
    NothingToTrim(a + [COMMA] + b);
    NothingToTrim(a + [COMMA]);
    assert a + [COMMA] + [] == a + [COMMA];
    NothingThere();
  }

  lemma {:induction false} NothingThere()
    ensures TrimSpace([]) == [] && ParseUint([]) == None
  {
  }

  // ---- Criteria -------------------------------------------------------------------------------

  /** The fields of a search criterion that the matchmaker reads. */
  datatype Criterion = Criterion(
    attribs: seq<bytes>, gameMode: bytes, minParticipants: bytes, maxParticipants: bytes,
    matchmakeSystem: bytes, vacantOnly: bool, vacantParticipants: u16, excludeLocked: bool,
    excludeUserPassword: bool, excludeSysPassword: bool, codeword: bytes)

  predicate CriterionAccepts(c: Criterion, s: MatchmakeSession, members: nat) {
    && FilterAccepts(c.gameMode, s.gameMode)
    && FilterAccepts(c.minParticipants, s.gathering.minParticipants)
    && FilterAccepts(c.maxParticipants, s.gathering.maxParticipants)
    && FilterAccepts(c.matchmakeSystem, s.matchmakeSystem)
    && (forall i :: 0 <= i < |c.attribs| ==>
          TrimSpace(c.attribs[i]) == [] || (i < |s.attribs| && FilterAccepts(c.attribs[i], s.attribs[i])))
    && (c.vacantOnly ==>
          s.gathering.maxParticipants - members >= (if c.vacantParticipants < 1 then 1 else c.vacantParticipants))
    && (c.excludeLocked ==> s.openParticipation)
    && (c.excludeUserPassword ==> !s.userPasswordEnabled)
    && (c.excludeSysPassword ==> !s.systemPasswordEnabled)
    && (c.codeword != [] ==> c.codeword == s.codeword)
  }

  /** At least one criterion, when there are any. */
  predicate CriteriaAccept(criteria: seq<Criterion>, s: MatchmakeSession, members: nat) {
    criteria == [] || exists i :: 0 <= i < |criteria| && CriterionAccepts(criteria[i], s, members)
  }

  /** A room with a password takes only a searcher presenting the same non-empty one. */
  predicate PasswordCompatible(cand: MatchmakeSession, src: MatchmakeSession) {
    !cand.userPasswordEnabled
    || (src.userPasswordEnabled && src.userPassword != [] && cand.userPassword == src.userPassword)
  }

  /** A range as a title asks for it, and the text it sends for it. */
  datatype Range = Any | Exactly(n: u64) | Between(lo: u64, hi: u64) | AtLeast(lo: u64)
  {
    predicate Has(v: u64) {
      match this
      case Any => true
      case Exactly(n) => v == n
      case Between(lo, hi) => lo <= v <= hi
      case AtLeast(lo) => lo <= v
    }

    function Text(): bytes {
      match this
      case Any => []
      case Exactly(n) => Decimal(n)
      case Between(lo, hi) => Decimal(lo) + [COMMA] + Decimal(hi)
      case AtLeast(lo) => Decimal(lo) + [COMMA]
    }
  }

  lemma {:induction false} RangeMeaning(r: Range, v: u64)
    ensures FilterAccepts(r.Text(), v) <==> r.Has(v)
    ensures TrimSpace(r.Text()) == [] <==> r.Any?
  {
    hide FilterAccepts, TrimSpace;
    match r
    case Any => FilterMeaning(0, 0, v); NothingThere();
    case Exactly(n) => FilterMeaning(n, n, v); TextNotEmpty(n, []); assert Decimal(n) + [] == Decimal(n);
    case Between(lo, hi) => FilterMeaning(lo, hi, v); TextNotEmpty(lo, [COMMA] + Decimal(hi)); BetweenNotEmpty(lo, hi);
    case AtLeast(lo) => FilterMeaning(lo, 0, v); TextNotEmpty(lo, [COMMA]);
  }

  lemma {:induction false} BetweenNotEmpty(lo: u64, hi: u64)
    ensures Decimal(lo) + ([COMMA] + Decimal(hi)) == Decimal(lo) + [COMMA] + Decimal(hi)
  {
  }

  /** A text that starts with a digit is not blank. */
  lemma {:induction false} TextNotEmpty(n: nat, more: bytes)
    requires more == [] || !IsSpace(more[|more| - 1])
    ensures TrimSpace(Decimal(n) + more) != []
  {
    hide Decimal;
    var s := Decimal(n) + more;
    assert Decimal(n)[0] in Decimal(n) && Decimal(n)[|Decimal(n)| - 1] in Decimal(n);
    assert s[0] == Decimal(n)[0];
    assert s[|s| - 1] == if more == [] then Decimal(n)[|Decimal(n)| - 1] else more[|more| - 1];
    NothingToTrim(s);
  }

  /** What a criterion asks for, in numbers. */
  datatype Wish = Wish(
    attribs: seq<Range>, gameMode: Range, minParticipants: Range, maxParticipants: Range, matchmakeSystem: Range)

  /** The criterion carries these ranges in their printed form. */
  predicate Carries(c: Criterion, w: Wish) {
    && c.gameMode == w.gameMode.Text() && c.matchmakeSystem == w.matchmakeSystem.Text()
    && c.minParticipants == w.minParticipants.Text() && c.maxParticipants == w.maxParticipants.Text()
    && |c.attribs| == |w.attribs|
    && forall i :: 0 <= i < |w.attribs| ==> c.attribs[i] == w.attribs[i].Text()
  }

  /** A room meets a criterion exactly when its mode, system, limits and attributes are in the
      ranges asked for (an attribute it does not have only where any will do), it has the free places
      asked for, one at least, when only vacant rooms are wanted, it is open, without user password
      and without system password where that is wanted, and it has the codeword if one is given. */
  lemma {:induction false} CriterionMeaning(c: Criterion, w: Wish, s: MatchmakeSession, members: nat)
    requires Carries(c, w)
    ensures CriterionAccepts(c, s, members)
       <==> && w.gameMode.Has(s.gameMode) && w.matchmakeSystem.Has(s.matchmakeSystem)
            && w.minParticipants.Has(s.gathering.minParticipants)
            && w.maxParticipants.Has(s.gathering.maxParticipants)
            && (forall i: nat :: i < |w.attribs| ==>
                  if i < |s.attribs| then w.attribs[i].Has(s.attribs[i]) else w.attribs[i].Any?)
            && !(c.vacantOnly && (members >= s.gathering.maxParticipants
                                  || members + c.vacantParticipants > s.gathering.maxParticipants))
            && !(c.excludeLocked && !s.openParticipation)
            && !(c.excludeUserPassword && s.userPasswordEnabled)
            && !(c.excludeSysPassword && s.systemPasswordEnabled)
            && (c.codeword == [] || c.codeword == s.codeword)
  {
    hide FilterAccepts, TrimSpace, Range.Text;
    RangeMeaning(w.gameMode, s.gameMode);
    RangeMeaning(w.matchmakeSystem, s.matchmakeSystem);
    RangeMeaning(w.minParticipants, s.gathering.minParticipants);
    RangeMeaning(w.maxParticipants, s.gathering.maxParticipants);
    forall i: nat | i < |w.attribs|
      ensures var kept := if i < |s.attribs| then w.attribs[i].Has(s.attribs[i]) else w.attribs[i].Any?;
              kept <==> TrimSpace(c.attribs[i]) == []
                        || (i < |s.attribs| && FilterAccepts(c.attribs[i], s.attribs[i]))
    {
      RangeMeaning(w.attribs[i], if i < |s.attribs| then s.attribs[i] else 0);
    }
  }

  // ---- NAT classes ----------------------------------------------------------------------------

  datatype NatClass = Unknown | Open | Moderate | Strict

  function ClassifyNat(mapping: u32, filtering: u32): NatClass {
    if mapping == 0 && filtering == 0 then Unknown
    else if mapping <= 1 && filtering <= 1 then Open
    else if mapping <= 1 then Moderate
    else Strict
  }

  /** Refused: a strict console with a strict or moderate one. */
  predicate NatCompatible(a: NatClass, b: NatClass) {
    if a.Unknown? || b.Unknown? then true
    else if a.Strict? && (b.Strict? || b.Moderate?) then false
    else if b.Strict? && (a.Strict? || a.Moderate?) then false
    else true
  }

  /** Two players can punch through to each other, by the mapping and filtering they reported:
      unless one of them has a mapping of 2 or more and the other has a 2 or more anywhere. */
  predicate CanPunch(m1: u32, f1: u32, m2: u32, f2: u32) {
    !(m1 >= 2 && (m2 >= 2 || f2 >= 2)) && !(m2 >= 2 && (m1 >= 2 || f1 >= 2))
  }

  lemma {:induction false} NatRule(m1: u32, f1: u32, m2: u32, f2: u32)
    ensures NatCompatible(ClassifyNat(m1, f1), ClassifyNat(m2, f2)) <==> CanPunch(m1, f1, m2, f2)
    ensures NatCompatible(ClassifyNat(m1, f1), Unknown)
  {
  }

  // ---- Connections ----------------------------------------------------------------------------

  /** A live connection: its player and the NAT behaviour it is classified by. */
  datatype Link = Link(pid: u64, mapping: u32, filtering: u32)

  type Links = map<u32, Link>

  predicate Owns(links: Links, id: u32, pid: u64) {
    id in links && links[id].pid == pid
  }

  /** The player's connection with the highest id. */
  ghost predicate IsNewest(links: Links, id: u32, pid: u64) {
    Owns(links, id, pid) && forall other: u32 :: Owns(links, other, pid) ==> other <= id
  }

  lemma {:induction false} NewestExists(links: Links, pid: u64, ids: set<u32>, id: u32)
    requires id in ids && forall i: u32 :: i in ids ==> Owns(links, i, pid)
    ensures exists top: u32 :: top in ids && forall i: u32 :: i in ids ==> i <= top
    decreases ids
  {
    var rest := ids - {id};
    if rest == {} {
      assert forall i: u32 :: i in ids ==> i == id || i in rest;
    } else {
      var other: u32 :| other in rest;
      NewestExists(links, pid, rest, other);
      var top: u32 :| top in rest && forall i: u32 :: i in rest ==> i <= top;
      var max := if id < top then top else id;
      assert forall i: u32 :: i in ids ==> i == id || i in rest;
      assert max in ids && forall i: u32 :: i in ids ==> i <= max;
    }
  }

  ghost function Newest(links: Links, pid: u64): (r: Option<u32>)
    ensures r.Some? ==> IsNewest(links, r.value, pid)
    ensures r.None? ==> forall id: u32 :: !Owns(links, id, pid)
  {
    var ids: set<u32> := set id | id in links && links[id].pid == pid;
    assert forall id: u32 :: Owns(links, id, pid) <==> id in ids;
    if ids == {} then None
    else
      var some: u32 :| some in ids;
      NewestExists(links, pid, ids, some);
      var top: u32 :| top in ids && forall i: u32 :: i in ids ==> i <= top;
      Some(top)
  }

  lemma {:induction false} NewestIs(links: Links, pid: u64, id: u32)
    requires IsNewest(links, id, pid)
    ensures Newest(links, pid) == Some(id)
  {
  }

  /** The most recent connection, whatever order the table is walked in. */
  method FindConnectionByPID(links: Links, pid: u64) returns (r: Option<u32>)
    ensures r == Newest(links, pid)
  {
    hide Newest;
    r := None;
    var todo := links.Keys;
    while todo != {}
      invariant todo <= links.Keys
      invariant r.Some? ==> Owns(links, r.value, pid)
      invariant forall id: u32 :: Owns(links, id, pid) && id !in todo ==> r.Some? && id <= r.value
      decreases todo
    {
      var id :| id in todo;
      todo := todo - {id};
      if links[id].pid == pid && (r.None? || id > r.value) {
        r := Some(id);
      }
    }
    if r.Some? {
      NewestIs(links, pid, r.value);
    } else {
      assert Newest(links, pid).None?;
    }
  }

  ghost predicate Online(links: Links, pid: u64) {
    Newest(links, pid).Some?
  }

  ghost function NatOf(links: Links, pid: u64): NatClass {
    var c := Newest(links, pid);
    if c.None? then Unknown else ClassifyNat(links[c.value].mapping, links[c.value].filtering)
  }

  /** The joiner can reach every other member. */
  ghost predicate GatheringCompatible(links: Links, joiner: NatClass, members: seq<u64>, pid: u64) {
    forall p :: p in members && p != pid ==> NatCompatible(joiner, NatOf(links, p))
  }

  /** The joiner can punch through to every other member, as far as it is connected. */
  ghost predicate ReachesAll(links: Links, m: u32, f: u32, members: seq<u64>, pid: u64) {
    forall p: u64, id: u32 :: p in members && p != pid && IsNewest(links, id, p) ==>
      CanPunch(m, f, links[id].mapping, links[id].filtering)
  }

  lemma {:induction false} CompatibleReaches(links: Links, m: u32, f: u32, members: seq<u64>, pid: u64)
    ensures GatheringCompatible(links, ClassifyNat(m, f), members, pid) <==> ReachesAll(links, m, f, members, pid)
  {
    hide Newest, CanPunch, NatCompatible, ClassifyNat;
    forall p: u64
      ensures NatCompatible(ClassifyNat(m, f), NatOf(links, p))
         <==> forall id: u32 :: IsNewest(links, id, p) ==> CanPunch(m, f, links[id].mapping, links[id].filtering)
    {
      var c: Option<u32> := Newest(links, p);
      if c.None? {
        NatRule(m, f, 0, 0);
        assert forall id: u32 :: !IsNewest(links, id, p) by { NobodyIsNewest(links, p); }
      } else {
        NatRule(m, f, links[c.value].mapping, links[c.value].filtering);
        forall id: u32 | IsNewest(links, id, p) ensures id == c.value {
          NewestIs(links, p, id);
        }
      }
    }
  }

  lemma {:induction false} NobodyIsNewest(links: Links, pid: u64)
    requires Newest(links, pid).None?
    ensures forall id: u32 :: !IsNewest(links, id, pid)
  {
  }

  method GatheringNatCompatible(links: Links, joiner: NatClass, members: seq<u64>, pid: u64) returns (ok: bool)
    ensures ok == GatheringCompatible(links, joiner, members, pid)
    ensures forall m: u32, f: u32 | joiner == ClassifyNat(m, f) :: ok == ReachesAll(links, m, f, members, pid)
  {
    hide Newest, ReachesAll;
    forall m: u32, f: u32 | joiner == ClassifyNat(m, f)
      ensures GatheringCompatible(links, joiner, members, pid) <==> ReachesAll(links, m, f, members, pid)
    {
      CompatibleReaches(links, m, f, members, pid);
    }
    for i := 0 to |members|
      invariant GatheringCompatible(links, joiner, members[..i], pid)
    {
      if members[i] != pid {
        var c := FindConnectionByPID(links, members[i]);
        var class_ := if c.None? then Unknown else ClassifyNat(links[c.value].mapping, links[c.value].filtering);
        if !NatCompatible(joiner, class_) {
          assert members[i] in members && NatOf(links, members[i]) == class_;
          return false;
        }
      }
      assert members[..i + 1] == members[..i] + [members[i]];
    }
    assert members[..|members|] == members;
    return true;
  }
}
