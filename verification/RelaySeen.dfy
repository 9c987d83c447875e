/** Which pairs were relayed recently (relayvu.go): a registry of grants that forgets, and the
    log it must agree with. */
module RelaySeen {
  import opened Bytes
  import opened PairRelays
  import opened RelayNeed

  const SEEN_TTL: int := 300_000_000_000

  type Seen = map<Key, int>

  datatype Memory = Memory(seen: Seen, cleaned: Instant)

  /** Forget the pairs not granted for over five minutes. */
  function Purged(seen: Seen, now: int): Seen {
    map k | k in seen && now - seen[k] <= SEEN_TTL :: seen[k]
  }

  /** A grant; at most once a minute the registry is purged first. PID 0 is nobody. */
  function Remembered(m: Memory, now: int, a: u64, b: u64): Memory {
    if a == 0 || b == 0 then m
    else
      var clean := LongerAgo(now, m.cleaned, CLEAN_EVERY);
      Memory((if clean then Purged(m.seen, now) else m.seen)[KeyOf(a, b) := now],
             if clean then At(now) else m.cleaned)
  }

  predicate PairRelayed(seen: Seen, a: u64, b: u64, now: int) {
    KeyOf(a, b) in seen && now - seen[KeyOf(a, b)] <= SEEN_TTL
  }

  // ---- The log ------------------------------------------------------------------------------

  datatype Grant = Grant(now: int, a: u64, b: u64)

  predicate OfPair(g: Grant, k: Key) {
    g.a != 0 && g.b != 0 && KeyOf(g.a, g.b) == k
  }

  /** A grant to this pair, in either order, at most five minutes before t. */
  predicate GrantedLately(log: seq<Grant>, k: Key, t: int) {
    exists i :: 0 <= i < |log| && OfPair(log[i], k) && t - log[i].now <= SEEN_TTL
  }

  predicate NoneAfter(log: seq<Grant>, now: int) {
    forall i :: 0 <= i < |log| ==> log[i].now <= now
  }

  /** What the registry knows of a pair, against the log, at a moment not before the log. */
  ghost predicate Knows(seen: Seen, log: seq<Grant>, k: Key, now: int) {
    && NoneAfter(log, now)
    && (k in seen ==> seen[k] <= now)
    && (forall t :: t >= now ==> (GrantedLately(log, k, t) <==> (k in seen && t - seen[k] <= SEEN_TTL)))
  }

  lemma {:induction false} KnowsLater(seen: Seen, log: seq<Grant>, k: Key, now: int, later: int)
    requires Knows(seen, log, k, now) && now <= later
    ensures Knows(seen, log, k, later)
  {
  }

  lemma {:induction false} PurgedKnows(seen: Seen, log: seq<Grant>, k: Key, now: int)
    requires Knows(seen, log, k, now)
    ensures Knows(Purged(seen, now), log, k, now)
  {
    hide GrantedLately;
  }

  lemma {:induction false} GrantExtends(log: seq<Grant>, g: Grant, k: Key, t: int)
    ensures GrantedLately(log + [g], k, t) <==> GrantedLately(log, k, t) || (OfPair(g, k) && t - g.now <= SEEN_TTL)
  {
    var more := log + [g];
    if OfPair(g, k) && t - g.now <= SEEN_TTL {
      assert more[|log|] == g;
    }
    if GrantedLately(log, k, t) {
      var i :| 0 <= i < |log| && OfPair(log[i], k) && t - log[i].now <= SEEN_TTL;
      assert more[i] == log[i];
    }
  }

  /** Whenever the registry is purged, what it answers about any pair at any later moment is what
      the full log answers. */
  lemma {:induction false} RememberedKnows(m: Memory, log: seq<Grant>, k: Key, now: int, a: u64, b: u64)
    requires Knows(m.seen, log, k, now)
    ensures Knows(Remembered(m, now, a, b).seen, log + [Grant(now, a, b)], k, now)
  {
    hide GrantedLately;
    PurgedKnows(m.seen, log, k, now);
    forall t {
      GrantExtends(log, Grant(now, a, b), k, t);
    }
  }

  predicate InOrder(log: seq<Grant>) {
    forall i, j :: 0 <= i < j < |log| ==> log[i].now <= log[j].now
  }

  /** At every moment not before the log, the registry knows what the log says of every pair. */
  ghost predicate KnowsAll(seen: Seen, log: seq<Grant>) {
    InOrder(log) ==> forall k: Key, t: int :: NoneAfter(log, t) ==> Knows(seen, log, k, t)
  }

  lemma {:induction false} RememberedKnowsAll(m: Memory, log: seq<Grant>, now: int, a: u64, b: u64)
    requires KnowsAll(m.seen, log)
    ensures KnowsAll(Remembered(m, now, a, b).seen, log + [Grant(now, a, b)])
  {
    hide Knows, Remembered;
    var more := log + [Grant(now, a, b)];
    if InOrder(more) {
      forall i | 0 <= i < |log| ensures log[i].now <= now {
        assert more[i] == log[i] && more[|log|].now == now;
      }
      assert InOrder(log) by {
        forall i, j | 0 <= i < j < |log| ensures log[i].now <= log[j].now {
          assert more[i] == log[i] && more[j] == log[j];
        }
      }
      forall k: Key, t: int | NoneAfter(more, t) ensures Knows(Remembered(m, now, a, b).seen, more, k, t) {
        assert Knows(m.seen, log, k, now);
        RememberedKnows(m, log, k, now, a, b);
        assert more[|log|].now <= t;
        KnowsLater(Remembered(m, now, a, b).seen, more, k, now, t);
      }
    }
  }

  // ---- The registry, in place -------------------------------------------------------------

  class SeenRegistry {
    var vues: Seen
    var vuMenage: Instant
    ghost var log: seq<Grant>

    /** The registry answers as the log of every grant noted so far. */
    ghost predicate Valid()
      reads this
    {
      KnowsAll(vues, log)
    }

    function Model(): Memory
      reads this
    {
      Memory(vues, vuMenage)
    }

    constructor ()
      ensures Valid() && Model() == Memory(map[], Never) && log == []
    {
      vues, vuMenage, log := map[], Never, [];
    }

    method NoterPaireRelayee(a: u64, b: u64, now: int)
      requires Valid()
      modifies this
      ensures Valid() && Model() == Remembered(old(Model()), now, a, b)
      ensures log == old(log) + [Grant(now, a, b)]
    {
      hide KnowsAll, Remembered;
      RememberedKnowsAll(Model(), log, now, a, b);
      Record(a, b, now);
      log := log + [Grant(now, a, b)];
      assert vues == Remembered(old(Model()), now, a, b).seen;
    }

    method Record(a: u64, b: u64, now: int)
      modifies this`vues, this`vuMenage
      ensures Model() == Remembered(old(Model()), now, a, b)
    {
      if a == 0 || b == 0 {
        return;
      }
      if LongerAgo(now, vuMenage, CLEAN_EVERY) {
        var todo := vues.Keys;
        while todo != {}
          invariant todo <= old(vues).Keys && vuMenage == old(vuMenage)
          invariant vues == map k | k in old(vues) && (k in todo || k in Purged(old(vues), now)) :: old(vues)[k]
          decreases todo
        {
          var k :| k in todo;
          todo := todo - {k};
          if now - vues[k] > SEEN_TTL {
            vues := vues - {k};
          }
        }
        vuMenage := At(now);
      }
      vues := vues[KeyOf(a, b) := now];
    }

    /** At a moment not before the grants, relayed means: granted at most five minutes ago, in
        either order. */
    method PaireRelayee(a: u64, b: u64, now: int) returns (yes: bool)
      requires Valid()
      ensures yes == PairRelayed(vues, a, b, now)
      ensures InOrder(log) && NoneAfter(log, now) ==> (yes <==> GrantedLately(log, KeyOf(a, b), now))
    {
      assert InOrder(log) && NoneAfter(log, now) ==> Knows(vues, log, KeyOf(a, b), now);
      yes := KeyOf(a, b) in vues && now - vues[KeyOf(a, b)] <= SEEN_TTL;
    }
  }

  // ---- Runs -------------------------------------------------------------------------------

  function RunGrants(log: seq<Grant>): Memory {
    if log == [] then Memory(map[], Never)
    else
      var g := log[|log| - 1];
      Remembered(RunGrants(log[..|log| - 1]), g.now, g.a, g.b)
  }

  lemma {:induction false} RunKnows(log: seq<Grant>, k: Key, t: int)
    requires InOrder(log) && NoneAfter(log, t)
    ensures Knows(RunGrants(log).seen, log, k, t)
  {
    hide GrantedLately;
    if log == [] {
      assert RunGrants(log).seen == map[];
      NoGrants(k);
    } else {
      var before, g := log[..|log| - 1], log[|log| - 1];
      RunKnows(before, k, g.now);
      RememberedKnows(RunGrants(before), before, k, g.now, g.a, g.b);
      assert before + [g] == log;
      KnowsLater(RunGrants(log).seen, log, k, g.now, t);
    }
  }

  lemma {:induction false} NoGrants(k: Key)
    ensures forall t :: !GrantedLately([], k, t)
  {
  }

  /** The pair counts as relayed exactly when the log has a grant to it, in either order, at most
      five minutes old. */
  lemma {:induction false} RelayedIffGranted(log: seq<Grant>, a: u64, b: u64, t: int)
    requires InOrder(log) && NoneAfter(log, t)
    ensures PairRelayed(RunGrants(log).seen, a, b, t) <==> GrantedLately(log, KeyOf(a, b), t)
  {
    RunKnows(log, KeyOf(a, b), t);
  }
}
