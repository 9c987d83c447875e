/** Who needs the relay (relaybesoin.go): a registry of hole-punch verdicts that forgets, and
    the log it must agree with although it forgets. */
module RelayNeed {
  import opened Bytes

  // Nanoseconds, as Go's time.Duration.
  const NEED_WINDOW: int := 900_000_000_000
  const CLEAN_EVERY: int := 60_000_000_000
  const NEED_THRESHOLD: nat := 2
  const NEVER_CONNECTED: nat := 10

  /** A moment, or the zero time that is before every moment. */
  datatype Instant = Never | At(t: int)

  /** now - i > d */
  predicate LongerAgo(now: int, i: Instant, d: int) {
    i.Never? || now - i.t > d
  }

  datatype Need = Need(fails: nat, last: Instant, tries: nat, successes: nat)

  type Needs = map<u64, Need>

  datatype Registry = Registry(needs: Needs, cleaned: Instant)

  /** Forget the silent ones, except those who never succeeded. */
  function Cleaned(needs: Needs, now: int): Needs {
    map k | k in needs && !(LongerAgo(now, needs[k].last, NEED_WINDOW) && needs[k].successes > 0) :: needs[k]
  }

  function Recorded(needs: Needs, now: int, pid: u64, ok: bool): Needs {
    var e := if pid in needs then needs[pid] else Need(0, Never, 0, 0);
    needs[pid :=
      if ok then Need(0, At(now), e.tries + 1, e.successes + 1)
      else Need((if LongerAgo(now, e.last, NEED_WINDOW) then 0 else e.fails) + 1, At(now), e.tries + 1, e.successes)]
  }

  /** A verdict; at most once a minute the registry is cleaned first. */
  function Noted(r: Registry, now: int, pid: u64, ok: bool): Registry {
    if pid == 0 then r
    else
      var clean := LongerAgo(now, r.cleaned, CLEAN_EVERY);
      Registry(Recorded(if clean then Cleaned(r.needs, now) else r.needs, now, pid, ok),
               if clean then At(now) else r.cleaned)
  }

  predicate NeedsRelay(needs: Needs, pid: u64, now: int) {
    pid in needs && needs[pid].fails >= NEED_THRESHOLD && !LongerAgo(now, needs[pid].last, NEED_WINDOW)
  }

  predicate IsCandidate(needs: Needs, pid: u64) {
    pid in needs && needs[pid].tries >= NEVER_CONNECTED && needs[pid].successes == 0
  }

  // ---- The log ------------------------------------------------------------------------------

  /** A counted verdict, or a clean-up at any moment. */
  datatype Event = Verdict(now: int, pid: u64, ok: bool) | Clean(now: int)

  predicate Ordered(es: seq<Event>) {
    forall i, j :: 0 <= i < j < |es| ==> es[i].now <= es[j].now
  }

  function Run(es: seq<Event>): Needs {
    if es == [] then map[]
    else
      var needs := Run(es[..|es| - 1]);
      match es[|es| - 1]
      case Verdict(now, pid, ok) => Recorded(needs, now, pid, ok)
      case Clean(now) => Cleaned(needs, now)
  }

  /** A verdict as the code counts it. */
  type Counted = e: Event | e.Verdict? && e.pid != 0 witness Verdict(0, 1, true)

  /** The verdicts noted one after the other, the registry starting empty. */
  function NotedAll(log: seq<Counted>): Registry {
    if log == [] then Registry(map[], Never)
    else
      var v := log[|log| - 1];
      Noted(NotedAll(log[..|log| - 1]), v.now, v.pid, v.ok)
  }

  /** The verdicts with the clean-ups between them, and the moment of the last one: a verdict is
      preceded by a clean-up when the last is more than a minute old. */
  function Scheduled(log: seq<Counted>): (seq<Event>, Instant) {
    if log == [] then ([], Never)
    else
      var (es, cleaned) := Scheduled(log[..|log| - 1]);
      var v := log[|log| - 1];
      if LongerAgo(v.now, cleaned, CLEAN_EVERY) then (es + [Clean(v.now)] + [v], At(v.now))
      else (es + [v], cleaned)
  }

  /** The registry is the run of that schedule. */
  lemma {:induction false} ScheduleIsNoted(log: seq<Counted>)
    ensures NotedAll(log) == Registry(Run(Scheduled(log).0), Scheduled(log).1)
  {
    hide Recorded, Cleaned;
    if log != [] {
      var v := log[|log| - 1];
      var (es, cleaned) := Scheduled(log[..|log| - 1]);
      ScheduleIsNoted(log[..|log| - 1]);
      RunNext(es, Clean(v.now));
      RunNext(es + [Clean(v.now)], v);
      RunNext(es, v);
    }
  }

  lemma {:induction false} RunNext(es: seq<Event>, e: Event)
    ensures Run(es + [e])
         == match e
            case Verdict(now, pid, ok) => Recorded(Run(es), now, pid, ok)
            case Clean(now) => Cleaned(Run(es), now)
  {
    assert (es + [e])[..|es + [e]| - 1] == es;
  }

  /** The player's most recent verdict. */
  function Last(es: seq<Event>, pid: u64): (v: Option<Event>)
    ensures v.Some? ==> v.value in es && v.value.Verdict? && v.value.pid == pid
  {
    if es == [] then None
    else if es[|es| - 1].Verdict? && es[|es| - 1].pid == pid then Some(es[|es| - 1])
    else Last(es[..|es| - 1], pid)
  }

  /** The player's last two verdicts both failed, at most fifteen minutes apart. */
  predicate LastTwoFailed(es: seq<Event>, pid: u64) {
    if es == [] then false
    else
      var before := es[..|es| - 1];
      var e := es[|es| - 1];
      if e.Verdict? && e.pid == pid then
        !e.ok && Last(before, pid).Some? && !Last(before, pid).value.ok
        && e.now - Last(before, pid).value.now <= NEED_WINDOW
      else LastTwoFailed(before, pid)
  }

  /** ... and the last of them at most fifteen minutes before t. */
  predicate EligibleByLog(es: seq<Event>, pid: u64, t: int) {
    LastTwoFailed(es, pid) && Last(es, pid).Some? && t - Last(es, pid).value.now <= NEED_WINDOW
  }

  /** What the registry knows of a player, against the log; `now` is no earlier than the log. */
  predicate Agrees(needs: Needs, es: seq<Event>, pid: u64, now: int) {
    var last := Last(es, pid);
    if pid in needs then
      && last.Some? && needs[pid].last == At(last.value.now)
      && (needs[pid].fails == 0 <==> last.value.ok)
      && (needs[pid].fails >= 2 <==> LastTwoFailed(es, pid))
    else last.None? || now - last.value.now > NEED_WINDOW
  }

  lemma {:induction false} AgreesLater(needs: Needs, es: seq<Event>, pid: u64, now: int, later: int)
    requires Agrees(needs, es, pid, now) && now <= later
    ensures Agrees(needs, es, pid, later)
  {
  }

  lemma {:induction false} CleanedAgrees(needs: Needs, es: seq<Event>, pid: u64, now: int)
    requires Agrees(needs, es, pid, now)
    ensures Agrees(Cleaned(needs, now), es, pid, now)
  {
  }

  lemma {:induction false} RecordedAgrees(needs: Needs, es: seq<Event>, pid: u64, now: int, p: u64, ok: bool)
    requires Agrees(needs, es, pid, now)
    ensures Agrees(Recorded(needs, now, p, ok), es + [Verdict(now, p, ok)], pid, now)
  {
    var more := es + [Verdict(now, p, ok)];
    assert more[..|more| - 1] == es;
  }

  /** One verdict, with or without the clean-up before it. */
  lemma {:induction false} NotedAgrees(r: Registry, es: seq<Event>, pid: u64, now: int, p: u64, ok: bool)
    requires Agrees(r.needs, es, pid, now) && p != 0
    ensures Agrees(Noted(r, now, p, ok).needs, es + [Verdict(now, p, ok)], pid, now)
  {
    hide Recorded, Cleaned, Agrees;
    CleanedAgrees(r.needs, es, pid, now);
    var needs := if LongerAgo(now, r.cleaned, CLEAN_EVERY) then Cleaned(r.needs, now) else r.needs;
    RecordedAgrees(needs, es, pid, now, p, ok);
  }

  /** Agreement decides eligibility. */
  lemma {:induction false} AgreesDecides(needs: Needs, es: seq<Event>, pid: u64, now: int)
    requires Agrees(needs, es, pid, now)
    ensures NeedsRelay(needs, pid, now) <==> EligibleByLog(es, pid, now)
  {
  }

  lemma {:induction false} RunAgrees(es: seq<Event>, pid: u64)
    requires Ordered(es) && es != []
    ensures Agrees(Run(es), es, pid, es[|es| - 1].now)
  {
    var before, e := es[..|es| - 1], es[|es| - 1];
    if before == [] {
      assert Run(before) == map[];
    } else {
      RunAgrees(before, pid);
      AgreesLater(Run(before), before, pid, before[|before| - 1].now, e.now);
    }
  }

  /** Forgetting is invisible: whatever moments the registry is cleaned at, a player is eligible
      exactly when the full log says so. */
  lemma {:induction false} EligibleIffLog(es: seq<Event>, pid: u64, t: int)
    requires Ordered(es) && forall e :: e in es ==> e.now <= t
    ensures NeedsRelay(Run(es), pid, t) <==> EligibleByLog(es, pid, t)
  {
    if es != [] {
      RunAgrees(es, pid);
      assert es[|es| - 1] in es;
      AgreesLater(Run(es), es, pid, es[|es| - 1].now, t);
    }
  }

  predicate NotBefore(es: seq<Event>, t: int) {
    forall i :: 0 <= i < |es| ==> es[i].now <= t
  }

  /** At every moment not before the log, the registry agrees with it about everyone. */
  ghost predicate Tracks(needs: Needs, es: seq<Event>) {
    Ordered(es) ==> forall pid: u64, t: int :: NotBefore(es, t) ==> Agrees(needs, es, pid, t)
  }

  lemma {:induction false} NotedTracks(r: Registry, es: seq<Event>, now: int, p: u64, ok: bool)
    requires Tracks(r.needs, es) && p != 0
    ensures Tracks(Noted(r, now, p, ok).needs, es + [Verdict(now, p, ok)])
  {
    hide Agrees, Noted;
    var more := es + [Verdict(now, p, ok)];
    if Ordered(more) {
      forall i | 0 <= i < |es| ensures es[i].now <= now {
        assert more[i] == es[i] && more[|es|].now == now;
      }
      assert Ordered(es) by {
        forall i, j | 0 <= i < j < |es| ensures es[i].now <= es[j].now {
          assert more[i] == es[i] && more[j] == es[j];
        }
      }
      forall pid: u64, t: int | NotBefore(more, t) ensures Agrees(Noted(r, now, p, ok).needs, more, pid, t) {
        assert Agrees(r.needs, es, pid, now);
        NotedAgrees(r, es, pid, now, p, ok);
        assert more[|es|].now <= t;
        AgreesLater(Noted(r, now, p, ok).needs, more, pid, now, t);
      }
    }
  }

  lemma {:induction false} NotedNext(log: seq<Counted>, v: Counted)
    ensures NotedAll(log + [v]) == Noted(NotedAll(log), v.now, v.pid, v.ok)
  {
    assert (log + [v])[..|log + [v]| - 1] == log;
  }

  lemma {:induction false} NobodyNoted(r: Registry, now: int, ok: bool)
    ensures Noted(r, now, 0, ok) == r
  {
  }

  // ---- The registry, in place -------------------------------------------------------------

  class NeedRegistry {
    var besoins: Needs
    var besoinNet: Instant
    ghost var log: seq<Counted>

    /** The registry is what the verdicts noted so far leave, and answers as their log does. */
    ghost predicate Valid()
      reads this
    {
      Model() == NotedAll(log) && Tracks(besoins, log)
    }

    function Model(): Registry
      reads this
    {
      Registry(besoins, besoinNet)
    }

    constructor ()
      ensures Valid() && Model() == Registry(map[], Never) && log == []
    {
      besoins, besoinNet, log := map[], Never, [];
    }

    method NotePercage(pid: u64, reussi: bool, now: int)
      requires Valid()
      modifies this
      ensures Valid() && Model() == Noted(old(Model()), now, pid, reussi)
      ensures log == if pid == 0 then old(log) else old(log) + [Verdict(now, pid, reussi)]
    {
      hide Tracks, Noted, NotedAll;
      if pid == 0 {
        NobodyNoted(Model(), now, reussi);
        return;
      }
      NotedTracks(Model(), log, now, pid, reussi);
      NotedNext(log, Verdict(now, pid, reussi));
      Record(pid, reussi, now);
      log := log + [Verdict(now, pid, reussi)];
      assert besoins == Noted(old(Model()), now, pid, reussi).needs;
    }

    method Record(pid: u64, reussi: bool, now: int)
      requires pid != 0
      modifies this`besoins, this`besoinNet
      ensures Model() == Noted(old(Model()), now, pid, reussi)
    {
      if LongerAgo(now, besoinNet, CLEAN_EVERY) {
        var todo := besoins.Keys;
        while todo != {}
          invariant todo <= old(besoins).Keys && besoinNet == old(besoinNet)
          invariant besoins
                 == map k | k in old(besoins) && (k in todo || k in Cleaned(old(besoins), now)) :: old(besoins)[k]
          decreases todo
        {
          var k :| k in todo;
          todo := todo - {k};
          if LongerAgo(now, besoins[k].last, NEED_WINDOW) && besoins[k].successes > 0 {
            besoins := besoins - {k};
          }
        }
        besoinNet := At(now);
      }
      if pid !in besoins {
        besoins := besoins[pid := Need(0, Never, 0, 0)];
      }
      var fond := besoins[pid];
      fond := fond.(tries := fond.tries + 1);
      if reussi {
        fond := fond.(successes := fond.successes + 1, fails := 0, last := At(now));
        besoins := besoins[pid := fond];
        return;
      }
      if LongerAgo(now, fond.last, NEED_WINDOW) {
        fond := fond.(fails := 0);
      }
      fond := fond.(fails := fond.fails + 1, last := At(now));
      besoins := besoins[pid := fond];
    }

    /** At a moment not before the verdicts, needy means: the last two failed, close enough to
        each other and to now. */
    method BesoinDeRelais(pid: u64, now: int) returns (b: bool)
      requires Valid()
      ensures b == NeedsRelay(besoins, pid, now)
      ensures Ordered(log) && NotBefore(log, now) ==> (b <==> EligibleByLog(log, pid, now))
    {
      if Ordered(log) && NotBefore(log, now) {
        AgreesDecides(besoins, log, pid, now);
      }
      b := pid in besoins && besoins[pid].fails >= NEED_THRESHOLD
           && !LongerAgo(now, besoins[pid].last, NEED_WINDOW);
    }

    /** The candidates in increasing order: a player is listed exactly when, after some clean-up
        that came more than fifteen minutes after its last verdict, or from the start, it failed
        ten times and never succeeded; a player without any success, exactly from the tenth
        failure on. */
    method CandidatsRelais() returns (list: seq<u64>)
      requires Valid()
      ensures forall i, j :: 0 <= i < j < |list| ==> list[i] < list[j]
      ensures forall pid :: pid in list <==> IsCandidate(besoins, pid)
      ensures forall pid: u64 :: pid in list <==> exists m: nat :: ListedFrom(log, pid, m)
      ensures forall pid: u64 :: !Succeeded(log, pid) ==> (pid in list <==> Count(log, pid) >= NEVER_CONNECTED)
    {
      hide ListedFrom, Succeeded, Count, NotedAll, Tracks;
      list := [];
      var todo := besoins.Keys;
      while todo != {}
        invariant todo <= besoins.Keys
        invariant forall pid :: pid in list <==> IsCandidate(besoins, pid) && pid !in todo
        invariant forall i, j :: 0 <= i < j < |list| ==> list[i] < list[j]
        decreases todo
      {
        var pid :| pid in todo;
        todo := todo - {pid};
        if besoins[pid].tries >= NEVER_CONNECTED && besoins[pid].successes == 0 {
          list := InsertPid(list, pid);
        }
      }
      CandidatesByLog(log);
    }
  }

  method InsertPid(list: seq<u64>, pid: u64) returns (out: seq<u64>)
    requires pid !in list && forall i, j :: 0 <= i < j < |list| ==> list[i] < list[j]
    ensures forall x :: x in out <==> x == pid || x in list
    ensures forall i, j :: 0 <= i < j < |out| ==> out[i] < out[j]
  {
    var i := 0;
    while i < |list| && list[i] < pid
      invariant 0 <= i <= |list| && forall j :: 0 <= j < i ==> list[j] < pid
    {
      i := i + 1;
    }
    out := list[..i] + [pid] + list[i..];
    assert list == list[..i] + list[i..];
  }

  // ---- Never connected ------------------------------------------------------------------------

  function Count(es: seq<Event>, pid: u64): nat {
    if es == [] then 0
    else Count(es[..|es| - 1], pid) + if es[|es| - 1].Verdict? && es[|es| - 1].pid == pid then 1 else 0
  }

  predicate Succeeded(es: seq<Event>, pid: u64) {
    exists i :: 0 <= i < |es| && es[i].Verdict? && es[i].pid == pid && es[i].ok
  }

  predicate SilentSince(es: seq<Event>, pid: u64, now: int) {
    Last(es, pid).None? || now - Last(es, pid).value.now > NEED_WINDOW
  }

  /** A clean-up came just before verdict m and found the player without a verdict, or silent for
      more than fifteen minutes. The first verdict is one. */
  predicate CleanedBefore(log: seq<Counted>, pid: u64, m: nat) {
    m < |log|
    && LongerAgo(log[m].now, Scheduled(log[..m]).1, CLEAN_EVERY)
    && SilentSince(log[..m], pid, log[m].now)
  }

  function Tries(needs: Needs, pid: u64): nat {
    if pid in needs then needs[pid].tries else 0
  }

  predicate NoSuccess(needs: Needs, pid: u64) {
    pid in needs ==> needs[pid].successes == 0
  }

  predicate LastKnown(needs: Needs, log: seq<Counted>, pid: u64) {
    pid in needs ==> Last(log, pid).Some? && needs[pid].last == At(Last(log, pid).value.now)
  }

  /** Since the clean-up before verdict m the player has only failed. */
  predicate FailingSince(log: seq<Counted>, pid: u64, m: nat) {
    CleanedBefore(log, pid, m) && !Succeeded(log[m..], pid)
  }

  /** ... and ten times at least. */
  predicate ListedFrom(log: seq<Counted>, pid: u64, m: nat) {
    FailingSince(log, pid, m) && Count(log[m..], pid) >= NEVER_CONNECTED
  }

  /** ... and that is what the registry remembers. */
  predicate Explains(needs: Needs, log: seq<Counted>, pid: u64, m: nat) {
    FailingSince(log, pid, m) && Count(log[m..], pid) == Tries(needs, pid)
  }

  /** What the registry knows of a player's tries and successes, against the log. */
  ghost predicate Counts(needs: Needs, log: seq<Counted>, pid: u64) {
    && LastKnown(needs, log, pid)
    && (log != [] && NoSuccess(needs, pid) ==>
          exists m: nat :: Explains(needs, log, pid, m))
    && (forall m: nat :: FailingSince(log, pid, m) ==>
          NoSuccess(needs, pid) && Count(log[m..], pid) <= Tries(needs, pid))
  }

  /** The clean-up, when there is one, drops this player. */
  predicate Drops(r: Registry, now: int, pid: u64) {
    && LongerAgo(now, r.cleaned, CLEAN_EVERY)
    && pid in r.needs && LongerAgo(now, r.needs[pid].last, NEED_WINDOW) && r.needs[pid].successes > 0
  }

  lemma {:induction false} NotedOf(r: Registry, v: Counted, pid: u64)
    ensures var needs := Noted(r, v.now, v.pid, v.ok).needs;
            && Tries(needs, pid) == (if Drops(r, v.now, pid) then 0 else Tries(r.needs, pid))
                                    + (if v.pid == pid then 1 else 0)
            && (NoSuccess(needs, pid)
                <==> (NoSuccess(r.needs, pid) || Drops(r, v.now, pid)) && !(v.pid == pid && v.ok))
            && (pid in needs ==>
                  if v.pid == pid then needs[pid].last == At(v.now)
                  else pid in r.needs && needs[pid].last == r.needs[pid].last)
  {
  }

  lemma {:induction false} SuffixNext(log: seq<Counted>, v: Counted, pid: u64, m: nat)
    requires m <= |log|
    ensures var more := log + [v];
            && (Succeeded(more[m..], pid) <==> Succeeded(log[m..], pid) || (v.pid == pid && v.ok))
            && Count(more[m..], pid) == Count(log[m..], pid) + (if v.pid == pid then 1 else 0)
  {
    var more := log + [v];
    var was, now := log[m..], more[m..];
    assert now == was + [v] && now[..|now| - 1] == was;
    assert forall i :: 0 <= i < |was| ==> now[i] == was[i];
    assert now[|was|] == v;
  }

  lemma {:induction false} CleanedNext(log: seq<Counted>, v: Counted, pid: u64, m: nat)
    requires m <= |log|
    ensures CleanedBefore(log + [v], pid, m)
       <==> if m < |log| then CleanedBefore(log, pid, m)
            else LongerAgo(v.now, Scheduled(log).1, CLEAN_EVERY) && SilentSince(log, pid, v.now)
  {
    hide Scheduled, SilentSince, LongerAgo;
    assert (log + [v])[..m] == log[..m];
    if m == |log| {
      assert log[..m] == log;
    }
  }

  lemma {:induction false} FailingNext(log: seq<Counted>, v: Counted, pid: u64, m: nat)
    requires m < |log|
    ensures FailingSince(log + [v], pid, m) <==> FailingSince(log, pid, m) && !(v.pid == pid && v.ok)
  {
    hide CleanedBefore, Succeeded, Count;
    SuffixNext(log, v, pid, m);
    CleanedNext(log, v, pid, m);
  }

  lemma {:induction false} FailingAtEnd(log: seq<Counted>, v: Counted, pid: u64)
    ensures FailingSince(log + [v], pid, |log|)
       <==> LongerAgo(v.now, Scheduled(log).1, CLEAN_EVERY) && SilentSince(log, pid, v.now)
            && !(v.pid == pid && v.ok)
    ensures Count((log + [v])[|log|..], pid) == if v.pid == pid then 1 else 0
  {
    hide CleanedBefore, SilentSince, LongerAgo, Scheduled;
    SuffixNext(log, v, pid, |log|);
    CleanedNext(log, v, pid, |log|);
    assert log[|log|..] == [];
  }

  /** A known player's last verdict is in the log, so a clean-up drops it only when silent; and a
      clean-up that finds it silent leaves no success. */
  lemma {:induction false} DropsWhenSilent(r: Registry, log: seq<Counted>, pid: u64, now: int)
    requires LastKnown(r.needs, log, pid)
    ensures Drops(r, now, pid) ==> LongerAgo(now, r.cleaned, CLEAN_EVERY) && SilentSince(log, pid, now)
    ensures LongerAgo(now, r.cleaned, CLEAN_EVERY) && SilentSince(log, pid, now) && pid in r.needs
         ==> Drops(r, now, pid) || NoSuccess(r.needs, pid)
    ensures Drops(r, now, pid) ==> !NoSuccess(r.needs, pid)
  {
  }

  lemma {:induction false} LastKnownNext(r: Registry, log: seq<Counted>, v: Counted, pid: u64)
    requires LastKnown(r.needs, log, pid)
    ensures LastKnown(Noted(r, v.now, v.pid, v.ok).needs, log + [v], pid)
  {
    hide Noted;
    NotedOf(r, v, pid);
    assert (log + [v])[..|log + [v]| - 1] == log;
  }

  lemma {:induction false} FailingIsKnown(r: Registry, log: seq<Counted>, v: Counted, pid: u64, m: nat)
    requires r.cleaned == Scheduled(log).1 && Counts(r.needs, log, pid) && FailingSince(log + [v], pid, m)
    ensures var needs := Noted(r, v.now, v.pid, v.ok).needs;
            NoSuccess(needs, pid) && Count((log + [v])[m..], pid) <= Tries(needs, pid)
  {
    hide Noted, Scheduled, Succeeded, Count, Drops, SilentSince, LongerAgo, LastKnown;
    assert m <= |log| by { assert m < |log + [v]|; }
    hide CleanedBefore;
    NotedOf(r, v, pid);
    DropsWhenSilent(r, log, pid, v.now);
    if m < |log| {
      hide FailingSince;
      FailingNext(log, v, pid, m);
      SuffixNext(log, v, pid, m);
    } else {
      hide FailingSince;
      FailingAtEnd(log, v, pid);
    }
  }

  lemma {:induction false} KnownIsFailing(r: Registry, log: seq<Counted>, v: Counted, pid: u64) returns (m: nat)
    requires r.cleaned == Scheduled(log).1 && Counts(r.needs, log, pid)
    requires log == [] ==> r == Registry(map[], Never)
    requires NoSuccess(Noted(r, v.now, v.pid, v.ok).needs, pid)
    ensures Explains(Noted(r, v.now, v.pid, v.ok).needs, log + [v], pid, m)
  {
    hide Noted, Scheduled, Succeeded, Count, Drops, SilentSince, LastKnown, CleanedBefore, FailingSince;
    NotedOf(r, v, pid);
    DropsWhenSilent(r, log, pid, v.now);
    if log == [] || Drops(r, v.now, pid) {
      m := |log|;
      FirstIsCleaned(log, v.now, pid);
      FailingAtEnd(log, v, pid);
    } else {
      m :| Explains(r.needs, log, pid, m);
      assert m < |log| by { FailingWithin(log, pid, m); }
      FailingNext(log, v, pid, m);
      SuffixNext(log, v, pid, m);
    }
  }

  lemma {:induction false} FirstIsCleaned(log: seq<Counted>, now: int, pid: u64)
    ensures log == [] ==> LongerAgo(now, Scheduled(log).1, CLEAN_EVERY) && SilentSince(log, pid, now)
  {
  }

  lemma {:induction false} FailingWithin(log: seq<Counted>, pid: u64, m: nat)
    requires FailingSince(log, pid, m)
    ensures m < |log|
  {
  }

  lemma {:induction false} NotedCounts(log: seq<Counted>, pid: u64)
    ensures Counts(NotedAll(log).needs, log, pid)
  {
    if log == [] {
      NothingCounts(pid);
    } else {
      var before, v := log[..|log| - 1], log[|log| - 1];
      var r := NotedAll(before);
      assert log == before + [v];
      NotedCounts(before, pid);
      ScheduleIsNoted(before);
      NotedNext(before, v);
      hide NotedAll, Noted, Scheduled, FailingSince, Count, NoSuccess;
      assert before == [] ==> r == Registry(map[], Never) by { NothingNoted(); }
      LastKnownNext(r, before, v, pid);
      forall m: nat | FailingSince(log, pid, m)
        ensures NoSuccess(NotedAll(log).needs, pid) && Count(log[m..], pid) <= Tries(NotedAll(log).needs, pid)
      {
        FailingIsKnown(r, before, v, pid, m);
      }
      if NoSuccess(NotedAll(log).needs, pid) {
        var m := KnownIsFailing(r, before, v, pid);
      }
    }
  }

  lemma {:induction false} NothingNoted()
    ensures NotedAll([]) == Registry(map[], Never)
  {
  }

  lemma {:induction false} NothingCounts(pid: u64)
    ensures Counts(NotedAll([]).needs, [], pid)
  {
    hide Count, Succeeded;
  }

  lemma {:induction false} SuffixCount(es: seq<Event>, pid: u64, m: nat)
    requires m <= |es|
    ensures Count(es[m..], pid) <= Count(es, pid)
    ensures !Succeeded(es, pid) ==> !Succeeded(es[m..], pid)
  {
    if m < |es| {
      var before := es[..|es| - 1];
      SuffixCount(before, pid, m);
      assert es[m..][..|es[m..]| - 1] == before[m..];
    }
  }

  /** Who is listed as never connected? Exactly the players who failed ten times and never
      succeeded since the start, or since a clean-up that came more than fifteen minutes after
      their last verdict. So a player who never succeeded is never dropped: listed exactly from the
      tenth verdict on. */
  lemma {:induction false} CandidateIff(log: seq<Counted>, pid: u64)
    ensures IsCandidate(NotedAll(log).needs, pid) <==> exists m: nat :: ListedFrom(log, pid, m)
    ensures !Succeeded(log, pid)
        ==> (IsCandidate(NotedAll(log).needs, pid) <==> Count(log, pid) >= NEVER_CONNECTED)
  {
    hide Scheduled, Succeeded, Count, SilentSince, LongerAgo, LastKnown, CleanedBefore;
    var needs := NotedAll(log).needs;
    NotedCounts(log, pid);
    if IsCandidate(needs, pid) {
      var m: nat :| Explains(needs, log, pid, m);
      assert ListedFrom(log, pid, m);
    }
    hide FailingSince;
    if m: nat :| ListedFrom(log, pid, m) {
      FailingWithin(log, pid, m);
      SuffixCount(log, pid, m);
      assert IsCandidate(needs, pid);
    }
    if !Succeeded(log, pid) && Count(log, pid) >= NEVER_CONNECTED {
      CountedFromStart(log, pid);
    }
  }

  lemma {:induction false} CountedFromStart(log: seq<Counted>, pid: u64)
    requires !Succeeded(log, pid) && Count(log, pid) >= NEVER_CONNECTED
    ensures ListedFrom(log, pid, 0)
  {
    assert log[0..] == log && log[..0] == [];
    FirstIsCleaned([], log[0].now, pid);
  }

  lemma {:induction false} CandidatesByLog(log: seq<Counted>)
    ensures forall pid: u64 :: IsCandidate(NotedAll(log).needs, pid) <==> exists m: nat :: ListedFrom(log, pid, m)
    ensures forall pid: u64 :: (!Succeeded(log, pid)
        ==> (IsCandidate(NotedAll(log).needs, pid) <==> Count(log, pid) >= NEVER_CONNECTED))
  {
    hide ListedFrom, Succeeded, Count, NotedAll, IsCandidate;
    forall pid: u64
      ensures IsCandidate(NotedAll(log).needs, pid) <==> exists m: nat :: ListedFrom(log, pid, m)
      ensures !Succeeded(log, pid)
          ==> (IsCandidate(NotedAll(log).needs, pid) <==> Count(log, pid) >= NEVER_CONNECTED)
    {
      CandidateIff(log, pid);
    }
  }

  function Failures(n: nat, pid: u64, now: int): (log: seq<Counted>)
    requires pid != 0
    ensures |log| == n && forall i :: 0 <= i < n ==> log[i] == Verdict(now, pid, false)
  {
    seq(n, _ => Verdict(now, pid, false))
  }

  /** The list does name players who once connected: a success, then ten failures more than
      fifteen minutes later, of which the first lets the clean-up forget the success. */
  lemma {:induction false} ForgottenSuccessIsListed(pid: u64)
    requires pid != 0
    ensures var log: seq<Counted> := [Verdict(0, pid, true)] + Failures(10, pid, NEED_WINDOW + 1);
            Ordered(log) && Succeeded(log, pid) && IsCandidate(NotedAll(log).needs, pid)
  {
    hide NotedAll, IsCandidate;
    var first: Counted := Verdict(0, pid, true);
    var failures := Failures(10, pid, NEED_WINDOW + 1);
    var log: seq<Counted> := [first] + failures;
    assert log[0] == first && log[1..] == failures && log[..1] == [first] && [first][..0] == [];
    assert Scheduled([first]) == ([Clean(0), first], At(0)) by {
      assert Scheduled([]) == ([], Never) && [] + [Clean(0)] + [first] == [Clean(0), first];
    }
    assert Last([first], pid) == Some(first);
    assert CleanedBefore(log, pid, 1);
    hide CleanedBefore;
    FailuresCount(failures, pid);
    CandidateIff(log, pid);
    assert ListedFrom(log, pid, 1);
  }

  lemma {:induction false} FailuresCount(es: seq<Event>, pid: u64)
    requires forall i :: 0 <= i < |es| ==> es[i].Verdict? && es[i].pid == pid && !es[i].ok
    ensures Count(es, pid) == |es| && !Succeeded(es, pid)
  {
    if es != [] {
      FailuresCount(es[..|es| - 1], pid);
    }
  }
}
