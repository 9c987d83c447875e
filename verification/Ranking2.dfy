/** Ranking2 (ranking2.go, ranking2_scores.go): best scores per category and player, the
    ranking they induce, and the three queries that must agree on it. */
module Ranking2 {
  import opened Bytes

  datatype Entry = Entry(pid: u64, nexUniqueId: u64, misc: u64, score: u32)

  type Category = map<u64, Entry>

  /** Higher score first; equal scores by ascending PID. */
  predicate Better(a: Entry, b: Entry) {
    a.score > b.score || (a.score == b.score && a.pid < b.pid)
  }

  predicate Keyed(cat: Category) {
    forall pid :: pid in cat ==> cat[pid].pid == pid
  }

  predicate Sorted(r: seq<Entry>) {
    forall i, j :: 0 <= i < j < |r| ==> Better(r[i], r[j])
  }

  /** r lists the category's entries, each once, from best to worst. */
  ghost predicate IsRanking(cat: Category, r: seq<Entry>) {
    Sorted(r) && forall e :: e in r <==> e.pid in cat && cat[e.pid] == e
  }

  // ---- Deposits -----------------------------------------------------------------------

  datatype Deposit = Deposit(category: u32, entry: Entry)

  type Scores = map<u32, Category>

  function Lookup(s: Scores, category: u32): Category {
    if category in s then s[category] else map[]
  }

  /** Keep the best score, not the last one. */
  function Deposited(s: Scores, d: Deposit): Scores {
    var cat := Lookup(s, d.category);
    if d.entry.pid in cat && cat[d.entry.pid].score >= d.entry.score then s[d.category := cat]
    else s[d.category := cat[d.entry.pid := d.entry]]
  }

  function Run(log: seq<Deposit>): Scores {
    if log == [] then map[] else Deposited(Run(log[..|log| - 1]), log[|log| - 1])
  }

  predicate Of(d: Deposit, category: u32, pid: u64) {
    d.category == category && d.entry.pid == pid
  }

  /** The i-th deposit is the first one that reaches this player's best score. */
  predicate FirstBest(log: seq<Deposit>, i: nat, category: u32, pid: u64)
    requires i < |log|
  {
    && Of(log[i], category, pid)
    && (forall j :: 0 <= j < |log| && Of(log[j], category, pid) ==> log[j].entry.score <= log[i].entry.score)
    && (forall j :: 0 <= j < i && Of(log[j], category, pid) ==> log[j].entry.score < log[i].entry.score)
  }

  lemma {:induction false} RunIsKeyed(log: seq<Deposit>, category: u32)
    ensures Keyed(Lookup(Run(log), category))
  {
    if log != [] {
      RunIsKeyed(log[..|log| - 1], category);
    }
  }

  /** Index of the deposit that set the player's entry, or -1. */
  function Holder(log: seq<Deposit>, category: u32, pid: u64): (i: int)
    ensures -1 <= i < |log|
    ensures i >= 0 ==> Of(log[i], category, pid)
  {
    if log == [] then -1
    else
      var n := |log| - 1;
      var i := Holder(log[..n], category, pid);
      if Of(log[n], category, pid) && (i < 0 || log[n].entry.score > log[i].entry.score) then n else i
  }

  lemma {:induction false} HolderHolds(log: seq<Deposit>, category: u32, pid: u64)
    ensures var cat := Lookup(Run(log), category);
            var i := Holder(log, category, pid);
            (pid in cat <==> i >= 0) && (i >= 0 ==> cat[pid] == log[i].entry)
  {
    if log != [] {
      HolderHolds(log[..|log| - 1], category, pid);
    }
  }

  lemma {:induction false} HolderIsFirstBest(log: seq<Deposit>, category: u32, pid: u64)
    ensures var i := Holder(log, category, pid);
            if i >= 0 then FirstBest(log, i, category, pid)
            else forall j :: 0 <= j < |log| ==> !Of(log[j], category, pid)
  {
    if log != [] {
      var n := |log| - 1;
      HolderIsFirstBest(log[..n], category, pid);
      assert forall j :: 0 <= j < n ==> log[..n][j] == log[j];
    }
  }

  /** After any deposits, a player is ranked in a category exactly when they deposited there,
      and their entry is the first deposit that reached their maximum. */
  lemma {:induction false} EntryIsFirstBest(log: seq<Deposit>, category: u32, pid: u64)
    ensures pid in Lookup(Run(log), category) <==> exists i :: 0 <= i < |log| && Of(log[i], category, pid)
    ensures pid in Lookup(Run(log), category) ==>
              exists i :: 0 <= i < |log| && FirstBest(log, i, category, pid)
                          && log[i].entry == Lookup(Run(log), category)[pid]
  {
    hide Lookup, Run;
    HolderHolds(log, category, pid);
    HolderIsFirstBest(log, category, pid);
  }

  // ---- The ranking ----------------------------------------------------------------------

  lemma {:induction false} NonEmptyHas(b: seq<Entry>)
    ensures b != [] ==> exists e :: e in b
  {
    if b != [] {
      assert b[0] in b;
    }
  }

  /** Sorted lists with the same entries are the same list. */
  lemma {:induction false} SortedUnique(a: seq<Entry>, b: seq<Entry>)
    requires Sorted(a) && Sorted(b) && forall e :: e in a <==> e in b
    ensures a == b
  {
    NonEmptyHas(b);
    if a != [] {
      assert a[0] in b && b[0] in b;
      assert a[0] == b[0];
      var a', b' := a[1..], b[1..];
      assert a == [a[0]] + a' && b == [b[0]] + b';
      assert a[0] !in a' && b[0] !in b';
      forall e ensures e in a' <==> e in b' {
        assert e in a' ==> e in a && e in b && e != b[0];
        assert e in b' ==> e in b && e in a && e != a[0];
      }
      SortedUnique(a', b');
    }
  }

  /** Whatever order the category's map was walked in, there is only one ranking. */
  lemma {:induction false} RankingUnique(cat: Category, r1: seq<Entry>, r2: seq<Entry>)
    requires IsRanking(cat, r1) && IsRanking(cat, r2)
    ensures r1 == r2
  {
    SortedUnique(r1, r2);
  }

  /** The players with a higher score than e's, or the same score and a lower PID. */
  ghost function Ahead(cat: Category, e: Entry): set<u64> {
    set pid | pid in cat && (cat[pid].score > e.score || (cat[pid].score == e.score && pid < e.pid))
  }

  function Pids(r: seq<Entry>): set<u64> {
    set i | 0 <= i < |r| :: r[i].pid
  }

  lemma {:induction false} PidsCount(r: seq<Entry>)
    requires forall i, j :: 0 <= i < j < |r| ==> r[i].pid != r[j].pid
    ensures |Pids(r)| == |r|
  {
    if r != [] {
      var n := |r| - 1;
      PidsCount(r[..n]);
      assert Pids(r) == Pids(r[..n]) + {r[n].pid};
    }
  }

  lemma {:induction false} RankingDistinct(cat: Category, r: seq<Entry>)
    requires IsRanking(cat, r)
    ensures forall i, j :: 0 <= i < j < |r| ==> r[i].pid != r[j].pid
    ensures |r| == |cat|  || !Keyed(cat)
  {
    forall i, j | 0 <= i < j < |r| ensures r[i].pid != r[j].pid {
      assert r[i] in r && r[j] in r;
    }
    PidsCount(r);
    if Keyed(cat) {
      forall pid ensures pid in Pids(r) <==> pid in cat {
        if pid in cat {
          assert cat[pid] in r;
        }
        if pid in Pids(r) {
          var i :| 0 <= i < |r| && r[i].pid == pid;
          assert r[i] in r;
        }
      }
      assert Pids(r) == cat.Keys;
    }
  }

  /** A row's position is the number of entries strictly better than it. */
  lemma {:induction false} RankCountsBetter(cat: Category, r: seq<Entry>, k: nat)
    requires Keyed(cat) && IsRanking(cat, r) && k < |r|
    ensures |Ahead(cat, r[k])| == k
  {
    RankingDistinct(cat, r);
    forall pid ensures pid in Ahead(cat, r[k]) <==> pid in Pids(r[..k]) {
      if pid in Ahead(cat, r[k]) {
        var e := cat[pid];
        assert e in r;
        var i :| 0 <= i < |r| && r[i] == e;
        assert i < k;
        assert r[..k][i].pid == pid;
      }
      if pid in Pids(r[..k]) {
        var i :| 0 <= i < k && r[..k][i].pid == pid;
        assert r[i] in r && Better(r[i], r[k]);
      }
    }
    assert Ahead(cat, r[k]) == Pids(r[..k]);
    PidsCount(r[..k]);
  }

  // ---- The three queries ------------------------------------------------------------------

  datatype Row = Row(entry: Entry, rank: nat)

  /** GetRanking's window: from offset, `length` rows, or all of them when length is zero. */
  function PageStart(r: seq<Entry>, offset: nat): nat {
    if offset > |r| then |r| else offset
  }

  function PageEnd(r: seq<Entry>, offset: nat, length: nat): (e: nat)
    ensures PageStart(r, offset) <= e <= |r|
  {
    if length > 0 && PageStart(r, offset) + length < |r| then PageStart(r, offset) + length else |r|
  }

  function Rows(r: seq<Entry>, from: nat, to: nat): seq<Row>
    requires from <= to <= |r|
  {
    seq(to - from, i requires 0 <= i < to - from => Row(r[from + i], from + i + 1))
  }

  function Page(r: seq<Entry>, offset: nat, length: nat): seq<Row> {
    Rows(r, PageStart(r, offset), PageEnd(r, offset, length))
  }

  /** The pages a client gets by asking again at offset + length until nothing comes back. */
  function PagesFrom(r: seq<Entry>, offset: nat, length: nat): seq<Row>
    requires length > 0
    decreases |r| - offset
  {
    if offset >= |r| then [] else Page(r, offset, length) + PagesFrom(r, offset + length, length)
  }

  lemma {:induction false} PagesCover(r: seq<Entry>, offset: nat, length: nat)
    requires length > 0
    ensures PagesFrom(r, offset, length) == Page(r, offset, 0)
    decreases |r| - offset
  {
    if offset < |r| {
      PagesCover(r, offset + length, length);
      var mid := PageEnd(r, offset, length);
      assert PageStart(r, offset + length) == mid;
      assert Rows(r, offset, |r|) == Rows(r, offset, mid) + Rows(r, mid, |r|);
    }
  }

  /** GetRankingByPIDs: the wanted players' rows in ranking order. */
  function RowsFor(r: seq<Entry>, wanted: set<u64>, from: nat): seq<Row>
    requires from <= |r|
    decreases |r| - from
  {
    if from == |r| then []
    else (if r[from].pid in wanted then [Row(r[from], from + 1)] else []) + RowsFor(r, wanted, from + 1)
  }

  lemma {:induction false} RowsNext(rows: seq<Row>, r: seq<Entry>, wanted: set<u64>, i: nat)
    requires i <= |r|
    ensures i == |r| ==> rows + RowsFor(r, wanted, i) == rows
    ensures i < |r| ==> rows + RowsFor(r, wanted, i)
                        == (if r[i].pid in wanted then rows + [Row(r[i], i + 1)] else rows) + RowsFor(r, wanted, i + 1)
  {
  }

  /** GetEstimateMyRank: the caller's rank, or one past the last; the score, or zero. */
  function Estimate(r: seq<Entry>, pid: u64, from: nat): (nat, u32)
    requires from <= |r|
    decreases |r| - from
  {
    if from == |r| then (|r| + 1, 0)
    else if r[from].pid == pid then (from + 1, r[from].score)
    else Estimate(r, pid, from + 1)
  }

  lemma {:induction false} RowsForRows(r: seq<Entry>, wanted: set<u64>, from: nat)
    requires from <= |r|
    ensures forall row :: row in RowsFor(r, wanted, from) <==>
              row.entry.pid in wanted && from < row.rank <= |r| && r[row.rank - 1] == row.entry
    decreases |r| - from
  {
    if from < |r| {
      RowsForRows(r, wanted, from + 1);
    }
  }

  lemma {:induction false} EstimateIs(r: seq<Entry>, pid: u64, from: nat, k: nat)
    requires from <= k < |r| && r[k].pid == pid
    requires forall j :: from <= j < k ==> r[j].pid != pid
    ensures Estimate(r, pid, from) == (k + 1, r[k].score)
    decreases k - from
  {
    if from < k {
      EstimateIs(r, pid, from + 1, k);
    }
  }

  lemma {:induction false} EstimateAbsent(r: seq<Entry>, pid: u64, from: nat)
    requires from <= |r| && forall j :: from <= j < |r| ==> r[j].pid != pid
    ensures Estimate(r, pid, from) == (|r| + 1, 0)
    decreases |r| - from
  {
    if from < |r| {
      EstimateAbsent(r, pid, from + 1);
    }
  }

  lemma {:induction false} RankedAgree(cat: Category, r: seq<Entry>, pid: u64, wanted: set<u64>)
    requires Keyed(cat) && IsRanking(cat, r) && pid in cat
    ensures var rank := 1 + |Ahead(cat, cat[pid])|;
            var row := Row(cat[pid], rank);
            && row in Page(r, 0, 0)
            && (pid in wanted ==> row in RowsFor(r, wanted, 0))
            && Estimate(r, pid, 0) == (rank, cat[pid].score)
  {
    hide Ahead, Sorted, RowsFor, Estimate;
    RankingDistinct(cat, r);
    RowsForRows(r, wanted, 0);
    assert cat[pid] in r;
    var k :| 0 <= k < |r| && r[k] == cat[pid];
    RankCountsBetter(cat, r, k);
    EstimateIs(r, pid, 0, k);
    PageRow(r, k);
  }

  lemma {:induction false} PageRow(r: seq<Entry>, k: nat)
    requires k < |r|
    ensures k < |Page(r, 0, 0)| && Page(r, 0, 0)[k] == Row(r[k], k + 1) && Row(r[k], k + 1) in Page(r, 0, 0)
  {
  }

  /** The page rank, the by-PID rank and the estimated rank of a ranked player are one and the
      same number: one plus the count of strictly better entries. An unranked player is
      estimated right behind the last one and appears in no page. */
  lemma {:induction false} RanksAgree(cat: Category, r: seq<Entry>, pid: u64, wanted: set<u64>)
    requires Keyed(cat) && IsRanking(cat, r)
    ensures pid in cat ==>
              var rank := 1 + |Ahead(cat, cat[pid])|;
              var row := Row(cat[pid], rank);
              && row in Page(r, 0, 0)
              && (pid in wanted ==> row in RowsFor(r, wanted, 0))
              && Estimate(r, pid, 0) == (rank, cat[pid].score)
    ensures pid !in cat ==>
              Estimate(r, pid, 0) == (|cat| + 1, 0) && forall row :: row in Page(r, 0, 0) ==> row.entry.pid != pid
    ensures forall row :: row in RowsFor(r, wanted, 0) ==>
              row.entry.pid in wanted && row in Page(r, 0, 0)
  {
    hide Ahead, RowsFor, Estimate, Page;
    RankingDistinct(cat, r);
    RowsForRows(r, wanted, 0);
    if pid in cat {
      RankedAgree(cat, r, pid, wanted);
    } else {
      forall j | 0 <= j < |r| ensures r[j].pid != pid {
        assert r[j] in r;
      }
      EstimateAbsent(r, pid, 0);
      PageRows(r);
    }
    forall row | row in RowsFor(r, wanted, 0) ensures row in Page(r, 0, 0) {
      PageRow(r, row.rank - 1);
    }
  }

  lemma {:induction false} PageRows(r: seq<Entry>)
    ensures forall row :: row in Page(r, 0, 0) ==> exists j :: 0 <= j < |r| && r[j] == row.entry
  {
  }

  // ---- What the rows say -----------------------------------------------------------------------

  /** Every row shows an entry of the category with its rank, one plus the number of players with a
      higher score, or the same score and a lower PID; and of two rows the later one has the lower
      score, or the same score and the higher PID. */
  ghost predicate RightRows(cat: Category, rows: seq<Row>) {
    && (forall i :: 0 <= i < |rows| ==>
          && rows[i].entry.pid in cat && cat[rows[i].entry.pid] == rows[i].entry
          && rows[i].rank == 1 + |Ahead(cat, rows[i].entry)|)
    && (forall i, j :: 0 <= i < j < |rows| ==>
          var a, b := rows[i].entry, rows[j].entry;
          a.score > b.score || (a.score == b.score && a.pid < b.pid))
  }

  /** The rank of every row is its place in the whole ranking, from `first` on without gaps. */
  predicate RanksFrom(rows: seq<Row>, first: nat) {
    forall i :: 0 <= i < |rows| ==> rows[i].rank == first + i
  }

  function Least(a: nat, b: nat): nat {
    if a < b then a else b
  }

  /** A page from `offset` on holds as many rows as were asked for or are left, zero meaning all. */
  function PageLength(total: nat, offset: nat, length: nat): nat {
    var left := total - Least(offset, total);
    if length == 0 then left else Least(length, left)
  }

  lemma {:induction false} PageIsRight(cat: Category, r: seq<Entry>, offset: nat, length: nat)
    requires Keyed(cat) && IsRanking(cat, r)
    ensures var rows := Page(r, offset, length);
            && RightRows(cat, rows) && RanksFrom(rows, Least(offset, |cat|) + 1)
            && |rows| == PageLength(|cat|, offset, length)
  {
    hide Ahead;
    RankingDistinct(cat, r);
    var rows := Page(r, offset, length);
    var from := PageStart(r, offset);
    forall i | 0 <= i < |rows|
      ensures rows[i] == Row(r[from + i], from + i + 1) && r[from + i] in r
      ensures rows[i].rank == 1 + |Ahead(cat, rows[i].entry)|
    {
      RankCountsBetter(cat, r, from + i);
    }
  }

  /** The rows show entries at their places in r after `from`, in that order. */
  predicate InOrder(r: seq<Entry>, rows: seq<Row>, from: nat) {
    && (forall i :: 0 <= i < |rows| ==> from < rows[i].rank <= |r| && r[rows[i].rank - 1] == rows[i].entry)
    && (forall i, j :: 0 <= i < j < |rows| ==> rows[i].rank < rows[j].rank)
  }

  lemma {:induction false} InOrderNext(r: seq<Entry>, rest: seq<Row>, from: nat)
    requires from < |r| && InOrder(r, rest, from + 1)
    ensures InOrder(r, [Row(r[from], from + 1)] + rest, from) && InOrder(r, rest, from)
  {
  }

  lemma {:induction false} RowsForOrder(r: seq<Entry>, wanted: set<u64>, from: nat)
    requires from <= |r|
    ensures InOrder(r, RowsFor(r, wanted, from), from)
    decreases |r| - from
  {
    hide InOrder;
    if from < |r| {
      RowsForOrder(r, wanted, from + 1);
      var rest := RowsFor(r, wanted, from + 1);
      InOrderNext(r, rest, from);
      assert [] + rest == rest;
    } else {
      InOrderNothing(r);
    }
  }

  lemma {:induction false} InOrderNothing(r: seq<Entry>)
    ensures InOrder(r, [], |r|)
  {
  }

  lemma {:induction false} OrderedRowsAreRight(cat: Category, r: seq<Entry>, rows: seq<Row>)
    requires Keyed(cat) && IsRanking(cat, r) && InOrder(r, rows, 0)
    ensures RightRows(cat, rows)
  {
    hide Ahead, Keyed;
    forall i | 0 <= i < |rows| ensures rows[i].entry in r && rows[i].rank == 1 + |Ahead(cat, rows[i].entry)| {
      RankCountsBetter(cat, r, rows[i].rank - 1);
    }
  }

  /** GetRankingByPIDs shows exactly the wanted players that are ranked. */
  lemma {:induction false} ByPidsIsRight(cat: Category, r: seq<Entry>, wanted: set<u64>)
    requires Keyed(cat) && IsRanking(cat, r)
    ensures var rows := RowsFor(r, wanted, 0);
            RightRows(cat, rows)
            && forall pid :: pid in wanted && pid in cat <==> exists i :: 0 <= i < |rows| && rows[i].entry.pid == pid
  {
    hide RowsFor, RightRows, InOrder, Sorted;
    var rows := RowsFor(r, wanted, 0);
    RowsForOrder(r, wanted, 0);
    OrderedRowsAreRight(cat, r, rows);
    RowsForRows(r, wanted, 0);
    forall i | 0 <= i < |rows| ensures rows[i].entry.pid in wanted && rows[i].entry.pid in cat {
      assert rows[i] in rows && r[rows[i].rank - 1] in r;
    }
    forall pid | pid in wanted && pid in cat ensures exists i :: 0 <= i < |rows| && rows[i].entry.pid == pid {
      assert cat[pid] in r;
      var k :| 0 <= k < |r| && r[k] == cat[pid];
      assert Row(r[k], k + 1) in rows;
    }
  }

  lemma {:induction false} EstimateIsRight(cat: Category, r: seq<Entry>, pid: u64)
    requires Keyed(cat) && IsRanking(cat, r)
    ensures Estimate(r, pid, 0)
         == if pid in cat then (1 + |Ahead(cat, cat[pid])|, cat[pid].score) else (|cat| + 1, 0)
  {
    hide Ahead, IsRanking, Estimate, Page, RowsFor;
    RanksAgree(cat, r, pid, {});
  }

  // ---- The store --------------------------------------------------------------------------

  datatype ScoreData = ScoreData(misc: u64, category: u32, score: u32)

  /** The deposits one PutScore makes: none when it announces more than 256 scores. */
  function PutScoreDeposits(pid: u64, uid: u64, scores: seq<ScoreData>): seq<Deposit> {
    if |scores| > 256 then []
    else seq(|scores|, i requires 0 <= i < |scores| =>
               Deposit(scores[i].category, Entry(pid, uid, scores[i].misc, scores[i].score)))
  }

  lemma {:induction false} DepositsAre(pid: u64, uid: u64, scores: seq<ScoreData>)
    ensures var ds := PutScoreDeposits(pid, uid, scores);
            && |ds| == (if |scores| > 256 then 0 else |scores|)
            && forall i :: 0 <= i < |ds| ==>
                 ds[i] == Deposit(scores[i].category, Entry(pid, uid, scores[i].misc, scores[i].score))
  {
  }

  class Ranking2Store {
    var scores: Scores
    var modified: bool
    ghost var log: seq<Deposit>

    ghost predicate Valid()
      reads this
    {
      scores == Run(log)
    }

    constructor ()
      ensures Valid() && log == []
    {
      scores, modified, log := map[], false, [];
    }

    method Deposer(category: u32, e: Entry) returns (kept: bool)
      requires Valid()
      modifies this
      ensures Valid() && log == old(log) + [Deposit(category, e)]
      ensures kept <==> !(e.pid in Lookup(old(scores), category)
                          && Lookup(old(scores), category)[e.pid].score >= e.score)
      ensures modified == (old(modified) || kept)
    {
      log := log + [Deposit(category, e)];
      assert log[..|log| - 1] == old(log);
      if category !in scores {
        scores := scores[category := map[]];
      }
      var cat := scores[category];
      if e.pid in cat && cat[e.pid].score >= e.score {
        return false;
      }
      scores := scores[category := cat[e.pid := e]];
      modified := true;
      return true;
    }

    method PutScore(pid: u64, uid: u64, data: seq<ScoreData>) returns (kept: nat)
      requires Valid()
      modifies this
      ensures Valid() && log == old(log) + PutScoreDeposits(pid, uid, data) && kept <= |data|
      ensures |log| == |old(log)| + (if |data| > 256 then 0 else |data|)
      ensures |data| <= 256 ==> forall i :: 0 <= i < |data| ==>
                log[|old(log)| + i].category == data[i].category
                && log[|old(log)| + i].entry == Entry(pid, uid, data[i].misc, data[i].score)
    {
      hide Run, PutScoreDeposits;
      DepositsAre(pid, uid, data);
      kept := 0;
      if |data| > 256 {
        return;
      }
      var i := 0;
      while i < |data|
        invariant 0 <= i <= |data| && Valid() && kept <= i
        invariant log == old(log) + PutScoreDeposits(pid, uid, data)[..i]
      {
        var better := Deposer(data[i].category, Entry(pid, uid, data[i].misc, data[i].score));
        if better {
          kept := kept + 1;
        }
        i := i + 1;
      }
    }

    /** The category sorted from best to worst: every entry once, higher scores first, equal scores
        by ascending PID. */
    method Classement(category: u32) returns (out: seq<Entry>)
      requires Valid()
      ensures IsRanking(Lookup(scores, category), out)
      ensures forall i, j :: 0 <= i < j < |out| ==>
                out[i].score > out[j].score || (out[i].score == out[j].score && out[i].pid < out[j].pid)
    {
      RunIsKeyed(log, category);
      var cat := Lookup(scores, category);
      out := [];
      var todo := cat.Keys;
      while todo != {}
        invariant todo <= cat.Keys && Sorted(out)
        invariant forall e :: e in out <==> e.pid in cat && e.pid !in todo && cat[e.pid] == e
        decreases todo
      {
        var pid :| pid in todo;
        out := Insert(out, cat[pid]);
        todo := todo - {pid};
      }
    }

    method GetRanking(category: u32, offset: nat, length: nat) returns (rows: seq<Row>, numRankedIn: nat)
      requires Valid()
      ensures numRankedIn == |Lookup(scores, category)|
      ensures forall r :: IsRanking(Lookup(scores, category), r) ==> rows == Page(r, offset, length)
      ensures var total := |Lookup(scores, category)|;
              && RightRows(Lookup(scores, category), rows) && RanksFrom(rows, Least(offset, total) + 1)
              && |rows| == PageLength(total, offset, length)
    {
      hide IsRanking, RightRows, RanksFrom, PageLength;
      var tous := Classement(category);
      RankingFacts(category, tous);
      var debut := offset;
      if debut > |tous| {
        debut := |tous|;
      }
      var fin := |tous|;
      if length > 0 && debut + length < fin {
        fin := debut + length;
      }
      rows, numRankedIn := [], |tous|;
      var idx := debut;
      while idx < fin
        invariant debut <= idx <= fin && rows == Rows(tous, debut, idx)
      {
        rows := rows + [Row(tous[idx], idx + 1)];
        idx := idx + 1;
      }
      RunIsKeyed(log, category);
      PageIsRight(Lookup(scores, category), tous, offset, length);
    }

    method GetRankingByPIDs(category: u32, wanted: set<u64>) returns (rows: seq<Row>, numRankedIn: nat)
      requires Valid()
      ensures numRankedIn == |Lookup(scores, category)|
      ensures forall r :: IsRanking(Lookup(scores, category), r) ==> rows == RowsFor(r, wanted, 0)
      ensures RightRows(Lookup(scores, category), rows)
      ensures forall pid :: pid in wanted && pid in Lookup(scores, category)
                       <==> exists i :: 0 <= i < |rows| && rows[i].entry.pid == pid
    {
      hide IsRanking, RowsFor, RightRows;
      var tous := Classement(category);
      RankingFacts(category, tous);
      rows, numRankedIn := [], |tous|;
      var idx := 0;
      assert RowsFor(tous, wanted, 0) == rows + RowsFor(tous, wanted, idx);
      while idx < |tous|
        invariant 0 <= idx <= |tous|
        invariant RowsFor(tous, wanted, 0) == rows + RowsFor(tous, wanted, idx)
      {
        RowsNext(rows, tous, wanted, idx);
        if tous[idx].pid in wanted {
          rows := rows + [Row(tous[idx], idx + 1)];
        }
        idx := idx + 1;
      }
      RowsNext(rows, tous, wanted, idx);
      RunIsKeyed(log, category);
      ByPidsIsRight(Lookup(scores, category), tous, wanted);
    }

    method GetEstimateMyRank(category: u32, pid: u64) returns (rank: nat, score: u32)
      requires Valid()
      ensures forall r :: IsRanking(Lookup(scores, category), r) ==> (rank, score) == Estimate(r, pid, 0)
      ensures var cat := Lookup(scores, category);
              (rank, score)
              == if pid in cat then (1 + |Ahead(cat, cat[pid])|, cat[pid].score) else (|cat| + 1, 0)
    {
      hide IsRanking, Ahead;
      var tous := Classement(category);
      RankingFacts(category, tous);
      RunIsKeyed(log, category);
      EstimateIsRight(Lookup(scores, category), tous, pid);
      rank, score := |tous| + 1, 0;
      var idx := 0;
      while idx < |tous|
        invariant 0 <= idx <= |tous| && rank == |tous| + 1 && score == 0
        invariant Estimate(tous, pid, 0) == Estimate(tous, pid, idx)
      {
        if tous[idx].pid == pid {
          return idx + 1, tous[idx].score;
        }
        idx := idx + 1;
      }
    }

    lemma {:induction false} RankingFacts(category: u32, tous: seq<Entry>)
      requires Valid() && IsRanking(Lookup(scores, category), tous)
      ensures |tous| == |Lookup(scores, category)|
      ensures forall r :: IsRanking(Lookup(scores, category), r) ==> r == tous
    {
      hide IsRanking;
      RunIsKeyed(log, category);
      RankingDistinct(Lookup(scores, category), tous);
      forall r | IsRanking(Lookup(scores, category), r) ensures r == tous {
        RankingUnique(Lookup(scores, category), r, tous);
      }
    }
  }

  // ---- Placing an entry ---------------------------------------------------------------------

  /** Put an entry in its place among sorted entries. */
  method Insert(r: seq<Entry>, e: Entry) returns (out: seq<Entry>)
    requires Sorted(r) && forall x :: x in r ==> x.pid != e.pid
    ensures Sorted(out) && forall x :: x in out <==> x == e || x in r
  {
    var i := 0;
    while i < |r| && Better(r[i], e)
      invariant 0 <= i <= |r|
      invariant forall j :: 0 <= j < i ==> Better(r[j], e)
    {
      i := i + 1;
    }
    assert i < |r| ==> r[i] in r;
    out := r[..i] + [e] + r[i..];
    assert r == r[..i] + r[i..];
    InsertedAt(r, e, i);
  }

  lemma {:induction false} InsertedAt(r: seq<Entry>, e: Entry, i: nat)
    requires Sorted(r) && i <= |r| && forall j :: 0 <= j < i ==> Better(r[j], e)
    requires i < |r| ==> !Better(r[i], e) && r[i].pid != e.pid
    ensures Sorted(r[..i] + [e] + r[i..])
  {
    if i < |r| {
      NotBetterIsWorse(r[i], e);
    }
    forall j | i <= j < |r| ensures Better(e, r[j]) {
      if j > i {
        BetterIsTransitive(e, r[i], r[j]);
      }
    }
    hide Better;
  }

  lemma {:induction false} NotBetterIsWorse(a: Entry, b: Entry)
    requires !Better(a, b) && a.pid != b.pid
    ensures Better(b, a)
  {
  }

  lemma {:induction false} BetterIsTransitive(a: Entry, b: Entry, c: Entry)
    requires Better(a, b) && Better(b, c)
    ensures Better(a, c)
  {
  }
}
