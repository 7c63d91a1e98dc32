/**
 * The leaderboard ("명예의 전당") of the ranking page: the approved activity
 * reports are summed per reporter name, the totals become `{name, points}`
 * entries, and the entries are sorted by descending points; the entry at
 * index i is shown with rank i + 1.
 */
module Ranking {
  import opened Options

  /** The joined `activity_types` record; only `base_points` is selected, and it may be null. */
  datatype ActivityType = ActivityType(basePoints: Option<int>)

  /** One `activity_reports` row as the ranking query sees it. The join may be missing. */
  datatype Report = Report(userName: string, status: string, activityType: Option<ActivityType>)

  /** One leaderboard entry. */
  datatype Entry = Entry(name: string, points: int)

  /** One displayed line of the leaderboard. */
  datatype RankRow = RankRow(rank: nat, name: string, points: int)

  const ApprovedStatus: string := "approved"

  // ---------------------------------------------------------------------------
  // The store's filter `.eq('status', 'approved')`
  // ---------------------------------------------------------------------------

  /** The reports the query returns: those whose status is exactly "approved", in order. */
  function Approved(reports: seq<Report>): (rows: seq<Report>)
    ensures forall r :: r in rows <==> r in reports && r.status == ApprovedStatus
    ensures forall r :: multiset(rows)[r] == if r.status == ApprovedStatus then multiset(reports)[r] else 0
  {
    if reports == [] then []
    else
      assert reports == [reports[0]] + reports[1..];
      if reports[0].status == ApprovedStatus then [reports[0]] + Approved(reports[1..])
    else Approved(reports[1..])
  }

  /** The filter distributes over concatenation. */
  lemma {:induction false} ApprovedAppend(a: seq<Report>, b: seq<Report>)
    ensures Approved(a + b) == Approved(a) + Approved(b)
  {
    if a == [] {
      assert a + b == b;
    } else {
      assert (a + b)[0] == a[0];
      assert (a + b)[1..] == a[1..] + b;
      ApprovedAppend(a[1..], b);
    }
  }

  /** A report that is not approved, wherever it sits, never changes what the ranking sees. */
  lemma PendingNeverCounts(before: seq<Report>, r: Report, after: seq<Report>)
    requires r.status != ApprovedStatus
    ensures Approved(before + [r] + after) == Approved(before + after)
  {
    assert [r][1..] == [];
    assert Approved([r]) == [];
    ApprovedAppend(before, [r]);
    assert Approved(before + [r]) == Approved(before);
    ApprovedAppend(before + [r], after);
    ApprovedAppend(before, after);
  }

  // ---------------------------------------------------------------------------
  // What a report contributes: `report.activity_types?.base_points || 0`
  // ---------------------------------------------------------------------------

  /** A missing join, a null `base_points` and a zero all contribute 0; otherwise the base points. */
  function Contribution(r: Report): (p: int)
    ensures p == 0 <==> (r.activityType.None? || r.activityType.value.basePoints in {None, Some(0)})
    ensures p != 0 ==> r.activityType == Some(ActivityType(Some(p)))
  {
    match r.activityType
    case None => 0
    case Some(t) =>
      match t.basePoints
      case None => 0
      case Some(b) => if b != 0 then b else 0
  }

  // ---------------------------------------------------------------------------
  // Specification of the totals
  // ---------------------------------------------------------------------------

  /** The names that occur in `rows`, exactly as written (no trimming). */
  function Names(rows: seq<Report>): set<string>
  {
    set r | r in rows :: r.userName
  }

  /** The sum of the contributions of the rows whose `userName` is exactly `name`. */
  function SumFor(rows: seq<Report>, name: string): int
  {
    if rows == [] then 0
    else
      var last := rows[|rows| - 1];
      SumFor(rows[..|rows| - 1], name) + (if last.userName == name then Contribution(last) else 0)
  }

  /** The sum of the contributions of all rows. */
  function Total(rows: seq<Report>): int
  {
    if rows == [] then 0 else Total(rows[..|rows| - 1]) + Contribution(rows[|rows| - 1])
  }

  /** A name that occurs in no row has total 0. */
  lemma {:induction false} SumForAbsent(rows: seq<Report>, name: string)
    requires name !in Names(rows)
    ensures SumFor(rows, name) == 0
  {
    if rows != [] {
      var init := rows[..|rows| - 1];
      assert Names(init) <= Names(rows) by {
        forall n | n in Names(init) ensures n in Names(rows) {
          var r :| r in init && r.userName == n;
          assert r in rows;
        }
      }
      SumForAbsent(init, name);
    }
  }

  // ---------------------------------------------------------------------------
  // Step 2 of the page: the `forEach` loop that fills `totals`
  // ---------------------------------------------------------------------------

  /** Builds the totals dictionary: one key per name, holding that name's sum. */
  method Tally(rows: seq<Report>) returns (totals: map<string, int>)
    ensures totals.Keys == Names(rows)
    ensures forall name :: name in totals ==> totals[name] == SumFor(rows, name)
  {
    totals := map[];
    for i := 0 to |rows|
      invariant totals.Keys == Names(rows[..i])
      invariant forall name :: name in totals ==> totals[name] == SumFor(rows[..i], name)
    {
      var name := rows[i].userName;
      var points := Contribution(rows[i]);
      var sofar := if name in totals then totals[name] else 0;
      assert rows[..i + 1][..i] == rows[..i];
      assert rows[..i + 1] == rows[..i] + [rows[i]];
      if name !in totals {
        SumForAbsent(rows[..i], name);
      }
      totals := totals[name := sofar + points];
    }
    assert rows[..|rows|] == rows;
  }

  // ---------------------------------------------------------------------------
  // Step 3 of the page: `Object.entries(totals).map(...)` and the sort
  // ---------------------------------------------------------------------------

  function NameSet(es: seq<Entry>): set<string>
  {
    set e | e in es :: e.name
  }

  predicate DistinctNames(es: seq<Entry>)
  {
    forall i, j :: 0 <= i < j < |es| ==> es[i].name != es[j].name
  }

  /** The order the comparator `b.points - a.points` asks for, on every adjacent pair. */
  predicate Sorted(es: seq<Entry>)
  {
    forall i :: 0 <= i < |es| - 1 ==> es[i].points >= es[i + 1].points
  }

  function EntrySum(es: seq<Entry>): int
  {
    if es == [] then 0 else es[0].points + EntrySum(es[1..])
  }

  lemma NameSetAppend(es: seq<Entry>, e: Entry)
    ensures NameSet(es + [e]) == NameSet(es) + {e.name}
  {
    assert forall x :: x in es + [e] <==> x in es || x == e;
  }

  /**
   * The entries of the totals dictionary, one `{name, points}` per key, in an
   * order this model leaves unspecified.
   */
  method EntriesOf(totals: map<string, int>) returns (es: seq<Entry>)
    ensures DistinctNames(es)
    ensures NameSet(es) == totals.Keys
    ensures forall e :: e in es ==> e.name in totals && e.points == totals[e.name]
  {
    es := [];
    var rest := totals;
    while rest != map[]
      invariant rest.Keys <= totals.Keys
      invariant forall k :: k in rest ==> rest[k] == totals[k]
      invariant DistinctNames(es)
      invariant NameSet(es) == totals.Keys - rest.Keys
      invariant forall e :: e in es ==> e.name in totals && e.points == totals[e.name]
      decreases rest.Keys
    {
      var k :| k in rest;
      var e := Entry(k, rest[k]);
      NameSetAppend(es, e);
      assert forall i :: 0 <= i < |es| ==> es[i] in es;
      es := es + [e];
      assert (rest - {k}).Keys == rest.Keys - {k};
      rest := rest - {k};
    }
  }

  lemma NameSetCons(e: Entry, es: seq<Entry>)
    ensures NameSet([e] + es) == {e.name} + NameSet(es)
  {
    assert forall x :: x in [e] + es <==> x == e || x in es;
  }

  /** The head of a list with distinct names is not named again in its tail, which stays distinct. */
  lemma DistinctTail(es: seq<Entry>)
    requires es != [] && DistinctNames(es)
    ensures es[0].name !in NameSet(es[1..])
    ensures DistinctNames(es[1..])
  {
    forall j | 0 <= j < |es[1..]| ensures es[1..][j].name != es[0].name {
      assert es[1..][j] == es[j + 1];
    }
    forall i, j | 0 <= i < j < |es[1..]| ensures es[1..][i].name != es[1..][j].name {
      assert es[1..][i] == es[i + 1] && es[1..][j] == es[j + 1];
    }
  }

  /** Places `e` before the first entry with no more points than it (ties keep their order). */
  function Insert(e: Entry, s: seq<Entry>): (r: seq<Entry>)
    ensures |r| == |s| + 1
    ensures r[0] == e || (s != [] && r[0] == s[0])
    ensures Sorted(s) ==> Sorted(r)
    ensures multiset(r) == multiset(s) + multiset{e}
  {
    if s == [] || e.points >= s[0].points then [e] + s
    else
      var tail := Insert(e, s[1..]);
      assert s == [s[0]] + s[1..];
      [s[0]] + tail
  }

  lemma {:induction false} InsertKeepsNames(e: Entry, s: seq<Entry>)
    ensures NameSet(Insert(e, s)) == NameSet(s) + {e.name}
    ensures DistinctNames(s) && e.name !in NameSet(s) ==> DistinctNames(Insert(e, s))
  {
    if s == [] || e.points >= s[0].points {
      NameSetCons(e, s);
    } else {
      var tail := Insert(e, s[1..]);
      assert s == [s[0]] + s[1..];
      NameSetCons(s[0], s[1..]);
      NameSetCons(s[0], tail);
      InsertKeepsNames(e, s[1..]);
    }
  }

  lemma {:induction false} InsertAddsPoints(e: Entry, s: seq<Entry>)
    ensures EntrySum(Insert(e, s)) == e.points + EntrySum(s)
  {
    if s != [] && e.points < s[0].points {
      InsertAddsPoints(e, s[1..]);
    }
  }

  /** A stable sort by descending points: the result is ordered and a permutation of the input. */
  function SortDesc(es: seq<Entry>): (r: seq<Entry>)
    ensures Sorted(r)
    ensures multiset(r) == multiset(es)
  {
    if es == [] then []
    else
      assert es == [es[0]] + es[1..];
      Insert(es[0], SortDesc(es[1..]))
  }

  /** Sorting neither adds nor drops a name, and keeps names distinct. */
  lemma {:induction false} SortDescKeepsNames(es: seq<Entry>)
    ensures NameSet(SortDesc(es)) == NameSet(es)
    ensures DistinctNames(es) ==> DistinctNames(SortDesc(es))
  {
    if es != [] {
      assert es == [es[0]] + es[1..];
      NameSetCons(es[0], es[1..]);
      SortDescKeepsNames(es[1..]);
      InsertKeepsNames(es[0], SortDesc(es[1..]));
      if DistinctNames(es) {
        DistinctTail(es);
      }
    }
  }

  /** Sorting keeps the sum of the points. */
  lemma {:induction false} SortDescKeepsSum(es: seq<Entry>)
    ensures EntrySum(SortDesc(es)) == EntrySum(es)
  {
    if es != [] {
      SortDescKeepsSum(es[1..]);
      InsertAddsPoints(es[0], SortDesc(es[1..]));
    }
  }

  // ---------------------------------------------------------------------------
  // The grand total is conserved
  // ---------------------------------------------------------------------------

  /** The sum, over the entries' names, of each name's total in `rows`. */
  function NamesSum(es: seq<Entry>, rows: seq<Report>): int
  {
    if es == [] then 0 else SumFor(rows, es[0].name) + NamesSum(es[1..], rows)
  }

  /** How much `r` adds to the entries' totals: its contribution once for every entry with its name. */
  function Hits(es: seq<Entry>, r: Report): int
  {
    if es == [] then 0
    else (if es[0].name == r.userName then Contribution(r) else 0) + Hits(es[1..], r)
  }

  lemma {:induction false} NamesSumSnoc(es: seq<Entry>, rows: seq<Report>, r: Report)
    ensures NamesSum(es, rows + [r]) == NamesSum(es, rows) + Hits(es, r)
  {
    assert (rows + [r])[..|rows|] == rows;
    if es != [] {
      NamesSumSnoc(es[1..], rows, r);
    }
  }

  lemma {:induction false} HitsOnce(es: seq<Entry>, r: Report)
    requires DistinctNames(es)
    ensures Hits(es, r) == if r.userName in NameSet(es) then Contribution(r) else 0
  {
    if es != [] {
      assert es == [es[0]] + es[1..];
      assert NameSet(es) == {es[0].name} + NameSet(es[1..]);
      DistinctTail(es);
      HitsOnce(es[1..], r);
    }
  }

  /** Summing the per-name totals over distinct names that cover all rows gives the grand total. */
  lemma {:induction false} NamesSumIsTotal(es: seq<Entry>, rows: seq<Report>)
    requires DistinctNames(es)
    requires Names(rows) <= NameSet(es)
    ensures NamesSum(es, rows) == Total(rows)
  {
    if rows == [] {
      NamesSumOfNothing(es);
    } else {
      var init, last := rows[..|rows| - 1], rows[|rows| - 1];
      assert rows == init + [last];
      assert Names(init) <= Names(rows);
      assert last.userName in Names(rows);
      NamesSumIsTotal(es, init);
      NamesSumSnoc(es, init, last);
      HitsOnce(es, last);
    }
  }

  lemma {:induction false} NamesSumOfNothing(es: seq<Entry>)
    ensures NamesSum(es, []) == 0
  {
    if es != [] {
      NamesSumOfNothing(es[1..]);
    }
  }

  lemma {:induction false} EntrySumIsNamesSum(es: seq<Entry>, rows: seq<Report>)
    requires forall e :: e in es ==> e.points == SumFor(rows, e.name)
    ensures EntrySum(es) == NamesSum(es, rows)
  {
    if es != [] {
      assert forall e :: e in es[1..] ==> e in es;
      EntrySumIsNamesSum(es[1..], rows);
    }
  }

  /** Entries holding each distinct name's total sum to the total of all rows. */
  lemma GrandTotal(es: seq<Entry>, rows: seq<Report>)
    requires DistinctNames(es)
    requires NameSet(es) == Names(rows)
    requires forall e :: e in es ==> e.points == SumFor(rows, e.name)
    ensures EntrySum(es) == Total(rows)
  {
    EntrySumIsNamesSum(es, rows);
    NamesSumIsTotal(es, rows);
  }

  // ---------------------------------------------------------------------------
  // The whole computation of `fetchRankings`, once the store has answered
  // ---------------------------------------------------------------------------

  /**
   * Filters the reports as the query does, tallies them, lists the entries and
   * sorts them. `reports` is the whole `activity_reports` table.
   */
  method FetchRankings(reports: seq<Report>) returns (rankings: seq<Entry>)
    ensures Sorted(rankings)
    ensures DistinctNames(rankings)
    ensures NameSet(rankings) == Names(Approved(reports))
    ensures forall e :: e in rankings ==> e.points == SumFor(Approved(reports), e.name)
    ensures EntrySum(rankings) == Total(Approved(reports))
    ensures rankings == [] <==> Approved(reports) == []
  {
    var rows := Approved(reports);
    var totals := Tally(rows);
    var entries := EntriesOf(totals);
    GrandTotal(entries, rows);
    rankings := SortDesc(entries);
    SortDescKeepsNames(entries);
    SortDescKeepsSum(entries);
    forall e | e in rankings ensures e.points == SumFor(rows, e.name) {
      assert e in multiset(rankings);
    }
    if rows != [] {
      assert rows[0].userName in Names(rows);
    }
    if rankings != [] {
      assert rankings[0].name in NameSet(rankings);
    }
  }

  // ---------------------------------------------------------------------------
  // Display: rank = index + 1
  // ---------------------------------------------------------------------------

  /** The lines the page renders, the entry at index i with rank i + 1. */
  function RankRows(rankings: seq<Entry>): (shown: seq<RankRow>)
    ensures |shown| == |rankings|
    ensures forall i :: 0 <= i < |shown| ==>
      shown[i].rank == i + 1 && shown[i].name == rankings[i].name && shown[i].points == rankings[i].points
  {
    seq(|rankings|, i requires 0 <= i < |rankings| => RankRow(i + 1, rankings[i].name, rankings[i].points))
  }

  /** In a sorted leaderboard a better (smaller) rank never has fewer points. */
  lemma {:induction false} BetterRankNoFewerPoints(rankings: seq<Entry>, i: nat, j: nat)
    requires Sorted(rankings)
    requires i <= j < |rankings|
    ensures RankRows(rankings)[i].points >= RankRows(rankings)[j].points
    decreases j - i
  {
    if i < j {
      BetterRankNoFewerPoints(rankings, i + 1, j);
    }
  }
}
