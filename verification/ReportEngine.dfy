/** The report view's engine end to end (app.py, `report`, on a valid form
    submission): filter the store's matches, then aggregate the result. */
module ReportEngine {
  import opened Wrappers
  import opened Matches
  import opened Totals
  import opened Filtering
  import opened Statistics

  /** Runs one report: every stored copy of each match the filter selects, and
      their statistics, with the view's three sums merged into one pass. */
  method GenerateReport(store: seq<Match>, f: Filter) returns (matches: seq<Match>, stats: Stats)
    ensures forall x :: multiset(matches)[x] == if Selected(f, x) then multiset(store)[x] else 0
    ensures forall x :: x in matches <==> x in store && Selected(f, x)
    ensures multiset(matches) <= multiset(store)
    ensures stats == ComputeStatistics(matches)
  {
    matches := Report(store, f);
    forall x
      ensures x in matches <==> x in store && Selected(f, x)
    {
      Membership(store, f, x);
    }
    if |matches| > 0 {
      var duration, invited, accepted := SumTotals(matches);
      var n := |matches| as real;
      var attendance := if invited > 0 then (accepted as real / invited as real) * 100.0 else 0.0;
      stats := Stats(duration as real / n, invited as real / n, accepted as real / n, attendance);
    } else {
      stats := Zero;
    }
  }

  /** Every match of a report comes from the store, so a store of valid matches
      yields non-negative statistics. */
  lemma ReportStatisticsNonNegative(store: seq<Match>, f: Filter)
    requires AllValid(store)
    ensures var s := ComputeStatistics(Report(store, f));
      && s.averageDuration >= 0.0 && s.averageInvited >= 0.0
      && s.averageAccepted >= 0.0 && s.averageAttendance >= 0.0
  {
    var r := Report(store, f);
    forall i | 0 <= i < |r|
      ensures Valid(r[i])
    {
      Membership(store, f, r[i]);
      var j :| 0 <= j < |store| && store[j] == r[i];
    }
    StatisticsNonNegative(r);
  }

  /** The store's order, which the database does not fix, has no effect on the statistics. */
  lemma ReportOrderIndependent(a: seq<Match>, b: seq<Match>, f: Filter)
    requires multiset(a) == multiset(b)
    ensures ComputeStatistics(Report(a, f)) == ComputeStatistics(Report(b, f))
  {
    ReportPermutation(a, b, f);
    StatisticsPermutation(Report(a, f), Report(b, f));
  }

  /** Two matches of team 1: 2024-01-10 at venue 1 and 2024-02-10 at venue 2
      (day numbers counted from 1970-01-01). */
  const MatchA: Match := Match(19732, 60, 1, Some(1), 20, 15)
  const MatchB: Match := Match(19763, 90, 1, Some(2), 10, 5)

  /** Team 1, all venues, the year 2024: both matches are reported. */
  lemma ScenarioWholeYear()
    ensures Report([MatchA, MatchB], Filter(1, All, Some(19723), Some(20088))) == [MatchA, MatchB]
  {
    var store := [MatchA, MatchB];
    WhereKeepsAll(store, (m: Match) => m.teamId == 1);
    CoveringRange(store, 19723, 20088);
  }

  /** The statistics of those two matches: means 75, 15 and 10 and an
      attendance of 20 out of 30 invitations. */
  lemma ScenarioWholeYearStatistics()
    ensures ComputeStatistics([MatchA, MatchB]) == Stats(75.0, 15.0, 10.0, 200.0 / 3.0)
  {
    var store := [MatchA, MatchB];
    assert store == [MatchA] + [MatchB];
    assert [MatchA][1..] == [] && [MatchB][1..] == [];
    TotalConcat([MatchA], [MatchB], Duration);
    TotalConcat([MatchA], [MatchB], Invited);
    TotalConcat([MatchA], [MatchB], Accepted);
    assert Total(store, Duration) == 150;
    assert Total(store, Invited) == 30;
    assert Total(store, Accepted) == 20;
  }

  /** Team 1 from 2024-03-01 onwards: no match, so every statistic is 0. */
  lemma ScenarioLateRange()
    ensures Report([MatchA, MatchB], Filter(1, All, Some(19783), Some(20088))) == []
    ensures ComputeStatistics(Report([MatchA, MatchB], Filter(1, All, Some(19783), Some(20088)))) == Zero
  {
    EmptyWhenNothingSelected([MatchA, MatchB], Filter(1, All, Some(19783), Some(20088)));
  }
}
