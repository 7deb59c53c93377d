/** The aggregation half of the report view (app.py, `report`): three means and
    an attendance percentage over the reported matches, with the view's two
    division guards. Values are exact reals; the view's final rounding to two
    decimals is not modelled. */
module Statistics {
  import opened Matches
  import opened Totals

  datatype Stats = Stats(
    averageDuration: real,
    averageInvited: real,
    averageAccepted: real,
    averageAttendance: real
  )

  /** What the view reports for an empty result. */
  const Zero: Stats := Stats(0.0, 0.0, 0.0, 0.0)

  /** The mean of one column over a non-empty list. */
  function Mean(ms: seq<Match>, fld: Field): (r: real)
    requires |ms| > 0
    ensures r * |ms| as real == Total(ms, fld) as real
  {
    Total(ms, fld) as real / |ms| as real
  }

  /** Accepted invitations as a percentage of invitations, 0 when nobody was invited. */
  function Attendance(accepted: int, invited: int): (r: real)
    ensures invited > 0 ==> r * invited as real == 100.0 * accepted as real
    ensures invited <= 0 ==> r == 0.0
  {
    if invited > 0 then (accepted as real / invited as real) * 100.0 else 0.0
  }

  /** The four statistics of a report. */
  function ComputeStatistics(report: seq<Match>): (s: Stats)
    ensures |report| == 0 ==> s == Zero
    ensures |report| > 0 ==>
      && s.averageDuration * |report| as real == Total(report, Duration) as real
      && s.averageInvited * |report| as real == Total(report, Invited) as real
      && s.averageAccepted * |report| as real == Total(report, Accepted) as real
    ensures Total(report, Invited) > 0 ==>
      s.averageAttendance * Total(report, Invited) as real == 100.0 * Total(report, Accepted) as real
    ensures Total(report, Invited) <= 0 ==> s.averageAttendance == 0.0
  {
    if |report| > 0 then
      Stats(
        Mean(report, Duration),
        Mean(report, Invited),
        Mean(report, Accepted),
        Attendance(Total(report, Accepted), Total(report, Invited)))
    else
      Zero
  }

  /** Dividing both sides of an inequality by a positive number keeps it. */
  lemma CancelPositive(a: real, b: real, n: real)
    requires n > 0.0 && a * n <= b * n
    ensures a <= b
  {
    assert (b - a) * n >= 0.0;
  }

  /** A total of at least `lo` per item averages to at least `lo`. */
  lemma MeanAtLeast(lo: int, total: int, count: int)
    requires count > 0 && lo * count <= total
    ensures lo as real <= total as real / count as real
  {
    assert (lo * count) as real == lo as real * count as real;
    CancelPositive(lo as real, total as real / count as real, count as real);
  }

  /** A total of at most `hi` per item averages to at most `hi`. */
  lemma MeanAtMost(hi: int, total: int, count: int)
    requires count > 0 && total <= hi * count
    ensures total as real / count as real <= hi as real
  {
    assert (hi * count) as real == hi as real * count as real;
    CancelPositive(total as real / count as real, hi as real, count as real);
  }

  /** A mean lies between any lower and upper bound of the values it averages. */
  lemma MeanWithinBounds(ms: seq<Match>, fld: Field, lo: int, hi: int)
    requires |ms| > 0
    requires forall i :: 0 <= i < |ms| ==> lo <= Value(ms[i], fld) <= hi
    ensures lo as real <= Mean(ms, fld) <= hi as real
  {
    TotalAtLeast(ms, fld, lo);
    TotalAtMost(ms, fld, hi);
    MeanAtLeast(lo, Total(ms, fld), |ms|);
    MeanAtMost(hi, Total(ms, fld), |ms|);
  }

  /** Over valid matches every statistic is non-negative, and a non-empty report
      has an average duration of at least one minute. */
  lemma StatisticsNonNegative(report: seq<Match>)
    requires AllValid(report)
    ensures var s := ComputeStatistics(report);
      && s.averageDuration >= 0.0 && s.averageInvited >= 0.0
      && s.averageAccepted >= 0.0 && s.averageAttendance >= 0.0
    ensures |report| > 0 ==> ComputeStatistics(report).averageDuration >= 1.0
  {
    if |report| > 0 {
      TotalAtLeast(report, Duration, 1);
      TotalAtLeast(report, Invited, 0);
      TotalAtLeast(report, Accepted, 0);
      MeanAtLeast(1, Total(report, Duration), |report|);
      MeanAtLeast(0, Total(report, Invited), |report|);
      MeanAtLeast(0, Total(report, Accepted), |report|);
      var inv, acc := Total(report, Invited), Total(report, Accepted);
      if inv > 0 {
        CancelPositive(0.0, Attendance(acc, inv), inv as real);
      }
    }
  }

  /** When no match accepts more invitations than it sent, attendance is at most 100%. */
  lemma AttendanceAtMostHundred(report: seq<Match>)
    requires forall i :: 0 <= i < |report| ==> 0 <= report[i].acceptedCount <= report[i].invitedCount
    ensures 0.0 <= ComputeStatistics(report).averageAttendance <= 100.0
  {
    TotalDominated(report, Accepted, Invited);
    TotalAtLeast(report, Accepted, 0);
    var inv, acc := Total(report, Invited), Total(report, Accepted);
    if |report| > 0 && inv > 0 {
      var att := Attendance(acc, inv);
      assert att * inv as real == 100.0 * acc as real;
      assert acc as real <= inv as real;
      CancelPositive(att, 100.0, inv as real);
      CancelPositive(0.0, att, inv as real);
    }
  }

  /** The statistics do not depend on the order in which the matches arrive. */
  lemma StatisticsPermutation(a: seq<Match>, b: seq<Match>)
    requires multiset(a) == multiset(b)
    ensures ComputeStatistics(a) == ComputeStatistics(b)
  {
    assert |a| == |multiset(a)| == |multiset(b)| == |b|;
    TotalPermutation(a, b, Duration);
    TotalPermutation(a, b, Invited);
    TotalPermutation(a, b, Accepted);
  }
}
