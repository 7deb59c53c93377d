# Report engine of the sports team management app

This project models the report engine of a small Flask application that keeps teams, players,
venues and scheduled matches. The report page takes four inputs: a team, a venue, a start date
and an end date. The team and venue selectors offer `-1` for "All Teams" / "All Venues". The
engine narrows the store's matches by those inputs, then reports four statistics over the
result: the average duration, average invitations, average acceptances and the attendance
percentage (accepted over invited, times 100).

Modules, one per concern:

- `Wrappers` (`Wrappers.dfy`): `Option`, which stands for NULL columns and absent date bounds.
- `Matches` (`Matches.dfy`): the `Match` record and its columns. It also has the entry ranges
  the match form enforces: duration at least 1, both counts non-negative.
- `Totals` (`Totals.dfy`): column sums. The recursive `Total` is the reference definition.
  `SumTotals` is a single loop that merges the view's three separate `sum` passes. The module also has lemmas for
  concatenation, reordering, bounds and domination.
- `Filtering` (`Filtering.dfy`): the query as the view builds it. It is a chain of optional
  `filter` stages. `Selected` is an independent statement of when a match belongs in the
  report.
- `Statistics` (`Statistics.dfy`): the four statistics with the view's two guards. An empty
  report gives all zeros. A total of zero invitations gives an attendance of 0.
- `ReportEngine` (`ReportEngine.dfy`): the whole request, plus two worked scenarios.

Dates are day numbers counted from 1970-01-01, so calendar order is integer order. Statistics
are exact `real` values. The model is functional, so running the same report twice on the same
store gives the same result by construction.

The report form marks both dates as required. The view itself still applies each bound only
when it is present (app.py:92-95), so the model follows the view: `start` and `end` are
`Option`s and each bound is applied only when given.

## Model

| member | source | states |
|---|---|---|
| Filtering.Where | app.py:89-95 | one query `filter` stage keeps each match exactly as many times as the input has it when the condition holds and drops it otherwise; every kept match satisfies the condition; the stage never grows the list |
| Filtering.WhereKeepsAll | app.py:89-95 | a stage whose condition every match meets returns the list unchanged |
| Filtering.ByTeam | app.py:88-89 | the team stage keeps every copy of a match when the selector is -1 or the match's team equals it, and nothing else |
| Filtering.ByVenue | app.py:90-91 | the venue stage keeps a match when the selector is -1 or the match's venue equals it; a NULL venue never equals a concrete id |
| Filtering.ByStart | app.py:92-93 | the start stage keeps matches on or after the start date, and every match when no start is given |
| Filtering.ByEnd | app.py:94-95 | the end stage keeps matches on or before the end date, and every match when no end is given |
| Filtering.Report | app.py:86-97 | the reported multiset is the store's multiset restricted to matches meeting all four conditions of `Selected`; it is a sub-multiset of the store and no longer than it |
| Filtering.Membership | app.py:86-97 | a match is in the report if and only if it is in the store, its team passes (-1 or equal), its venue passes (-1 or equal), start <= date when a start is given, and date <= end when an end is given |
| Filtering.EmptyWhenNothingSelected | app.py:86-97 | when no stored match meets the conditions the report is the empty list |
| Filtering.InvertedRange | app.py:92-95 | with both bounds present and start after end the report is empty |
| Filtering.NullVenue | app.py:90-91 | a stored match without a venue is excluded by every concrete venue filter; under "All Venues" it is included exactly when the team and date conditions hold |
| Filtering.NoRestriction | app.py:86-97 | "All Teams", "All Venues" and no dates report every stored match, with multiplicity |
| Filtering.CoveringRange | app.py:86-97 | "All Teams", "All Venues" and a date range covering every stored match return the whole store, unchanged |
| Filtering.ReportPermutation | app.py:97 | reordering the store changes the report's order only, never its multiset |
| Totals.Total | app.py:101-103 | the column sum over a list of matches; it is the reference definition that the loop `SumTotals` and the total lemmas are measured against |
| Totals.TotalConcat | app.py:101-103 | the sum over a concatenation is the sum of the two parts' sums |
| Totals.TotalPermutation | app.py:101-103 | a column sum depends only on the multiset of matches, not on the order the query returns them in |
| Totals.TotalAtLeast | app.py:101-103 | if every value is at least `lo`, the sum is at least `lo` times the count |
| Totals.TotalAtMost | app.py:101-103 | if every value is at most `hi`, the sum is at most `hi` times the count |
| Totals.TotalDominated | app.py:102-103 | a column that is pointwise no larger than another has no larger sum (used for accepted versus invited) |
| Totals.SumTotals | app.py:101-103 | one front-to-back loop, which merges the view's three `sum` passes, yields the three reference sums of durations, invitations and acceptances |
| Statistics.Mean | app.py:104-106 | the average times the number of reported matches gives back the column total |
| Statistics.Attendance | app.py:107 | for a positive invitation total, attendance times invitations equals 100 times acceptances; otherwise attendance is 0 |
| Statistics.ComputeStatistics | app.py:100-121 | an empty report gives all four statistics 0; a non-empty one gives averages whose product with the count is the column total; attendance times total invitations is 100 times total acceptances when invitations are positive, and attendance is 0 when they total 0, even for a non-empty report |
| Statistics.MeanWithinBounds | app.py:104-106 | an average lies between any lower and upper bound of the averaged values |
| Statistics.StatisticsNonNegative | app.py:100-121 | over matches in the form's ranges every statistic is non-negative, and a non-empty report averages at least one minute |
| Statistics.AttendanceAtMostHundred | app.py:107 | when no match accepts more than it invited, attendance lies between 0 and 100 |
| Statistics.StatisticsPermutation | app.py:97-113 | the statistics are the same for any ordering of the reported matches |
| ReportEngine.GenerateReport | app.py:85-121 | the returned matches are every stored copy of each selected match and nothing else (multiset equality to the store restricted by `Selected`), a sub-multiset of the store; the statistics computed with running sums equal the reference statistics of exactly that list |
| ReportEngine.ReportStatisticsNonNegative | app.py:97-113 | a store of matches in the form's ranges gives non-negative report statistics for every filter |
| ReportEngine.ReportOrderIndependent | app.py:97-113 | the store's row order, which the database does not fix, does not affect the report's statistics |
| ReportEngine.ScenarioWholeYear | app.py:86-97 | team 1, all venues, the whole of 2024 reports both sample matches |
| ReportEngine.ScenarioWholeYearStatistics | app.py:100-107 | the two sample matches average 75 minutes, 15 invitations and 10 acceptances, with attendance 200/3 percent |
| ReportEngine.ScenarioLateRange | app.py:92-121 | team 1 from 2024-03-01 reports no match, and all statistics are 0 |

## Left out

- Flask routing, templates, flash messages, redirects and `get_or_404`: HTTP and presentation
  plumbing with no logic of its own.
- The form-validation gate (`validate_on_submit`) and the empty page it renders when the form
  is not valid: WTForms library behaviour. The model covers the valid-submission path only.
- The CRUD handlers and their session add, commit and rollback: persistence through SQLAlchemy,
  which has no application logic.
- ORM cascade and `ondelete` settings in models.py. The Venue relationship declares a cascade
  delete, while the match's venue column declares `SET NULL`. The model does not choose
  between them. It allows a NULL venue, which is the only effect that reaches the report.
- WTForms validators and date parsing. The numeric ranges of the match form appear only as the
  `Matches.Valid` predicate, used as a hypothesis in the sign lemmas. The form pairs
  `DataRequired` with the count fields, and in WTForms that validator rejects an entered 0.
  That quirk belongs to the form library and is not modelled: the model allows zero counts.
- The `round(x, 2)` applied to each statistic: floating point. The model gives the exact values
  before rounding. Python's float division is modelled as exact real division.
- The order of rows returned by `query.all()`: SQL fixes none. The model returns the store's
  order. Its contracts speak of multisets and membership, and the permutation lemmas show that
  the statistics do not depend on the order.
- NULL invitation or acceptance counts: models.py:50-51 declares both columns nullable. A NULL
  in a reported match would make the view's `sum` raise `TypeError`. The model types both counts
  as plain integers and has no such error path. The application's own create and edit handlers
  always write form values that `DataRequired` has checked (app.py:199-200, 227-228).
- The match's `time`, `description` and `opponent` columns and its `id`: they play no part in
  the report.
- The team and venue id lists that populate the selectors: the model takes any integer as a
  selector value.
