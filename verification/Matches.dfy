/** The Match record as far as the report engine sees it (models.py, class Match). */
module Matches {
  import opened Wrappers

  /** A scheduled match. `date` is a day number (days since 1970-01-01), so that
      the calendar order of dates is the order of integers. `venueId` is nullable
      in the schema; `teamId` is not. The `time`, `description` and `opponent`
      columns play no part in the report and are not carried. */
  datatype Match = Match(
    date: int,
    duration: int,
    teamId: int,
    venueId: Option<int>,
    invitedCount: int,
    acceptedCount: int
  )

  /** The numeric columns the report aggregates. */
  datatype Field = Duration | Invited | Accepted

  function Value(m: Match, fld: Field): int
  {
    match fld
    case Duration => m.duration
    case Invited => m.invitedCount
    case Accepted => m.acceptedCount
  }

  /** The ranges the match form enforces on entry: a duration of at least one
      minute and non-negative invitation and acceptance counts. */
  predicate Valid(m: Match)
  {
    m.duration >= 1 && m.invitedCount >= 0 && m.acceptedCount >= 0
  }

  predicate AllValid(ms: seq<Match>)
  {
    forall i :: 0 <= i < |ms| ==> Valid(ms[i])
  }
}
