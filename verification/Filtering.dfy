/** The filtering half of the report view (app.py, `report`): a chain of
    query restrictions, each applied only when its filter field asks for it. */
module Filtering {
  import opened Wrappers
  import opened Matches

  /** The sentinel the team and venue selectors use for "all teams" / "all venues". */
  const All: int := -1

  /** A report filter: team id, venue id (either may be `All`), and optional
      inclusive date bounds given as day numbers. */
  datatype Filter = Filter(team: int, venue: int, start: Option<int>, end: Option<int>)

  /** Keeps the matches satisfying `p`, in their original order: one `filter`
      step of the query. */
  function Where(ms: seq<Match>, p: Match -> bool): (r: seq<Match>)
    ensures forall x :: multiset(r)[x] == if p(x) then multiset(ms)[x] else 0
    ensures forall i :: 0 <= i < |r| ==> p(r[i])
    ensures |r| <= |ms|
  {
    if |ms| == 0 then []
    else
      assert ms == [ms[0]] + ms[1..];
      (if p(ms[0]) then [ms[0]] else []) + Where(ms[1..], p)
  }

  /** A stage whose condition holds of every match returns the list unchanged. */
  lemma {:induction false} WhereKeepsAll(ms: seq<Match>, p: Match -> bool)
    requires forall i :: 0 <= i < |ms| ==> p(ms[i])
    ensures Where(ms, p) == ms
  {
    if |ms| > 0 {
      WhereKeepsAll(ms[1..], p);
    }
  }

  /** The matches the report query returns, built stage by stage as the view does. */
  function Report(ms: seq<Match>, f: Filter): (r: seq<Match>)
    ensures forall x :: multiset(r)[x] == if Selected(f, x) then multiset(ms)[x] else 0
    ensures multiset(r) <= multiset(ms)
    ensures |r| <= |ms|
  {
    ByEnd(ByStart(ByVenue(ByTeam(ms, f), f), f), f)
  }

  /** Restriction on the team, skipped for the `All` sentinel. */
  function ByTeam(ms: seq<Match>, f: Filter): (r: seq<Match>)
    ensures forall x :: multiset(r)[x] == if f.team == All || x.teamId == f.team then multiset(ms)[x] else 0
    ensures |r| <= |ms|
  {
    if f.team != All then Where(ms, (m: Match) => m.teamId == f.team) else ms
  }

  /** Restriction on the venue, skipped for the `All` sentinel. SQL equality with
      NULL is never true, so a match without a venue never passes. */
  function ByVenue(ms: seq<Match>, f: Filter): (r: seq<Match>)
    ensures forall x :: multiset(r)[x] == if f.venue == All || x.venueId == Some(f.venue) then multiset(ms)[x] else 0
    ensures |r| <= |ms|
  {
    if f.venue != All then Where(ms, (m: Match) => m.venueId == Some(f.venue)) else ms
  }

  /** Inclusive lower date bound, applied only when one is given. */
  function ByStart(ms: seq<Match>, f: Filter): (r: seq<Match>)
    ensures forall x :: multiset(r)[x] == if f.start.None? || f.start.value <= x.date then multiset(ms)[x] else 0
    ensures |r| <= |ms|
  {
    if f.start.Some? then Where(ms, (m: Match) => m.date >= f.start.value) else ms
  }

  /** Inclusive upper date bound, applied only when one is given. */
  function ByEnd(ms: seq<Match>, f: Filter): (r: seq<Match>)
    ensures forall x :: multiset(r)[x] == if f.end.None? || x.date <= f.end.value then multiset(ms)[x] else 0
    ensures |r| <= |ms|
  {
    if f.end.Some? then Where(ms, (m: Match) => m.date <= f.end.value) else ms
  }

  /** Reference definition: the four conditions under which a match belongs in a
      report. A NULL venue never equals a concrete venue id. */
  predicate Selected(f: Filter, m: Match)
  {
    && (f.team == All || m.teamId == f.team)
    && (f.venue == All || m.venueId == Some(f.venue))
    && (f.start.None? || f.start.value <= m.date)
    && (f.end.None? || m.date <= f.end.value)
  }

  /** A match is in the report exactly when it is in the store and meets all four conditions. */
  lemma Membership(ms: seq<Match>, f: Filter, x: Match)
    ensures x in Report(ms, f) <==> x in ms && Selected(f, x)
  {
    var r := Report(ms, f);
    assert x in r <==> multiset(r)[x] > 0;
    assert x in ms <==> multiset(ms)[x] > 0;
  }

  /** A report whose multiset of matches is empty is the empty list. */
  lemma EmptyWhenNothingSelected(ms: seq<Match>, f: Filter)
    requires forall i :: 0 <= i < |ms| ==> !Selected(f, ms[i])
    ensures Report(ms, f) == []
  {
    var r := Report(ms, f);
    forall x
      ensures multiset(r)[x] == 0
    {
      if x in ms {
        var i :| 0 <= i < |ms| && ms[i] == x;
      }
    }
    assert multiset(r) == multiset{};
  }

  /** With both bounds present and the start after the end, the report is empty. */
  lemma InvertedRange(ms: seq<Match>, f: Filter)
    requires f.start.Some? && f.end.Some? && f.start.value > f.end.value
    ensures Report(ms, f) == []
  {
    EmptyWhenNothingSelected(ms, f);
  }

  /** A match with no venue is dropped by any concrete venue filter and kept,
      other conditions permitting, when the venue filter is `All`. */
  lemma NullVenue(ms: seq<Match>, f: Filter, x: Match)
    requires x.venueId.None? && x in ms
    ensures f.venue != All ==> x !in Report(ms, f)
    ensures f.venue == All ==>
      (x in Report(ms, f) <==> Selected(Filter(f.team, All, f.start, f.end), x))
  {
    Membership(ms, f, x);
  }

  /** With no restriction at all, the report holds every match of the store. */
  lemma NoRestriction(ms: seq<Match>)
    ensures multiset(Report(ms, Filter(All, All, None, None))) == multiset(ms)
  {
  }

  /** A date range covering every stored match, with both selectors at `All`,
      reports the whole store, in the store's order. */
  lemma CoveringRange(ms: seq<Match>, lo: int, hi: int)
    requires forall i :: 0 <= i < |ms| ==> lo <= ms[i].date <= hi
    ensures Report(ms, Filter(All, All, Some(lo), Some(hi))) == ms
  {
    WhereKeepsAll(ms, (m: Match) => m.date >= lo);
    WhereKeepsAll(ms, (m: Match) => m.date <= hi);
  }

  /** Reordering the store reorders the report and nothing more. */
  lemma ReportPermutation(a: seq<Match>, b: seq<Match>, f: Filter)
    requires multiset(a) == multiset(b)
    ensures multiset(Report(a, f)) == multiset(Report(b, f))
  {
    assert forall x :: multiset(Report(a, f))[x] == multiset(Report(b, f))[x];
  }
}
