/** Column totals over a list of matches: the `sum(match.<column> for match in report_data)`
    expressions of the report view (app.py). */
module Totals {
  import opened Matches

  /** The sum of one column over `ms`: the reference definition that the loop
      in `SumTotals` and the lemmas below are measured against. */
  function Total(ms: seq<Match>, fld: Field): int
  {
    if |ms| == 0 then 0 else Value(ms[0], fld) + Total(ms[1..], fld)
  }

  /** Totals distribute over concatenation. */
  lemma {:induction false} TotalConcat(a: seq<Match>, b: seq<Match>, fld: Field)
    ensures Total(a + b, fld) == Total(a, fld) + Total(b, fld)
  {
    if |a| == 0 {
      assert a + b == b;
    } else {
      assert (a + b)[1..] == a[1..] + b;
      TotalConcat(a[1..], b, fld);
    }
  }

  /** Removing the element at index `i` removes exactly its value from the total. */
  lemma TotalRemove(ms: seq<Match>, i: int, fld: Field)
    requires 0 <= i < |ms|
    ensures Total(ms, fld) == Value(ms[i], fld) + Total(ms[..i] + ms[i+1..], fld)
  {
    assert ms == ms[..i] + ([ms[i]] + ms[i+1..]);
    TotalConcat(ms[..i], [ms[i]] + ms[i+1..], fld);
    TotalConcat([ms[i]], ms[i+1..], fld);
    TotalConcat(ms[..i], ms[i+1..], fld);
  }

  /** A total depends only on the multiset of matches, not on their order:
      the store returns matches in no guaranteed order. */
  lemma {:induction false} TotalPermutation(a: seq<Match>, b: seq<Match>, fld: Field)
    requires multiset(a) == multiset(b)
    ensures Total(a, fld) == Total(b, fld)
    decreases |a|
  {
    if |a| == 0 {
      assert |b| == |multiset(b)| == 0;
    } else {
      var x := a[0];
      var i := IndexOf(b, x);
      var a', b' := a[1..], b[..i] + b[i+1..];
      MultisetRemove(a, 0);
      MultisetRemove(b, i);
      assert a[..0] + a[1..] == a';
      TotalPermutation(a', b', fld);
      TotalRemove(b, i, fld);
    }
  }

  lemma IndexOf(s: seq<Match>, x: Match) returns (i: int)
    requires x in multiset(s)
    ensures 0 <= i < |s| && s[i] == x
  {
    assert x in s;
    i :| 0 <= i < |s| && s[i] == x;
  }

  lemma MultisetRemove(s: seq<Match>, i: int)
    requires 0 <= i < |s|
    ensures multiset(s[..i] + s[i+1..]) == multiset(s) - multiset{s[i]}
  {
    assert s == s[..i] + [s[i]] + s[i+1..];
  }

  /** A lower bound on every value gives a lower bound on the total. */
  lemma {:induction false} TotalAtLeast(ms: seq<Match>, fld: Field, lo: int)
    requires forall i :: 0 <= i < |ms| ==> lo <= Value(ms[i], fld)
    ensures lo * |ms| <= Total(ms, fld)
  {
    if |ms| > 0 {
      TotalAtLeast(ms[1..], fld, lo);
      assert lo * |ms| == lo + lo * |ms[1..]|;
    }
  }

  /** An upper bound on every value gives an upper bound on the total. */
  lemma {:induction false} TotalAtMost(ms: seq<Match>, fld: Field, hi: int)
    requires forall i :: 0 <= i < |ms| ==> Value(ms[i], fld) <= hi
    ensures Total(ms, fld) <= hi * |ms|
  {
    if |ms| > 0 {
      TotalAtMost(ms[1..], fld, hi);
      assert hi * |ms| == hi + hi * |ms[1..]|;
    }
  }

  /** A column that is pointwise no larger than another has no larger total. */
  lemma {:induction false} TotalDominated(ms: seq<Match>, small: Field, large: Field)
    requires forall i :: 0 <= i < |ms| ==> Value(ms[i], small) <= Value(ms[i], large)
    ensures Total(ms, small) <= Total(ms, large)
  {
    if |ms| > 0 {
      TotalDominated(ms[1..], small, large);
    }
  }

  /** The three column sums the report view takes with three separate `sum`
      passes, merged here into one front-to-back pass over the list. */
  method SumTotals(ms: seq<Match>) returns (duration: int, invited: int, accepted: int)
    ensures duration == Total(ms, Duration)
    ensures invited == Total(ms, Invited)
    ensures accepted == Total(ms, Accepted)
  {
    duration, invited, accepted := 0, 0, 0;
    var i := 0;
    while i < |ms|
      invariant 0 <= i <= |ms|
      invariant duration == Total(ms[..i], Duration)
      invariant invited == Total(ms[..i], Invited)
      invariant accepted == Total(ms[..i], Accepted)
    {
      assert ms[..i+1] == ms[..i] + [ms[i]];
      TotalConcat(ms[..i], [ms[i]], Duration);
      TotalConcat(ms[..i], [ms[i]], Invited);
      TotalConcat(ms[..i], [ms[i]], Accepted);
      duration := duration + ms[i].duration;
      invited := invited + ms[i].invitedCount;
      accepted := accepted + ms[i].acceptedCount;
      i := i + 1;
    }
    assert ms[..i] == ms;
  }
}
