/** Nearest-rank percentiles of a list of times. */
module Percentile {
  import opened Wrappers
  import opened MachineWords

  predicate IsSorted(s: seq<real>) { forall i, j :: 0 <= i < j < |s| ==> s[i] <= s[j] }

  /** A sorted list with one more value, after those that are not greater. */
  function Inserted(s: seq<real>, x: real): seq<real> {
    if s == [] then [x]
    else if s[|s| - 1] <= x then s + [x]
    else Inserted(s[..|s| - 1], x) + [s[|s| - 1]]
  }

  function Sorted(values: seq<real>): seq<real> {
    if values == [] then [] else Inserted(Sorted(values[..|values| - 1]), values[|values| - 1])
  }

  /** The 95th percentile. */
  function P95(values: seq<real>): Option<real> {
    if values == [] then None
    else
      SortedIsSorted(values);
      RankBounds(|values|);
      Some(Sorted(values)[Rank(|values|)])
  }

  /** The index in the sorted list, 0.95 n rounded up, less one. */
  function Rank(n: nat): int { CeilDiv(19 * n, 20) - 1 }

  lemma RankBounds(n: nat)
    requires n > 0
    ensures 0 <= Rank(n) < n && 20 * Rank(n) < 19 * n <= 20 * (Rank(n) + 1)
  {
    CeilDivBounds(19 * n, 20);
  }

  lemma {:induction false} InsertedHolds(s: seq<real>, x: real)
    ensures multiset(Inserted(s, x)) == multiset(s) + multiset{x}
  {
    if s != [] {
      assert s == s[..|s| - 1] + [s[|s| - 1]];
      if s[|s| - 1] > x { InsertedHolds(s[..|s| - 1], x); }
    }
  }

  lemma SortedAppend(s: seq<real>, x: real)
    requires IsSorted(s) && forall y :: y in multiset(s) ==> y <= x
    ensures IsSorted(s + [x])
  {
    assert forall i :: 0 <= i < |s| ==> s[i] in multiset(s);
  }

  lemma {:induction false} InsertedIsSorted(s: seq<real>, x: real)
    requires IsSorted(s)
    ensures IsSorted(Inserted(s, x))
  {
    if s != [] {
      var front, last := s[..|s| - 1], s[|s| - 1];
      if last <= x {
        assert forall i :: 0 <= i < |s| ==> s[i] <= last;
      } else {
        InsertedIsSorted(front, x);
        InsertedHolds(front, x);
        assert forall i :: 0 <= i < |front| ==> front[i] == s[i] <= last;
        SortedAppend(Inserted(front, x), last);
      }
    }
  }

  /** Sorting orders the values and neither adds nor drops one. */
  lemma {:induction false} SortedIsSorted(values: seq<real>)
    ensures IsSorted(Sorted(values)) && multiset(Sorted(values)) == multiset(values)
    ensures |Sorted(values)| == |values|
  {
    if values != [] {
      var front := values[..|values| - 1];
      SortedIsSorted(front);
      InsertedIsSorted(Sorted(front), values[|values| - 1]);
      InsertedHolds(Sorted(front), values[|values| - 1]);
      assert values == front + [values[|values| - 1]];
    }
    assert |Sorted(values)| == |multiset(Sorted(values))| && |values| == |multiset(values)|;
  }

  // ---- what the percentile means ----

  function AtMost(values: seq<real>, x: real): nat {
    if values == [] then 0 else AtMost(values[..|values| - 1], x) + (if values[|values| - 1] <= x then 1 else 0)
  }

  function Below(values: seq<real>, x: real): nat {
    if values == [] then 0 else Below(values[..|values| - 1], x) + (if values[|values| - 1] < x then 1 else 0)
  }

  lemma {:induction false} InsertedCounts(s: seq<real>, y: real, x: real)
    ensures AtMost(Inserted(s, y), x) == AtMost(s, x) + (if y <= x then 1 else 0)
    ensures Below(Inserted(s, y), x) == Below(s, x) + (if y < x then 1 else 0)
  {
    if s == [] {
      assert [y][..0] == [];
    } else if s[|s| - 1] <= y {
      assert (s + [y])[..|s|] == s;
    } else {
      var front := Inserted(s[..|s| - 1], y);
      InsertedCounts(s[..|s| - 1], y, x);
      assert (front + [s[|s| - 1]])[..|front|] == front;
    }
  }

  lemma {:induction false} SortedCounts(values: seq<real>, x: real)
    ensures AtMost(Sorted(values), x) == AtMost(values, x) && Below(Sorted(values), x) == Below(values, x)
  {
    if values != [] {
      SortedCounts(values[..|values| - 1], x);
      InsertedCounts(Sorted(values[..|values| - 1]), values[|values| - 1], x);
    }
  }

  lemma {:induction false} CountsAt(s: seq<real>, n: nat, k: nat)
    requires IsSorted(s) && k < |s| && n <= |s|
    ensures AtMost(s[..n], s[k]) >= (if n <= k then n else k + 1) && Below(s[..n], s[k]) <= k
  {
    if n > 0 {
      CountsAt(s, n - 1, k);
      assert s[..n][..n - 1] == s[..n - 1];
      BelowAll(s[..n - 1], s[k]);
    } else {
      assert s[..0] == [];
    }
  }

  lemma {:induction false} BelowAll(s: seq<real>, x: real)
    ensures Below(s, x) <= |s|
  {
    if s != [] { BelowAll(s[..|s| - 1], x); }
  }

  /** At least 95 of 100 values are at most the percentile, and fewer than 95 of 100 are less. */
  lemma P95Splits(values: seq<real>)
    requires values != []
    ensures P95(values).Some? && P95(values).value in values
    ensures 20 * Below(values, P95(values).value) < 19 * |values| <= 20 * AtMost(values, P95(values).value)
  {
    var s, k := Sorted(values), Rank(|values|);
    SortedIsSorted(values);
    RankBounds(|values|);
    CountsAt(s, |s|, k);
    assert s[..|s|] == s && s[k] in multiset(s);
    SortedCounts(values, s[k]);
  }

  // ---- values that are all off by the same ----

  ghost predicate Shifted(values: seq<real>, truth: seq<real>, error: real) {
    |values| == |truth| && forall i :: 0 <= i < |values| ==> values[i] == truth[i] + error
  }

  lemma {:induction false} InsertedShifts(s: seq<real>, t: seq<real>, x: real, y: real, error: real)
    requires Shifted(s, t, error) && x == y + error
    ensures Shifted(Inserted(s, x), Inserted(t, y), error)
  {
    if s != [] { InsertedShifts(s[..|s| - 1], t[..|t| - 1], x, y, error); }
  }

  lemma {:induction false} SortedShifts(values: seq<real>, truth: seq<real>, error: real)
    requires Shifted(values, truth, error)
    ensures Shifted(Sorted(values), Sorted(truth), error)
  {
    if values != [] {
      var n := |values| - 1;
      SortedShifts(values[..n], truth[..n], error);
      InsertedShifts(Sorted(values[..n]), Sorted(truth[..n]), values[n], truth[n], error);
    }
  }

  /** The percentile is off by what every value is off by. */
  lemma P95Shifts(values: seq<real>, truth: seq<real>, error: real)
    requires Shifted(values, truth, error) && values != []
    ensures P95(values).value == P95(truth).value + error
  {
    SortedShifts(values, truth, error);
    SortedIsSorted(values);
    RankBounds(|values|);
  }
}
