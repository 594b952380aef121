/**
 * Ordering by date, as the backend does it: a stable `sort_by_key` on
 * `date`, then (for the latest-first query) an in-place `reverse` and a
 * `take(count)`. `SortByDate` and `Reversed` are the specifications; the
 * array methods are the in-place algorithms, proved equal to them.
 */
module DateOrder {
  import opened Records
  import opened Queries

  predicate DatesNonDecreasing(s: seq<TravelExperience>)
  {
    forall i, j :: 0 <= i < j < |s| ==> s[i].date <= s[j].date
  }

  predicate DatesNonIncreasing(s: seq<TravelExperience>)
  {
    forall i, j :: 0 <= i < j < |s| ==> s[i].date >= s[j].date
  }

  /** Records with equal dates appear in ascending-id order. */
  predicate TiesInAscendingId(s: seq<TravelExperience>)
  {
    forall i, j :: 0 <= i < j < |s| && s[i].date == s[j].date ==> s[i].id < s[j].id
  }

  /** Records with equal dates appear in descending-id order. */
  predicate TiesInDescendingId(s: seq<TravelExperience>)
  {
    forall i, j :: 0 <= i < j < |s| && s[i].date == s[j].date ==> s[i].id > s[j].id
  }

  /**
   * One step of a stable insertion sort: `x` goes after every record of `t`
   * whose date is not later than its own.
   */
  function InsertByDate(t: seq<TravelExperience>, x: TravelExperience): (r: seq<TravelExperience>)
    ensures |r| == |t| + 1
  {
    if t == [] || t[|t| - 1].date <= x.date then t + [x]
    else InsertByDate(t[..|t| - 1], x) + [t[|t| - 1]]
  }

  lemma {:induction false} InsertByDatePermutes(t: seq<TravelExperience>, x: TravelExperience)
    ensures multiset(InsertByDate(t, x)) == multiset(t) + multiset{x}
  {
    if !(t == [] || t[|t| - 1].date <= x.date) {
      assert t == t[..|t| - 1] + [t[|t| - 1]];
      InsertByDatePermutes(t[..|t| - 1], x);
    }
  }

  lemma {:induction false} InsertByDateKeepsSorted(t: seq<TravelExperience>, x: TravelExperience)
    requires DatesNonDecreasing(t)
    ensures DatesNonDecreasing(InsertByDate(t, x))
  {
    if !(t == [] || t[|t| - 1].date <= x.date) {
      var init, last := t[..|t| - 1], t[|t| - 1];
      assert t == init + [last];
      InsertByDateKeepsSorted(init, x);
      InsertByDatePermutes(init, x);
      LaterLastKeepsOrder(init, last, x, InsertByDate(init, x));
    }
  }

  /** The record that stops the insertion scan stays after everything inserted before it. */
  lemma LaterLastKeepsOrder(init: seq<TravelExperience>, last: TravelExperience, x: TravelExperience,
                            rest: seq<TravelExperience>)
    requires DatesNonDecreasing(init + [last]) && DatesNonDecreasing(rest)
    requires x.date < last.date
    requires multiset(rest) == multiset(init) + multiset{x}
    ensures DatesNonDecreasing(rest + [last])
  {
    forall i | 0 <= i < |rest| ensures rest[i].date <= last.date {
      assert rest[i] in multiset(rest);
      if rest[i] != x {
        assert rest[i] in multiset(init);
        var k :| 0 <= k < |init| && init[k] == rest[i];
        assert (init + [last])[k] == rest[i];
        assert (init + [last])[|init|] == last;
      }
    }
  }

  /** Rust's stable `sort_by_key(|e| e.date)`, as an insertion sort. */
  function SortByDate(s: seq<TravelExperience>): (r: seq<TravelExperience>)
    ensures |r| == |s|
  {
    if s == [] then []
    else InsertByDate(SortByDate(s[..|s| - 1]), s[|s| - 1])
  }

  /** The sort is a permutation of its input. */
  lemma {:induction false} SortByDatePermutes(s: seq<TravelExperience>)
    ensures multiset(SortByDate(s)) == multiset(s)
  {
    if s != [] {
      assert s == s[..|s| - 1] + [s[|s| - 1]];
      SortByDatePermutes(s[..|s| - 1]);
      InsertByDatePermutes(SortByDate(s[..|s| - 1]), s[|s| - 1]);
    }
  }

  /** The sort's output is in non-decreasing date order. */
  lemma {:induction false} SortByDateIsSorted(s: seq<TravelExperience>)
    ensures DatesNonDecreasing(SortByDate(s))
  {
    if s != [] {
      SortByDateIsSorted(s[..|s| - 1]);
      InsertByDateKeepsSorted(SortByDate(s[..|s| - 1]), s[|s| - 1]);
    }
  }

  /** Inserting keeps, for each date, the records of that date in order, `x` last among them. */
  lemma {:induction false} InsertByDateKeepsDateGroups(t: seq<TravelExperience>, x: TravelExperience, day: uint64)
    ensures Filter(InsertByDate(t, x), DateIs(day)) == Filter(t, DateIs(day)) + Filter([x], DateIs(day))
  {
    if t == [] || t[|t| - 1].date <= x.date {
      FilterAppend(t, [x], DateIs(day));
    } else {
      var init, last := t[..|t| - 1], t[|t| - 1];
      assert t == init + [last];
      var rest, group := InsertByDate(init, x), DateIs(day);
      assert InsertByDate(t, x) == rest + [last];
      FilterAppend(rest, [last], group);
      InsertByDateKeepsDateGroups(init, x, day);
      FilterAppend(init, [last], group);
      SwapDifferentDates(Filter(init, group), x, last, day);
    }
  }

  /** Two records of different dates never both have date `day`, so their singleton filters commute. */
  lemma SwapDifferentDates(before: seq<TravelExperience>, x: TravelExperience, y: TravelExperience, day: uint64)
    requires x.date != y.date
    ensures before + Filter([x], DateIs(day)) + Filter([y], DateIs(day))
         == before + Filter([y], DateIs(day)) + Filter([x], DateIs(day))
  {
  }

  /**
   * Stability: for every date, the records with that date come out of the
   * sort in the order they went in.
   */
  lemma {:induction false} SortByDateIsStable(s: seq<TravelExperience>, day: uint64)
    ensures Filter(SortByDate(s), DateIs(day)) == Filter(s, DateIs(day))
  {
    if s != [] {
      var init, last := s[..|s| - 1], s[|s| - 1];
      assert s == init + [last];
      SortByDateIsStable(init, day);
      InsertByDateKeepsDateGroups(SortByDate(init), last, day);
      FilterAppend(init, [last], DateIs(day));
    }
  }

  /** Appending a record keeps ties in id order when it outranks every earlier record of its date. */
  lemma TiesAppend(s: seq<TravelExperience>, z: TravelExperience)
    requires TiesInAscendingId(s)
    requires forall i :: 0 <= i < |s| && s[i].date == z.date ==> s[i].id < z.id
    ensures TiesInAscendingId(s + [z])
  {
  }

  lemma {:induction false} InsertByDateKeepsTies(t: seq<TravelExperience>, x: TravelExperience)
    requires TiesInAscendingId(t)
    requires forall y :: y in t ==> y.id < x.id
    ensures TiesInAscendingId(InsertByDate(t, x))
  {
    if t == [] || t[|t| - 1].date <= x.date {
      TiesAppend(t, x);
    } else {
      var init, last := t[..|t| - 1], t[|t| - 1];
      assert t == init + [last];
      InsertByDateKeepsTies(init, x);
      var rest := InsertByDate(init, x);
      InsertByDatePermutes(init, x);
      forall i | 0 <= i < |rest| && rest[i].date == last.date
        ensures rest[i].id < last.id
      {
        assert rest[i] in multiset(rest);
        assert rest[i] in multiset(init);
        var k :| 0 <= k < |init| && init[k] == rest[i];
        assert t[k] == rest[i] && t[|init|] == last;
      }
      TiesAppend(rest, last);
    }
  }

  /** Ties are broken by the input order: ascending ids in, ascending ids among equal dates out. */
  lemma {:induction false} SortByDateBreaksTiesById(s: seq<TravelExperience>)
    requires IdsAscending(s)
    ensures TiesInAscendingId(SortByDate(s))
  {
    if s != [] {
      var init, last := s[..|s| - 1], s[|s| - 1];
      SortByDateBreaksTiesById(init);
      SortByDatePermutes(init);
      forall y | y in SortByDate(init) ensures y.id < last.id {
        assert y in multiset(SortByDate(init));
        var k :| 0 <= k < |init| && init[k] == y;
        assert s[k] == y;
      }
      InsertByDateKeepsTies(SortByDate(init), last);
    }
  }

  /** `reverse`. */
  function Reversed(s: seq<TravelExperience>): (r: seq<TravelExperience>)
    ensures |r| == |s|
  {
    if s == [] then []
    else [s[|s| - 1]] + Reversed(s[..|s| - 1])
  }

  lemma {:induction false} ReversedPermutes(s: seq<TravelExperience>)
    ensures multiset(Reversed(s)) == multiset(s)
  {
    if s != [] {
      assert s == s[..|s| - 1] + [s[|s| - 1]];
      ReversedPermutes(s[..|s| - 1]);
    }
  }

  lemma {:induction false} ReversedAt(s: seq<TravelExperience>, k: int)
    requires 0 <= k < |s|
    ensures Reversed(s)[k] == s[|s| - 1 - k]
  {
    if k > 0 {
      ReversedAt(s[..|s| - 1], k - 1);
    }
  }

  /** The most recent `count` records: sort by date, reverse, take `count`. */
  function Latest(s: seq<TravelExperience>, count: nat): (r: seq<TravelExperience>)
    ensures |r| == if count < |s| then count else |s|
  {
    var t := Reversed(SortByDate(s));
    t[..if count < |t| then count else |t|]
  }

  /** Reversal turns date order around, and with it the order among ties. */
  lemma ReversedFlipsOrder(u: seq<TravelExperience>)
    ensures DatesNonDecreasing(u) ==> DatesNonIncreasing(Reversed(u))
    ensures TiesInAscendingId(u) ==> TiesInDescendingId(Reversed(u))
  {
    forall i | 0 <= i < |u| ensures Reversed(u)[i] == u[|u| - 1 - i] {
      ReversedAt(u, i);
    }
  }

  /** What `Latest` gives: as many records as asked for (or all of them), latest date first. */
  lemma LatestIsTopByDate(s: seq<TravelExperience>, count: nat)
    ensures |Latest(s, count)| == if count < |s| then count else |s|
    ensures DatesNonIncreasing(Latest(s, count))
    ensures multiset(Latest(s, count)) <= multiset(s)
  {
    var t := Reversed(SortByDate(s));
    var m := if count < |t| then count else |t|;
    SortByDateIsSorted(s);
    ReversedFlipsOrder(SortByDate(s));
    assert multiset(t) == multiset(s) by {
      SortByDatePermutes(s);
      ReversedPermutes(SortByDate(s));
    }
    assert t == t[..m] + t[m..];
  }

  /** In a sequence latest-first, nothing after position `m` is later than anything before it. */
  lemma PrefixIsLatest(t: seq<TravelExperience>, m: int)
    requires DatesNonIncreasing(t) && 0 <= m <= |t|
    ensures forall y, i :: y in multiset(t[m..]) && 0 <= i < m ==> y.date <= t[i].date
  {
  }

  /** `Latest` keeps a prefix of the latest-first order and leaves out the rest. */
  lemma LatestSplits(s: seq<TravelExperience>, count: nat, m: int)
    requires m == if count < |s| then count else |s|
    ensures Latest(s, count) == Reversed(SortByDate(s))[..m]
    ensures multiset(s) - multiset(Latest(s, count)) == multiset(Reversed(SortByDate(s))[m..])
  {
    var t := Reversed(SortByDate(s));
    assert multiset(t) == multiset(s) by {
      SortByDatePermutes(s);
      ReversedPermutes(SortByDate(s));
    }
    SplitDifference(t, m);
  }

  lemma SplitDifference(t: seq<TravelExperience>, m: int)
    requires 0 <= m <= |t|
    ensures multiset(t) - multiset(t[..m]) == multiset(t[m..])
  {
    assert t == t[..m] + t[m..];
  }

  /** No record that `Latest` leaves out is later than one it keeps. */
  lemma LatestLeavesOutNoLater(s: seq<TravelExperience>, count: nat)
    ensures forall y, i :: y in multiset(s) - multiset(Latest(s, count)) && 0 <= i < |Latest(s, count)|
                           ==> y.date <= Latest(s, count)[i].date
  {
    var t := Reversed(SortByDate(s));
    var m := if count < |s| then count else |s|;
    SortByDateIsSorted(s);
    ReversedFlipsOrder(SortByDate(s));
    LatestSplits(s, count, m);
    PrefixIsLatest(t, m);
  }

  /** Asking for at least as many records as there are gives all of them, latest first. */
  lemma LatestOfAll(s: seq<TravelExperience>, count: nat)
    requires count >= |s|
    ensures Latest(s, count) == Reversed(SortByDate(s))
  {
  }

  /** Reversing the id-ordered ties of the stable sort puts equal dates in descending-id order. */
  lemma LatestBreaksTiesByDescendingId(s: seq<TravelExperience>, count: nat)
    requires IdsAscending(s)
    ensures TiesInDescendingId(Latest(s, count))
  {
    SortByDateBreaksTiesById(s);
    ReversedFlipsOrder(SortByDate(s));
  }

  /**
   * Where `x` lands: after the first `j` records when exactly the records
   * from `j` on are later than it.
   */
  lemma {:induction false} InsertByDateAt(t: seq<TravelExperience>, x: TravelExperience, j: int)
    requires 0 <= j <= |t|
    requires j == 0 || t[j - 1].date <= x.date
    requires forall k :: j <= k < |t| ==> t[k].date > x.date
    ensures InsertByDate(t, x) == t[..j] + [x] + t[j..]
  {
    if j < |t| {
      var init := t[..|t| - 1];
      InsertByDateAt(init, x, j);
      assert init[..j] == t[..j] && init[j..] + [t[|t| - 1]] == t[j..];
    }
  }

  /** Moves `a[i]` down into the date-sorted prefix `a[..i]`, shifting later-dated records up by one. */
  method InsertIntoPrefix(a: array<TravelExperience>, i: int)
    requires 0 <= i < a.Length
    modifies a
    ensures a[..i + 1] == InsertByDate(old(a[..i]), old(a[i]))
    ensures forall k :: i < k < a.Length ==> a[k] == old(a[k])
  {
    ghost var done := a[..i];
    var x := a[i];
    var j := i;
    while j > 0 && a[j - 1].date > x.date
      invariant 0 <= j <= i
      invariant forall k :: 0 <= k < j ==> a[k] == done[k]
      invariant forall k :: j < k <= i ==> a[k] == done[k - 1]
      invariant forall k :: i < k < a.Length ==> a[k] == old(a[k])
      invariant forall k :: j <= k < i ==> done[k].date > x.date
    {
      a[j] := a[j - 1];
      j := j - 1;
    }
    a[j] := x;
    ShiftedIsInserted(done, x, j, a[..i + 1]);
  }

  /** `t` is `done` with `x` placed at its stop position `j` and the later records shifted up. */
  lemma ShiftedIsInserted(done: seq<TravelExperience>, x: TravelExperience, j: int, t: seq<TravelExperience>)
    requires 0 <= j <= |done| && |t| == |done| + 1
    requires j == 0 || done[j - 1].date <= x.date
    requires forall k :: j <= k < |done| ==> done[k].date > x.date
    requires forall k :: 0 <= k < j ==> t[k] == done[k]
    requires t[j] == x
    requires forall k :: j < k < |t| ==> t[k] == done[k - 1]
    ensures t == InsertByDate(done, x)
  {
    InsertByDateAt(done, x, j);
    ghost var inserted := done[..j] + [x] + done[j..];
    forall k | 0 <= k < |t| ensures t[k] == inserted[k] {
      if k < j {
        assert inserted[k] == done[k];
      } else if j < k {
        assert inserted[k] == done[k - 1];
      }
    }
  }

  /** Sorting one more record of `s` inserts it into the sorted shorter prefix. */
  lemma SortPrefixStep(s: seq<TravelExperience>, i: int)
    requires 0 <= i < |s|
    ensures SortByDate(s[..i + 1]) == InsertByDate(SortByDate(s[..i]), s[i])
  {
    assert s[..i + 1][..i] == s[..i];
  }

  /** The in-place insertion sort performed by `sort_by_key`. */
  method InsertionSortByDate(a: array<TravelExperience>)
    modifies a
    ensures a[..] == SortByDate(old(a[..]))
  {
    ghost var input := a[..];
    var i := 0;
    while i < a.Length
      invariant 0 <= i <= a.Length
      invariant a[..i] == SortByDate(input[..i])
      invariant forall k :: i <= k < a.Length ==> a[k] == input[k]
    {
      InsertIntoPrefix(a, i);
      SortPrefixStep(input, i);
      i := i + 1;
    }
    assert a[..] == a[..a.Length];
    assert input == input[..a.Length];
  }

  /** A sequence holding `s`'s records mirrored position by position is `Reversed(s)`. */
  lemma MirroredIsReversed(s: seq<TravelExperience>, t: seq<TravelExperience>)
    requires |t| == |s|
    requires forall k :: 0 <= k < |t| ==> t[k] == s[|s| - 1 - k]
    ensures t == Reversed(s)
  {
    forall k | 0 <= k < |t| ensures t[k] == Reversed(s)[k] {
      ReversedAt(s, k);
    }
  }

  /** The in-place `reverse`. */
  method ReverseInPlace(a: array<TravelExperience>)
    modifies a
    ensures a[..] == Reversed(old(a[..]))
  {
    ghost var input := a[..];
    var lo, hi := 0, a.Length;
    while lo + 1 < hi
      invariant 0 <= lo <= hi <= a.Length && lo + hi == a.Length
      invariant forall k :: 0 <= k < lo ==> a[k] == input[a.Length - 1 - k]
      invariant forall k :: hi <= k < a.Length ==> a[k] == input[a.Length - 1 - k]
      invariant forall k :: lo <= k < hi ==> a[k] == input[k]
    {
      a[lo], a[hi - 1] := a[hi - 1], a[lo];
      lo, hi := lo + 1, hi - 1;
    }
    assert forall k :: 0 <= k < a.Length ==> a[..][k] == input[a.Length - 1 - k] by {
      assert lo < hi ==> a.Length - 1 - lo == lo;
    }
    MirroredIsReversed(input, a[..]);
  }

  /** The tail of `get_latest_travel_experiences`: sort in place, reverse in place, take `count`. */
  method SortReverseTake(a: array<TravelExperience>, count: nat) returns (r: seq<TravelExperience>)
    modifies a
    ensures r == Latest(old(a[..]), count)
  {
    InsertionSortByDate(a);
    ReverseInPlace(a);
    r := a[..if count < a.Length then count else a.Length];
  }
}
