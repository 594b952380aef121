/**
 * The read-only query pipelines of the backend (`iter().filter(..)`,
 * `.count()`), over the sequence of records the store yields.
 * A filter predicate of the source is named by a `Criterion`.
 */
module Queries {
  import opened Records

  datatype Criterion =
    | DateAtMost(bound: uint64)      // `experience.date <= date`
    | DestinationIs(name: string)    // `experience.destination == destination`
    | DateIs(day: uint64)            // not a filter of the backend: names one date's records, to state sort stability

  /** The filter closures' test, for each criterion. */
  predicate Matches(c: Criterion, x: TravelExperience): (b: bool)
    ensures c.DateAtMost? ==> (b <==> x.date <= c.bound)
    ensures c.DestinationIs? ==> (b <==> x.destination == c.name)
    ensures c.DateIs? ==> (b <==> x.date == c.day)
  {
    match c
    case DateAtMost(bound) => x.date <= bound
    case DestinationIs(name) => x.destination == name
    case DateIs(day) => x.date == day
  }

  /** `filter`: the matching records, in the order they come. */
  function Filter(s: seq<TravelExperience>, c: Criterion): (r: seq<TravelExperience>)
    ensures forall x :: x in r <==> x in s && Matches(c, x)
    ensures |r| <= |s|
    ensures IdsAscending(s) ==> IdsAscending(r)
  {
    if s == [] then []
    else
      var rest := Filter(s[1..], c);
      LaterIdsAbove(s);
      (if Matches(c, s[0]) then [s[0]] else []) + rest
  }

  /** In ascending-id order the first record has the least id. */
  lemma LaterIdsAbove(s: seq<TravelExperience>)
    requires s != []
    ensures IdsAscending(s) ==> forall x :: x in s[1..] ==> s[0].id < x.id
  {
  }

  /** `filter(..).count()`: counts without building the filtered sequence. */
  function CountWhere(s: seq<TravelExperience>, c: Criterion): (n: nat)
    ensures n <= |s|
  {
    if s == [] then 0
    else (if Matches(c, s[0]) then 1 else 0) + CountWhere(s[1..], c)
  }

  /** Counting agrees with the length of the filtered sequence. */
  lemma {:induction false} CountIsFilterLength(s: seq<TravelExperience>, c: Criterion)
    ensures CountWhere(s, c) == |Filter(s, c)|
  {
    if s != [] {
      CountIsFilterLength(s[1..], c);
    }
  }

  /** Filtering a concatenation filters each part. */
  lemma {:induction false} FilterAppend(a: seq<TravelExperience>, b: seq<TravelExperience>, c: Criterion)
    ensures Filter(a + b, c) == Filter(a, c) + Filter(b, c)
  {
    if a != [] {
      assert (a + b)[0] == a[0];
      assert (a + b)[1..] == a[1..] + b;
      FilterAppend(a[1..], b, c);
      var head := if Matches(c, a[0]) then [a[0]] else [];
      assert Filter(a, c) == head + Filter(a[1..], c);
      assert Filter(a + b, c) == head + Filter(a[1..] + b, c);
    } else {
      assert a + b == b;
    }
  }

  lemma EmptyIfNoMembers(s: seq<TravelExperience>)
    ensures (forall x :: x !in s) ==> s == []
  {
    if s != [] {
      assert s[0] in s;
    }
  }

  /**
   * A sequence in ascending-id order is determined by which records it holds;
   * so "the records satisfying P, in ascending-id order" names one sequence.
   */
  lemma {:induction false} AscendingDeterminedByMembers(a: seq<TravelExperience>, b: seq<TravelExperience>)
    requires IdsAscending(a) && IdsAscending(b)
    requires forall x :: x in a <==> x in b
    ensures a == b
  {
    if a != [] && b != [] {
      assert b[0] in a && a[0] in b;
      assert a[0] == b[0];
      assert forall x :: x in a[1..] <==> x in a && x != a[0];
      assert forall x :: x in b[1..] <==> x in b && x != b[0];
      AscendingDeterminedByMembers(a[1..], b[1..]);
    } else {
      EmptyIfNoMembers(a);
      EmptyIfNoMembers(b);
    }
  }
}
