/**
 * The backend's state and endpoints: the id counter and the record store,
 * the create/read/update/delete endpoints that change them, and the queries
 * that read them.
 */
module Journal {
  import opened Records
  import opened StableMap
  import opened Queries
  import opened DateOrder

  /**
   * What always holds of the backend's state: the store is a well-formed
   * ordered map, every record is filed under its own id, every stored id has
   * been issued, and every issued id is below the counter.
   */
  ghost predicate StoreInvariant(counter: uint64, issued: set<uint64>, es: seq<Entry<TravelExperience>>)
  {
    && KeysAscending(es)
    && (forall k :: k in ToMap(es) ==> ToMap(es)[k].id == k && k in issued)
    && (forall k :: k in issued ==> k < counter)
  }

  /** Under the invariant the scan's `i`-th record is the one filed under the `i`-th key. */
  lemma ScanAt(counter: uint64, issued: set<uint64>, es: seq<Entry<TravelExperience>>, i: int)
    requires StoreInvariant(counter, issued, es)
    requires 0 <= i < |es|
    ensures es[i].key in ToMap(es) && ToMap(es)[es[i].key] == Values(es)[i]
    ensures Values(es)[i].id == es[i].key
  {
    EntryIsBinding(es, i);
  }

  /** Under the invariant the store's scan lists exactly its records. */
  lemma ScanIsStore(counter: uint64, issued: set<uint64>, es: seq<Entry<TravelExperience>>)
    requires StoreInvariant(counter, issued, es)
    ensures forall x :: x in Values(es) <==> x.id in ToMap(es) && ToMap(es)[x.id] == x
  {
    var vs := Values(es);
    forall x | x in vs ensures x.id in ToMap(es) && ToMap(es)[x.id] == x {
      var i :| 0 <= i < |vs| && vs[i] == x;
      ScanAt(counter, issued, es, i);
    }
    forall x: TravelExperience | x.id in ToMap(es) && ToMap(es)[x.id] == x ensures x in vs {
      KeysComeFromList(es);
      var i :| 0 <= i < |es| && es[i].key == x.id;
      ScanAt(counter, issued, es, i);
      assert vs[i] == x;
    }
  }

  /** Under the invariant the scan comes in ascending-id order. */
  lemma ScanIsAscending(counter: uint64, issued: set<uint64>, es: seq<Entry<TravelExperience>>)
    requires StoreInvariant(counter, issued, es)
    ensures IdsAscending(Values(es))
  {
    forall i | 0 <= i < |es| ensures Values(es)[i].id == es[i].key {
      ScanAt(counter, issued, es, i);
    }
  }

  /** Under the invariant the store holds fewer records than the counter has issued ids. */
  lemma StoreSizeBelowCounter(counter: uint64, issued: set<uint64>, es: seq<Entry<TravelExperience>>)
    requires StoreInvariant(counter, issued, es)
    ensures |es| <= counter
  {
    forall i | 0 <= i < |es| ensures es[i].key < counter {
      EntryIsBinding(es, i);
    }
    FewerEntriesThanBound(es, counter);
  }

  /** `collect` into a fresh `Vec`. */
  method Collect(s: seq<TravelExperience>) returns (a: array<TravelExperience>)
    ensures fresh(a)
    ensures a[..] == s
  {
    a := new TravelExperience[|s|](i requires 0 <= i < |s| => s[i]);
  }

  class TravelJournal {
    /** The next id to hand out (`TRAVEL_EXPERIENCE_ID_COUNTER`). */
    var counter: uint64
    /** The record store (`TRAVEL_EXPERIENCE_STORAGE`), keyed by id. */
    var entries: seq<Entry<TravelExperience>>
    /** Every id handed out so far, whether or not its record still exists. */
    ghost var issued: set<uint64>

    ghost predicate Valid()
      reads this
    {
      StoreInvariant(counter, issued, entries)
    }

    /** The store as an abstract map from id to record. */
    ghost function Map(): map<uint64, TravelExperience>
      reads this
    {
      ToMap(entries)
    }

    /** Both cells start empty: the counter at 0, no records. */
    constructor ()
      ensures Valid()
      ensures counter == 0 && entries == [] && issued == {}
    {
      counter := 0;
      entries := [];
      issued := {};
    }

    /** `do_insert_travel_experience`: upserts a record under its own id. */
    method DoInsert(item: TravelExperience)
      modifies this`entries
      ensures entries == Insert(old(entries), item.id, item)
      ensures Map() == old(Map())[item.id := item]
      ensures old(KeysAscending(entries)) ==> KeysAscending(entries)
    {
      ghost var before := entries;
      entries := Insert(entries, item.id, item);
      if KeysAscending(before) {
        InsertKeepsAscending(before, item.id, item);
      }
    }

    /** `_get_travel_experience`: the stored record with this id, if any. */
    function Lookup(id: uint64): (r: Option<TravelExperience>)
      reads this
      requires Valid()
      ensures r.Some? <==> id in Map()
      ensures r.Some? ==> r.value == Map()[id] && r.value.id == id
    {
      Get(entries, id)
    }

    /** `get_travel_experience`: the record, or `NotFound` naming the id. */
    function GetTravelExperience(id: uint64): (r: Result<TravelExperience>)
      reads this
      requires Valid()
      ensures r.Ok? <==> id in Map()
      ensures r.Ok? ==> r.value == Map()[id] && r.value.id == id
      ensures r.Err? ==> r.error == NotFound(id)
    {
      match Lookup(id)
      case Some(item) => Ok(item)
      case None => Err(NotFound(id))
    }

    /**
     * `add_travel_experience`. The counter cell's `set` hands back the value
     * it replaces, so the new record gets the counter's old value as its id
     * and the counter moves one past it.
     */
    method AddTravelExperience(item: TravelExperiencePayload) returns (r: Option<TravelExperience>)
      requires Valid()
      requires counter < U64_MAX
      modifies this
      ensures Valid()
      ensures counter == old(counter) + 1
      ensures r == Some(FromPayload(old(counter), item))
      ensures r.value.id !in old(issued) && issued == old(issued) + {r.value.id}
      ensures Map() == old(Map())[r.value.id := r.value]
      ensures Lookup(r.value.id) == r
    {
      var id := counter;
      counter := counter + 1;
      issued := issued + {id};
      var experience := FromPayload(id, item);
      DoInsert(experience);
      r := Some(experience);
    }

    /** `update_travel_experience`: replaces every field but the id, or reports `NotFound`. */
    method UpdateTravelExperience(id: uint64, item: TravelExperiencePayload) returns (r: Result<TravelExperience>)
      requires Valid()
      modifies this`entries
      ensures Valid()
      ensures old(id in Map()) ==> r == Ok(FromPayload(id, item)) && Map() == old(Map())[id := r.value]
      ensures old(id !in Map()) ==> r == Err(NotFound(id)) && entries == old(entries)
    {
      match Get(entries, id)
      case Some(experience) =>
        var updated := experience.(destination := item.destination, date := item.date,
                                   notes := item.notes, historicalEvents := item.historicalEvents);
        DoInsert(updated);
        r := Ok(updated);
      case None =>
        r := Err(NotFound(id));
    }

    /** `update_travel_experience_date`: changes only the date, or reports `NotFound`. */
    method UpdateTravelExperienceDate(id: uint64, newDate: uint64) returns (r: Result<TravelExperience>)
      requires Valid()
      modifies this`entries
      ensures Valid()
      ensures old(id in Map()) ==> r == Ok(old(Map())[id].(date := newDate)) && Map() == old(Map())[id := r.value]
      ensures old(id !in Map()) ==> r == Err(NotFound(id)) && entries == old(entries)
    {
      match Get(entries, id)
      case Some(experience) =>
        var updated := experience.(date := newDate);
        DoInsert(updated);
        r := Ok(updated);
      case None =>
        r := Err(NotFound(id));
    }

    /** `delete_travel_experience`: removes and returns the record, or reports `NotFound`. */
    method DeleteTravelExperience(id: uint64) returns (r: Result<TravelExperience>)
      requires Valid()
      modifies this`entries
      ensures Valid()
      ensures old(id in Map()) ==> r == Ok(old(Map())[id]) && Map() == old(Map()) - {id}
      ensures old(id !in Map()) ==> r == Err(NotFound(id)) && entries == old(entries)
      ensures GetTravelExperience(id) == Err(NotFound(id))
    {
      var removed := Get(entries, id);
      RemoveAbsent(entries, id);
      RemoveKeepsAscending(entries, id);
      entries := Remove(entries, id);
      match removed
      case Some(experience) => r := Ok(experience);
      case None => r := Err(NotFound(id));
    }

    /** `get_all_travel_experiences`: every record, in ascending-id order. */
    function AllTravelExperiences(): (r: seq<TravelExperience>)
      reads this
      requires Valid()
      ensures forall x :: x in r <==> x.id in Map() && Map()[x.id] == x
      ensures IdsAscending(r)
      ensures |r| == |Map()|
    {
      ScanIsStore(counter, issued, entries);
      ScanIsAscending(counter, issued, entries);
      SizeIsMapSize(entries);
      Values(entries)
    }

    /** `get_total_travel_experiences`: the number of stored records. */
    function TotalTravelExperiences(): (n: uint64)
      reads this
      requires Valid()
      ensures n == |AllTravelExperiences()|
      ensures n <= counter
    {
      StoreSizeBelowCounter(counter, issued, entries);
      |entries|
    }

    /** `get_travel_experiences_before_date`: the records dated on or before `date`, in ascending-id order. */
    function TravelExperiencesBeforeDate(date: uint64): (r: seq<TravelExperience>)
      reads this
      requires Valid()
      ensures forall x :: x in r <==> x.id in Map() && Map()[x.id] == x && x.date <= date
      ensures IdsAscending(r)
    {
      Filter(AllTravelExperiences(), DateAtMost(date))
    }

    /** `get_travel_experiences_count_before_date`: how many records are dated on or before `date`. */
    function TravelExperiencesCountBeforeDate(date: uint64): (n: nat)
      reads this
      requires Valid()
      ensures n == |TravelExperiencesBeforeDate(date)|
    {
      CountIsFilterLength(AllTravelExperiences(), DateAtMost(date));
      CountWhere(AllTravelExperiences(), DateAtMost(date))
    }

    /** `search_travel_experiences_by_destination`: the records for exactly this destination, in ascending-id order. */
    function SearchTravelExperiencesByDestination(destination: string): (r: seq<TravelExperience>)
      reads this
      requires Valid()
      ensures forall x :: x in r <==> x.id in Map() && Map()[x.id] == x && x.destination == destination
      ensures IdsAscending(r)
    {
      Filter(AllTravelExperiences(), DestinationIs(destination))
    }

    /**
     * `get_sorted_travel_experiences_by_date`: all records, dates
     * non-decreasing, records of equal date in the order the scan gave them,
     * which is ascending-id order.
     */
    method SortedTravelExperiencesByDate() returns (r: seq<TravelExperience>)
      requires Valid()
      ensures r == SortByDate(AllTravelExperiences())
      ensures multiset(r) == multiset(AllTravelExperiences())
      ensures DatesNonDecreasing(r)
      ensures TiesInAscendingId(r)
      ensures forall day :: Filter(r, DateIs(day)) == Filter(AllTravelExperiences(), DateIs(day))
    {
      var all := AllTravelExperiences();
      var experiences := Collect(all);
      InsertionSortByDate(experiences);
      r := experiences[..];
      SortByDatePermutes(all);
      SortByDateIsSorted(all);
      SortByDateBreaksTiesById(all);
      forall day ensures Filter(r, DateIs(day)) == Filter(all, DateIs(day)) {
        SortByDateIsStable(all, day);
      }
    }

    /**
     * `get_latest_travel_experiences`: the `count` latest records (all of
     * them when there are fewer), latest date first, none left out later
     * than one kept, records of equal date in descending-id order.
     */
    method LatestTravelExperiences(count: nat) returns (r: seq<TravelExperience>)
      requires Valid()
      ensures r == Latest(AllTravelExperiences(), count)
      ensures |r| == if count < |AllTravelExperiences()| then count else |AllTravelExperiences()|
      ensures DatesNonIncreasing(r)
      ensures multiset(r) <= multiset(AllTravelExperiences())
      ensures forall y, i :: y in multiset(AllTravelExperiences()) - multiset(r) && 0 <= i < |r| ==> y.date <= r[i].date
      ensures TiesInDescendingId(r)
    {
      var all := AllTravelExperiences();
      var experiences := Collect(all);
      r := SortReverseTake(experiences, count);
      LatestIsTopByDate(all, count);
      LatestLeavesOutNoLater(all, count);
      LatestBreaksTiesByDescendingId(all, count);
    }
  }
}
