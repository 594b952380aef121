# Memory-lane travel journal backend, modelled in Dafny

This project models the backend of a travel-journal service. The backend keeps
records of travel experiences: a destination, a date, free-text notes and a
list of historical events. It holds two pieces of persistent state:

- a `u64` id counter;
- an ordered map from id to record.

The model covers the endpoints that read and change that state:

- **Create, read, update, delete:** create a record, get one, replace its
  fields, change only its date, and delete it.
- **Queries:** list all records, count them, filter by a date bound or by
  destination, count the records up to a date, sort by date, and return the
  latest `n`.

The files:

- `records.dfy` (module `Records`): the record, the payload a caller
  supplies, `u64`, and the `NotFound` error.
- `stable_map.dfy` (module `StableMap`): the ordered map, as an association
  list with strictly ascending keys. Its abstract view is `ToMap`. Iterating
  it gives the values in ascending-key order (`Values`).
- `queries.dfy` (module `Queries`): the `filter` and `count` pipelines.
  Each predicate from the source is named by a `Criterion` value:
  `DateAtMost` and `DestinationIs`. A third value, `DateIs`, is not a
  filter the backend offers. It selects one date's records, so that sort
  stability can be stated as "filtering by any date commutes with
  sorting".
- `date_order.dfy` (module `DateOrder`): sorting, reversing and `take`.
  - `SortByDate` and `Reversed` are functional specifications.
  - `InsertionSortByDate` and `ReverseInPlace` are in-place array algorithms,
    proved equal to those specifications.
  - Ordering, permutation, stability and "latest" properties are proved
    about the specifications.
- `journal.dfy` (module `Journal`): class `TravelJournal`.
  - Fields: the counter, the entries, and a ghost set of every id ever
    issued.
  - `Valid()` is the store invariant, and every endpoint preserves it.

**Ids start at 0.** `set(current_value + 1)` reads as if the new id were
`c + 1`, where `c` is the counter's value, but the id the create endpoint uses is
the value returned by the counter cell's `set`. In the stable-structures
library, `set` returns the value it replaced, which is `c`. So the new
record's id is the counter's old value: the first id is 0, then 1, 2, …,
and the counter always holds the next id to hand out. The model does the
same: `AddTravelExperience` returns id `old(counter)` and leaves
`counter == old(counter) + 1`. Ids are still strictly increasing and never
reused.

## Model

| member | source | states |
|---|---|---|
| Records.FromPayload | src/backend/src/lib.rs:92-98 | The new record carries the given id and copies all four payload fields unchanged. |
| StableMap.Values | src/backend/src/lib.rs:172-177 | The scan `iter().map(clone)` yields one value per entry, in entry (ascending-key) order. Its relation to the map is `Journal.ScanIsStore` and `Journal.ScanIsAscending`. |
| Queries.Matches | src/backend/src/lib.rs:147-203 | The closures at lines 147, 192 and 203: `date <= bound` for the date filters, exact string equality for the destination search. |
| StableMap.ToMap | src/backend/src/lib.rs:57-60 | The abstract map's key set is exactly the keys found in the entry list. |
| StableMap.Get | src/backend/src/lib.rs:80-82 | `get` finds a value exactly when the key is in the map, and the value found is the one bound to it. |
| StableMap.Insert | src/backend/src/lib.rs:64-68 | `insert` is an upsert: the new map is the old one with `k` bound to `v` and every other key unchanged. |
| StableMap.InsertKeepsAscending | src/backend/src/lib.rs:64-68 | Upsert keeps the keys strictly ascending, so iteration order stays ascending by key. |
| StableMap.Remove | src/backend/src/lib.rs:125 | `remove` leaves the old map minus key `k`, whether or not `k` was present. |
| StableMap.RemoveKeepsAscending | src/backend/src/lib.rs:125 | Removal keeps the keys strictly ascending. |
| StableMap.RemoveAbsent | src/backend/src/lib.rs:125-133 | Removing an absent key leaves the store exactly as it was. |
| StableMap.SizeIsMapSize | src/backend/src/lib.rs:182-184 | `len()` is the number of distinct keys in the map. |
| StableMap.EntryIsBinding | src/backend/src/lib.rs:172-177 | Every entry the scan visits is the map's binding for its key. |
| Queries.Filter | src/backend/src/lib.rs:142-151 | `filter` keeps exactly the records that match the criterion, and no others. It never grows the input, and it keeps ascending-id order. |
| Queries.CountWhere | src/backend/src/lib.rs:187-195 | `filter(..).count()` is at most the number of records scanned. |
| Queries.CountIsFilterLength | src/backend/src/lib.rs:187-195 | The count of matching records equals the length of the filtered list. |
| Queries.FilterAppend | src/backend/src/lib.rs:146-149 | Filtering a concatenation gives the concatenation of the filtered parts (filtering works record by record, in order). |
| Queries.AscendingDeterminedByMembers | src/backend/src/lib.rs:142-151 | Two ascending-id lists with the same members are equal. So "these records, in ascending-id order" fixes a query's result completely. |
| DateOrder.InsertByDate | src/backend/src/lib.rs:218 | One stable insertion step. It adds one element, and `InsertByDatePermutes`, `InsertByDateKeepsSorted` and `InsertByDateAt` say which element and where. |
| DateOrder.SortByDate | src/backend/src/lib.rs:218 | `sort_by_key(date)`: it keeps the length, and `SortByDatePermutes`, `SortByDateIsSorted`, `SortByDateIsStable` and `SortByDateBreaksTiesById` carry its properties. |
| DateOrder.Reversed | src/backend/src/lib.rs:233 | `reverse`: it keeps the length, and `ReversedAt` and `ReversedPermutes` carry its properties. |
| DateOrder.Latest | src/backend/src/lib.rs:232-234 | Sort, reverse, `take(count)`: the result has `min(count, len)` records. `LatestIsTopByDate`, `LatestLeavesOutNoLater`, `LatestOfAll` and `LatestBreaksTiesByDescendingId` carry its other properties. |
| DateOrder.InsertByDatePermutes | src/backend/src/lib.rs:218 | One insertion step adds exactly the inserted record to the multiset. |
| DateOrder.InsertByDateKeepsSorted | src/backend/src/lib.rs:218 | Inserting into a date-sorted list keeps it date-sorted. |
| DateOrder.SortByDatePermutes | src/backend/src/lib.rs:218 | `sort_by_key(date)` returns a permutation of its input. |
| DateOrder.SortByDateIsSorted | src/backend/src/lib.rs:218 | `sort_by_key(date)` returns dates in non-decreasing order. |
| DateOrder.SortByDateIsStable | src/backend/src/lib.rs:218 | The sort is stable: for every date, the records with that date come out in the order they went in. |
| DateOrder.SortByDateBreaksTiesById | src/backend/src/lib.rs:212-218 | Sorting an ascending-id scan puts records with equal dates in ascending-id order. |
| DateOrder.ReversedPermutes | src/backend/src/lib.rs:233 | `reverse` returns a permutation of its input. |
| DateOrder.ReversedAt | src/backend/src/lib.rs:233 | Position `k` of the reversed list holds the record at mirrored position `len-1-k`. |
| DateOrder.LatestIsTopByDate | src/backend/src/lib.rs:232-234 | The latest-`count` list has `min(count, len)` records, latest date first, all drawn from the input. |
| DateOrder.LatestLeavesOutNoLater | src/backend/src/lib.rs:232-234 | No record left out of the latest-`count` list has a later date than a record kept in it. |
| DateOrder.LatestOfAll | src/backend/src/lib.rs:232-234 | Asking for at least as many records as exist returns all of them: the sorted list, reversed. |
| DateOrder.LatestBreaksTiesByDescendingId | src/backend/src/lib.rs:226-234 | In the latest list, records with equal dates come in descending-id order. |
| DateOrder.InsertIntoPrefix | src/backend/src/lib.rs:218 | One pass of the in-place insertion: the first `i+1` slots become the date-sorted prefix with `a[i]` inserted stably, and later slots are untouched. |
| DateOrder.InsertionSortByDate | src/backend/src/lib.rs:218 | The in-place sort leaves the array equal to `SortByDate` of its old contents. |
| DateOrder.ReverseInPlace | src/backend/src/lib.rs:233 | The in-place reverse leaves the array equal to `Reversed` of its old contents. |
| DateOrder.SortReverseTake | src/backend/src/lib.rs:232-234 | Sort, reverse and `take(count)` over a buffer yield `Latest` of the buffer's old contents. |
| Journal.ScanIsStore | src/backend/src/lib.rs:171-179 | Under the store invariant the scan lists exactly the stored records. |
| Journal.ScanIsAscending | src/backend/src/lib.rs:171-179 | Under the store invariant the scan comes in strictly ascending-id order. |
| Journal.StoreSizeBelowCounter | src/backend/src/lib.rs:86-99 | The number of stored records never exceeds the counter, so the `u64` total cannot overflow. |
| Journal.Collect | src/backend/src/lib.rs:212-216 | Collecting the scan into a fresh vector copies it element for element. |
| Journal.TravelJournal.constructor | src/backend/src/lib.rs:52-60 | Both cells start out empty: the counter is 0, there are no records, and the invariant holds. |
| Journal.TravelJournal.DoInsert | src/backend/src/lib.rs:64-68 | The record is upserted under its own id, the rest of the map is unchanged, and key order is kept. |
| Journal.TravelJournal.Lookup | src/backend/src/lib.rs:80-82 | Returns a record exactly when the id is stored. The record returned is the stored one and carries that id. |
| Journal.TravelJournal.GetTravelExperience | src/backend/src/lib.rs:71-78 | `Ok` exactly when the id is stored, with the stored record carrying that id. Otherwise `NotFound` for that id. |
| Journal.TravelJournal.AddTravelExperience | src/backend/src/lib.rs:85-101 | The new id is the old counter value, which was never issued before, so ids are not reused even after deletes. The counter goes up by exactly 1. The record is built from the payload, is added without touching other records, and is then what `get` returns for its id. The invariant is preserved. |
| Journal.TravelJournal.UpdateTravelExperience | src/backend/src/lib.rs:104-121 | On a stored id, all four payload fields are replaced, the id is kept, and no other record changes. On a missing id, `NotFound` and the store is unchanged. The counter is never touched. |
| Journal.TravelJournal.UpdateTravelExperienceDate | src/backend/src/lib.rs:154-168 | On a stored id, only the date changes and no other record changes. On a missing id, `NotFound` and the store is unchanged. |
| Journal.TravelJournal.DeleteTravelExperience | src/backend/src/lib.rs:124-134 | On a stored id, returns the removed record and removes only that key. On a missing id, `NotFound` and the store is unchanged. Either way, `get` afterwards reports `NotFound`, and the counter is untouched. |
| Journal.TravelJournal.AllTravelExperiences | src/backend/src/lib.rs:171-179 | Exactly the stored records, one per stored id, in ascending-id order. |
| Journal.TravelJournal.TotalTravelExperiences | src/backend/src/lib.rs:182-184 | Equals the length of the all-records list, and is bounded by the counter. |
| Journal.TravelJournal.TravelExperiencesBeforeDate | src/backend/src/lib.rs:142-151 | Exactly the stored records dated on or before `date`, in ascending-id order. |
| Journal.TravelJournal.TravelExperiencesCountBeforeDate | src/backend/src/lib.rs:187-195 | Equals the length of the before-date list. |
| Journal.TravelJournal.SearchTravelExperiencesByDestination | src/backend/src/lib.rs:198-207 | Exactly the stored records whose destination equals the argument (exact string equality), in ascending-id order. |
| Journal.TravelJournal.SortedTravelExperiencesByDate | src/backend/src/lib.rs:210-221 | A permutation of all records with non-decreasing dates. It is stable: per date, scan order is kept, so ties are in ascending-id order. |
| Journal.TravelJournal.LatestTravelExperiences | src/backend/src/lib.rs:224-236 | Sort, then reverse, then take `count`. The result has `min(count, total)` records, latest first, none left out later than one kept, and ties in descending-id order. |

## Left out

- Candid encoding and decoding of records (`to_bytes`/`from_bytes`) and the 2048-byte `MAX_SIZE` bound. The encoding is a foreign library, so the model stores records as values and never fails an insert for size.
- The memory manager, virtual-memory regions and `thread_local!`/`RefCell` plumbing. The counter and the map are plain fields of `TravelJournal`.
- The RPC attributes (`query`/`update`) and the Candid interface export. These are interface publication, not behaviour.
- The text of the `NotFound` messages. `NotFound` carries the id it names instead of the formatted string.
- Journal.TravelJournal.AddTravelExperience: requires `counter < U64_MAX`, so `current_value + 1` never overflows `u64` (a panic or a wrap in Rust). Creation past that point is not modelled. The failing `expect` on the counter cell's `set` is likewise not modelled.
- Journal.TravelJournal.TravelExperiencesCountBeforeDate: the `usize` count is modelled as an unbounded `nat`. The backend is built for a 32-bit target, where `usize` holds less than 2^32. The model does not capture `Iterator::count` going past `usize::MAX` (a wrong count or a panic) when more records than that match.
- Journal.TravelJournal.LatestTravelExperiences: `count` is a `usize` in the source and an unbounded `nat` here. `take` treats every count at or above the length alike, so nothing depends on the width.
- Concurrency, atomicity across calls and durability across upgrades. The canister runs one call at a time, and each modelled method is one such call.
- The B-tree layout of the stable map. It is modelled as a sorted association list with the same observable behaviour: point lookup, upsert, removal, and iteration in ascending key order.
