/**
 * The values the travel-journal backend stores and returns: the
 * travel-experience record, the payload a caller supplies to create or
 * replace one, and the single error the endpoints report.
 */
module Records {

  const U64_MAX: int := 0xFFFF_FFFF_FFFF_FFFF

  /** Rust's `u64`. */
  type uint64 = x: int | 0 <= x <= U64_MAX

  datatype Option<T> = None | Some(value: T)

  /** The backend's only error; the message text of the source is abstracted to the id it names. */
  datatype Error = NotFound(id: uint64)

  datatype Result<T> = Ok(value: T) | Err(error: Error)

  /** A stored record. `id` is assigned once, at creation. */
  datatype TravelExperience = TravelExperience(
    id: uint64,
    destination: string,
    date: uint64,
    notes: string,
    historicalEvents: seq<string>)

  /** What a caller supplies to create or fully replace a record: everything but the id. */
  datatype TravelExperiencePayload = TravelExperiencePayload(
    destination: string,
    date: uint64,
    notes: string,
    historicalEvents: seq<string>)

  /** The record built from a payload and a freshly allocated id. */
  function FromPayload(id: uint64, item: TravelExperiencePayload): (r: TravelExperience)
    ensures r.id == id
    ensures r.destination == item.destination && r.date == item.date
    ensures r.notes == item.notes && r.historicalEvents == item.historicalEvents
  {
    TravelExperience(id, item.destination, item.date, item.notes, item.historicalEvents)
  }

  /** Ascending-id order, the order in which the store yields its records. */
  predicate IdsAscending(s: seq<TravelExperience>)
  {
    forall i, j :: 0 <= i < j < |s| ==> s[i].id < s[j].id
  }
}
