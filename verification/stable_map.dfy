/**
 * The ordered map that holds the records (a `StableBTreeMap<u64, _>` in the
 * backend), modelled as an association list kept in strictly ascending key
 * order. Iterating it yields the entries in that order; `ToMap` is the
 * abstract map it represents.
 */
module StableMap {
  import opened Records

  datatype Entry<V> = Entry(key: uint64, value: V)

  /** The map's structural invariant: keys strictly ascending, hence distinct. */
  predicate KeysAscending<V>(es: seq<Entry<V>>)
  {
    forall i, j :: 0 <= i < j < |es| ==> es[i].key < es[j].key
  }

  function Keys<V>(es: seq<Entry<V>>): (r: set<uint64>)
  {
    if es == [] then {} else {es[0].key} + Keys(es[1..])
  }

  /** The abstract map; when a key occurs twice the earlier entry wins, as lookup does. */
  ghost function ToMap<V>(es: seq<Entry<V>>): (m: map<uint64, V>)
    ensures m.Keys == Keys(es)
  {
    if es == [] then map[]
    else
      ToMap(es[1..])[es[0].key := es[0].value]
  }

  /** Point lookup (`get`). */
  function Get<V>(es: seq<Entry<V>>, k: uint64): (r: Option<V>)
    ensures r.Some? <==> k in ToMap(es)
    ensures r.Some? ==> r.value == ToMap(es)[k]
  {
    if es == [] then None
    else if es[0].key == k then Some(es[0].value)
    else Get(es[1..], k)
  }

  /** Upsert (`insert`): a new key goes to its place in key order, an existing key has its value replaced. */
  function Insert<V>(es: seq<Entry<V>>, k: uint64, v: V): (r: seq<Entry<V>>)
    ensures ToMap(r) == ToMap(es)[k := v]
  {
    if es == [] || k < es[0].key then [Entry(k, v)] + es
    else if k == es[0].key then [Entry(k, v)] + es[1..]
    else
      var rest := Insert(es[1..], k, v);
      assert ([es[0]] + rest)[1..] == rest;
      [es[0]] + rest
  }

  /** Upsert keeps the keys strictly ascending. */
  lemma {:induction false} InsertKeepsAscending<V>(es: seq<Entry<V>>, k: uint64, v: V)
    requires KeysAscending(es)
    ensures KeysAscending(Insert(es, k, v))
  {
    if !(es == [] || k < es[0].key) && k != es[0].key {
      var rest := Insert(es[1..], k, v);
      InsertKeepsAscending(es[1..], k, v);
      HeadKeyIsLeast(es);
      KeysContainAll(rest);
      assert forall i :: 0 <= i < |rest| ==> es[0].key < rest[i].key;
    }
  }

  /** Removal (`remove`): deletes the entry for `k`; what it gives back is `Get(es, k)`. */
  function Remove<V>(es: seq<Entry<V>>, k: uint64): (r: seq<Entry<V>>)
    requires KeysAscending(es)
    ensures ToMap(r) == ToMap(es) - {k}
  {
    if es == [] then []
    else if es[0].key == k then
      HeadKeyIsLeast(es);
      es[1..]
    else
      var rest := Remove(es[1..], k);
      calc {
        ToMap([es[0]] + rest);
        { assert ([es[0]] + rest)[1..] == rest; }
        ToMap(rest)[es[0].key := es[0].value];
        (ToMap(es[1..]) - {k})[es[0].key := es[0].value];
        ToMap(es[1..])[es[0].key := es[0].value] - {k};
      }
      [es[0]] + rest
  }

  /** Removal keeps the keys strictly ascending. */
  lemma {:induction false} RemoveKeepsAscending<V>(es: seq<Entry<V>>, k: uint64)
    requires KeysAscending(es)
    ensures KeysAscending(Remove(es, k))
  {
    if es != [] && es[0].key != k {
      var rest := Remove(es[1..], k);
      RemoveKeepsAscending(es[1..], k);
      HeadKeyIsLeast(es);
      KeysContainAll(rest);
      assert forall i :: 0 <= i < |rest| ==> es[0].key < rest[i].key;
    }
  }

  /** Every key found in the list is in `Keys`. */
  lemma {:induction false} KeysContainAll<V>(es: seq<Entry<V>>)
    ensures forall i :: 0 <= i < |es| ==> es[i].key in Keys(es)
  {
    if es != [] {
      KeysContainAll(es[1..]);
      assert forall i :: 0 < i < |es| ==> es[i] == es[1..][i - 1];
    }
  }

  /** Every key in `Keys` is found at some position of the list. */
  lemma {:induction false} KeysComeFromList<V>(es: seq<Entry<V>>)
    ensures forall x :: x in Keys(es) ==> exists i :: 0 <= i < |es| && es[i].key == x
  {
    if es != [] {
      KeysComeFromList(es[1..]);
      assert forall i :: 0 < i < |es| ==> es[i] == es[1..][i - 1];
    }
  }

  /** Under the invariant the first key is below every later one. */
  lemma HeadKeyIsLeast<V>(es: seq<Entry<V>>)
    requires KeysAscending(es) && es != []
    ensures forall x :: x in Keys(es[1..]) ==> es[0].key < x
  {
    KeysComeFromList(es[1..]);
  }

  /** The values in iteration (ascending key) order. */
  function Values<V>(es: seq<Entry<V>>): (r: seq<V>)
    ensures |r| == |es|
    ensures forall i :: 0 <= i < |es| ==> r[i] == es[i].value
  {
    seq(|es|, i requires 0 <= i < |es| => es[i].value)
  }

  /** Under the invariant the list holds exactly one entry per key, so `len` is the map's size. */
  lemma {:induction false} SizeIsMapSize<V>(es: seq<Entry<V>>)
    requires KeysAscending(es)
    ensures |ToMap(es)| == |es|
  {
    if es != [] {
      SizeIsMapSize(es[1..]);
      HeadKeyIsLeast(es);
    }
  }

  /** Under the invariant every entry is the map's binding for its key. */
  lemma {:induction false} EntryIsBinding<V>(es: seq<Entry<V>>, i: int)
    requires KeysAscending(es)
    requires 0 <= i < |es|
    ensures es[i].key in ToMap(es) && ToMap(es)[es[i].key] == es[i].value
  {
    if i > 0 {
      EntryIsBinding(es[1..], i - 1);
    }
  }

  /** Removing a key that is not there leaves the list as it was. */
  lemma {:induction false} RemoveAbsent<V>(es: seq<Entry<V>>, k: uint64)
    requires KeysAscending(es)
    ensures k !in Keys(es) ==> Remove(es, k) == es
  {
    if es != [] && es[0].key != k {
      RemoveAbsent(es[1..], k);
    }
  }

  /** Strictly ascending keys all below `bound` number at most `bound`. */
  lemma {:induction false} FewerEntriesThanBound<V>(es: seq<Entry<V>>, bound: nat)
    requires KeysAscending(es)
    requires forall i :: 0 <= i < |es| ==> es[i].key < bound
    ensures |es| <= bound
  {
    if es != [] {
      var init, last := es[..|es| - 1], es[|es| - 1];
      assert forall i :: 0 <= i < |init| ==> init[i] == es[i];
      FewerEntriesThanBound(init, last.key);
      assert last.key < bound;
    }
  }
}
