/** The first-match search that MongoDB's `find_one`, `find_one_and_update` and
    `find_one_and_delete` perform over a collection in its natural order. The
    collection is given as the sequence of the values of the filtered key. */
module Lookup {
  import opened Wrappers

  /** Position of the first key equal to `k`, or `None` when no key is. */
  function FirstIndex<K(==)>(keys: seq<K>, k: K): (r: Option<nat>)
    ensures r.None? <==> k !in keys
    ensures r.Some? ==> r.value < |keys| && keys[r.value] == k
    ensures r.Some? ==> forall j :: 0 <= j < r.value ==> keys[j] != k
  {
    if |keys| == 0 then None
    else if keys[0] == k then Some(0)
    else match FirstIndex(keys[1..], k)
      case None => None
      case Some(i) => Some(i + 1)
  }
}
