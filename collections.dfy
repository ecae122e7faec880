/** Collections built by the collector's iterator chains. */
module Collections {

  /**
    `HashMap::from_iter` over key-value pairs (`collect()`, or a loop of
    `insert` calls): every listed key is a key of the map, and a key listed
    twice keeps the value of its last listing.
  */
  function MapOfPairs<K(==), V>(pairs: seq<(K, V)>): map<K, V> {
    if pairs == [] then map[]
    else MapOfPairs(pairs[..|pairs| - 1])[pairs[|pairs| - 1].0 := pairs[|pairs| - 1].1]
  }

  /** The keys of the map are the listed keys. */
  lemma {:induction false} MapOfPairsKeys<K, V>(pairs: seq<(K, V)>)
    ensures forall key :: key in MapOfPairs(pairs) <==> exists j :: 0 <= j < |pairs| && pairs[j].0 == key
  {
    if pairs != [] {
      var init := pairs[..|pairs| - 1];
      MapOfPairsKeys(init);
      assert forall j :: 0 <= j < |init| ==> init[j] == pairs[j];
      forall key | exists j :: 0 <= j < |pairs| && pairs[j].0 == key
        ensures key in MapOfPairs(pairs)
      {
        var j :| 0 <= j < |pairs| && pairs[j].0 == key;
        if j < |init| {
          assert init[j].0 == key;
        }
      }
    }
  }

  /** A key listed more than once keeps the value of its last listing. */
  lemma {:induction false} MapOfPairsLast<K, V>(pairs: seq<(K, V)>, j: nat)
    requires j < |pairs| && LastListing(pairs, j)
    ensures pairs[j].0 in MapOfPairs(pairs) && MapOfPairs(pairs)[pairs[j].0] == pairs[j].1
  {
    var init := pairs[..|pairs| - 1];
    if j < |init| {
      assert init[j] == pairs[j];
      assert LastListing(init, j) by {
        forall k | j < k < |init| ensures init[k].0 != init[j].0 {
          assert init[k] == pairs[k];
        }
      }
      MapOfPairsLast(init, j);
      assert pairs[|pairs| - 1].0 != pairs[j].0;
    }
  }

  /** Pair `j` is the last one that lists its key. */
  predicate LastListing<K(==), V>(pairs: seq<(K, V)>, j: nat)
    requires j < |pairs|
  {
    forall k :: j < k < |pairs| ==> pairs[k].0 != pairs[j].0
  }
}
