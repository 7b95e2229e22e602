/** Limited batches: the rows that an ORDER BY with a LIMIT picks among those that match. */
module Batches {
  predicate IsLowest(ids: set<nat>, key: nat -> real, limit: nat, picked: set<nat>) {
    && picked <= ids
    && |picked| == (if |ids| <= limit then |ids| else limit)
    && forall a, b | a in picked && b in ids - picked :: key(a) <= key(b)
  }

  method Lowest(ids: set<nat>, key: nat -> real) returns (lowest: nat)
    requires ids != {}
    ensures lowest in ids
    ensures forall id | id in ids :: key(lowest) <= key(id)
  {
    lowest :| lowest in ids;
    var left := ids - {lowest};
    while left != {}
      invariant lowest in ids && left <= ids
      invariant forall id | id in ids - left :: key(lowest) <= key(id)
      decreases left
    {
      var id :| id in left;
      left := left - {id};
      if key(id) < key(lowest) {
        lowest := id;
      }
    }
  }

  method PickLowest(ids: set<nat>, key: nat -> real, limit: nat) returns (picked: set<nat>)
    ensures IsLowest(ids, key, limit, picked)
  {
    picked := {};
    var left := ids;
    while |picked| < limit && left != {}
      invariant picked + left == ids && picked !! left && |picked| <= limit
      invariant forall a, b | a in picked && b in left :: key(a) <= key(b)
      decreases left
    {
      var id := Lowest(left, key);
      picked := picked + {id};
      left := left - {id};
    }
    assert |ids| == |picked| + |left|;
    assert left == ids - picked;
  }

  lemma Subset<T>(small: set<T>, large: set<T>)
    requires small <= large
    ensures |small| <= |large|
  {
    assert large == small + (large - small);
  }
}
