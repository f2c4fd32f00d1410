/** Small result types shared by the other modules. */
module Wrappers {

  datatype Option<+T> = None | Some(value: T)

  datatype Result<+T, +E> = Ok(value: T) | Err(error: E)
}

/** Fresh primary keys, as the database's gen_random_uuid() default supplies them. */
module Ids {

  lemma {:induction false} Cardinality(a: set<nat>, b: set<nat>)
    requires a <= b
    ensures |a| <= |b|
    decreases a
  {
    if a != {} {
      var x :| x in a;
      Cardinality(a - {x}, b - {x});
    }
  }

  function FreshAbove(used: set<nat>, from: nat, seen: set<nat>): (id: nat)
    requires seen <= used && forall k :: k in seen <==> 0 <= k < from
    requires |seen| == from
    ensures id !in used
    decreases |used| - |seen|
  {
    if from !in used then from
    else
      Cardinality(seen + {from}, used);
      FreshAbove(used, from + 1, seen + {from})
  }

  function FreshId(used: set<nat>): (id: nat)
    ensures id !in used
  {
    FreshAbove(used, 0, {})
  }
}
