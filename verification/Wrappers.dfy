/** Optional values: None stands for Go's error return where the error's text does not matter. */
module Wrappers {
  datatype Option<+T> = None | Some(value: T)

  /** A number beyond those of a finite set. */
  ghost function Above(used: set<nat>): (u: nat)
    ensures forall x :: x in used ==> x < u
  {
    if used == {} then 0
    else
      var x :| x in used;
      var u := Above(used - {x});
      assert forall y :: y in used ==> y == x || y in used - {x};
      if x < u then u else x + 1
  }
}
