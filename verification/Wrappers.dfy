/** The usual failure-free container: a value that may be absent. */
module Wrappers {
  datatype Option<+T> = None | Some(value: T)
}

module FiniteSets {
  lemma {:induction false} SubsetSize<T>(a: set<T>, b: set<T>)
    requires a <= b
    ensures |a| <= |b|
    decreases a
  {
    if a != {} {
      var x :| x in a;
      SubsetSize(a - {x}, b - {x});
    }
  }
}
