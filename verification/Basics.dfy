/** What every model uses: optional values, the larger and the smaller, and the size of a subset. */
module Basics {

  datatype Option<+T> = None | Some(value: T)

  function Max(a: int, b: int): int { if a < b then b else a }

  function Min(a: int, b: int): int { if b < a then b else a }

  lemma {:induction false} SubsetSize<T>(small: set<T>, big: set<T>)
    requires small <= big
    ensures |small| <= |big|
  {
    if small == {} {
    } else {
      var x :| x in small;
      SubsetSize(small - {x}, big - {x});
    }
  }
}
