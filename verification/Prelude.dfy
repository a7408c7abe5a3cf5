/** Small shared vocabulary: optional values and the sequence operations that
    the gateway's array methods (`filter`, `new Set`, spread) stand for. */
module Prelude {

  datatype Option<+T> = None | Some(value: T)

  /** The elements of `xs` satisfying `keep`, in order (`Array.prototype.filter`). */
  function Filter<T(!new)>(xs: seq<T>, keep: T -> bool): (ys: seq<T>)
    ensures forall y :: y in ys <==> y in xs && keep(y)
    ensures |ys| <= |xs|
  {
    if xs == [] then []
    else
      assert forall x :: x in xs <==> x == xs[0] || x in xs[1..];
      (if keep(xs[0]) then [xs[0]] else []) + Filter(xs[1..], keep)
  }
}
