/** Small shared helpers: an optional value (Go's nil-able error), flattening of nested lists
    and two facts of integer arithmetic. */
module Basics {

  datatype Option<+T> = None | Some(value: T)

  /** The concatenation of the inner lists, in order. Defined from the back, as the
      loops that build such lists append at the end. */
  function Flatten<T>(xss: seq<seq<T>>): (r: seq<T>)
  {
    if xss == [] then [] else Flatten(xss[..|xss| - 1]) + xss[|xss| - 1]
  }

  lemma FlattenSnoc<T>(xss: seq<seq<T>>, xs: seq<T>)
    ensures Flatten(xss + [xs]) == Flatten(xss) + xs
  {
    assert (xss + [xs])[..|xss|] == xss;
  }

  /** Taking one more inner list appends it to the flattened prefix. */
  lemma FlattenPrefixStep<T>(xss: seq<seq<T>>, b: nat)
    requires b < |xss|
    ensures Flatten(xss[..b + 1]) == Flatten(xss[..b]) + xss[b]
  {
    assert xss[..b + 1] == xss[..b] + [xss[b]];
    FlattenSnoc(xss[..b], xss[b]);
  }

  /** An element of the flattened list comes from one of the inner lists, and vice versa. */
  lemma {:induction false} FlattenMembership<T>(xss: seq<seq<T>>, x: T)
    ensures x in Flatten(xss) <==> exists xs :: xs in xss && x in xs
  {
    if xss != [] {
      var n := |xss| - 1;
      assert xss == xss[..n] + [xss[n]];
      FlattenMembership(xss[..n], x);
      if x in Flatten(xss) && x !in Flatten(xss[..n]) {
        assert xss[n] in xss;
      }
      if exists xs :: xs in xss && x in xs {
        var xs :| xs in xss && x in xs;
        if xs != xss[n] {
          assert xs in xss[..n];
        }
      }
    }
  }

  function Min(a: int, b: int): (m: int)
  {
    if a <= b then a else b
  }

  lemma MulMonotone(a: int, b: int, d: int)
    requires a <= b && d >= 0
    ensures a * d <= b * d
  {
    assert b * d - a * d == (b - a) * d;
  }
}
