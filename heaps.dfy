/** Rust's `std::collections::BinaryHeap`, seen through its contents: a max-heap under the element
    type's `Ord`. Its array layout is not modelled, so `Pop` may return any element that no other
    element exceeds; a caller's proof therefore covers every way the real heap can break ties. */
module Heaps {
  import opened Common

  /** `x` is an element of `p` that no element of `p` exceeds under `cmp`. */
  predicate IsTop<T(!new)>(cmp: (T, T) -> Ordering, x: T, p: multiset<T>) {
    x in p && forall y :: y in p ==> cmp(x, y) != Less
  }

  /** Under an `Ord` every non-empty finite heap has a top element. */
  lemma {:induction false} TopExists<T(!new)>(cmp: (T, T) -> Ordering, p: multiset<T>)
    requires IsOrd(cmp)
    requires p != multiset{}
    ensures exists x :: IsTop(cmp, x, p)
    decreases |p|
  {
    var z :| z in p;
    var rest := p - multiset{z};
    if rest == multiset{} {
      assert p == multiset{z};
      assert IsTop(cmp, z, p);
    } else {
      TopExists(cmp, rest);
      var x :| IsTop(cmp, x, rest);
      if cmp(x, z) != Less {
        assert IsTop(cmp, x, p);
      } else {
        forall y | y in p ensures cmp(z, y) != Less {
          if y != z {
            assert y in rest;
            assert cmp(z, x) == Greater;
            assert cmp(z, x) != Less && cmp(x, y) != Less;
          }
        }
        assert IsTop(cmp, z, p);
      }
    }
  }

  class BinaryHeap<T(==,!new)> {
    /** The `Ord` of the element type (for `Reverse<T>`-wrapped elements, the flipped one). */
    const cmp: (T, T) -> Ordering
    var elems: multiset<T>

    constructor (cmp: (T, T) -> Ordering)
      ensures this.cmp == cmp && elems == multiset{}
    {
      this.cmp := cmp;
      elems := multiset{};
    }

    /** `heap.len()` */
    function Len(): nat
      reads this
    {
      |elems|
    }

    /** `heap.push(x)` */
    method Push(x: T)
      modifies this
      ensures elems == old(elems) + multiset{x}
    {
      elems := elems + multiset{x};
    }

    /** `heap.pop()`: `None` on an empty heap, otherwise some greatest element, which is removed. */
    method Pop() returns (r: Option<T>)
      requires IsOrd(cmp)
      modifies this
      ensures old(elems) == multiset{} ==> r == None && elems == old(elems)
      ensures old(elems) != multiset{} ==>
                r.Some? && IsTop(cmp, r.value, old(elems)) && elems == old(elems) - multiset{r.value}
    {
      if elems == multiset{} {
        r := None;
      } else {
        TopExists(cmp, elems);
        var x :| IsTop(cmp, x, elems);
        r := Some(x);
        elems := elems - multiset{x};
      }
    }
  }
}
