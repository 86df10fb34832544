/** The heap-driven builder loop shared by the `BinaryHeap` variants: push one leaf per table entry,
    then, while more than one node is left, pop two nodes, push their parent, and finally pop the
    root. Each variant supplies the order its heap ranks nodes by (its `Ord`, flipped when the nodes
    are wrapped in `Reverse`), the symbol of a parent and how a key becomes a node symbol. */
module Builder {
  import opened Common
  import opened Heaps
  import opened Tree

  method HeapBuild<K(==,!new), S(==,!new)>(m: map<K, nat>, cmp: (Node<S>, Node<S>) -> Ordering, internal: S,
                                          tag: K -> S)
    returns (r: Result<Node<S>>, ghost steps: seq<Pick<S>>)
    requires IsOrd(cmp) && Injective(tag)
    ensures r.Panic? <==> m == map[]
    ensures r.Panic? ==> r.failure == UnwrapNone
    ensures r.Ok? ==> && ValidRun(cmp, internal, LeafPool(m, tag), steps)
                      && Final(LeafPool(m, tag), internal, steps) == multiset{r.value}
    ensures r.Ok? ==> && |steps| == |m| - 1
                      && r.value.freq == MapSum(m)
                      && Leaves(r.value) == LeafPool(m, tag)
                      && Built(r.value, internal)
  {
    var heap := new BinaryHeap<Node<S>>(cmp);
    PushLeaves(m, tag, heap);
    ghost var pool := heap.elems;
    LeafPoolFacts(m, tag, internal);
    steps := MergeAll(heap, internal);
    RunFacts(cmp, internal, pool, steps);
    ghost var last := heap.elems;
    var top := heap.Pop();
    LastPop(m, tag, internal, pool, steps, last, top);
    if top.None? {
      r := Panic(UnwrapNone);
    } else {
      r := Ok(top.value);
      RootFacts(cmp, internal, m, tag, steps, top.value);
    }
  }

  /** The final `pop().unwrap()` finds a node exactly when the table was not empty, and then that node
      is all that was left. */
  lemma LastPop<K(!new), S(!new)>(m: map<K, nat>, tag: K -> S, internal: S, pool: multiset<Node<S>>,
                                 steps: seq<Pick<S>>, last: multiset<Node<S>>, top: Option<Node<S>>)
    requires |pool| == |m|
    requires |steps| < |pool| || (steps == [] && pool == multiset{})
    requires |last| == |pool| - |steps| && |last| <= 1
    requires last == multiset{} ==> top == None
    requires last != multiset{} ==> top.Some? && top.value in last
    ensures top.None? <==> m == map[]
    ensures top.Some? ==> last == multiset{top.value}
  {
    if top.None? {
      assert |pool| == 0;
      assert m.Keys == {} by { assert |m.Keys| == |m|; }
    } else {
      assert |last - multiset{top.value}| == |last| - 1;
      assert last - multiset{top.value} == multiset{};
      assert |m| >= 1;
    }
  }

  /** The push loop over the table, in whatever order the `HashMap` yields its entries. */
  method PushLeaves<K(==,!new), S(==,!new)>(m: map<K, nat>, tag: K -> S, heap: BinaryHeap<Node<S>>)
    requires Injective(tag)
    requires heap.elems == multiset{}
    modifies heap
    ensures heap.elems == LeafPool(m, tag)
  {
    var rest := m.Keys;
    ghost var pushed: map<K, nat> := map[];
    while rest != {}
      invariant rest <= m.Keys
      invariant pushed.Keys == m.Keys - rest
      invariant forall k :: k in pushed ==> pushed[k] == m[k]
      invariant heap.elems == LeafPool(pushed, tag)
      decreases |rest|
    {
      var k :| k in rest;
      LeafPoolAdd(pushed, k, m[k], tag);
      heap.Push(Leaf(tag(k), m[k]));
      pushed := pushed[k := m[k]];
      rest := rest - {k};
    }
    assert pushed == m;
  }

  /** `while heap.len() > 1 { pop; pop; push(parent) }`: the loop performs a run of the greedy merge
      that ends with at most one node. */
  method MergeAll<S(==,!new)>(heap: BinaryHeap<Node<S>>, internal: S) returns (ghost steps: seq<Pick<S>>)
    requires IsOrd(heap.cmp)
    modifies heap
    ensures ValidRun(heap.cmp, internal, old(heap.elems), steps)
    ensures heap.elems == Final(old(heap.elems), internal, steps)
    ensures |heap.elems| <= 1
  {
    ghost var pool := heap.elems;
    steps := [];
    while heap.Len() > 1
      invariant ValidRun(heap.cmp, internal, pool, steps)
      invariant heap.elems == Final(pool, internal, steps)
      decreases heap.Len()
    {
      ghost var before := heap.elems;
      var first := heap.Pop();
      var left := first.value;
      assert heap.elems == before - multiset{left} && |heap.elems| == |before| - 1;
      var second := heap.Pop();
      var right := second.value;
      assert heap.elems == before - multiset{left} - multiset{right};
      heap.Push(Merge(internal, left, right));
      assert heap.elems == AfterMerge(before, internal, Pick(left, right));
      RunExtend(heap.cmp, internal, pool, steps, Pick(left, right));
      steps := steps + [Pick(left, right)];
    }
  }
}
