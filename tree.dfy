/** The Huffman tree node shared by every variant and the greedy merge loop they all run.

    Every variant stores a node as a record of a symbol field `ch`, a weight `freq` and two optional
    boxed children; only the type of `ch` differs (`char` with the sentinel '\0' for parents, or an
    `Option`). A builder puts one leaf per table entry into a pool and then repeatedly takes two
    "best" nodes out and puts back their parent; `ValidRun` records such a run step by step. */
module Tree {
  import opened Common
  import opened Heaps

  datatype Node<S> = Node(ch: S, freq: nat, left: Option<Node<S>>, right: Option<Node<S>>)

  /** A node without children (what every `::new` constructor builds). */
  predicate IsLeaf<S>(n: Node<S>) {
    n.left.None? && n.right.None?
  }

  function Leaf<S>(ch: S, freq: nat): (n: Node<S>)
    ensures IsLeaf(n) && n.ch == ch && n.freq == freq
  {
    Node(ch, freq, None, None)
  }

  /** The parent every builder pushes back: the first popped node on the left, the second on the right,
      its weight the sum of theirs. */
  function Merge<S>(ch: S, left: Node<S>, right: Node<S>): (p: Node<S>)
    ensures !IsLeaf(p) && p.left == Some(left) && p.right == Some(right)
    ensures p.ch == ch && p.freq == left.freq + right.freq
  {
    Node(ch, left.freq + right.freq, Some(left), Some(right))
  }

  /** Shorthands for writing out sample trees whose parents carry `None` and leaves `Some(c)`. */
  function P<T>(left: Node<Option<T>>, right: Node<Option<T>>): Node<Option<T>> {
    Merge(None, left, right)
  }

  function L<T>(c: T, n: nat): Node<Option<T>> {
    Leaf(Some(c), n)
  }

  /** The shape every builder produces: each node is a leaf or a parent labelled `internal` with two
      children whose weights add up to its own. */
  ghost predicate Built<S(!new)>(n: Node<S>, internal: S) {
    || IsLeaf(n)
    || (&& n.left.Some? && n.right.Some? && n.ch == internal
        && n.freq == n.left.value.freq + n.right.value.freq
        && Built(n.left.value, internal) && Built(n.right.value, internal))
  }

  /** The leaves of a tree, with repetitions. */
  ghost function Leaves<S(!new)>(n: Node<S>): multiset<Node<S>> {
    if IsLeaf(n) then multiset{n}
    else
      (if n.left.Some? then Leaves(n.left.value) else multiset{}) +
      (if n.right.Some? then Leaves(n.right.value) else multiset{})
  }

  /** In a built tree the weight of a node is the total weight of its leaves. */
  lemma {:induction false} BuiltWeight<S(!new)>(n: Node<S>, internal: S)
    requires Built(n, internal)
    ensures n.freq == Weight(Leaves(n))
  {
    if IsLeaf(n) {
      WeightRemove(multiset{n}, n);
      assert multiset{n} - multiset{n} == multiset{};
    } else {
      BuiltWeight(n.left.value, internal);
      BuiltWeight(n.right.value, internal);
      WeightUnion(Leaves(n.left.value), Leaves(n.right.value));
    }
  }

  // ----- pools: the contents of a builder's heap or vector -----

  /** The total weight of a pool. */
  ghost function Weight<S(!new)>(p: multiset<Node<S>>): nat
    decreases |p|
  {
    if p == multiset{} then 0 else var n :| n in p; n.freq + Weight(p - multiset{n})
  }

  lemma {:induction false} WeightRemove<S(!new)>(p: multiset<Node<S>>, n: Node<S>)
    requires n in p
    ensures Weight(p) == n.freq + Weight(p - multiset{n})
    decreases |p|
  {
    var m :| m in p && Weight(p) == m.freq + Weight(p - multiset{m});
    if m != n {
      var pm, pn := p - multiset{m}, p - multiset{n};
      assert n in pm && m in pn;
      WeightRemove(pm, n);
      WeightRemove(pn, m);
      assert pn - multiset{m} == pm - multiset{n};
    }
  }

  lemma WeightAdd<S(!new)>(q: multiset<Node<S>>, n: Node<S>)
    ensures Weight(q + multiset{n}) == n.freq + Weight(q)
  {
    WeightRemove(q + multiset{n}, n);
    assert q + multiset{n} - multiset{n} == q;
  }

  lemma {:induction false} WeightUnion<S(!new)>(p: multiset<Node<S>>, q: multiset<Node<S>>)
    ensures Weight(p + q) == Weight(p) + Weight(q)
    decreases |q|
  {
    if q == multiset{} {
      assert p + q == p;
    } else {
      var n :| n in q;
      WeightRemove(q, n);
      WeightRemove(p + q, n);
      assert p + q - multiset{n} == p + (q - multiset{n});
      WeightUnion(p, q - multiset{n});
    }
  }

  /** All leaves of all trees of a pool. */
  ghost function PoolLeaves<S(!new)>(p: multiset<Node<S>>): multiset<Node<S>>
    decreases |p|
  {
    if p == multiset{} then multiset{} else var n :| n in p; Leaves(n) + PoolLeaves(p - multiset{n})
  }

  lemma {:induction false} PoolLeavesRemove<S(!new)>(p: multiset<Node<S>>, n: Node<S>)
    requires n in p
    ensures PoolLeaves(p) == Leaves(n) + PoolLeaves(p - multiset{n})
    decreases |p|
  {
    var m :| m in p && PoolLeaves(p) == Leaves(m) + PoolLeaves(p - multiset{m});
    if m != n {
      var pm, pn := p - multiset{m}, p - multiset{n};
      assert n in pm && m in pn;
      PoolLeavesRemove(pm, n);
      PoolLeavesRemove(pn, m);
      var rest := pm - multiset{n};
      assert pn - multiset{m} == rest;
      SwapUnion(Leaves(m), Leaves(n), PoolLeaves(rest), PoolLeaves(p), PoolLeaves(pn));
    }
  }

  lemma SwapUnion<T>(a: multiset<T>, b: multiset<T>, r: multiset<T>, all: multiset<T>, withoutB: multiset<T>)
    requires all == a + (b + r) && withoutB == a + r
    ensures all == b + withoutB
  {
  }

  /** The image of a pool under `f`: one `f(n)` per node `n`, with multiplicity. */
  ghost function MapPool<S(!new), T(!new)>(p: multiset<Node<S>>, f: Node<S> -> T): multiset<T>
    decreases |p|
  {
    if p == multiset{} then multiset{} else var n :| n in p; multiset{f(n)} + MapPool(p - multiset{n}, f)
  }

  lemma {:induction false} MapPoolRemove<S(!new), T(!new)>(p: multiset<Node<S>>, f: Node<S> -> T, n: Node<S>)
    requires n in p
    ensures MapPool(p, f) == multiset{f(n)} + MapPool(p - multiset{n}, f)
    decreases |p|
  {
    var m :| m in p && MapPool(p, f) == multiset{f(m)} + MapPool(p - multiset{m}, f);
    if m != n {
      var pm, pn := p - multiset{m}, p - multiset{n};
      assert n in pm && m in pn;
      MapPoolRemove(pm, f, n);
      MapPoolRemove(pn, f, m);
      var rest := pm - multiset{n};
      assert pn - multiset{m} == rest;
      SwapUnion(multiset{f(m)}, multiset{f(n)}, MapPool(rest, f), MapPool(p, f), MapPool(pn, f));
    }
  }

  ghost predicate AllBuilt<S(!new)>(p: multiset<Node<S>>, internal: S) {
    forall n :: n in p ==> Built(n, internal)
  }

  /** The initial pool of a builder: one leaf per entry of the frequency table, the key turned into a
      node symbol by `tag`. */
  ghost function LeafPool<K(!new), S(!new)>(m: map<K, nat>, tag: K -> S): multiset<Node<S>> {
    multiset(set k | k in m :: Leaf(tag(k), m[k]))
  }

  ghost predicate Injective<K(!new), S(!new)>(tag: K -> S) {
    forall j, k :: tag(j) == tag(k) ==> j == k
  }

  /** The leaf symbol of a variant that stores the key itself (`Node::new(*ch, *freq)`). */
  function Plain<T>(x: T): (y: T)
    ensures y == x
  {
    x
  }

  /** The leaf symbol of a variant that stores `Some(key)`. */
  function Wrapped<T>(x: T): (y: Option<T>)
    ensures y.Some? && y.value == x
  {
    Some(x)
  }

  lemma PlainInjective<T(!new)>()
    ensures Injective(Plain<T>)
  {
  }

  lemma WrappedInjective<T(!new)>()
    ensures Injective(Wrapped<T>)
  {
  }

  lemma LeafPoolAdd<K(!new), S(!new)>(m: map<K, nat>, k: K, v: nat, tag: K -> S)
    requires Injective(tag)
    requires k !in m
    ensures LeafPool(m[k := v], tag) == LeafPool(m, tag) + multiset{Leaf(tag(k), v)}
  {
    var m' := m[k := v];
    var a := set j | j in m :: Leaf(tag(j), m[j]);
    var b := set j | j in m' :: Leaf(tag(j), m'[j]);
    var leaf := Leaf(tag(k), v);
    forall x | x in b ensures x in a || x == leaf {
      var j :| j in m' && x == Leaf(tag(j), m'[j]);
      if j != k {
        assert j in m && m'[j] == m[j];
      }
    }
    forall x | x in a ensures x in b {
      var j :| j in m && x == Leaf(tag(j), m[j]);
      assert j in m' && m'[j] == m[j];
    }
    assert leaf in b by { assert k in m' && m'[k] == v; }
    assert b == a + {leaf};
    assert leaf !in a;
  }

  /** The initial pool holds one leaf per key, weighs as much as the table and is its own leaves. */
  lemma LeafPoolFacts<K(!new), S(!new)>(m: map<K, nat>, tag: K -> S, internal: S)
    requires Injective(tag)
    ensures |LeafPool(m, tag)| == |m|
    ensures Weight(LeafPool(m, tag)) == MapSum(m)
    ensures PoolLeaves(LeafPool(m, tag)) == LeafPool(m, tag)
    ensures AllBuilt(LeafPool(m, tag), internal)
  {
    LeafPoolInduct(m, tag);
    assert AllBuilt(LeafPool(m, tag), internal);
  }

  /** Splitting one key off a non-empty table splits its leaf off the pool. */
  lemma LeafPoolSplit<K(!new), S(!new)>(m: map<K, nat>, tag: K -> S, k: K)
    requires Injective(tag)
    requires k in m
    ensures |m - {k}| == |m| - 1
    ensures LeafPool(m, tag) == LeafPool(m - {k}, tag) + multiset{Leaf(tag(k), m[k])}
  {
    var rest := m - {k};
    assert rest.Keys == m.Keys - {k};
    assert m == rest[k := m[k]];
    LeafPoolAdd(rest, k, m[k], tag);
  }

  lemma {:induction false} LeafPoolInduct<K(!new), S(!new)>(m: map<K, nat>, tag: K -> S)
    requires Injective(tag)
    ensures |LeafPool(m, tag)| == |m|
    ensures Weight(LeafPool(m, tag)) == MapSum(m)
    ensures PoolLeaves(LeafPool(m, tag)) == LeafPool(m, tag)
    decreases |m|
  {
    if m == map[] {
      assert LeafPool(m, tag) == multiset{};
    } else {
      var k :| k in m;
      LeafPoolSplit(m, tag, k);
      LeafPoolInduct(m - {k}, tag);
      MapSumRemove(m, k);
      LeafPoolStep(LeafPool(m, tag), LeafPool(m - {k}, tag), Leaf(tag(k), m[k]));
    }
  }

  /** Adding one leaf to a pool of leaves. */
  lemma LeafPoolStep<S(!new)>(p: multiset<Node<S>>, q: multiset<Node<S>>, leaf: Node<S>)
    requires p == q + multiset{leaf} && PoolLeaves(q) == q
    requires leaf.left.None? && leaf.right.None?
    ensures |p| == |q| + 1
    ensures Weight(p) == leaf.freq + Weight(q)
    ensures PoolLeaves(p) == p
  {
    WeightAdd(q, leaf);
    PoolLeavesAdd(q, leaf);
    assert Leaves(leaf) == multiset{leaf};
  }

  // ----- the greedy run -----

  /** The two nodes one iteration of a builder loop pops, in pop order. */
  datatype Pick<S> = Pick(first: Node<S>, second: Node<S>)

  /** The pool after one iteration: both popped nodes replaced by their parent. */
  ghost function AfterMerge<S(!new)>(p: multiset<Node<S>>, internal: S, s: Pick<S>): multiset<Node<S>> {
    p - multiset{s.first} - multiset{s.second} + multiset{Merge(internal, s.first, s.second)}
  }

  /** `steps` is a possible run of a builder whose heap ranks nodes by `cmp`: each iteration pops a top
      node and then a top node of what is left. */
  ghost predicate ValidRun<S(!new)>(cmp: (Node<S>, Node<S>) -> Ordering, internal: S,
                              p: multiset<Node<S>>, steps: seq<Pick<S>>)
    decreases |steps|
  {
    || steps == []
    || (&& IsTop(cmp, steps[0].first, p)
        && IsTop(cmp, steps[0].second, p - multiset{steps[0].first})
        && ValidRun(cmp, internal, AfterMerge(p, internal, steps[0]), steps[1..]))
  }

  /** The pool after all steps. */
  ghost function Final<S(!new)>(p: multiset<Node<S>>, internal: S, steps: seq<Pick<S>>): multiset<Node<S>>
    decreases |steps|
  {
    if steps == [] then p else Final(AfterMerge(p, internal, steps[0]), internal, steps[1..])
  }

  /** One merge shrinks the pool by one and keeps its weight, its leaves and its shape. */
  lemma MergeFacts<S(!new)>(p: multiset<Node<S>>, internal: S, s: Pick<S>)
    requires s.first in p && s.second in p - multiset{s.first}
    ensures |AfterMerge(p, internal, s)| == |p| - 1
    ensures Weight(AfterMerge(p, internal, s)) == Weight(p)
    ensures PoolLeaves(AfterMerge(p, internal, s)) == PoolLeaves(p)
    ensures AllBuilt(p, internal) ==> AllBuilt(AfterMerge(p, internal, s), internal)
  {
    MergeWeight(p, internal, s);
    MergeLeaves(p, internal, s);
    if AllBuilt(p, internal) {
      MergeBuilt(p, internal, s);
    }
  }

  lemma MergeWeight<S(!new)>(p: multiset<Node<S>>, internal: S, s: Pick<S>)
    requires s.first in p && s.second in p - multiset{s.first}
    ensures Weight(AfterMerge(p, internal, s)) == Weight(p)
  {
    var p1 := p - multiset{s.first};
    var q := p1 - multiset{s.second};
    WeightRemove(p, s.first);
    WeightRemove(p1, s.second);
    WeightAdd(q, Merge(internal, s.first, s.second));
  }

  lemma MergeLeaves<S(!new)>(p: multiset<Node<S>>, internal: S, s: Pick<S>)
    requires s.first in p && s.second in p - multiset{s.first}
    ensures PoolLeaves(AfterMerge(p, internal, s)) == PoolLeaves(p)
  {
    var p1 := p - multiset{s.first};
    var q := p1 - multiset{s.second};
    var parent := Merge(internal, s.first, s.second);
    PoolLeavesRemove(p, s.first);
    PoolLeavesRemove(p1, s.second);
    PoolLeavesAdd(q, parent);
    assert Leaves(parent) == Leaves(s.first) + Leaves(s.second);
  }

  lemma PoolLeavesAdd<S(!new)>(q: multiset<Node<S>>, n: Node<S>)
    ensures PoolLeaves(q + multiset{n}) == Leaves(n) + PoolLeaves(q)
  {
    PoolLeavesRemove(q + multiset{n}, n);
    assert q + multiset{n} - multiset{n} == q;
  }

  lemma MergeBuilt<S(!new)>(p: multiset<Node<S>>, internal: S, s: Pick<S>)
    requires s.first in p && s.second in p - multiset{s.first}
    requires AllBuilt(p, internal)
    ensures AllBuilt(AfterMerge(p, internal, s), internal)
  {
    var parent := Merge(internal, s.first, s.second);
    assert s.second in p;
    assert Built(s.first, internal) && Built(s.second, internal);
    assert Built(parent, internal);
    forall n | n in AfterMerge(p, internal, s) ensures Built(n, internal) {
      if n != parent {
        assert n in p;
      }
    }
  }

  /** A run can be extended by one more iteration of the loop. */
  lemma {:induction false} RunExtend<S(!new)>(cmp: (Node<S>, Node<S>) -> Ordering, internal: S,
                                         p: multiset<Node<S>>, steps: seq<Pick<S>>, s: Pick<S>)
    requires ValidRun(cmp, internal, p, steps)
    requires IsTop(cmp, s.first, Final(p, internal, steps))
    requires IsTop(cmp, s.second, Final(p, internal, steps) - multiset{s.first})
    ensures ValidRun(cmp, internal, p, steps + [s])
    ensures Final(p, internal, steps + [s]) == AfterMerge(Final(p, internal, steps), internal, s)
    decreases |steps|
  {
    if steps == [] {
      assert steps + [s] == [s];
      assert [s][1..] == [];
    } else {
      assert (steps + [s])[0] == steps[0];
      assert (steps + [s])[1..] == steps[1..] + [s];
      RunExtend(cmp, internal, AfterMerge(p, internal, steps[0]), steps[1..], s);
    }
  }

  /** Two greedy iterations in a row make a run of two steps. */
  lemma TwoStepRun<S(!new)>(cmp: (Node<S>, Node<S>) -> Ordering, internal: S, p: multiset<Node<S>>,
                            q: multiset<Node<S>>, s1: Pick<S>, s2: Pick<S>)
    requires IsTop(cmp, s1.first, p) && IsTop(cmp, s1.second, p - multiset{s1.first})
    requires q == AfterMerge(p, internal, s1)
    requires IsTop(cmp, s2.first, q) && IsTop(cmp, s2.second, q - multiset{s2.first})
    ensures ValidRun(cmp, internal, p, [s1, s2])
    ensures Final(p, internal, [s1, s2]) == AfterMerge(q, internal, s2)
  {
    var r := AfterMerge(q, internal, s2);
    assert ValidRun(cmp, internal, r, []) && Final(r, internal, []) == r;
    RunCons(cmp, internal, q, s2, []);
    RunCons(cmp, internal, p, s1, [s2]);
    assert [s2] + [] == [s2] && [s1] + [s2] == [s1, s2];
  }

  /** A run whose first iteration merges `s` is that iteration followed by a run of the rest. */
  lemma RunCons<S(!new)>(cmp: (Node<S>, Node<S>) -> Ordering, internal: S, p: multiset<Node<S>>,
                         s: Pick<S>, rest: seq<Pick<S>>)
    ensures ValidRun(cmp, internal, p, [s] + rest) <==>
              && IsTop(cmp, s.first, p) && IsTop(cmp, s.second, p - multiset{s.first})
              && ValidRun(cmp, internal, AfterMerge(p, internal, s), rest)
    ensures Final(p, internal, [s] + rest) == Final(AfterMerge(p, internal, s), internal, rest)
  {
    assert ([s] + rest)[0] == s && ([s] + rest)[1..] == rest;
  }

  /** What a whole run keeps: one node fewer per merge, the weight, the leaves and the shape. */
  lemma {:induction false} RunFacts<S(!new)>(cmp: (Node<S>, Node<S>) -> Ordering, internal: S,
                                        p: multiset<Node<S>>, steps: seq<Pick<S>>)
    requires ValidRun(cmp, internal, p, steps)
    ensures |steps| < |p| || (steps == [] && p == multiset{})
    ensures |Final(p, internal, steps)| == |p| - |steps|
    ensures Weight(Final(p, internal, steps)) == Weight(p)
    ensures PoolLeaves(Final(p, internal, steps)) == PoolLeaves(p)
    ensures AllBuilt(p, internal) ==> AllBuilt(Final(p, internal, steps), internal)
    decreases |steps|
  {
    if steps != [] {
      MergeFacts(p, internal, steps[0]);
      RunFacts(cmp, internal, AfterMerge(p, internal, steps[0]), steps[1..]);
    }
  }

  /** When ties are impossible (`cmp` says Equal only of identical nodes), the top is unique and so is
      the run: the result cannot depend on insertion or iteration order. */
  lemma {:induction false} RunDeterministic<S(!new)>(cmp: (Node<S>, Node<S>) -> Ordering, internal: S,
                                                p: multiset<Node<S>>, s1: seq<Pick<S>>, s2: seq<Pick<S>>)
    requires IsOrd(cmp)
    requires forall a, b :: cmp(a, b) == Equal ==> a == b
    requires ValidRun(cmp, internal, p, s1) && ValidRun(cmp, internal, p, s2)
    requires |s1| == |s2|
    ensures s1 == s2
    decreases |s1|
  {
    if s1 != [] {
      var a, b := s1[0], s2[0];
      assert IsTop(cmp, a.first, p) && IsTop(cmp, b.first, p);
      TopUnique(cmp, a.first, b.first, p);
      var rest := p - multiset{a.first};
      assert IsTop(cmp, a.second, rest) && IsTop(cmp, b.second, rest);
      TopUnique(cmp, a.second, b.second, rest);
      assert a == b;
      var next := AfterMerge(p, internal, a);
      assert ValidRun(cmp, internal, next, s1[1..]) && ValidRun(cmp, internal, next, s2[1..]);
      RunDeterministic(cmp, internal, next, s1[1..], s2[1..]);
      SeqCons(s1);
      SeqCons(s2);
    }
  }

  lemma SeqCons<T>(s: seq<T>)
    requires s != []
    ensures s == [s[0]] + s[1..]
  {
  }

  lemma TopUnique<T(!new)>(cmp: (T, T) -> Ordering, x: T, y: T, p: multiset<T>)
    requires IsOrd(cmp)
    requires forall a, b :: cmp(a, b) == Equal ==> a == b
    requires IsTop(cmp, x, p) && IsTop(cmp, y, p)
    ensures x == y
  {
    assert cmp(x, y) != Less && cmp(y, x) != Less;
  }

  /** `x` is the only top element of `p`: it ranks above every other element. */
  ghost predicate UniqueTop<S(!new)>(cmp: (Node<S>, Node<S>) -> Ordering, x: Node<S>, p: multiset<Node<S>>) {
    x in p && forall y :: y in p && y != x ==> cmp(x, y) == Greater
  }

  /** Where the next two pops are forced, every run starts with them. */
  lemma ForcedPick<S(!new)>(cmp: (Node<S>, Node<S>) -> Ordering, internal: S, p: multiset<Node<S>>,
                            steps: seq<Pick<S>>, x: Node<S>, y: Node<S>)
    requires IsOrd(cmp)
    requires ValidRun(cmp, internal, p, steps) && steps != []
    requires UniqueTop(cmp, x, p) && UniqueTop(cmp, y, p - multiset{x})
    ensures steps[0] == Pick(x, y)
    ensures ValidRun(cmp, internal, AfterMerge(p, internal, Pick(x, y)), steps[1..])
    ensures Final(p, internal, steps) == Final(AfterMerge(p, internal, Pick(x, y)), internal, steps[1..])
  {
    assert cmp(steps[0].first, x) != Less;
    assert cmp(steps[0].second, y) != Less;
  }

  /** A run that ends with a single node: the builder's root, with the properties every builder
      promises about it. */
  lemma RootFacts<K(!new), S(!new)>(cmp: (Node<S>, Node<S>) -> Ordering, internal: S, m: map<K, nat>,
                              tag: K -> S, steps: seq<Pick<S>>, root: Node<S>)
    requires Injective(tag)
    requires ValidRun(cmp, internal, LeafPool(m, tag), steps)
    requires Final(LeafPool(m, tag), internal, steps) == multiset{root}
    ensures |steps| == |m| - 1
    ensures root.freq == MapSum(m)
    ensures Leaves(root) == LeafPool(m, tag)
    ensures Built(root, internal)
  {
    var p := LeafPool(m, tag);
    LeafPoolFacts(m, tag, internal);
    RunFacts(cmp, internal, p, steps);
    WeightRemove(multiset{root}, root);
    PoolLeavesRemove(multiset{root}, root);
    assert multiset{root} - multiset{root} == multiset{};
  }
}
