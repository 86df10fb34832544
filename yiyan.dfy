/** `build_huffman_tree_yiyan.rs`: the heap holds `PriorityQueueNode(node, weight)` entries ranked only
    by their stored weight and wrapped in `Reverse`; the builder takes a ready frequency table.
    Encoding and decoding are not part of this file. */
module Yiyan {
  import opened Common
  import opened Heaps
  import opened Tree
  import opened Builder

  type SymbolNode = Node<Option<char>>

  /** `PriorityQueueNode(node, key)`: a node with the weight the heap ranks it by. */
  datatype QueueNode = QueueNode(node: SymbolNode, key: nat)

  /** `Ord`/`PartialOrd for PriorityQueueNode`: the stored keys alone. */
  function QueueCmp(a: QueueNode, b: QueueNode): (o: Ordering)
    ensures o == Less <==> a.key < b.key
    ensures o == Equal <==> a.key == b.key
  {
    CmpInt(a.key, b.key)
  }

  /** `PartialEq for PriorityQueueNode`: the stored keys alone, agreeing with `QueueCmp`. */
  function QueueEq(a: QueueNode, b: QueueNode): (r: bool)
    ensures r <==> QueueCmp(a, b) == Equal
  {
    a.key == b.key
  }

  /** The order of `Reverse(entry)` in the max-heap. */
  function HeapCmp(a: QueueNode, b: QueueNode): (o: Ordering)
    ensures o == Less <==> a.key > b.key
    ensures o == Equal <==> a.key == b.key
  {
    QueueCmp(b, a)
  }

  lemma HeapCmpIsOrd()
    ensures IsOrd(HeapCmp)
  {
  }

  /** Each pop returns an entry of least key. */
  lemma PopsMinimumKey(x: QueueNode, p: multiset<QueueNode>)
    ensures IsTop(HeapCmp, x, p) <==> x in p && forall y :: y in p ==> x.key <= y.key
  {
  }

  /** The rank the heap gives the wrapped nodes: lower weight first. */
  function ByWeight(a: SymbolNode, b: SymbolNode): (o: Ordering)
    ensures o == Less <==> a.freq > b.freq
  {
    CmpInt(b.freq, a.freq)
  }

  lemma ByWeightIsOrd()
    ensures IsOrd(ByWeight)
  {
  }

  /** The entry pushed for a node: its weight as the key (lines 56 and 68). */
  function Entry(n: SymbolNode): (e: QueueNode)
    ensures e.node == n && e.key == n.freq
  {
    QueueNode(n, n.freq)
  }

  /** The heap holding one entry per node of a pool. */
  ghost function Entries(p: multiset<SymbolNode>): multiset<QueueNode> {
    MapPool(p, Entry)
  }

  lemma EntriesRemove(p: multiset<SymbolNode>, n: SymbolNode)
    requires n in p
    ensures Entries(p) == multiset{Entry(n)} + Entries(p - multiset{n})
  {
    MapPoolRemove(p, Entry, n);
  }

  lemma EntriesAdd(p: multiset<SymbolNode>, n: SymbolNode)
    ensures Entries(p + multiset{n}) == multiset{Entry(n)} + Entries(p)
  {
    EntriesRemove(p + multiset{n}, n);
    assert p + multiset{n} - multiset{n} == p;
  }

  /** The invariant the builder keeps: every stored key is the weight of its node, and the heap holds
      exactly one entry per node of the pool. */
  lemma {:induction false} EntriesMember(p: multiset<SymbolNode>, e: QueueNode)
    ensures e in Entries(p) <==> e.node in p && e.key == e.node.freq
    ensures |Entries(p)| == |p|
    decreases |p|
  {
    if p != multiset{} {
      var n :| n in p;
      EntriesRemove(p, n);
      EntriesMember(p - multiset{n}, e);
      assert e.node in p <==> e.node in p - multiset{n} || e.node == n;
    }
  }

  /** An entry the heap may pop stands for a node the greedy run may pick, and popping the entry
      removes that node from the pool. */
  lemma TopOfEntries(p: multiset<SymbolNode>, e: QueueNode)
    requires IsTop(HeapCmp, e, Entries(p))
    ensures e == Entry(e.node) && IsTop(ByWeight, e.node, p)
    ensures Entries(p) - multiset{e} == Entries(p - multiset{e.node})
  {
    EntriesMember(p, e);
    forall y | y in p ensures ByWeight(e.node, y) != Less {
      EntriesMember(p, Entry(y));
    }
    EntriesRemove(p, e.node);
  }

  /** `build_huffman_tree`: push one entry per table entry, then while more than one is left pop two,
      build the parent with `HuffmanNode::new(sum, None)` and set its children (first popped on the
      left), push it with its weight as key, and finally pop the root; an empty table panics there. */
  method BuildHuffmanTree(frequencies: map<char, nat>)
    returns (r: Result<SymbolNode>, ghost steps: seq<Pick<Option<char>>>)
    ensures r.Panic? <==> frequencies == map[]
    ensures r.Ok? ==> && ValidRun(ByWeight, None, LeafPool(frequencies, Wrapped), steps)
                      && Final(LeafPool(frequencies, Wrapped), None, steps) == multiset{r.value}
    ensures r.Ok? ==> && |steps| == |frequencies| - 1
                      && r.value.freq == MapSum(frequencies)
                      && Leaves(r.value) == LeafPool(frequencies, Wrapped)
                      && Built(r.value, None)
  {
    WrappedInjective<char>();
    HeapCmpIsOrd();
    var heap := new BinaryHeap<QueueNode>(HeapCmp);
    PushEntries(frequencies, heap);
    ghost var pool := LeafPool(frequencies, Wrapped);
    LeafPoolFacts(frequencies, Wrapped, None);
    steps := MergeEntries(heap, pool);
    RunFacts(ByWeight, None, pool, steps);
    ghost var last := Final(pool, None, steps);
    EntriesMember(last, QueueNode(Leaf(None, 0), 0));
    var top := heap.Pop();
    if top.Some? {
      EntriesMember(last, top.value);
    }
    LastPop(frequencies, Wrapped, None, pool, steps, last,
               if top.Some? then Some(top.value.node) else None);
    if top.None? {
      r := Panic(UnwrapNone);
    } else {
      r := Ok(top.value.node);
      RootFacts(ByWeight, None, frequencies, Wrapped, steps, top.value.node);
    }
  }

  /** The push loop, in `HashMap` order. */
  method PushEntries(frequencies: map<char, nat>, heap: BinaryHeap<QueueNode>)
    requires heap.elems == multiset{}
    modifies heap
    ensures heap.elems == Entries(LeafPool(frequencies, Wrapped))
  {
    var rest := frequencies.Keys;
    ghost var pushed: map<char, nat> := map[];
    assert LeafPool(pushed, Wrapped) == multiset{};
    while rest != {}
      invariant rest <= frequencies.Keys
      invariant pushed.Keys == frequencies.Keys - rest
      invariant forall k :: k in pushed ==> pushed[k] == frequencies[k]
      invariant heap.elems == Entries(LeafPool(pushed, Wrapped))
      decreases |rest|
    {
      var symbol :| symbol in rest;
      var weight := frequencies[symbol];
      PushOne(heap, pushed, symbol, weight);
      pushed := pushed[symbol := weight];
      rest := rest - {symbol};
    }
    SameTable(pushed, frequencies);
  }

  lemma SameTable(a: map<char, nat>, b: map<char, nat>)
    requires a.Keys == b.Keys && forall k :: k in a ==> a[k] == b[k]
    ensures a == b
  {
  }

  /** One push of the loop: the heap gains the entry of one more leaf. */
  method PushOne(heap: BinaryHeap<QueueNode>, ghost pushed: map<char, nat>, symbol: char, weight: nat)
    requires symbol !in pushed
    requires heap.elems == Entries(LeafPool(pushed, Wrapped))
    modifies heap
    ensures heap.elems == Entries(LeafPool(pushed[symbol := weight], Wrapped))
  {
    WrappedInjective<char>();
    LeafPoolAdd(pushed, symbol, weight, Wrapped);
    EntriesAdd(LeafPool(pushed, Wrapped), Leaf(Some(symbol), weight));
    heap.Push(QueueNode(Leaf(Some(symbol), weight), weight));
  }

  /** Replacing the two popped entries by the parent's entry is the merge step on the pool. */
  lemma MergeStep(current: multiset<SymbolNode>, pick: Pick<Option<char>>, parent: SymbolNode)
    requires parent == Node(None, pick.first.freq + pick.second.freq, Some(pick.first), Some(pick.second))
    ensures Entries(current - multiset{pick.first} - multiset{pick.second}) + multiset{QueueNode(parent, parent.freq)}
              == Entries(AfterMerge(current, None, pick))
  {
    assert parent == Merge(None, pick.first, pick.second);
    EntriesAdd(current - multiset{pick.first} - multiset{pick.second}, parent);
  }

  /** The merge loop: it performs a greedy run over the pool by weight. */
  method MergeEntries(heap: BinaryHeap<QueueNode>, ghost pool: multiset<SymbolNode>)
    returns (ghost steps: seq<Pick<Option<char>>>)
    requires heap.cmp == HeapCmp && heap.elems == Entries(pool)
    modifies heap
    ensures ValidRun(ByWeight, None, pool, steps)
    ensures heap.elems == Entries(Final(pool, None, steps))
    ensures |heap.elems| <= 1
  {
    steps := [];
    while heap.Len() > 1
      invariant ValidRun(ByWeight, None, pool, steps)
      invariant heap.elems == Entries(Final(pool, None, steps))
      decreases heap.Len()
    {
      var pick := MergeOne(heap, Final(pool, None, steps));
      RunExtend(ByWeight, None, pool, steps, pick);
      steps := steps + [pick];
    }
  }

  /** One iteration: pop two entries, push the entry of their parent. */
  method MergeOne(heap: BinaryHeap<QueueNode>, ghost current: multiset<SymbolNode>)
    returns (ghost pick: Pick<Option<char>>)
    requires heap.cmp == HeapCmp && heap.elems == Entries(current) && |heap.elems| > 1
    modifies heap
    ensures IsTop(ByWeight, pick.first, current)
    ensures IsTop(ByWeight, pick.second, current - multiset{pick.first})
    ensures heap.elems == Entries(AfterMerge(current, None, pick))
    ensures |heap.elems| == |old(heap.elems)| - 1
  {
    var node1 := PopEntry(heap, current);
    ghost var rest := current - multiset{node1.node};
    var node2 := PopEntry(heap, rest);
    var parent := Leaf(None, node1.node.freq + node2.node.freq);
    parent := parent.(left := Some(node1.node));
    parent := parent.(right := Some(node2.node));
    pick := Pick(node1.node, node2.node);
    MergeStep(current, pick, parent);
    heap.Push(QueueNode(parent, parent.freq));
  }

  /** `heap.pop().unwrap().0` on a heap with entries: the entry of a least-weight node of the pool. */
  method PopEntry(heap: BinaryHeap<QueueNode>, ghost current: multiset<SymbolNode>) returns (e: QueueNode)
    requires heap.cmp == HeapCmp && heap.elems == Entries(current) && heap.elems != multiset{}
    modifies heap
    ensures IsTop(ByWeight, e.node, current) && e.key == e.node.freq
    ensures heap.elems == Entries(current - multiset{e.node})
    ensures |heap.elems| == |old(heap.elems)| - 1
  {
    HeapCmpIsOrd();
    var top := heap.Pop();
    e := top.value;
    TopOfEntries(current, e);
  }

  // ----- the sample of `main` -----

  const SampleFreqs: map<char, nat> := map['a' := 45, 'b' := 13, 'c' := 12, 'd' := 16, 'e' := 9, 'f' := 5]

  const A: SymbolNode := Leaf(Some('a'), 45)
  const B: SymbolNode := Leaf(Some('b'), 13)
  const C: SymbolNode := Leaf(Some('c'), 12)
  const D: SymbolNode := Leaf(Some('d'), 16)
  const E: SymbolNode := Leaf(Some('e'), 9)
  const F: SymbolNode := Leaf(Some('f'), 5)
  const FE: SymbolNode := Merge(None, F, E)
  const CB: SymbolNode := Merge(None, C, B)
  const FED: SymbolNode := Merge(None, FE, D)
  const CBFED: SymbolNode := Merge(None, CB, FED)
  /** The tree the program prints: weight 100, `a` on the left, 55 = ((c, b), ((f, e), d)) on the right. */
  const SampleRoot: SymbolNode := Merge(None, A, CBFED)

  lemma SamplePool()
    ensures LeafPool(SampleFreqs, Wrapped<char>) == multiset{A, B, C, D, E, F}
    ensures |SampleFreqs| == 6
  {
    var m3 := SamplePoolHalf();
    var m6 := SamplePoolRest(m3);
    assert m6 == SampleFreqs;
    assert SampleFreqs.Keys == {'a', 'b', 'c', 'd', 'e', 'f'};
    assert |SampleFreqs| == |SampleFreqs.Keys|;
  }

  /** The last three leaves of the sample. */
  lemma SamplePoolRest(m3: map<char, nat>) returns (m6: map<char, nat>)
    requires m3 == map['a' := 45, 'b' := 13, 'c' := 12]
    requires LeafPool(m3, Wrapped<char>) == multiset{A, B, C}
    ensures m6 == m3['d' := 16]['e' := 9]['f' := 5]
    ensures LeafPool(m6, Wrapped<char>) == multiset{A, B, C, D, E, F}
  {
    WrappedInjective<char>();
    var m4 := m3['d' := 16];
    var m5 := m4['e' := 9];
    m6 := m5['f' := 5];
    LeafPoolAdd(m3, 'd', 16, Wrapped);
    LeafPoolAdd(m4, 'e', 9, Wrapped);
    LeafPoolAdd(m5, 'f', 5, Wrapped);
  }

  /** The first three leaves of the sample. */
  lemma SamplePoolHalf() returns (m3: map<char, nat>)
    ensures m3 == map['a' := 45, 'b' := 13, 'c' := 12]
    ensures LeafPool(m3, Wrapped<char>) == multiset{A, B, C}
  {
    WrappedInjective<char>();
    var m0: map<char, nat> := map[];
    var m1 := m0['a' := 45];
    var m2 := m1['b' := 13];
    m3 := m2['c' := 12];
    assert LeafPool(m0, Wrapped<char>) == multiset{};
    LeafPoolAdd(m0, 'a', 45, Wrapped);
    LeafPoolAdd(m1, 'b', 13, Wrapped);
    LeafPoolAdd(m2, 'c', 12, Wrapped);
  }

  lemma SampleStep1()
    ensures UniqueTop(ByWeight, F, multiset{A, B, C, D, E, F})
    ensures UniqueTop(ByWeight, E, multiset{A, B, C, D, E, F} - multiset{F})
    ensures AfterMerge(multiset{A, B, C, D, E, F}, None, Pick(F, E)) == multiset{A, B, C, D, FE}
  {
    assert multiset{A, B, C, D, E, F} - multiset{F} == multiset{A, B, C, D, E};
    assert multiset{A, B, C, D, E} - multiset{E} == multiset{A, B, C, D};
  }

  lemma SampleStep2()
    ensures UniqueTop(ByWeight, C, multiset{A, B, C, D, FE})
    ensures UniqueTop(ByWeight, B, multiset{A, B, C, D, FE} - multiset{C})
    ensures AfterMerge(multiset{A, B, C, D, FE}, None, Pick(C, B)) == multiset{A, D, FE, CB}
  {
    assert multiset{A, B, C, D, FE} - multiset{C} == multiset{A, B, D, FE};
    assert multiset{A, B, D, FE} - multiset{B} == multiset{A, D, FE};
  }

  lemma SampleStep3()
    ensures UniqueTop(ByWeight, FE, multiset{A, D, FE, CB})
    ensures UniqueTop(ByWeight, D, multiset{A, D, FE, CB} - multiset{FE})
    ensures AfterMerge(multiset{A, D, FE, CB}, None, Pick(FE, D)) == multiset{A, CB, FED}
  {
    assert multiset{A, D, FE, CB} - multiset{FE} == multiset{A, D, CB};
    assert multiset{A, D, CB} - multiset{D} == multiset{A, CB};
  }

  lemma SampleStep4()
    ensures UniqueTop(ByWeight, CB, multiset{A, CB, FED})
    ensures UniqueTop(ByWeight, FED, multiset{A, CB, FED} - multiset{CB})
    ensures AfterMerge(multiset{A, CB, FED}, None, Pick(CB, FED)) == multiset{A, CBFED}
  {
    assert multiset{A, CB, FED} - multiset{CB} == multiset{A, FED};
    assert multiset{A, FED} - multiset{FED} == multiset{A};
  }

  lemma SampleStep5()
    ensures UniqueTop(ByWeight, A, multiset{A, CBFED})
    ensures UniqueTop(ByWeight, CBFED, multiset{A, CBFED} - multiset{A})
    ensures AfterMerge(multiset{A, CBFED}, None, Pick(A, CBFED)) == multiset{SampleRoot}
  {
    assert multiset{A, CBFED} - multiset{A} == multiset{CBFED};
  }

  /** With these weights every step has a unique lightest pair, so every run, whatever the `HashMap`
      and heap orders, builds the printed tree. */
  lemma SampleTree(steps: seq<Pick<Option<char>>>, root: SymbolNode)
    requires ValidRun(ByWeight, None, LeafPool(SampleFreqs, Wrapped), steps)
    requires Final(LeafPool(SampleFreqs, Wrapped), None, steps) == multiset{root}
    ensures root == SampleRoot
  {
    SamplePool();
    WrappedInjective<char>();
    RootFacts(ByWeight, None, SampleFreqs, Wrapped, steps, root);
    SampleFirstMerges(steps);
    SampleLastMerges(steps[3..]);
    assert root in multiset{SampleRoot};
  }

  /** The last two merges of every run over the sample's leaves are forced too, and end in the
      printed tree. */
  lemma SampleLastMerges(rest: seq<Pick<Option<char>>>)
    requires ValidRun(ByWeight, None, multiset{A, CB, FED}, rest) && |rest| == 2
    ensures Final(multiset{A, CB, FED}, None, rest) == multiset{SampleRoot}
  {
    ByWeightIsOrd();
    SampleStep4();
    ForcedPick(ByWeight, None, multiset{A, CB, FED}, rest, CB, FED);
    SampleStep5();
    ForcedPick(ByWeight, None, multiset{A, CBFED}, rest[1..], A, CBFED);
    assert rest[1..][1..] == [];
  }

  /** The first three merges of every run over the sample's leaves are forced. */
  lemma SampleFirstMerges(steps: seq<Pick<Option<char>>>)
    requires ValidRun(ByWeight, None, multiset{A, B, C, D, E, F}, steps) && |steps| == 5
    ensures ValidRun(ByWeight, None, multiset{A, CB, FED}, steps[3..])
    ensures Final(multiset{A, B, C, D, E, F}, None, steps) == Final(multiset{A, CB, FED}, None, steps[3..])
  {
    ByWeightIsOrd();
    SampleStep1();
    ForcedPick(ByWeight, None, multiset{A, B, C, D, E, F}, steps, F, E);
    var t1 := steps[1..];
    SampleStep2();
    ForcedPick(ByWeight, None, multiset{A, B, C, D, FE}, t1, C, B);
    var t2 := t1[1..];
    SampleStep3();
    ForcedPick(ByWeight, None, multiset{A, D, FE, CB}, t2, FE, D);
    assert t2[1..] == steps[3..];
  }

  /** `main` without the printing. */
  method Sample() returns (tree: SymbolNode)
    ensures tree == SampleRoot
  {
    var r;
    ghost var steps;
    r, steps := BuildHuffmanTree(SampleFreqs);
    assert 'a' in SampleFreqs;
    SampleTree(steps, r.value);
    tree := r.value;
  }
}
