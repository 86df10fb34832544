/** What the shared pieces give a built tree: the root of any greedy run over a frequency table,
    walked by the standard code walk, yields a prefix-free code table for exactly the coded keys,
    and the tree decodes every text over those keys. */
module Pipeline {
  import opened Common
  import opened Tree
  import opened Codes

  /** A key turns into a leaf symbol that the walk either ignores or reads back as that key. */
  ghost predicate TagReadsBack<K(!new), S(!new)>(tag: K -> S, key: S -> Option<K>) {
    forall k :: key(tag(k)).Some? ==> key(tag(k)).value == k
  }

  /** The keys a built tree of table `m` gives codes to. */
  ghost function CodedKeys<K(!new), S(!new)>(m: map<K, nat>, tag: K -> S, key: S -> Option<K>): set<K> {
    set k | k in m && key(tag(k)).Some?
  }

  lemma {:induction false} BuiltCodes<K(!new), S(!new), B(!new)>(cmp: (Node<S>, Node<S>) -> Ordering, internal: S,
                                                               m: map<K, nat>, tag: K -> S, key: S -> Option<K>,
                                                               steps: seq<Pick<S>>, root: Node<S>, zero: B, one: B)
    requires Injective(tag) && TagReadsBack(tag, key) && key(internal).None? && zero != one
    requires ValidRun(cmp, internal, LeafPool(m, tag), steps)
    requires Final(LeafPool(m, tag), internal, steps) == multiset{root}
    ensures StdCodes(root, [], map[], key, zero, one).Keys == CodedKeys(m, tag, key)
    ensures IsCodeTable(root, StdCodes(root, [], map[], key, zero, one), key, zero, one)
    ensures PrefixFree(StdCodes(root, [], map[], key, zero, one))
    ensures |m| >= 2 ==> key(root.ch).None?
    ensures |m| >= 2 ==> forall k :: k in StdCodes(root, [], map[], key, zero, one) ==>
                           StdCodes(root, [], map[], key, zero, one)[k] != []
  {
    RootFacts(cmp, internal, m, tag, steps, root);
    StdCodesTable(root, key, zero, one);
    BuiltKeys(root, internal, key);
    LeafPoolKeys(m, tag, key);
    var a := set k | k in m && key(tag(k)).Some? :: key(tag(k)).value;
    assert a == CodedKeys(m, tag, key);
    CodeTablePrefixFree(root, StdCodes(root, [], map[], key, zero, one), key, zero, one);
    if |m| >= 2 {
      LeafPoolFacts(m, tag, internal);
      BuiltRootIsParent(root, internal);
    }
  }

  /** Round trip for a built tree: a text whose every symbol is a coded key of the table, with at least
      two distinct keys in the table, encodes and then decodes to itself. */
  lemma BuiltRoundTrip<K(!new), S(!new), B(!new)>(cmp: (Node<S>, Node<S>) -> Ordering, internal: S,
                                                  m: map<K, nat>, tag: K -> S, key: S -> Option<K>,
                                                  steps: seq<Pick<S>>, root: Node<S>, zero: B, one: B, text: seq<K>)
    requires Injective(tag) && TagReadsBack(tag, key) && key(internal).None? && zero != one
    requires ValidRun(cmp, internal, LeafPool(m, tag), steps)
    requires Final(LeafPool(m, tag), internal, steps) == multiset{root}
    requires |m| >= 2
    requires forall i :: 0 <= i < |text| ==> text[i] in CodedKeys(m, tag, key)
    ensures Concat(text, StdCodes(root, [], map[], key, zero, one)).Ok?
    ensures DecodeFrom(root, root, Concat(text, StdCodes(root, [], map[], key, zero, one)).value, key, zero, one)
              == Ok(text)
  {
    BuiltCodes(cmp, internal, m, tag, key, steps, root, zero, one);
    RoundTrip(root, StdCodes(root, [], map[], key, zero, one), text, key, zero, one);
  }

  /** The pipeline on a text counted by `m` whose every symbol is a coded key: encoding succeeds; with
      two distinct symbols decoding gives the text back, with only one the encoding is empty. */
  lemma TextCodes<K(!new), S(!new), B(!new)>(cmp: (Node<S>, Node<S>) -> Ordering, internal: S,
                                             m: map<K, nat>, tag: K -> S, key: S -> Option<K>,
                                             steps: seq<Pick<S>>, root: Node<S>, zero: B, one: B, text: seq<K>)
    requires Injective(tag) && TagReadsBack(tag, key) && key(internal).None? && zero != one
    requires IsFrequencyTable(text, m)
    requires ValidRun(cmp, internal, LeafPool(m, tag), steps)
    requires Final(LeafPool(m, tag), internal, steps) == multiset{root}
    requires forall i :: 0 <= i < |text| ==> text[i] in CodedKeys(m, tag, key)
    ensures Concat(text, StdCodes(root, [], map[], key, zero, one)).Ok?
    ensures TwoDistinct(text) ==>
              DecodeFrom(root, root, Concat(text, StdCodes(root, [], map[], key, zero, one)).value, key, zero, one)
                == Ok(text)
    ensures !TwoDistinct(text) ==> Concat(text, StdCodes(root, [], map[], key, zero, one)) == Ok([])
  {
    DistinctKeys(text, m);
    if TwoDistinct(text) {
      BuiltRoundTrip(cmp, internal, m, tag, key, steps, root, zero, one, text);
    } else if text != [] {
      assert text[0] in CodedKeys(m, tag, key);
      SingleKey(cmp, internal, m, tag, key, steps, root, zero, one, text[0]);
      ConcatEmptyCode(text, text[0], StdCodes(root, [], map[], key, zero, one));
    }
  }

  /** A table with a single key gives its tree a single leaf and that key the empty code. */
  lemma SingleKey<K(!new), S(!new), B(!new)>(cmp: (Node<S>, Node<S>) -> Ordering, internal: S,
                                             m: map<K, nat>, tag: K -> S, key: S -> Option<K>,
                                             steps: seq<Pick<S>>, root: Node<S>, zero: B, one: B, k: K)
    requires Injective(tag) && TagReadsBack(tag, key)
    requires ValidRun(cmp, internal, LeafPool(m, tag), steps)
    requires Final(LeafPool(m, tag), internal, steps) == multiset{root}
    requires m.Keys == {k} && key(tag(k)).Some?
    ensures steps == [] && IsLeaf(root)
    ensures StdCodes(root, [], map[], key, zero, one) == map[k := []]
  {
    RootFacts(cmp, internal, m, tag, steps, root);
    assert |m| == |m.Keys| == 1;
    LeafPoolFacts(m, tag, internal);
    assert Final(LeafPool(m, tag), internal, steps) == LeafPool(m, tag);
    assert Leaf(tag(k), m[k]) in LeafPool(m, tag);
    assert root == Leaf(tag(k), m[k]);
  }

  /** Variants whose leaves hold `Some(key)` and whose parents hold `None` code every key of the table. */
  lemma WrappedCodedKeys<K(!new)>(m: map<K, nat>)
    ensures Injective(Wrapped<K>) && TagReadsBack(Wrapped<K>, OptionKey<K>)
    ensures CodedKeys(m, Wrapped, OptionKey) == m.Keys
  {
    WrappedInjective<K>();
  }
}
