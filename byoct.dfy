/** `byoct.rs`: `char` symbols with '\0' for parents, a `BinaryHeap` of `Reverse`-wrapped nodes whose
    own `Ord` is already reversed, codes as `String`s of '0'/'1' built by pushing onto and popping
    from one shared `current_code`. */
module Byoct {
  import opened Common
  import opened Heaps
  import opened Tree
  import opened Codes
  import opened Text
  import opened Builder
  import opened Pipeline

  type CharNode = Node<char>

  /** `impl Ord for HuffmanNode`: the frequencies compared the other way round, ties broken by the
      symbol in code point order. */
  function NodeCmp(a: CharNode, b: CharNode): (o: Ordering)
    ensures o == Less <==> a.freq > b.freq || (a.freq == b.freq && a.ch < b.ch)
    ensures o == Equal <==> a.freq == b.freq && a.ch == b.ch
  {
    ThenWith(CmpInt(b.freq, a.freq), CmpChar(a.ch, b.ch))
  }

  /** `impl PartialEq for HuffmanNode`: frequency and symbol. */
  function NodeEq(a: CharNode, b: CharNode): (r: bool)
    ensures r <==> NodeCmp(a, b) == Equal
  {
    a.freq == b.freq && a.ch == b.ch
  }

  lemma NodeCmpIsOrd()
    ensures IsOrd(NodeCmp)
  {
  }

  /** The heap holds `Reverse(node)`, so it ranks nodes by `NodeCmp` turned round once more: a node is
      below another exactly when it has the smaller frequency, or the same one and the larger symbol. */
  function HeapCmp(a: CharNode, b: CharNode): (o: Ordering)
    ensures o == Less <==> a.freq < b.freq || (a.freq == b.freq && a.ch > b.ch)
    ensures o == Equal <==> NodeEq(a, b)
  {
    NodeCmp(b, a)
  }

  lemma HeapCmpIsOrd()
    ensures IsOrd(HeapCmp)
  {
  }

  /** The two reversals cancel: every pop returns a node of greatest frequency, and among those the
      one with the least symbol. */
  lemma PopsMaximum(x: CharNode, p: multiset<CharNode>)
    ensures IsTop(HeapCmp, x, p) <==>
              x in p && forall y :: y in p ==> y.freq < x.freq || (y.freq == x.freq && x.ch <= y.ch)
  {
  }

  /** `build_huffman_tree` as written: a greedy run that pops the two heaviest nodes, the first one
      becoming the left child of a '\0' parent; an empty table panics at the last `unwrap`. */
  method BuildHuffmanTree(frequencies: map<char, nat>) returns (r: Result<CharNode>, ghost steps: seq<Pick<char>>)
    ensures r.Panic? <==> frequencies == map[]
    ensures r.Panic? ==> r.failure == UnwrapNone
    ensures r.Ok? ==> && ValidRun(HeapCmp, '\0', LeafPool(frequencies, Plain), steps)
                      && Final(LeafPool(frequencies, Plain), '\0', steps) == multiset{r.value}
    ensures r.Ok? ==> && |steps| == |frequencies| - 1
                      && r.value.freq == MapSum(frequencies)
                      && Leaves(r.value) == LeafPool(frequencies, Plain)
                      && Built(r.value, '\0')
  {
    HeapCmpIsOrd();
    PlainInjective<char>();
    r, steps := HeapBuild(frequencies, HeapCmp, '\0', Plain);
  }

  /** The builder as the comment on `cmp` intends it, with the heap ranking nodes by `NodeCmp` itself
      (the nodes pushed without `Reverse`): a min-heap on frequency. */
  lemma PopsMinimum(x: CharNode, p: multiset<CharNode>)
    ensures IsTop(NodeCmp, x, p) <==>
              x in p && forall y :: y in p ==> x.freq < y.freq || (x.freq == y.freq && y.ch <= x.ch)
  {
  }

  method BuildHuffmanTreeMinFirst(frequencies: map<char, nat>)
    returns (r: Result<CharNode>, ghost steps: seq<Pick<char>>)
    ensures r.Panic? <==> frequencies == map[]
    ensures r.Panic? ==> r.failure == UnwrapNone
    ensures r.Ok? ==> && ValidRun(NodeCmp, '\0', LeafPool(frequencies, Plain), steps)
                      && Final(LeafPool(frequencies, Plain), '\0', steps) == multiset{r.value}
    ensures r.Ok? ==> && |steps| == |frequencies| - 1
                      && r.value.freq == MapSum(frequencies)
                      && Leaves(r.value) == LeafPool(frequencies, Plain)
                      && Built(r.value, '\0')
  {
    NodeCmpIsOrd();
    PlainInjective<char>();
    r, steps := HeapBuild(frequencies, NodeCmp, '\0', Plain);
  }

  /** `build_huffman_codes_recursive`: a node whose symbol is not '\0' records `current_code`; any
      other node pushes '0', walks its left child, pops, pushes '1', walks its right child and pops,
      so `current_code` is handed back as it came. */
  method BuildHuffmanCodesRecursive(node: CharNode, codes: map<char, string>, currentCode: string)
    returns (codes': map<char, string>, currentCode': string)
    ensures currentCode' == currentCode
    ensures codes' == StdCodes(node, currentCode, codes, SentinelKey, '0', '1')
  {
    if node.ch != '\0' {
      return codes[node.ch := currentCode], currentCode;
    }
    codes' := codes;
    currentCode' := currentCode + ['0'];
    if node.left.Some? {
      codes', currentCode' := BuildHuffmanCodesRecursive(node.left.value, codes', currentCode');
    }
    currentCode' := currentCode'[..|currentCode'| - 1];
    currentCode' := currentCode' + ['1'];
    if node.right.Some? {
      codes', currentCode' := BuildHuffmanCodesRecursive(node.right.value, codes', currentCode');
    }
    currentCode' := currentCode'[..|currentCode'| - 1];
    assert currentCode' == currentCode;
  }

  /** `build_huffman_codes`: the walk from the root with an empty table and an empty code. */
  method BuildHuffmanCodes(root: CharNode) returns (codes: map<char, string>)
    ensures codes == StdCodes(root, [], map[], SentinelKey, '0', '1')
  {
    var currentCode := "";
    codes, currentCode := BuildHuffmanCodesRecursive(root, map[], currentCode);
  }

  /** `encode_contents`: the codes of the characters in text order; a character without a code panics
      at `codes[&ch]`. */
  method EncodeContents(contents: string, codes: map<char, string>) returns (r: Result<string>)
    ensures r == Concat(contents, codes)
  {
    r := EncodeLoop(contents, codes);
  }

  lemma SentinelCodedKeys(m: map<char, nat>)
    ensures CodedKeys(m, Plain, SentinelKey) == m.Keys - {'\0'}
  {
    forall k | k in m.Keys - {'\0'} ensures k in CodedKeys(m, Plain, SentinelKey) {
      assert SentinelKey(Plain(k)).Some?;
    }
  }

  /** What `encode_contents` makes of the codes of a tree built from the counts of `contents`, whichever
      order the heap pops in: every character but '\0' has a code, the codes are prefix-free, and the
      encoding is the concatenation of the codes, of the summed length, except that a '\0' in the
      contents has no code and panics at `codes[&ch]`. */
  lemma ContentsEncoding(cmp: (CharNode, CharNode) -> Ordering, contents: string, frequencies: map<char, nat>,
                         steps: seq<Pick<char>>, root: CharNode)
    requires IsFrequencyTable(contents, frequencies)
    requires ValidRun(cmp, '\0', LeafPool(frequencies, Plain), steps)
    requires Final(LeafPool(frequencies, Plain), '\0', steps) == multiset{root}
    ensures StdCodes(root, [], map[], SentinelKey, '0', '1').Keys == frequencies.Keys - {'\0'}
    ensures PrefixFree(StdCodes(root, [], map[], SentinelKey, '0', '1'))
    ensures Concat(contents, StdCodes(root, [], map[], SentinelKey, '0', '1')).Ok? <==> '\0' !in contents
    ensures Concat(contents, StdCodes(root, [], map[], SentinelKey, '0', '1')).Panic? ==>
              Concat(contents, StdCodes(root, [], map[], SentinelKey, '0', '1')).failure == MissingKey
    ensures Concat(contents, StdCodes(root, [], map[], SentinelKey, '0', '1')).Ok? ==>
              |Concat(contents, StdCodes(root, [], map[], SentinelKey, '0', '1')).value| ==
              CodeLength(contents, StdCodes(root, [], map[], SentinelKey, '0', '1'))
  {
    var codes := StdCodes(root, [], map[], SentinelKey, '0', '1');
    PlainInjective<char>();
    assert TagReadsBack(Plain<char>, SentinelKey);
    BuiltCodes(cmp, '\0', frequencies, Plain, SentinelKey, steps, root, '0', '1');
    SentinelCodedKeys(frequencies);
    ConcatOk(contents, codes);
    if '\0' in contents {
      var i :| 0 <= i < |contents| && contents[i] == '\0';
      assert contents[i] !in codes;
    } else {
      forall i | 0 <= i < |contents| ensures contents[i] in codes {
        assert contents[i] in frequencies;
      }
    }
  }

  /** The tree and the encoded contents that `main` writes for a file that is not a bit string. */
  datatype Output = Output(root: CharNode, bits: string)

  /** The branch of `main` after reading the file: contents made only of '0' and '1' (the empty
      contents among them) are left alone; any other contents are counted, built into a tree, walked
      into codes and encoded, which panics in `encode_contents` on a '\0'. The bits decode back along
      the tree when the contents hold two distinct characters and are empty otherwise. */
  method EncodeFile(contents: string) returns (r: Result<Option<Output>>)
    ensures r == Ok(None) <==> forall i :: 0 <= i < |contents| ==> contents[i] == '0' || contents[i] == '1'
    ensures r.Panic? <==> '\0' in contents
    ensures r.Ok? && r.value.Some? ==>
              && r.value.value.root.freq == |contents| && Built(r.value.value.root, '\0')
              && Concat(contents, StdCodes(r.value.value.root, [], map[], SentinelKey, '0', '1'))
                   == Ok(r.value.value.bits)
              && (TwoDistinct(contents) ==>
                    DecodeFrom(r.value.value.root, r.value.value.root, r.value.value.bits, SentinelKey, '0', '1')
                      == Ok(contents))
              && (!TwoDistinct(contents) ==> r.value.value.bits == [])
  {
    var binary := IsBinary(contents);
    if binary {
      return Ok(None);
    }
    var frequencies := Count(contents);
    var tree;
    ghost var steps;
    tree, steps := BuildHuffmanTree(frequencies);
    if tree.Panic? {
      FrequencyTableEmpty(contents, frequencies);
      assert false;
    }
    var codes := BuildHuffmanCodes(tree.value);
    ContentsEncoding(HeapCmp, contents, frequencies, steps, tree.value);
    var encoded := EncodeContents(contents, codes);
    if encoded.Panic? {
      return Panic(encoded.failure);
    }
    PlainInjective<char>();
    assert TagReadsBack(Plain<char>, SentinelKey);
    SentinelCodedKeys(frequencies);
    forall i | 0 <= i < |contents| ensures contents[i] in CodedKeys(frequencies, Plain, SentinelKey) {
      assert contents[i] in frequencies;
    }
    TextCodes(HeapCmp, '\0', frequencies, Plain, SentinelKey, steps, tree.value, '0', '1', contents);
    r := Ok(Some(Output(tree.value, encoded.value)));
  }

  // ----- the heaviest-first merge on a small table -----

  /** Two rare symbols and one frequent one. */
  const Tiny: map<char, nat> := map['a' := 1, 'b' := 1, 'c' := 5]
  const LeafA: CharNode := Leaf('a', 1)
  const LeafB: CharNode := Leaf('b', 1)
  const LeafC: CharNode := Leaf('c', 5)

  lemma TinyPool()
    ensures LeafPool(Tiny, Plain<char>) == multiset{LeafA, LeafB, LeafC}
    ensures |Tiny| == 3
  {
    PlainInjective<char>();
    var m0: map<char, nat> := map[];
    var m1 := m0['a' := 1];
    var m2 := m1['b' := 1];
    assert LeafPool(m0, Plain<char>) == multiset{};
    LeafPoolAdd(m0, 'a', 1, Plain);
    LeafPoolAdd(m1, 'b', 1, Plain);
    LeafPoolAdd(m2, 'c', 5, Plain);
    assert m2['c' := 5] == Tiny;
    assert Tiny.Keys == {'a', 'b', 'c'};
    assert |Tiny| == |Tiny.Keys|;
  }

  /** A run over a three-entry table that ends in one root takes exactly two steps. */
  lemma TinySteps(cmp: (CharNode, CharNode) -> Ordering, steps: seq<Pick<char>>, root: CharNode)
    requires ValidRun(cmp, '\0', LeafPool(Tiny, Plain), steps)
    requires Final(LeafPool(Tiny, Plain), '\0', steps) == multiset{root}
    ensures |steps| == 2
  {
    PlainInjective<char>();
    RootFacts(cmp, '\0', Tiny, Plain, steps, root);
    TinyPool();
  }

  /** The tree the program builds: heaviest first, so 'c' goes deepest. */
  const HeavyFirst: CharNode := Merge('\0', Merge('\0', LeafC, LeafA), LeafB)

  lemma HeavyFirstSteps()
    ensures UniqueTop(HeapCmp, LeafC, multiset{LeafA, LeafB, LeafC})
    ensures UniqueTop(HeapCmp, LeafA, multiset{LeafA, LeafB, LeafC} - multiset{LeafC})
    ensures AfterMerge(multiset{LeafA, LeafB, LeafC}, '\0', Pick(LeafC, LeafA)) ==
              multiset{LeafB, Merge('\0', LeafC, LeafA)}
    ensures UniqueTop(HeapCmp, Merge('\0', LeafC, LeafA), multiset{LeafB, Merge('\0', LeafC, LeafA)})
    ensures UniqueTop(HeapCmp, LeafB, multiset{LeafB, Merge('\0', LeafC, LeafA)} - multiset{Merge('\0', LeafC, LeafA)})
    ensures AfterMerge(multiset{LeafB, Merge('\0', LeafC, LeafA)}, '\0', Pick(Merge('\0', LeafC, LeafA), LeafB)) ==
              multiset{HeavyFirst}
  {
    assert multiset{LeafA, LeafB, LeafC} - multiset{LeafC} == multiset{LeafA, LeafB};
    assert multiset{LeafA, LeafB} - multiset{LeafA} == multiset{LeafB};
    assert multiset{LeafB, Merge('\0', LeafC, LeafA)} - multiset{Merge('\0', LeafC, LeafA)} == multiset{LeafB};
  }

  /** Every run of the program's builder over `Tiny` ends in `HeavyFirst`. */
  lemma HeavyFirstTree(steps: seq<Pick<char>>, root: CharNode)
    requires ValidRun(HeapCmp, '\0', LeafPool(Tiny, Plain), steps)
    requires Final(LeafPool(Tiny, Plain), '\0', steps) == multiset{root}
    ensures root == HeavyFirst
  {
    TinySteps(HeapCmp, steps, root);
    TinyPool();
    HeapCmpIsOrd();
    HeavyFirstSteps();
    var p := multiset{LeafA, LeafB, LeafC};
    ForcedPick(HeapCmp, '\0', p, steps, LeafC, LeafA);
    var q := multiset{LeafB, Merge('\0', LeafC, LeafA)};
    ForcedPick(HeapCmp, '\0', q, steps[1..], Merge('\0', LeafC, LeafA), LeafB);
    assert steps[1..][1..] == [];
    assert root in multiset{HeavyFirst};
  }

  lemma HeavyFirstWalk()
    ensures StdCodes(HeavyFirst, [], map[], SentinelKey, '0', '1') == map['c' := "00", 'a' := "01", 'b' := "1"]
  {
    var none: map<char, string> := map[];
    assert [] + ['0'] == "0" && [] + ['1'] == "1" && "0" + ['0'] == "00" && "0" + ['1'] == "01";
    assert StdCodes(LeafC, "00", none, SentinelKey, '0', '1') == map['c' := "00"];
    assert StdCodes(LeafA, "01", map['c' := "00"], SentinelKey, '0', '1') == map['c' := "00", 'a' := "01"];
    assert StdCodes(Merge('\0', LeafC, LeafA), "0", none, SentinelKey, '0', '1') == map['c' := "00", 'a' := "01"];
    assert StdCodes(LeafB, "1", map['c' := "00", 'a' := "01"], SentinelKey, '0', '1') ==
           map['c' := "00", 'a' := "01", 'b' := "1"];
  }

  /** The program's tree gives the most frequent symbol a longer code than a rare one. */
  lemma HeavyFirstCodes(steps: seq<Pick<char>>, root: CharNode)
    requires ValidRun(HeapCmp, '\0', LeafPool(Tiny, Plain), steps)
    requires Final(LeafPool(Tiny, Plain), '\0', steps) == multiset{root}
    ensures StdCodes(root, [], map[], SentinelKey, '0', '1') == map['c' := "00", 'a' := "01", 'b' := "1"]
    ensures Tiny['c'] > Tiny['b'] && |StdCodes(root, [], map[], SentinelKey, '0', '1')['c']| >
                                     |StdCodes(root, [], map[], SentinelKey, '0', '1')['b']|
  {
    HeavyFirstTree(steps, root);
    HeavyFirstWalk();
  }

  /** The tree of the min-first builder: the two rare symbols are merged first and 'c' gets one bit. */
  const LightFirst: CharNode := Merge('\0', Merge('\0', LeafB, LeafA), LeafC)

  lemma LightFirstSteps()
    ensures UniqueTop(NodeCmp, LeafB, multiset{LeafA, LeafB, LeafC})
    ensures UniqueTop(NodeCmp, LeafA, multiset{LeafA, LeafB, LeafC} - multiset{LeafB})
    ensures AfterMerge(multiset{LeafA, LeafB, LeafC}, '\0', Pick(LeafB, LeafA)) ==
              multiset{LeafC, Merge('\0', LeafB, LeafA)}
    ensures UniqueTop(NodeCmp, Merge('\0', LeafB, LeafA), multiset{LeafC, Merge('\0', LeafB, LeafA)})
    ensures UniqueTop(NodeCmp, LeafC, multiset{LeafC, Merge('\0', LeafB, LeafA)} - multiset{Merge('\0', LeafB, LeafA)})
    ensures AfterMerge(multiset{LeafC, Merge('\0', LeafB, LeafA)}, '\0', Pick(Merge('\0', LeafB, LeafA), LeafC)) ==
              multiset{LightFirst}
  {
    assert multiset{LeafA, LeafB, LeafC} - multiset{LeafB} == multiset{LeafA, LeafC};
    assert multiset{LeafA, LeafC} - multiset{LeafA} == multiset{LeafC};
    assert multiset{LeafC, Merge('\0', LeafB, LeafA)} - multiset{Merge('\0', LeafB, LeafA)} == multiset{LeafC};
  }

  lemma LightFirstTree(steps: seq<Pick<char>>, root: CharNode)
    requires ValidRun(NodeCmp, '\0', LeafPool(Tiny, Plain), steps)
    requires Final(LeafPool(Tiny, Plain), '\0', steps) == multiset{root}
    ensures root == LightFirst
  {
    TinySteps(NodeCmp, steps, root);
    TinyPool();
    NodeCmpIsOrd();
    LightFirstSteps();
    var p := multiset{LeafA, LeafB, LeafC};
    ForcedPick(NodeCmp, '\0', p, steps, LeafB, LeafA);
    var q := multiset{LeafC, Merge('\0', LeafB, LeafA)};
    ForcedPick(NodeCmp, '\0', q, steps[1..], Merge('\0', LeafB, LeafA), LeafC);
    assert steps[1..][1..] == [];
    assert root in multiset{LightFirst};
  }

  lemma LightFirstWalk()
    ensures StdCodes(LightFirst, [], map[], SentinelKey, '0', '1') == map['b' := "00", 'a' := "01", 'c' := "1"]
  {
    var none: map<char, string> := map[];
    assert [] + ['0'] == "0" && [] + ['1'] == "1" && "0" + ['0'] == "00" && "0" + ['1'] == "01";
    assert StdCodes(LeafB, "00", none, SentinelKey, '0', '1') == map['b' := "00"];
    assert StdCodes(LeafA, "01", map['b' := "00"], SentinelKey, '0', '1') == map['b' := "00", 'a' := "01"];
    assert StdCodes(Merge('\0', LeafB, LeafA), "0", none, SentinelKey, '0', '1') == map['b' := "00", 'a' := "01"];
    assert StdCodes(LeafC, "1", map['b' := "00", 'a' := "01"], SentinelKey, '0', '1') ==
           map['b' := "00", 'a' := "01", 'c' := "1"];
  }

  /** With the min-first order the most frequent symbol gets the shortest code. */
  lemma LightFirstCodes(steps: seq<Pick<char>>, root: CharNode)
    requires ValidRun(NodeCmp, '\0', LeafPool(Tiny, Plain), steps)
    requires Final(LeafPool(Tiny, Plain), '\0', steps) == multiset{root}
    ensures StdCodes(root, [], map[], SentinelKey, '0', '1') == map['b' := "00", 'a' := "01", 'c' := "1"]
    ensures forall k :: k in Tiny && k != 'c' ==>
              |StdCodes(root, [], map[], SentinelKey, '0', '1')['c']| < |StdCodes(root, [], map[], SentinelKey, '0', '1')[k]|
  {
    LightFirstTree(steps, root);
    LightFirstWalk();
  }
}
