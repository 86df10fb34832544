/** `build_huffman_tree_comate.rs`: byte symbols, a node type whose `Ord` is derived, a heap of
    `Reverse`-wrapped nodes, and a code walk that visits the children before recording a node's own
    byte. The derived order is total on nodes, so the tree is the same for every `HashMap` order. */
module Comate {
  import opened Common
  import opened Heaps
  import opened Tree
  import opened Codes
  import opened Text
  import opened Builder
  import opened Pipeline

  type ByteNode = Node<Option<Byte>>

  // ----- the derived `Ord` -----

  /** `#[derive(Ord)]`: lexicographic over `(frequency, character, left, right)`, `None` below `Some`. */
  function NodeCmp(a: ByteNode, b: ByteNode): (o: Ordering)
    decreases a, 1
  {
    ThenWith(CmpInt(a.freq, b.freq),
      ThenWith(CmpOptByte(a.ch, b.ch),
        ThenWith(ChildCmp(a.left, b.left), ChildCmp(a.right, b.right))))
  }

  /** The derived `Ord` of `Option<Box<HuffmanNode>>`. */
  function ChildCmp(a: Option<ByteNode>, b: Option<ByteNode>): (o: Ordering)
    decreases a, 0
  {
    match a
    case None => if b.None? then Equal else Less
    case Some(x) => if b.None? then Greater else NodeCmp(x, b.value)
  }

  /** The flipped outcome. */
  function Flip(o: Ordering): (f: Ordering)
    ensures f == Less <==> o == Greater
    ensures f == Greater <==> o == Less
  {
    match o
    case Less => Greater
    case Equal => Equal
    case Greater => Less
  }

  lemma ThenWithFlip(x: Ordering, y: Ordering)
    ensures ThenWith(Flip(x), Flip(y)) == Flip(ThenWith(x, y))
  {
  }

  /** The derived order is antisymmetric: swapping the arguments flips the outcome. */
  lemma {:induction false} NodeCmpFlip(a: ByteNode, b: ByteNode)
    ensures NodeCmp(b, a) == Flip(NodeCmp(a, b))
    decreases a, 1
  {
    ChildCmpFlip(a.left, b.left);
    ChildCmpFlip(a.right, b.right);
    var l, r := ChildCmp(a.left, b.left), ChildCmp(a.right, b.right);
    ThenWithFlip(l, r);
    ThenWithFlip(CmpOptByte(a.ch, b.ch), ThenWith(l, r));
    ThenWithFlip(CmpInt(a.freq, b.freq), ThenWith(CmpOptByte(a.ch, b.ch), ThenWith(l, r)));
  }

  lemma {:induction false} ChildCmpFlip(a: Option<ByteNode>, b: Option<ByteNode>)
    ensures ChildCmp(b, a) == Flip(ChildCmp(a, b))
    decreases a, 0
  {
    if a.Some? && b.Some? {
      NodeCmpFlip(a.value, b.value);
    }
  }

  /** Only identical nodes compare `Equal`. */
  lemma {:induction false} NodeCmpEqual(a: ByteNode, b: ByteNode)
    ensures NodeCmp(a, b) == Equal <==> a == b
    decreases a, 1
  {
    ChildCmpEqual(a.left, b.left);
    ChildCmpEqual(a.right, b.right);
  }

  lemma {:induction false} ChildCmpEqual(a: Option<ByteNode>, b: Option<ByteNode>)
    ensures ChildCmp(a, b) == Equal <==> a == b
    decreases a, 0
  {
    if a.Some? && b.Some? {
      NodeCmpEqual(a.value, b.value);
    }
  }

  /** `Greater` is transitive. */
  lemma {:induction false} NodeCmpTrans(a: ByteNode, b: ByteNode, c: ByteNode)
    requires NodeCmp(a, b) == Greater && NodeCmp(b, c) == Greater
    ensures NodeCmp(a, c) == Greater
    decreases a, 1
  {
    if a.freq == b.freq == c.freq && a.ch == b.ch == c.ch {
      ChildCmpEqual(a.left, b.left);
      ChildCmpEqual(b.left, c.left);
      if a.left == b.left == c.left {
        ChildCmpTrans(a.right, b.right, c.right);
      } else if a.left != b.left && b.left != c.left {
        ChildCmpTrans(a.left, b.left, c.left);
      }
    }
  }

  lemma {:induction false} ChildCmpTrans(a: Option<ByteNode>, b: Option<ByteNode>, c: Option<ByteNode>)
    requires ChildCmp(a, b) == Greater && ChildCmp(b, c) == Greater
    ensures ChildCmp(a, c) == Greater
    decreases a, 0
  {
    if c.Some? {
      NodeCmpTrans(a.value, b.value, c.value);
    }
  }

  lemma NodeCmpIsOrd()
    ensures IsOrd(NodeCmp)
  {
    forall a, b ensures NodeCmp(a, b) == Less <==> NodeCmp(b, a) == Greater {
      NodeCmpFlip(a, b);
    }
    forall a, b, c | NodeCmp(a, b) != Less && NodeCmp(b, c) != Less ensures NodeCmp(a, c) != Less {
      NodeCmpEqual(a, b);
      NodeCmpEqual(b, c);
      if a != b && b != c {
        NodeCmpTrans(a, b, c);
      }
    }
  }

  /** The order the heap ranks `Reverse(node)` by: the derived order flipped. */
  function HeapCmp(a: ByteNode, b: ByteNode): (o: Ordering)
    ensures o == Less <==> NodeCmp(b, a) == Less
  {
    NodeCmp(b, a)
  }

  lemma HeapCmpIsOrd()
    ensures IsOrd(HeapCmp)
    ensures forall a, b :: HeapCmp(a, b) == Equal ==> a == b
  {
    NodeCmpIsOrd();
    forall a, b | HeapCmp(a, b) == Equal ensures a == b {
      NodeCmpEqual(b, a);
    }
  }

  /** Every pop returns the unique least node of the heap under the derived order. */
  lemma PopsUniqueMinimum(x: ByteNode, p: multiset<ByteNode>)
    ensures IsTop(HeapCmp, x, p) <==> x in p && forall y :: y in p && y != x ==> NodeCmp(x, y) == Less
  {
    forall y ensures HeapCmp(x, y) != Less <==> y == x || NodeCmp(x, y) == Less {
      NodeCmpFlip(x, y);
      NodeCmpEqual(x, y);
    }
  }

  // ----- building -----

  /** `build_huffman_tree`: the root of a greedy run over the table, each pop the least node under the
      derived order, parents with `character: None`; an empty table panics at the final `unwrap`. */
  method BuildHuffmanTree(frequencies: map<Byte, nat>)
    returns (r: Result<ByteNode>, ghost steps: seq<Pick<Option<Byte>>>)
    ensures r.Panic? <==> frequencies == map[]
    ensures r.Ok? ==> && ValidRun(HeapCmp, None, LeafPool(frequencies, Wrapped), steps)
                      && Final(LeafPool(frequencies, Wrapped), None, steps) == multiset{r.value}
    ensures r.Ok? ==> && r.value.freq == MapSum(frequencies)
                      && Leaves(r.value) == LeafPool(frequencies, Wrapped)
                      && Built(r.value, None)
  {
    HeapCmpIsOrd();
    WrappedInjective<Byte>();
    r, steps := HeapBuild(frequencies, HeapCmp, None, Wrapped);
  }

  /** Every run of the builder over the same table ends in the same tree, whatever order the table is
      pushed in and however the heap is laid out. */
  lemma OrderIndependent(m: map<Byte, nat>, s1: seq<Pick<Option<Byte>>>, s2: seq<Pick<Option<Byte>>>,
                         r1: ByteNode, r2: ByteNode)
    requires ValidRun(HeapCmp, None, LeafPool(m, Wrapped), s1)
    requires Final(LeafPool(m, Wrapped), None, s1) == multiset{r1}
    requires ValidRun(HeapCmp, None, LeafPool(m, Wrapped), s2)
    requires Final(LeafPool(m, Wrapped), None, s2) == multiset{r2}
    ensures s1 == s2 && r1 == r2
  {
    HeapCmpIsOrd();
    WrappedInjective<Byte>();
    RootFacts(HeapCmp, None, m, Wrapped, s1, r1);
    RootFacts(HeapCmp, None, m, Wrapped, s2, r2);
    RunDeterministic(HeapCmp, None, LeafPool(m, Wrapped), s1, s2);
    assert r1 in multiset{r2};
  }

  // ----- codes -----

  /** What `build_huffman_codes` leaves in `codes`: first the codes of the left subtree (prefix + "0"),
      then of the right one (prefix + "1"), then the node's own byte, if it has one, with the current
      prefix. */
  function ComateCodes(n: ByteNode, code: string, codes: map<Byte, string>): map<Byte, string> {
    var afterLeft := if n.left.Some? then ComateCodes(n.left.value, code + "0", codes) else codes;
    var afterRight := if n.right.Some? then ComateCodes(n.right.value, code + "1", afterLeft) else afterLeft;
    if n.ch.Some? then afterRight[n.ch.value := code] else afterRight
  }

  /** `build_huffman_codes`, updating the table in place. */
  method BuildHuffmanCodes(root: ByteNode, currentCode: string, codes: map<Byte, string>)
    returns (codes': map<Byte, string>)
    ensures codes' == ComateCodes(root, currentCode, codes)
  {
    codes' := codes;
    if root.left.Some? {
      codes' := BuildHuffmanCodes(root.left.value, currentCode + "0", codes');
    }
    if root.right.Some? {
      codes' := BuildHuffmanCodes(root.right.value, currentCode + "1", codes');
    }
    if root.ch.Some? {
      codes' := codes'[root.ch.value := currentCode];
    }
  }

  /** On a built tree, where only leaves carry a byte, visiting the children first changes nothing:
      the walk is the standard one. */
  lemma {:induction false} ComateCodesStd(n: ByteNode, code: string, codes: map<Byte, string>)
    requires Built(n, None)
    ensures ComateCodes(n, code, codes) == StdCodes(n, code, codes, OptionKey, '0', '1')
  {
    if !IsLeaf(n) {
      ComateCodesStd(n.left.value, code + "0", codes);
      ComateCodesStd(n.right.value, code + "1", ComateCodes(n.left.value, code + "0", codes));
    }
  }

  // ----- encoding -----

  /** `encode_huffman`: count the bytes, build the tree, walk it and append the code of every byte in
      order. It panics on empty data (at the final `unwrap` of the builder); otherwise `freqs` is the
      count of `data`, `root` the end of a greedy run over it, `codes` the walk of that root, which
      gives exactly the bytes of `data` a code and is prefix-free, and `encoded` the concatenation, which
      decodes back along the tree once `data` holds two distinct bytes and is empty otherwise. */
  method EncodeHuffman(data: seq<Byte>)
    returns (r: Result<(map<Byte, string>, string)>, ghost freqs: map<Byte, nat>,
             ghost steps: seq<Pick<Option<Byte>>>, ghost root: ByteNode)
    ensures IsFrequencyTable(data, freqs)
    ensures r.Panic? <==> data == []
    ensures r.Ok? ==> && ValidRun(HeapCmp, None, LeafPool(freqs, Wrapped), steps)
                      && Final(LeafPool(freqs, Wrapped), None, steps) == multiset{root}
                      && r.value.0 == ComateCodes(root, "", map[])
    ensures r.Ok? ==> && r.value.0.Keys == (set i | 0 <= i < |data| :: data[i])
                      && PrefixFree(r.value.0)
                      && Concat(data, r.value.0) == Ok(r.value.1)
    ensures r.Ok? && TwoDistinct(data) ==> DecodeFrom(root, root, r.value.1, OptionKey, '0', '1') == Ok(data)
    ensures r.Ok? && !TwoDistinct(data) ==> r.value.1 == ""
  {
    var frequencies := Count(data);
    freqs := frequencies;
    var tree;
    tree, steps := BuildHuffmanTree(frequencies);
    FrequencyTableEmpty(data, frequencies);
    if tree.Panic? {
      root := Leaf(None, 0);
      return Panic(tree.failure), freqs, steps, root;
    }
    root := tree.value;
    var codes := BuildHuffmanCodes(tree.value, "", map[]);
    CodesOfData(data, frequencies, steps, root);
    ComateCodesStd(root, "", map[]);
    WrappedCodedKeys(frequencies);
    forall i | 0 <= i < |data| ensures data[i] in CodedKeys(frequencies, Wrapped, OptionKey) {
      assert data[i] in frequencies;
    }
    TextCodes(HeapCmp, None, frequencies, Wrapped, OptionKey, steps, root, '0', '1', data);
    var encoded := EncodeLoop(data, codes);
    r := Ok((codes, encoded.value));
  }

  /** The code table of the built tree covers the data and lets the encoding succeed. */
  lemma CodesOfData(data: seq<Byte>, freqs: map<Byte, nat>, steps: seq<Pick<Option<Byte>>>, root: ByteNode)
    requires IsFrequencyTable(data, freqs)
    requires ValidRun(HeapCmp, None, LeafPool(freqs, Wrapped), steps)
    requires Final(LeafPool(freqs, Wrapped), None, steps) == multiset{root}
    ensures ComateCodes(root, "", map[]).Keys == (set i | 0 <= i < |data| :: data[i])
    ensures PrefixFree(ComateCodes(root, "", map[]))
    ensures Concat(data, ComateCodes(root, "", map[])).Ok?
  {
    HeapCmpIsOrd();
    WrappedInjective<Byte>();
    WrappedCodedKeys(freqs);
    BuiltCodes(HeapCmp, None, freqs, Wrapped, OptionKey, steps, root, '0', '1');
    RootFacts(HeapCmp, None, freqs, Wrapped, steps, root);
    ComateCodesStd(root, "", map[]);
    var codes := ComateCodes(root, "", map[]);
    var keys := set i | 0 <= i < |data| :: data[i];
    forall c | c in freqs ensures c in keys {
      var i :| 0 <= i < |data| && data[i] == c;
    }
    forall i | 0 <= i < |data| ensures data[i] in codes {
      assert data[i] in freqs;
    }
    ConcatOk(data, codes);
  }

  // ----- the sample of `main` -----

  /** The bytes of "abcabacabcaa". */
  const SampleData: seq<Byte> := [97, 98, 99, 97, 98, 97, 99, 97, 98, 99, 97, 97]

  /** The counts of the sample. */
  const SampleFreqs: map<Byte, nat> := map[97 := 6, 98 := 3, 99 := 3]

  lemma SampleCounts(freqs: map<Byte, nat>)
    requires IsFrequencyTable(SampleData, freqs)
    ensures freqs == SampleFreqs
  {
    SampleOccurrences();
    SampleSymbols();
    FrequencyTableUnique(SampleData, SampleData, freqs, SampleFreqs);
  }

  lemma SampleOccurrences()
    ensures multiset(SampleData)[97] == 6 && multiset(SampleData)[98] == 3 && multiset(SampleData)[99] == 3
  {
  }

  lemma SampleSymbols()
    ensures forall x :: x in SampleData <==> x == 97 || x == 98 || x == 99
  {
  }

  const LeafA: ByteNode := Leaf(Some(97), 6)
  const LeafB: ByteNode := Leaf(Some(98), 3)
  const LeafC: ByteNode := Leaf(Some(99), 3)
  const NodeBC: ByteNode := Merge(None, LeafB, LeafC)
  /** The tree every run over the sample's counts builds. */
  const SampleRoot: ByteNode := Merge(None, NodeBC, LeafA)

  lemma SamplePool()
    ensures LeafPool(SampleFreqs, Wrapped<Byte>) == multiset{LeafA, LeafB, LeafC}
  {
    WrappedInjective<Byte>();
    var none: map<Byte, nat> := map[];
    var m1 := none[97 as Byte := 6];
    var m2 := m1[98 as Byte := 3];
    assert LeafPool(none, Wrapped<Byte>) == multiset{};
    LeafPoolAdd(none, 97 as Byte, 6, Wrapped);
    LeafPoolAdd(m1, 98 as Byte, 3, Wrapped);
    LeafPoolAdd(m2, 99 as Byte, 3, Wrapped);
    assert m2[99 as Byte := 3] == SampleFreqs;
  }

  /** `b` and `c` (equal counts, `b` the smaller byte) are popped first; */
  lemma SampleFirstMerge()
    ensures IsTop(HeapCmp, LeafB, multiset{LeafA, LeafB, LeafC})
    ensures IsTop(HeapCmp, LeafC, multiset{LeafA, LeafB, LeafC} - multiset{LeafB})
    ensures AfterMerge(multiset{LeafA, LeafB, LeafC}, None, Pick(LeafB, LeafC)) == multiset{LeafA, NodeBC}
  {
    assert NodeCmp(LeafB, LeafA) == Less && NodeCmp(LeafB, LeafC) == Less;
    assert NodeCmp(LeafC, LeafA) == Less;
    assert multiset{LeafA, LeafB, LeafC} - multiset{LeafB} == multiset{LeafA, LeafC};
  }

  /** their parent then ties with `a` and goes first, its `None` being below `Some(97)`. */
  lemma SampleSecondMerge()
    ensures IsTop(HeapCmp, NodeBC, multiset{LeafA, NodeBC})
    ensures IsTop(HeapCmp, LeafA, multiset{LeafA, NodeBC} - multiset{NodeBC})
    ensures AfterMerge(multiset{LeafA, NodeBC}, None, Pick(NodeBC, LeafA)) == multiset{SampleRoot}
  {
    assert NodeCmp(NodeBC, LeafA) == Less;
    assert multiset{LeafA, NodeBC} - multiset{NodeBC} == multiset{LeafA};
  }

  lemma SampleRun() returns (pool: multiset<ByteNode>, steps: seq<Pick<Option<Byte>>>)
    ensures pool == multiset{LeafA, LeafB, LeafC}
    ensures steps == [Pick(LeafB, LeafC), Pick(NodeBC, LeafA)]
    ensures ValidRun(HeapCmp, None, pool, steps) && Final(pool, None, steps) == multiset{SampleRoot}
  {
    pool := multiset{LeafA, LeafB, LeafC};
    var first, second := Pick(LeafB, LeafC), Pick(NodeBC, LeafA);
    SampleFirstMerge();
    SampleSecondMerge();
    TwoStepRun(HeapCmp, None, pool, multiset{LeafA, NodeBC}, first, second);
    steps := [first, second];
  }

  /** Every greedy run over the sample's counts ends in `SampleRoot`. */
  lemma SampleTree(steps: seq<Pick<Option<Byte>>>, root: ByteNode)
    requires ValidRun(HeapCmp, None, LeafPool(SampleFreqs, Wrapped<Byte>), steps)
    requires Final(LeafPool(SampleFreqs, Wrapped<Byte>), None, steps) == multiset{root}
    ensures root == SampleRoot
  {
    SampleSteps(steps, root);
    SamplePool();
    var pool, expected := SampleRun();
    HeapCmpIsOrd();
    RunDeterministic(HeapCmp, None, pool, steps, expected);
    assert root in multiset{SampleRoot};
  }

  lemma SampleSteps(steps: seq<Pick<Option<Byte>>>, root: ByteNode)
    requires ValidRun(HeapCmp, None, LeafPool(SampleFreqs, Wrapped<Byte>), steps)
    requires Final(LeafPool(SampleFreqs, Wrapped<Byte>), None, steps) == multiset{root}
    ensures |steps| == 2
  {
    WrappedInjective<Byte>();
    RootFacts(HeapCmp, None, SampleFreqs, Wrapped, steps, root);
    SampleFreqsSize();
  }

  lemma SampleFreqsSize()
    ensures |SampleFreqs| == 3
  {
    assert SampleFreqs.Keys == {97, 98, 99};
    assert |SampleFreqs| == |SampleFreqs.Keys|;
  }

  /** The codes the program prints. */
  const SampleCodes: map<Byte, string> := map[97 := "1", 98 := "00", 99 := "01"]

  lemma SampleWalk()
    ensures ComateCodes(SampleRoot, "", map[]) == SampleCodes
  {
    var none: map<Byte, string> := map[];
    assert "" + "0" == "0" && "" + "1" == "1" && "0" + "0" == "00" && "0" + "1" == "01";
    assert ComateCodes(LeafB, "00", none) == map[98 := "00"];
    assert ComateCodes(LeafC, "01", map[98 := "00"]) == map[98 := "00", 99 := "01"];
    assert ComateCodes(NodeBC, "0", none) == map[98 := "00", 99 := "01"];
    assert ComateCodes(LeafA, "1", map[98 := "00", 99 := "01"]) == SampleCodes;
  }

  lemma SampleEncodingFrom8()
    ensures Concat(SampleData[8..], SampleCodes) == Ok("000111")
  {
    var d, codes := SampleData, SampleCodes;
    assert d == [97, 98, 99, 97, 98, 97, 99, 97, 98, 99, 97, 97];
    assert d[12..] == [];
    assert d[11..][0] == 97 && d[11..][1..] == d[12..];
    assert "1" + [] == "1";
    assert Concat(d[11..], codes) == Ok("1");
    assert d[10..][0] == 97 && d[10..][1..] == d[11..];
    assert "1" + "1" == "11";
    assert Concat(d[10..], codes) == Ok("11");
    assert d[9..][0] == 99 && d[9..][1..] == d[10..];
    assert "01" + "11" == "0111";
    assert Concat(d[9..], codes) == Ok("0111");
    assert d[8..][0] == 98 && d[8..][1..] == d[9..];
    assert "00" + "0111" == "000111";
    assert Concat(d[8..], codes) == Ok("000111");
  }

  lemma SampleEncodingFrom4()
    requires Concat(SampleData[8..], SampleCodes) == Ok("000111")
    ensures Concat(SampleData[4..], SampleCodes) == Ok("001011000111")
  {
    var d, codes := SampleData, SampleCodes;
    assert d == [97, 98, 99, 97, 98, 97, 99, 97, 98, 99, 97, 97];
    assert d[7..][0] == 97 && d[7..][1..] == d[8..];
    assert "1" + "000111" == "1000111";
    assert Concat(d[7..], codes) == Ok("1000111");
    assert d[6..][0] == 99 && d[6..][1..] == d[7..];
    assert "01" + "1000111" == "011000111";
    assert Concat(d[6..], codes) == Ok("011000111");
    assert d[5..][0] == 97 && d[5..][1..] == d[6..];
    assert "1" + "011000111" == "1011000111";
    assert Concat(d[5..], codes) == Ok("1011000111");
    assert d[4..][0] == 98 && d[4..][1..] == d[5..];
    assert "00" + "1011000111" == "001011000111";
    assert Concat(d[4..], codes) == Ok("001011000111");
  }

  lemma SampleEncodingFrom2()
    requires Concat(SampleData[4..], SampleCodes) == Ok("001011000111")
    ensures Concat(SampleData[2..], SampleCodes) == Ok("011001011000111")
  {
    var d, codes := SampleData, SampleCodes;
    assert d == [97, 98, 99, 97, 98, 97, 99, 97, 98, 99, 97, 97];
    assert d[3..][0] == 97 && d[3..][1..] == d[4..];
    assert "1" + "001011000111" == "1001011000111";
    assert Concat(d[3..], codes) == Ok("1001011000111");
    assert d[2..][0] == 99 && d[2..][1..] == d[3..];
    assert "01" + "1001011000111" == "011001011000111";
  }

  lemma SampleEncodingFrom0()
    requires Concat(SampleData[2..], SampleCodes) == Ok("011001011000111")
    ensures Concat(SampleData[0..], SampleCodes) == Ok("100011001011000111")
  {
    var d, codes := SampleData, SampleCodes;
    assert d[0] == 97 && d[1] == 98;
    assert d[1..][0] == 98 && d[1..][1..] == d[2..];
    assert "00" + "011001011000111" == "00011001011000111";
    assert Concat(d[1..], codes) == Ok("00011001011000111");
    assert d[0..][0] == 97 && d[0..][1..] == d[1..];
    assert "1" + "00011001011000111" == "100011001011000111";
  }

  /** `main` without the printing: the codes and the encoding the program prints for "abcabacabcaa". */
  method Sample() returns (codes: map<Byte, string>, encoded: string)
    ensures codes == SampleCodes
    ensures encoded == "100011001011000111"
  {
    var r;
    ghost var freqs, steps, root;
    r, freqs, steps, root := EncodeHuffman(SampleData);
    SampleCounts(freqs);
    SampleTree(steps, root);
    SampleWalk();
    SampleEncodingFrom8();
    SampleEncodingFrom4();
    SampleEncodingFrom2();
    SampleEncodingFrom0();
    assert SampleData[0..] == SampleData;
    codes, encoded := r.value.0, r.value.1;
  }
}
