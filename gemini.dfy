/** `build_huffman_tree_gemini.rs`: `char` symbols with '\0' for parents, `u32` frequencies, a heap of
    boxed nodes under a reversed `Ord`, codes and encoded text as `Vec<u8>` of 0/1. */
module Gemini {
  import opened Common
  import opened Heaps
  import opened Tree
  import opened Codes
  import opened Text
  import opened Builder
  import opened Pipeline

  /** The bits of a code, as the `u8` values pushed by `traverse`. */
  const Zero: Byte := 0
  const One: Byte := 1

  /** `impl Ord for Node`: the frequencies compared the other way round. */
  function NodeCmp(a: Node<char>, b: Node<char>): (o: Ordering)
    ensures o == Less <==> a.freq > b.freq
    ensures o == Equal <==> a.freq == b.freq
  {
    CmpInt(b.freq, a.freq)
  }

  /** `impl PartialEq for Node`: frequencies only. */
  function NodeEq(a: Node<char>, b: Node<char>): (r: bool)
    ensures r <==> NodeCmp(a, b) == Equal
  {
    a.freq == b.freq
  }

  lemma NodeCmpIsOrd()
    ensures IsOrd(NodeCmp)
  {
  }

  /** The max-heap under the reversed order pops a node of least frequency. */
  lemma PopsMinimum(x: Node<char>, p: multiset<Node<char>>)
    ensures IsTop(NodeCmp, x, p) <==> x in p && forall y :: y in p ==> x.freq <= y.freq
  {
  }

  /** `build_huffman_tree`: the root of a greedy run over the table, popping the least frequent node
      first and putting it on the left; an empty table panics at the last `unwrap`. */
  method BuildHuffmanTree(symbols: map<char, nat>) returns (r: Result<Node<char>>, ghost steps: seq<Pick<char>>)
    ensures r.Panic? <==> symbols == map[]
    ensures r.Ok? ==> && ValidRun(NodeCmp, '\0', LeafPool(symbols, Plain), steps)
                      && Final(LeafPool(symbols, Plain), '\0', steps) == multiset{r.value}
    ensures r.Ok? ==> && r.value.freq == MapSum(symbols)
                      && Leaves(r.value) == LeafPool(symbols, Plain)
                      && Built(r.value, '\0')
  {
    NodeCmpIsOrd();
    PlainInjective<char>();
    r, steps := HeapBuild(symbols, NodeCmp, '\0', Plain);
  }

  /** `traverse`: pushes 0 before the left subtree and 1 before the right one, pops after each, so
      `code` is handed back as it came; a node whose symbol is not '\0' records `code`. */
  method Traverse(node: Node<char>, code: seq<Byte>, codes: map<char, seq<Byte>>)
    returns (code': seq<Byte>, codes': map<char, seq<Byte>>)
    ensures code' == code
    ensures codes' == StdCodes(node, code, codes, SentinelKey, Zero, One)
  {
    if node.ch != '\0' {
      return code, codes[node.ch := code];
    }
    code' := code + [Zero];
    codes' := codes;
    if node.left.Some? {
      code', codes' := Traverse(node.left.value, code', codes');
    }
    code' := code'[..|code'| - 1];
    code' := code' + [One];
    if node.right.Some? {
      code', codes' := Traverse(node.right.value, code', codes');
    }
    code' := code'[..|code'| - 1];
    assert code' == code;
  }

  /** `generate_huffman_codes`: `traverse` from the root with an empty code. */
  method GenerateHuffmanCodes(tree: Node<char>, codes: map<char, seq<Byte>>) returns (codes': map<char, seq<Byte>>)
    ensures codes' == StdCodes(tree, [], codes, SentinelKey, Zero, One)
  {
    var code := [];
    code, codes' := Traverse(tree, code, codes);
  }

  lemma SentinelCodedKeys(m: map<char, nat>)
    ensures CodedKeys(m, Plain, SentinelKey) == m.Keys - {'\0'}
  {
    forall k | k in m.Keys - {'\0'} ensures k in CodedKeys(m, Plain, SentinelKey) {
      assert SentinelKey(Plain(k)).Some?;
    }
  }

  lemma SentinelReadsBack()
    ensures TagReadsBack(Plain<char>, SentinelKey)
  {
  }

  /** The codes of a built tree: every symbol of the table except '\0' gets a code, and the codes
      are prefix-free. */
  lemma BuiltCodeTable(symbols: map<char, nat>, steps: seq<Pick<char>>, root: Node<char>)
    requires ValidRun(NodeCmp, '\0', LeafPool(symbols, Plain), steps)
    requires Final(LeafPool(symbols, Plain), '\0', steps) == multiset{root}
    ensures StdCodes(root, [], map[], SentinelKey, Zero, One).Keys == symbols.Keys - {'\0'}
    ensures PrefixFree(StdCodes(root, [], map[], SentinelKey, Zero, One))
  {
    PlainInjective<char>();
    SentinelReadsBack();
    BuiltCodes(NodeCmp, '\0', symbols, Plain, SentinelKey, steps, root, Zero, One);
    SentinelCodedKeys(symbols);
  }

  /** `decode(encode(text))`: a text of at least two distinct symbols and no '\0' comes back from
      decoding its encoding with the tree built from its own counts. */
  lemma RoundTripText(text: seq<char>, symbols: map<char, nat>, steps: seq<Pick<char>>, root: Node<char>)
    requires IsFrequencyTable(text, symbols)
    requires ValidRun(NodeCmp, '\0', LeafPool(symbols, Plain), steps)
    requires Final(LeafPool(symbols, Plain), '\0', steps) == multiset{root}
    requires |symbols| >= 2
    requires forall i :: 0 <= i < |text| ==> text[i] != '\0'
    ensures Concat(text, StdCodes(root, [], map[], SentinelKey, Zero, One)).Ok?
    ensures DecodeFrom(root, root, Concat(text, StdCodes(root, [], map[], SentinelKey, Zero, One)).value,
                       SentinelKey, Zero, One) == Ok(text)
  {
    PlainInjective<char>();
    SentinelReadsBack();
    forall i | 0 <= i < |text| ensures text[i] in CodedKeys(symbols, Plain, SentinelKey) {
      assert text[i] in symbols;
    }
    BuiltRoundTrip(NodeCmp, '\0', symbols, Plain, SentinelKey, steps, root, Zero, One, text);
  }

  /** `encode`: the codes of the symbols in text order, extended into one `Vec<u8>`; a symbol without
      a code panics at `codes[&c]`. */
  method Encode(text: string, codes: map<char, seq<Byte>>) returns (r: Result<seq<Byte>>)
    ensures r == Concat(text, codes)
  {
    r := EncodeLoop(text, codes);
  }

  /** `decode`: 0 moves to the left child and 1 to the right one, any other byte panics, a missing child
      panics at `unwrap`, and a node whose symbol is not '\0' is emitted and the walk restarts at the
      root. */
  method Decode(encodedBits: seq<Byte>, tree: Node<char>) returns (r: Result<string>)
    ensures r == DecodeFrom(tree, tree, encodedBits, SentinelKey, Zero, One)
  {
    r := DecodeLoop(tree, encodedBits, SentinelKey, Zero, One);
  }

  /** `main` without the printing: count, build, walk, encode and decode. An empty text panics in the
      builder and a '\0' in the text, which has no code, in `encode`; a text with two distinct symbols
      comes back unchanged, and one of a single repeated symbol encodes to nothing. */
  method EncodeDecode(text: string) returns (r: Result<(seq<Byte>, string)>)
    ensures r.Panic? <==> text == [] || '\0' in text
    ensures r.Ok? && TwoDistinct(text) ==> r.value.1 == text
    ensures r.Ok? && !TwoDistinct(text) ==> r.value == ([], [])
  {
    var symbols := Count(text);
    var tree;
    ghost var steps;
    tree, steps := BuildHuffmanTree(symbols);
    if tree.Panic? {
      FrequencyTableEmpty(text, symbols);
      return Panic(tree.failure);
    }
    var codes := GenerateHuffmanCodes(tree.value, map[]);
    BuiltCodeTable(symbols, steps, tree.value);
    if '\0' in text {
      var i :| 0 <= i < |text| && text[i] == '\0';
      ConcatMissing(text, codes, i);
    } else {
      PlainInjective<char>();
      SentinelReadsBack();
      SentinelCodedKeys(symbols);
      forall i | 0 <= i < |text| ensures text[i] in CodedKeys(symbols, Plain, SentinelKey) {
        assert text[i] in symbols;
      }
      TextCodes(NodeCmp, '\0', symbols, Plain, SentinelKey, steps, tree.value, Zero, One, text);
    }
    var encodedBits := Encode(text, codes);
    if encodedBits.Panic? {
      return Panic(encodedBits.failure);
    }
    var decoded := Decode(encodedBits.value, tree.value);
    assert decoded.Ok?;
    r := Ok((encodedBits.value, decoded.value));
  }

  /** The text of `main`, written in pieces. */
  const SampleText: string := "This is an" + " example t" + "ext to be " + "compressed" + " using Huf" + "fman codin" + "g."

  /** The text of `main` comes back from its encoding. */
  method Sample() returns (decoded: string)
    ensures decoded == SampleText
  {
    assert SampleText[0] != SampleText[1];
    assert '\0' !in SampleText;
    var r := EncodeDecode(SampleText);
    decoded := r.value.1;
  }
}
