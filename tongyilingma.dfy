/** `build_huffman_tree_tongyilingma.rs`: `Option<char>` symbols with `None` for parents, `usize`
    frequencies, a heap of `Reverse(Node)`, codes and encoded text as `String`s of '0'/'1'. */
module Tongyilingma {
  import opened Common
  import opened Heaps
  import opened Tree
  import opened Codes
  import opened Text
  import opened Builder
  import opened Pipeline

  /** `impl Ord for Node` (and `PartialOrd`): frequencies ascending. */
  function NodeCmp(a: Node<Option<char>>, b: Node<Option<char>>): (o: Ordering)
    ensures o == Less <==> a.freq < b.freq
    ensures o == Equal <==> a.freq == b.freq
  {
    CmpInt(a.freq, b.freq)
  }

  /** The order of the heap's `Reverse(Node)` elements. */
  function HeapCmp(a: Node<Option<char>>, b: Node<Option<char>>): (o: Ordering)
    ensures o == Less <==> a.freq > b.freq
    ensures o == Equal <==> a.freq == b.freq
  {
    NodeCmp(b, a)
  }

  lemma HeapCmpIsOrd()
    ensures IsOrd(HeapCmp)
  {
  }

  /** Popping a `Reverse(Node)` yields a node of least frequency. */
  lemma PopsMinimum(x: Node<Option<char>>, p: multiset<Node<Option<char>>>)
    ensures IsTop(HeapCmp, x, p) <==> x in p && forall y :: y in p ==> x.freq <= y.freq
  {
  }

  /** `build_huffman_tree`: the root of a greedy run over the table with least-frequent-first pops,
      parents with `character: None`; an empty table panics at the final `unwrap`. */
  method BuildHuffmanTree(frequencies: map<char, nat>)
    returns (r: Result<Node<Option<char>>>, ghost steps: seq<Pick<Option<char>>>)
    ensures r.Panic? <==> frequencies == map[]
    ensures r.Ok? ==> && ValidRun(HeapCmp, None, LeafPool(frequencies, Wrapped), steps)
                      && Final(LeafPool(frequencies, Wrapped), None, steps) == multiset{r.value}
    ensures r.Ok? ==> && r.value.freq == MapSum(frequencies)
                      && Leaves(r.value) == LeafPool(frequencies, Wrapped)
                      && Built(r.value, None)
  {
    HeapCmpIsOrd();
    WrappedInjective<char>();
    r, steps := HeapBuild(frequencies, HeapCmp, None, Wrapped);
  }

  /** `generate_huffman_codes`: a node with `Some(character)` records `prefix`; any other node recurses
      into its children with `prefix` + "0" and `prefix` + "1". */
  method GenerateHuffmanCodes(node: Node<Option<char>>, prefix: string, codes: map<char, string>)
    returns (codes': map<char, string>)
    ensures codes' == StdCodes(node, prefix, codes, OptionKey, '0', '1')
  {
    if node.ch.Some? {
      codes' := codes[node.ch.value := prefix];
    } else {
      codes' := codes;
      if node.left.Some? {
        codes' := GenerateHuffmanCodes(node.left.value, prefix + "0", codes');
      }
      if node.right.Some? {
        codes' := GenerateHuffmanCodes(node.right.value, prefix + "1", codes');
      }
    }
  }

  /** The codes of a built tree cover the table and are prefix-free; `decode(encode(text))` is `text`
      for a text with at least two distinct characters, decoded with the tree built from its counts. */
  lemma CodesAndRoundTrip(text: string, frequencies: map<char, nat>, steps: seq<Pick<Option<char>>>,
                          root: Node<Option<char>>)
    requires IsFrequencyTable(text, frequencies)
    requires ValidRun(HeapCmp, None, LeafPool(frequencies, Wrapped), steps)
    requires Final(LeafPool(frequencies, Wrapped), None, steps) == multiset{root}
    ensures StdCodes(root, "", map[], OptionKey, '0', '1').Keys == frequencies.Keys
    ensures PrefixFree(StdCodes(root, "", map[], OptionKey, '0', '1'))
    ensures |frequencies| >= 2 ==>
              && Concat(text, StdCodes(root, "", map[], OptionKey, '0', '1')).Ok?
              && DecodeFrom(root, root, Concat(text, StdCodes(root, "", map[], OptionKey, '0', '1')).value,
                            OptionKey, '0', '1') == Ok(text)
  {
    WrappedCodedKeys(frequencies);
    BuiltCodes(HeapCmp, None, frequencies, Wrapped, OptionKey, steps, root, '0', '1');
    if |frequencies| >= 2 {
      BuiltRoundTrip(HeapCmp, None, frequencies, Wrapped, OptionKey, steps, root, '0', '1', text);
    }
  }

  /** `encode`: the codes of the characters in text order, joined into one `String`; a character
      without a code panics at `codes.get(&c).unwrap()`. */
  method Encode(text: string, codes: map<char, string>) returns (r: Result<string>)
    ensures r.Ok? <==> forall i :: 0 <= i < |text| ==> text[i] in codes
    ensures r.Ok? ==> Ok(r.value) == Concat(text, codes)
    ensures r.Panic? ==> r.failure == UnwrapNone
  {
    ConcatOk(text, codes);
    var joined := EncodeLoop(text, codes);
    if joined.Panic? {
      r := Panic(UnwrapNone);
    } else {
      r := joined;
    }
  }

  /** `decode`: '0' moves to the left child and '1' to the right one, any other character panics, a
      missing child panics at `unwrap`, and a node holding `Some(character)` is emitted and the walk
      restarts at the root. */
  method Decode(encodedText: string, root: Node<Option<char>>) returns (r: Result<string>)
    ensures r == DecodeFrom(root, root, encodedText, OptionKey, '0', '1')
  {
    r := DecodeLoop(root, encodedText, OptionKey, '0', '1');
  }

  /** `main` without the printing: count, build, walk, encode and decode. Only an empty text panics (in
      the builder); a text with two distinct characters comes back unchanged, and one of a single
      repeated character encodes to the empty string. */
  method EncodeDecode(text: string) returns (r: Result<(string, string)>)
    ensures r.Panic? <==> text == []
    ensures r.Ok? && TwoDistinct(text) ==> r.value.1 == text
    ensures r.Ok? && !TwoDistinct(text) ==> r.value == ("", "")
  {
    var frequencies := Count(text);
    var tree;
    ghost var steps;
    tree, steps := BuildHuffmanTree(frequencies);
    if tree.Panic? {
      FrequencyTableEmpty(text, frequencies);
      return Panic(tree.failure);
    }
    var codes := GenerateHuffmanCodes(tree.value, "", map[]);
    WrappedCodedKeys(frequencies);
    forall i | 0 <= i < |text| ensures text[i] in CodedKeys(frequencies, Wrapped, OptionKey) {
      assert text[i] in frequencies;
    }
    TextCodes(HeapCmp, None, frequencies, Wrapped, OptionKey, steps, tree.value, '0', '1', text);
    ConcatOk(text, codes);
    var encodedText := Encode(text, codes);
    var decodedText := Decode(encodedText.value, tree.value);
    assert decodedText.Ok?;
    r := Ok((encodedText.value, decodedText.value));
  }

  /** The text of `main`, written in pieces. */
  const SampleText: string := "this is an" + " example o" + "f huffman " + "encoding"

  /** The text of `main` comes back from its encoding. */
  method Sample() returns (decoded: string)
    ensures decoded == SampleText
  {
    assert SampleText[0] != SampleText[1];
    var r := EncodeDecode(SampleText);
    decoded := r.value.1;
  }

  /** The table `main` prints for the sample text (one of the tables the `HashMap` orders allow). */
  const SampleTable: map<char, string> := map[
    'c' := "00111", 'x' := "01110", 'u' := "10000", 'h' := "0100", 'a' := "1100", 'l' := "01011",
    's' := "0110", 'g' := "10001", 'f' := "1010", 'e' := "1011", ' ' := "111", 'm' := "0010",
    'n' := "000", 't' := "01111", 'i' := "1101", 'p' := "01010", 'o' := "1001", 'd' := "00110"]

  /** A tree with the sample's counts on its leaves whose paths are exactly the printed codes. */
  const SampleTree: Node<Option<char>> :=
    P(P(P(L('n', 4), P(L('m', 2), P(L('d', 1), L('c', 1)))),
        P(P(L('h', 2), P(L('p', 1), L('l', 1))), P(L('s', 2), P(L('x', 1), L('t', 1))))),
      P(P(P(P(L('u', 1), L('g', 1)), L('o', 2)), P(L('f', 3), L('e', 3))),
        P(P(L('a', 3), L('i', 3)), L(' ', 6))))

  lemma SampleReached0()
    ensures Reached(SampleTree, "00111", OptionKey, '0', '1') == Some('c')
    ensures Reached(SampleTree, "01110", OptionKey, '0', '1') == Some('x')
    ensures Reached(SampleTree, "10000", OptionKey, '0', '1') == Some('u')
    ensures Reached(SampleTree, "0100", OptionKey, '0', '1') == Some('h')
  {
  }

  lemma SampleReached1()
    ensures Reached(SampleTree, "1100", OptionKey, '0', '1') == Some('a')
    ensures Reached(SampleTree, "01011", OptionKey, '0', '1') == Some('l')
    ensures Reached(SampleTree, "0110", OptionKey, '0', '1') == Some('s')
    ensures Reached(SampleTree, "10001", OptionKey, '0', '1') == Some('g')
  {
  }

  lemma SampleReached2()
    ensures Reached(SampleTree, "1010", OptionKey, '0', '1') == Some('f')
    ensures Reached(SampleTree, "1011", OptionKey, '0', '1') == Some('e')
    ensures Reached(SampleTree, "111", OptionKey, '0', '1') == Some(' ')
    ensures Reached(SampleTree, "0010", OptionKey, '0', '1') == Some('m')
  {
  }

  lemma SampleReached3()
    ensures Reached(SampleTree, "000", OptionKey, '0', '1') == Some('n')
    ensures Reached(SampleTree, "01111", OptionKey, '0', '1') == Some('t')
    ensures Reached(SampleTree, "1101", OptionKey, '0', '1') == Some('i')
    ensures Reached(SampleTree, "01010", OptionKey, '0', '1') == Some('p')
  {
  }

  lemma SampleReached4()
    ensures Reached(SampleTree, "1001", OptionKey, '0', '1') == Some('o')
    ensures Reached(SampleTree, "00110", OptionKey, '0', '1') == Some('d')
  {
  }

  lemma SampleTableEntry(k: char)
    requires k in SampleTable
    ensures (k == 'c' && SampleTable[k] == "00111") || (k == 'x' && SampleTable[k] == "01110") || (k == 'u' && SampleTable[k] == "10000") || (k == 'h' && SampleTable[k] == "0100") || (k == 'a' && SampleTable[k] == "1100") || (k == 'l' && SampleTable[k] == "01011") || (k == 's' && SampleTable[k] == "0110") || (k == 'g' && SampleTable[k] == "10001") || (k == 'f' && SampleTable[k] == "1010") || (k == 'e' && SampleTable[k] == "1011") || (k == ' ' && SampleTable[k] == "111") || (k == 'm' && SampleTable[k] == "0010") || (k == 'n' && SampleTable[k] == "000") || (k == 't' && SampleTable[k] == "01111") || (k == 'i' && SampleTable[k] == "1101") || (k == 'p' && SampleTable[k] == "01010") || (k == 'o' && SampleTable[k] == "1001") || (k == 'd' && SampleTable[k] == "00110")
  {
  }

  lemma SampleIsCodeTable()
    ensures IsCodeTable(SampleTree, SampleTable, OptionKey, '0', '1')
  {
    SampleReached0();
    SampleReached1();
    SampleReached2();
    SampleReached3();
    SampleReached4();
    forall k | k in SampleTable ensures Reached(SampleTree, SampleTable[k], OptionKey, '0', '1') == Some(k) {
      SampleTableEntry(k);
    }
  }

  /** The printed table is the code table of `SampleTree`, a tree of the builder's shape whose weight is
      the length of the sample text, and so it is prefix-free. */
  lemma SampleTablePrefixFree()
    ensures Built(SampleTree, None) && SampleTree.freq == |SampleText|
    ensures IsCodeTable(SampleTree, SampleTable, OptionKey, '0', '1')
    ensures PrefixFree(SampleTable)
  {
    SampleTreeBuilt();
    SampleIsCodeTable();
    CodeTablePrefixFree(SampleTree, SampleTable, OptionKey, '0', '1');
  }

  lemma SampleTreeBuilt()
    ensures Built(SampleTree, None) && SampleTree.freq == |SampleText|
  {
    assert |SampleText| == 38;
  }
}
