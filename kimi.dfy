/** `build_huffman_tree_kimi.rs`: `Option<char>` symbols, an `Ord` that ranks by frequency the other
    way round and breaks ties by the symbol, a builder that counts the text itself, and a code walk that
    records a node's own symbol before visiting its children. */
module Kimi {
  import opened Common
  import opened Heaps
  import opened Tree
  import opened Codes
  import opened Text
  import opened Builder
  import opened Pipeline

  type CharNode = Node<Option<char>>

  /** `impl Ord for Node`: the lower frequency ranks higher; on equal frequencies the symbol decides,
      `None` below every `Some`. */
  function NodeCmp(a: CharNode, b: CharNode): (o: Ordering)
    ensures a.freq != b.freq ==> (o == Less <==> a.freq > b.freq)
    ensures a.freq == b.freq ==> o == CmpOptChar(a.ch, b.ch)
  {
    ThenWith(CmpInt(b.freq, a.freq), CmpOptChar(a.ch, b.ch))
  }

  /** `impl PartialEq for Node`: frequency and symbol, the children ignored. */
  function NodeEq(a: CharNode, b: CharNode): (r: bool)
    ensures r <==> NodeCmp(a, b) == Equal
  {
    a.freq == b.freq && a.ch == b.ch
  }

  lemma NodeCmpIsOrd()
    ensures IsOrd(NodeCmp)
  {
  }

  /** The max-heap pops a node of least frequency, and among those one with the greatest symbol. */
  lemma PopsMinimum(x: CharNode, p: multiset<CharNode>)
    ensures IsTop(NodeCmp, x, p) <==>
              && x in p
              && (forall y :: y in p ==> x.freq <= y.freq)
              && (forall y :: y in p && y.freq == x.freq ==> CmpOptChar(x.ch, y.ch) != Less)
  {
  }

  /** On a tie in frequency a leaf (`Some`) always pops before a parent (`None`). */
  lemma LeavesBeforeParents(x: CharNode, y: CharNode, p: multiset<CharNode>)
    requires IsTop(NodeCmp, x, p) && y in p && y.freq == x.freq && y.ch.Some?
    ensures x.ch.Some?
  {
    assert NodeCmp(x, y) != Less;
  }

  /** `build_huffman_tree`: count the characters of `text`, push one leaf per character, merge the
      two top nodes until one is left and pop it; the empty text panics at the last `unwrap`. */
  method BuildHuffmanTree(text: string)
    returns (r: Result<CharNode>, ghost frequency: map<char, nat>, ghost steps: seq<Pick<Option<char>>>)
    ensures IsFrequencyTable(text, frequency)
    ensures r.Panic? <==> text == []
    ensures r.Ok? ==> && ValidRun(NodeCmp, None, LeafPool(frequency, Wrapped), steps)
                      && Final(LeafPool(frequency, Wrapped), None, steps) == multiset{r.value}
    ensures r.Ok? ==> && r.value.freq == |text|
                      && Leaves(r.value) == LeafPool(frequency, Wrapped)
                      && Built(r.value, None)
  {
    var counts := Count(text);
    frequency := counts;
    NodeCmpIsOrd();
    WrappedInjective<char>();
    FrequencyTableEmpty(text, counts);
    r, steps := HeapBuild(counts, NodeCmp, None, Wrapped);
  }

  /** What `generate_huffman_codes` leaves in `codes`: the node's own symbol first, with the current
      code, then the left subtree with `code` + "0" and the right one with `code` + "1". */
  function KimiCodes(n: CharNode, code: string, codes: map<char, string>): map<char, string> {
    var here := if n.ch.Some? then codes[n.ch.value := code] else codes;
    var afterLeft := if n.left.Some? then KimiCodes(n.left.value, code + "0", here) else here;
    if n.right.Some? then KimiCodes(n.right.value, code + "1", afterLeft) else afterLeft
  }

  /** `generate_huffman_codes`, updating the table in place. */
  method GenerateHuffmanCodes(node: CharNode, codes: map<char, string>, code: string)
    returns (codes': map<char, string>)
    ensures codes' == KimiCodes(node, code, codes)
  {
    codes' := codes;
    if node.ch.Some? {
      codes' := codes'[node.ch.value := code];
    }
    if node.left.Some? {
      codes' := GenerateHuffmanCodes(node.left.value, codes', code + "0");
    }
    if node.right.Some? {
      codes' := GenerateHuffmanCodes(node.right.value, codes', code + "1");
    }
  }

  /** On a built tree, where only leaves carry a symbol, recording before descending is the standard
      walk. */
  lemma {:induction false} KimiCodesStd(n: CharNode, code: string, codes: map<char, string>)
    requires Built(n, None)
    ensures KimiCodes(n, code, codes) == StdCodes(n, code, codes, OptionKey, '0', '1')
  {
    if !IsLeaf(n) {
      KimiCodesStd(n.left.value, code + "0", codes);
      KimiCodesStd(n.right.value, code + "1", KimiCodes(n.left.value, code + "0", codes));
    }
  }

  /** `main` without the printing: the walk of the tree built from a text gives every character of the
      text the path to its leaf, nothing else, and no code is a prefix of another; with two distinct
      characters no code is empty. */
  lemma TextCodes(text: string, frequency: map<char, nat>, steps: seq<Pick<Option<char>>>, root: CharNode)
    requires IsFrequencyTable(text, frequency)
    requires ValidRun(NodeCmp, None, LeafPool(frequency, Wrapped), steps)
    requires Final(LeafPool(frequency, Wrapped), None, steps) == multiset{root}
    ensures KimiCodes(root, "", map[]).Keys == (set i | 0 <= i < |text| :: text[i])
    ensures IsCodeTable(root, KimiCodes(root, "", map[]), OptionKey, '0', '1')
    ensures PrefixFree(KimiCodes(root, "", map[]))
    ensures |frequency| >= 2 ==> forall c :: c in KimiCodes(root, "", map[]) ==> KimiCodes(root, "", map[])[c] != []
  {
    NodeCmpIsOrd();
    WrappedInjective<char>();
    WrappedCodedKeys(frequency);
    BuiltCodes(NodeCmp, None, frequency, Wrapped, OptionKey, steps, root, '0', '1');
    RootFacts(NodeCmp, None, frequency, Wrapped, steps, root);
    KimiCodesStd(root, "", map[]);
    var keys := set i | 0 <= i < |text| :: text[i];
    forall c | c in frequency ensures c in keys {
      var i :| 0 <= i < |text| && text[i] == c;
    }
  }

/** `TextCodes` for a text with two different characters, with the coded characters stated as
      those that occur in the text. */
  lemma CodesOfText(text: string, frequency: map<char, nat>, steps: seq<Pick<Option<char>>>, root: CharNode)
    requires TwoDistinct(text) && IsFrequencyTable(text, frequency)
    requires ValidRun(NodeCmp, None, LeafPool(frequency, Wrapped), steps)
    requires Final(LeafPool(frequency, Wrapped), None, steps) == multiset{root}
    ensures forall c :: c in KimiCodes(root, "", map[]) <==> c in text
    ensures IsCodeTable(root, KimiCodes(root, "", map[]), OptionKey, '0', '1')
    ensures PrefixFree(KimiCodes(root, "", map[]))
    ensures forall c :: c in KimiCodes(root, "", map[]) ==> KimiCodes(root, "", map[])[c] != []
  {
    TextCodes(text, frequency, steps, root);
    DistinctKeys(text, frequency);
    forall c ensures c in KimiCodes(root, "", map[]) <==> c in text {
      if c in text {
        var i :| 0 <= i < |text| && text[i] == c;
      }
    }
  }

    // ----- the sample of `main` -----

  const SampleText: string := "this is an example of a huffman tree"

  /** The table the program prints for the sample text. */
  const SampleTable: map<char, string> := map[
    ' ' := "111", 'm' := "1001", 's' := "1011", 'l' := "11001", 'f' := "1101", 'e' := "000",
    'u' := "01011", 'i' := "0110", 'a' := "001", 'r' := "01000", 'o' := "11000", 'p' := "01001",
    'h' := "0111", 'n' := "1000", 't' := "1010", 'x' := "01010"]

  /** A tree with the sample's counts on its leaves whose paths are exactly the printed codes. */
  const SampleTree: CharNode :=
    P(P(P(L('e', 4), L('a', 4)),
        P(P(P(L('r', 1), L('p', 1)), P(L('x', 1), L('u', 1))), P(L('i', 2), L('h', 2)))),
      P(P(P(L('n', 2), L('m', 2)), P(L('t', 2), L('s', 2))),
        P(P(P(L('o', 1), L('l', 1)), L('f', 3)), L(' ', 7))))

  lemma SampleTreeBuilt()
    ensures Built(SampleTree, None) && SampleTree.freq == |SampleText|
  {
  }

  lemma SampleReached0()
    ensures Reached(SampleTree, "111", OptionKey, '0', '1') == Some(' ')
    ensures Reached(SampleTree, "1001", OptionKey, '0', '1') == Some('m')
    ensures Reached(SampleTree, "1011", OptionKey, '0', '1') == Some('s')
    ensures Reached(SampleTree, "11001", OptionKey, '0', '1') == Some('l')
  {
  }

  lemma SampleReached1()
    ensures Reached(SampleTree, "1101", OptionKey, '0', '1') == Some('f')
    ensures Reached(SampleTree, "000", OptionKey, '0', '1') == Some('e')
    ensures Reached(SampleTree, "01011", OptionKey, '0', '1') == Some('u')
    ensures Reached(SampleTree, "0110", OptionKey, '0', '1') == Some('i')
  {
  }

  lemma SampleReached2()
    ensures Reached(SampleTree, "001", OptionKey, '0', '1') == Some('a')
    ensures Reached(SampleTree, "01000", OptionKey, '0', '1') == Some('r')
    ensures Reached(SampleTree, "11000", OptionKey, '0', '1') == Some('o')
    ensures Reached(SampleTree, "01001", OptionKey, '0', '1') == Some('p')
  {
  }

  lemma SampleReached3()
    ensures Reached(SampleTree, "0111", OptionKey, '0', '1') == Some('h')
    ensures Reached(SampleTree, "1000", OptionKey, '0', '1') == Some('n')
    ensures Reached(SampleTree, "1010", OptionKey, '0', '1') == Some('t')
    ensures Reached(SampleTree, "01010", OptionKey, '0', '1') == Some('x')
  {
  }

  /** The printed table is the code table of `SampleTree`, a tree of the builder's shape whose weight is
      the length of the sample text, and so it is prefix-free. */
  lemma SampleTablePrefixFree()
    ensures Built(SampleTree, None) && SampleTree.freq == |SampleText|
    ensures IsCodeTable(SampleTree, SampleTable, OptionKey, '0', '1')
    ensures PrefixFree(SampleTable)
  {
    SampleTreeBuilt();
    SampleIsCodeTable();
    CodeTablePrefixFree(SampleTree, SampleTable, OptionKey, '0', '1');
  }

  lemma SampleIsCodeTable()
    ensures IsCodeTable(SampleTree, SampleTable, OptionKey, '0', '1')
  {
    SampleReached0();
    SampleReached1();
    SampleReached2();
    SampleReached3();
    forall k | k in SampleTable ensures Reached(SampleTree, SampleTable[k], OptionKey, '0', '1') == Some(k) {
      SampleTableEntry(k);
    }
  }

  lemma SampleTableEntry(k: char)
    requires k in SampleTable
    ensures (k == ' ' && SampleTable[k] == "111") || (k == 'm' && SampleTable[k] == "1001") || (k == 's' && SampleTable[k] == "1011") || (k == 'l' && SampleTable[k] == "11001") || (k == 'f' && SampleTable[k] == "1101") || (k == 'e' && SampleTable[k] == "000") || (k == 'u' && SampleTable[k] == "01011") || (k == 'i' && SampleTable[k] == "0110") || (k == 'a' && SampleTable[k] == "001") || (k == 'r' && SampleTable[k] == "01000") || (k == 'o' && SampleTable[k] == "11000") || (k == 'p' && SampleTable[k] == "01001") || (k == 'h' && SampleTable[k] == "0111") || (k == 'n' && SampleTable[k] == "1000") || (k == 't' && SampleTable[k] == "1010") || (k == 'x' && SampleTable[k] == "01010")
  {
  }

  /** The printed table gives a code to exactly the 16 distinct characters of the sample text. */
  lemma SampleTableKeys()
    ensures forall c :: c in SampleTable <==> c in SampleText
  {
    SampleTextInTable();
    SampleTableInText();
  }

  lemma SampleTableInText()
    ensures forall c :: c in SampleTable ==> c in SampleText
  {
    forall c | c in SampleTable ensures c in SampleText {
      if c == ' ' {
        assert SampleText[4] == c;
      } else if c == 'm' {
        assert SampleText[14] == c;
      } else if c == 's' {
        assert SampleText[3] == c;
      } else if c == 'l' {
        assert SampleText[16] == c;
      } else if c == 'f' {
        assert SampleText[20] == c;
      } else if c == 'e' {
        assert SampleText[11] == c;
      } else if c == 'u' {
        assert SampleText[25] == c;
      } else if c == 'i' {
        assert SampleText[2] == c;
      } else if c == 'a' {
        assert SampleText[8] == c;
      } else if c == 'r' {
        assert SampleText[33] == c;
      } else if c == 'o' {
        assert SampleText[19] == c;
      } else if c == 'p' {
        assert SampleText[15] == c;
      } else if c == 'h' {
        assert SampleText[1] == c;
      } else if c == 'n' {
        assert SampleText[9] == c;
      } else if c == 't' {
        assert SampleText[0] == c;
      } else {
        assert c == 'x';
        assert SampleText[12] == c;
      }
    }
  }

  lemma SampleTextInTable()
    ensures forall i :: 0 <= i < |SampleText| ==> SampleText[i] in SampleTable
  {
    assert SampleText == "this is an example of a huffman tree";
  }

  /** The body of `main` for any text: build the tree and walk it from the root with an empty code.
      Whatever order the heap breaks ties in, a text with two different characters gets a code for
      exactly its characters, each the path to its leaf, none empty and none a prefix of another. */
  method TreeAndCodes(text: string) returns (r: Result<CharNode>, codes: map<char, string>)
    ensures r.Panic? <==> text == []
    ensures r.Ok? && TwoDistinct(text) ==>
              && (forall c :: c in codes <==> c in text)
              && IsCodeTable(r.value, codes, OptionKey, '0', '1')
              && PrefixFree(codes)
              && (forall c :: c in codes ==> codes[c] != [])
  {
    ghost var frequency, steps;
    r, frequency, steps := BuildHuffmanTree(text);
    codes := map[];
    if r.Ok? {
      codes := GenerateHuffmanCodes(r.value, map[], "");
      if TwoDistinct(text) {
        CodesOfText(text, frequency, steps, r.value);
      }
    }
  }

  /** `main` without the printing, on the sample text: the codes are a prefix-free code table of the
      built tree, none empty, for exactly the characters of the sample, which are those of the printed
      table. */
  method Sample() returns (root: CharNode, codes: map<char, string>)
    ensures forall c :: c in codes <==> c in SampleText
    ensures forall c :: c in codes <==> c in SampleTable
    ensures IsCodeTable(root, codes, OptionKey, '0', '1')
    ensures PrefixFree(codes)
    ensures forall c :: c in codes ==> codes[c] != []
  {
    SampleTwoDistinct();
    var r;
    r, codes := TreeAndCodes(SampleText);
    root := r.value;
    SampleTableKeys();
  }

  lemma SampleTwoDistinct()
    ensures SampleText != [] && TwoDistinct(SampleText)
  {
    assert SampleText[0] != SampleText[1];
  }
}
