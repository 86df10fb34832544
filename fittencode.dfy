/** `build_huffman_tree_fittencode.rs`: `Option<char>` symbols (`data`), a heap of boxed nodes under a
    reversed `Ord`, a builder that returns `Option`, and a decoder that matches a growing buffer
    against the code table instead of walking the tree. */
module Fittencode {
  import opened Common
  import opened Heaps
  import opened Tree
  import opened Codes
  import opened Text
  import opened Builder
  import opened Pipeline

  /** `impl Ord for Node`: the frequencies compared the other way round. */
  function NodeCmp(a: Node<Option<char>>, b: Node<Option<char>>): (o: Ordering)
    ensures o == Less <==> a.freq > b.freq
    ensures o == Equal <==> a.freq == b.freq
  {
    CmpInt(b.freq, a.freq)
  }

  lemma NodeCmpIsOrd()
    ensures IsOrd(NodeCmp)
  {
  }

  /** The max-heap under the reversed order pops a node of least frequency. */
  lemma PopsMinimum(x: Node<Option<char>>, p: multiset<Node<Option<char>>>)
    ensures IsTop(NodeCmp, x, p) <==> x in p && forall y :: y in p ==> x.freq <= y.freq
  {
  }

  /** `build_tree`: `None` exactly for an empty table (the last `heap.pop()`), otherwise the root of a
      greedy run with least-frequent-first pops and `data: None` parents. */
  method BuildTree(freqMap: map<char, nat>)
    returns (r: Option<Node<Option<char>>>, ghost steps: seq<Pick<Option<char>>>)
    ensures r.None? <==> freqMap == map[]
    ensures r.Some? ==> && ValidRun(NodeCmp, None, LeafPool(freqMap, Wrapped), steps)
                        && Final(LeafPool(freqMap, Wrapped), None, steps) == multiset{r.value}
    ensures r.Some? ==> && r.value.freq == MapSum(freqMap)
                        && Leaves(r.value) == LeafPool(freqMap, Wrapped)
                        && Built(r.value, None)
  {
    NodeCmpIsOrd();
    WrappedInjective<char>();
    var root;
    root, steps := HeapBuild(freqMap, NodeCmp, None, Wrapped);
    r := if root.Ok? then Some(root.value) else None;
  }

  /** `build_codes`: nothing for `None`; a node with `data = Some(c)` records `prefix`; any other node
      recurses into both (optional) children with `prefix` + "0" and `prefix` + "1". */
  method BuildCodes(node: Option<Node<Option<char>>>, prefix: string, codes: map<char, string>)
    returns (codes': map<char, string>)
    ensures node.None? ==> codes' == codes
    ensures node.Some? ==> codes' == StdCodes(node.value, prefix, codes, OptionKey, '0', '1')
  {
    codes' := codes;
    if node.Some? {
      var n := node.value;
      if n.ch.Some? {
        codes' := codes'[n.ch.value := prefix];
      } else {
        codes' := BuildCodes(n.left, prefix + "0", codes');
        codes' := BuildCodes(n.right, prefix + "1", codes');
      }
    }
  }

  /** `huffman_encode`: counts, builds (an empty input panics at `unwrap`), walks the tree and maps every
      character to its code. Every character of the input gets a code, the table is prefix-free, no
      code is empty once there are two distinct characters, and the encoding is their concatenation. */
  method HuffmanEncode(input: string) returns (r: Result<(string, map<char, string>)>)
    ensures r.Panic? <==> input == []
    ensures r.Ok? ==> var (encoded, codes) := r.value;
              && codes.Keys == (set i | 0 <= i < |input| :: input[i])
              && PrefixFree(codes)
              && Concat(input, codes) == Ok(encoded)
              && (|codes| >= 2 ==> forall k :: k in codes ==> codes[k] != [])
              && (!TwoDistinct(input) ==> encoded == [])
  {
    var freqMap := Count(input);
    ghost var steps;
    var tree;
    tree, steps := BuildTree(freqMap);
    if tree.None? {
      FrequencyTableEmpty(input, freqMap);
      return Panic(UnwrapNone);
    }
    var codes := BuildCodes(tree, "", map[]);
    CodesOfInput(input, freqMap, steps, tree.value);
    var encoded := Concat(input, codes);
    return Ok((encoded.value, codes));
  }

  /** The code table of the tree built from the counts of `input` covers `input`, is prefix-free, and
      has non-empty codes once there are two symbols. */
  lemma CodesOfInput(input: string, freqMap: map<char, nat>, steps: seq<Pick<Option<char>>>,
                     root: Node<Option<char>>)
    requires IsFrequencyTable(input, freqMap)
    requires ValidRun(NodeCmp, None, LeafPool(freqMap, Wrapped), steps)
    requires Final(LeafPool(freqMap, Wrapped), None, steps) == multiset{root}
    ensures StdCodes(root, "", map[], OptionKey, '0', '1').Keys == (set i | 0 <= i < |input| :: input[i])
    ensures PrefixFree(StdCodes(root, "", map[], OptionKey, '0', '1'))
    ensures Concat(input, StdCodes(root, "", map[], OptionKey, '0', '1')).Ok?
    ensures |StdCodes(root, "", map[], OptionKey, '0', '1')| >= 2 ==>
              forall k :: k in StdCodes(root, "", map[], OptionKey, '0', '1') ==>
                StdCodes(root, "", map[], OptionKey, '0', '1')[k] != []
    ensures !TwoDistinct(input) ==> Concat(input, StdCodes(root, "", map[], OptionKey, '0', '1')) == Ok([])
  {
    NodeCmpIsOrd();
    WrappedCodedKeys(freqMap);
    BuiltCodes(NodeCmp, None, freqMap, Wrapped, OptionKey, steps, root, '0', '1');
    var codes := StdCodes(root, "", map[], OptionKey, '0', '1');
    assert |codes| == |codes.Keys| == |freqMap.Keys| == |freqMap|;
    var keys := set i | 0 <= i < |input| :: input[i];
    forall c | c in freqMap ensures c in keys {
      var i :| 0 <= i < |input| && input[i] == c;
    }
    forall i | 0 <= i < |input| ensures input[i] in codes {
      assert input[i] in freqMap;
    }
    ConcatOk(input, codes);
    forall i | 0 <= i < |input| ensures input[i] in CodedKeys(freqMap, Wrapped, OptionKey) {
      assert input[i] in freqMap;
    }
    TextCodes(NodeCmp, None, freqMap, Wrapped, OptionKey, steps, root, '0', '1', input);
  }

  // ----- decoding by table lookup -----

  /** No two characters share a code. */
  ghost predicate DistinctCodes(codes: map<char, string>) {
    forall j, k :: j in codes && k in codes && codes[j] == codes[k] ==> j == k
  }

  /** What `huffman_decode` computes from a buffer `current`: each bit is appended to it, and when the
      buffer equals the code of some character, that character is emitted and the buffer cleared; a
      buffer left over at the end is dropped. */
  ghost function TableDecode(bits: string, codes: map<char, string>, current: string): string
    decreases |bits|
  {
    if bits == [] then []
    else
      var buffer := current + [bits[0]];
      if exists k :: k in codes && codes[k] == buffer then
        var k :| k in codes && codes[k] == buffer;
        [k] + TableDecode(bits[1..], codes, [])
      else TableDecode(bits[1..], codes, buffer)
  }

  /** `huffman_decode`. The inner loop scans the table in `HashMap` order; when no two characters share
      a code the scan order does not matter and the result is `TableDecode`. Otherwise the result is
      still one character per matched code. */
  method HuffmanDecode(encoded: string, codes: map<char, string>) returns (result: string)
    ensures DistinctCodes(codes) ==> result == TableDecode(encoded, codes, [])
    ensures |result| <= |encoded|
    ensures forall i :: 0 <= i < |result| ==> result[i] in codes
  {
    result := [];
    var current: string := [];
    for i := 0 to |encoded|
      invariant DistinctCodes(codes) ==> TableDecode(encoded, codes, []) == result + TableDecode(encoded[i..], codes, current)
      invariant |result| <= i
      invariant forall j :: 0 <= j < |result| ==> result[j] in codes
    {
      assert encoded[i..][0] == encoded[i] && encoded[i..][1..] == encoded[i + 1..];
      current := current + [encoded[i]];
      ghost var buffer := current;
      ghost var before := result;
      ghost var hit: Option<char> := None;
      var rest := codes.Keys;
      while rest != {}
        invariant rest <= codes.Keys
        invariant current == buffer && result == before && hit == None
        invariant forall k :: k in codes.Keys - rest ==> codes[k] != buffer
        decreases |rest|
      {
        var k :| k in rest;
        if codes[k] == current {
          result := result + [k];
          current := [];
          hit := Some(k);
          break;
        }
        rest := rest - {k};
      }
      if hit.Some? {
        assert result == before + [hit.value] && codes[hit.value] == buffer && current == [];
        if DistinctCodes(codes) {
          assert (result + TableDecode(encoded[i + 1..], codes, current)) ==
                 before + ([hit.value] + TableDecode(encoded[i + 1..], codes, []));
        }
      } else {
        assert forall k :: k in codes ==> codes[k] != buffer;
      }
    }
  }

  /** A prefix-free table has no shared codes. */
  lemma PrefixFreeDistinct(codes: map<char, string>)
    requires PrefixFree(codes)
    ensures DistinctCodes(codes)
  {
    forall j, k | j in codes && k in codes && codes[j] == codes[k] ensures j == k {
      assert IsPrefix(codes[j], codes[k]);
    }
  }

  /** Reading the rest of one code from a buffer that holds its first `i` bits emits its character. */
  lemma {:induction false} TableDecodeOne(codes: map<char, string>, k: char, i: nat, rest: string)
    requires PrefixFree(codes) && k in codes && i < |codes[k]|
    ensures TableDecode(codes[k][i..] + rest, codes, codes[k][..i]) == [k] + TableDecode(rest, codes, [])
    decreases |codes[k]| - i
  {
    var c := codes[k];
    var bits := c[i..] + rest;
    assert bits[0] == c[i] && bits[1..] == c[i + 1..] + rest;
    var buffer := c[..i] + [bits[0]];
    assert buffer == c[..i + 1];
    PrefixFreeDistinct(codes);
    if i + 1 == |c| {
      assert buffer == c;
      assert c[i + 1..] + rest == rest;
    } else {
      forall j | j in codes ensures codes[j] != buffer {
        if j == k {
          assert |buffer| < |c|;
        } else {
          assert !IsPrefix(codes[j], c);
        }
      }
      TableDecodeOne(codes, k, i + 1, rest);
    }
  }

  /** With a prefix-free table of non-empty codes, decoding the encoding of a text gives the text. */
  lemma {:induction false} TableRoundTrip(text: string, codes: map<char, string>)
    requires PrefixFree(codes)
    requires forall k :: k in codes ==> codes[k] != []
    requires Concat(text, codes).Ok?
    ensures TableDecode(Concat(text, codes).value, codes, []) == text
    decreases |text|
  {
    if text != [] {
      var c := codes[text[0]];
      TableRoundTrip(text[1..], codes);
      TableDecodeOne(codes, text[0], 0, Concat(text[1..], codes).value);
      assert c[0..] == c && c[..0] == [];
      assert text == [text[0]] + text[1..];
    }
  }

  /** `main` without the printing: encode, then decode with the table. Any input with two distinct
      characters comes back unchanged; one of a single repeated character encodes to nothing. */
  method EncodeDecode(input: string) returns (r: Result<(string, string)>)
    ensures r.Panic? <==> input == []
    ensures r.Ok? && TwoDistinct(input) ==> r.value.1 == input
    ensures r.Ok? && !TwoDistinct(input) ==> r.value == ("", "")
  {
    var enc := HuffmanEncode(input);
    if enc.Panic? {
      return Panic(enc.failure);
    }
    var (encoded, codes) := enc.value;
    var decoded := HuffmanDecode(encoded, codes);
    PrefixFreeDistinct(codes);
    if TwoDistinct(input) {
      var i, j :| 0 <= i < j < |input| && input[i] != input[j];
      assert {input[i], input[j]} <= codes.Keys;
      assert |{input[i], input[j]}| == 2;
      SubsetCard({input[i], input[j]}, codes.Keys);
      TableRoundTrip(input, codes);
    }
    return Ok((encoded, decoded));
  }

  /** The sample input of `main`. */
  method Abracadabra() returns (decoded: string)
    ensures decoded == "abracadabra"
  {
    var r := EncodeDecode("abracadabra");
    assert "abracadabra"[0] != "abracadabra"[1];
    decoded := r.value.1;
  }
}
