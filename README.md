# Huffman coding variants, modelled in Dafny

The repository holds eight Rust versions of one Huffman coding pipeline:

1. Count how often each symbol occurs.
2. Build a binary tree by repeatedly merging the two best nodes of a pool (a `BinaryHeap`, or in `byoct1.rs` a `Vec` kept sorted by frequency).
3. Walk the tree into a code table, with `'0'`/`0` for a left edge and `'1'`/`1` for a right edge.
4. Encode by concatenating codes.
5. Decode, either by walking the tree bit by bit or, in `fittencode`, by matching a growing buffer against the table.

`byoct1.rs` also writes the tree out as a JSON-like byte string.

## How the model is organised

Shared modules hold everything the variants have in common:

- `Common`: Rust's `Option`, panics as `Result.Panic(Failure)`, `Ordering`, `then_with`, and the laws of `Ord` (`IsOrd`). `IsFrequencyTable` is the meaning of a count, and `TwoDistinct` says a text holds two different symbols.
- `Text`: the counting loop, `is_binary`, and the base-name and stem steps of `main`.
- `Heaps`: `BinaryHeap` as a class over a multiset. `Pop` returns *any* element that no other element exceeds under the element type's `Ord`. Every proof about a builder therefore holds for every way the real heap may break ties, and for every `HashMap` iteration order.
- `Tree`: the node record `Node<S>(ch, freq, left, right)`, leaves and parents, and the pool folds `Weight` and `PoolLeaves`.
  - `ValidRun`/`Final` describe a greedy run: a sequence of picks, each the top of the pool at that point, each replaced by its parent.
  - `RunFacts` and `RootFacts` say what every run keeps: one node fewer per merge, the total weight, the multiset of leaves, and a root whose weight is the sum of the table.
- `Builder`: the heap builder's loops (`PushLeaves`, `MergeAll`, `HeapBuild`). Each variant supplies three things: its heap order (its `Ord`, flipped when nodes are wrapped in `Reverse`), its parent symbol (`'\0'` or `None`), and how a key becomes a leaf symbol. `byoct1.rs` does not use `Builder`: its sorted-`Vec` builder, with `Some('\0')` parents, is its own method.
- `Codes`: the standard walk `StdCodes`. `IsCodeTable` says every code is the path to its key's leaf; `PrefixFree`; `Concat` specifies every encoder; `DecodeFrom` specifies every tree-walking decoder. It also holds the generic round trip `RoundTrip`.
- `Pipeline`: the facts about built trees the variants share.
  - The code table covers exactly the coded keys and is prefix-free.
  - No code is empty once there are two keys.
  - A single key gets the empty code.
  - Decoding the encoding of a text gives the text back.

There is one module per source file. Each one's operations follow that file's own Rust. Imperative code is modelled as methods with loops, or as classes that update state; a method's loop or recursion is proved against the shared specification functions. Order-dependent walks (comate records a node's byte after visiting its children, kimi before) get their own function, and that function is proved equal to `StdCodes` on built trees.

I/O is left out: arguments, files and printing. Each variant's `main` is modelled as a method over its in-memory input. `usize`/`u32` counts are `nat`, and `HashMap`s are `map`s.

## Model

| member | source | states |
|---|---|---|
| Common.CmpInt | rust/build_huffman_tree_tongyilingma.rs:20-24 | `Ord::cmp` on integers: `Less` exactly when `a < b`, `Equal` exactly when `a == b` |
| Common.CmpChar | rust/byoct.rs:34 | `char` comparison in code point order, `Less`/`Equal` in both directions |
| Common.CmpOptChar | rust/build_huffman_tree_kimi.rs:17 | the derived order on `Option<char>`: `None` is below every `Some`, and `Some`s compare by code point |
| Common.CmpOptByte | rust/build_huffman_tree_comate.rs:5-11 | the derived order on `Option<u8>`, as for `Option<char>` |
| Common.ThenWith | rust/byoct.rs:33-34 | `then_with`: the second comparison decides only a tie of the first |
| Common.Prepend | rust/build_huffman_tree_tongyilingma.rs:83 | the decoders' `decoded_text.push(..)`, read from the front: a decoded character goes before the rest of a successful result, and a panic passes through |
| Common.MapSumUpdate | rust/byoct.rs:125 | `*entry(ch).or_insert(0) += 1` changes the sum of counts by the difference between the old and new count |
| Common.FrequencyTableUnique | rust/byoct.rs:122-128 | a count depends only on the multiset of the input: two inputs with the same multiset have the same table |
| Common.FrequencyTableEmpty | rust/byoct.rs:122-128 | only the empty input has an empty table |
| Common.DistinctKeys | rust/byoct.rs:122-128 | the table has two keys or more exactly when the input holds two distinct symbols; otherwise the input repeats its first symbol, which is the only key |
| Text.Count | rust/byoct1.rs:199-208 | the counting loop (also `byoct.rs` 122-128, gemini 145-147, tongyilingma 94-96, fittencode 67-70, kimi 38-40 and comate 24-30) yields exactly the number of occurrences of every symbol and of no other symbol, and the counts sum to the input's length |
| Text.IsBinary | rust/byoct1.rs:190-197 | true exactly when every character is `'0'` or `'1'`, so the empty string is binary (the same function is at `byoct.rs` 113-120) |
| Text.BaseName | rust/byoct.rs:68-75 | the result holds no `/`, is a suffix of the path, and is the whole path or follows a `/` |
| Text.FileName | rust/byoct.rs:68-75 | the loop that clears on `/` and appends otherwise leaves `BaseName(path)` (the same loop is at `byoct1.rs` 152-159) |
| Text.BaseNameStep | rust/byoct.rs:70-74 | one step of that loop: a `/` clears the name, any other character is appended |
| Text.LastIndexOf | rust/byoct.rs:77 | `rfind`: `None` exactly when the character is absent; otherwise the position of an occurrence with none after it |
| Text.DirName | rust/byoct.rs:77 | the file name up to its last `.`; a name without `.` panics at `unwrap` (also `byoct1.rs` 161) |
| Heaps.TopExists | rust/byoct.rs:144-145 | under an `Ord`, every non-empty heap has a top element |
| Heaps.BinaryHeap.constructor | rust/byoct.rs:131 | `BinaryHeap::new()`: an empty heap with the element type's order |
| Heaps.BinaryHeap.Push | rust/byoct.rs:139 | `push` adds exactly one element |
| Heaps.BinaryHeap.Len | rust/byoct.rs:143 | `heap.len()`: the number of elements the heap holds |
| Heaps.BinaryHeap.Pop | rust/byoct.rs:144 | `pop`: `None` on an empty heap; otherwise some element that no element exceeds, which is removed |
| Tree.Leaf | rust/byoct.rs:16-23 | `HuffmanNode::new`: a node without children, with the given symbol and frequency |
| Tree.Merge | rust/byoct.rs:149-154 | the parent: the first node as left child, the second as right, and frequency equal to their sum |
| Tree.BuiltWeight | rust/byoct.rs:149-154 | a built tree's frequency is the sum of its leaves' frequencies |
| Tree.LeafPoolFacts | rust/byoct.rs:132-141 | the pushed leaves are one per table entry, their weight is the sum of the table, and each is its own leaf |
| Tree.LeafPoolAdd | rust/byoct.rs:139 | pushing the leaf of a new key adds exactly that leaf |
| Tree.MergeFacts | rust/byoct.rs:143-157 | one merge shrinks the pool by one and keeps its total weight and its multiset of leaves |
| Tree.RunExtend | rust/byoct.rs:143-157 | popping two top nodes and pushing their parent extends a greedy run by one step |
| Tree.RunFacts | rust/byoct.rs:143-157 | after any run the pool has lost one node per step and kept its weight and leaves |
| Tree.RunDeterministic | rust/build_huffman_tree_comate.rs:38-49 | under an order in which only equal nodes tie, two runs of the same length over the same pool are identical |
| Tree.RunCons | rust/byoct.rs:143-157 | a run is valid exactly when its first step pops two top nodes and the rest is a valid run from the pool after that merge |
| Tree.TwoStepRun | rust/build_huffman_tree_comate.rs:38-49 | two merges each popping top nodes form a valid run ending where the second merge leaves the pool |
| Tree.LeafPoolStep | rust/byoct.rs:132-141 | adding a leaf to a pool of leaves adds one node and its count to the weight, and keeps a pool of leaves |
| Tree.TopUnique | rust/build_huffman_tree_comate.rs:39 | under such an order, the top of a pool is unique |
| Tree.ForcedPick | rust/build_huffman_tree_yiyan.rs:60-62 | when the two nodes to merge are unique tops, every run merges exactly them next |
| Tree.RootFacts | rust/byoct.rs:143-161 | a run that ends in one root takes one step fewer than the table has entries; the root weighs the table's sum, has exactly the table's leaves, and has the builder's shape |
| Builder.HeapBuild | rust/build_huffman_tree_tongyilingma.rs:27-51 | the heap builder: it panics (at `unwrap`) exactly on an empty table; otherwise it returns the root of a greedy run under the heap's order, with `|m| - 1` merges, the table's weight and the table's leaves |
| Builder.PushLeaves | rust/build_huffman_tree_gemini.rs:47-49 | the push loop, in any `HashMap` order, fills the heap with one leaf per entry |
| Builder.MergeAll | rust/build_huffman_tree_gemini.rs:51-63 | `while heap.len() > 1 { pop; pop; push(parent) }` is a greedy run that leaves at most one node |
| Builder.LastPop | rust/build_huffman_tree_gemini.rs:65 | the final `pop().unwrap()` finds a node exactly when the table was not empty, and that node is all that was left |
| Codes.SentinelKey | rust/byoct.rs:172 | a `'\0'` symbol marks a parent; any other symbol is a key |
| Codes.OptionKey | rust/byoct1.rs:276 | `if let Some(ch)` / `is_some()`: a `Some` symbol is a key and `None` marks a parent |
| Codes.StdCodes | rust/byoct.rs:171-188 | the recursive code walk (also gemini 68-85, tongyilingma 54-65, fittencode 55-64): a node with a key records the current prefix and stops; otherwise the left child is walked with `zero` appended and then the right child with `one`, later inserts overwriting earlier ones |
| Codes.StdCodesSpec | rust/build_huffman_tree_tongyilingma.rs:54-65 | the walk adds exactly the keys below the node, each with the prefix plus its path, and leaves other entries alone |
| Codes.StdCodesFrame | rust/build_huffman_tree_tongyilingma.rs:54-65 | the walk adds exactly the keys below the node and leaves every other entry alone |
| Codes.StdCodesReach | rust/build_huffman_tree_tongyilingma.rs:54-65 | each key below the node gets the prefix followed by a path that reaches it |
| Codes.StdCodesTable | rust/build_huffman_tree_tongyilingma.rs:54-65 | from the root, the walk gives every key of the tree the path to its leaf, and gives nothing else |
| Codes.ReachedLeft | rust/build_huffman_tree_tongyilingma.rs:58-60 | a path starting with the zero bit continues in the left child |
| Codes.ReachedRight | rust/build_huffman_tree_tongyilingma.rs:61-63 | a path starting with the one bit continues in the right child |
| Codes.ReachedPrefix | rust/build_huffman_tree_tongyilingma.rs:54-65 | two paths reaching keys, one a prefix of the other, are equal |
| Codes.CodeTablePrefixFree | rust/build_huffman_tree_tongyilingma.rs:54-65 | a table of paths to leaves is prefix-free |
| Codes.BuiltKeys | rust/build_huffman_tree_tongyilingma.rs:41-46 | in a built tree, the keys are exactly those of its leaves |
| Codes.LeafPoolKeys | rust/build_huffman_tree_tongyilingma.rs:28-35 | the keys of the pushed leaves are the table keys that the walk reads back |
| Codes.BuiltRootIsParent | rust/build_huffman_tree_tongyilingma.rs:37-48 | a built tree with two leaves or more has a parent at its root |
| Codes.ConcatOk | rust/byoct.rs:190-196 | encoding succeeds exactly when every symbol has a code; otherwise it panics at `codes[&ch]`; its length is the sum of the code lengths |
| Codes.Concat | rust/byoct.rs:190-196 | what every encoder computes (also gemini 110-118, tongyilingma 68-70): the codes of the symbols in text order, or a `MissingKey` panic at the first symbol without a code |
| Codes.ConcatSnoc | rust/byoct.rs:192-194 | one more symbol appends its code, or panics if it has none |
| Codes.EncodeLoop | rust/byoct.rs:190-196 | the `push_str` loop computes `Concat` |
| Codes.ConcatPanicExtends | rust/byoct.rs:193 | a prefix that panics makes the whole encoding panic |
| Codes.AppendTo | rust/build_huffman_tree_tongyilingma.rs:83 | the decoded text so far is prepended to what the rest decodes to |
| Codes.DecodeLoop | rust/build_huffman_tree_tongyilingma.rs:73-88 | the pointer-walking loop computes `DecodeFrom` |
| Codes.DecodeFrom | rust/build_huffman_tree_tongyilingma.rs:73-88 | what every tree-walking decoder computes (also gemini 120-138, byoct1 267-282): follow `zero` left and `one` right, panic on a missing child or another bit, and emit and restart at the root at every node with a key |
| Codes.DecodeOne | rust/build_huffman_tree_tongyilingma.rs:76-86 | the bits of one code emit its key and restart at the root |
| Codes.RoundTrip | rust/build_huffman_tree_tongyilingma.rs:73-88 | with a table of paths and a parent at the root, decoding the encoding of any text over the table gives the text |
| Codes.SingleLeafCode | rust/build_huffman_tree_tongyilingma.rs:55-56 | a single-leaf root gives its key the empty code, so any text of that key encodes to nothing |
| Codes.ConcatEmptyCode | rust/build_huffman_tree_tongyilingma.rs:69 | a text of one key whose code is empty encodes to nothing |
| Codes.ConcatMissing | rust/byoct.rs:193 | a symbol without a code makes encoding panic |
| Pipeline.BuiltCodes | rust/build_huffman_tree_tongyilingma.rs:54-65 | the walk of a built tree codes exactly the table's coded keys, is a table of paths and is prefix-free; with two keys or more, the root is a parent and no code is empty |
| Pipeline.BuiltRoundTrip | rust/build_huffman_tree_tongyilingma.rs:104-107 | with two keys or more, a text over the coded keys decodes back from its encoding |
| Pipeline.TextCodes | rust/build_huffman_tree_tongyilingma.rs:94-107 | a text encodes along the tree built from its own counts; with two distinct symbols it decodes back, with one it encodes to nothing |
| Pipeline.SingleKey | rust/build_huffman_tree_tongyilingma.rs:50 | a single-key table builds no parent, and its key gets the empty code |
| Pipeline.WrappedCodedKeys | rust/build_huffman_tree_tongyilingma.rs:30 | when leaves hold `Some(key)` and parents `None`, every key of the table gets a code |
| Byoct.NodeCmp | rust/byoct.rs:30-36 | `cmp` is reversed: a higher frequency ranks lower, and the symbol breaks ties |
| Byoct.NodeEq | rust/byoct.rs:44-48 | `eq` compares frequency and symbol, agreeing exactly with `cmp == Equal` |
| Byoct.NodeCmpIsOrd | rust/byoct.rs:30-42 | that `cmp` obeys the laws of `Ord` |
| Byoct.HeapCmp | rust/byoct.rs:139-145 | under `Reverse`, node a ranks below node b exactly when a has the lower frequency, or the same frequency and the larger symbol |
| Byoct.HeapCmpIsOrd | rust/byoct.rs:139 | the order of `Reverse(node)` obeys the laws of `Ord` |
| Byoct.PopsMaximum | rust/byoct.rs:143-145 | every pop returns a node of greatest frequency and, among those, the least symbol |
| Byoct.BuildHuffmanTree | rust/byoct.rs:130-162 | as written: a greedy run that pops the heaviest nodes first; empty tables panic; a root with `|m| - 1` merges, the table's weight and the table's leaves |
| Byoct.PopsMinimum | rust/byoct.rs:32 | with the heap ordered by `cmp` itself, as the comment intends, every pop returns a least-frequency node |
| Byoct.BuildHuffmanTreeMinFirst | rust/byoct.rs:32 | the corrected builder: the same facts, for a run that pops the lightest nodes first |
| Byoct.BuildHuffmanCodesRecursive | rust/byoct.rs:171-188 | the push/pop walk hands `current_code` back unchanged, and leaves the standard code table with `'\0'` marking parents |
| Byoct.BuildHuffmanCodes | rust/byoct.rs:164-169 | the walk from the root with an empty table and code |
| Byoct.EncodeContents | rust/byoct.rs:190-196 | the encoding is the concatenation of the codes in order, or a panic at a missing key |
| Byoct.SentinelCodedKeys | rust/byoct.rs:172 | every table key except `'\0'` gets a code |
| Byoct.ContentsEncoding | rust/byoct.rs:164-196 | for any pop order, the codes cover the contents' characters except `'\0'` and are prefix-free; encoding succeeds exactly without `'\0'`, and its length is the sum of the code lengths |
| Byoct.EncodeFile | rust/byoct.rs:97-110 | `main` past the file reads: bit-string contents (the empty contents among them) are left alone; other contents panic exactly on `'\0'`, and their encoding decodes back along the tree when it has two distinct characters, and is empty otherwise |
| Byoct.TinyPool | rust/byoct.rs:132-141 | the leaves pushed for the table `{a:1, b:1, c:5}` |
| Byoct.TinySteps | rust/byoct.rs:143-157 | a three-entry table takes two merges |
| Byoct.HeavyFirstSteps | rust/byoct.rs:143-157 | the program's pops on that table: `c` with `a` first, then that parent with `b` |
| Byoct.HeavyFirstTree | rust/byoct.rs:130-162 | every run of the program's builder on that table ends in that tree |
| Byoct.HeavyFirstWalk | rust/byoct.rs:171-188 | its codes are `c=00`, `a=01`, `b=1` |
| Byoct.HeavyFirstCodes | rust/byoct.rs:130-188 | the program gives the most frequent character a longer code than a rare one |
| Byoct.LightFirstSteps | rust/byoct.rs:32 | the min-first pops on that table: `b` with `a` first, then that parent with `c` |
| Byoct.LightFirstTree | rust/byoct.rs:32 | every min-first run on that table ends in that tree |
| Byoct.LightFirstWalk | rust/byoct.rs:171-188 | its codes are `b=00`, `a=01`, `c=1` |
| Byoct.LightFirstCodes | rust/byoct.rs:32 | min-first gives the most frequent character the shortest code |
| Byoct1.Utf8 | rust/byoct1.rs:29 | `format!("{}", ch)` writes one to four bytes; ASCII is itself, and other characters have no byte below 0x80 |
| Byoct1.Utf8RoundTrip | rust/byoct1.rs:29 | the UTF-8 bytes read back as the character |
| Byoct1.Decimal | rust/byoct1.rs:32 | `format!("{}", freq)` is at least one decimal digit, with no leading zero |
| Byoct1.DecimalRoundTrip | rust/byoct1.rs:32 | the digits read back as the number |
| Byoct1.SymbolField | rust/byoct1.rs:28-30 | `"ch":"<c>",` for a symbol, nothing for `None`; it holds no brace exactly when the symbol is not a brace |
| Byoct1.Head | rust/byoct1.rs:27-32 | a node's output starts with `{` |
| Byoct1.Serialize | rust/byoct1.rs:26-38 | `serialize` appends exactly the node's serialisation to `out`: head, `,"left":`, the left child if present, `,"right":`, the right child if present, and `}` |
| Byoct1.Serialized | rust/byoct1.rs:26-38 | what `serialize` writes for a node: its head, `,"left":`, the left child, `,"right":`, the right child and `}` |
| Byoct1.Child | rust/byoct1.rs:34-36 | a present child writes its own serialisation, and an absent one writes nothing |
| Byoct1.AppendHead | rust/byoct1.rs:27-32 | the first four appends add the head |
| Byoct1.AppendSerialized | rust/byoct1.rs:33-37 | the last five appends complete the node |
| Byoct1.SerializeTree | rust/byoct1.rs:133-137 | `serialize_tree` is the serialisation into an empty buffer |
| Byoct1.Utf8NoBraces | rust/byoct1.rs:29 | a character other than a brace writes no brace byte |
| Byoct1.HeadBraces | rust/byoct1.rs:27-32 | a head holds one `{` and no `}` |
| Byoct1.SerializedBraces | rust/byoct1.rs:26-38 | when no symbol is a brace, the output holds exactly as many `{` and as many `}` as the tree has nodes |
| Byoct1.OccurrencesParts | rust/byoct1.rs:26-38 | the braces of a node are those of its head and children plus the closing one; the `"left"` and `"right"` keys add none |
| Byoct1.ChildBraces | rust/byoct1.rs:34-36 | a present child adds as many `{` as `}` (its node count), an absent one adds none |
| Byoct1.DeserializeGuard | rust/byoct1.rs:41-43 | the check passes exactly for input that starts with `{` and ends with `}` (a lone `{` counts only once) |
| Byoct1.SerializedPassesGuard | rust/byoct1.rs:41-43 | every serialised tree passes that check |
| Byoct1.RightAfterValue | rust/byoct1.rs:114-121 | one past the first `,` or `}`, or the length when there is none |
| Byoct1.LeftAfterValue | rust/byoct1.rs:122-129 | the position of the first `,`, or the length when there is none |
| Byoct1.ByFreq | rust/byoct1.rs:212 | `sort_by_key(|node| node.freq)` puts lower frequencies first |
| Byoct1.ByFreqIsOrd | rust/byoct1.rs:212 | that order obeys the laws of `Ord` |
| Byoct1.InsertPos | rust/byoct1.rs:224 | where a stable sort places a node: after every node no heavier than it, before the first heavier one |
| Byoct1.InsertByFreq | rust/byoct1.rs:224 | inserting there adds exactly that node and keeps the `Vec` sorted |
| Byoct1.SortByFreq | rust/byoct1.rs:212 | the sort is a permutation and its result is sorted by frequency |
| Byoct1.SortSorted | rust/byoct1.rs:224 | sorting a sorted `Vec` changes nothing (stability) |
| Byoct1.LastGoesLast | rust/byoct1.rs:223-224 | a node at least as heavy as every other stays at the end |
| Byoct1.SortAppend | rust/byoct1.rs:223-224 | pushing a parent and sorting again places it after every node of equal frequency |
| Byoct1.HeadIsTop | rust/byoct1.rs:215 | the front of the sorted `Vec` is a node of least frequency |
| Byoct1.TakeTwo | rust/byoct1.rs:215-216 | the two `remove(0)` take a lightest node, then a lightest node of the rest |
| Byoct1.CollectLeaves | rust/byoct1.rs:211 | one `Some(ch)` leaf per table entry, in any order |
| Byoct1.BuildHuffmanTree | rust/byoct1.rs:210-228 | the sorted-`Vec` builder: empty tables panic at `unwrap`; otherwise the root of a greedy run with `Some('\0')` parents, `|m| - 1` merges, the table's weight and the table's leaves |
| Byoct1.NulKey | rust/byoct1.rs:241 | `Some('\0')` and `None` are not keys; any other `Some(ch)` is |
| Byoct1.BuildHuffmanCodesRecursive | rust/byoct1.rs:240-257 | the walk leaves `WalkCodes` and, unless it panics, hands `current_code` back unchanged |
| Byoct1.WalkCodes | rust/byoct1.rs:240-257 | what the code walk leaves in `codes`: a node whose symbol is not `Some('\0')` records the current code (and panics at `expect` on `None`), any other node walks its children with `0` and then `1` appended |
| Byoct1.BuildHuffmanCodes | rust/byoct1.rs:230-238 | the walk from the root with an empty table and code |
| Byoct1.WalkCodesStd | rust/byoct1.rs:240-257 | when every node carries a symbol, the walk cannot panic, and it is the standard walk with `Some('\0')` marking parents |
| Byoct1.BuiltAllSome | rust/byoct1.rs:217-222 | the builder's trees carry a symbol at every node |
| Byoct1.LeafPoolSome | rust/byoct1.rs:211 | every pushed leaf carries a symbol |
| Byoct1.NulCodedKeys | rust/byoct1.rs:241-242 | every table key except `'\0'` gets a code |
| Byoct1.TreeCodes | rust/byoct1.rs:230-257 | the walk of a built tree does not panic, codes exactly the non-`'\0'` keys with their paths, and is prefix-free |
| Byoct1.EncodeContents | rust/byoct1.rs:259-265 | the encoding is the concatenation of the codes in order, or a panic at a missing key |
| Byoct1.Decode | rust/byoct1.rs:267-282 | as written: `decode` emits at every node whose `ch` is `Some`; on the builder's trees it emits one character per bit |
| Byoct1.EmitsPerBit | rust/byoct1.rs:276-279 | on a tree with a symbol at every node, each bit emits exactly one character |
| Byoct1.DecodeAtLeaves | rust/byoct1.rs:267-282 | the corrected decoder: `Some('\0')` nodes are passed through like parents |
| Byoct1.ContentsCodes | rust/byoct1.rs:173-180 | on the tree built from the contents' counts, encoding succeeds exactly without `'\0'`; the codes cover the contents' characters; with two distinct characters the corrected decoder gives the contents back, and with one the encoding is empty |
| Byoct1.ContentsKeys | rust/byoct1.rs:259-265 | a table of the counted keys except `'\0'` encodes the contents exactly when they hold no `'\0'` |
| Byoct1.EncodeFile | rust/byoct1.rs:173-186 | the encoding branch of `main`: count, build, walk, encode and serialise. It panics exactly on empty contents or a `'\0'`; from `main` empty contents never get here, because the empty string passes `is_binary` (190-197) and takes the decode branch. Otherwise the tree bytes are the root's serialisation, the codes are the contents' characters and are prefix-free, and the bits are their concatenation, which the corrected decoder reads back when there are two distinct characters and which is empty otherwise |
| Byoct1.EncodeThenDecode | rust/byoct1.rs:169-180 | encoding followed by the corrected decoder gives the contents back once they have two distinct characters |
| Byoct1.SkewedPool | rust/byoct1.rs:211 | the leaves for the table `{a:1, b:2, c:4}` |
| Byoct1.SkewedSteps | rust/byoct1.rs:214-225 | on that table each pick is forced: `a` with `b`, then that parent with `c` |
| Byoct1.SkewedTree | rust/byoct1.rs:210-228 | every run of the builder on that table ends in that tree |
| Byoct1.SkewedWalk | rust/byoct1.rs:240-257 | its codes are `a=00`, `b=01`, `c=1` |
| Byoct1.DecodeEmitsParents | rust/byoct1.rs:276 | on that tree, `"a"` encodes to `"00"`; `decode` as written turns `"00"` into `"\0\0"`, and the corrected decoder turns it into `"a"` |
| Byoct1.SkewedEncoding | rust/byoct1.rs:259-265 | `"a"` encodes to `"00"` under those codes |
| Byoct1.SkewedDecoding | rust/byoct1.rs:267-282 | `"00"` decodes to `"\0\0"` as written and to `"a"` when corrected |
| Byoct1.SkewedDecodes | rust/byoct1.rs:267-282 | the program's own functions on that table encode `"a"` to `"00"`; `decode` returns `"\0\0"` and the corrected decoder returns `"a"` |
| Gemini.NodeCmp | rust/build_huffman_tree_gemini.rs:37-42 | `cmp` is reversed on frequency: `Less` exactly when a is heavier, `Equal` exactly on equal frequency |
| Gemini.NodeEq | rust/build_huffman_tree_gemini.rs:23-27 | `eq` compares frequency only, agreeing with `cmp == Equal` |
| Gemini.NodeCmpIsOrd | rust/build_huffman_tree_gemini.rs:31-42 | that `cmp` obeys the laws of `Ord` |
| Gemini.PopsMinimum | rust/build_huffman_tree_gemini.rs:52-53 | the max-heap under the reversed order pops a node of least frequency |
| Gemini.BuildHuffmanTree | rust/build_huffman_tree_gemini.rs:44-66 | panics exactly on an empty table; otherwise the root of a least-first greedy run with `'\0'` parents, the table's weight and the table's leaves |
| Gemini.Traverse | rust/build_huffman_tree_gemini.rs:68-85 | `traverse` hands `code` back as it came, and leaves the standard table with bits 0/1 and `'\0'` marking parents |
| Gemini.GenerateHuffmanCodes | rust/build_huffman_tree_gemini.rs:87-90 | `traverse` from the root with an empty code |
| Gemini.SentinelCodedKeys | rust/build_huffman_tree_gemini.rs:69 | every key except `'\0'` gets a code |
| Gemini.SentinelReadsBack | rust/build_huffman_tree_gemini.rs:69 | a non-`'\0'` leaf reads back as its own symbol |
| Gemini.BuiltCodeTable | rust/build_huffman_tree_gemini.rs:68-90 | the codes of a built tree are the table's keys except `'\0'`, and they are prefix-free |
| Gemini.RoundTripText | rust/build_huffman_tree_gemini.rs:149-156 | with two distinct symbols and no `'\0'`, decoding the encoding gives the text back |
| Gemini.Encode | rust/build_huffman_tree_gemini.rs:110-118 | the codes in text order, or a panic at `codes[&c]` |
| Gemini.Decode | rust/build_huffman_tree_gemini.rs:120-138 | 0 goes left and 1 goes right; other bytes panic with "Invalid bit", a missing child panics at `unwrap`, and a non-`'\0'` node is emitted before the walk restarts at the root |
| Gemini.EncodeDecode | rust/build_huffman_tree_gemini.rs:140-158 | `main`: it panics exactly on empty text or a `'\0'`; two distinct symbols come back unchanged, and one repeated symbol encodes to nothing |
| Gemini.Sample | rust/build_huffman_tree_gemini.rs:140-161 | the sample sentence decodes back to itself, as the printed output says |
| Tongyilingma.NodeCmp | rust/build_huffman_tree_tongyilingma.rs:14-24 | `cmp` and `partial_cmp`: frequencies in ascending order |
| Tongyilingma.HeapCmp | rust/build_huffman_tree_tongyilingma.rs:28-35 | the order of the `Reverse(node)` elements: a higher frequency ranks lower, and equal frequencies tie |
| Tongyilingma.HeapCmpIsOrd | rust/build_huffman_tree_tongyilingma.rs:28-35 | that order obeys the laws of `Ord` |
| Tongyilingma.PopsMinimum | rust/build_huffman_tree_tongyilingma.rs:38-39 | a pop yields a node of least frequency |
| Tongyilingma.BuildHuffmanTree | rust/build_huffman_tree_tongyilingma.rs:27-51 | panics exactly on an empty table; otherwise the root of a least-first greedy run with `None` parents, the table's weight and the table's leaves |
| Tongyilingma.GenerateHuffmanCodes | rust/build_huffman_tree_tongyilingma.rs:54-65 | the standard table: each `Some(character)` node gets its path, with `"0"` for left and `"1"` for right |
| Tongyilingma.CodesAndRoundTrip | rust/build_huffman_tree_tongyilingma.rs:90-108 | the codes of a built tree are exactly the table's keys and are prefix-free; with two keys, a text decodes back from its encoding |
| Tongyilingma.Encode | rust/build_huffman_tree_tongyilingma.rs:68-70 | succeeds exactly when every character has a code, and is then their concatenation; otherwise it panics at `get(&c).unwrap()` |
| Tongyilingma.Decode | rust/build_huffman_tree_tongyilingma.rs:73-88 | `'0'` goes left and `'1'` goes right; other characters panic, a missing child panics at `unwrap`, and a `Some` node is emitted before the walk restarts |
| Tongyilingma.EncodeDecode | rust/build_huffman_tree_tongyilingma.rs:90-109 | `main`: it panics exactly on empty text; two distinct characters come back unchanged, and one repeated character encodes to nothing |
| Tongyilingma.Sample | rust/build_huffman_tree_tongyilingma.rs:90-116 | the sample sentence decodes back to itself, as the printed output says |
| Tongyilingma.SampleTreeBuilt | rust/build_huffman_tree_tongyilingma.rs:111-114 | the tree read off the printed table has the builder's shape and weighs the sample's length |
| Tongyilingma.SampleReached0 | rust/build_huffman_tree_tongyilingma.rs:111-114 | the first four printed codes reach their characters' leaves |
| Tongyilingma.SampleReached1 | rust/build_huffman_tree_tongyilingma.rs:111-114 | the next four printed codes reach their leaves |
| Tongyilingma.SampleReached2 | rust/build_huffman_tree_tongyilingma.rs:111-114 | the next four printed codes reach their leaves |
| Tongyilingma.SampleReached3 | rust/build_huffman_tree_tongyilingma.rs:111-114 | the next four printed codes reach their leaves |
| Tongyilingma.SampleReached4 | rust/build_huffman_tree_tongyilingma.rs:111-114 | the last two printed codes reach their leaves |
| Tongyilingma.SampleTableEntry | rust/build_huffman_tree_tongyilingma.rs:111-114 | each entry of the printed table |
| Tongyilingma.SampleIsCodeTable | rust/build_huffman_tree_tongyilingma.rs:111-114 | every printed code is the path to its character's leaf |
| Tongyilingma.SampleTablePrefixFree | rust/build_huffman_tree_tongyilingma.rs:111-114 | the printed table is the code table of that tree, and it is prefix-free |
| Fittencode.NodeCmp | rust/build_huffman_tree_fittencode.rs:19-23 | `cmp` is reversed on frequency |
| Fittencode.NodeCmpIsOrd | rust/build_huffman_tree_fittencode.rs:13-23 | that `cmp` obeys the laws of `Ord` |
| Fittencode.PopsMinimum | rust/build_huffman_tree_fittencode.rs:38-39 | each pop is a node of least frequency |
| Fittencode.BuildTree | rust/build_huffman_tree_fittencode.rs:25-53 | `None` exactly for an empty table; otherwise the root of a least-first greedy run with `data: None` parents, the table's weight and the table's leaves |
| Fittencode.BuildCodes | rust/build_huffman_tree_fittencode.rs:55-64 | nothing for `None`; otherwise the standard table from the prefix |
| Fittencode.HuffmanEncode | rust/build_huffman_tree_fittencode.rs:66-80 | it panics exactly on empty input. Otherwise the codes are exactly the input's characters; they are prefix-free; they are non-empty once there are two keys; the encoding is their concatenation, which is empty for one repeated character |
| Fittencode.CodesOfInput | rust/build_huffman_tree_fittencode.rs:72-77 | the table of the tree built from the input's counts covers the input, is prefix-free, and has no empty code once there are two keys |
| Fittencode.HuffmanDecode | rust/build_huffman_tree_fittencode.rs:82-98 | when no two characters share a code, the result is `TableDecode` whatever the `HashMap` scan order; it is never longer than the input, and only emits coded characters |
| Fittencode.TableDecode | rust/build_huffman_tree_fittencode.rs:82-98 | what the decode loop computes: each bit is appended to the buffer, and once the buffer equals a code its character is emitted and the buffer cleared |
| Fittencode.PrefixFreeDistinct | rust/build_huffman_tree_fittencode.rs:88-93 | a prefix-free table has no shared codes |
| Fittencode.TableDecodeOne | rust/build_huffman_tree_fittencode.rs:86-94 | feeding one code's remaining bits emits its character and clears the buffer |
| Fittencode.TableRoundTrip | rust/build_huffman_tree_fittencode.rs:100-103 | with a prefix-free table of non-empty codes, table decoding inverts the encoding |
| Fittencode.EncodeDecode | rust/build_huffman_tree_fittencode.rs:100-107 | `main`: it panics exactly on empty input; two distinct characters come back unchanged, and one repeated character gives `("", "")` |
| Fittencode.Abracadabra | rust/build_huffman_tree_fittencode.rs:100-111 | `"abracadabra"` comes back, as the printed output says |
| Comate.NodeCmp | rust/build_huffman_tree_comate.rs:5-11 | the derived order is lexicographic over (frequency, character, left, right) |
| Comate.ChildCmp | rust/build_huffman_tree_comate.rs:5-11 | the derived order on `Option<Box<HuffmanNode>>`: `None` below every `Some`, and two `Some`s by the derived node order |
| Comate.Flip | rust/build_huffman_tree_comate.rs:5 | swaps `Less` and `Greater` |
| Comate.ThenWithFlip | rust/build_huffman_tree_comate.rs:5 | flipping commutes with the lexicographic combination |
| Comate.NodeCmpFlip | rust/build_huffman_tree_comate.rs:5-11 | swapping the arguments flips the outcome |
| Comate.ChildCmpFlip | rust/build_huffman_tree_comate.rs:9-10 | the same for the children's `Option<Box<_>>` order |
| Comate.NodeCmpEqual | rust/build_huffman_tree_comate.rs:5-11 | only identical nodes compare `Equal` |
| Comate.ChildCmpEqual | rust/build_huffman_tree_comate.rs:9-10 | the same for children |
| Comate.NodeCmpTrans | rust/build_huffman_tree_comate.rs:5-11 | `Greater` is transitive |
| Comate.ChildCmpTrans | rust/build_huffman_tree_comate.rs:9-10 | the same for children |
| Comate.NodeCmpIsOrd | rust/build_huffman_tree_comate.rs:5-11 | the derived order obeys the laws of `Ord` |
| Comate.HeapCmp | rust/build_huffman_tree_comate.rs:35 | the order of `Reverse(node)` is the derived one flipped |
| Comate.HeapCmpIsOrd | rust/build_huffman_tree_comate.rs:35 | it is an `Ord` under which only equal nodes tie |
| Comate.PopsUniqueMinimum | rust/build_huffman_tree_comate.rs:39-40 | each pop is the unique least node under the derived order |
| Comate.BuildHuffmanTree | rust/build_huffman_tree_comate.rs:32-52 | panics exactly on an empty table; otherwise the root of a least-first greedy run with `None` parents, the table's weight and the table's leaves |
| Comate.OrderIndependent | rust/build_huffman_tree_comate.rs:32-52 | every run over the same table ends in the same tree, whatever order the `HashMap` yields |
| Comate.BuildHuffmanCodes | rust/build_huffman_tree_comate.rs:54-65 | children first, then the node's own byte: the result is `ComateCodes` |
| Comate.ComateCodes | rust/build_huffman_tree_comate.rs:54-65 | what `build_huffman_codes` leaves in the table: both subtrees first, with `0` and `1` appended, then the node's own byte with the current code |
| Comate.ComateCodesStd | rust/build_huffman_tree_comate.rs:54-65 | on built trees that order gives the standard table |
| Comate.EncodeHuffman | rust/build_huffman_tree_comate.rs:67-79 | it panics exactly on empty data. Otherwise the codes are exactly the data's bytes and prefix-free, the encoding is their concatenation, and it decodes back along the tree when there are two distinct bytes and is empty otherwise |
| Comate.CodesOfData | rust/build_huffman_tree_comate.rs:67-76 | the table of the built tree covers the data and lets encoding succeed |
| Comate.SampleCounts | rust/build_huffman_tree_comate.rs:82 | `abcabacabcaa` counts `a=6`, `b=3`, `c=3` |
| Comate.SamplePool | rust/build_huffman_tree_comate.rs:34-36 | the three leaves pushed |
| Comate.SampleFirstMerge | rust/build_huffman_tree_comate.rs:39-47 | `b` and `c` are popped first (tied counts, `b` the smaller byte) |
| Comate.SampleSecondMerge | rust/build_huffman_tree_comate.rs:39-47 | their parent ties with `a` and goes first, since `None` is below `Some` |
| Comate.SampleRun | rust/build_huffman_tree_comate.rs:38-49 | the sample's leaf pool and its two merges form a valid run whose final pool is just the sample tree |
| Comate.SampleTree | rust/build_huffman_tree_comate.rs:32-52 | every run over the sample's counts ends in that tree |
| Comate.SampleSteps | rust/build_huffman_tree_comate.rs:38-49 | such a run has two steps |
| Comate.SampleFreqsSize | rust/build_huffman_tree_comate.rs:82 | the sample has three distinct bytes |
| Comate.SampleWalk | rust/build_huffman_tree_comate.rs:94-97 | the walk gives `a=1`, `b=00`, `c=01`, as printed |
| Comate.SampleEncodingFrom8 | rust/build_huffman_tree_comate.rs:74-76 | the encoding of the last four bytes |
| Comate.SampleEncodingFrom4 | rust/build_huffman_tree_comate.rs:74-76 | the encoding of the last eight bytes |
| Comate.SampleEncodingFrom2 | rust/build_huffman_tree_comate.rs:74-76 | the encoding of the last ten bytes |
| Comate.SampleEncodingFrom0 | rust/build_huffman_tree_comate.rs:98 | the whole sample encodes to `100011001011000111`, as printed |
| Comate.Sample | rust/build_huffman_tree_comate.rs:81-98 | `main` returns exactly the printed codes and encoding |
| Kimi.NodeCmp | rust/build_huffman_tree_kimi.rs:14-19 | reversed on frequency; on a frequency tie, the derived `Option<char>` order decides |
| Kimi.NodeEq | rust/build_huffman_tree_kimi.rs:27-31 | `eq` compares frequency and character, agreeing with `cmp == Equal` |
| Kimi.NodeCmpIsOrd | rust/build_huffman_tree_kimi.rs:14-25 | that `cmp` obeys the laws of `Ord` |
| Kimi.PopsMinimum | rust/build_huffman_tree_kimi.rs:55-56 | each pop is a node of least frequency and, among those, of greatest character |
| Kimi.LeavesBeforeParents | rust/build_huffman_tree_kimi.rs:17 | on a frequency tie a `Some` leaf pops before a `None` parent |
| Kimi.BuildHuffmanTree | rust/build_huffman_tree_kimi.rs:34-69 | counts the text exactly, and panics exactly on empty text; otherwise the root of a greedy run with `None` parents, weighing the text's length and holding the table's leaves |
| Kimi.GenerateHuffmanCodes | rust/build_huffman_tree_kimi.rs:72-84 | the node's own character first, then both subtrees: the result is `KimiCodes` |
| Kimi.KimiCodes | rust/build_huffman_tree_kimi.rs:72-84 | what `generate_huffman_codes` leaves in the table: the node's own character first, then the left and the right subtree with `0` and `1` appended |
| Kimi.KimiCodesStd | rust/build_huffman_tree_kimi.rs:72-84 | on built trees that order gives the standard table |
| Kimi.TextCodes | rust/build_huffman_tree_kimi.rs:86-90 | the codes are exactly the text's characters, each with the path to its leaf; they are prefix-free, and non-empty once there are two characters |
| Kimi.CodesOfText | rust/build_huffman_tree_kimi.rs:86-90 | for a text with two different characters, a character is coded exactly when it occurs in the text, and the codes are paths to leaves, prefix-free and non-empty |
| Kimi.TreeAndCodes | rust/build_huffman_tree_kimi.rs:86-90 | the body of `main` on any text: it panics exactly on the empty text; with two different characters the codes are exactly the text's characters, paths to the leaves of the built tree, prefix-free and non-empty |
| Kimi.SampleTreeBuilt | rust/build_huffman_tree_kimi.rs:98-113 | the tree read off the printed table has the builder's shape and weighs the sample's length |
| Kimi.SampleReached0 | rust/build_huffman_tree_kimi.rs:98-101 | the first four printed codes lead to their characters |
| Kimi.SampleReached1 | rust/build_huffman_tree_kimi.rs:102-105 | the next four |
| Kimi.SampleReached2 | rust/build_huffman_tree_kimi.rs:106-109 | the next four |
| Kimi.SampleReached3 | rust/build_huffman_tree_kimi.rs:110-113 | the last four |
| Kimi.SampleTablePrefixFree | rust/build_huffman_tree_kimi.rs:98-113 | the printed table is the code table of that tree, and it is prefix-free |
| Kimi.SampleIsCodeTable | rust/build_huffman_tree_kimi.rs:98-113 | every printed code is the path to its character's leaf |
| Kimi.SampleTableEntry | rust/build_huffman_tree_kimi.rs:98-113 | each entry of the printed table |
| Kimi.SampleTableKeys | rust/build_huffman_tree_kimi.rs:87 | a character has a printed code exactly when it occurs in the sample |
| Kimi.SampleTableInText | rust/build_huffman_tree_kimi.rs:87 | every character with a printed code occurs in the sample |
| Kimi.SampleTextInTable | rust/build_huffman_tree_kimi.rs:87 | every character of the sample has a printed code |
| Kimi.SampleTwoDistinct | rust/build_huffman_tree_kimi.rs:87 | the sample holds two different characters |
| Kimi.Sample | rust/build_huffman_tree_kimi.rs:86-90 | `main` on the sample: whatever the heap's tie-breaks, the codes are prefix-free, non-empty paths to the leaves of the built tree, for exactly the sample's characters, which are those of the printed table |
| Yiyan.QueueCmp | rust/build_huffman_tree_yiyan.rs:30-40 | `PriorityQueueNode` is ordered by its stored key alone |
| Yiyan.QueueEq | rust/build_huffman_tree_yiyan.rs:44-48 | equality compares the stored key alone, agreeing with the order |
| Yiyan.HeapCmp | rust/build_huffman_tree_yiyan.rs:56 | the order of `Reverse(entry)`: a larger key ranks lower |
| Yiyan.HeapCmpIsOrd | rust/build_huffman_tree_yiyan.rs:56 | that order obeys the laws of `Ord` |
| Yiyan.PopsMinimumKey | rust/build_huffman_tree_yiyan.rs:61-62 | each pop is an entry of least key |
| Yiyan.ByWeight | rust/build_huffman_tree_yiyan.rs:56 | the rank the heap gives the wrapped nodes: lower weight first |
| Yiyan.ByWeightIsOrd | rust/build_huffman_tree_yiyan.rs:56 | it obeys the laws of `Ord` |
| Yiyan.Entry | rust/build_huffman_tree_yiyan.rs:68 | the entry pushed for a node holds that node, with its own weight as key |
| Yiyan.EntriesRemove | rust/build_huffman_tree_yiyan.rs:61-62 | removing a node from the pool removes its entry |
| Yiyan.EntriesAdd | rust/build_huffman_tree_yiyan.rs:68 | adding a node adds its entry |
| Yiyan.EntriesMember | rust/build_huffman_tree_yiyan.rs:56-68 | the invariant: an entry is in the heap exactly when its node is in the pool with its own weight as key, one entry per node |
| Yiyan.TopOfEntries | rust/build_huffman_tree_yiyan.rs:61-62 | a poppable entry is the entry of a least-weight node, and popping it removes exactly that node |
| Yiyan.BuildHuffmanTree | rust/build_huffman_tree_yiyan.rs:51-74 | panics exactly on an empty table; otherwise the root of a least-first greedy run with `None` parents, `|m| - 1` merges, the table's weight and the table's leaves |
| Yiyan.PushEntries | rust/build_huffman_tree_yiyan.rs:55-57 | the push loop fills the heap with one entry per leaf |
| Yiyan.PushOne | rust/build_huffman_tree_yiyan.rs:56 | one push adds the entry of one leaf |
| Yiyan.MergeStep | rust/build_huffman_tree_yiyan.rs:61-68 | replacing the two popped entries by the parent's entry is one merge on the pool |
| Yiyan.MergeEntries | rust/build_huffman_tree_yiyan.rs:60-69 | the merge loop performs a greedy run over the pool, leaving at most one entry |
| Yiyan.MergeOne | rust/build_huffman_tree_yiyan.rs:61-68 | one iteration pops two top nodes and pushes their parent, shrinking the heap by one |
| Yiyan.PopEntry | rust/build_huffman_tree_yiyan.rs:61 | `pop().unwrap().0` returns the entry of a least-weight node, whose key is its weight |
| Yiyan.SamplePool | rust/build_huffman_tree_yiyan.rs:80-87 | the six leaves of the sample table |
| Yiyan.SampleStep1 | rust/build_huffman_tree_yiyan.rs:60-69 | `f` (5) with `e` (9) |
| Yiyan.SampleStep2 | rust/build_huffman_tree_yiyan.rs:60-69 | `c` (12) with `b` (13) |
| Yiyan.SampleStep3 | rust/build_huffman_tree_yiyan.rs:60-69 | (f,e) (14) with `d` (16) |
| Yiyan.SampleStep4 | rust/build_huffman_tree_yiyan.rs:60-69 | (c,b) (25) with ((f,e),d) (30) |
| Yiyan.SampleStep5 | rust/build_huffman_tree_yiyan.rs:60-69 | `a` (45) with the 55 node |
| Yiyan.SampleFirstMerges | rust/build_huffman_tree_yiyan.rs:60-69 | the first three merges over the sample's leaves are forced: f with e, c with b, then (f, e) with d |
| Yiyan.SampleLastMerges | rust/build_huffman_tree_yiyan.rs:60-69 | the last two merges are forced too and end in the printed tree |
| Yiyan.SampleTree | rust/build_huffman_tree_yiyan.rs:96-169 | every run over the sample ends in the printed tree: root 100, `a` on the left, and ((c, b), ((f, e), d)) on the right |
| Yiyan.Sample | rust/build_huffman_tree_yiyan.rs:78-93 | `main` builds exactly the printed tree |

Proof helpers with no counterpart in the source, and so no row: `Common.SubsetCard` (a subset is no larger), `Common.MapSumRemove` (a table's sum is any entry plus the sum of the rest), `Tree.MapPoolRemove` (the image of a pool splits off any member), `Tree.SwapUnion`, `Yiyan.SameTable` (maps with the same entries are equal), `Byoct1.Size` (the number of nodes of a tree), `Byoct1.Occurrences` and `Byoct1.OccurrencesConcat` (counting a byte in a sequence, additive over concatenation), and the sample-tree shorthands `Tree.P` and `Tree.L`.

## Left out

- File and terminal I/O in every `main` is not modelled: arguments, `read_to_string`, `write`, `create_dir_all` and `println!`. The printing loop at `rust/byoct1.rs:234-236` is also left out. `main`s are modelled as methods over their in-memory input.
- The decode branch of `rust/byoct1.rs` (166-171) is not modelled beyond `decode` itself. It reads a fixed `huffman_tree.txt`, not the `<dir>.huffman.tree` that the encode branch writes, and it goes through `deserialize`.
- The body of `HuffmanNode::deserialize` (`rust/byoct1.rs:44-111`) is not modelled. It does not type-check at lines 91 and 97, where `&bytes[i]` is a `&u8` where a slice is needed. Only its guard (41-43) is modelled.
- The `step1_*` files are not part of this model. They repeat the counting loop with file reading and printing.
- The commented-out closure at `rust/build_huffman_tree_gemini.rs:92-108` is not modelled.
- The `BinaryHeap` array layout and the `HashMap` iteration order are not modelled. A pop may return any top element and the table may be visited in any order; every builder is proved for all of these choices.
- Huffman optimality is not modelled. No file claims it, and `rust/byoct.rs` does not achieve it (see Findings).
- `usize`/`u32` overflow of frequency sums is not modelled; counts are unbounded `nat`.
- Byte offsets versus character indices are not modelled: `rust/byoct.rs:77` slices a `String` at the byte position `rfind` returns, while `Text.DirName` works on character positions. The two agree for ASCII names.
- The printed `Encoded bits` list of gemini (160) is not checked. It depends on `HashMap` order, because several symbols tie in frequency; `Gemini.Sample` proves only that the text comes back.
- Tongyilingma's printed table (111-114) is checked against a tree of the builder's shape that carries the sample's counts (`Tongyilingma.SampleTablePrefixFree`). It is not checked that the builder must produce that particular tree, because several nodes tie in frequency there; `Tongyilingma.Sample` proves that the text comes back.
- Kimi's printed table is checked against a tree of the builder's shape that carries the sample's counts. It is not checked that the builder must produce that particular tree, because equal-frequency parents tie there.
- `rust/build_huffman_tree_yiyan.rs` has no encoder or decoder (line 76 says they are omitted), so none is modelled.
- `Byoct1.SortByFreq`: stability is stated for the case the builder uses (`SortSorted`, `SortAppend`: re-sorting after a push onto a sorted `Vec` inserts the parent after its equals), not as a general property of the sort.
- `Byoct1.BuildHuffmanCodesRecursive`: restoration of `current_code` is stated only for walks that do not panic. A `None` symbol panics at `expect` before the pop, and no built tree has one.
- `Byoct.EncodeFile`: it keeps the program's heaviest-first builder, since encoding and decoding stay lossless with it, and `Byoct.ContentsEncoding` holds for every pop order.

## Findings

| source | as written | input that shows it | evidently intended | confidence | as-written member | corrected member |
|---|---|---|---|---|---|---|
| rust/byoct.rs:30-36 | `cmp` is already reversed (the comment at 32 says so, to get a min-heap), and the nodes are also pushed as `Reverse(node)` (139, 156). The two reversals cancel, so every pop returns the heaviest node. | table `{a:1, b:1, c:5}`: the tree merges `c` and `a` first, giving `c=00`, `a=01`, `b=1`, so the most frequent character gets a two-bit code | least-frequent nodes merged first, giving `c=1` | not executed | Byoct.BuildHuffmanTree, Byoct.HeavyFirstCodes | Byoct.BuildHuffmanTreeMinFirst, Byoct.LightFirstCodes |
| rust/byoct1.rs:276 | `decode` emits at every node whose `ch` is `Some`, but the builder gives parents `Some('\0')` (218). Every bit then emits a character, mostly `'\0'`. | table `{a:1, b:2, c:4}` and text `"a"`: the encoding is `"00"`, and `decode` returns `"\0\0"` | emit only at leaves, i.e. pass `Some('\0')` nodes through as the code walk at 241 does, returning `"a"` | not executed | Byoct1.Decode, Byoct1.DecodeEmitsParents, Byoct1.SkewedDecodes | Byoct1.DecodeAtLeaves, Byoct1.EncodeThenDecode |
