/** `byoct1.rs`: `Option<char>` symbols with `Some('\0')` for parents, a builder that keeps its nodes
    in a `Vec` sorted by frequency, the shared-`current_code` walk, a tree-walk decoder, and a writer
    of the tree as JSON-like bytes. */
module Byoct1 {
  import opened Common
  import opened Heaps
  import opened Tree
  import opened Codes
  import opened Text
  import opened Builder
  import opened Pipeline

  type SymbolNode = Node<Option<char>>

  /** The symbol of every parent the builder makes. */
  const Parent: Option<char> := Some('\0')

  // ----- serialisation -----

  /** The bytes `format!("{}", c)` writes for a character: its UTF-8 encoding. */
  function Utf8(c: char): (bytes: seq<Byte>)
    ensures 1 <= |bytes| <= 4
    ensures c as int < 0x80 ==> bytes == [c as int]
    ensures c as int >= 0x80 ==> forall i :: 0 <= i < |bytes| ==> bytes[i] >= 0x80
  {
    var v := c as int;
    if v < 0x80 then [v]
    else if v < 0x800 then [0xC0 + v / 0x40, 0x80 + v % 0x40]
    else if v < 0x1_0000 then [0xE0 + v / 0x40 / 0x40, 0x80 + v / 0x40 % 0x40, 0x80 + v % 0x40]
    else [0xF0 + v / 0x40 / 0x40 / 0x40, 0x80 + v / 0x40 / 0x40 % 0x40, 0x80 + v / 0x40 % 0x40, 0x80 + v % 0x40]
  }

  /** The code point a UTF-8 sequence of one to four bytes stands for. */
  function Utf8Value(bytes: seq<Byte>): int
    requires 1 <= |bytes| <= 4
  {
    var b := seq(|bytes|, i requires 0 <= i < |bytes| => bytes[i] as int);
    if |b| == 1 then b[0]
    else if |b| == 2 then (b[0] - 0xC0) * 0x40 + (b[1] - 0x80)
    else if |b| == 3 then ((b[0] - 0xE0) * 0x40 + (b[1] - 0x80)) * 0x40 + (b[2] - 0x80)
    else (((b[0] - 0xF0) * 0x40 + (b[1] - 0x80)) * 0x40 + (b[2] - 0x80)) * 0x40 + (b[3] - 0x80)
  }

  /** The encoding reads back as the character. */
  lemma Utf8RoundTrip(c: char)
    ensures Utf8Value(Utf8(c)) == c as int
  {
    var v := c as int;
    var q1, r1 := v / 0x40, v % 0x40;
    assert v == q1 * 0x40 + r1;
    var q2, r2 := q1 / 0x40, q1 % 0x40;
    assert q1 == q2 * 0x40 + r2;
    var q3, r3 := q2 / 0x40, q2 % 0x40;
    assert q2 == q3 * 0x40 + r3;
  }

  /** The bytes `format!("{}", n)` writes for a `usize`: its decimal digits, without leading zeros. */
  function Decimal(n: nat): (digits: seq<Byte>)
    ensures |digits| >= 1
    ensures forall i :: 0 <= i < |digits| ==> '0' as int <= digits[i] <= '9' as int
    ensures digits[0] == '0' as int ==> n == 0 && |digits| == 1
    decreases n
  {
    if n < 10 then ['0' as int + n] else Decimal(n / 10) + ['0' as int + n % 10]
  }

  /** The number a string of decimal digits stands for. */
  function DecimalValue(digits: seq<Byte>): int
    decreases |digits|
  {
    if digits == [] then 0 else DecimalValue(digits[..|digits| - 1]) * 10 + (digits[|digits| - 1] - '0' as int)
  }

  lemma {:induction false} DecimalRoundTrip(n: nat)
    ensures DecimalValue(Decimal(n)) == n
    decreases n
  {
    if n >= 10 {
      DecimalRoundTrip(n / 10);
      var d := Decimal(n);
      assert d[..|d| - 1] == Decimal(n / 10);
    }
  }

  const OpenBrace: Byte := '{' as int
  const CloseBrace: Byte := '}' as int
  const Comma: Byte := ',' as int
  /** `"ch":"` */
  const ChKey: seq<Byte> := [34, 99, 104, 34, 58, 34]
  /** `",` */
  const ChEnd: seq<Byte> := [34, 44]
  /** `"freq":` */
  const FreqKey: seq<Byte> := [34, 102, 114, 101, 113, 34, 58]
  /** `,"left":` */
  const LeftKey: seq<Byte> := [44, 34, 108, 101, 102, 116, 34, 58]
  /** `,"right":` */
  const RightKey: seq<Byte> := [44, 34, 114, 105, 103, 104, 116, 34, 58]

  /** `"ch":"<c>",` for a node with a symbol, nothing for one without. */
  function SymbolField(ch: Option<char>): (bytes: seq<Byte>)
    ensures OpenBrace !in bytes && CloseBrace !in bytes <==> ch.None? || (ch.value != '{' && ch.value != '}')
  {
    if ch.Some? then ChKey + Utf8(ch.value) + ChEnd else []
  }

  /** What `serialize` appends for a node up to its children: the opening brace, the symbol field and
      the frequency in decimal. */
  function Head(n: SymbolNode): (bytes: seq<Byte>)
    ensures |bytes| >= 1 && bytes[0] == OpenBrace
  {
    [OpenBrace] + SymbolField(n.ch) + FreqKey + Decimal(n.freq)
  }

  /** What `serialize` appends for a node: its head, then both keys each followed by the child's
      serialisation (nothing for a missing child), then the closing brace. */
  function Serialized(n: SymbolNode): seq<Byte>
    decreases n, 1
  {
    Head(n) + LeftKey + Child(n.left) + RightKey + Child(n.right) + [CloseBrace]
  }

  /** `self.left.as_ref().map(|node| node.serialize(out))`: a present child serialised, else nothing. */
  function Child(c: Option<SymbolNode>): seq<Byte>
    decreases c, 0
  {
    if c.Some? then Serialized(c.value) else []
  }

  /** `serialize`, appending to `out` piece by piece. */
  method Serialize(node: SymbolNode, out: seq<Byte>) returns (out': seq<Byte>)
    ensures out' == out + Serialized(node)
    decreases node
  {
    out' := out + [OpenBrace];
    if node.ch.Some? {
      out' := out' + ChKey + Utf8(node.ch.value) + ChEnd;
    }
    assert out' == out + [OpenBrace] + SymbolField(node.ch);
    out' := out' + FreqKey;
    out' := out' + Decimal(node.freq);
    AppendHead(out, node);
    assert out' == out + Head(node);
    out' := out' + LeftKey;
    ghost var beforeLeft := out';
    if node.left.Some? {
      out' := Serialize(node.left.value, out');
    }
    assert out' == beforeLeft + Child(node.left);
    out' := out' + RightKey;
    ghost var beforeRight := out';
    if node.right.Some? {
      out' := Serialize(node.right.value, out');
    }
    assert out' == beforeRight + Child(node.right);
    out' := out' + [CloseBrace];
    AppendSerialized(out, node);
  }

  lemma AppendHead(out: seq<Byte>, n: SymbolNode)
    ensures out + [OpenBrace] + SymbolField(n.ch) + FreqKey + Decimal(n.freq) == out + Head(n)
  {
  }

  lemma AppendSerialized(out: seq<Byte>, n: SymbolNode)
    ensures out + Head(n) + LeftKey + Child(n.left) + RightKey + Child(n.right) + [CloseBrace] ==
            out + Serialized(n)
  {
    var h, l, r := Head(n), Child(n.left), Child(n.right);
    Assoc(out, h + LeftKey + l + RightKey + r, [CloseBrace]);
    Assoc(out, h + LeftKey + l + RightKey, r);
    Assoc(out, h + LeftKey + l, RightKey);
    Assoc(out, h + LeftKey, l);
    Assoc(out, h, LeftKey);
  }

  lemma Assoc(a: seq<Byte>, b: seq<Byte>, c: seq<Byte>)
    ensures a + (b + c) == a + b + c
  {
  }

  /** `serialize_tree` */
  method SerializeTree(root: SymbolNode) returns (vec: seq<Byte>)
    ensures vec == Serialized(root)
  {
    vec := Serialize(root, []);
  }

  /** The number of nodes of a tree. */
  function Size(n: SymbolNode): (k: nat)
    ensures k >= 1
  {
    1 + (if n.left.Some? then Size(n.left.value) else 0) + (if n.right.Some? then Size(n.right.value) else 0)
  }

  /** No symbol of the tree is a brace. */
  ghost predicate NoBraces(n: SymbolNode) {
    && (n.ch.Some? ==> n.ch.value != '{' && n.ch.value != '}')
    && (n.left.Some? ==> NoBraces(n.left.value))
    && (n.right.Some? ==> NoBraces(n.right.value))
  }

  lemma Utf8NoBraces(c: char)
    requires c != '{' && c != '}'
    ensures OpenBrace !in Utf8(c) && CloseBrace !in Utf8(c)
  {
  }

  /** How many times the byte `x` occurs in `s`. */
  function Occurrences(s: seq<Byte>, x: Byte): (k: nat)
    ensures k <= |s|
    ensures k == 0 <==> x !in s
  {
    if s == [] then 0 else (if s[0] == x then 1 else 0) + Occurrences(s[1..], x)
  }

  lemma {:induction false} OccurrencesConcat(a: seq<Byte>, b: seq<Byte>, x: Byte)
    ensures Occurrences(a + b, x) == Occurrences(a, x) + Occurrences(b, x)
  {
    if a == [] {
      assert a + b == b;
    } else {
      assert (a + b)[1..] == a[1..] + b;
      OccurrencesConcat(a[1..], b, x);
    }
  }

  lemma HeadBraces(n: SymbolNode)
    requires n.ch.Some? ==> n.ch.value != '{' && n.ch.value != '}'
    ensures Occurrences(Head(n), OpenBrace) == 1 && Occurrences(Head(n), CloseBrace) == 0
  {
    assert OpenBrace !in FreqKey && CloseBrace !in FreqKey;
    assert OpenBrace !in Decimal(n.freq) && CloseBrace !in Decimal(n.freq);
    var rest := SymbolField(n.ch) + FreqKey + Decimal(n.freq);
    assert Head(n) == [OpenBrace] + rest;
    assert OpenBrace !in rest && CloseBrace !in rest;
    OccurrencesConcat([OpenBrace], rest, OpenBrace);
    OccurrencesConcat([OpenBrace], rest, CloseBrace);
  }

  /** One object per node: when no symbol is a brace, the output holds exactly one `{` and one `}`
      for every node of the tree. */
  lemma {:induction false} SerializedBraces(n: SymbolNode)
    requires NoBraces(n)
    ensures Occurrences(Serialized(n), OpenBrace) == Size(n)
    ensures Occurrences(Serialized(n), CloseBrace) == Size(n)
    decreases n, 1
  {
    var sl := ChildBraces(n.left);
    var sr := ChildBraces(n.right);
    assert Size(n) == 1 + sl + sr;
    HeadBraces(n);
    OccurrencesParts(n, OpenBrace);
    OccurrencesParts(n, CloseBrace);
  }

  lemma {:induction false} ChildBraces(c: Option<SymbolNode>) returns (k: nat)
    requires c.Some? ==> NoBraces(c.value)
    ensures Occurrences(Child(c), OpenBrace) == k && Occurrences(Child(c), CloseBrace) == k
    ensures k == if c.Some? then Size(c.value) else 0
    decreases c, 0
  {
    if c.Some? {
      SerializedBraces(c.value);
      k := Size(c.value);
    } else {
      k := 0;
    }
  }

  /** The occurrences of a brace in a node's output are those in its head and its children's
      outputs, plus the closing brace: the `"left"` and `"right"` keys hold none. */
  lemma OccurrencesParts(n: SymbolNode, x: Byte)
    requires x == OpenBrace || x == CloseBrace
    ensures Occurrences(Serialized(n), x) ==
            Occurrences(Head(n), x) + Occurrences(Child(n.left), x) + Occurrences(Child(n.right), x) +
            (if x == CloseBrace then 1 else 0)
  {
    var h, l, r := Head(n), Child(n.left), Child(n.right);
    assert x !in LeftKey && x !in RightKey;
    OccurrencesConcat(h, LeftKey, x);
    OccurrencesConcat(h + LeftKey, l, x);
    OccurrencesConcat(h + LeftKey + l, RightKey, x);
    OccurrencesConcat(h + LeftKey + l + RightKey, r, x);
    OccurrencesConcat(h + LeftKey + l + RightKey + r, [CloseBrace], x);
  }

  /** The check `deserialize` starts with: `bytes.starts_with(b"{")` and `bytes.ends_with(b"}")`;
      anything else is rejected as "Invalid node format". */
  function DeserializeGuard(bytes: seq<Byte>): (ok: bool)
    ensures ok <==> |bytes| >= 2 && bytes[0] == OpenBrace && bytes[|bytes| - 1] == CloseBrace
  {
    assert |bytes| >= 1 ==> bytes[|bytes| - 1..] == [bytes[|bytes| - 1]];
    IsPrefix([OpenBrace], bytes) && 1 <= |bytes| && bytes[|bytes| - 1..] == [CloseBrace]
  }

  /** What `serialize_tree` writes gets past that check. */
  lemma SerializedPassesGuard(n: SymbolNode)
    ensures DeserializeGuard(Serialized(n))
  {
    var body: seq<Byte> := Head(n) + LeftKey + Child(n.left) + RightKey + Child(n.right);
    assert Serialized(n) == body + [CloseBrace];
    assert body[0] == Head(n)[0];
  }

  /** `right_after_value`: one past the first `,` or `}`, or the length when there is none. */
  method RightAfterValue(bytes: seq<Byte>) returns (r: nat)
    ensures r <= |bytes|
    ensures forall j :: 0 <= j < |bytes| && j + 1 < r ==> bytes[j] != Comma && bytes[j] != CloseBrace
    ensures r < |bytes| ==> 1 <= r && (bytes[r - 1] == Comma || bytes[r - 1] == CloseBrace)
    ensures r == |bytes| ==> forall j :: 0 <= j < |bytes| - 1 ==> bytes[j] != Comma && bytes[j] != CloseBrace
  {
    for i := 0 to |bytes|
      invariant forall j :: 0 <= j < i ==> bytes[j] != Comma && bytes[j] != CloseBrace
    {
      if bytes[i] == Comma || bytes[i] == CloseBrace {
        return i + 1;
      }
    }
    return |bytes|;
  }

  /** `left_after_value`: the position of the first `,`, or the length when there is none. */
  method LeftAfterValue(bytes: seq<Byte>) returns (r: nat)
    ensures r <= |bytes|
    ensures forall j :: 0 <= j < r ==> bytes[j] != Comma
    ensures r < |bytes| ==> bytes[r] == Comma
  {
    for i := 0 to |bytes|
      invariant forall j :: 0 <= j < i ==> bytes[j] != Comma
    {
      if bytes[i] == Comma {
        return i;
      }
    }
    return |bytes|;
  }

  // ----- the builder: a `Vec` kept sorted by frequency -----

  /** The order `sort_by_key(|node| node.freq)` puts first: a node ranks above another when its
      frequency is smaller. */
  function ByFreq(a: SymbolNode, b: SymbolNode): (o: Ordering)
    ensures o == Less <==> a.freq > b.freq
    ensures o == Equal <==> a.freq == b.freq
  {
    CmpInt(b.freq, a.freq)
  }

  lemma ByFreqIsOrd()
    ensures IsOrd(ByFreq)
  {
  }

  predicate SortedByFreq(s: seq<SymbolNode>) {
    forall i, j :: 0 <= i < j < |s| ==> s[i].freq <= s[j].freq
  }

  /** Where a stable sort puts `x` among `s`: after every node before the first one that is strictly
      heavier than `x`. */
  function InsertPos(x: SymbolNode, s: seq<SymbolNode>): (i: nat)
    ensures i <= |s|
    ensures forall j :: 0 <= j < i ==> s[j].freq <= x.freq
    ensures i < |s| ==> s[i].freq > x.freq
    decreases |s|
  {
    if s == [] then 0 else if s[0].freq > x.freq then 0 else 1 + InsertPos(x, s[1..])
  }

  /** `x` inserted into `s` at that position; on a sorted `s` the result is sorted. */
  function InsertByFreq(x: SymbolNode, s: seq<SymbolNode>): (t: seq<SymbolNode>)
    ensures |t| == |s| + 1
    ensures multiset(t) == multiset(s) + multiset{x}
    ensures SortedByFreq(s) ==> SortedByFreq(t)
  {
    var i := InsertPos(x, s);
    InsertAt(x, s, i);
    s[..i] + [x] + s[i..]
  }

  lemma InsertAt(x: SymbolNode, s: seq<SymbolNode>, i: nat)
    requires i == InsertPos(x, s)
    ensures multiset(s[..i] + [x] + s[i..]) == multiset(s) + multiset{x}
    ensures SortedByFreq(s) ==> SortedByFreq(s[..i] + [x] + s[i..])
  {
    assert s == s[..i] + s[i..];
    if SortedByFreq(s) {
      InsertSorted(x, s, i);
    }
  }

  lemma InsertSorted(x: SymbolNode, s: seq<SymbolNode>, i: nat)
    requires i == InsertPos(x, s) && SortedByFreq(s)
    ensures SortedByFreq(s[..i] + [x] + s[i..])
  {
    var t := s[..i] + [x] + s[i..];
    assert forall k | 0 <= k < |t| :: t[k] == if k < i then s[k] else if k == i then x else s[k - 1];
    forall a, b | 0 <= a < b < |t| ensures t[a].freq <= t[b].freq {
      if b < i {
        assert t[a] == s[a] && t[b] == s[b];
      } else if b == i {
        assert t[a] == s[a] && t[b] == x;
      } else if a == i {
        assert t[a] == x && t[b] == s[b - 1] && s[i].freq <= s[b - 1].freq;
      } else if a < i {
        assert t[a] == s[a] && t[b] == s[b - 1];
      } else {
        assert t[a] == s[a - 1] && t[b] == s[b - 1];
      }
    }
  }

  /** `sort_by_key(|node| node.freq)`: Rust's stable sort, written as an insertion sort that takes the
      nodes in order and puts each one after the nodes of equal frequency already placed. */
  function SortByFreq(s: seq<SymbolNode>): (t: seq<SymbolNode>)
    ensures |t| == |s|
    ensures multiset(t) == multiset(s)
    ensures SortedByFreq(t)
    decreases |s|
  {
    if s == [] then []
    else
      assert s == s[..|s| - 1] + [s[|s| - 1]];
      InsertByFreq(s[|s| - 1], SortByFreq(s[..|s| - 1]))
  }

  /** Sorting a sorted `Vec` changes nothing. */
  lemma {:induction false} SortSorted(s: seq<SymbolNode>)
    requires SortedByFreq(s)
    ensures SortByFreq(s) == s
    decreases |s|
  {
    if s != [] {
      var init, last := s[..|s| - 1], s[|s| - 1];
      forall i, j | 0 <= i < j < |init| ensures init[i].freq <= init[j].freq {
        assert init[i] == s[i] && init[j] == s[j];
      }
      forall j | 0 <= j < |init| ensures init[j].freq <= last.freq {
        assert init[j] == s[j];
      }
      SortSorted(init);
      assert SortByFreq(s) == InsertByFreq(last, SortByFreq(init));
      LastGoesLast(init, last);
      assert init + [last] == s;
    }
  }

  /** A node no lighter than every node of `s` is inserted at the end. */
  lemma LastGoesLast(s: seq<SymbolNode>, x: SymbolNode)
    requires forall j :: 0 <= j < |s| ==> s[j].freq <= x.freq
    ensures InsertByFreq(x, s) == s + [x]
  {
    var i := InsertPos(x, s);
    assert i == |s|;
  }

  /** Pushing a parent onto a sorted `Vec` and sorting again puts the parent after every node of
      equal or smaller frequency and before the heavier ones. */
  lemma SortAppend(s: seq<SymbolNode>, x: SymbolNode)
    requires SortedByFreq(s)
    ensures SortByFreq(s + [x]) == InsertByFreq(x, s)
  {
    assert (s + [x])[..|s|] == s;
    SortSorted(s);
  }

  /** The front of a sorted `Vec` is a node of least frequency. */
  lemma HeadIsTop(s: seq<SymbolNode>)
    requires SortedByFreq(s) && s != []
    ensures IsTop(ByFreq, s[0], multiset(s))
  {
    forall y | y in multiset(s) ensures ByFreq(s[0], y) != Less {
      var j :| 0 <= j < |s| && s[j] == y;
      if j > 0 {
        assert s[0].freq <= s[j].freq;
      }
    }
  }

  /** The two `nodes.remove(0)` of one iteration take a lightest node and then a lightest node of
      the rest. */
  lemma TakeTwo(s: seq<SymbolNode>)
    requires SortedByFreq(s) && |s| >= 2
    ensures IsTop(ByFreq, s[0], multiset(s))
    ensures IsTop(ByFreq, s[1], multiset(s) - multiset{s[0]})
    ensures multiset(s[2..]) == multiset(s) - multiset{s[0]} - multiset{s[1]}
  {
    HeadIsTop(s);
    assert s == [s[0]] + s[1..];
    assert s[1..] == [s[1]] + s[2..];
    HeadIsTop(s[1..]);
  }

  /** `frequencies.into_iter().map(..).collect()`: one leaf `Some(ch)` per table entry, in whatever
      order the `HashMap` yields its entries. */
  method CollectLeaves(frequencies: map<char, nat>) returns (nodes: seq<SymbolNode>)
    ensures multiset(nodes) == LeafPool(frequencies, Wrapped)
  {
    WrappedInjective<char>();
    var rest := frequencies.Keys;
    ghost var taken: map<char, nat> := map[];
    nodes := [];
    while rest != {}
      invariant rest <= frequencies.Keys
      invariant taken.Keys == frequencies.Keys - rest
      invariant forall k :: k in taken ==> taken[k] == frequencies[k]
      invariant multiset(nodes) == LeafPool(taken, Wrapped)
      decreases |rest|
    {
      var k :| k in rest;
      LeafPoolAdd(taken, k, frequencies[k], Wrapped);
      nodes := nodes + [Leaf(Some(k), frequencies[k])];
      taken := taken[k := frequencies[k]];
      rest := rest - {k};
    }
    assert taken == frequencies;
  }

  /** `build_huffman_tree`: sort, then while more than one node is left remove the two front nodes, push
      their `Some('\0')` parent and sort again; finally `into_iter().next().unwrap()`, which panics for
      an empty table. The loop is a greedy run that always merges two lightest nodes. */
  method BuildHuffmanTree(frequencies: map<char, nat>)
    returns (r: Result<SymbolNode>, ghost steps: seq<Pick<Option<char>>>)
    ensures r.Panic? <==> frequencies == map[]
    ensures r.Panic? ==> r.failure == UnwrapNone
    ensures r.Ok? ==> && ValidRun(ByFreq, Parent, LeafPool(frequencies, Wrapped), steps)
                      && Final(LeafPool(frequencies, Wrapped), Parent, steps) == multiset{r.value}
    ensures r.Ok? ==> && |steps| == |frequencies| - 1
                      && r.value.freq == MapSum(frequencies)
                      && Leaves(r.value) == LeafPool(frequencies, Wrapped)
                      && Built(r.value, Parent)
  {
    WrappedInjective<char>();
    var nodes := CollectLeaves(frequencies);
    ghost var pool := multiset(nodes);
    nodes := SortByFreq(nodes);
    steps := [];
    while |nodes| > 1
      invariant SortedByFreq(nodes)
      invariant ValidRun(ByFreq, Parent, pool, steps)
      invariant multiset(nodes) == Final(pool, Parent, steps)
      decreases |nodes|
    {
      TakeTwo(nodes);
      var left := nodes[0];
      nodes := nodes[1..];
      var right := nodes[0];
      nodes := nodes[1..];
      var parent := Merge(Parent, left, right);
      RunExtend(ByFreq, Parent, pool, steps, Pick(left, right));
      nodes := SortByFreq(nodes + [parent]);
      steps := steps + [Pick(left, right)];
    }
    LeafPoolFacts(frequencies, Wrapped, Parent);
    RunFacts(ByFreq, Parent, pool, steps);
    var top := if |nodes| == 0 then None else Some(nodes[0]);
    LastPop(frequencies, Wrapped, Parent, pool, steps, multiset(nodes), top);
    if top.None? {
      r := Panic(UnwrapNone);
    } else {
      r := Ok(top.value);
      RootFacts(ByFreq, Parent, frequencies, Wrapped, steps, top.value);
    }
  }

  // ----- codes -----

  /** The symbol the code walk reads from a node: parents carry `Some('\0')` and are passed through. */
  function NulKey(ch: Option<char>): (k: Option<char>)
    ensures k.None? <==> ch.None? || ch == Parent
    ensures k.Some? ==> k == ch
  {
    if ch == Parent then None else ch
  }

  /** What `build_huffman_codes_recursive` leaves in `codes`: a node whose symbol is not `Some('\0')`
      records the current code (a `None` symbol panics at `expect`); a `Some('\0')` node descends into
      its present children, left with "0" appended, then right with "1". */
  function WalkCodes(n: SymbolNode, code: string, codes: map<char, string>): Result<map<char, string>> {
    if n.ch != Parent then
      if n.ch.None? then Panic(UnwrapNone) else Ok(codes[n.ch.value := code])
    else
      var afterLeft := if n.left.Some? then WalkCodes(n.left.value, code + "0", codes) else Ok(codes);
      if afterLeft.Panic? || n.right.None? then afterLeft
      else WalkCodes(n.right.value, code + "1", afterLeft.value)
  }

  /** `build_huffman_codes_recursive`, with the shared `current_code` pushed to and popped from; a walk
      that does not panic hands the code back as it found it. */
  method BuildHuffmanCodesRecursive(node: SymbolNode, codes: map<char, string>, currentCode: string)
    returns (r: Result<map<char, string>>, currentCode': string)
    ensures r == WalkCodes(node, currentCode, codes)
    ensures r.Ok? ==> currentCode' == currentCode
  {
    currentCode' := currentCode;
    if node.ch != Parent {
      if node.ch.None? {
        return Panic(UnwrapNone), currentCode';
      }
      return Ok(codes[node.ch.value := currentCode']), currentCode';
    }
    var codes' := codes;
    currentCode' := currentCode' + "0";
    if node.left.Some? {
      r, currentCode' := BuildHuffmanCodesRecursive(node.left.value, codes', currentCode');
      if r.Panic? {
        return;
      }
      codes' := r.value;
    }
    currentCode' := currentCode'[..|currentCode'| - 1];
    assert currentCode' == currentCode;
    currentCode' := currentCode' + "1";
    if node.right.Some? {
      r, currentCode' := BuildHuffmanCodesRecursive(node.right.value, codes', currentCode');
      if r.Panic? {
        return;
      }
      codes' := r.value;
    }
    currentCode' := currentCode'[..|currentCode'| - 1];
    r := Ok(codes');
  }

  /** `build_huffman_codes` without the printing. */
  method BuildHuffmanCodes(root: SymbolNode) returns (r: Result<map<char, string>>)
    ensures r == WalkCodes(root, "", map[])
  {
    var currentCode;
    r, currentCode := BuildHuffmanCodesRecursive(root, map[], "");
  }

  /** Every node of the tree carries a symbol. */
  ghost predicate AllSome(n: SymbolNode) {
    && n.ch.Some?
    && (n.left.Some? ==> AllSome(n.left.value))
    && (n.right.Some? ==> AllSome(n.right.value))
  }

  /** On a tree where every node carries a symbol the walk does not panic and is the standard walk
      with `Some('\0')` as the mark of a parent. */
  lemma {:induction false} WalkCodesStd(n: SymbolNode, code: string, codes: map<char, string>)
    requires AllSome(n)
    ensures WalkCodes(n, code, codes) == Ok(StdCodes(n, code, codes, NulKey, '0', '1'))
  {
    if n.ch == Parent {
      var afterLeft := if n.left.Some? then StdCodes(n.left.value, code + "0", codes, NulKey, '0', '1') else codes;
      if n.left.Some? {
        WalkCodesStd(n.left.value, code + "0", codes);
      }
      if n.right.Some? {
        WalkCodesStd(n.right.value, code + "1", afterLeft);
      }
    }
  }

  /** The builder's trees carry a symbol at every node: `Some(ch)` at the leaves, `Some('\0')` above. */
  lemma {:induction false} BuiltAllSome(n: SymbolNode)
    requires Built(n, Parent)
    requires forall l :: l in Leaves(n) ==> l.ch.Some?
    ensures AllSome(n)
  {
    if !IsLeaf(n) {
      BuiltAllSome(n.left.value);
      BuiltAllSome(n.right.value);
    }
  }

  lemma LeafPoolSome(m: map<char, nat>)
    ensures forall l :: l in LeafPool(m, Wrapped) ==> l.ch.Some?
  {
  }

  lemma NulCodedKeys(m: map<char, nat>)
    ensures Injective(Wrapped<char>) && TagReadsBack(Wrapped<char>, NulKey)
    ensures CodedKeys(m, Wrapped, NulKey) == m.Keys - {'\0'}
  {
    WrappedInjective<char>();
    forall k | k in m.Keys - {'\0'} ensures k in CodedKeys(m, Wrapped, NulKey) {
      assert NulKey(Wrapped(k)).Some?;
    }
  }

  /** The walk of a built tree: it does not panic, every character of the table but '\0' gets the path
      to its leaf and no code is a prefix of another. A '\0' leaf looks like a parent without children
      and gets no code. */
  lemma TreeCodes(frequencies: map<char, nat>, steps: seq<Pick<Option<char>>>, root: SymbolNode)
    requires ValidRun(ByFreq, Parent, LeafPool(frequencies, Wrapped), steps)
    requires Final(LeafPool(frequencies, Wrapped), Parent, steps) == multiset{root}
    ensures WalkCodes(root, "", map[]) == Ok(StdCodes(root, [], map[], NulKey, '0', '1'))
    ensures StdCodes(root, [], map[], NulKey, '0', '1').Keys == frequencies.Keys - {'\0'}
    ensures IsCodeTable(root, StdCodes(root, [], map[], NulKey, '0', '1'), NulKey, '0', '1')
    ensures PrefixFree(StdCodes(root, [], map[], NulKey, '0', '1'))
  {
    NulCodedKeys(frequencies);
    RootFacts(ByFreq, Parent, frequencies, Wrapped, steps, root);
    LeafPoolSome(frequencies);
    BuiltAllSome(root);
    WalkCodesStd(root, "", map[]);
    BuiltCodes(ByFreq, Parent, frequencies, Wrapped, NulKey, steps, root, '0', '1');
  }

  /** `encode_contents`: the codes of the characters concatenated; a character without a code panics
      at `codes[&ch]`. */
  method EncodeContents(contents: string, codes: map<char, string>) returns (r: Result<string>)
    ensures r == Concat(contents, codes)
  {
    r := EncodeLoop(contents, codes);
  }

  // ----- decoding -----

  /** `decode` as written: it emits at every child whose `ch` is `Some`, and on the builder's trees
      that includes every parent, so each bit yields one character. */
  method Decode(encodedText: string, root: SymbolNode) returns (r: Result<string>)
    ensures r == DecodeFrom(root, root, encodedText, OptionKey, '0', '1')
    ensures AllSome(root) && r.Ok? ==> |r.value| == |encodedText|
  {
    r := DecodeLoop(root, encodedText, OptionKey, '0', '1');
    if AllSome(root) {
      EmitsPerBit(root, root, encodedText);
    }
  }

  lemma {:induction false} EmitsPerBit(root: SymbolNode, cur: SymbolNode, bits: string)
    requires AllSome(root) && AllSome(cur)
    ensures DecodeFrom(root, cur, bits, OptionKey, '0', '1').Ok? ==>
              |DecodeFrom(root, cur, bits, OptionKey, '0', '1').value| == |bits|
    decreases |bits|
  {
    if bits != [] && (bits[0] == '0' || bits[0] == '1') {
      EmitsPerBit(root, root, bits[1..]);
    }
  }

  /** The decoder the builder needs: a `Some('\0')` node is passed through like a parent. */
  method DecodeAtLeaves(encodedText: string, root: SymbolNode) returns (r: Result<string>)
    ensures r == DecodeFrom(root, root, encodedText, NulKey, '0', '1')
  {
    r := DecodeLoop(root, encodedText, NulKey, '0', '1');
  }

  // ----- the encoding branch of `main` -----

  /** What the encoding branch writes: the tree it built, the encoded bits and the serialised tree. */
  datatype Encoded = Encoded(root: SymbolNode, bits: string, tree: seq<Byte>)

  /** The codes of the tree built from the counts of `contents`: encoding succeeds exactly when the
      contents hold no '\0', and then every character of the contents has a prefix-free code; with two
      distinct characters the tree decodes the encoding back, with one the encoding is empty. */
  lemma ContentsCodes(contents: string, frequencies: map<char, nat>, steps: seq<Pick<Option<char>>>,
                      root: SymbolNode)
    requires IsFrequencyTable(contents, frequencies)
    requires ValidRun(ByFreq, Parent, LeafPool(frequencies, Wrapped), steps)
    requires Final(LeafPool(frequencies, Wrapped), Parent, steps) == multiset{root}
    ensures Concat(contents, StdCodes(root, [], map[], NulKey, '0', '1')).Ok? <==> '\0' !in contents
    ensures '\0' !in contents ==>
              StdCodes(root, [], map[], NulKey, '0', '1').Keys == (set i | 0 <= i < |contents| :: contents[i])
    ensures '\0' !in contents && TwoDistinct(contents) ==>
              DecodeFrom(root, root, Concat(contents, StdCodes(root, [], map[], NulKey, '0', '1')).value,
                         NulKey, '0', '1') == Ok(contents)
    ensures '\0' !in contents && !TwoDistinct(contents) ==>
              Concat(contents, StdCodes(root, [], map[], NulKey, '0', '1')) == Ok([])
  {
    TreeCodes(frequencies, steps, root);
    NulCodedKeys(frequencies);
    ContentsKeys(contents, frequencies, StdCodes(root, [], map[], NulKey, '0', '1'));
    if '\0' !in contents {
      forall i | 0 <= i < |contents| ensures contents[i] in CodedKeys(frequencies, Wrapped, NulKey) {
        assert contents[i] in frequencies;
      }
      TextCodes(ByFreq, Parent, frequencies, Wrapped, NulKey, steps, root, '0', '1', contents);
    }
  }

  /** A table whose keys are those of the counts of `contents` minus '\0' encodes the contents exactly
      when they hold no '\0', and its keys are then the characters of the contents. */
  lemma ContentsKeys(contents: string, frequencies: map<char, nat>, codes: map<char, string>)
    requires IsFrequencyTable(contents, frequencies)
    requires codes.Keys == frequencies.Keys - {'\0'}
    ensures Concat(contents, codes).Ok? <==> '\0' !in contents
    ensures '\0' !in contents ==> codes.Keys == (set i | 0 <= i < |contents| :: contents[i])
  {
    ConcatOk(contents, codes);
    if '\0' in contents {
      var i :| 0 <= i < |contents| && contents[i] == '\0';
      assert contents[i] !in codes;
    } else {
      forall i | 0 <= i < |contents| ensures contents[i] in codes {
        assert contents[i] in frequencies;
      }
      var keys := set i | 0 <= i < |contents| :: contents[i];
      forall c | c in codes ensures c in keys {
        var i :| 0 <= i < |contents| && contents[i] == c;
      }
    }
  }

  /** The encoding branch of `main` without the files: count, build (an empty text panics at
      `unwrap`), walk, encode (a '\0' in the text panics at `codes[&ch]`) and serialise the tree.
      `main` itself never passes an empty text here: the empty string is binary and takes the decode
      branch. */
  method EncodeFile(contents: string) returns (r: Result<Encoded>)
    ensures r.Panic? <==> contents == [] || '\0' in contents
    ensures r.Ok? ==> && r.value.tree == Serialized(r.value.root)
                      && StdCodes(r.value.root, [], map[], NulKey, '0', '1').Keys ==
                           (set i | 0 <= i < |contents| :: contents[i])
                      && PrefixFree(StdCodes(r.value.root, [], map[], NulKey, '0', '1'))
                      && Concat(contents, StdCodes(r.value.root, [], map[], NulKey, '0', '1')) == Ok(r.value.bits)
    ensures r.Ok? && TwoDistinct(contents) ==>
              DecodeFrom(r.value.root, r.value.root, r.value.bits, NulKey, '0', '1') == Ok(contents)
    ensures r.Ok? && !TwoDistinct(contents) ==> r.value.bits == []
  {
    var frequencies := Count(contents);
    var tree;
    ghost var steps;
    tree, steps := BuildHuffmanTree(frequencies);
    if tree.Panic? {
      FrequencyTableEmpty(contents, frequencies);
      return Panic(tree.failure);
    }
    var root := tree.value;
    TreeCodes(frequencies, steps, root);
    ContentsCodes(contents, frequencies, steps, root);
    var codes := BuildHuffmanCodes(root);
    assert codes == Ok(StdCodes(root, [], map[], NulKey, '0', '1'));
    var encoded := EncodeContents(contents, codes.value);
    if encoded.Panic? {
      return Panic(encoded.failure);
    }
    var bytes := SerializeTree(root);
    r := Ok(Encoded(root, encoded.value, bytes));
  }

  /** Encoding followed by the decoder that passes `Some('\0')` nodes through gives the text back once
      it has two distinct characters; a text of one repeated character encodes to nothing. */
  method EncodeThenDecode(contents: string) returns (r: Result<(string, string)>)
    ensures r.Panic? <==> contents == [] || '\0' in contents
    ensures r.Ok? && TwoDistinct(contents) ==> r.value.1 == contents
    ensures r.Ok? && !TwoDistinct(contents) ==> r.value == ("", "")
  {
    var e := EncodeFile(contents);
    if e.Panic? {
      return Panic(e.failure);
    }
    var decoded := DecodeAtLeaves(e.value.bits, e.value.root);
    assert decoded.Ok?;
    r := Ok((e.value.bits, decoded.value));
  }

  // ----- the as-written decoder on a small table -----

  /** Three characters of distinct frequencies: every run of the builder merges 'a' and 'b' first. */
  const Skewed: map<char, nat> := map['a' := 1, 'b' := 2, 'c' := 4]
  const SkewA: SymbolNode := Leaf(Some('a'), 1)
  const SkewB: SymbolNode := Leaf(Some('b'), 2)
  const SkewC: SymbolNode := Leaf(Some('c'), 4)
  const SkewLow: SymbolNode := Merge(Parent, SkewA, SkewB)
  const SkewRoot: SymbolNode := Merge(Parent, SkewLow, SkewC)

  lemma SkewedPool()
    ensures LeafPool(Skewed, Wrapped<char>) == multiset{SkewA, SkewB, SkewC}
    ensures |Skewed| == 3
  {
    WrappedInjective<char>();
    var m0: map<char, nat> := map[];
    var m1 := m0['a' := 1];
    var m2 := m1['b' := 2];
    assert LeafPool(m0, Wrapped<char>) == multiset{};
    LeafPoolAdd(m0, 'a', 1, Wrapped);
    LeafPoolAdd(m1, 'b', 2, Wrapped);
    LeafPoolAdd(m2, 'c', 4, Wrapped);
    assert m2['c' := 4] == Skewed;
    assert Skewed.Keys == {'a', 'b', 'c'};
    assert |Skewed| == |Skewed.Keys|;
  }

  lemma SkewedSteps()
    ensures UniqueTop(ByFreq, SkewA, multiset{SkewA, SkewB, SkewC})
    ensures UniqueTop(ByFreq, SkewB, multiset{SkewA, SkewB, SkewC} - multiset{SkewA})
    ensures AfterMerge(multiset{SkewA, SkewB, SkewC}, Parent, Pick(SkewA, SkewB)) == multiset{SkewC, SkewLow}
    ensures UniqueTop(ByFreq, SkewLow, multiset{SkewC, SkewLow})
    ensures UniqueTop(ByFreq, SkewC, multiset{SkewC, SkewLow} - multiset{SkewLow})
    ensures AfterMerge(multiset{SkewC, SkewLow}, Parent, Pick(SkewLow, SkewC)) == multiset{SkewRoot}
  {
    assert multiset{SkewA, SkewB, SkewC} - multiset{SkewA} == multiset{SkewB, SkewC};
    assert multiset{SkewB, SkewC} - multiset{SkewB} == multiset{SkewC};
    assert multiset{SkewC, SkewLow} - multiset{SkewLow} == multiset{SkewC};
  }

  /** Every run of the builder over `Skewed` ends in `SkewRoot`. */
  lemma SkewedTree(steps: seq<Pick<Option<char>>>, root: SymbolNode)
    requires ValidRun(ByFreq, Parent, LeafPool(Skewed, Wrapped), steps)
    requires Final(LeafPool(Skewed, Wrapped), Parent, steps) == multiset{root}
    ensures root == SkewRoot
  {
    WrappedInjective<char>();
    RootFacts(ByFreq, Parent, Skewed, Wrapped, steps, root);
    SkewedPool();
    ByFreqIsOrd();
    SkewedSteps();
    ForcedPick(ByFreq, Parent, multiset{SkewA, SkewB, SkewC}, steps, SkewA, SkewB);
    ForcedPick(ByFreq, Parent, multiset{SkewC, SkewLow}, steps[1..], SkewLow, SkewC);
    assert steps[1..][1..] == [];
    assert root in multiset{SkewRoot};
  }

  lemma SkewedWalk()
    ensures StdCodes(SkewRoot, [], map[], NulKey, '0', '1') == map['a' := "00", 'b' := "01", 'c' := "1"]
  {
    var none: map<char, string> := map[];
    assert [] + ['0'] == "0" && [] + ['1'] == "1" && "0" + ['0'] == "00" && "0" + ['1'] == "01";
    assert StdCodes(SkewA, "00", none, NulKey, '0', '1') == map['a' := "00"];
    assert StdCodes(SkewB, "01", map['a' := "00"], NulKey, '0', '1') == map['a' := "00", 'b' := "01"];
    assert StdCodes(SkewLow, "0", none, NulKey, '0', '1') == map['a' := "00", 'b' := "01"];
  }

  /** On the builder's tree for `Skewed` the text "a" encodes to "00". `decode` as written emits the
      `Some('\0')` of the parent reached by the first bit, restarts at the root and does so again, so
      it returns two '\0' characters; passing `Some('\0')` nodes through returns "a". */
  lemma DecodeEmitsParents(steps: seq<Pick<Option<char>>>, root: SymbolNode)
    requires ValidRun(ByFreq, Parent, LeafPool(Skewed, Wrapped), steps)
    requires Final(LeafPool(Skewed, Wrapped), Parent, steps) == multiset{root}
    ensures StdCodes(root, [], map[], NulKey, '0', '1') == map['a' := "00", 'b' := "01", 'c' := "1"]
    ensures Concat("a", StdCodes(root, [], map[], NulKey, '0', '1')) == Ok("00")
    ensures DecodeFrom(root, root, "00", OptionKey, '0', '1') == Ok("\0\0")
    ensures DecodeFrom(root, root, "00", NulKey, '0', '1') == Ok("a")
  {
    SkewedTree(steps, root);
    SkewedWalk();
    SkewedEncoding();
    SkewedDecoding();
  }

  lemma SkewedEncoding()
    ensures Concat("a", map['a' := "00", 'b' := "01", 'c' := "1"]) == Ok("00")
  {
    var codes := map['a' := "00", 'b' := "01", 'c' := "1"];
    var empty: string := [];
    assert "a"[0] == 'a' && "a"[1..] == empty && codes['a'] == "00";
    assert Concat(empty, codes) == Ok(empty);
    assert codes['a'] + empty == "00";
  }

  lemma SkewedDecoding()
    ensures DecodeFrom(SkewRoot, SkewRoot, "00", OptionKey, '0', '1') == Ok("\0\0")
    ensures DecodeFrom(SkewRoot, SkewRoot, "00", NulKey, '0', '1') == Ok("a")
  {
    var empty: string := [];
    assert SkewRoot.left == Some(SkewLow) && SkewLow.ch == Parent;
    assert SkewLow.left == Some(SkewA) && SkewA.ch == Some('a');
    assert "00"[0] == '0' && "00"[1..] == "0" && "0"[0] == '0' && "0"[1..] == empty;
    assert DecodeFrom(SkewRoot, SkewRoot, empty, OptionKey, '0', '1') == Ok(empty);
    assert OptionKey(SkewLow.ch) == Some('\0') && NulKey(SkewLow.ch) == None && NulKey(SkewA.ch) == Some('a');
    assert ['\0'] + empty == "\0" && ['a'] + empty == "a" && ['\0'] + "\0" == "\0\0";
    assert DecodeFrom(SkewRoot, SkewRoot, "0", OptionKey, '0', '1') == Ok("\0");
    assert DecodeFrom(SkewRoot, SkewRoot, empty, NulKey, '0', '1') == Ok(empty);
    assert DecodeFrom(SkewRoot, SkewLow, "0", NulKey, '0', '1') == Ok("a");
  }

  /** The program's own functions on `Skewed`: build, walk, encode "a", then decode it with `decode`
      as written and with the corrected decoder. */
  method SkewedDecodes() returns (encoded: string, asWritten: string, corrected: string)
    ensures encoded == "00"
    ensures asWritten == "\0\0"
    ensures corrected == "a"
  {
    var tree;
    ghost var steps;
    tree, steps := BuildHuffmanTree(Skewed);
    assert Skewed != map[] by { assert 'a' in Skewed; }
    var root := tree.value;
    DecodeEmitsParents(steps, root);
    SkewedPool();
    LeafPoolSome(Skewed);
    RootFacts(ByFreq, Parent, Skewed, Wrapped, steps, root);
    BuiltAllSome(root);
    WalkCodesStd(root, "", map[]);
    var codes := BuildHuffmanCodes(root);
    var bits := EncodeContents("a", codes.value);
    encoded := bits.value;
    var d1 := Decode(encoded, root);
    asWritten := d1.value;
    var d2 := DecodeAtLeaves(encoded, root);
    corrected := d2.value;
  }
}
