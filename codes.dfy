/** Code tables, encoding and tree-walk decoding, shared by every variant.

    A variant labels bits by two symbols `zero` and `one` (the chars '0'/'1' of a `String`, or the
    bytes 0/1 of a `Vec<u8>`) and decides through `key` whether a node carries a symbol: `key(ch)` is
    `Some(k)` for a node the walk gives a code (and the decoder emits), `None` for a node it passes
    through. */
module Codes {
  import opened Common
  import opened Tree

  /** `p` is a prefix of `s`. */
  predicate IsPrefix<B(==)>(p: seq<B>, s: seq<B>) {
    |p| <= |s| && s[..|p|] == p
  }

  /** The symbol at which a walk from `n` along `path` stops exactly at the end of the path: every node
      before the last one carries no symbol, `zero` goes left and `one` goes right. `None` when the
      path leaves the tree, meets a symbol early or uses a bit that is neither. */
  function Reached<S, K, B(==)>(n: Node<S>, path: seq<B>, key: S -> Option<K>, zero: B, one: B): Option<K>
    decreases |path|
  {
    if path == [] then key(n.ch)
    else if key(n.ch).Some? then None
    else if path[0] == zero then
      (if n.left.Some? then Reached(n.left.value, path[1..], key, zero, one) else None)
    else if path[0] == one then
      (if n.right.Some? then Reached(n.right.value, path[1..], key, zero, one) else None)
    else None
  }

  /** The symbols a code walk from `n` records: the symbol of a node that has one, and otherwise the
      symbols below it. */
  ghost function KeysOf<S, K>(n: Node<S>, key: S -> Option<K>): set<K> {
    if key(n.ch).Some? then {key(n.ch).value}
    else
      (if n.left.Some? then KeysOf(n.left.value, key) else {}) +
      (if n.right.Some? then KeysOf(n.right.value, key) else {})
  }

  /** The symbol of a `char` node where '\0' marks a parent (`byoct.rs`, gemini). */
  function SentinelKey(c: char): (k: Option<char>)
    ensures k.Some? <==> c != '\0'
    ensures k.Some? ==> k.value == c
  {
    if c != '\0' then Some(c) else None
  }

  /** The symbol of an `Option` node: `Some(c)` carries `c`, `None` marks a parent. */
  function OptionKey<T>(c: Option<T>): (k: Option<T>)
    ensures k == c
  {
    c
  }

  /** Every entry of `codes` is a path from `root` to a node carrying that very symbol. */
  ghost predicate IsCodeTable<S, K(!new), B(!new)>(root: Node<S>, codes: map<K, seq<B>>, key: S -> Option<K>,
                                                 zero: B, one: B) {
    forall k :: k in codes ==> Reached(root, codes[k], key, zero, one) == Some(k)
  }

  /** No code is a prefix of the code of another symbol (equal codes included). */
  ghost predicate PrefixFree<K(!new), B(!new)>(codes: map<K, seq<B>>) {
    forall j, k :: j in codes && k in codes && j != k ==> !IsPrefix(codes[j], codes[k])
  }

  /** The code walk of most variants (`byoct.rs`, `byoct1.rs`, gemini, tongyilingma, fittencode): a node
      with a symbol records the current prefix and stops; any other node descends into its present
      children, left with `zero` appended, then right with `one`. Later entries overwrite earlier
      ones, as `HashMap::insert` does. */
  function StdCodes<S, K, B>(n: Node<S>, prefix: seq<B>, acc: map<K, seq<B>>, key: S -> Option<K>,
                             zero: B, one: B): map<K, seq<B>>
  {
    match key(n.ch)
    case Some(k) => acc[k := prefix]
    case None =>
      var afterLeft := if n.left.Some? then StdCodes(n.left.value, prefix + [zero], acc, key, zero, one) else acc;
      if n.right.Some? then StdCodes(n.right.value, prefix + [one], afterLeft, key, zero, one) else afterLeft
  }

  lemma ReachedLeft<S(!new), K(!new), B(!new)>(n: Node<S>, prefix: seq<B>, s: seq<B>, key: S -> Option<K>, zero: B, one: B)
    requires key(n.ch).None? && n.left.Some?
    requires IsPrefix(prefix + [zero], s)
    ensures IsPrefix(prefix, s)
    ensures Reached(n, s[|prefix|..], key, zero, one) == Reached(n.left.value, s[|prefix| + 1..], key, zero, one)
  {
    var path := s[|prefix|..];
    assert s[..|prefix|] == (s[..|prefix| + 1])[..|prefix|];
    assert path[0] == zero;
    assert path[1..] == s[|prefix| + 1..];
  }

  lemma ReachedRight<S(!new), K(!new), B(!new)>(n: Node<S>, prefix: seq<B>, s: seq<B>, key: S -> Option<K>, zero: B, one: B)
    requires zero != one
    requires key(n.ch).None? && n.right.Some?
    requires IsPrefix(prefix + [one], s)
    ensures IsPrefix(prefix, s)
    ensures Reached(n, s[|prefix|..], key, zero, one) == Reached(n.right.value, s[|prefix| + 1..], key, zero, one)
  {
    var path := s[|prefix|..];
    assert s[..|prefix|] == (s[..|prefix| + 1])[..|prefix|];
    assert path[0] == one;
    assert path[1..] == s[|prefix| + 1..];
  }

  /** What the code walk computes: exactly the symbols of `KeysOf(n)` are added, each mapped to the
      prefix followed by the path that reaches it, and every other entry of `acc` is left alone. */
  lemma StdCodesSpec<S(!new), K(!new), B(!new)>(n: Node<S>, prefix: seq<B>, acc: map<K, seq<B>>,
                                                key: S -> Option<K>, zero: B, one: B)
    requires zero != one
    ensures StdCodes(n, prefix, acc, key, zero, one).Keys == acc.Keys + KeysOf(n, key)
    ensures forall k :: k in acc && k !in KeysOf(n, key) ==> StdCodes(n, prefix, acc, key, zero, one)[k] == acc[k]
    ensures forall k :: k in KeysOf(n, key) ==>
              && IsPrefix(prefix, StdCodes(n, prefix, acc, key, zero, one)[k])
              && Reached(n, StdCodes(n, prefix, acc, key, zero, one)[k][|prefix|..], key, zero, one) == Some(k)
  {
    StdCodesFrame(n, prefix, acc, key, zero, one);
    StdCodesReach(n, prefix, acc, key, zero, one);
  }

  /** The walk adds exactly the symbols below `n` and leaves every other entry alone. */
  lemma {:induction false} StdCodesFrame<S(!new), K(!new), B(!new)>(n: Node<S>, prefix: seq<B>, acc: map<K, seq<B>>,
                                                                   key: S -> Option<K>, zero: B, one: B)
    ensures StdCodes(n, prefix, acc, key, zero, one).Keys == acc.Keys + KeysOf(n, key)
    ensures forall k :: k in acc && k !in KeysOf(n, key) ==> StdCodes(n, prefix, acc, key, zero, one)[k] == acc[k]
  {
    if key(n.ch).None? {
      var afterLeft := if n.left.Some? then StdCodes(n.left.value, prefix + [zero], acc, key, zero, one) else acc;
      if n.left.Some? {
        StdCodesFrame(n.left.value, prefix + [zero], acc, key, zero, one);
      }
      if n.right.Some? {
        StdCodesFrame(n.right.value, prefix + [one], afterLeft, key, zero, one);
      }
    }
  }

  /** Each symbol below `n` is given the prefix followed by the path that reaches it. */
  lemma {:induction false} StdCodesReach<S(!new), K(!new), B(!new)>(n: Node<S>, prefix: seq<B>, acc: map<K, seq<B>>,
                                                                   key: S -> Option<K>, zero: B, one: B)
    requires zero != one
    ensures forall k :: k in KeysOf(n, key) ==>
              && k in StdCodes(n, prefix, acc, key, zero, one)
              && IsPrefix(prefix, StdCodes(n, prefix, acc, key, zero, one)[k])
              && Reached(n, StdCodes(n, prefix, acc, key, zero, one)[k][|prefix|..], key, zero, one) == Some(k)
  {
    StdCodesFrame(n, prefix, acc, key, zero, one);
    var r := StdCodes(n, prefix, acc, key, zero, one);
    if key(n.ch).Some? {
      assert r[key(n.ch).value][|prefix|..] == [];
    } else {
      var kr := if n.right.Some? then KeysOf(n.right.value, key) else {};
      var afterLeft := if n.left.Some? then StdCodes(n.left.value, prefix + [zero], acc, key, zero, one) else acc;
      if n.left.Some? {
        StdCodesReach(n.left.value, prefix + [zero], acc, key, zero, one);
      }
      if n.right.Some? {
        StdCodesReach(n.right.value, prefix + [one], afterLeft, key, zero, one);
        StdCodesFrame(n.right.value, prefix + [one], afterLeft, key, zero, one);
      }
      forall k | k in kr
        ensures k in r && IsPrefix(prefix, r[k]) && Reached(n, r[k][|prefix|..], key, zero, one) == Some(k)
      {
        assert |prefix + [one]| == |prefix| + 1;
        ReachedRight(n, prefix, r[k], key, zero, one);
      }
      forall k | k in KeysOf(n, key) && k !in kr
        ensures k in r && IsPrefix(prefix, r[k]) && Reached(n, r[k][|prefix|..], key, zero, one) == Some(k)
      {
        assert r[k] == afterLeft[k];
        assert |prefix + [zero]| == |prefix| + 1;
        ReachedLeft(n, prefix, r[k], key, zero, one);
      }
    }
  }

  /** A code walk started at the root with an empty prefix and table builds a code table for exactly
      the symbols of the tree. */
  lemma StdCodesTable<S(!new), K(!new), B(!new)>(root: Node<S>, key: S -> Option<K>, zero: B, one: B)
    requires zero != one
    ensures StdCodes(root, [], map[], key, zero, one).Keys == KeysOf(root, key)
    ensures IsCodeTable(root, StdCodes(root, [], map[], key, zero, one), key, zero, one)
  {
    StdCodesSpec(root, [], map[], key, zero, one);
    var r := StdCodes(root, [], map[], key, zero, one);
    forall k | k in r ensures Reached(root, r[k], key, zero, one) == Some(k) {
      assert r[k][0..] == r[k];
    }
  }

  /** Two paths that both stop at a symbol cannot be one a proper prefix of the other. */
  lemma {:induction false} ReachedPrefix<S(!new), K(!new), B(!new)>(n: Node<S>, p: seq<B>, q: seq<B>, key: S -> Option<K>,
                                                 zero: B, one: B)
    requires Reached(n, p, key, zero, one).Some? && Reached(n, q, key, zero, one).Some?
    requires IsPrefix(p, q)
    ensures p == q
    decreases |p|
  {
    if p != [] {
      assert q[0] == p[0];
      assert IsPrefix(p[1..], q[1..]) by { assert q[1..][..|p| - 1] == q[..|p|][1..]; }
      if p[0] == zero {
        ReachedPrefix(n.left.value, p[1..], q[1..], key, zero, one);
      } else {
        ReachedPrefix(n.right.value, p[1..], q[1..], key, zero, one);
      }
      assert p == [p[0]] + p[1..];
      assert q == [q[0]] + q[1..];
    }
  }

  /** Every code table of a tree is prefix-free. */
  lemma CodeTablePrefixFree<S(!new), K(!new), B(!new)>(root: Node<S>, codes: map<K, seq<B>>, key: S -> Option<K>, zero: B, one: B)
    requires IsCodeTable(root, codes, key, zero, one)
    ensures PrefixFree(codes)
  {
    forall j, k | j in codes && k in codes && j != k ensures !IsPrefix(codes[j], codes[k]) {
      if IsPrefix(codes[j], codes[k]) {
        ReachedPrefix(root, codes[j], codes[k], key, zero, one);
        assert false;
      }
    }
  }

  // ----- symbols of a built tree -----

  /** The symbols the leaves of a pool carry. */
  ghost function LeafKeys<S(!new), K(!new)>(p: multiset<Node<S>>, key: S -> Option<K>): set<K> {
    set l | l in p && key(l.ch).Some? :: key(l.ch).value
  }

  /** In a tree whose parents carry no symbol the walk records exactly the symbols of the leaves. */
  lemma {:induction false} BuiltKeys<S(!new), K(!new)>(n: Node<S>, internal: S, key: S -> Option<K>)
    requires Built(n, internal) && key(internal).None?
    ensures KeysOf(n, key) == LeafKeys(Leaves(n), key)
  {
    if IsLeaf(n) {
      assert Leaves(n) == multiset{n};
    } else {
      var l, r := n.left.value, n.right.value;
      BuiltKeys(l, internal, key);
      BuiltKeys(r, internal, key);
      assert Leaves(n) == Leaves(l) + Leaves(r);
      forall k | k in LeafKeys(Leaves(n), key) ensures k in KeysOf(n, key) {
        var x :| x in Leaves(n) && key(x.ch).Some? && key(x.ch).value == k;
        if x in Leaves(l) {
          assert k in LeafKeys(Leaves(l), key);
        } else {
          assert k in LeafKeys(Leaves(r), key);
        }
      }
    }
  }

  /** The symbols an initial pool's leaves carry. */
  lemma LeafPoolKeys<K(!new), S(!new), J(!new)>(m: map<K, nat>, tag: K -> S, key: S -> Option<J>)
    ensures LeafKeys(LeafPool(m, tag), key) == set k | k in m && key(tag(k)).Some? :: key(tag(k)).value
  {
    var a := LeafKeys(LeafPool(m, tag), key);
    var b := set k | k in m && key(tag(k)).Some? :: key(tag(k)).value;
    forall j | j in a ensures j in b {
      var l :| l in LeafPool(m, tag) && key(l.ch).Some? && key(l.ch).value == j;
      var k :| k in m && l == Leaf(tag(k), m[k]);
    }
    forall j | j in b ensures j in a {
      var k :| k in m && key(tag(k)).Some? && key(tag(k)).value == j;
      assert Leaf(tag(k), m[k]) in LeafPool(m, tag);
    }
  }

  /** With at least two leaves the root of a built tree is a parent. */
  lemma BuiltRootIsParent<S(!new)>(n: Node<S>, internal: S)
    requires Built(n, internal)
    requires |Leaves(n)| >= 2
    ensures !IsLeaf(n) && n.ch == internal
  {
  }

  // ----- encoding -----

  /** The encoder of every variant: the codes of the symbols of `text` concatenated in text order; a
      symbol without a code panics (`codes[&c]`, `codes.get(&c).unwrap()`). */
  function Concat<K, B>(text: seq<K>, codes: map<K, seq<B>>): Result<seq<B>>
    decreases |text|
  {
    if text == [] then Ok([])
    else if text[0] !in codes then Panic(MissingKey)
    else
      var rest := Concat(text[1..], codes);
      if rest.Ok? then Ok(codes[text[0]] + rest.value) else rest
  }

  /** The total length of the codes of `text`. */
  ghost function CodeLength<K, B>(text: seq<K>, codes: map<K, seq<B>>): nat
    requires forall i :: 0 <= i < |text| ==> text[i] in codes
    decreases |text|
  {
    if text == [] then 0 else |codes[text[0]]| + CodeLength(text[1..], codes)
  }

  /** Encoding succeeds exactly when every symbol of the text has a code, and then its length is the
      sum of the code lengths. */
  lemma {:induction false} ConcatOk<K(!new), B(!new)>(text: seq<K>, codes: map<K, seq<B>>)
    ensures Concat(text, codes).Ok? <==> forall i :: 0 <= i < |text| ==> text[i] in codes
    ensures Concat(text, codes).Panic? ==> Concat(text, codes).failure == MissingKey
    ensures Concat(text, codes).Ok? ==> |Concat(text, codes).value| == CodeLength(text, codes)
    decreases |text|
  {
    if text != [] {
      ConcatOk(text[1..], codes);
      if text[0] in codes && (forall i :: 0 <= i < |text| - 1 ==> text[1..][i] in codes) {
        forall i | 0 <= i < |text| ensures text[i] in codes {
          if i > 0 {
            assert text[i] == text[1..][i - 1];
          }
        }
      }
    }
  }

  /** One more symbol appends its code (what one iteration of an encoding loop does). */
  lemma {:induction false} ConcatSnoc<K(!new), B(!new)>(text: seq<K>, c: K, codes: map<K, seq<B>>)
    ensures Concat(text + [c], codes) ==
              if Concat(text, codes).Ok? && c in codes then Ok(Concat(text, codes).value + codes[c])
              else Panic(MissingKey)
    decreases |text|
  {
    ConcatOk(text, codes);
    ConcatOk(text + [c], codes);
    if text == [] {
      assert text + [c] == [c];
      assert [c][1..] == [];
      if c in codes {
        var empty: seq<B> := [];
        assert codes[c] + empty == empty + codes[c];
      }
    } else {
      assert (text + [c])[0] == text[0];
      assert (text + [c])[1..] == text[1..] + [c];
      ConcatSnoc(text[1..], c, codes);
      if Concat(text, codes).Ok? && c in codes {
        var rest := Concat(text[1..], codes);
        assert rest.Ok?;
        assert Concat(text[1..] + [c], codes) == Ok(rest.value + codes[c]);
        assert Concat(text, codes).value == codes[text[0]] + rest.value;
        assert codes[text[0]] + (rest.value + codes[c]) == (codes[text[0]] + rest.value) + codes[c];
      }
    }
  }

  /** `encoded.push_str(&codes[&ch])` (or `extend`) for every symbol, in order. */
  method EncodeLoop<K(!new), B(!new)>(text: seq<K>, codes: map<K, seq<B>>) returns (r: Result<seq<B>>)
    ensures r == Concat(text, codes)
  {
    var encoded: seq<B> := [];
    var i := 0;
    while i < |text|
      invariant 0 <= i <= |text|
      invariant Concat(text[..i], codes) == Ok(encoded)
    {
      assert text[..i + 1] == text[..i] + [text[i]];
      ConcatSnoc(text[..i], text[i], codes);
      if text[i] !in codes {
        ConcatPanicExtends(text, i + 1, codes);
        return Panic(MissingKey);
      }
      encoded := encoded + codes[text[i]];
      i := i + 1;
    }
    assert text[..i] == text;
    return Ok(encoded);
  }

  /** Once a prefix of the text fails to encode, so does the whole text. */
  lemma ConcatPanicExtends<K(!new), B(!new)>(text: seq<K>, i: nat, codes: map<K, seq<B>>)
    requires i <= |text|
    requires Concat(text[..i], codes).Panic?
    ensures Concat(text, codes) == Panic(MissingKey)
  {
    ConcatOk(text[..i], codes);
    ConcatOk(text, codes);
    var j :| 0 <= j < i && text[..i][j] !in codes;
    assert text[j] !in codes;
  }

  // ----- decoding by walking the tree -----

  /** The tree-walk decoder (`decode` of `byoct1.rs`, gemini and tongyilingma), from node `cur`: each
      bit moves to the left (`zero`) or right (`one`) child, any other bit panics, a missing child
      panics at `unwrap`, and a child with a symbol is emitted and the walk restarts at the root. */
  function DecodeFrom<S, K, B(==)>(root: Node<S>, cur: Node<S>, bits: seq<B>, key: S -> Option<K>,
                                  zero: B, one: B): Result<seq<K>>
    decreases |bits|
  {
    if bits == [] then Ok([])
    else if bits[0] != zero && bits[0] != one then Panic(InvalidBit)
    else
      var child := if bits[0] == zero then cur.left else cur.right;
      if child.None? then Panic(UnwrapNone)
      else match key(child.value.ch)
        case Some(k) => Prepend(k, DecodeFrom(root, root, bits[1..], key, zero, one))
        case None => DecodeFrom(root, child.value, bits[1..], key, zero, one)
  }

  /** `out` followed by the outcome `r` of the rest of the input. */
  function AppendTo<K>(out: seq<K>, r: Result<seq<K>>): (o: Result<seq<K>>)
    ensures o.Ok? <==> r.Ok?
    ensures o.Ok? ==> o.value == out + r.value
    ensures o.Panic? ==> o == r
  {
    if r.Ok? then Ok(out + r.value) else r
  }

  /** The decoding loop: `node` walks down, `decoded` collects the emitted symbols. */
  method DecodeLoop<S, K, B(==)>(root: Node<S>, bits: seq<B>, key: S -> Option<K>, zero: B, one: B)
    returns (r: Result<seq<K>>)
    ensures r == DecodeFrom(root, root, bits, key, zero, one)
  {
    var node := root;
    var decoded: seq<K> := [];
    var i := 0;
    AppendNothing(DecodeFrom(root, root, bits, key, zero, one));
    while i < |bits|
      invariant 0 <= i <= |bits|
      invariant DecodeFrom(root, root, bits, key, zero, one) ==
                AppendTo(decoded, DecodeFrom(root, node, bits[i..], key, zero, one))
    {
      assert bits[i..][1..] == bits[i + 1..];
      var bit := bits[i];
      var next: Option<Node<S>>;
      if bit == zero {
        next := node.left;
      } else if bit == one {
        next := node.right;
      } else {
        return Panic(InvalidBit);
      }
      if next.None? {
        return Panic(UnwrapNone);
      }
      node := next.value;
      var k := key(node.ch);
      if k.Some? {
        AppendPrepend(decoded, k.value, DecodeFrom(root, root, bits[i + 1..], key, zero, one));
        decoded := decoded + [k.value];
        node := root;
      }
      i := i + 1;
    }
    assert bits[i..] == [];
    assert decoded + [] == decoded;
    return Ok(decoded);
  }

  lemma AppendNothing<K>(r: Result<seq<K>>)
    ensures AppendTo([], r) == r
  {
    if r.Ok? {
      assert [] + r.value == r.value;
    }
  }

  lemma AppendPrepend<K>(out: seq<K>, k: K, r: Result<seq<K>>)
    ensures AppendTo(out, Prepend(k, r)) == AppendTo(out + [k], r)
  {
    if r.Ok? {
      assert out + ([k] + r.value) == (out + [k]) + r.value;
    }
  }

  /** Decoding one code from `cur` emits its symbol and returns to the root. */
  lemma {:induction false} DecodeOne<S(!new), K(!new), B(!new)>(root: Node<S>, cur: Node<S>, q: seq<B>, rest: seq<B>, k: K,
                                             key: S -> Option<K>, zero: B, one: B)
    requires q != [] && Reached(cur, q, key, zero, one) == Some(k)
    ensures DecodeFrom(root, cur, q + rest, key, zero, one) == Prepend(k, DecodeFrom(root, root, rest, key, zero, one))
    decreases |q|
  {
    var bits := q + rest;
    assert bits[0] == q[0];
    assert bits[1..] == q[1..] + rest;
    var child := if q[0] == zero then cur.left.value else cur.right.value;
    assert Reached(child, q[1..], key, zero, one) == Some(k);
    if q[1..] == [] {
      assert bits[1..] == rest;
    } else {
      DecodeOne(root, child, q[1..], rest, k, key, zero, one);
    }
  }

  /** Round trip: when the root carries no symbol, decoding the encoding of any text made of coded
      symbols gives the text back. */
  lemma {:induction false} RoundTrip<S(!new), K(!new), B(!new)>(root: Node<S>, codes: map<K, seq<B>>, text: seq<K>,
                                             key: S -> Option<K>, zero: B, one: B)
    requires IsCodeTable(root, codes, key, zero, one)
    requires key(root.ch).None?
    requires forall i :: 0 <= i < |text| ==> text[i] in codes
    ensures Concat(text, codes).Ok?
    ensures DecodeFrom(root, root, Concat(text, codes).value, key, zero, one) == Ok(text)
    decreases |text|
  {
    ConcatOk(text, codes);
    if text != [] {
      var c := text[0];
      RoundTrip(root, codes, text[1..], key, zero, one);
      assert codes[c] != [];
      DecodeOne(root, root, codes[c], Concat(text[1..], codes).value, c, key, zero, one);
      assert text == [c] + text[1..];
    }
  }

  /** A tree that is a single leaf gives its symbol the empty code, and every text of that symbol
      encodes to nothing, so it cannot be decoded back. */
  lemma SingleLeafCode<S(!new), K(!new), B(!new)>(root: Node<S>, k: K, text: seq<K>, key: S -> Option<K>, zero: B, one: B)
    requires IsLeaf(root) && key(root.ch) == Some(k)
    requires forall i :: 0 <= i < |text| ==> text[i] == k
    ensures StdCodes(root, [], map[], key, zero, one) == map[k := []]
    ensures Concat(text, StdCodes(root, [], map[], key, zero, one)) == Ok([])
    ensures DecodeFrom(root, root, [], key, zero, one) == Ok([])
    decreases |text|
  {
    assert StdCodes(root, [], map[], key, zero, one) == map[k := []];
    if text != [] {
      SingleLeafCode(root, k, text[1..], key, zero, one);
      assert text[0] == k;
      var empty: seq<B> := [];
      assert empty + empty == empty;
    }
  }

  /** A text of one repeated symbol whose code is empty encodes to nothing. */
  lemma {:induction false} ConcatEmptyCode<K(!new), B(!new)>(text: seq<K>, k: K, codes: map<K, seq<B>>)
    requires forall i :: 0 <= i < |text| ==> text[i] == k
    requires k in codes && codes[k] == []
    ensures Concat(text, codes) == Ok([])
    decreases |text|
  {
    if text != [] {
      ConcatEmptyCode(text[1..], k, codes);
      assert text[0] == k;
      var empty: seq<B> := [];
      assert empty + empty == empty;
    }
  }

  /** A text with a symbol that has no code panics in the encoder. */
  lemma ConcatMissing<K(!new), B(!new)>(text: seq<K>, codes: map<K, seq<B>>, i: nat)
    requires i < |text| && text[i] !in codes
    ensures Concat(text, codes) == Panic(MissingKey)
  {
    ConcatOk(text, codes);
  }
}
