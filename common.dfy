/** Shared vocabulary of every Huffman variant: Rust's Option and panics, std::cmp::Ordering and the
    laws an `Ord` implementation must obey, bytes, and the frequency table every variant counts. */
module Common {

  datatype Option<T> = None | Some(value: T)

  /** Why a Rust function panicked. */
  datatype Failure =
    | UnwrapNone     // `.unwrap()` or `.expect(..)` on a `None`
    | MissingKey     // `map[&key]` on a key that is absent
    | InvalidBit     // `panic!("Invalid bit")`

  /** The outcome of a Rust function that may panic. */
  datatype Result<T> = Ok(value: T) | Panic(failure: Failure)

  function Prepend<T>(x: T, r: Result<seq<T>>): (out: Result<seq<T>>)
    ensures out.Ok? <==> r.Ok?
    ensures out.Ok? ==> out.value == [x] + r.value
  {
    if r.Ok? then Ok([x] + r.value) else r
  }

  /** Rust's `u8`. */
  type Byte = x: int | 0 <= x < 256

  /** std::cmp::Ordering */
  datatype Ordering = Less | Equal | Greater

  /** `Ord::cmp` on integers (usize, u32, u8) and on chars (code point order). */
  function CmpInt(a: int, b: int): (o: Ordering)
    ensures o == Less <==> a < b
    ensures o == Equal <==> a == b
  {
    if a < b then Less else if a == b then Equal else Greater
  }

  function CmpChar(a: char, b: char): (o: Ordering)
    ensures o == Less <==> a < b
    ensures o == Equal <==> a == b
  {
    CmpInt(a as int, b as int)
  }

  /** `Ord::cmp` on `Option<char>` / `Option<u8>` as derived by Rust: `None` is below every `Some`. */
  function CmpOptChar(a: Option<char>, b: Option<char>): (o: Ordering)
    ensures o == Equal <==> a == b
    ensures o == Less <==> (a.None? && b.Some?) || (a.Some? && b.Some? && a.value < b.value)
  {
    match (a, b)
    case (None, None) => Equal
    case (None, Some(_)) => Less
    case (Some(_), None) => Greater
    case (Some(x), Some(y)) => CmpChar(x, y)
  }

  function CmpOptByte(a: Option<Byte>, b: Option<Byte>): (o: Ordering)
    ensures o == Equal <==> a == b
    ensures o == Less <==> (a.None? && b.Some?) || (a.Some? && b.Some? && a.value < b.value)
  {
    match (a, b)
    case (None, None) => Equal
    case (None, Some(_)) => Less
    case (Some(_), None) => Greater
    case (Some(x), Some(y)) => CmpInt(x, y)
  }

  /** `Ordering::then_with`: the second comparison decides only a tie of the first. */
  function ThenWith(first: Ordering, second: Ordering): (o: Ordering)
    ensures first != Equal ==> o == first
    ensures first == Equal ==> o == second
  {
    if first == Equal then second else first
  }

  /** The laws Rust asks of an `Ord` implementation (a total preorder): Less and Greater are dual, and
      "not less" is transitive. */
  ghost predicate IsOrd<T(!new)>(cmp: (T, T) -> Ordering) {
    && (forall a, b :: cmp(a, b) == Less <==> cmp(b, a) == Greater)
    && (forall a, b, c :: cmp(a, b) != Less && cmp(b, c) != Less ==> cmp(a, c) != Less)
  }

  /** A frequency table of `s`: exactly the elements of `s` are keys, each mapped to its number of
      occurrences. */
  ghost predicate IsFrequencyTable<T(!new)>(s: seq<T>, m: map<T, nat>) {
    && (forall x :: x in m <==> x in s)
    && (forall x :: x in m ==> m[x] == multiset(s)[x])
  }

  /** The sum of the counts of a table. */
  ghost function MapSum<K>(m: map<K, nat>): nat
    decreases |m|
  {
    if m == map[] then 0
    else
      var k :| k in m;
      assert |m - {k}| < |m| by { assert (m - {k}).Keys == m.Keys - {k}; }
      m[k] + MapSum(m - {k})
  }

  lemma {:induction false} MapSumRemove<K>(m: map<K, nat>, k: K)
    requires k in m
    ensures MapSum(m) == m[k] + MapSum(m - {k})
    decreases |m|
  {
    var j :| j in m && MapSum(m) == m[j] + MapSum(m - {j});
    if j != k {
      assert (m - {j}).Keys == m.Keys - {j};
      assert (m - {k}).Keys == m.Keys - {k};
      MapSumRemove(m - {j}, k);
      MapSumRemove(m - {k}, j);
      assert m - {j} - {k} == m - {k} - {j};
    }
  }

  /** Setting one entry changes the sum by the difference of the old and the new count. */
  lemma MapSumUpdate<K>(m: map<K, nat>, k: K, v: nat)
    ensures MapSum(m[k := v]) == (if k in m then MapSum(m) - m[k] else MapSum(m)) + v
  {
    MapSumRemove(m[k := v], k);
    assert m[k := v] - {k} == m - {k};
    if k in m {
      MapSumRemove(m, k);
    } else {
      assert m - {k} == m;
    }
  }

  /** Counting is commutative: a frequency table depends only on the multiset of the input, and there
      is only one table per input. */
  lemma FrequencyTableUnique<T(!new)>(s: seq<T>, t: seq<T>, m: map<T, nat>, n: map<T, nat>)
    requires IsFrequencyTable(s, m) && IsFrequencyTable(t, n)
    requires multiset(s) == multiset(t)
    ensures m == n
  {
    forall x | x in m ensures x in n && m[x] == n[x] {
      assert x in multiset(s);
      assert x in multiset(t);
    }
    forall x | x in n ensures x in m {
      assert x in multiset(t);
      assert x in multiset(s);
    }
  }

  /** Only the empty input has an empty frequency table. */
  lemma FrequencyTableEmpty<T(!new)>(s: seq<T>, m: map<T, nat>)
    requires IsFrequencyTable(s, m)
    ensures s == [] <==> m == map[]
  {
    if s != [] {
      assert s[0] in m;
    }
  }

  /** `s` holds two different elements. */
  ghost predicate TwoDistinct<T(!new)>(s: seq<T>) {
    exists i, j :: 0 <= i < j < |s| && s[i] != s[j]
  }

  /** The frequency table of `s` has two keys or more exactly when `s` holds two different elements;
      otherwise a non-empty `s` repeats its first element, the only key of the table. */
  lemma DistinctKeys<T(!new)>(s: seq<T>, m: map<T, nat>)
    requires IsFrequencyTable(s, m)
    ensures TwoDistinct(s) <==> |m| >= 2
    ensures s != [] && !TwoDistinct(s) ==> m.Keys == {s[0]} && forall i :: 0 <= i < |s| ==> s[i] == s[0]
  {
    assert |m| == |m.Keys|;
    if TwoDistinct(s) {
      var i, j :| 0 <= i < j < |s| && s[i] != s[j];
      SubsetCard({s[i], s[j]}, m.Keys);
    } else if s != [] {
      forall i | 0 <= i < |s| ensures s[i] == s[0] {
        assert i == 0 || s[0] == s[i];
      }
      forall k | k in m ensures k == s[0] {
        var i :| 0 <= i < |s| && s[i] == k;
      }
      assert m.Keys == {s[0]};
    } else {
      FrequencyTableEmpty(s, m);
    }
  }

  lemma SubsetCard<T>(a: set<T>, b: set<T>)
    requires a <= b
    ensures |a| <= |b|
  {
    assert b == a + (b - a);
  }
}
