/** The two character loops several variants share: counting symbols into a `HashMap` and testing
    whether a file's contents are a bit string. */
module Text {
  import opened Common

  /** `*frequencies.entry(ch).or_insert(0) += 1` for every symbol of `s`, in order. */
  method Count<T(==,!new)>(s: seq<T>) returns (m: map<T, nat>)
    ensures IsFrequencyTable(s, m)
    ensures MapSum(m) == |s|
  {
    m := map[];
    for i := 0 to |s|
      invariant IsFrequencyTable(s[..i], m)
      invariant MapSum(m) == i
    {
      assert s[..i + 1] == s[..i] + [s[i]];
      var c := s[i];
      var n := if c in m then m[c] + 1 else 1;
      MapSumUpdate(m, c, n);
      m := m[c := n];
    }
    assert s[..|s|] == s;
  }

  /** `is_binary`: true exactly when every character is '0' or '1' (so also for the empty string). */
  method IsBinary(contents: string) returns (b: bool)
    ensures b <==> forall i :: 0 <= i < |contents| ==> contents[i] == '0' || contents[i] == '1'
  {
    for i := 0 to |contents|
      invariant forall j :: 0 <= j < i ==> contents[j] == '0' || contents[j] == '1'
    {
      if contents[i] != '0' && contents[i] != '1' {
        return false;
      }
    }
    return true;
  }

  /** The last path component of `path`: its longest suffix free of '/', which is all of `path` or
      follows its last '/'. */
  function BaseName(path: string): (name: string)
    ensures '/' !in name
    ensures |name| <= |path| && path[|path| - |name|..] == name
    ensures |name| == |path| || path[|path| - |name| - 1] == '/'
    decreases |path|
  {
    if path == [] then []
    else if path[|path| - 1] == '/' then []
    else BaseName(path[..|path| - 1]) + [path[|path| - 1]]
  }

  /** The loop of `main` that builds `file_name`: '/' clears what was collected, any other character
      is appended. */
  method FileName(path: string) returns (name: string)
    ensures name == BaseName(path)
  {
    name := [];
    for i := 0 to |path|
      invariant name == BaseName(path[..i])
    {
      BaseNameStep(path, i);
      if path[i] == '/' {
        name := [];
      } else {
        name := name + [path[i]];
      }
    }
    assert path[..|path|] == path;
  }

  lemma BaseNameStep(path: string, i: nat)
    requires i < |path|
    ensures BaseName(path[..i + 1]) == if path[i] == '/' then [] else BaseName(path[..i]) + [path[i]]
  {
    assert path[..i + 1][..i] == path[..i];
  }

  /** `s.rfind(c)`: the position of the last `c` in `s`, `None` when there is none. */
  function LastIndexOf(s: string, c: char): (r: Option<nat>)
    ensures r.None? <==> c !in s
    ensures r.Some? ==> r.value < |s| && s[r.value] == c && c !in s[r.value + 1..]
    decreases |s|
  {
    if s == [] then None
    else if s[|s| - 1] == c then Some(|s| - 1)
    else
      var r := LastIndexOf(s[..|s| - 1], c);
      assert s == s[..|s| - 1] + [s[|s| - 1]];
      r
  }

  /** `dir_name`: `file_name` up to its last '.', which panics at `unwrap` when there is no '.'. */
  function DirName(name: string): (r: Result<string>)
    ensures r.Panic? <==> '.' !in name
    ensures r.Panic? ==> r.failure == UnwrapNone
    ensures r.Ok? ==> && |r.value| < |name| && name[..|r.value|] == r.value && name[|r.value|] == '.'
                      && '.' !in name[|r.value| + 1..]
  {
    match LastIndexOf(name, '.')
    case None => Panic(UnwrapNone)
    case Some(i) => Ok(name[..i])
  }
}
