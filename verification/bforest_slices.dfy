/** The two array helpers the nodes and paths are built on. */
module BForestSlices {
  import opened BForestNode

  /** What is left of an array after shifting it to the left: the last elements stay where they are. */
  function Shifted<T>(s: seq<T>, n: nat): (r: seq<T>)
    requires n <= |s|
    ensures |r| == |s|
  {
    s[n..] + s[|s| - n..]
  }

  /** Inserts into the first `len` elements, pushing out the last of them. */
  method SliceInsert<T>(s: array<T>, len: nat, i: nat, x: T)
    requires i < len <= s.Length
    modifies s
    ensures s[..len] == InsertAt(old(s[..len - 1]), i, x) && s[len..] == old(s[len..])
  {
    var j := len;
    while j > i + 1
      invariant i < j <= len
      invariant forall k :: 0 <= k < j || len <= k < s.Length ==> s[k] == old(s[k])
      invariant forall k :: j <= k < len ==> s[k] == old(s[k - 1])
    {
      j := j - 1;
      s[j] := s[j - 1];
    }
    s[i] := x;
    ghost var r := InsertAt(old(s[..len - 1]), i, x);
    forall k | 0 <= k < len ensures s[k] == r[k] {
    }
    assert s[..len] == r;
  }

  method SliceShift<T>(s: array<T>, n: nat)
    requires n <= s.Length
    modifies s
    ensures s[..] == Shifted(old(s[..]), n)
  {
    for j := 0 to s.Length - n
      invariant forall k :: 0 <= k < j ==> s[k] == old(s[k + n])
      invariant s[j..] == old(s[j..])
    {
      assert s[j + n] == s[j..][n];
      s[j] := s[j + n];
    }
    assert forall k :: s.Length - n <= k < s.Length ==> s[k] == s[s.Length - n..][k - (s.Length - n)];
  }
}
