/** Order-preserving sequence operations the component applies to its file
    list. */
module Sequences {

  /** `a` can be obtained from `b` by dropping elements, keeping the order
      of those that remain. */
  predicate IsSubsequence<T(==)>(a: seq<T>, b: seq<T>)
    decreases |b|
  {
    if a == [] then true
    else if b == [] then false
    else (a[0] == b[0] && IsSubsequence(a[1..], b[1..])) || IsSubsequence(a, b[1..])
  }

  /** `s.filter((_, i) => i !== index)` where the elements of `s` sit at
      positions `offset`, `offset + 1`, …: keep every element whose
      position differs from `index`. */
  function KeepOtherPositions<T>(s: seq<T>, index: int, offset: int): (r: seq<T>)
    ensures !(offset <= index < offset + |s|) ==> r == s
    ensures offset <= index < offset + |s| ==>
      r == s[..index - offset] + s[index - offset + 1..]
    decreases |s|
  {
    if s == [] then []
    else if offset == index then KeepOtherPositions(s[1..], index, offset + 1)
    else [s[0]] + KeepOtherPositions(s[1..], index, offset + 1)
  }

  /** The index filter of `handleDelete`: an in-range index removes exactly
      that element and keeps the others in order; any other index changes
      nothing. */
  function RemoveAt<T>(s: seq<T>, index: int): (r: seq<T>)
    ensures 0 <= index < |s| ==> |r| == |s| - 1
    ensures 0 <= index < |s| ==> forall k :: 0 <= k < index ==> r[k] == s[k]
    ensures 0 <= index < |s| ==> forall k :: index <= k < |r| ==> r[k] == s[k + 1]
    ensures !(0 <= index < |s|) ==> r == s
  {
    KeepOtherPositions(s, index, 0)
  }

  /** What remains after a deletion is a subsequence of what was there. */
  lemma {:induction false} RemoveAtIsSubsequence<T>(s: seq<T>, index: int)
    ensures IsSubsequence(RemoveAt(s, index), s)
  {
    if 0 <= index < |s| {
      DropOneIsSubsequence(s, index);
    } else {
      SubsequenceReflexive(s);
    }
  }

  lemma {:induction false} SubsequenceReflexive<T>(s: seq<T>)
    ensures IsSubsequence(s, s)
    decreases |s|
  {
    if s != [] {
      SubsequenceReflexive(s[1..]);
    }
  }

  lemma {:induction false} DropOneIsSubsequence<T>(s: seq<T>, index: nat)
    requires index < |s|
    ensures IsSubsequence(s[..index] + s[index + 1..], s)
    decreases |s|
  {
    var r := s[..index] + s[index + 1..];
    if index == 0 {
      assert r == s[1..];
      SubsequenceReflexive(s[1..]);
      if r != [] {
        assert IsSubsequence(r, s[1..]);
      }
    } else {
      DropOneIsSubsequence(s[1..], index - 1);
      assert r[0] == s[0];
      assert r[1..] == s[1..][..index - 1] + s[1..][index..];
    }
  }
}
