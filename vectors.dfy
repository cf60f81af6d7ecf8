/** The two vector primitives the contract relies on: `iter().position(p)`
    (the first index satisfying a predicate) and `remove(i)`. */
module Vectors {
  import opened Types

  /** `i` is the first position of `s` whose element satisfies `p`. */
  ghost predicate IsFirstMatch<T>(s: seq<T>, p: T -> bool, i: int) {
    0 <= i < |s| && p(s[i]) && forall j :: 0 <= j < i ==> !p(s[j])
  }

  /** Some element of `s` satisfies `p`. */
  ghost predicate AnyMatch<T>(s: seq<T>, p: T -> bool) {
    exists i :: 0 <= i < |s| && p(s[i])
  }

  /** The index `iter().position(p)` returns. */
  function FirstIndex<T>(s: seq<T>, p: T -> bool): (r: Option<nat>)
    ensures r.Some? ==> r.value < |s| && p(s[r.value])
  {
    if s == [] then None
    else if p(s[0]) then Some(0)
    else match FirstIndex(s[1..], p)
      case None => None
      case Some(k) => Some(k + 1)
  }

  /** `position` finds the first match, and finds none exactly when no
      element matches. */
  lemma {:induction false} FirstIndexSpec<T>(s: seq<T>, p: T -> bool)
    ensures FirstIndex(s, p).Some? ==> IsFirstMatch(s, p, FirstIndex(s, p).value)
    ensures FirstIndex(s, p).None? <==> !AnyMatch(s, p)
  {
    if s != [] && !p(s[0]) {
      FirstIndexSpec(s[1..], p);
      if AnyMatch(s, p) {
        var i :| 0 <= i < |s| && p(s[i]);
        assert s[1..][i - 1] == s[i];
      }
      if FirstIndex(s[1..], p).Some? {
        var k := FirstIndex(s[1..], p).value;
        assert forall j :: 0 < j <= k ==> s[j] == s[1..][j - 1];
      }
    }
  }

  /** The first index whose element satisfies `p` is the one `position` finds. */
  lemma {:induction false} FirstIndexAt<T>(s: seq<T>, p: T -> bool, i: nat)
    requires i < |s| && p(s[i]) && forall j :: 0 <= j < i ==> !p(s[j])
    ensures FirstIndex(s, p) == Some(i)
  {
    if i > 0 {
      FirstIndexAt(s[1..], p, i - 1);
    }
  }


  method Position<T>(s: seq<T>, p: T -> bool) returns (r: Option<nat>)
    ensures r == FirstIndex(s, p)
  {
    var i := 0;
    while i < |s|
      invariant 0 <= i <= |s|
      invariant forall j :: 0 <= j < i ==> !p(s[j])
    {
      if p(s[i]) {
        FirstIndexAt(s, p, i);
        return Some(i);
      }
      i := i + 1;
    }
    FirstIndexSpec(s, p);
    return None;
  }

  /** `v.remove(i)`: the vector without its element at `i`, the others in order. */
  function RemoveAt<T>(s: seq<T>, i: nat): (r: seq<T>)
    requires i < |s|
    ensures |r| == |s| - 1
  {
    s[..i] + s[i + 1..]
  }

  /** The elements before `i` stay where they were; those after it move one
      place down. */
  lemma RemoveAtElements<T>(s: seq<T>, i: nat)
    requires i < |s|
    ensures forall j :: 0 <= j < i ==> RemoveAt(s, i)[j] == s[j]
    ensures forall j :: i <= j < |s| - 1 ==> RemoveAt(s, i)[j] == s[j + 1]
  {
  }

  /** Removing an element takes exactly that element out of the multiset. */
  lemma RemoveAtMultiset<T>(s: seq<T>, i: nat)
    requires i < |s|
    ensures multiset(RemoveAt(s, i)) + multiset{s[i]} == multiset(s)
  {
    assert s == s[..i] + [s[i]] + s[i + 1..];
  }
}
