/**
 * `Array.prototype.findIndex` and `findLastIndex`: the index of the first
 * (last) element satisfying a predicate, or -1 when there is none.
 */
module Seqs {

  function FindIndexFrom<T>(s: seq<T>, p: T -> bool, from: nat): (r: int)
    requires from <= |s|
    ensures r == -1 || from <= r < |s|
    ensures r == -1 <==> forall i :: from <= i < |s| ==> !p(s[i])
    ensures r != -1 ==> p(s[r]) && forall i :: from <= i < r ==> !p(s[i])
    decreases |s| - from
  {
    if from == |s| then -1
    else if p(s[from]) then from
    else FindIndexFrom(s, p, from + 1)
  }

  function FindIndex<T>(s: seq<T>, p: T -> bool): (r: int)
    ensures r == -1 || 0 <= r < |s|
    ensures r == -1 <==> forall i :: 0 <= i < |s| ==> !p(s[i])
    ensures r != -1 ==> p(s[r]) && forall i :: 0 <= i < r ==> !p(s[i])
  {
    FindIndexFrom(s, p, 0)
  }

  /** The last index below `upto` whose element satisfies `p`. */
  function FindLastIndexBelow<T>(s: seq<T>, p: T -> bool, upto: nat): (r: int)
    requires upto <= |s|
    ensures r == -1 || 0 <= r < upto
    ensures r == -1 <==> forall i :: 0 <= i < upto ==> !p(s[i])
    ensures r != -1 ==> p(s[r]) && forall i :: r < i < upto ==> !p(s[i])
    decreases upto
  {
    if upto == 0 then -1
    else if p(s[upto - 1]) then upto - 1
    else FindLastIndexBelow(s, p, upto - 1)
  }

  function FindLastIndex<T>(s: seq<T>, p: T -> bool): (r: int)
    ensures r == -1 || 0 <= r < |s|
    ensures r == -1 <==> forall i :: 0 <= i < |s| ==> !p(s[i])
    ensures r != -1 ==> p(s[r]) && forall i :: r < i < |s| ==> !p(s[i])
  {
    FindLastIndexBelow(s, p, |s|)
  }
}
