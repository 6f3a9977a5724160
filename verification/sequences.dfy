/**
 Integer sequences as the game builds them: a contiguous range of options in
 ascending order, and the same list with one value filtered out. These are the
 two list comprehensions every operation of the game is made of.
 */
module Sequences {

  /** Strictly ascending: every later element is larger than every earlier one. */
  predicate Increasing(s: seq<int>) {
    forall i, j :: 0 <= i < j < |s| ==> s[i] < s[j]
  }

  /** Putting a value below every element in front of an ascending sequence keeps it ascending. */
  lemma IncreasingCons(x: int, s: seq<int>)
    requires Increasing(s)
    requires forall v :: v in s ==> x < v
    ensures Increasing([x] + s)
  {
    var t := [x] + s;
    forall i, j | 0 <= i < j < |t|
      ensures t[i] < t[j]
    {
      assert t[j] == s[j - 1];
      if i > 0 {
        assert t[i] == s[i - 1];
      } else {
        assert s[j - 1] in s;
      }
    }
  }

  /** The head of an ascending sequence is below everything after it, so it does not recur. */
  lemma IncreasingHead(s: seq<int>)
    requires |s| > 0
    ensures Increasing(s) ==> forall v :: v in s[1..] ==> s[0] < v
  {
    forall v | Increasing(s) && v in s[1..]
      ensures s[0] < v
    {
      var k :| 0 <= k < |s[1..]| && s[1..][k] == v;
      assert s[k + 1] == v;
    }
  }

  /** The options lo, lo + 1, ..., hi in ascending order (empty when lo > hi). */
  function Range(lo: int, hi: int): (r: seq<int>)
    ensures |r| == if lo <= hi then hi - lo + 1 else 0
    ensures forall v :: v in r <==> lo <= v <= hi
    ensures Increasing(r)
    decreases hi - lo
  {
    if lo > hi then []
    else
      var rest := Range(lo + 1, hi);
      IncreasingCons(lo, rest);
      [lo] + rest
  }

  /** The elements of s that differ from x, in their original order. */
  function Excluding(s: seq<int>, x: int): (r: seq<int>)
    ensures forall v :: v in r <==> v in s && v != x
    ensures |r| <= |s|
    ensures x !in s ==> r == s
    ensures Increasing(s) ==> Increasing(r)
    ensures Increasing(s) && x in s ==> |r| == |s| - 1
    decreases |s|
  {
    if |s| == 0 then []
    else
      var rest := Excluding(s[1..], x);
      IncreasingHead(s);
      if s[0] == x then
        rest
      else
        assert Increasing(s) ==> Increasing([s[0]] + rest) by {
          if Increasing(s) {
            IncreasingCons(s[0], rest);
          }
        }
        assert s == [s[0]] + s[1..];
        [s[0]] + rest
  }
}
