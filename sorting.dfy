/** Python's `sorted(xs, reverse=True)`, `max(xs)` and `xs[:k]` on integers,
    with what the evaluator needs to know about them. */
module Sorting {
  predicate NonIncreasing(s: seq<int>) {
    forall i, j :: 0 <= i < j < |s| ==> s[i] >= s[j]
  }

  /** Places x in front of the first element it is not below. */
  function Insert(x: int, s: seq<int>): (r: seq<int>)
    requires NonIncreasing(s)
    ensures NonIncreasing(r)
    ensures multiset(r) == multiset(s) + multiset{x}
  {
    if s == [] || x >= s[0] then
      HeadBounds(s, x);
      PrependSorted(x, s);
      [x] + s
    else
      var rest := Insert(x, s[1..]);
      assert s == [s[0]] + s[1..];
      InsertedBelowHead(s, x, rest);
      PrependSorted(s[0], rest);
      [s[0]] + rest
  }

  /** A non-increasing list lies below any y at least its head. */
  lemma HeadBounds(s: seq<int>, y: int)
    requires NonIncreasing(s) && (s != [] ==> s[0] <= y)
    ensures forall j :: 0 <= j < |s| ==> s[j] <= y
  {
  }

  /** Putting an element at least every other one in front keeps the order. */
  lemma PrependSorted(y: int, t: seq<int>)
    requires NonIncreasing(t) && forall j :: 0 <= j < |t| ==> t[j] <= y
    ensures NonIncreasing([y] + t)
  {
  }

  /** Inserting an x below the head into the tail keeps everything below the
      head. */
  lemma InsertedBelowHead(s: seq<int>, x: int, rest: seq<int>)
    requires NonIncreasing(s) && s != [] && x < s[0]
    requires multiset(rest) == multiset(s[1..]) + multiset{x}
    ensures forall j :: 0 <= j < |rest| ==> rest[j] <= s[0]
  {
    forall j | 0 <= j < |rest| ensures rest[j] <= s[0] {
      assert rest[j] in multiset(rest);
      if rest[j] != x {
        assert rest[j] in multiset(s[1..]);
        var i :| 0 <= i < |s[1..]| && s[1..][i] == rest[j];
        assert s[i + 1] == rest[j];
      }
    }
  }

  /** `sorted(s, reverse=True)`: the same elements, largest first. */
  function SortDesc(s: seq<int>): (r: seq<int>)
    ensures NonIncreasing(r)
    ensures multiset(r) == multiset(s)
  {
    if s == [] then []
    else
      assert s == [s[0]] + s[1..];
      Insert(s[0], SortDesc(s[1..]))
  }

  /** `s[:k]` for a non-negative k. */
  function Take(s: seq<int>, k: nat): seq<int> {
    if k < |s| then s[..k] else s
  }

  /** `max(s)` of a non-empty list. */
  function MaxOf(s: seq<int>): (m: int)
    requires |s| > 0
    ensures m in s
    ensures forall x :: x in s ==> x <= m
  {
    if |s| == 1 then s[0]
    else
      var m := MaxOf(s[1..]);
      assert s == [s[0]] + s[1..];
      if s[0] >= m then s[0] else m
  }

  /** t lists, largest first, the k largest elements of s (all of s when it
      has fewer than k): nothing left out of s exceeds the last one taken. */
  ghost predicate IsTopK(t: seq<int>, s: seq<int>, k: nat) {
    |t| == (if k < |s| then k else |s|)
    && NonIncreasing(t)
    && multiset(t) <= multiset(s)
    && (|t| > 0 ==> forall x :: x in multiset(s) - multiset(t) ==> x <= t[|t| - 1])
  }

  /** `sorted(s, reverse=True)[:k]` takes the k largest elements of s. */
  lemma TakeSortDescIsTopK(s: seq<int>, k: nat)
    ensures IsTopK(Take(SortDesc(s), k), s, k)
  {
    TopKOfSorted(SortDesc(s), s, k);
  }

  /** The first k of any non-increasing arrangement of s are its k largest. */
  lemma TopKOfSorted(t: seq<int>, s: seq<int>, k: nat)
    requires NonIncreasing(t) && multiset(t) == multiset(s)
    ensures IsTopK(Take(t, k), s, k)
  {
    assert |t| == |multiset(t)| == |s|;
    var n := if k < |t| then k else |t|;
    assert t == t[..n] + t[n..];
    assert Take(t, k) == t[..n];
    assert multiset(t) == multiset(t[..n]) + multiset(t[n..]);
    if n > 0 {
      forall x | x in multiset(s) - multiset(t[..n])
        ensures x <= t[n - 1]
      {
        assert x in multiset(t[n..]);
        assert x in t[n..];
        var j :| n <= j < |t| && t[j] == x;
      }
    }
  }
}
