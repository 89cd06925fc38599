/** Ordering of query results and of the feed: a sort on one integer key,
    as `.sort({ createdAt: -1 })` and `Array.prototype.sort` with a
    subtracting comparator produce. */
module Sorting {

  /** Keys never increase from left to right. */
  ghost predicate NonIncreasing<T>(s: seq<T>, key: T -> int) {
    forall i, j :: 0 <= i < j < |s| ==> key(s[i]) >= key(s[j])
  }

  /** Keys never decrease from left to right. */
  ghost predicate NonDecreasing<T>(s: seq<T>, key: T -> int) {
    forall i, j :: 0 <= i < j < |s| ==> key(s[i]) <= key(s[j])
  }

  /** Place `x` into an already ordered sequence, in front of the first
      element whose key is not larger. */
  function InsertDescending<T>(x: T, s: seq<T>, key: T -> int): (r: seq<T>)
    requires NonIncreasing(s, key)
    ensures NonIncreasing(r, key)
    ensures multiset(r) == multiset(s) + multiset{x}
    ensures |r| == |s| + 1
    decreases |s|
  {
    if |s| == 0 then [x]
    else if key(x) >= key(s[0]) then [x] + s
    else
      assert s == [s[0]] + s[1..];
      var rest := InsertDescending(x, s[1..], key);
      forall i | 0 <= i < |rest| ensures key(rest[i]) <= key(s[0]) {
        assert rest[i] in multiset(rest);
        if rest[i] != x {
          assert rest[i] in multiset(s[1..]);
        }
      }
      [s[0]] + rest
  }

  /** Sort by `key`, largest first. The result holds exactly the input's
      elements, each as often as in the input. */
  function SortDescending<T>(s: seq<T>, key: T -> int): (r: seq<T>)
    ensures NonIncreasing(r, key)
    ensures multiset(r) == multiset(s)
    ensures |r| == |s|
    decreases |s|
  {
    if |s| == 0 then []
    else
      assert s == [s[0]] + s[1..];
      InsertDescending(s[0], SortDescending(s[1..], key), key)
  }

  /** Sort by `key`, smallest first: a descending sort on the negated key. */
  function SortAscending<T>(s: seq<T>, key: T -> int): (r: seq<T>)
    ensures NonDecreasing(r, key)
    ensures multiset(r) == multiset(s)
  {
    var r := SortDescending(s, x => -key(x));
    assert forall i, j :: 0 <= i < j < |r| ==> -key(r[i]) >= -key(r[j]);
    r
  }

  /** Sorting neither adds nor drops an element. */
  lemma SortKeepsMembers<T>(s: seq<T>, key: T -> int)
    ensures forall x :: x in SortDescending(s, key) <==> x in s
  {
    var r := SortDescending(s, key);
    assert forall x :: x in r <==> x in multiset(r);
    assert forall x :: x in s <==> x in multiset(s);
  }
}
