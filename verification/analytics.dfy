/** The grouped count behind the heat map: `$group: { _id: <key>, count:
    { $sum: 1 } }` followed by `$project: { area: "$_id", count: 1 }`. */
module Analytics {

  /** One output document: a group key and how many inputs carried it. */
  datatype Bucket = Bucket(area: string, count: nat)

  /** How often `k` occurs in `keys`. */
  function Occurrences(keys: seq<string>, k: string): nat
    decreases |keys|
  {
    if |keys| == 0 then 0
    else Occurrences(keys[..|keys| - 1], k) + (if keys[|keys| - 1] == k then 1 else 0)
  }

  /** The count recorded for `a` (summed, should it appear more than once). */
  function CountOf(buckets: seq<Bucket>, a: string): nat
    decreases |buckets|
  {
    if |buckets| == 0 then 0
    else (if buckets[0].area == a then buckets[0].count else 0) + CountOf(buckets[1..], a)
  }

  /** The sum of all counts. */
  function Total(buckets: seq<Bucket>): nat
    decreases |buckets|
  {
    if |buckets| == 0 then 0 else buckets[0].count + Total(buckets[1..])
  }

  /** The group keys that have a bucket. */
  function Areas(buckets: seq<Bucket>): set<string>
    decreases |buckets|
  {
    if |buckets| == 0 then {} else {buckets[0].area} + Areas(buckets[1..])
  }

  /** Each group key appears in one bucket only, and no bucket is empty. */
  ghost predicate WellFormed(buckets: seq<Bucket>)
    decreases |buckets|
  {
    |buckets| == 0 ||
      (buckets[0].count >= 1 && buckets[0].area !in Areas(buckets[1..]) && WellFormed(buckets[1..]))
  }

  /** `WellFormed` stated on positions: keys are pairwise distinct and every
      count is positive. */
  lemma {:induction false} WellFormedDistinct(buckets: seq<Bucket>)
    requires WellFormed(buckets)
    ensures forall i, j :: 0 <= i < j < |buckets| ==> buckets[i].area != buckets[j].area
    ensures forall i :: 0 <= i < |buckets| ==> buckets[i].count >= 1
    decreases |buckets|
  {
    if |buckets| > 0 {
      var tail := buckets[1..];
      WellFormedDistinct(tail);
      forall j | 0 < j < |buckets| ensures buckets[0].area != buckets[j].area {
        AreaOfMember(tail, j - 1);
      }
      assert forall i :: 0 < i < |buckets| ==> buckets[i] == tail[i - 1];
    }
  }

  lemma {:induction false} AreaOfMember(buckets: seq<Bucket>, i: int)
    requires 0 <= i < |buckets|
    ensures buckets[i].area in Areas(buckets)
    decreases |buckets|
  {
    if i > 0 {
      AreaOfMember(buckets[1..], i - 1);
    }
  }

  /** Count one more input with key `k`: bump its bucket, or open a new
      bucket at the end. */
  function AddKey(buckets: seq<Bucket>, k: string): (r: seq<Bucket>)
    requires WellFormed(buckets)
    ensures WellFormed(r)
    ensures Areas(r) == Areas(buckets) + {k}
    decreases |buckets|
  {
    if |buckets| == 0 then
      assert Areas([Bucket(k, 1)]) == {k} by {
        assert [Bucket(k, 1)][1..] == [];
      }
      [Bucket(k, 1)]
    else
      var head, tail := buckets[0], buckets[1..];
      if head.area == k then
        var r := [Bucket(k, head.count + 1)] + tail;
        assert r[1..] == tail;
        r
      else
        var rest := AddKey(tail, k);
        var r := [head] + rest;
        assert r[1..] == rest;
        r
  }

  /** Adding a key raises its count by one and leaves every other count. */
  lemma {:induction false} AddKeyCounts(buckets: seq<Bucket>, k: string)
    requires WellFormed(buckets)
    ensures forall a :: CountOf(AddKey(buckets, k), a) == CountOf(buckets, a) + (if a == k then 1 else 0)
    ensures Total(AddKey(buckets, k)) == Total(buckets) + 1
    decreases |buckets|
  {
    var r := AddKey(buckets, k);
    if |buckets| == 0 {
    } else if buckets[0].area == k {
      assert r[1..] == buckets[1..];
    } else {
      AddKeyCounts(buckets[1..], k);
      assert r[1..] == AddKey(buckets[1..], k);
    }
  }

  /** The grouped count of `keys`: one bucket per distinct key, carrying the
      number of times the key occurs, so the counts add up to `|keys|`. */
  function GroupCount(keys: seq<string>): (r: seq<Bucket>)
    ensures WellFormed(r)
    ensures forall a :: CountOf(r, a) == Occurrences(keys, a)
    ensures forall a :: a in Areas(r) <==> a in keys
    ensures Total(r) == |keys|
    decreases |keys|
  {
    if |keys| == 0 then []
    else
      var init := keys[..|keys| - 1];
      assert keys == init + [keys[|keys| - 1]];
      AddKeyCounts(GroupCount(init), keys[|keys| - 1]);
      AddKey(GroupCount(init), keys[|keys| - 1])
  }

  /** In a well-formed result each bucket's count is the count of its key. */
  lemma {:induction false} CountOfBucket(buckets: seq<Bucket>, i: int)
    requires WellFormed(buckets) && 0 <= i < |buckets|
    ensures CountOf(buckets, buckets[i].area) == buckets[i].count
    decreases |buckets|
  {
    if i == 0 {
      AbsentCountsZero(buckets[1..], buckets[0].area);
    } else {
      CountOfBucket(buckets[1..], i - 1);
      AreaOfMember(buckets[1..], i - 1);
    }
  }

  /** A key without a bucket counts zero. */
  lemma {:induction false} AbsentCountsZero(buckets: seq<Bucket>, a: string)
    requires a !in Areas(buckets)
    ensures CountOf(buckets, a) == 0
    decreases |buckets|
  {
    if |buckets| > 0 {
      AbsentCountsZero(buckets[1..], a);
    }
  }
}
