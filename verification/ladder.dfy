/** The fixed ladder of context sizes that `find_largest_context` searches
    (main.py and llmer.py carry the same sixteen values). */
module Ladder {
  import opened Wrappers

  const Sizes: seq<int> := [256, 512, 1024, 2048, 3072, 4096, 6144, 8192,
                            12288, 16384, 24576, 32768, 49152, 65536, 98304, 131072]

  /** The largest bucket on the ladder. */
  const Top: int := 131072

  predicate Ascending(a: seq<int>) {
    forall i, j :: 0 <= i < j < |a| ==> a[i] < a[j]
  }

  lemma SizesShape()
    ensures |Sizes| == 16 && Sizes[|Sizes| - 1] == Top
    ensures Ascending(Sizes)
  {
  }

  /** `bisect.bisect_right(a, x)`: binary search for the first position whose
      element is strictly greater than `x`. */
  method BisectRight(a: seq<int>, x: int) returns (lo: nat)
    requires forall i, j :: 0 <= i < j < |a| ==> a[i] <= a[j]
    ensures lo <= |a|
    ensures forall i :: 0 <= i < lo ==> a[i] <= x
    ensures forall i :: lo <= i < |a| ==> x < a[i]
  {
    lo := 0;
    var hi := |a|;
    while lo < hi
      invariant 0 <= lo <= hi <= |a|
      invariant forall i :: 0 <= i < lo ==> a[i] <= x
      invariant forall i :: hi <= i < |a| ==> x < a[i]
      decreases hi - lo
    {
      var mid := (lo + hi) / 2;
      if x < a[mid] {
        hi := mid;
      } else {
        lo := mid + 1;
      }
    }
  }

  /** The number of leading elements of `a` that are at most `x`; on an
      ascending sequence this is the index `bisect_right` finds. */
  function FirstAbove(a: seq<int>, x: int): (k: nat)
    ensures k <= |a|
    ensures forall i :: 0 <= i < k ==> a[i] <= x
    ensures k < |a| ==> x < a[k]
    decreases |a|
  {
    if |a| == 0 || x < a[0] then 0 else 1 + FirstAbove(a[1..], x)
  }

  /** On a sorted sequence the split point of `BisectRight` is unique. */
  lemma SplitPointUnique(a: seq<int>, x: int, k: nat, m: nat)
    requires k <= |a| && m <= |a|
    requires forall i :: 0 <= i < k ==> a[i] <= x
    requires forall i :: k <= i < |a| ==> x < a[i]
    requires forall i :: 0 <= i < m ==> a[i] <= x
    requires forall i :: m <= i < |a| ==> x < a[i]
    ensures k == m
  {
    assert k < |a| ==> x < a[k];
    assert m < |a| ==> x < a[m];
  }

  /** On an ascending sequence everything from `FirstAbove` on exceeds `x`. */
  lemma FirstAboveSplits(a: seq<int>, x: int)
    requires Ascending(a)
    ensures forall i :: FirstAbove(a, x) <= i < |a| ==> x < a[i]
  {
    var k := FirstAbove(a, x);
    if k < |a| {
      forall i | k <= i < |a| ensures x < a[i] {
        assert a[k] <= a[i];
      }
    }
  }

  /** The smallest element of an ascending sequence strictly greater than `x`,
      or `None` when there is none. */
  function BucketIn(a: seq<int>, x: int): (r: Option<int>)
    requires Ascending(a)
    ensures r.None? <==> |a| == 0 || a[|a| - 1] <= x
    ensures r.Some? ==> r.value in a && x < r.value
    ensures r.Some? ==> forall i :: 0 <= i < |a| && x < a[i] ==> r.value <= a[i]
  {
    FirstAboveSplits(a, x);
    var k := FirstAbove(a, x);
    if k == |a| then
      None
    else
      assert forall i :: 0 <= i < |a| && x < a[i] ==> a[k] <= a[i] by {
        forall i | 0 <= i < |a| && x < a[i] ensures a[k] <= a[i] {
          assert k <= i;
        }
      }
      Some(a[k])
  }

  /** The bucket is the element at `k` when `x` lies between its predecessor
      and it. */
  lemma BucketAt(a: seq<int>, x: int, k: nat)
    requires Ascending(a) && k < |a| && x < a[k]
    requires k == 0 || a[k - 1] <= x
    ensures BucketIn(a, x) == Some(a[k])
  {
    FirstAboveSplits(a, x);
    SplitPointUnique(a, x, FirstAbove(a, x), k);
  }

  /** The bucket `main.find_largest_context` picks for `x`: the smallest ladder
      value strictly greater than `x`, or `None` past the top of the ladder. */
  function NextBucket(x: int): (r: Option<int>)
    ensures r.None? <==> x >= Top
    ensures r.Some? ==> r.value in Sizes && x < r.value
    ensures r.Some? ==> forall i :: 0 <= i < |Sizes| && x < Sizes[i] ==> r.value <= Sizes[i]
  {
    SizesShape();
    BucketIn(Sizes, x)
  }

  /** A larger input never gets a smaller bucket, and a served input stays served
      when it shrinks. */
  lemma NextBucketMonotone(x: int, y: int)
    requires x <= y
    ensures NextBucket(y).Some? ==> NextBucket(x).Some? && NextBucket(x).value <= NextBucket(y).value
  {
    if NextBucket(y).Some? {
      var v := NextBucket(y).value;
      var i :| 0 <= i < |Sizes| && Sizes[i] == v;
      assert x < Sizes[i];
    }
  }

  /** Concrete buckets across the ladder, its top included. */
  lemma NextBucketExamples()
    ensures NextBucket(512) == Some(1024)
    ensures NextBucket(0) == Some(256)
    ensures NextBucket(131071) == Some(131072)
    ensures NextBucket(131072) == None
  {
    SizesShape();
    BucketAt(Sizes, 512, 2);
    BucketAt(Sizes, 0, 0);
    BucketAt(Sizes, 131071, 15);
  }

  /** The top of the ladder: every input from the last rung below it up to
      131071 gets 131072, and from 131072 on there is no bucket. */
  lemma NextBucketAtTop(x: int)
    ensures NextBucket(x).None? <==> x >= Top
    ensures 98304 <= x < Top ==> NextBucket(x) == Some(Top)
  {
    SizesShape();
    if 98304 <= x < Top {
      BucketAt(Sizes, x, 15);
    }
  }

  /** `[v for v in a if lo <= v <= hi]`. */
  function Between(a: seq<int>, lo: int, hi: int): (r: seq<int>)
    ensures forall v :: v in r <==> v in a && lo <= v <= hi
    ensures Ascending(a) ==> Ascending(r)
    ensures |r| <= |a|
    decreases |a|
  {
    if |a| == 0 then []
    else
      var rest := Between(a[1..], lo, hi);
      assert forall v :: v in a <==> v == a[0] || v in a[1..];
      if lo <= a[0] <= hi then
        var r := [a[0]] + rest;
        assert Ascending(a) ==> Ascending(r) by {
          if Ascending(a) {
            assert Ascending(a[1..]);
            forall v | v in rest ensures a[0] < v {
              var j :| 0 <= j < |a[1..]| && a[1..][j] == v;
              assert a[j + 1] == v;
            }
            forall i, j | 0 <= i < j < |r| ensures r[i] < r[j] {
              assert r[j] == rest[j - 1] && r[j] in rest;
              if i > 0 {
                assert r[i] == rest[i - 1];
              }
            }
          }
        }
        r
      else
        assert Ascending(a) ==> Ascending(a[1..]);
        rest
  }
}
