/**
 * What `PathForResources.getLoadedResourcesCount` adds up, and why that sum
 * is the number of cached paths.
 */
module CacheCounting {
  import opened CachePartitions

  /** Some key of a non-empty map: the order in which the sums below visit keys. */
  ghost function Pick<K, V>(m: map<K, V>): (k: K)
    requires |m| > 0
    ensures k in m
  {
    assert m.Keys != {};
    var k :| k in m; k
  }

  /** Sum of the sizes of a partition's buckets. */
  ghost function BucketsSize<R>(part: Partition<R>): nat
    decreases |part|
  {
    if |part| == 0 then 0
    else var k := Pick(part); |part[k]| + BucketsSize(part - {k})
  }

  /** Sum of the bucket sizes over all partitions: what `getLoadedResourcesCount` adds up. */
  ghost function PartitionsSize<R>(res: Partitions<R>): nat
    decreases |res|
  {
    if |res| == 0 then 0
    else var i := Pick(res); BucketsSize(res[i]) + PartitionsSize(res - {i})
  }

  /** Taking two keys out of a map in either order gives the same map. */
  lemma RemoveSwap<K, V>(m: map<K, V>, a: K, b: K)
    ensures m - {a} - {b} == m - {b} - {a}
  {
  }

  /** The sum does not depend on which bucket is taken out first. */
  lemma {:induction false} BucketsSizeRemove<R>(part: Partition<R>, k: string)
    requires k in part
    ensures BucketsSize(part) == |part[k]| + BucketsSize(part - {k})
    decreases |part|
  {
    var c := Pick(part);
    if c != k {
      var withoutC, withoutK := part - {c}, part - {k};
      BucketsSizeRemove(withoutC, k);
      BucketsSizeRemove(withoutK, c);
      RemoveSwap(part, c, k);
    }
  }

  /** The sum does not depend on which partition is taken out first. */
  lemma {:induction false} PartitionsSizeRemove<R>(res: Partitions<R>, i: int)
    requires i in res
    ensures PartitionsSize(res) == BucketsSize(res[i]) + PartitionsSize(res - {i})
    decreases |res|
  {
    var c := Pick(res);
    if c != i {
      var withoutC, withoutI := res - {c}, res - {i};
      PartitionsSizeRemove(withoutC, i);
      PartitionsSizeRemove(withoutI, c);
      RemoveSwap(res, c, i);
    }
  }

  /** Every path stored in one partition. */
  ghost function PartitionPaths<R>(part: Partition<R>): set<string> {
    set k, p | k in part && p in part[k] :: p
  }

  /** No path is stored in two buckets of the partition. */
  ghost predicate BucketsDisjoint<R>(part: Partition<R>) {
    forall k1, k2, p | k1 in part && k2 in part && p in part[k1] && p in part[k2] :: k1 == k2
  }

  /** No path is stored in two partitions, nor in two buckets of one. */
  ghost predicate PartitionsDisjoint<R>(res: Partitions<R>) {
    && (forall i | i in res :: BucketsDisjoint(res[i]))
    && (forall i1, i2, p | i1 in res && i2 in res && p in PartitionPaths(res[i1]) && p in PartitionPaths(res[i2]) :: i1 == i2)
  }

  /** Routing sends each path to one bucket, so buckets never share paths. */
  lemma WellRoutedIsDisjoint<R>(res: Partitions<R>, startLevel: int)
    requires WellRouted(res, startLevel)
    ensures PartitionsDisjoint(res)
  {
    forall i, k1, k2, p | i in res && k1 in res[i] && k2 in res[i] && p in res[i][k1] && p in res[i][k2]
      ensures k1 == k2
    {
      assert RouteOf(startLevel, p) == Route(i, k1) && RouteOf(startLevel, p) == Route(i, k2);
    }
    forall i1, i2, p | i1 in res && i2 in res && p in PartitionPaths(res[i1]) && p in PartitionPaths(res[i2])
      ensures i1 == i2
    {
      var k1 :| k1 in res[i1] && p in res[i1][k1];
      var k2 :| k2 in res[i2] && p in res[i2][k2];
      assert RouteOf(startLevel, p) == Route(i1, k1) && RouteOf(startLevel, p) == Route(i2, k2);
    }
  }

  /** A partition's paths are those of one bucket and those of the others. */
  lemma PartitionPathsSplit<R>(part: Partition<R>, k: string)
    requires k in part
    ensures PartitionPaths(part) == PartitionPaths(part - {k}) + part[k].Keys
  {
    var rest := part - {k};
    forall p | p in PartitionPaths(part)
      ensures p in PartitionPaths(rest) + part[k].Keys
    {
      var k' :| k' in part && p in part[k'];
      if k' != k {
        assert k' in rest && p in rest[k'];
      }
    }
    forall p | p in PartitionPaths(rest)
      ensures p in PartitionPaths(part)
    {
      var k' :| k' in rest && p in rest[k'];
      assert k' in part && p in part[k'];
    }
  }

  /** Disjoint buckets: their sizes add up to the number of paths in the partition. */
  lemma {:induction false} PartitionPathsCount<R>(part: Partition<R>)
    requires BucketsDisjoint(part)
    ensures |PartitionPaths(part)| == BucketsSize(part)
    decreases |part|
  {
    if |part| != 0 {
      var k := Pick(part);
      var rest := part - {k};
      BucketsSizeRemove(part, k);
      assert BucketsDisjoint(rest);
      PartitionPathsCount(rest);
      PartitionPathsSplit(part, k);
      assert PartitionPaths(rest) * part[k].Keys == {};
    }
  }

  /** The stored paths are those of one partition and those of the others. */
  lemma PathsSplit<R>(res: Partitions<R>, i: int)
    requires i in res
    ensures Paths(res) == Paths(res - {i}) + PartitionPaths(res[i])
  {
    var rest := res - {i};
    forall p | p in Paths(res)
      ensures p in Paths(rest) + PartitionPaths(res[i])
    {
      var i', k' :| i' in res && k' in res[i'] && p in res[i'][k'];
      if i' != i {
        assert i' in rest && k' in rest[i'] && p in rest[i'][k'];
      } else {
        assert p in PartitionPaths(res[i]);
      }
    }
    forall p | p in Paths(rest) + PartitionPaths(res[i])
      ensures p in Paths(res)
    {
      if p in Paths(rest) {
        var i', k' :| i' in rest && k' in rest[i'] && p in rest[i'][k'];
        assert i' in res && k' in res[i'] && p in res[i'][k'];
      } else {
        var k' :| k' in res[i] && p in res[i][k'];
      }
    }
  }

  /** Disjoint partitions: all bucket sizes add up to the number of cached paths. */
  lemma {:induction false} PartitionsPathCount<R>(res: Partitions<R>)
    requires PartitionsDisjoint(res)
    ensures PartitionsSize(res) == |Paths(res)|
    decreases |res|
  {
    if |res| != 0 {
      var i := Pick(res);
      var rest := res - {i};
      PartitionsSizeRemove(res, i);
      assert PartitionsDisjoint(rest);
      PartitionsPathCount(rest);
      PartitionPathsCount(res[i]);
      PathsSplit(res, i);
      forall p | p in Paths(rest)
        ensures p !in PartitionPaths(res[i])
      {
        var i', k' :| i' in rest && k' in rest[i'] && p in rest[i'][k'];
        assert p in PartitionPaths(res[i']);
      }
      assert Paths(rest) * PartitionPaths(res[i]) == {};
    }
  }

  /**
   * In a well-routed store the sum of all bucket sizes, which is what
   * `getLoadedResourcesCount` adds up, is the number of cached paths.
   */
  lemma PartitionsSizeIsPathCount<R>(res: Partitions<R>, startLevel: int)
    requires WellRouted(res, startLevel)
    ensures PartitionsSize(res) == |Paths(res)|
  {
    WellRoutedIsDisjoint(res, startLevel);
    PartitionsPathCount(res);
  }

  /** In a well-routed store, the cached paths are exactly the ones a lookup finds. */
  lemma PathsAreFound<R>(res: Partitions<R>, startLevel: int, path: string)
    requires WellRouted(res, startLevel)
    ensures path in Paths(res) <==> Find(res, startLevel, path).Some?
  {
    if path in Paths(res) {
      var i, k :| i in res && k in res[i] && path in res[i][k];
      assert RouteOf(startLevel, path) == Route(i, k);
    }
  }

}
