/**
 * The storage behind `Cache.PathForResources`: a three-level map
 * partition index -> partition key -> cleaned path -> resource,
 * the routing that picks a path's bucket, and the map algebra the store's
 * operations are built from.
 */
module CachePartitions {
  import opened Wrappers
  import opened Strings

  type Bucket<R> = map<string, R>
  type Partition<R> = map<string, Bucket<R>>
  type Partitions<R> = map<int, Partition<R>>

  /** The bucket a path belongs to: a partition index and a partition key. */
  datatype Route = Route(index: int, key: string)

  /**
   * The partition index of a cleaned path: the number of `/` in it, but never
   * less than the store's start level.
   */
  function PartitionIndex(startLevel: int, path: string): (i: int)
    ensures i >= startLevel && i >= CountChar(path, '/')
    ensures i == startLevel || i == CountChar(path, '/')
  {
    var n := CountChar(path, '/');
    if n > startLevel then n else startLevel
  }

  /**
   * The key of a deep partition is cut out of the path around its `/`
   * characters; a path with none would make that cut fail.
   */
  predicate Routable(startLevel: int, path: string) {
    PartitionIndex(startLevel, path) > 1 ==> '/' in path
  }

  /** With the start level of every store the cache builds (1), every path is routable. */
  lemma EveryPathRoutable(startLevel: int, path: string)
    requires startLevel <= 1
    ensures Routable(startLevel, path)
  {
  }

  /**
   * The partition key: `"/"` for the partitions at depth at most 1, otherwise
   * the last component of the path's parent directory, which holds no `/`.
   */
  function PartitionKey(startLevel: int, path: string): (key: string)
    requires Routable(startLevel, path)
    ensures PartitionIndex(startLevel, path) <= 1 ==> key == "/"
    ensures PartitionIndex(startLevel, path) > 1 ==> '/' !in key
  {
    if PartitionIndex(startLevel, path) > 1 then
      LastIndexOfChar(path, '/');
      var parent := path[..LastIndexOf(path, "/")];
      LastIndexOfChar(parent, '/');
      parent[LastIndexOf(parent, "/") + 1..]
    else
      "/"
  }

  function RouteOf(startLevel: int, path: string): Route
    requires Routable(startLevel, path)
  {
    Route(PartitionIndex(startLevel, path), PartitionKey(startLevel, path))
  }

  /** The last `/` of `prefix + "/" + suffix` is the one added, when `suffix` has none. */
  lemma LastSlashBeforeSuffix(prefix: string, suffix: string)
    requires '/' !in suffix
    ensures LastIndexOf(prefix + "/" + suffix, "/") == |prefix|
  {
    var s := prefix + "/" + suffix;
    LastIndexOfChar(s, '/');
    var r := LastIndexOf(s, "/");
    assert s[|prefix|] == '/';
    assert r >= |prefix|;
  }

  /**
   * A deep path is keyed by the name of its immediate parent directory:
   * `dir/parent/name` lands in partition `parent`.
   */
  lemma PartitionKeyIsParentName(startLevel: int, dir: string, parent: string, name: string)
    requires '/' !in parent && '/' !in name
    ensures var path := dir + "/" + parent + "/" + name;
      && Routable(startLevel, path)
      && PartitionIndex(startLevel, path) >= 2
      && PartitionKey(startLevel, path) == parent
  {
    var path := dir + "/" + parent + "/" + name;
    var up := dir + "/" + parent;
    assert path == up + "/" + name;
    assert up == dir + ("/" + parent);
    assert path == up + ("/" + name);
    CountCharAppend(up, "/" + name, '/');
    CountCharAppend(dir, "/" + parent, '/');
    assert ("/" + parent)[1..] == parent;
    assert ("/" + name)[1..] == name;
    assert CountChar(path, '/') >= 2;
    LastSlashBeforeSuffix(up, name);
    assert path[..LastIndexOf(path, "/")] == up;
    LastSlashBeforeSuffix(dir, parent);
    assert up[LastIndexOf(up, "/") + 1..] == parent;
  }

  /**
   * A worked route: `/a/b/c/res` holds four `/`, so it goes to partition 4,
   * under the name of its parent directory, `c`.
   */
  lemma ExampleRoute()
    ensures Routable(1, "/a/b/c/res") && RouteOf(1, "/a/b/c/res") == Route(4, "c")
  {
    PartitionKeyIsParentName(1, "/a/b", "c", "res");
    assert "/a/b" + "/" + "c" + "/" + "res" == "/a/b/c/res";
    assert CountChar("/a/b/c/res", '/') == 4;
  }

  predicate HasBucket<R>(res: Partitions<R>, rt: Route) {
    rt.index in res && rt.key in res[rt.index]
  }

  /** The entry for `path` in bucket `rt`, if both exist. */
  function FindIn<R>(res: Partitions<R>, rt: Route, path: string): Option<R> {
    if HasBucket(res, rt) && path in res[rt.index][rt.key]
    then Some(res[rt.index][rt.key][path])
    else None
  }

  /** What the store holds for a path: the entry in the path's own bucket, if any. */
  function Find<R>(res: Partitions<R>, startLevel: int, path: string): Option<R> {
    if Routable(startLevel, path) then FindIn(res, RouteOf(startLevel, path), path) else None
  }

  /** Every stored path sits in the bucket its route names. */
  ghost predicate WellRouted<R>(res: Partitions<R>, startLevel: int) {
    forall i, k, p | i in res && k in res[i] && p in res[i][k] ::
      Routable(startLevel, p) && RouteOf(startLevel, p) == Route(i, k)
  }

  /** Every path stored in any bucket. */
  ghost function Paths<R>(res: Partitions<R>): set<string> {
    set i, k, p | i in res && k in res[i] && p in res[i][k] :: p
  }

  /**
   * Both `retrievePartition` steps: the bucket of `rt`, created empty where
   * missing; no lookup changes.
   */
  function WithBucket<R>(res: Partitions<R>, rt: Route): (r: Partitions<R>)
    ensures HasBucket(r, rt)
    ensures HasBucket(res, rt) ==> r == res
    ensures forall rq, q :: FindIn(r, rq, q) == FindIn(res, rq, q)
    ensures Paths(r) == Paths(res)
    ensures forall startLevel :: WellRouted(res, startLevel) ==> WellRouted(r, startLevel)
  {
    var part := if rt.index in res then res[rt.index] else map[];
    var part' := if rt.key in part then part else part[rt.key := map[]];
    var r := res[rt.index := part'];
    assert forall i, k, p | i in r && k in r[i] && p in r[i][k] :: i in res && k in res[i] && p in res[i][k];
    assert forall i, k, p | i in res && k in res[i] && p in res[i][k] :: i in r && k in r[i] && p in r[i][k];
    r
  }

  /** `put` into the bucket of `rt`, which exists. */
  function PutAt<R>(res: Partitions<R>, rt: Route, path: string, v: R): (r: Partitions<R>)
    requires HasBucket(res, rt)
    ensures HasBucket(r, rt)
  {
    res[rt.index := res[rt.index][rt.key := res[rt.index][rt.key][path := v]]]
  }

  /** `remove` from the bucket of `rt`, which exists. */
  function RemoveAt<R>(res: Partitions<R>, rt: Route, path: string): (r: Partitions<R>)
    requires HasBucket(res, rt)
    ensures HasBucket(r, rt)
  {
    res[rt.index := res[rt.index][rt.key := res[rt.index][rt.key] - {path}]]
  }

  /** A `put` changes one entry of one bucket. */
  lemma PutAtFindIn<R>(res: Partitions<R>, rt: Route, path: string, v: R, rq: Route, q: string)
    requires HasBucket(res, rt)
    ensures FindIn(PutAt(res, rt, path, v), rq, q)
         == if rq == rt && q == path then Some(v) else FindIn(res, rq, q)
  {
    var r := PutAt(res, rt, path, v);
    if rq.index != rt.index {
      assert HasBucket(r, rq) == HasBucket(res, rq);
    } else if rq.key != rt.key {
      assert r[rq.index] == res[rq.index][rt.key := r[rt.index][rt.key]];
    }
  }

  /** A `remove` deletes one entry of one bucket. */
  lemma RemoveAtFindIn<R>(res: Partitions<R>, rt: Route, path: string, rq: Route, q: string)
    requires HasBucket(res, rt)
    ensures FindIn(RemoveAt(res, rt, path), rq, q)
         == if rq == rt && q == path then None else FindIn(res, rq, q)
  {
    var r := RemoveAt(res, rt, path);
    if rq.index != rt.index {
      assert HasBucket(r, rq) == HasBucket(res, rq);
    } else if rq.key != rt.key {
      assert r[rq.index] == res[rq.index][rt.key := r[rt.index][rt.key]];
    }
  }

  /** Storing a path into its own bucket changes the lookup of that path only. */
  lemma PutAtFind<R>(res: Partitions<R>, startLevel: int, path: string, v: R)
    requires Routable(startLevel, path) && HasBucket(res, RouteOf(startLevel, path))
    ensures var r := PutAt(res, RouteOf(startLevel, path), path, v);
      forall q :: Find(r, startLevel, q) == if q == path then Some(v) else Find(res, startLevel, q)
  {
    var rt := RouteOf(startLevel, path);
    forall q
      ensures Find(PutAt(res, rt, path, v), startLevel, q)
           == if q == path then Some(v) else Find(res, startLevel, q)
    {
      if Routable(startLevel, q) {
        PutAtFindIn(res, rt, path, v, RouteOf(startLevel, q), q);
      }
    }
  }

  /** Removing a path from its own bucket changes the lookup of that path only. */
  lemma RemoveAtFind<R>(res: Partitions<R>, startLevel: int, path: string)
    requires Routable(startLevel, path) && HasBucket(res, RouteOf(startLevel, path))
    ensures var r := RemoveAt(res, RouteOf(startLevel, path), path);
      forall q :: Find(r, startLevel, q) == if q == path then None else Find(res, startLevel, q)
  {
    var rt := RouteOf(startLevel, path);
    forall q
      ensures Find(RemoveAt(res, rt, path), startLevel, q)
           == if q == path then None else Find(res, startLevel, q)
    {
      if Routable(startLevel, q) {
        RemoveAtFindIn(res, rt, path, RouteOf(startLevel, q), q);
      }
    }
  }

  /** A `put` adds its path to the stored paths. */
  lemma PutAtPaths<R>(res: Partitions<R>, rt: Route, path: string, v: R)
    requires HasBucket(res, rt)
    ensures Paths(PutAt(res, rt, path, v)) == Paths(res) + {path}
  {
    var r := PutAt(res, rt, path, v);
    forall p | p in Paths(r)
      ensures p in Paths(res) + {path}
    {
      var i, k :| i in r && k in r[i] && p in r[i][k];
      if p != path {
        assert i in res && k in res[i] && p in res[i][k];
      }
    }
    forall p | p in Paths(res) + {path}
      ensures p in Paths(r)
    {
      if p == path {
        assert rt.index in r && rt.key in r[rt.index] && p in r[rt.index][rt.key];
      } else {
        var i, k :| i in res && k in res[i] && p in res[i][k];
        assert i in r && k in r[i] && p in r[i][k];
      }
    }
  }

  /** Storing a path into its own bucket keeps every path where it belongs. */
  lemma PutAtRouting<R>(res: Partitions<R>, startLevel: int, path: string, v: R)
    requires WellRouted(res, startLevel)
    requires Routable(startLevel, path) && HasBucket(res, RouteOf(startLevel, path))
    ensures var r := PutAt(res, RouteOf(startLevel, path), path, v);
      WellRouted(r, startLevel) && Paths(r) == Paths(res) + {path}
  {
    var rt := RouteOf(startLevel, path);
    var r := PutAt(res, rt, path, v);
    PutAtPaths(res, rt, path, v);
    forall i, k, p | i in r && k in r[i] && p in r[i][k]
      ensures Routable(startLevel, p) && RouteOf(startLevel, p) == Route(i, k)
    {
      if !(i == rt.index && k == rt.key && p == path) {
        assert i in res && k in res[i] && p in res[i][k];
      }
    }
  }

  /** A `remove` takes its path out of the stored paths, when routing is kept. */
  lemma RemoveAtPaths<R>(res: Partitions<R>, startLevel: int, path: string)
    requires WellRouted(res, startLevel)
    requires Routable(startLevel, path) && HasBucket(res, RouteOf(startLevel, path))
    ensures Paths(RemoveAt(res, RouteOf(startLevel, path), path)) == Paths(res) - {path}
  {
    var rt := RouteOf(startLevel, path);
    var r := RemoveAt(res, rt, path);
    forall p | p in Paths(r)
      ensures p in Paths(res) - {path}
    {
      var i, k :| i in r && k in r[i] && p in r[i][k];
      assert i in res && k in res[i] && p in res[i][k] && p != path;
    }
    forall p | p in Paths(res) && p != path
      ensures p in Paths(r)
    {
      var i, k :| i in res && k in res[i] && p in res[i][k];
      assert i in r && k in r[i] && p in r[i][k];
    }
  }

  /** Removing a path from its own bucket keeps every path where it belongs. */
  lemma RemoveAtRouting<R>(res: Partitions<R>, startLevel: int, path: string)
    requires WellRouted(res, startLevel)
    requires Routable(startLevel, path) && HasBucket(res, RouteOf(startLevel, path))
    ensures var r := RemoveAt(res, RouteOf(startLevel, path), path);
      WellRouted(r, startLevel) && Paths(r) == Paths(res) - {path}
  {
    var rt := RouteOf(startLevel, path);
    var r := RemoveAt(res, rt, path);
    RemoveAtPaths(res, startLevel, path);
    forall i, k, p | i in r && k in r[i] && p in r[i][k]
      ensures Routable(startLevel, p) && RouteOf(startLevel, p) == Route(i, k)
    {
      assert i in res && k in res[i] && p in res[i][k];
    }
  }
}
