/**
 * The resource caches of the framework: a path-keyed store partitioned by
 * path depth and parent directory name, a store of such stores keyed by an
 * owner object (in practice a class loader), and the registry holding the
 * eleven caches the framework uses.
 */
module Cache {
  import opened Wrappers
  import opened CachePartitions
  import opened CacheCounting

  /**
   * A resource supplier as passed by callers: either Java's null, or a
   * supplier described by what its single `get()` call returns (None for a
   * null result).
   */
  datatype Supplier<R> = NullSupplier | Supplies(result: Option<R>)

  /** What is handed out for a stored value: the sharer's copy of it. */
  function Shared<R>(sharer: R -> R, v: Option<R>): (r: Option<R>)
    ensures r.Some? <==> v.Some?
    ensures v.Some? ==> r.value == sharer(v.value)
  {
    if v.Some? then Some(sharer(v.value)) else None
  }

  /** A path-keyed store of resources, partitioned by path depth and parent name. */
  class PathForResources<R> {
    var resources: Partitions<R>
    const partitionStartLevel: int
    /** Applied to a resource when it is stored and again when it is handed out. */
    const sharer: R -> R
    /** The path normalisation applied to every path argument. */
    const clean: string -> string

    /** Every stored path sits in the bucket its route names. */
    ghost predicate Valid()
      reads this
    {
      WellRouted(resources, partitionStartLevel)
    }

    /** The resource stored for an already cleaned path. */
    function Cached(p: string): Option<R>
      reads this
    {
      Find(resources, partitionStartLevel, p)
    }

    constructor(partitionStartLevel: int, sharer: R -> R, clean: string -> string)
      ensures Valid() && resources == map[]
      ensures this.partitionStartLevel == partitionStartLevel
      ensures this.sharer == sharer && this.clean == clean
    {
      this.partitionStartLevel := partitionStartLevel;
      this.sharer := sharer;
      this.clean := clean;
      resources := map[];
    }

    /**
     * Both `retrievePartition` steps for a cleaned path: its bucket is
     * created empty if missing; no lookup and no stored path changes.
     */
    method RetrieveBucket(p: string) returns (rt: Route)
      requires Valid() && Routable(partitionStartLevel, p)
      modifies this
      ensures Valid()
      ensures rt == RouteOf(partitionStartLevel, p) && HasBucket(resources, rt)
      ensures forall q :: Cached(q) == old(Cached(q))
      ensures Paths(resources) == old(Paths(resources))
    {
      rt := RouteOf(partitionStartLevel, p);
      resources := WithBucket(resources, rt);
    }

    /**
     * Returns the shared copy of the resource stored for `path`; when there is
     * none and a supplier is given, asks the supplier once and stores the
     * shared copy of a non-null result.
     */
    method GetOrUploadIfAbsent(path: string, supplier: Supplier<R>) returns (r: Option<R>, invoked: bool)
      requires Valid() && Routable(partitionStartLevel, clean(path))
      modifies this
      ensures Valid()
      ensures invoked <==> old(Cached(clean(path))).None? && supplier.Supplies?
      ensures old(Cached(clean(path))).Some? ==> Cached(clean(path)) == old(Cached(clean(path)))
      ensures old(Cached(clean(path))).None? ==>
        Cached(clean(path)) == (if invoked then Shared(sharer, supplier.result) else None)
      ensures r == Shared(sharer, Cached(clean(path)))
      ensures forall q :: q != clean(path) ==> Cached(q) == old(Cached(q))
      ensures Paths(resources) == old(Paths(resources)) + (if Cached(clean(path)).Some? then {clean(path)} else {})
    {
      var p := clean(path);
      var rt := RetrieveBucket(p);
      var bucket := resources[rt.index][rt.key];
      var resource := if p in bucket then Some(bucket[p]) else None;
      invoked := false;
      if resource.None? && supplier.Supplies? {
        invoked := true;
        resource := supplier.result;
        if resource.Some? {
          resource := Some(sharer(resource.value));
          PutAtFind(resources, partitionStartLevel, p, resource.value);
          PutAtRouting(resources, partitionStartLevel, p, resource.value);
          resources := PutAt(resources, rt, p, resource.value);
        }
      }
      PathsAreFound(resources, partitionStartLevel, p);
      r := Shared(sharer, resource);
    }

    /**
     * Asks a given supplier unconditionally and stores the shared copy of a
     * non-null result, replacing any stored resource; returns the shared copy
     * of what was stored, or None.
     */
    method Upload(path: string, supplier: Supplier<R>) returns (r: Option<R>, invoked: bool)
      requires Valid() && Routable(partitionStartLevel, clean(path))
      modifies this
      ensures Valid()
      ensures invoked <==> supplier.Supplies?
      ensures Cached(clean(path)) ==
        (if invoked && supplier.result.Some? then Shared(sharer, supplier.result) else old(Cached(clean(path))))
      ensures r == (if invoked && supplier.result.Some? then Shared(sharer, Cached(clean(path))) else None)
      ensures forall q :: q != clean(path) ==> Cached(q) == old(Cached(q))
    {
      var p := clean(path);
      var rt := RetrieveBucket(p);
      var resource: Option<R> := None;
      invoked := false;
      if supplier.Supplies? {
        invoked := true;
        resource := supplier.result;
        if resource.Some? {
          resource := Some(sharer(resource.value));
          PutAtFind(resources, partitionStartLevel, p, resource.value);
          PutAtRouting(resources, partitionStartLevel, p, resource.value);
          resources := PutAt(resources, rt, p, resource.value);
        }
      }
      r := Shared(sharer, resource);
    }

    /** The shared copy of the resource stored for `path`; nothing is stored. */
    method Get(path: string) returns (r: Option<R>)
      requires Valid() && Routable(partitionStartLevel, clean(path))
      modifies this
      ensures Valid()
      ensures r == Shared(sharer, old(Cached(clean(path))))
      ensures forall q :: Cached(q) == old(Cached(q))
      ensures Paths(resources) == old(Paths(resources))
    {
      var invoked;
      r, invoked := GetOrUploadIfAbsent(path, NullSupplier);
    }

    /** Removes the entry for `path` and returns the stored resource itself. */
    method Remove(path: string) returns (r: Option<R>)
      requires Valid() && Routable(partitionStartLevel, clean(path))
      modifies this
      ensures Valid()
      ensures r == old(Cached(clean(path)))
      ensures Cached(clean(path)) == None
      ensures forall q :: q != clean(path) ==> Cached(q) == old(Cached(q))
      ensures Paths(resources) == old(Paths(resources)) - {clean(path)}
    {
      var p := clean(path);
      var rt := RetrieveBucket(p);
      var bucket := resources[rt.index][rt.key];
      r := if p in bucket then Some(bucket[p]) else None;
      RemoveAtFind(resources, partitionStartLevel, p);
      RemoveAtRouting(resources, partitionStartLevel, p);
      resources := RemoveAt(resources, rt, p);
    }

    /** The number of stored resources. */
    method GetLoadedResourcesCount() returns (count: nat)
      requires Valid()
      ensures count == |Paths(resources)|
      ensures count == 0 <==> forall q :: Cached(q).None?
    {
      count := CountEntries(resources);
      PartitionsSizeIsPathCount(resources, partitionStartLevel);
      if count == 0 {
        forall q ensures Cached(q).None? {
          PathsAreFound(resources, partitionStartLevel, q);
        }
      } else {
        ghost var p :| p in Paths(resources);
        PathsAreFound(resources, partitionStartLevel, p);
        assert Cached(p).Some?;
      }
    }

    /** Drops every partition. */
    method Clear()
      modifies this
      ensures Valid() && resources == map[]
      ensures forall q :: Cached(q) == None
    {
      resources := map[];
    }
  }

  /** One lazily created path store per owner object. */
  class ObjectAndPathForResources<T(==), R> {
    var resources: map<T, PathForResources<R>>
    /** The configuration every store of this registry is built with. */
    const partitionStartLevel: int
    const sharer: R -> R
    const clean: string -> string

    /** A store built with this registry's configuration, and well routed. */
    ghost predicate Configured(s: PathForResources<R>)
      reads s
    {
      s.Valid() && s.partitionStartLevel == partitionStartLevel && s.sharer == sharer && s.clean == clean
    }

    /** Every owner has its own well-routed store. */
    ghost predicate Valid()
      reads this, resources.Values
    {
      && (forall o | o in resources :: Configured(resources[o]))
      && (forall o, o' | o in resources && o' in resources && o != o' :: resources[o] != resources[o'])
    }

    /** The resource stored for `owner` under an already cleaned path. */
    function CachedFor(owner: T, p: string): Option<R>
      reads this, resources.Values
    {
      if owner in resources then resources[owner].Cached(p) else None
    }

    constructor(partitionStartLevel: int, sharer: R -> R, clean: string -> string)
      ensures Valid() && resources == map[]
      ensures this.partitionStartLevel == partitionStartLevel
      ensures this.sharer == sharer && this.clean == clean
    {
      this.partitionStartLevel := partitionStartLevel;
      this.sharer := sharer;
      this.clean := clean;
      resources := map[];
    }

    /** The store of `owner`, created empty when there is none; an existing store is never replaced. */
    method StoreFor(owner: T) returns (s: PathForResources<R>)
      requires Valid()
      modifies this
      ensures Valid() && owner in resources && s == resources[owner]
      ensures owner in old(resources) ==> resources == old(resources)
      ensures owner !in old(resources) ==>
        fresh(s) && s.resources == map[] && resources == old(resources)[owner := s]
    {
      if owner in resources {
        s := resources[owner];
      } else {
        s := new PathForResources(partitionStartLevel, sharer, clean);
        resources := resources[owner := s];
      }
    }

    /** `getOrUploadIfAbsent` on the store of `owner`, created first if missing. */
    method GetOrUploadIfAbsent(owner: T, path: string, supplier: Supplier<R>) returns (r: Option<R>, invoked: bool)
      requires Valid() && Routable(partitionStartLevel, clean(path))
      modifies this, resources.Values
      ensures Valid() && resources.Keys == old(resources.Keys) + {owner}
      ensures forall o | o in old(resources) :: resources[o] == old(resources[o])
      ensures invoked <==> old(CachedFor(owner, clean(path))).None? && supplier.Supplies?
      ensures old(CachedFor(owner, clean(path))).Some? ==>
        CachedFor(owner, clean(path)) == old(CachedFor(owner, clean(path)))
      ensures old(CachedFor(owner, clean(path))).None? ==>
        CachedFor(owner, clean(path)) == (if invoked then Shared(sharer, supplier.result) else None)
      ensures r == Shared(sharer, CachedFor(owner, clean(path)))
      ensures forall q | q != clean(path) :: CachedFor(owner, q) == old(CachedFor(owner, q))
      ensures forall o, q | o in old(resources) && o != owner :: CachedFor(o, q) == old(CachedFor(o, q))
    {
      var s := StoreFor(owner);
      r, invoked := s.GetOrUploadIfAbsent(path, supplier);
    }

    /** `get` on the store of `owner`, created first if missing; nothing is stored. */
    method Get(owner: T, path: string) returns (r: Option<R>)
      requires Valid() && Routable(partitionStartLevel, clean(path))
      modifies this, resources.Values
      ensures Valid() && resources.Keys == old(resources.Keys) + {owner}
      ensures forall o | o in old(resources) :: resources[o] == old(resources[o])
      ensures r == Shared(sharer, old(CachedFor(owner, clean(path))))
      ensures forall q :: CachedFor(owner, q) == old(CachedFor(owner, q))
      ensures forall o, q | o in old(resources) :: CachedFor(o, q) == old(CachedFor(o, q))
    {
      var s := StoreFor(owner);
      r := s.Get(path);
    }

    /** Detaches the store of `owner` and returns it as it is, not cleared. */
    method Remove(owner: T) returns (s: Option<PathForResources<R>>)
      modifies this
      ensures old(Valid()) ==> Valid()
      ensures resources == old(resources) - {owner}
      ensures s == (if owner in old(resources) then Some(old(resources[owner])) else None)
      ensures s.Some? ==> s.value.resources == old(s.value.resources)
    {
      s := if owner in resources then Some(resources[owner]) else None;
      resources := resources - {owner};
    }

    /** `remove(path)` on the store of `owner`; an unknown owner gets no store. */
    method RemovePath(owner: T, path: string) returns (r: Option<R>)
      requires Valid()
      requires owner in resources ==> Routable(partitionStartLevel, clean(path))
      modifies resources.Values
      ensures Valid() && resources == old(resources)
      ensures owner !in resources ==> r == None
      ensures r == old(CachedFor(owner, clean(path)))
      ensures CachedFor(owner, clean(path)) == None
      ensures forall q | q != clean(path) :: CachedFor(owner, q) == old(CachedFor(owner, q))
      ensures forall o, q | o in resources && o != owner :: CachedFor(o, q) == old(CachedFor(o, q))
    {
      if owner in resources {
        r := resources[owner].Remove(path);
      } else {
        r := None;
      }
    }

    /** Forgets every store. */
    method Clear()
      modifies this
      ensures Valid() && resources == map[]
      ensures forall o, q :: CachedFor(o, q) == None
    {
      resources := map[];
    }
  }

  /** The value types of the eleven stores, opaque to the cache. */
  type Content
  type FileSystemItem
  type ZipContainer
  type FieldArray
  type MethodArray
  type ConstructorArray
  type FieldCollection
  type MethodCollection
  type ConstructorCollection
  type FunctionalInterface
  type ExecutableAndHandle

  /** The sharer of every store but the content store: a resource is handed out as it is. */
  function Identity<R>(x: R): R { x }

  /** A freshly built store: empty, start level 1, the given sharer and path cleaner. */
  ghost predicate NewStore<R>(s: PathForResources<R>, sharer: R -> R, clean: string -> string)
    reads s
  {
    s.Valid() && s.resources == map[] && s.partitionStartLevel == 1 && s.sharer == sharer && s.clean == clean
  }

  /** A freshly built per-owner registry: no owner, start level 1, the given sharer and path cleaner. */
  ghost predicate NewRegistry<T, R>(s: ObjectAndPathForResources<T, R>, sharer: R -> R, clean: string -> string)
    reads s, s.resources.Values
  {
    s.Valid() && s.resources == map[] && s.partitionStartLevel == 1 && s.sharer == sharer && s.clean == clean
  }

  /** What `Cache.clear` leaves in a store: nothing, unless the store is excluded. */
  function AfterClear<K, V>(before: map<K, V>, s: object, excluded: set<object>): map<K, V> {
    if s in excluded then before else map[]
  }

  /** Clears a path store unless it is excluded. */
  method ClearStore<R>(s: PathForResources<R>, excluded: set<object>)
    modifies s
    ensures s.resources == AfterClear(old(s.resources), s, excluded)
  {
    if s !in excluded {
      s.Clear();
    }
  }

  /** Clears a per-owner registry unless it is excluded. */
  method ClearRegistry<T, R>(s: ObjectAndPathForResources<T, R>, excluded: set<object>)
    modifies s
    ensures s.resources == AfterClear(old(s.resources), s, excluded)
  {
    if s !in excluded {
      s.Clear();
    }
  }

  /** The registry of the eleven caches the framework uses. */
  class Cache {
    const pathForContents: PathForResources<Content>
    const pathForFileSystemItems: PathForResources<FileSystemItem>
    const pathForZipFiles: PathForResources<ZipContainer>
    const classLoaderForFields: ObjectAndPathForResources<object, FieldArray>
    const classLoaderForMethods: ObjectAndPathForResources<object, MethodArray>
    const classLoaderForConstructors: ObjectAndPathForResources<object, ConstructorArray>
    const uniqueKeyForFields: ObjectAndPathForResources<object, FieldCollection>
    const uniqueKeyForConstructors: ObjectAndPathForResources<object, ConstructorCollection>
    const uniqueKeyForMethods: ObjectAndPathForResources<object, MethodCollection>
    const bindedFunctionalInterfaces: ObjectAndPathForResources<object, FunctionalInterface>
    const uniqueKeyForExecutableAndMethodHandle: ObjectAndPathForResources<object, ExecutableAndHandle>

    /** The three path stores. */
    ghost function PathStores(): set<object> {
      {pathForContents as object, pathForFileSystemItems, pathForZipFiles}
    }

    /** The eight stores keyed by class loader. */
    ghost function ClassLoaderStores(): set<object> {
      {classLoaderForFields as object, classLoaderForMethods, classLoaderForConstructors,
       uniqueKeyForFields, uniqueKeyForConstructors, uniqueKeyForMethods,
       bindedFunctionalInterfaces, uniqueKeyForExecutableAndMethodHandle}
    }

    /** The eleven stores are distinct objects. */
    ghost predicate Valid() {
      && pathForContents !in {pathForFileSystemItems as object, pathForZipFiles}
      && pathForFileSystemItems !in {pathForZipFiles as object}
      && classLoaderForFields !in {classLoaderForMethods as object, classLoaderForConstructors, uniqueKeyForFields,
           uniqueKeyForConstructors, uniqueKeyForMethods, bindedFunctionalInterfaces, uniqueKeyForExecutableAndMethodHandle}
      && classLoaderForMethods !in {classLoaderForConstructors as object, uniqueKeyForFields,
           uniqueKeyForConstructors, uniqueKeyForMethods, bindedFunctionalInterfaces, uniqueKeyForExecutableAndMethodHandle}
      && classLoaderForConstructors !in {uniqueKeyForFields as object,
           uniqueKeyForConstructors, uniqueKeyForMethods, bindedFunctionalInterfaces, uniqueKeyForExecutableAndMethodHandle}
      && uniqueKeyForFields !in {uniqueKeyForConstructors as object, uniqueKeyForMethods, bindedFunctionalInterfaces,
           uniqueKeyForExecutableAndMethodHandle}
      && uniqueKeyForConstructors !in {uniqueKeyForMethods as object, bindedFunctionalInterfaces,
           uniqueKeyForExecutableAndMethodHandle}
      && uniqueKeyForMethods !in {bindedFunctionalInterfaces as object, uniqueKeyForExecutableAndMethodHandle}
      && bindedFunctionalInterfaces !in {uniqueKeyForExecutableAndMethodHandle as object}
    }

    /**
     * Builds the eleven empty stores, all with start level 1; only the
     * content store has a sharer other than the identity.
     */
    constructor(shareContent: Content -> Content, clean: string -> string)
      ensures Valid()
      ensures fresh(pathForContents) && fresh(pathForFileSystemItems) && fresh(pathForZipFiles)
      ensures fresh(classLoaderForFields) && fresh(classLoaderForMethods) && fresh(classLoaderForConstructors)
      ensures fresh(uniqueKeyForFields) && fresh(uniqueKeyForConstructors) && fresh(uniqueKeyForMethods)
      ensures fresh(bindedFunctionalInterfaces) && fresh(uniqueKeyForExecutableAndMethodHandle)
      ensures NewStore(pathForContents, shareContent, clean)
      ensures NewStore(pathForFileSystemItems, Identity, clean)
      ensures NewStore(pathForZipFiles, Identity, clean)
      ensures NewRegistry(classLoaderForFields, Identity, clean)
      ensures NewRegistry(classLoaderForMethods, Identity, clean)
      ensures NewRegistry(classLoaderForConstructors, Identity, clean)
      ensures NewRegistry(uniqueKeyForFields, Identity, clean)
      ensures NewRegistry(uniqueKeyForConstructors, Identity, clean)
      ensures NewRegistry(uniqueKeyForMethods, Identity, clean)
      ensures NewRegistry(bindedFunctionalInterfaces, Identity, clean)
      ensures NewRegistry(uniqueKeyForExecutableAndMethodHandle, Identity, clean)
    {
      pathForContents := new PathForResources(1, shareContent, clean);
      pathForFileSystemItems := new PathForResources(1, Identity, clean);
      pathForZipFiles := new PathForResources(1, Identity, clean);
      classLoaderForFields := new ObjectAndPathForResources(1, Identity, clean);
      classLoaderForMethods := new ObjectAndPathForResources(1, Identity, clean);
      uniqueKeyForFields := new ObjectAndPathForResources(1, Identity, clean);
      uniqueKeyForMethods := new ObjectAndPathForResources(1, Identity, clean);
      uniqueKeyForConstructors := new ObjectAndPathForResources(1, Identity, clean);
      classLoaderForConstructors := new ObjectAndPathForResources(1, Identity, clean);
      bindedFunctionalInterfaces := new ObjectAndPathForResources(1, Identity, clean);
      uniqueKeyForExecutableAndMethodHandle := new ObjectAndPathForResources(1, Identity, clean);
    }

    /** Clears every store that is not in `excluded`; the excluded ones keep their contents. */
    method Clear(excluded: set<object>)
      requires Valid()
      modifies PathStores(), ClassLoaderStores()
      ensures pathForContents.resources == AfterClear(old(pathForContents.resources), pathForContents, excluded)
      ensures pathForFileSystemItems.resources == AfterClear(old(pathForFileSystemItems.resources), pathForFileSystemItems, excluded)
      ensures pathForZipFiles.resources == AfterClear(old(pathForZipFiles.resources), pathForZipFiles, excluded)
      ensures classLoaderForFields.resources == AfterClear(old(classLoaderForFields.resources), classLoaderForFields, excluded)
      ensures classLoaderForMethods.resources == AfterClear(old(classLoaderForMethods.resources), classLoaderForMethods, excluded)
      ensures classLoaderForConstructors.resources == AfterClear(old(classLoaderForConstructors.resources), classLoaderForConstructors, excluded)
      ensures bindedFunctionalInterfaces.resources == AfterClear(old(bindedFunctionalInterfaces.resources), bindedFunctionalInterfaces, excluded)
      ensures uniqueKeyForFields.resources == AfterClear(old(uniqueKeyForFields.resources), uniqueKeyForFields, excluded)
      ensures uniqueKeyForConstructors.resources == AfterClear(old(uniqueKeyForConstructors.resources), uniqueKeyForConstructors, excluded)
      ensures uniqueKeyForMethods.resources == AfterClear(old(uniqueKeyForMethods.resources), uniqueKeyForMethods, excluded)
      ensures uniqueKeyForExecutableAndMethodHandle.resources == AfterClear(old(uniqueKeyForExecutableAndMethodHandle.resources), uniqueKeyForExecutableAndMethodHandle, excluded)
    {
      ClearPathStores(excluded);
      ClearRegistries(excluded);
    }

    /** The last eight steps of `clear`: the stores keyed by class loader. */
    method ClearRegistries(excluded: set<object>)
      requires Valid()
      modifies ClassLoaderStores()
      ensures classLoaderForFields.resources == AfterClear(old(classLoaderForFields.resources), classLoaderForFields, excluded)
      ensures classLoaderForMethods.resources == AfterClear(old(classLoaderForMethods.resources), classLoaderForMethods, excluded)
      ensures classLoaderForConstructors.resources == AfterClear(old(classLoaderForConstructors.resources), classLoaderForConstructors, excluded)
      ensures bindedFunctionalInterfaces.resources == AfterClear(old(bindedFunctionalInterfaces.resources), bindedFunctionalInterfaces, excluded)
      ensures uniqueKeyForFields.resources == AfterClear(old(uniqueKeyForFields.resources), uniqueKeyForFields, excluded)
      ensures uniqueKeyForConstructors.resources == AfterClear(old(uniqueKeyForConstructors.resources), uniqueKeyForConstructors, excluded)
      ensures uniqueKeyForMethods.resources == AfterClear(old(uniqueKeyForMethods.resources), uniqueKeyForMethods, excluded)
      ensures uniqueKeyForExecutableAndMethodHandle.resources == AfterClear(old(uniqueKeyForExecutableAndMethodHandle.resources), uniqueKeyForExecutableAndMethodHandle, excluded)
    {
      ClearLoaderRegistries(excluded);
      ClearUniqueKeyRegistries(excluded);
    }

    /** The first three steps of `clear`: the path stores. */
    method ClearPathStores(excluded: set<object>)
      requires Valid()
      modifies PathStores()
      ensures pathForContents.resources == AfterClear(old(pathForContents.resources), pathForContents, excluded)
      ensures pathForFileSystemItems.resources == AfterClear(old(pathForFileSystemItems.resources), pathForFileSystemItems, excluded)
      ensures pathForZipFiles.resources == AfterClear(old(pathForZipFiles.resources), pathForZipFiles, excluded)
    {
      ClearStore(pathForContents, excluded);
      ClearStore(pathForFileSystemItems, excluded);
      ClearStore(pathForZipFiles, excluded);
    }

    /** The next four steps of `clear`: the member arrays and the functional interfaces. */
    method ClearLoaderRegistries(excluded: set<object>)
      requires Valid()
      modifies classLoaderForFields, classLoaderForMethods, classLoaderForConstructors, bindedFunctionalInterfaces
      ensures classLoaderForFields.resources == AfterClear(old(classLoaderForFields.resources), classLoaderForFields, excluded)
      ensures classLoaderForMethods.resources == AfterClear(old(classLoaderForMethods.resources), classLoaderForMethods, excluded)
      ensures classLoaderForConstructors.resources == AfterClear(old(classLoaderForConstructors.resources), classLoaderForConstructors, excluded)
      ensures bindedFunctionalInterfaces.resources == AfterClear(old(bindedFunctionalInterfaces.resources), bindedFunctionalInterfaces, excluded)
    {
      ClearRegistry(classLoaderForFields, excluded);
      ClearRegistry(classLoaderForMethods, excluded);
      ClearRegistry(classLoaderForConstructors, excluded);
      ClearRegistry(bindedFunctionalInterfaces, excluded);
    }

    /** The last four steps of `clear`: the member collections and handles. */
    method ClearUniqueKeyRegistries(excluded: set<object>)
      requires Valid()
      modifies uniqueKeyForFields, uniqueKeyForConstructors, uniqueKeyForMethods, uniqueKeyForExecutableAndMethodHandle
      ensures uniqueKeyForFields.resources == AfterClear(old(uniqueKeyForFields.resources), uniqueKeyForFields, excluded)
      ensures uniqueKeyForConstructors.resources == AfterClear(old(uniqueKeyForConstructors.resources), uniqueKeyForConstructors, excluded)
      ensures uniqueKeyForMethods.resources == AfterClear(old(uniqueKeyForMethods.resources), uniqueKeyForMethods, excluded)
      ensures uniqueKeyForExecutableAndMethodHandle.resources == AfterClear(old(uniqueKeyForExecutableAndMethodHandle.resources), uniqueKeyForExecutableAndMethodHandle, excluded)
    {
      ClearRegistry(uniqueKeyForFields, excluded);
      ClearRegistry(uniqueKeyForConstructors, excluded);
      ClearRegistry(uniqueKeyForMethods, excluded);
      ClearRegistry(uniqueKeyForExecutableAndMethodHandle, excluded);
    }

    /** Clears all eleven stores. */
    method Close()
      requires Valid()
      modifies PathStores(), ClassLoaderStores()
      ensures pathForContents.resources == map[]
      ensures pathForFileSystemItems.resources == map[]
      ensures pathForZipFiles.resources == map[]
      ensures classLoaderForFields.resources == map[]
      ensures classLoaderForMethods.resources == map[]
      ensures classLoaderForConstructors.resources == map[]
      ensures bindedFunctionalInterfaces.resources == map[]
      ensures uniqueKeyForFields.resources == map[]
      ensures uniqueKeyForConstructors.resources == map[]
      ensures uniqueKeyForMethods.resources == map[]
      ensures uniqueKeyForExecutableAndMethodHandle.resources == map[]
    {
      Clear({});
    }
  }

  /** The owners in `gone` have lost their stores in each of the eight class-loader keyed registries. */
  twostate predicate OwnersRemoved(cache: Cache, new gone: set<object>)
    reads cache.ClassLoaderStores()
  {
    && cache.classLoaderForFields.resources == old(cache.classLoaderForFields.resources) - gone
    && cache.classLoaderForMethods.resources == old(cache.classLoaderForMethods.resources) - gone
    && cache.classLoaderForConstructors.resources == old(cache.classLoaderForConstructors.resources) - gone
    && cache.uniqueKeyForFields.resources == old(cache.uniqueKeyForFields.resources) - gone
    && cache.uniqueKeyForConstructors.resources == old(cache.uniqueKeyForConstructors.resources) - gone
    && cache.uniqueKeyForMethods.resources == old(cache.uniqueKeyForMethods.resources) - gone
    && cache.bindedFunctionalInterfaces.resources == old(cache.bindedFunctionalInterfaces.resources) - gone
    && cache.uniqueKeyForExecutableAndMethodHandle.resources
       == old(cache.uniqueKeyForExecutableAndMethodHandle.resources) - gone
  }

  /** Removing two sets of keys one after the other removes their union. */
  lemma SubtractTwice<K, V>(m: map<K, V>, a: set<K>, b: set<K>)
    ensures m - a - b == m - (a + b)
  {
  }

  /** The number of entries over all buckets, summed bucket by bucket. */
  method CountEntries<R>(resources: Partitions<R>) returns (count: nat)
    ensures count == PartitionsSize(resources)
  {
    count := 0;
    var rest := resources;
    while |rest| > 0
      invariant count + PartitionsSize(rest) == PartitionsSize(resources)
      decreases |rest|
    {
      assert rest.Keys != {};
      var i :| i in rest;
      PartitionsSizeRemove(rest, i);
      var part := rest[i];
      rest := rest - {i};
      while |part| > 0
        invariant count + BucketsSize(part) + PartitionsSize(rest) == PartitionsSize(resources)
        decreases |part|
      {
        assert part.Keys != {};
        var k :| k in part;
        BucketsSizeRemove(part, k);
        count := count + |part[k]|;
        part := part - {k};
      }
    }
  }
}
