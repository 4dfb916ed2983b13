# Burningwave core: resource cache, memory class loader, growable byte buffer

This project is a Dafny model of three stateful components of Burningwave Core.

- **The partitioned resource cache** (`Cache.java`).
  - `PathForResources` keeps resources in a three-level map: partition index, then partition key, then cleaned path.
  - A path's index is the number of `/` in it, but never below the store's start level. Its key is `"/"` for index 1 or less; otherwise it is the name of the path's parent directory.
  - On top of that routing, the store offers get-or-compute-once, forced upload, get, remove, count and clear. A caller-supplied `sharer` is applied when a resource is stored and again whenever it is handed out.
  - `ObjectAndPathForResources` creates one such store per owner object, lazily.
  - `Cache` is the fixed registry of the eleven stores the framework uses. It offers `clear(excluded...)` and `close`.
- **The memory class loader** (`MemoryClassLoader.java`).
  - It stages bytecode by class name and defines classes from the staged bytecode.
  - It keeps the bytecode of the classes it defined, for lookups by class name and by class-file path.
  - It counts its clients and refuses to close while any remain.
  - Closing releases the loader from a memory-class-loader parent, which may close that parent in turn, up the chain. It also purges the loader from the eight class-loader keyed caches.
- **The growable byte output stream** (`ByteBufferOutputStream.java`).
  - It writes into a `ByteBuffer`.
  - When a write would not fit, the buffer is replaced by a larger one holding the bytes written so far.

## Modules

- `Wrappers`: the `Option` type.
- `Strings`: the few `String` operations the sources rely on: `lastIndexOf`, counting a character, replacing a character.
- `CachePartitions`: the routing and the map algebra of a partitioned store.
- `CacheCounting`: why the bucket sizes add up to the number of cached paths.
- `Cache`: the store classes and the registry.
- `MemoryClassLoaders`: the loader class and the staging functions that specify it.
- `ByteBufferOutputStreams`: a `ByteBuffer` class covering the part of `java.nio.ByteBuffer` the stream uses, and the stream class.

## How the environment is represented

- Java's `null` results are `None`. A `null` supplier is `NullSupplier`. A supplier is described by what its one `get()` returns.
- `Paths.clean` is the store's `clean` function and `Streams.shareContent` is the content store's `sharer`. Both are left uninterpreted.
- The JVM's record of defined classes and packages is held in the sets `defined` and `packages`.
  - What `defineClass` does with given bytecode is a `Definition` parameter: it defines the class, reports a missing dependency, or rejects the bytecode.
  - Whether the parent side of `loadClass` finds a class is a `parentFinds` parameter.
- The loader and the stream throw or log in some situations. Those outcomes are result values (`LoadResult`, `ByteCodeLookup`, `ok`/`failed` flags).
- A closed loader's maps and client set are `null` in Java. Here they are empty, and the `isClosed` flag guards them.

## Notes on behaviour

- **Routing example.** `/a/b/c/res` holds four `/`, so at start level 1 it lands in partition 4 under key `c`, the last component of its parent directory (`CachePartitions.ExampleRoute`).
- **Closing a closed loader.** Closing an already closed loader is not rejected. Its `clients` field is `null`, so the client check passes and the close runs again. The model does the same: a closed loader has no clients, so `Close` answers `ok`.

## Model

| member | source | states |
|---|---|---|
| Strings.LastIndexOf | src/main/java/org/burningwave/core/Cache.java:165-166 | `lastIndexOf`: -1 or an index where the pattern occurs, with no occurrence further right |
| Strings.LastIndexOfChar | src/main/java/org/burningwave/core/Cache.java:165-166 | a one-character pattern is found iff the character occurs; the index found holds it and no later index does |
| Strings.CountChar | src/main/java/org/burningwave/core/Cache.java:228 | the count of a character is at most the length, and 0 exactly when the character is absent |
| Strings.CountCharAppend | src/main/java/org/burningwave/core/Cache.java:228 | counting a character is additive over concatenation |
| Strings.ReplaceChar | src/main/java/org/burningwave/core/classes/MemoryClassLoader.java:271 | `replace` of one character: same length, each position replaced exactly where it held `from` |
| Strings.ReplaceCharBack | src/main/java/org/burningwave/core/classes/MemoryClassLoader.java:271 | replacing `a` by `b` and back restores any string free of `b` |
| CachePartitions.PartitionIndex | src/main/java/org/burningwave/core/Cache.java:228-229 | the partition index is the larger of the `/` count and the start level |
| CachePartitions.EveryPathRoutable | src/main/java/org/burningwave/core/Cache.java:68-78 | with start level 1, as every store is built, computing the key of any path stays in bounds |
| CachePartitions.PartitionKey | src/main/java/org/burningwave/core/Cache.java:162-167 | the key is `"/"` for index at most 1, else a name free of `/` |
| CachePartitions.LastSlashBeforeSuffix | src/main/java/org/burningwave/core/Cache.java:165 | the last `/` of `prefix/suffix` is the joining one when the suffix holds none |
| CachePartitions.PartitionKeyIsParentName | src/main/java/org/burningwave/core/Cache.java:162-167 | a path `dir/parent/name` is in a deep partition keyed by `parent`, its parent directory's name |
| CachePartitions.ExampleRoute | src/main/java/org/burningwave/core/Cache.java:162-167 | `/a/b/c/res` at start level 1 goes to partition 4 under key `c` |
| CachePartitions.WithBucket | src/main/java/org/burningwave/core/Cache.java:162-178 | both `retrievePartition` steps create the bucket only when missing and change no lookup, no stored path and no routing |
| CachePartitions.PutAtFindIn | src/main/java/org/burningwave/core/Cache.java:188 | a `put` changes the lookup of its own path in its own bucket only |
| CachePartitions.RemoveAtFindIn | src/main/java/org/burningwave/core/Cache.java:254 | a `remove` empties the lookup of its own path in its own bucket only |
| CachePartitions.PutAtFind | src/main/java/org/burningwave/core/Cache.java:188 | storing a path in its bucket changes the store's lookup of that path only |
| CachePartitions.RemoveAtFind | src/main/java/org/burningwave/core/Cache.java:254 | removing a path from its bucket changes the store's lookup of that path only |
| CachePartitions.PutAtPaths | src/main/java/org/burningwave/core/Cache.java:188 | a `put` adds exactly its path to the stored paths |
| CachePartitions.PutAtRouting | src/main/java/org/burningwave/core/Cache.java:188 | storing into the path's own bucket keeps every path in the bucket its route names |
| CachePartitions.RemoveAtPaths | src/main/java/org/burningwave/core/Cache.java:254 | in a well-routed store a `remove` takes exactly its path out of the stored paths |
| CachePartitions.RemoveAtRouting | src/main/java/org/burningwave/core/Cache.java:254 | removing keeps the store well routed |
| CacheCounting.BucketsSizeRemove | src/main/java/org/burningwave/core/Cache.java:264-266 | the sum of bucket sizes does not depend on the order the buckets are visited |
| CacheCounting.PartitionsSizeRemove | src/main/java/org/burningwave/core/Cache.java:263-267 | the sum over partitions does not depend on the order the partitions are visited |
| CacheCounting.WellRoutedIsDisjoint | src/main/java/org/burningwave/core/Cache.java:228-231 | routing sends each path to one bucket, so no path is in two buckets |
| CacheCounting.PartitionPathsSplit | src/main/java/org/burningwave/core/Cache.java:264-266 | a partition's paths are one bucket's paths plus the other buckets' paths |
| CacheCounting.PartitionPathsCount | src/main/java/org/burningwave/core/Cache.java:264-266 | with disjoint buckets, a partition's bucket sizes add up to its number of paths |
| CacheCounting.PathsSplit | src/main/java/org/burningwave/core/Cache.java:263-267 | the stored paths are one partition's paths plus the other partitions' paths |
| CacheCounting.PartitionsPathCount | src/main/java/org/burningwave/core/Cache.java:261-269 | with disjoint partitions, all bucket sizes add up to the number of stored paths |
| CacheCounting.PartitionsSizeIsPathCount | src/main/java/org/burningwave/core/Cache.java:261-269 | in a well-routed store the sum `getLoadedResourcesCount` computes is the number of cached paths |
| CacheCounting.PathsAreFound | src/main/java/org/burningwave/core/Cache.java:235-246 | in a well-routed store a path is stored iff a lookup of it finds something |
| Cache.Shared | src/main/java/org/burningwave/core/Cache.java:193-195 | a non-null resource is handed out as the sharer's copy; null stays null |
| Cache.CountEntries | src/main/java/org/burningwave/core/Cache.java:261-269 | the nested counting loop returns the sum of all bucket sizes |
| Cache.PathForResources.constructor | src/main/java/org/burningwave/core/Cache.java:153-160 | a new store is empty, well routed and holds its start level, sharer and cleaner |
| Cache.PathForResources.RetrieveBucket | src/main/java/org/burningwave/core/Cache.java:213-224 | the path's bucket exists afterwards; no lookup and no stored path changed |
| Cache.PathForResources.GetOrUploadIfAbsent | src/main/java/org/burningwave/core/Cache.java:180-196 | on a hit the supplier is not called, nothing changes and the sharer's copy is returned; on a miss a non-null supplier is called once and a non-null result is stored as its sharer's copy; other paths keep their entries |
| Cache.PathForResources.Upload | src/main/java/org/burningwave/core/Cache.java:198-211 | a non-null supplier is always called; a non-null result overwrites the entry and a null one leaves it; other paths keep their entries |
| Cache.PathForResources.Get | src/main/java/org/burningwave/core/Cache.java:244-246 | returns the sharer's copy of the stored resource and stores nothing |
| Cache.PathForResources.Remove | src/main/java/org/burningwave/core/Cache.java:248-255 | returns the stored resource, the path is absent afterwards, other paths keep their entries, the path leaves the stored paths |
| Cache.PathForResources.GetLoadedResourcesCount | src/main/java/org/burningwave/core/Cache.java:257-269 | the count is the number of cached paths, and 0 exactly when every lookup finds nothing |
| Cache.PathForResources.Clear | src/main/java/org/burningwave/core/Cache.java:271-277 | every partition is dropped and every lookup finds nothing |
| Cache.ObjectAndPathForResources.constructor | src/main/java/org/burningwave/core/Cache.java:91-95 | a new registry has no owners and holds the configuration of the stores it will build |
| Cache.ObjectAndPathForResources.StoreFor | src/main/java/org/burningwave/core/Cache.java:98-107 | an owner's store is created empty only when missing and never replaced |
| Cache.ObjectAndPathForResources.GetOrUploadIfAbsent | src/main/java/org/burningwave/core/Cache.java:97-109 | get-or-compute on the owner's store, created if missing; other owners and existing stores are untouched |
| Cache.ObjectAndPathForResources.Get | src/main/java/org/burningwave/core/Cache.java:111-123 | returns the sharer's copy of the owner's resource; no lookup changes; a store is created if missing |
| Cache.ObjectAndPathForResources.Remove | src/main/java/org/burningwave/core/Cache.java:125-127 | the owner is dropped and its store returned as it was, not cleared |
| Cache.ObjectAndPathForResources.RemovePath | src/main/java/org/burningwave/core/Cache.java:129-135 | remove on the owner's store; an unknown owner gets null and no store |
| Cache.ObjectAndPathForResources.Clear | src/main/java/org/burningwave/core/Cache.java:137-141 | every owner's store is forgotten |
| Cache.ClearStore | src/main/java/org/burningwave/core/Cache.java:297-301 | a path store is emptied unless excluded, and then keeps its contents |
| Cache.ClearRegistry | src/main/java/org/burningwave/core/Cache.java:297-301 | a per-owner registry is emptied unless excluded, and then keeps its stores |
| Cache.Cache.constructor | src/main/java/org/burningwave/core/Cache.java:66-79 | eleven distinct, fresh, empty stores at start level 1; only the content store shares through `shareContent` |
| Cache.Cache.Clear | src/main/java/org/burningwave/core/Cache.java:280-295 | each of the eleven stores is emptied exactly when it is not excluded; excluded ones keep their contents |
| Cache.Cache.ClearPathStores | src/main/java/org/burningwave/core/Cache.java:284-286 | the three path stores are emptied unless excluded |
| Cache.Cache.ClearRegistries | src/main/java/org/burningwave/core/Cache.java:287-294 | the eight owner-keyed stores are emptied unless excluded |
| Cache.Cache.ClearLoaderRegistries | src/main/java/org/burningwave/core/Cache.java:287-290 | the member-array and functional-interface stores are emptied unless excluded |
| Cache.Cache.ClearUniqueKeyRegistries | src/main/java/org/burningwave/core/Cache.java:291-294 | the member-collection and handle stores are emptied unless excluded |
| Cache.Cache.Close | src/main/java/org/burningwave/core/Cache.java:303-306 | all eleven stores are empty |
| MemoryClassLoaders.ClassNameOf | src/main/java/org/burningwave/core/classes/MemoryClassLoader.java:271 | the class name of a class-file path is as long as what precedes ".class" and holds no `/` |
| MemoryClassLoaders.ResourcePathOf | src/main/java/org/burningwave/core/classes/MemoryClassLoader.java:271 | the class-file path of a name is the name with `.` as `/`, followed by ".class" |
| MemoryClassLoaders.ClassNameOfResourcePath | src/main/java/org/burningwave/core/classes/MemoryClassLoader.java:271 | reading the class name back from a name's class-file path gives the name |
| MemoryClassLoaders.PackageOf | src/main/java/org/burningwave/core/classes/MemoryClassLoader.java:208-211 | the package is the prefix before the last `.` |
| MemoryClassLoaders.PackageOfQualifiedName | src/main/java/org/burningwave/core/classes/MemoryClassLoader.java:208-211 | the package of `pkg.Simple` is `pkg` |
| MemoryClassLoaders.PackagesOf | src/main/java/org/burningwave/core/classes/MemoryClassLoader.java:207-216 | at most one package is defined for a class, and none exactly when its name has no `.` |
| MemoryClassLoaders.Stage | src/main/java/org/burningwave/core/classes/MemoryClassLoader.java:93-101 | a defined name leaves the staging map unchanged; otherwise the name is staged or overwritten with the code; other names keep their entries |
| MemoryClassLoaders.StageAll | src/main/java/org/burningwave/core/classes/MemoryClassLoader.java:133-148 | `addByteCodes(Map)`: every given class not yet defined is staged with the given bytecode, every other staged class keeps its own, and a staging map disjoint from the defined classes stays disjoint |
| MemoryClassLoaders.StageAllStep | src/main/java/org/burningwave/core/classes/MemoryClassLoader.java:133-139 | staging one entry, then the rest of the map, equals staging the whole map: the iteration order does not matter |
| MemoryClassLoaders.StageEach | src/main/java/org/burningwave/core/classes/MemoryClassLoader.java:150-164 | staging entries in order never stages a defined class |
| MemoryClassLoaders.StageEachUntouched | src/main/java/org/burningwave/core/classes/MemoryClassLoader.java:150-164 | a name that is defined or has no entry keeps its staged entry, or its absence |
| MemoryClassLoaders.StageEachLastWins | src/main/java/org/burningwave/core/classes/MemoryClassLoader.java:150-164 | an undefined name ends up staged with the bytecode of its last entry |
| MemoryClassLoaders.EntriesMap | src/main/java/org/burningwave/core/classes/MemoryClassLoader.java:150-164 | the map built from entries has exactly their names as keys |
| MemoryClassLoaders.StageEachIsStageAll | src/main/java/org/burningwave/core/classes/MemoryClassLoader.java:133-180 | with distinct names, the `Collection`/`Entry...` overloads stage the same as the `Map` overload |
| MemoryClassLoaders.FindOutcome | src/main/java/org/burningwave/core/classes/MemoryClassLoader.java:304-335 | `findClass` loads iff the loader is open, has staged bytecode and the JVM defines it; ClassNotFound iff closed or nothing staged; NoClassDefFound carries the missing class |
| MemoryClassLoaders.DefinedHere | src/main/java/org/burningwave/core/classes/MemoryClassLoader.java:367-377 | the staged classes defined by forced loading are those the parent does not find and the JVM defines |
| MemoryClassLoaders.KeptStaged | src/main/java/org/burningwave/core/classes/MemoryClassLoader.java:367-377 | the classes still staged after forced loading are those the JVM rejected outright |
| MemoryClassLoaders.MemoryClassLoader.constructor | src/main/java/org/burningwave/core/classes/MemoryClassLoader.java:65-75 | a new loader is open and empty, and registers itself as a client of an open memory-class-loader parent |
| MemoryClassLoaders.MemoryClassLoader.Register | src/main/java/org/burningwave/core/classes/MemoryClassLoader.java:406-413 | adds the client and answers true iff the loader is open; a closed loader is unchanged |
| MemoryClassLoaders.MemoryClassLoader.AddByteCode | src/main/java/org/burningwave/core/classes/MemoryClassLoader.java:81-101 | stages the bytecode unless the class is defined; nothing happens on a closed loader |
| MemoryClassLoaders.MemoryClassLoader.HasPackageBeenDefined | src/main/java/org/burningwave/core/classes/MemoryClassLoader.java:182-184 | true for the unnamed package; otherwise true exactly when some dotted class this loader defined lies in that package |
| MemoryClassLoaders.MemoryClassLoader.AddByteCodes | src/main/java/org/burningwave/core/classes/MemoryClassLoader.java:133-148 | the loop over the map stages every entry whose class is not defined |
| MemoryClassLoaders.MemoryClassLoader.AddByteCodeEntries | src/main/java/org/burningwave/core/classes/MemoryClassLoader.java:150-180 | the loop over the entries stages them in order |
| MemoryClassLoaders.MemoryClassLoader.GetNotLoadedByteCode | src/main/java/org/burningwave/core/classes/MemoryClassLoader.java:103-118 | the scan returns the staged entry for the name, or null when none is staged or the loader is closed |
| MemoryClassLoaders.MemoryClassLoader.ByteCodeOf | src/main/java/org/burningwave/core/classes/MemoryClassLoader.java:120-131 | staged bytecode is preferred; a class that is defined but not staged yields its defined bytecode; null when neither exists or the loader is closed |
| MemoryClassLoaders.MemoryClassLoader.GetByteCode | src/main/java/org/burningwave/core/classes/MemoryClassLoader.java:269-285 | a path without ".class" throws on an open loader; otherwise the class is found exactly when it is defined or staged, with the defined bytecode preferred and the staged bytecode as fallback |
| MemoryClassLoaders.MemoryClassLoader.GetByteCodeAsInputStream | src/main/java/org/burningwave/core/classes/MemoryClassLoader.java:257-267 | only a path ending in ".class" yields bytecode, and it never hits the bad-path error |
| MemoryClassLoaders.MemoryClassLoader.ResourceLookupIsByteCodeOf | src/main/java/org/burningwave/core/classes/MemoryClassLoader.java:257-285 | on a valid loader, the lookup by class-file path and the lookup by class name agree despite their opposite search orders |
| MemoryClassLoaders.MemoryClassLoader.RemoveNotLoadedCompiledClass | src/main/java/org/burningwave/core/classes/MemoryClassLoader.java:344-356 | the name is un-staged; nothing happens on a closed loader |
| MemoryClassLoaders.MemoryClassLoader.DefineClass | src/main/java/org/burningwave/core/classes/MemoryClassLoader.java:337-342 | the class is defined, its bytecode kept, its staged entry dropped and its package defined |
| MemoryClassLoaders.MemoryClassLoader.FindClass | src/main/java/org/burningwave/core/classes/MemoryClassLoader.java:303-335 | the outcome is `FindOutcome`; loading defines the class; a missing dependency un-stages it; any other failure changes nothing |
| MemoryClassLoaders.MemoryClassLoader.LoadClass | src/main/java/org/burningwave/core/classes/MemoryClassLoader.java:218-228 | a defined class or one the parent finds loads without `findClass`; otherwise `findClass` decides; a loaded class is no longer staged |
| MemoryClassLoaders.MemoryClassLoader.LoadStaged | src/main/java/org/burningwave/core/classes/MemoryClassLoader.java:369-375 | one round of forced loading with the errors caught: loaded iff the parent finds it or the JVM defines it; only a rejected class stays staged |
| MemoryClassLoaders.MemoryClassLoader.ForceCompiledClassesLoading | src/main/java/org/burningwave/core/classes/MemoryClassLoader.java:367-377 | returns the staged classes that loaded; only rejected classes remain staged; defined classes, bytecode and packages grow by exactly those defined here; a closed loader throws |
| MemoryClassLoaders.MemoryClassLoader.Clear | src/main/java/org/burningwave/core/classes/MemoryClassLoader.java:379-392 | both bytecode maps are empty |
| MemoryClassLoaders.MemoryClassLoader.UnregisterFromCache | src/main/java/org/burningwave/core/classes/MemoryClassLoader.java:394-404 | the loader is removed from the eight class-loader keyed caches |
| MemoryClassLoaders.MemoryClassLoader.Unregister | src/main/java/org/burningwave/core/classes/MemoryClassLoader.java:415-425 | an open loader drops the client and closes, answering true, exactly when no client is left and `close` is set; a closed loader is unchanged; its parent closes exactly when it closed and was the parent's only client; further up, a loader closes exactly when it was open, its child on the chain closed and was its only client, and the loaders above keep their records, an open one its bytecode and all clients but a closed child (`ChainAfter`) |
| MemoryClassLoaders.MemoryClassLoader.ReleaseFromParent | src/main/java/org/burningwave/core/classes/MemoryClassLoader.java:433-436 | the parent drops this loader and closes iff it was its last client; up the chain, a loader closes exactly when it was open, its child on the chain closed and was its only client; closed ancestors are untouched; every ancestor keeps its records, an open one its bytecode and all clients but a closed child (`ChainAfter`) |
| MemoryClassLoaders.MemoryClassLoader.MarkClosed | src/main/java/org/burningwave/core/classes/MemoryClassLoader.java:432-443 | the loader is closed with no clients and empty maps; the JVM records are kept |
| MemoryClassLoaders.MemoryClassLoader.Detach | src/main/java/org/burningwave/core/classes/MemoryClassLoader.java:433-448 | the parent is released and this loader, with every ancestor that closed, is purged from the caches; an ancestor closes exactly when it was open and its child on the chain closed and was its only client, and the ancestors' records and bytecode are kept (`ChainAfter`) |
| MemoryClassLoaders.MemoryClassLoader.Shut | src/main/java/org/burningwave/core/classes/MemoryClassLoader.java:432-448 | the loader is closed and emptied, the parent released, and every loader closed on the way is purged from the caches; a loader above closes exactly when it was open and its child on the chain closed and was its only client; the loaders above keep their records, an open one its bytecode and all clients but a closed child (`ChainAfter`) |
| MemoryClassLoaders.MemoryClassLoader.Close | src/main/java/org/burningwave/core/classes/MemoryClassLoader.java:427-449 | with clients left it refuses and nothing changes; otherwise it closes as `Shut` does, with the same cascade up the chain: a loader above closes exactly when its child on the chain closed and was its only client (`ChainAfter`) |
| ByteBufferOutputStreams.ExpandedSize | src/main/java/org/burningwave/core/io/ByteBufferOutputStream.java:118 | the new size fits the pending write after the position and never shrinks below the old limit |
| ByteBufferOutputStreams.ByteBuffer.Allocate | src/main/java/org/burningwave/core/io/ByteBufferOutputStream.java:119 | a new buffer is zero-filled, with position 0 and the limit at the capacity |
| ByteBufferOutputStreams.ByteBuffer.Flip | src/main/java/org/burningwave/core/io/ByteBufferOutputStream.java:121 | the limit moves to the position and the position to 0 |
| ByteBufferOutputStreams.ByteBuffer.SetLimit | src/main/java/org/burningwave/core/io/ByteBufferOutputStream.java:123 | sets the limit and pulls a position beyond it back |
| ByteBufferOutputStreams.ByteBuffer.SetPosition | src/main/java/org/burningwave/core/io/ByteBufferOutputStream.java:124 | sets the position within the limit |
| ByteBufferOutputStreams.ByteBuffer.PutByte | src/main/java/org/burningwave/core/io/ByteBufferOutputStream.java:78 | stores the byte at the position and advances by one |
| ByteBufferOutputStreams.ByteBuffer.PutBytes | src/main/java/org/burningwave/core/io/ByteBufferOutputStream.java:83 | appends the bytes at the position, advancing past them; bytes after them are untouched |
| ByteBufferOutputStreams.ByteBuffer.Put | src/main/java/org/burningwave/core/io/ByteBufferOutputStream.java:88 | appends the source's pending bytes and drains the source |
| ByteBufferOutputStreams.ByteBufferOutputStream.Wrap | src/main/java/org/burningwave/core/io/ByteBufferOutputStream.java:57-62 | the stream writes into the given buffer and records its position and capacity |
| ByteBufferOutputStreams.NewStream | src/main/java/org/burningwave/core/io/ByteBufferOutputStream.java:64-70 | a negative capacity fails; otherwise the stream has a fresh, empty buffer of exactly that capacity, position 0 and the given `closeable` |
| ByteBufferOutputStreams.ByteBufferOutputStream.MarkAsCloseable | src/main/java/org/burningwave/core/io/ByteBufferOutputStream.java:72-74 | sets `closeable`, nothing else |
| ByteBufferOutputStreams.ByteBufferOutputStream.Position | src/main/java/org/burningwave/core/io/ByteBufferOutputStream.java:91-93 | the number of bytes written, never past the limit |
| ByteBufferOutputStreams.ByteBufferOutputStream.Remaining | src/main/java/org/burningwave/core/io/ByteBufferOutputStream.java:95-97 | never negative; the position plus what remains is the limit |
| ByteBufferOutputStreams.ByteBufferOutputStream.Limit | src/main/java/org/burningwave/core/io/ByteBufferOutputStream.java:99-101 | between the position and the buffer's capacity |
| ByteBufferOutputStreams.ByteBufferOutputStream.InitialCapacity | src/main/java/org/burningwave/core/io/ByteBufferOutputStream.java:108-110 | never negative; no write changes it (`SameSettings` on every write) |
| ByteBufferOutputStreams.ByteBufferOutputStream.ExpandBuffer | src/main/java/org/burningwave/core/io/ByteBufferOutputStream.java:117-126 | a fresh buffer of the expanded size keeps the written bytes and the position, zeros after them; the old buffer gets back its limit and its initial position; the initial capacity is unchanged |
| ByteBufferOutputStreams.ByteBufferOutputStream.EnsureRemaining | src/main/java/org/burningwave/core/io/ByteBufferOutputStream.java:112-115 | afterwards at least `n` bytes remain; if they already did nothing changes; written bytes and position are kept |
| ByteBufferOutputStreams.ByteBufferOutputStream.Write | src/main/java/org/burningwave/core/io/ByteBufferOutputStream.java:76-79 | the low byte of `b` is appended to what was written; when the write already fit, the same buffer is kept with the same limit |
| ByteBufferOutputStreams.ByteBufferOutputStream.WriteBytes | src/main/java/org/burningwave/core/io/ByteBufferOutputStream.java:81-84 | the `len` bytes from `off` are appended; an out-of-range slice throws and appends nothing; when the write already fit, the same buffer is kept with the same limit |
| ByteBufferOutputStreams.ByteBufferOutputStream.WriteBuffer | src/main/java/org/burningwave/core/io/ByteBufferOutputStream.java:86-89 | the source's pending bytes are appended and the source drained; writing the stream's own buffer throws and changes nothing; when the write already fit, the same buffer is kept with the same limit |
| ByteBufferOutputStreams.ByteBufferOutputStream.SetPosition | src/main/java/org/burningwave/core/io/ByteBufferOutputStream.java:103-106 | the buffer grows so that `p` is within the limit, then the position is `p`; a negative `p` throws; the bytes before both positions are kept |
| ByteBufferOutputStreams.ByteBufferOutputStream.Close | src/main/java/org/burningwave/core/io/ByteBufferOutputStream.java:133-141 | a closeable stream drops all its state; one that is not closeable is unchanged; with `closeable` already dropped, unboxing it throws |

## Left out

- Locking: `Mutex.Manager` striping, `synchronized` blocks and double-checked reads exist only for concurrency. Every operation is modelled single-threaded.
- A supplier that throws, and an exception from `sharer` or `Paths.clean`, are not modelled.
- `Paths.clean` and `Streams.shareContent` are uninterpreted functions. No property relies on `clean` being idempotent.
- Cache.PathForResources.GetOrUploadIfAbsent requires `Routable`. Deep paths without `/` make the Java key computation throw `StringIndexOutOfBoundsException`, and that cannot happen at start level 1, which every store uses (`CachePartitions.EveryPathRoutable`). The same precondition is on `Upload`, `Get`, `Remove` and the per-owner operations.
- Cache.CountEntries does not model `int` overflow of the counter, nor `Long` partition indices; integers are unbounded.
- `Cache.create` and the `Component` interface are left out. The cache's constructor takes the content sharer and the path cleaner as parameters.
- JVM internals are left out: `defineClass`, `definePackage`, `retrieveLoadedClass`, `retrieveLoadedPackage`, `retrieveLoadedClasses` and `ClassLoaders.unregister`. They become the sets `defined` and `packages` and the `Definition` and `parentFinds` parameters. Closing therefore does not clear the JVM's vector of loaded classes.
- MemoryClassLoaders.MemoryClassLoader.LoadClass: the `SecurityException` fallback to `Class.forName` is not modelled. The parent's own state changes while it searches are also not modelled; the parent side is only a yes/no answer.
- `getResourceAsStream` delegation to the parent, `ByteBufferInputStream`, `loadOrDefineClass`, `getLoadedClassesForPackage` and `definePackage` are left out. They are JVM or `ClassLoaders` calls that are not shown.
- Reparenting (`setAsParent`/`setAsMaster` in `ClassLoaders`) is left out. A loader's parent is fixed at construction.
- MemoryClassLoaders.MemoryClassLoader.Shut marks the loader closed and drops its maps and client set after releasing the parent and purging the caches; Java sets the flag first and purges the caches last. Neither the parent nor the caches read the loader's state, so the outcome is the same.
- MemoryClassLoaders.MemoryClassLoader.AddByteCodeEntries: the `Collection` and varargs overloads are both this one method over a sequence of entries.
- Logging is left out. A warning that the source logs is a no-op or a result value here.
- `AsynExecutor` is left out; it is concurrency only.
- ByteBufferOutputStreams.ExpandedSize models `(int)(limit * 1.1f)` as `limit * 11 / 10`. Like the float expression, this never falls below the limit. Float rounding and the saturation of the cast are not modelled.
- ByteBufferOutputStreams.ByteBufferOutputStream.EnsureRemaining does not model `int` overflow of `position + n`, nor an allocation larger than the JVM allows.
- The stream's default constructors are left out. They use `Streams.defaultBufferSize`, a configuration value that is not part of this model. The `(int)` constructor is the `(int, boolean)` one with `closeable` true.
- `Streams.defaultByteBufferAllocationMode` is modelled as heap allocation (`ByteBuffer.Allocate`); direct buffers behave the same for these operations.
- `toBufferedInputStream`, `toByteBuffer` and `toByteArray` are left out. They share or copy the buffer through `Streams`, which is not part of this model.
- ByteBufferOutputStreams.ByteBufferOutputStream.Write and the other stream operations require an open stream. On a closed stream the Java code dereferences the null buffer and throws.
