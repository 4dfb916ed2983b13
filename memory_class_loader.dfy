/**
 * A class loader that defines classes from bytecode held in memory. Bytecode
 * is staged under a class name until the class is defined; defined bytecode
 * is kept for lookups. The loader counts its clients, refuses to close while
 * it has any, and on closing releases itself from a parent loader of the
 * same kind (which may close that one in turn) and from the class-loader
 * keyed caches.
 *
 * The JVM's own bookkeeping (the classes and packages a loader has defined)
 * is modelled by the sets `defined` and `packages`; what `defineClass` does
 * with given bytecode is a parameter of the operations that define classes.
 */
module MemoryClassLoaders {
  import opened Wrappers
  import opened Strings
  import Cache

  type ByteCode = seq<bv8>

  /** What the JVM's `defineClass` does with a class's bytecode. */
  datatype Definition = Defines | MissingDependency(missing: string) | Rejected

  /** How a class lookup ends: with the class, or with the error it throws. */
  datatype LoadResult = Loaded | ClassNotFound | NoClassDefFound(missing: string) | DefinitionFailed

  /** The class name for a class-file path: what precedes the last ".class", with '/' read as '.'. */
  function ClassNameOf(path: string): (name: string)
    requires LastIndexOf(path, ".class") >= 0
    ensures |name| == LastIndexOf(path, ".class")
    ensures '/' !in name
  {
    ReplaceChar(path[..LastIndexOf(path, ".class")], '/', '.')
  }

  /** The class-file path of a class name. */
  function ResourcePathOf(name: string): (path: string)
    ensures |path| == |name| + |".class"|
    ensures path[..|name|] == ReplaceChar(name, '.', '/')
    ensures OccursAt(path, ".class", |name|)
  {
    ReplaceChar(name, '.', '/') + ".class"
  }

  /** Reading a class name back from its class-file path gives the name again. */
  lemma ClassNameOfResourcePath(name: string)
    requires '/' !in name
    ensures LastIndexOf(ResourcePathOf(name), ".class") == |name|
    ensures ClassNameOf(ResourcePathOf(name)) == name
  {
    var path := ResourcePathOf(name);
    assert |path| - |".class"| == |name|;
    ReplaceCharBack(name, '.', '/');
  }

  /** The package of a class name containing '.': what precedes its last '.'. */
  function PackageOf(name: string): (pkg: string)
    requires '.' in name
    ensures |pkg| < |name| && pkg == name[..|pkg|] && name[|pkg|] == '.'
    ensures '.' !in name[|pkg| + 1..]
  {
    LastIndexOfChar(name, '.');
    var i := LastIndexOf(name, ".");
    var tail := name[i + 1..];
    assert forall j | 0 <= j < |tail| :: tail[j] == name[i + 1 + j];
    name[..i]
  }

  /** A package name joined to a simple class name gives the package back. */
  lemma PackageOfQualifiedName(pkg: string, simple: string)
    requires '.' !in simple
    ensures '.' in pkg + "." + simple
    ensures PackageOf(pkg + "." + simple) == pkg
  {
    var name := pkg + "." + simple;
    assert name[|pkg|] == '.';
  }

  /** Whether `path` ends with `suffix`. */
  predicate EndsWith(path: string, suffix: string) {
    |suffix| <= |path| && OccursAt(path, suffix, |path| - |suffix|)
  }

  /** A class-path lookup: the bytecode, nothing, or the out-of-bounds error of a path without ".class". */
  datatype ByteCodeLookup = Found(code: ByteCode) | NotFound | BadPath

  /** No class loader is one of the cache's stores, so updating those stores leaves loaders alone. */
  lemma NotStores(cache: Cache.Cache, s: set<MemoryClassLoader>)
    ensures forall o | o in s :: o !in cache.ClassLoaderStores()
  {
  }

  /**
   * `addByteCode0` on the staging map: `code` is staged under `name`,
   * replacing what was staged there, unless a class of that name is defined.
   */
  function Stage(staged: map<string, ByteCode>, defined: set<string>, name: string, code: ByteCode): (r: map<string, ByteCode>)
    ensures name in defined ==> r == staged
    ensures name !in defined ==> name in r && r[name] == code
    ensures forall n | n != name :: (n in r <==> n in staged) && (n in staged ==> r[n] == staged[n])
    ensures staged.Keys !! defined ==> r.Keys !! defined
  {
    if name in defined then staged else staged[name := code]
  }

  /** `addByteCodes(Map)` on the staging map: every entry whose class is not defined is staged. */
  function StageAll(staged: map<string, ByteCode>, defined: set<string>, codes: map<string, ByteCode>): (r: map<string, ByteCode>)
    ensures r.Keys == staged.Keys + (codes.Keys - defined)
    ensures forall n | n in codes && n !in defined :: r[n] == codes[n]
    ensures forall n | n in staged && (n !in codes || n in defined) :: r[n] == staged[n]
    ensures staged.Keys !! defined ==> r.Keys !! defined
  {
    staged + map n | n in codes && n !in defined :: codes[n]
  }

  /**
   * Staging one entry of a map and then the rest gives the same as staging
   * the whole map, whichever entry goes first: the iteration order of the
   * map does not matter.
   */
  lemma StageAllStep(staged: map<string, ByteCode>, defined: set<string>, codes: map<string, ByteCode>, name: string)
    requires name in codes
    ensures StageAll(Stage(staged, defined, name, codes[name]), defined, codes - {name}) == StageAll(staged, defined, codes)
  {
    var left := StageAll(Stage(staged, defined, name, codes[name]), defined, codes - {name});
    var right := StageAll(staged, defined, codes);
    forall n
      ensures n in left <==> n in right
      ensures n in left ==> left[n] == right[n]
    {
    }
  }

  /** Staging an empty map changes nothing. */
  lemma StageNothing(staged: map<string, ByteCode>, defined: set<string>, codes: map<string, ByteCode>)
    requires codes == map[]
    ensures StageAll(staged, defined, codes) == staged
  {
    assert (map n | n in codes && n !in defined :: codes[n]) == map[];
  }

  /** Taking a present key out of a map shrinks it by one. */
  lemma RemoveOneSize<K, V>(m: map<K, V>, k: K)
    requires k in m
    ensures |m - {k}| == |m| - 1
  {
    assert m.Keys == (m - {k}).Keys + {k};
  }

  /** `addByteCodes(Collection)` and `addByteCodes(Entry...)`: the entries staged one after the other. */
  function StageEach(staged: map<string, ByteCode>, defined: set<string>, entries: seq<(string, ByteCode)>): (r: map<string, ByteCode>)
    ensures staged.Keys !! defined ==> r.Keys !! defined
    decreases |entries|
  {
    if entries == [] then staged
    else StageEach(Stage(staged, defined, entries[0].0, entries[0].1), defined, entries[1..])
  }

  /** Staging entries leaves alone a name that is defined or has no entry. */
  lemma {:induction false} StageEachUntouched(staged: map<string, ByteCode>, defined: set<string>, entries: seq<(string, ByteCode)>, name: string)
    requires name in defined || forall i | 0 <= i < |entries| :: entries[i].0 != name
    ensures name in StageEach(staged, defined, entries) <==> name in staged
    ensures name in staged ==> StageEach(staged, defined, entries)[name] == staged[name]
    decreases |entries|
  {
    if entries != [] {
      assert name in defined || forall i | 0 <= i < |entries[1..]| :: entries[1..][i].0 != name by {
        assert forall i | 0 <= i < |entries[1..]| :: entries[1..][i] == entries[i + 1];
      }
      StageEachUntouched(Stage(staged, defined, entries[0].0, entries[0].1), defined, entries[1..], name);
    }
  }

  /** After staging entries, a name that is not defined holds the bytecode of its last entry. */
  lemma {:induction false} StageEachLastWins(staged: map<string, ByteCode>, defined: set<string>, entries: seq<(string, ByteCode)>, i: nat)
    requires i < |entries| && entries[i].0 !in defined
    requires forall j | i < j < |entries| :: entries[j].0 != entries[i].0
    ensures entries[i].0 in StageEach(staged, defined, entries)
    ensures StageEach(staged, defined, entries)[entries[i].0] == entries[i].1
    decreases |entries|
  {
    var next := Stage(staged, defined, entries[0].0, entries[0].1);
    assert forall k | 0 <= k < |entries[1..]| :: entries[1..][k] == entries[k + 1];
    if i == 0 {
      StageEachUntouched(next, defined, entries[1..], entries[0].0);
    } else {
      StageEachLastWins(next, defined, entries[1..], i - 1);
    }
  }

  /** No two entries name the same class. */
  predicate DistinctNames(entries: seq<(string, ByteCode)>) {
    forall i, j | 0 <= i < j < |entries| :: entries[i].0 != entries[j].0
  }

  /** The map holding the given entries, the first entry of a name winning. */
  function EntriesMap(entries: seq<(string, ByteCode)>): (r: map<string, ByteCode>)
    ensures r.Keys == set i | 0 <= i < |entries| :: entries[i].0
    decreases |entries|
  {
    if entries == [] then map[]
    else
      var r := EntriesMap(entries[1..])[entries[0].0 := entries[0].1];
      assert forall i | 0 < i < |entries| :: entries[1..][i - 1] == entries[i];
      r
  }

  /**
   * Staging entries with distinct names in order gives the same as staging
   * them as a map: the `Collection` and `Entry...` overloads of
   * `addByteCodes` agree with the `Map` one.
   */
  lemma {:induction false} StageEachIsStageAll(staged: map<string, ByteCode>, defined: set<string>, entries: seq<(string, ByteCode)>)
    requires DistinctNames(entries)
    ensures StageEach(staged, defined, entries) == StageAll(staged, defined, EntriesMap(entries))
    decreases |entries|
  {
    if entries == [] {
      StageNothing(staged, defined, EntriesMap(entries));
    } else {
      var name, code := entries[0].0, entries[0].1;
      var rest := entries[1..];
      assert forall i | 0 <= i < |rest| :: rest[i] == entries[i + 1];
      assert DistinctNames(rest);
      StageEachIsStageAll(Stage(staged, defined, name, code), defined, rest);
      var codes, restCodes := EntriesMap(entries), EntriesMap(rest);
      assert name !in restCodes by {
        assert forall i | 0 <= i < |rest| :: rest[i].0 != name;
      }
      StageAllStep(staged, defined, codes, name);
      UpdateThenRemove(restCodes, name, code);
    }
  }

  /** Adding a new key and taking it out again gives the map back. */
  lemma UpdateThenRemove<K, V>(m: map<K, V>, k: K, v: V)
    requires k !in m
    ensures m[k := v] - {k} == m
  {
  }

  /** The packages `definePackageOf` defines for a class: the part of its name before the last '.', if any. */
  function PackagesOf(name: string): (r: set<string>)
    ensures |r| <= 1
    ensures r == {} <==> '.' !in name
  {
    if '.' in name then {PackageOf(name)} else {}
  }

  /**
   * How `findClass` ends on a loader that is open or closed and has or has
   * not staged bytecode for the class, given what the JVM makes of that
   * bytecode.
   */
  function FindOutcome(closed: bool, staged: bool, definition: Definition): (r: LoadResult)
    ensures r.Loaded? <==> !closed && staged && definition.Defines?
    ensures r == ClassNotFound <==> closed || !staged
    ensures r.NoClassDefFound? ==> definition == MissingDependency(r.missing)
  {
    if closed || !staged then ClassNotFound
    else match definition
      case Defines => Loaded
      case MissingDependency(missing) => NoClassDefFound(missing)
      case Rejected => DefinitionFailed
  }

  /** The staged classes that `forceCompiledClassesLoading` defines in this loader. */
  function DefinedHere(staged: map<string, ByteCode>, parentFinds: string -> bool, definitions: string -> Definition): (r: set<string>)
    ensures r <= staged.Keys
    ensures forall n | n in staged :: n in r <==> !parentFinds(n) && definitions(n).Defines?
  {
    set n | n in staged && !parentFinds(n) && definitions(n).Defines?
  }

  /** The staged classes that stay staged through `forceCompiledClassesLoading`: the JVM refused them outright. */
  function KeptStaged(staged: map<string, ByteCode>, parentFinds: string -> bool, definitions: string -> Definition): (r: set<string>)
    ensures r <= staged.Keys
    ensures forall n | n in staged :: n in r <==> !parentFinds(n) && definitions(n).Rejected?
  {
    set n | n in staged && !parentFinds(n) && definitions(n).Rejected?
  }

  /** The entries of `m` whose keys are in `keys`. */
  function Restrict(m: map<string, ByteCode>, keys: set<string>): (r: map<string, ByteCode>)
    ensures r.Keys == m.Keys * keys
    ensures forall n | n in r :: r[n] == m[n]
  {
    map n | n in m && n in keys :: m[n]
  }

  /** Restricting to one more key adds that key's entry, also on top of other entries. */
  lemma RestrictAdd(base: map<string, ByteCode>, m: map<string, ByteCode>, keys: set<string>, name: string)
    requires name in m
    ensures base + Restrict(m, keys + {name}) == (base + Restrict(m, keys))[name := m[name]]
  {
    var left := base + Restrict(m, keys + {name});
    var right := (base + Restrict(m, keys))[name := m[name]];
    assert left.Keys == right.Keys;
    forall n | n in left
      ensures left[n] == right[n]
    {
    }
  }

  /** Moving one element from `todo` to `done` keeps them a partition of `all`. */
  lemma MoveOne<T>(todo: set<T>, done: set<T>, all: set<T>, x: T)
    requires todo + done == all && todo !! done && x in todo
    ensures (todo - {x}) + (done + {x}) == all && (todo - {x}) !! (done + {x})
  {
  }

  /** Set union is associative. */
  lemma UnionAssoc<T>(a: set<T>, b: set<T>, c: set<T>)
    ensures a + (b + c) == (a + b) + c
  {
  }

  /** How one more element of `done` shows in its intersection with, and difference from, `s`. */
  lemma AddOne<T>(s: set<T>, done: set<T>, x: T)
    ensures s * (done + {x}) == if x in s then s * done + {x} else s * done
    ensures done + {x} - s == if x in s then done - s else (done - s) + {x}
  {
  }

  /** The packages of a set of classes. */
  function PackagesOfAll(names: set<string>): (r: set<string>)
    ensures forall n | n in names && '.' in n :: PackageOf(n) in r
    ensures forall p | p in r :: exists n | n in names && '.' in n :: p == PackageOf(n)
  {
    set n | n in names && '.' in n :: PackageOf(n)
  }

  /** The packages of one more class are those of the others and its own. */
  lemma PackagesOfAllAdd(names: set<string>, name: string)
    ensures PackagesOfAll(names + {name}) == PackagesOfAll(names) + PackagesOf(name)
  {
  }

  class MemoryClassLoader {
    /** Bytecode staged for classes not defined yet (`notLoadedByteCodes`). */
    var notLoaded: map<string, ByteCode>
    /** Bytecode of the classes this loader defined (`loadedByteCodes`). */
    var loaded: map<string, ByteCode>
    var clients: set<object>
    var isClosed: bool
    /** The JVM's record of the classes this loader defined. */
    var defined: set<string>
    /** The JVM's record of the packages this loader defined. */
    var packages: set<string>
    /** The parent loader when it is a memory class loader; null for any other parent. */
    const parent: MemoryClassLoader?
    ghost const ancestors: set<MemoryClassLoader>
    ghost const depth: nat

    /** `ancestors` is the chain of memory class loaders above this one, each shallower. */
    ghost predicate Linked()
      decreases depth
    {
      if parent == null then ancestors == {}
      else parent.depth < depth && ancestors == {parent} + parent.ancestors && parent.Linked()
    }

    /** Every loader above this one is shallower, so this loader is not among them. */
    lemma AncestorsAbove()
      requires Linked()
      ensures forall a | a in ancestors :: a.depth < depth
      ensures this !in ancestors
      decreases depth
    {
      if parent != null {
        parent.AncestorsAbove();
      }
    }

    /** A loader above this one is linked, and shallower. */
    lemma AncestorLinked(x: MemoryClassLoader)
      requires Linked() && x in ancestors
      ensures x.Linked() && x.depth < depth
      decreases depth
    {
      if x != parent {
        parent.AncestorLinked(x);
      }
    }

    /**
     * What a close cascade does to the loaders above this one, `gone` being
     * those it closed: each stays valid; a loader is in `gone` exactly when
     * it was open and is closed now; one that was closed already is
     * untouched; the JVM's records are kept; a loader left open keeps its
     * bytecode, and loses from its clients only its child on the chain, and
     * only when that child closed; and a loader closes exactly when it was
     * open, its child on the chain closed, and that child was its only client.
     */
    twostate predicate ChainAfter(gone: set<MemoryClassLoader>)
      reads ancestors
    {
      && (forall a | a in ancestors :: a.Valid())
      && (forall a | a in ancestors :: a in gone <==> !old(a.isClosed) && a.isClosed)
      && (forall a | a in ancestors && old(a.isClosed) :: unchanged(a))
      && (forall a | a in ancestors :: a.defined == old(a.defined) && a.packages == old(a.packages))
      && (forall a | a in ancestors && a !in gone :: a.notLoaded == old(a.notLoaded) && a.loaded == old(a.loaded))
      && (forall a, b | a in ancestors && b in ancestors && b.parent == a && !a.isClosed ::
            a.clients == old(a.clients) - (if b in gone then {b} else {}))
      && (forall a, b | a in ancestors && b in ancestors && b.parent == a ::
            a in gone <==> !old(a.isClosed) && b in gone && old(a.clients) <= {b})
    }

    /**
     * Staged classes are not defined, defined bytecode belongs to defined
     * classes, and a closed loader holds nothing (its maps and client set
     * are null in the source).
     */
    ghost predicate Valid()
      reads this
    {
      && notLoaded.Keys !! defined
      && loaded.Keys <= defined
      && (isClosed ==> notLoaded == map[] && loaded == map[] && clients == {})
      && packages == PackagesOfAll(defined)
    }

    /** This loader and every loader above it are valid. */
    ghost predicate ChainValid()
      reads this, ancestors
    {
      Valid() && forall a | a in ancestors :: a.Valid()
    }

    /** Only the staging map may have changed: the JVM's records and the defined bytecode are as they were. */
    twostate predicate SameDefinitions()
      reads this
    {
      loaded == old(loaded) && defined == old(defined) && packages == old(packages)
    }

    /** Nothing but the client set and the closed flag has changed. */
    twostate predicate SameClasses()
      reads this
    {
      notLoaded == old(notLoaded) && loaded == old(loaded) && defined == old(defined) && packages == old(packages)
    }

    /** A new, empty loader; it registers itself as a client of a memory class loader parent. */
    constructor(parent: MemoryClassLoader?)
      requires parent != null ==> parent.Linked() && parent.ChainValid()
      modifies parent
      ensures Linked() && ChainValid() && this.parent == parent
      ensures notLoaded == map[] && loaded == map[] && clients == {} && !isClosed
      ensures defined == {} && packages == {}
      ensures parent != null ==> parent.SameClasses() && parent.isClosed == old(parent.isClosed)
      ensures parent != null ==>
        parent.clients == old(parent.clients) + (if parent.isClosed then {} else {this})
    {
      this.parent := parent;
      if parent == null {
        ancestors := {};
        depth := 0;
      } else {
        ancestors := {parent} + parent.ancestors;
        depth := parent.depth + 1;
      }
      notLoaded := map[];
      loaded := map[];
      clients := {};
      isClosed := false;
      defined := {};
      packages := {};
      new;
      if parent != null {
        parent.AncestorsAbove();
        var _ := parent.Register(this);
      }
    }

    /** Adds `client` and answers true when the loader is open; a closed loader refuses and is unchanged. */
    method Register(client: object) returns (ok: bool)
      requires Valid()
      modifies this
      ensures Valid() && SameClasses() && isClosed == old(isClosed)
      ensures ok <==> !isClosed
      ensures clients == old(clients) + (if ok then {client} else {})
    {
      if !isClosed {
        clients := clients + {client};
        ok := true;
      } else {
        ok := false;
      }
    }

    /**
     * `addByteCode`: stages `code` under `name` unless a class of that name
     * is defined; on a closed loader nothing happens (the source logs).
     */
    method AddByteCode(name: string, code: ByteCode)
      requires Valid()
      modifies this`notLoaded
      ensures Valid()
      ensures notLoaded == if isClosed then old(notLoaded) else Stage(old(notLoaded), defined, name, code)
    {
      if !isClosed {
        notLoaded := Stage(notLoaded, defined, name, code);
      }
    }

    /** `addByteCodes(Map)`: stages each entry in turn; on a closed loader nothing happens. */
    method AddByteCodes(byteCodes: map<string, ByteCode>)
      requires Valid()
      modifies this`notLoaded
      ensures Valid()
      ensures notLoaded == if isClosed then old(notLoaded) else StageAll(old(notLoaded), defined, byteCodes)
    {
      var rest := byteCodes;
      while rest != map[]
        invariant Valid()
        invariant isClosed ==> notLoaded == old(notLoaded)
        invariant !isClosed ==> StageAll(notLoaded, defined, rest) == StageAll(old(notLoaded), defined, byteCodes)
        decreases |rest|
      {
        var name :| name in rest;
        StageAllStep(notLoaded, defined, rest, name);
        AddByteCode(name, rest[name]);
        RemoveOneSize(rest, name);
        rest := rest - {name};
      }
      StageNothing(notLoaded, defined, rest);
    }

    /** `addByteCodes(Collection)` and `addByteCodes(Entry...)`: stages the entries in order. */
    method AddByteCodeEntries(entries: seq<(string, ByteCode)>)
      requires Valid()
      modifies this`notLoaded
      ensures Valid()
      ensures notLoaded == if isClosed then old(notLoaded) else StageEach(old(notLoaded), defined, entries)
    {
      var i := 0;
      while i < |entries|
        invariant i <= |entries|
        invariant Valid()
        invariant isClosed ==> notLoaded == old(notLoaded)
        invariant !isClosed ==> StageEach(notLoaded, defined, entries[i..]) == StageEach(old(notLoaded), defined, entries)
      {
        assert entries[i..][1..] == entries[i + 1..];
        AddByteCode(entries[i].0, entries[i].1);
        i := i + 1;
      }
    }

    /** `getNotLoadedByteCode`: the staged entry for `name`, found by a scan of the staged entries. */
    method GetNotLoadedByteCode(name: string) returns (r: Option<(string, ByteCode)>)
      ensures r == if !isClosed && name in notLoaded then Some((name, notLoaded[name])) else None
    {
      r := None;
      if isClosed {
        return;
      }
      var rest := notLoaded.Keys;
      while rest != {}
        invariant rest <= notLoaded.Keys
        invariant name in notLoaded ==> name in rest
        decreases rest
      {
        var key :| key in rest;
        if key == name {
          return Some((key, notLoaded[key]));
        }
        rest := rest - {key};
      }
    }

    /** `getByteCodeOf`: the staged bytecode of a class, else its defined bytecode. */
    function ByteCodeOf(name: string): (r: Option<ByteCode>)
      reads this
      ensures r.Some? <==> !isClosed && (name in notLoaded || name in loaded)
      ensures r.Some? && name in notLoaded ==> r.value == notLoaded[name]
      ensures r.Some? && name !in notLoaded ==> r.value == loaded[name]
    {
      if isClosed then None
      else if name in notLoaded then Some(notLoaded[name])
      else if name in loaded then Some(loaded[name])
      else None
    }

    /**
     * `getByteCode`: the bytecode for a class-file path, defined bytecode
     * first. A path without ".class" makes the source throw on an open
     * loader; a closed loader finds nothing.
     */
    function GetByteCode(path: string): (r: ByteCodeLookup)
      reads this
      ensures r.BadPath? <==> !isClosed && LastIndexOf(path, ".class") < 0
      ensures r.Found? ==> !isClosed && LastIndexOf(path, ".class") >= 0
      ensures r.Found? ==> ClassNameOf(path) in loaded || ClassNameOf(path) in notLoaded
      ensures r.Found? && ClassNameOf(path) in loaded ==> r.code == loaded[ClassNameOf(path)]
      ensures r.Found? && ClassNameOf(path) !in loaded ==> r.code == notLoaded[ClassNameOf(path)]
      ensures !isClosed && LastIndexOf(path, ".class") >= 0 ==>
        (ClassNameOf(path) in loaded || ClassNameOf(path) in notLoaded ==> r.Found?)
    {
      if isClosed then NotFound
      else if LastIndexOf(path, ".class") < 0 then BadPath
      else
        var name := ClassNameOf(path);
        if name in loaded then Found(loaded[name])
        else if name in notLoaded then Found(notLoaded[name])
        else NotFound
    }

    /** `getByteCodeAsInputStream`: the bytecode behind a path ending in ".class", if any. */
    function GetByteCodeAsInputStream(path: string): (r: Option<ByteCode>)
      reads this
      ensures EndsWith(path, ".class") ==> !GetByteCode(path).BadPath?
      ensures r.Some? <==> EndsWith(path, ".class") && GetByteCode(path).Found?
    {
      if EndsWith(path, ".class") && GetByteCode(path).Found? then Some(GetByteCode(path).code) else None
    }

    /**
     * The two lookups agree on a valid loader: no class is both staged and
     * defined, so the order in which they search does not matter, and the
     * class-file path of a name leads back to that name.
     */
    lemma ResourceLookupIsByteCodeOf(name: string)
      requires Valid() && '/' !in name
      ensures GetByteCodeAsInputStream(ResourcePathOf(name)) == ByteCodeOf(name)
    {
      ClassNameOfResourcePath(name);
      var path := ResourcePathOf(name);
      assert EndsWith(path, ".class");
    }

    /**
     * `hasPackageBeenDefined`: the unnamed package, or one this loader
     * defined, which is the package of some dotted class it defined.
     */
    function HasPackageBeenDefined(pkg: string): (b: bool)
      reads this
      ensures |pkg| == 0 ==> b
      ensures Valid() ==> (b <==> |pkg| == 0 || exists n | n in defined && '.' in n :: PackageOf(n) == pkg)
    {
      |pkg| == 0 || pkg in packages
    }

    /** `removeNotLoadedCompiledClass`: un-stages a class; on a closed loader nothing happens. */
    method RemoveNotLoadedCompiledClass(name: string)
      requires Valid()
      modifies this`notLoaded
      ensures Valid()
      ensures notLoaded == if isClosed then old(notLoaded) else old(notLoaded) - {name}
    {
      if !isClosed {
        notLoaded := notLoaded - {name};
      }
    }

    /**
     * `_defineClass` once the JVM has accepted the bytecode, followed by
     * `definePackageOf`: the class is defined, its bytecode kept, its staged
     * entry dropped and its package defined.
     */
    method DefineClass(name: string, code: ByteCode)
      requires Valid() && !isClosed
      modifies this`defined, this`loaded, this`notLoaded, this`packages
      ensures Valid()
      ensures defined == old(defined) + {name} && loaded == old(loaded)[name := code]
      ensures notLoaded == old(notLoaded) - {name} && packages == old(packages) + PackagesOf(name)
    {
      defined := defined + {name};
      loaded := loaded[name := code];
      notLoaded := notLoaded - {name};
      packages := packages + PackagesOf(name);
    }

    /**
     * `findClass`: defines a class from its staged bytecode. A closed loader,
     * or one with nothing staged for the class, throws ClassNotFoundException.
     * When the JVM reports a missing dependency the staged entry is dropped
     * and the error rethrown; any other refusal is rethrown as it is.
     */
    method FindClass(name: string, definition: Definition) returns (r: LoadResult)
      requires Valid()
      modifies this`defined, this`loaded, this`notLoaded, this`packages
      ensures Valid()
      ensures r == FindOutcome(isClosed, name in old(notLoaded), definition)
      ensures r.Loaded? ==>
        && defined == old(defined) + {name} && loaded == old(loaded)[name := old(notLoaded)[name]]
        && notLoaded == old(notLoaded) - {name} && packages == old(packages) + PackagesOf(name)
      ensures r.NoClassDefFound? ==> SameDefinitions() && notLoaded == old(notLoaded) - {name}
      ensures !r.Loaded? && !r.NoClassDefFound? ==> SameClasses()
    {
      r := FindOutcome(isClosed, name in notLoaded, definition);
      if r.Loaded? {
        DefineClass(name, notLoaded[name]);
      } else if r.NoClassDefFound? {
        RemoveNotLoadedCompiledClass(name);
      }
    }

    /**
     * `loadClass`: a class this loader defined, or one the parent side
     * finds, is loaded without `findClass`; otherwise `findClass` decides.
     * A loaded class is no longer staged.
     */
    method LoadClass(name: string, parentFinds: bool, definition: Definition) returns (r: LoadResult)
      requires Valid()
      modifies this`defined, this`loaded, this`notLoaded, this`packages
      ensures Valid()
      ensures r == if name in old(defined) || parentFinds then Loaded else FindOutcome(isClosed, name in old(notLoaded), definition)
      ensures r.Loaded? && (name in old(defined) || parentFinds) ==>
        SameDefinitions() && notLoaded == if isClosed then old(notLoaded) else old(notLoaded) - {name}
      ensures r.Loaded? && !(name in old(defined) || parentFinds) ==>
        && defined == old(defined) + {name} && loaded == old(loaded)[name := old(notLoaded)[name]]
        && notLoaded == old(notLoaded) - {name} && packages == old(packages) + PackagesOf(name)
      ensures r.NoClassDefFound? ==> SameDefinitions() && notLoaded == old(notLoaded) - {name}
      ensures !r.Loaded? && !r.NoClassDefFound? ==> SameClasses()
      ensures r.Loaded? ==> name !in notLoaded
    {
      if name in defined || parentFinds {
        r := Loaded;
      } else {
        r := FindClass(name, definition);
      }
      if r.Loaded? {
        RemoveNotLoadedCompiledClass(name);
      }
    }

    /**
     * One round of `forceCompiledClassesLoading`: `loadClass` on a staged
     * class with whatever it throws caught; answers whether it loaded.
     */
    method LoadStaged(name: string, parentFinds: bool, definition: Definition) returns (loadedIt: bool)
      requires Valid() && !isClosed && name in notLoaded
      modifies this`defined, this`loaded, this`notLoaded, this`packages
      ensures Valid()
      ensures loadedIt <==> parentFinds || definition.Defines?
      ensures notLoaded == if !parentFinds && definition.Rejected? then old(notLoaded) else old(notLoaded) - {name}
      ensures !parentFinds && definition.Defines? ==>
        && defined == old(defined) + {name} && loaded == old(loaded)[name := old(notLoaded)[name]]
        && packages == old(packages) + PackagesOf(name)
      ensures parentFinds || !definition.Defines? ==> SameDefinitions()
    {
      var result := LoadClass(name, parentFinds, definition);
      loadedIt := result.Loaded?;
    }

    /**
     * `forceCompiledClassesLoading`: loads every staged class, skipping the
     * ones that fail, and answers the classes it loaded. On a closed loader
     * copying the staged map throws (`None`). Afterwards only the classes
     * the JVM rejected outright are still staged.
     */
    method ForceCompiledClassesLoading(parentFinds: string -> bool, definitions: string -> Definition)
      returns (r: Option<set<string>>)
      requires Valid()
      modifies this`defined, this`loaded, this`notLoaded, this`packages
      ensures Valid()
      ensures r.Some? <==> !isClosed
      ensures isClosed ==> SameClasses()
      ensures r.Some? ==> r.value == set n | n in old(notLoaded) && (parentFinds(n) || definitions(n).Defines?)
      ensures !isClosed ==> notLoaded == old(notLoaded) - (old(notLoaded).Keys - KeptStaged(old(notLoaded), parentFinds, definitions))
      ensures !isClosed ==> defined == old(defined) + DefinedHere(old(notLoaded), parentFinds, definitions)
      ensures !isClosed ==> loaded == old(loaded) + Restrict(old(notLoaded), DefinedHere(old(notLoaded), parentFinds, definitions))
      ensures !isClosed ==> packages == old(packages) + PackagesOfAll(DefinedHere(old(notLoaded), parentFinds, definitions))
    {
      if isClosed {
        return None;
      }
      var snapshot := notLoaded;
      ghost var kept := KeptStaged(snapshot, parentFinds, definitions);
      ghost var here := DefinedHere(snapshot, parentFinds, definitions);
      ghost var found := set n | n in snapshot && (parentFinds(n) || definitions(n).Defines?);
      var todo := snapshot.Keys;
      ghost var done: set<string> := {};
      var classes: set<string> := {};
      while todo != {}
        invariant Valid() && !isClosed
        invariant todo + done == snapshot.Keys && todo !! done
        invariant notLoaded == snapshot - (done - kept)
        invariant defined == old(defined) + here * done
        invariant loaded == old(loaded) + Restrict(snapshot, here * done)
        invariant packages == old(packages) + PackagesOfAll(here * done)
        invariant classes == found * done
        decreases todo
      {
        var name :| name in todo;
        assert name in found <==> parentFinds(name) || definitions(name).Defines?;
        assert name in here <==> !parentFinds(name) && definitions(name).Defines?;
        assert name in kept <==> !parentFinds(name) && definitions(name).Rejected?;
        var loadedIt := LoadStaged(name, parentFinds(name), definitions(name));
        if loadedIt {
          classes := classes + {name};
        }
        AddOne(found, done, name);
        AddOne(here, done, name);
        if name in here {
          UnionAssoc(old(defined), here * done, {name});
          RestrictAdd(old(loaded), snapshot, here * done, name);
          PackagesOfAllAdd(here * done, name);
          UnionAssoc(old(packages), PackagesOfAll(here * done), PackagesOf(name));
        }
        AddOne(kept, done, name);
        if name !in kept {
          Cache.SubtractTwice(snapshot, done - kept, {name});
        }
        MoveOne(todo, done, snapshot.Keys, name);
        todo := todo - {name};
        done := done + {name};
      }
      assert here * done == here && found * done == found;
      r := Some(classes);
    }

    /** `clear`: drops staged and defined bytecode (the JVM keeps its classes); nothing happens on a closed loader. */
    method Clear()
      requires Valid()
      modifies this`notLoaded, this`loaded
      ensures Valid() && notLoaded == map[] && loaded == map[]
    {
      if !isClosed {
        notLoaded := map[];
        loaded := map[];
      }
    }

    /** `unregister()`: removes this loader from the eight class-loader keyed caches. */
    method UnregisterFromCache(cache: Cache.Cache)
      requires cache.Valid()
      modifies cache.ClassLoaderStores()
      ensures Cache.OwnersRemoved(cache, {this})
    {
      var _ := cache.classLoaderForConstructors.Remove(this);
      var _ := cache.classLoaderForFields.Remove(this);
      var _ := cache.classLoaderForMethods.Remove(this);
      var _ := cache.uniqueKeyForFields.Remove(this);
      var _ := cache.uniqueKeyForConstructors.Remove(this);
      var _ := cache.uniqueKeyForMethods.Remove(this);
      var _ := cache.bindedFunctionalInterfaces.Remove(this);
      var _ := cache.uniqueKeyForExecutableAndMethodHandle.Remove(this);
    }

    /**
     * Removes `client` from an open loader, then closes the loader when
     * asked to and no client is left; answers whether it closed. A closed
     * loader is left as it is. When the removal leaves no client and
     * `close` is set, the client check of `close()` passes, so the loader
     * goes straight to `Shut`, which drops the whole client set.
     */
    method Unregister(client: object, close: bool, cache: Cache.Cache) returns (closed: bool, ghost gone: set<MemoryClassLoader>)
      requires Linked() && ChainValid() && cache.Valid()
      modifies this, ancestors, cache.ClassLoaderStores()
      decreases depth, 3
      ensures ChainValid() && defined == old(defined) && packages == old(packages)
      ensures closed <==> !old(isClosed) && close && old(clients) <= {client}
      ensures old(isClosed) ==> unchanged(this) && unchanged(ancestors)
      ensures !old(isClosed) && !closed ==>
        !isClosed && SameClasses() && clients == old(clients) - {client} && unchanged(ancestors)
      ensures closed ==> isClosed && notLoaded == map[] && loaded == map[] && clients == {}
      ensures gone <= {this} + ancestors && (this in gone <==> closed)
      ensures Cache.OwnersRemoved(cache, gone)
      ensures parent != null && !parent.isClosed ==> parent.clients == old(parent.clients) - (if closed then {this} else {})
      ensures parent != null ==> (parent.isClosed <==> old(parent.isClosed) || (closed && old(parent.clients) <= {this}))
      ensures ChainAfter(gone)
    {
      AncestorsAbove();
      NotStores(cache, {this} + ancestors);
      closed := false;
      gone := {};
      if !isClosed {
        if clients <= {client} && close {
          gone := Shut(cache);
          closed := true;
        } else {
          clients := clients - {client};
          ChainUntouched();
        }
      } else {
        ChainUntouched();
      }
    }

    /**
     * Releases this loader from a memory class loader parent with `close`
     * set: the parent drops it as a client and closes if no client is left,
     * which may cascade further up. `gone` is every loader closed here.
     */
    method ReleaseFromParent(cache: Cache.Cache) returns (ghost gone: set<MemoryClassLoader>)
      requires Linked() && cache.Valid() && forall a | a in ancestors :: a.Valid()
      modifies ancestors, cache.ClassLoaderStores()
      decreases depth, 0, 0
      ensures gone <= ancestors
      ensures parent != null ==> (parent.isClosed <==> old(parent.isClosed) || old(parent.clients) <= {this})
      ensures parent != null && !parent.isClosed ==> parent.clients == old(parent.clients) - {this}
      ensures Cache.OwnersRemoved(cache, gone)
      ensures ChainAfter(gone)
    {
      gone := {};
      if parent != null {
        var closed, g := parent.Unregister(this, true, cache);
        gone := g;
        KeptAboveParent(gone);
      }
    }

    /** The frame of the loaders above this one follows from the parent's frame and its own change. */
    twostate lemma KeptAboveParent(gone: set<MemoryClassLoader>)
      requires Linked() && parent != null
      requires parent.defined == old(parent.defined) && parent.packages == old(parent.packages)
      requires parent !in gone ==> parent.notLoaded == old(parent.notLoaded) && parent.loaded == old(parent.loaded)
      requires parent.parent != null && !parent.parent.isClosed ==>
        parent.parent.clients == old(parent.parent.clients) - (if parent in gone then {parent} else {})
      requires parent.parent != null ==>
        (parent.parent.isClosed <==> old(parent.parent.isClosed) || (parent in gone && old(parent.parent.clients) <= {parent}))
      requires parent.Valid() && (parent in gone <==> !old(parent.isClosed) && parent.isClosed)
      requires old(parent.isClosed) ==> unchanged(parent)
      requires parent.ChainAfter(gone)
      ensures ChainAfter(gone)
    {
      forall a | a in ancestors && a != parent
        ensures a.Valid() && (a in gone <==> !old(a.isClosed) && a.isClosed)
        ensures old(a.isClosed) ==> unchanged(a)
        ensures a.defined == old(a.defined) && a.packages == old(a.packages)
        ensures a !in gone ==> a.notLoaded == old(a.notLoaded) && a.loaded == old(a.loaded)
      {
        assert a in parent.ancestors;
      }
      LinksAboveParent(gone);
    }

    /**
     * Above the parent, the clients each loader lost and which loaders
     * closed follow from the parent's own cascade.
     */
    twostate lemma LinksAboveParent(gone: set<MemoryClassLoader>)
      requires Linked() && parent != null && parent.ChainAfter(gone)
      ensures forall a, b | a in ancestors && b in ancestors && b.parent == a && !a.isClosed && b != parent ::
        a.clients == old(a.clients) - (if b in gone then {b} else {})
      ensures forall a, b | a in ancestors && b in ancestors && b.parent == a && b != parent ::
        a in gone <==> !old(a.isClosed) && b in gone && old(a.clients) <= {b}
    {
      forall a, b | a in ancestors && b in ancestors && b.parent == a && b != parent
        ensures !a.isClosed ==> a.clients == old(a.clients) - (if b in gone then {b} else {})
        ensures a in gone <==> !old(a.isClosed) && b in gone && old(a.clients) <= {b}
      {
        assert b in parent.ancestors;
        parent.AncestorLinked(b);
        assert a in parent.ancestors;
      }
    }

    /** A chain nobody touched is what a cascade that closed nothing leaves. */
    twostate lemma ChainUntouched()
      requires unchanged(ancestors) && old(forall a | a in ancestors :: a.Valid())
      ensures ChainAfter({})
    {
    }

    /** Adding this loader to `gone` leaves the frame of the loaders above it as it was. */
    twostate lemma KeptAboveWithSelf(gone: set<MemoryClassLoader>)
      requires Linked() && ChainAfter(gone)
      ensures ChainAfter(gone + {this})
    {
      AncestorsAbove();
    }

    /** Marks the loader closed and drops its client set and both maps. */
    method MarkClosed()
      modifies this
      ensures isClosed && notLoaded == map[] && loaded == map[] && clients == {}
      ensures defined == old(defined) && packages == old(packages)
    {
      isClosed := true;
      clients := {};
      notLoaded := map[];
      loaded := map[];
    }

    /**
     * What closing does outside the loader: releases it from a memory class
     * loader parent, then removes it from the class-loader keyed caches.
     * `gone` is every loader above this one that closed on the way.
     */
    method Detach(cache: Cache.Cache) returns (ghost gone: set<MemoryClassLoader>)
      requires Linked() && cache.Valid() && forall a | a in ancestors :: a.Valid()
      modifies ancestors, cache.ClassLoaderStores()
      decreases depth, 0
      ensures gone <= ancestors
      ensures parent != null ==> (parent.isClosed <==> old(parent.isClosed) || old(parent.clients) <= {this})
      ensures parent != null && !parent.isClosed ==> parent.clients == old(parent.clients) - {this}
      ensures Cache.OwnersRemoved(cache, gone + {this})
      ensures ChainAfter(gone)
    {
      AncestorsAbove();
      NotStores(cache, {this} + ancestors);
      var fromParent := ReleaseFromParent(cache);
      UnregisterFromCache(cache);
      gone := fromParent;
      Cache.SubtractTwice(old(cache.classLoaderForFields.resources), fromParent, {this});
      Cache.SubtractTwice(old(cache.classLoaderForMethods.resources), fromParent, {this});
      Cache.SubtractTwice(old(cache.classLoaderForConstructors.resources), fromParent, {this});
      Cache.SubtractTwice(old(cache.uniqueKeyForFields.resources), fromParent, {this});
      Cache.SubtractTwice(old(cache.uniqueKeyForConstructors.resources), fromParent, {this});
      Cache.SubtractTwice(old(cache.uniqueKeyForMethods.resources), fromParent, {this});
      Cache.SubtractTwice(old(cache.bindedFunctionalInterfaces.resources), fromParent, {this});
      Cache.SubtractTwice(old(cache.uniqueKeyForExecutableAndMethodHandle.resources), fromParent, {this});
    }

    /**
     * `close()` once its client check has passed. The loader is marked
     * closed and emptied after the parent is released and the caches are
     * purged rather than before; neither the parent nor the caches read
     * this loader's state, so the outcome is the same.
     */
    method Shut(cache: Cache.Cache) returns (ghost gone: set<MemoryClassLoader>)
      requires Linked() && ChainValid() && cache.Valid()
      modifies this, ancestors, cache.ClassLoaderStores()
      decreases depth, 1
      ensures ChainValid() && defined == old(defined) && packages == old(packages)
      ensures isClosed && notLoaded == map[] && loaded == map[] && clients == {}
      ensures parent != null ==> (parent.isClosed <==> old(parent.isClosed) || old(parent.clients) <= {this})
      ensures parent != null && !parent.isClosed ==> parent.clients == old(parent.clients) - {this}
      ensures gone <= {this} + ancestors && this in gone
      ensures Cache.OwnersRemoved(cache, gone)
      ensures ChainAfter(gone)
    {
      AncestorsAbove();
      NotStores(cache, {this} + ancestors);
      var fromParent := Detach(cache);
      MarkClosed();
      KeptAboveWithSelf(fromParent);
      gone := fromParent + {this};
    }

    /**
     * Closes the loader unless clients remain (then it refuses and nothing
     * changes). Closing marks the loader closed, releases it from a memory
     * class loader parent, empties it and removes it from the class-loader
     * keyed caches. `gone` is every loader closed by this call.
     */
    method Close(cache: Cache.Cache) returns (ok: bool, ghost gone: set<MemoryClassLoader>)
      requires Linked() && ChainValid() && cache.Valid()
      modifies this, ancestors, cache.ClassLoaderStores()
      decreases depth, 2
      ensures ChainValid() && defined == old(defined) && packages == old(packages)
      ensures ok <==> old(clients) == {}
      ensures !ok ==> unchanged(this) && unchanged(ancestors)
      ensures ok ==> isClosed && notLoaded == map[] && loaded == map[] && clients == {}
      ensures ok && parent != null ==>
        (parent.isClosed <==> old(parent.isClosed) || old(parent.clients) <= {this})
      ensures ok && parent != null && !parent.isClosed ==> parent.clients == old(parent.clients) - {this}
      ensures gone <= {this} + ancestors && (this in gone <==> ok)
      ensures Cache.OwnersRemoved(cache, gone)
      ensures ChainAfter(gone)
    {
      if clients != {} {
        AncestorsAbove();
        return false, {};
      }
      ok := true;
      gone := Shut(cache);
    }
  }
}
