/**
 * The bookkeeping of the resource manager (pkg/core/resource/resource.go): reference-counted
 * resources keyed by their path, a path cache, registered loaders, and the size-limited
 * eviction of unreferenced resources. What a loader returns is a parameter of each call.
 */
module Resources {
  import opened Wrappers
  import Seqs

  type ResourceType = string

  /** The data a loader produced (Go `interface{}`), abstracted to a handle. */
  type Payload = int

  datatype ResourceState = Unloaded | Loading | Loaded | Error

  /** The errors the manager reports. */
  datatype ResourceError =
    | ResourceNotFound
    | NoLoader(resType: ResourceType)
    | LoadFailed(reason: string)
    | UnloadFailed(reason: string)

  /** A registered loader; its `Load` and `Unload` results are supplied per call. */
  datatype Loader = Loader(kind: ResourceType, handle: nat)

  /** Go `Resource`, without its lock. */
  class Resource {
    const ID: string
    const Path: string
    const Type: ResourceType
    var Data: Option<Payload>
    var State: ResourceState
    var RefCount: int
    /** Go's `Size` field, which nothing in the manager ever assigns. */
    const Size: int
    var Error: Option<string>

    /** The entry LoadSync creates: loading, one reference, no data, size 0. */
    constructor (path: string, resType: ResourceType)
      ensures ID == path && Path == path && Type == resType
      ensures Data == None && State == Loading && RefCount == 1 && Size == 0 && Error == None
    {
      ID := path;
      Path := path;
      Type := resType;
      Data := None;
      State := Loading;
      RefCount := 1;
      Size := 0;
      Error := None;
    }

    method AddRef()
      modifies this
      ensures RefCount == old(RefCount) + 1
      ensures State == old(State) && Data == old(Data) && Error == old(Error)
    {
      RefCount := RefCount + 1;
    }

    /** Drops one reference, but never below 0, and returns the new count. */
    method Release() returns (n: int)
      modifies this
      ensures n == RefCount
      ensures RefCount == if old(RefCount) > 0 then old(RefCount) - 1 else 0
      ensures old(RefCount) >= 0 ==> RefCount >= 0 && (RefCount == 0 <==> old(RefCount) <= 1)
      ensures State == old(State) && Data == old(Data) && Error == old(Error)
    {
      RefCount := RefCount - 1;
      if RefCount < 0 {
        RefCount := 0;
      }
      n := RefCount;
    }

    function GetRefCount(): (n: int)
      reads this
      ensures n == RefCount
    {
      RefCount
    }

    /** Only the Loaded state counts; Loading and Error entries are not loaded. */
    function IsLoaded(): (b: bool)
      reads this
      ensures b <==> State == Loaded
    {
      State == Loaded
    }
  }

  /** The sum of the sizes of the listed resources. */
  function SizeSum(rs: map<string, Resource>, ids: seq<string>): int
    requires forall i :: i in ids ==> i in rs
  {
    if ids == [] then 0 else SizeSum(rs, ids[..|ids| - 1]) + rs[ids[|ids| - 1]].Size
  }

  /** The paths of the listed resources. */
  function PathsOf(rs: map<string, Resource>, ids: seq<string>): set<string>
    requires forall i :: i in ids ==> i in rs
  {
    if ids == [] then {} else PathsOf(rs, ids[..|ids| - 1]) + {rs[ids[|ids| - 1]].Path}
  }

  /** One more id adds its path, its size and itself to what the list covers. */
  lemma AppendOne(rs: map<string, Resource>, ids: seq<string>, id: string)
    requires forall i :: i in ids ==> i in rs
    requires id in rs
    ensures forall i :: i in ids + [id] ==> i in rs
    ensures PathsOf(rs, ids + [id]) == PathsOf(rs, ids) + {rs[id].Path}
    ensures SizeSum(rs, ids + [id]) == SizeSum(rs, ids) + rs[id].Size
    ensures Seqs.Elems(ids + [id]) == Seqs.Elems(ids) + {id}
  {
    assert (ids + [id])[..|ids|] == ids;
  }

  /** Go `ResourceManager`, without its lock, its async queue and its workers. */
  class ResourceManager {
    var resources: map<string, Resource>
    var loaders: map<ResourceType, Loader>
    var cache: map<string, string>
    const autoUnload: bool
    const maxCacheSize: int
    var currentCacheSize: int
    const loadWorkers: nat
    /** Only Start and Stop of the load workers change this flag, and they are not modelled. */
    const running: bool

    /**
     * What the manager's own operations maintain: each resource is stored under its own path
     * as id, with a non-negative reference count and the size 0 (nothing assigns a size); the
     * cache maps exactly the stored paths to themselves; so the cache size stays 0.
     */
    ghost predicate Valid()
      reads this, resources.Values
    {
      && (forall id :: id in resources ==>
            resources[id].ID == id && resources[id].Path == id && resources[id].Size == 0 && resources[id].RefCount >= 0)
      && cache.Keys == resources.Keys
      && (forall p :: p in cache ==> cache[p] == p)
      && currentCacheSize == 0
    }

    /** `NewResourceManager`: 4 workers unless a positive number is given; everything empty. */
    constructor (loadWorkers: int, maxCacheSize: int)
      ensures Valid()
      ensures resources == map[] && loaders == map[] && cache == map[] && currentCacheSize == 0
      ensures autoUnload && this.maxCacheSize == maxCacheSize && !running
      ensures this.loadWorkers == if loadWorkers <= 0 then 4 else loadWorkers
    {
      resources := map[];
      loaders := map[];
      cache := map[];
      autoUnload := true;
      this.maxCacheSize := maxCacheSize;
      currentCacheSize := 0;
      this.loadWorkers := if loadWorkers <= 0 then 4 else loadWorkers;
      running := false;
    }

    /** Registers the loader under its type, replacing any earlier loader of that type. */
    method RegisterLoader(loader: Loader)
      modifies this
      ensures loaders == old(loaders)[loader.kind := loader]
      ensures resources == old(resources) && cache == old(cache) && currentCacheSize == old(currentCacheSize)
    {
      loaders := loaders[loader.kind := loader];
    }

    /** Whether LoadSync can answer from the cache: the path's resource is there and loaded. */
    predicate CacheHit(path: string)
      reads this, resources.Values
    {
      path in cache && cache[path] in resources && resources[cache[path]].IsLoaded()
    }

    /**
     * Loads path with the loader of resType, whose answer is `loaded`. A cached, loaded
     * resource just gains a reference and the loader is not asked. Without a loader nothing
     * is added. Otherwise a new entry with id = path and one reference replaces any old one
     * in both maps, and stays even when the loader fails (in the Error state). A loader may
     * succeed with no data (a nil payload), which leaves the entry Loaded without data.
     */
    method LoadSync(path: string, resType: ResourceType, loaded: Result<Option<Payload>, string>)
      returns (id: string, err: Outcome<ResourceError>)
      requires Valid()
      modifies this, resources.Values
      ensures Valid()
      ensures loaders == old(loaders)
      ensures old(CacheHit(path)) ==>
        && id == path && err == Pass
        && resources == old(resources) && cache == old(cache)
        && resources[path].RefCount == old(resources[path].RefCount) + 1
        && resources[path].State == Loaded
      ensures !old(CacheHit(path)) && resType !in loaders ==>
        && id == "" && err == Fail(NoLoader(resType))
        && resources == old(resources) && cache == old(cache)
      ensures !old(CacheHit(path)) && resType in loaders ==>
        && id == path && path in resources && fresh(resources[path])
        && resources == old(resources)[path := resources[path]]
        && cache == old(cache)[path := path]
        && resources[path].RefCount == 1 && resources[path].Type == resType
        && (loaded.Failure? ==>
              err == Fail(LoadFailed(loaded.error)) && resources[path].State == Error && resources[path].Error == Some(loaded.error))
        && (loaded.Success? ==>
              err == Pass && resources[path].State == Loaded && resources[path].Data == loaded.value)
      ensures forall r :: r in old(resources).Values && (path !in old(resources) || r != old(resources)[path]) ==> unchanged(r)
    {
      if path in cache {
        var cachedID := cache[path];
        if cachedID in resources && resources[cachedID].IsLoaded() {
          var res := resources[cachedID];
          res.AddRef();
          return cachedID, Pass;
        }
      }
      if resType !in loaders {
        return "", Fail(NoLoader(resType));
      }
      id, err := LoadEntry(path, resType, loaded);
    }

    /**
     * The miss path of LoadSync once a loader is known: a fresh entry under id = path with one
     * reference, in both maps, then marked Error or Loaded by the loader's answer; a load adds
     * the entry's size to the cache size and checks the limit.
     */
    method LoadEntry(path: string, resType: ResourceType, loaded: Result<Option<Payload>, string>)
      returns (id: string, err: Outcome<ResourceError>)
      requires Valid()
      modifies this
      ensures Valid()
      ensures loaders == old(loaders)
      ensures id == path && path in resources && fresh(resources[path])
      ensures resources == old(resources)[path := resources[path]]
      ensures cache == old(cache)[path := path]
      ensures resources[path].RefCount == 1 && resources[path].Type == resType
      ensures loaded.Failure? ==>
        err == Fail(LoadFailed(loaded.error)) && resources[path].State == Error && resources[path].Error == Some(loaded.error)
      ensures loaded.Success? ==>
        err == Pass && resources[path].State == Loaded && resources[path].Data == loaded.value
    {
      id := path;
      var resource := new Resource(path, resType);
      if loaded.Failure? {
        resource.State := Error;
        resource.Error := Some(loaded.error);
        Store(resource);
        return id, Fail(LoadFailed(loaded.error));
      }
      resource.Data := loaded.value;
      resource.State := Loaded;
      Store(resource);
      currentCacheSize := currentCacheSize + resource.Size;
      var _ := CheckCacheSize();
      err := Pass;
    }

    /** Files a new resource under its path as id, in both maps. */
    method Store(resource: Resource)
      requires Valid()
      requires resource.ID == resource.Path && resource.Size == 0 && resource.RefCount >= 0
      modifies this
      ensures Valid()
      ensures resources == old(resources)[resource.ID := resource]
      ensures cache == old(cache)[resource.Path := resource.ID]
      ensures loaders == old(loaders) && currentCacheSize == old(currentCacheSize)
    {
      resources := resources[resource.ID := resource];
      cache := cache[resource.Path := resource.ID];
    }

    /** The resource stored under id, or ResourceNotFound. */
    function Get(id: string): (r: Result<Resource, ResourceError>)
      reads this
      ensures r.Success? <==> id in resources
      ensures r.Success? ==> r.value == resources[id]
      ensures r.Failure? ==> r.error == ResourceNotFound
    {
      if id in resources then Success(resources[id]) else Failure(ResourceNotFound)
    }

    /**
     * Releases one reference to id. While references remain the entry stays; at 0 it leaves
     * both maps, its size leaves the cache size, and its loader (if any, and if it has data)
     * is asked to unload it, whose error (`unloadError`) is passed on.
     */
    method Unload(id: string, unloadError: Option<string>) returns (err: Outcome<ResourceError>)
      requires Valid()
      modifies this, resources.Values
      ensures Valid()
      ensures loaders == old(loaders)
      ensures id !in old(resources) ==>
        err == Fail(ResourceNotFound) && resources == old(resources) && cache == old(cache)
      ensures id in old(resources) && old(resources[id].RefCount) > 1 ==>
        && err == Pass && resources == old(resources) && cache == old(cache)
        && resources[id].RefCount == old(resources[id].RefCount) - 1
      ensures id in old(resources) && old(resources[id].RefCount) <= 1 ==>
        && resources == old(resources) - {id} && cache == old(cache) - {id}
        && var r := old(resources[id]);
           err == if r.Type in loaders && r.Data.Some? && unloadError.Some? then Fail(UnloadFailed(unloadError.value)) else Pass
      ensures forall r :: r in old(resources).Values && (id !in old(resources) || r != old(resources)[id]) ==> unchanged(r)
    {
      if id !in resources {
        return Fail(ResourceNotFound);
      }
      var resource := resources[id];
      var refCount := resource.Release();
      if refCount > 0 {
        return Pass;
      }
      cache := cache - {resource.Path};
      resources := resources - {id};
      currentCacheSize := currentCacheSize - resource.Size;
      if resource.Type in loaders && resource.Data.Some? {
        return if unloadError.Some? then Fail(UnloadFailed(unloadError.value)) else Pass;
      }
      return Pass;
    }

    /** The ids of the resources nobody references. */
    ghost function Unreferenced(): set<string>
      reads this, resources.Values
    {
      set id | id in resources && resources[id].RefCount == 0
    }

    /**
     * Go `checkCacheSize`: nothing happens when there is no limit (at most 0) or the cache is
     * within it. Otherwise unreferenced resources are evicted from both maps, in an unspecified
     * order, until the cache is within the limit or none is left. `evicted` lists them.
     */
    method CheckCacheSize() returns (evicted: seq<string>)
      modifies this
      ensures loaders == old(loaders)
      ensures Seqs.NoDup(evicted)
      ensures forall e :: e in evicted ==> e in old(resources) && old(resources[e].RefCount) == 0
      ensures old(maxCacheSize <= 0 || currentCacheSize <= maxCacheSize) ==>
        evicted == [] && resources == old(resources) && cache == old(cache) && currentCacheSize == old(currentCacheSize)
      ensures resources == old(resources) - Seqs.Elems(evicted)
      ensures cache == old(cache) - PathsOf(old(resources), evicted)
      ensures currentCacheSize == old(currentCacheSize) - SizeSum(old(resources), evicted)
      ensures forall k :: 0 <= k < |evicted| ==> old(currentCacheSize) - SizeSum(old(resources), evicted[..k]) > maxCacheSize
      ensures old(maxCacheSize > 0 && currentCacheSize > maxCacheSize) && currentCacheSize > maxCacheSize ==>
        forall e :: e in old(Unreferenced()) ==> e in evicted
      ensures old(Valid()) ==> evicted == [] && Valid()
    {
      evicted := [];
      if maxCacheSize <= 0 || currentCacheSize <= maxCacheSize {
        return;
      }
      var toUnload := CollectUnreferenced();
      evicted := EvictUntilWithin(toUnload);
      assert forall e :: e in evicted ==> e in toUnload;
      assert forall k :: 0 <= k < |evicted| ==> evicted[..k] == toUnload[..k];
    }

    /**
     * The second loop of `checkCacheSize`: evicts the listed resources in order while the cache
     * is over its limit; `evicted` is the prefix of them that went.
     */
    method EvictUntilWithin(toUnload: seq<string>) returns (evicted: seq<string>)
      requires Seqs.NoDup(toUnload)
      requires forall e :: e in toUnload ==> e in resources
      modifies this
      ensures loaders == old(loaders)
      ensures |evicted| <= |toUnload| && evicted == toUnload[..|evicted|]
      ensures resources == old(resources) - Seqs.Elems(evicted)
      ensures cache == old(cache) - PathsOf(old(resources), evicted)
      ensures currentCacheSize == old(currentCacheSize) - SizeSum(old(resources), evicted)
      ensures forall k :: 0 <= k < |evicted| ==> old(currentCacheSize) - SizeSum(old(resources), toUnload[..k]) > maxCacheSize
      ensures |evicted| < |toUnload| ==> currentCacheSize <= maxCacheSize
    {
      evicted := [];
      ghost var rs := resources;
      ghost var cs := cache;
      var i := 0;
      while i < |toUnload|
        invariant 0 <= i <= |toUnload| && evicted == toUnload[..i]
        invariant forall e :: e in evicted ==> e in rs
        invariant EvictedSoFar(rs, cs, old(currentCacheSize), evicted)
        invariant forall k :: 0 <= k < i ==> old(currentCacheSize) - SizeSum(rs, toUnload[..k]) > maxCacheSize
        invariant loaders == old(loaders)
      {
        if currentCacheSize <= maxCacheSize {
          break;
        }
        var id := toUnload[i];
        Seqs.NoDupNext(toUnload, i);
        assert old(currentCacheSize) - SizeSum(rs, toUnload[..i]) > maxCacheSize;
        EvictOne(id, rs, cs, old(currentCacheSize), evicted);
        evicted := evicted + [id];
        assert toUnload[..i + 1] == evicted;
        i := i + 1;
      }
    }

    /**
     * The state the eviction loop keeps: the maps and the cache size are those before the
     * loop (rs, cs, size0) without the ids in done.
     */
    ghost predicate EvictedSoFar(rs: map<string, Resource>, cs: map<string, string>, size0: int, done: seq<string>)
      reads this
      requires forall e :: e in done ==> e in rs
    {
      && resources == rs - Seqs.Elems(done)
      && cache == cs - PathsOf(rs, done)
      && currentCacheSize == size0 - SizeSum(rs, done)
    }

    /** One step of the eviction loop: id leaves both maps and its size leaves the cache size. */
    method EvictOne(id: string, ghost rs: map<string, Resource>, ghost cs: map<string, string>, ghost size0: int, ghost done: seq<string>)
      requires forall e :: e in done ==> e in rs
      requires id in rs && id !in done
      requires EvictedSoFar(rs, cs, size0, done)
      modifies this
      ensures forall e :: e in done + [id] ==> e in rs
      ensures EvictedSoFar(rs, cs, size0, done + [id])
      ensures loaders == old(loaders)
    {
      AppendOne(rs, done, id);
      var resource := resources[id];
      cache := cache - {resource.Path};
      resources := resources - {id};
      currentCacheSize := currentCacheSize - resource.Size;
    }

    /** The first loop of `checkCacheSize`: the unreferenced ids, each once, in map order. */
    method CollectUnreferenced() returns (ids: seq<string>)
      ensures Seqs.NoDup(ids)
      ensures forall e :: e in ids <==> e in Unreferenced()
    {
      ids := [];
      var todo := resources.Keys;
      while todo != {}
        invariant todo <= resources.Keys
        invariant Seqs.NoDup(ids)
        invariant forall e :: e in ids <==> e in resources && e !in todo && resources[e].RefCount == 0
        decreases todo
      {
        var id :| id in todo;
        if resources[id].GetRefCount() == 0 {
          Seqs.NoDupAppend(ids, id);
          ids := ids + [id];
        }
        todo := todo - {id};
      }
    }

    /**
     * Drops every resource, handing the ones with a loader and data to that loader, and
     * empties the cache; the cache size is reset to 0. `unloaded` lists the handed-over ids.
     */
    method Clear() returns (unloaded: seq<string>)
      requires Valid()
      modifies this
      ensures Valid()
      ensures resources == map[] && cache == map[] && currentCacheSize == 0 && loaders == old(loaders)
      ensures Seqs.NoDup(unloaded)
      ensures forall id :: id in unloaded <==>
        id in old(resources) && old(resources)[id].Type in loaders && old(resources)[id].Data.Some?
    {
      unloaded := [];
      ghost var rs := resources;
      while resources != map[]
        invariant resources.Keys <= rs.Keys && loaders == old(loaders)
        invariant forall id :: id in resources ==> resources[id] == rs[id]
        invariant Seqs.NoDup(unloaded)
        invariant forall id :: id in unloaded <==>
          id in rs && id !in resources && rs[id].Type in loaders && rs[id].Data.Some?
        decreases resources.Keys
      {
        var id :| id in resources;
        var resource := resources[id];
        if resource.Type in loaders && resource.Data.Some? {
          Seqs.NoDupAppend(unloaded, id);
          unloaded := unloaded + [id];
        }
        resources := resources - {id};
      }
      cache := map[];
      currentCacheSize := 0;
    }

    /** The number of entries, loaded or not (failed and loading entries count too). */
    function GetLoadedCount(): (n: nat)
      reads this
      ensures n == |resources|
    {
      |resources|
    }

    /** The tracked cache size; always 0 under the manager's own operations. */
    function GetCacheSize(): (n: int)
      reads this, resources.Values
      ensures n == currentCacheSize
      ensures Valid() ==> n == 0
    {
      currentCacheSize
    }
  }
}
