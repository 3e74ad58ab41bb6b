/** `AddressablesManager` and `AddressablesPreloader` as classes whose
    dictionaries are updated in place. Each method performs one step of the
    cache model in addressable_cache.dfy and is proved to agree with it:
    `Model() == Step(old(Model()), ...)`. The provider is represented by a
    counter of issued handles and ghost logs of its load and release calls. */
module Addressables {
  import opened Wrappers
  import opened AddressableCache

  class AddressablesManager {
    var assetRefInfos: map<string, AssetRefInfo>
    /** The keys of `removeCoutines`: the keys with a running removal coroutine. */
    var removeCoroutines: set<string>
    var preloadInfos: map<string, PreloadInfo>
    /** The id the provider gives its next handle. */
    var nextHandleId: nat
    ghost var loadCalls: seq<Handle>
    ghost var releaseCalls: seq<Handle>

    ghost predicate Valid()
      reads this
    {
      nextHandleId == |loadCalls|
    }

    ghost function Model(): Cache
      reads this
    {
      Cache(assetRefInfos, removeCoroutines, preloadInfos, loadCalls, releaseCalls)
    }

    constructor()
      ensures Valid() && Model() == Empty
    {
      assetRefInfos := map[];
      removeCoroutines := {};
      preloadInfos := map[];
      nextHandleId := 0;
      loadCalls := [];
      releaseCalls := [];
    }

    /** `_IsLoaded`. */
    predicate IsLoaded(key: string)
      reads this
    {
      key in assetRefInfos
    }

    // -------------------------------------------------------------------
    // Provider calls
    // -------------------------------------------------------------------

    method ProviderLoad() returns (h: Handle)
      requires Valid()
      modifies this
      ensures Valid() && Model() == Issue(old(Model())) && h == NextHandle(old(Model()))
    {
      h := Handle(nextHandleId);
      loadCalls := loadCalls + [h];
      nextHandleId := nextHandleId + 1;
    }

    method ProviderRelease(h: Handle)
      requires Valid()
      modifies this
      ensures Valid() && Model() == Release(old(Model()), h)
    {
      releaseCalls := releaseCalls + [h];
    }

    // -------------------------------------------------------------------
    // Timers
    // -------------------------------------------------------------------

    method CancelRemoveCoroutine(key: string)
      requires Valid()
      modifies this
      ensures Valid() && Model() == CancelTimer(old(Model()), key)
    {
      if key in removeCoroutines {
        removeCoroutines := removeCoroutines - {key};
      }
    }

    method StartRemoveCoroutine(key: string)
      requires Valid()
      modifies this
      ensures Valid() && Model() == ArmTimer(old(Model()), key)
    {
      if key in removeCoroutines { return; }
      if key !in assetRefInfos { return; }
      removeCoroutines := removeCoroutines + {key};
    }

    /** `_RemoveAsset` resuming after its delay. */
    method RemoveAssetCoroutine(key: string)
      requires Valid() && key in removeCoroutines
      modifies this
      ensures Valid() && Model() == FireTimer(old(Model()), key)
    {
      RemoveAssetRefInfo(key);
      removeCoroutines := removeCoroutines - {key};
    }

    // -------------------------------------------------------------------
    // Removal
    // -------------------------------------------------------------------

    method RemoveAssetRefInfo(key: string)
      requires Valid()
      modifies this
      ensures Valid() && Model() == RemoveInfo(old(Model()), key)
    {
      if key !in assetRefInfos { return; }
      var info := assetRefInfos[key];
      if !info.IsPreload() {
        if info.handle.Some? {
          ProviderRelease(info.handle.value);
        }
      } else {
        ReleasePreloadAsset(info.preloadKey, key);
      }
      assetRefInfos := assetRefInfos - {key};
    }

    /** `_ReleasePreloadAsset`. */
    method ReleasePreloadAsset(group: string, name: string)
      requires Valid()
      modifies this
      ensures Valid() && Model() == ReleasePreloadMember(old(Model()), group, name)
    {
      if group !in preloadInfos { return; }
      var info := preloadInfos[group];
      var rest := RemoveFirst(info.bundleNames, name);
      preloadInfos := preloadInfos[group := info.(bundleNames := rest)];
      if rest == [] {
        ProviderRelease(info.handle);
        preloadInfos := preloadInfos - {group};
      }
    }

    // -------------------------------------------------------------------
    // Acquire and release
    // -------------------------------------------------------------------

    method GetAsset(key: string) returns (asset: Asset)
      requires Valid()
      modifies this
      ensures Valid() && (Model(), asset) == AddressableCache.GetAsset(old(Model()), key)
    {
      if key !in assetRefInfos { return Null; }
      var info := assetRefInfos[key];
      assetRefInfos := assetRefInfos[key := info.AddRef()];
      CancelRemoveCoroutine(key);
      asset := info.result;
    }

    /** `GetPrefab`: `GetAsset` with the result cast to a prefab. */
    method GetPrefab(key: string) returns (prefab: Asset)
      requires Valid()
      modifies this
      ensures Valid() && (Model(), prefab) == AddressableCache.GetAsset(old(Model()), key)
    {
      prefab := GetAsset(key);
    }

    method ReleaseAsset(key: string, delayed: bool)
      requires Valid()
      modifies this
      ensures Valid() && Model() == AddressableCache.ReleaseAsset(old(Model()), key, delayed)
    {
      if key in assetRefInfos {
        assetRefInfos := assetRefInfos[key := assetRefInfos[key].RemoveRef()];
        if !assetRefInfos[key].IsUsed() {
          if delayed {
            StartRemoveCoroutine(key);
          } else {
            CancelRemoveCoroutine(key);
            RemoveAssetRefInfo(key);
          }
        }
      }
    }

    method ReleaseAssets(keys: seq<string>, delayed: bool)
      requires Valid()
      modifies this
      ensures Valid() && Model() == AddressableCache.ReleaseAssets(old(Model()), keys, delayed)
    {
      for i := 0 to |keys|
        invariant Valid()
        invariant AddressableCache.ReleaseAssets(Model(), keys[i..], delayed)
               == AddressableCache.ReleaseAssets(old(Model()), keys, delayed)
      {
        assert keys[i..][1..] == keys[i + 1..];
        ReleaseAsset(keys[i], delayed);
      }
    }

    // -------------------------------------------------------------------
    // Single loads
    // -------------------------------------------------------------------

    /** `LoadAssetAsync<T>(key)` and `LoadAssetsAsync<T>(tag)` up to their await. */
    method BeginLoadAsset(key: string) returns (start: LoadStart)
      requires Valid()
      modifies this
      ensures Valid() && (Model(), start) == BeginLoad(old(Model()), key)
    {
      if IsLoaded(key) {
        var info := assetRefInfos[key];
        assetRefInfos := assetRefInfos[key := info.AddRef()];
        CancelRemoveCoroutine(key);
        start := Hit(info.result);
      } else {
        var h := ProviderLoad();
        start := Pending(h);
      }
    }

    /** `LoadAssetAsync<T>(key)` after its await. */
    method CompleteLoadAsset(key: string, h: Handle, outcome: LoadOutcome) returns (ret: LoadReturn)
      requires Valid()
      modifies this
      ensures Valid() && (Model(), ret) == CompleteLoad(old(Model()), key, h, outcome)
    {
      match outcome
      case Canceled =>
        ret := LoadReturn.CanceledThrown;
      case Failed =>
        ProviderRelease(h);
        ret := Returned(Null);
      case Succeeded(result) =>
        if !IsLoaded(key) {
          assetRefInfos := assetRefInfos[key := LoadedInfo(key, h, result)];
          ret := Returned(result);
        } else {
          assetRefInfos := assetRefInfos[key := assetRefInfos[key].AddRef()];
          CancelRemoveCoroutine(key);
          ProviderRelease(h);
          ret := Returned(assetRefInfos[key].result);
        }
    }

    /** `LoadAssetsAsync<T>(tag)` after its await. */
    method CompleteLoadAssetsByTag(tag: string, h: Handle, outcome: LoadOutcome) returns (ret: LoadReturn)
      requires Valid()
      modifies this
      ensures Valid() && (Model(), ret) == CompleteLoadTag(old(Model()), tag, h, outcome)
    {
      match outcome
      case Canceled =>
        ret := LoadReturn.CanceledThrown;
      case Failed =>
        ProviderRelease(h);
        ret := Returned(Null);
      case Succeeded(result) =>
        if tag !in assetRefInfos {
          assetRefInfos := assetRefInfos[tag := LoadedInfo(tag, h, result)];
        } else {
          assetRefInfos := assetRefInfos[tag := assetRefInfos[tag].AddRef()];
          CancelRemoveCoroutine(tag);
        }
        ret := Returned(result);
    }

    // -------------------------------------------------------------------
    // List load
    // -------------------------------------------------------------------

    /** `LoadAssetsAsync<T>(names)` up to its `WhenAll`: the hits and the started loads. */
    method BeginLoadAssets(names: seq<string>) returns (results: map<string, Asset>, pending: seq<(string, Handle)>)
      requires Valid()
      modifies this
      ensures Valid() && (Model(), results, pending) == BeginLoadMany(old(Model()), names)
    {
      var ns := Distinct(names);
      results := map[];
      pending := [];
      for i := 0 to |ns|
        invariant Valid()
        invariant BeginLoadManyFrom(Model(), ns[i..], results, pending)
               == BeginLoadManyFrom(old(Model()), ns, map[], [])
      {
        assert ns[i..][1..] == ns[i + 1..];
        var n := ns[i];
        if n == "" { continue; }
        if IsLoaded(n) {
          var info := assetRefInfos[n];
          assetRefInfos := assetRefInfos[n := info.AddRef()];
          CancelRemoveCoroutine(n);
          results := results[n := info.result];
        } else {
          var h := ProviderLoad();
          pending := pending + [(n, h)];
        }
      }
    }

    /** `LoadAndRegisterAsync` after its await. */
    method CompleteLoadAndRegister(name: string, h: Handle, outcome: LoadOutcome) returns (asset: Asset)
      requires Valid()
      modifies this
      ensures Valid() && (Model(), asset) == CompleteLoadOne(old(Model()), name, h, outcome)
    {
      if !outcome.Succeeded? {
        ProviderRelease(h);
        return Null;
      }
      if name !in assetRefInfos {
        assetRefInfos := assetRefInfos[name := LoadedInfo(name, h, outcome.result)];
        asset := outcome.result;
      } else {
        assetRefInfos := assetRefInfos[name := assetRefInfos[name].AddRef()];
        ProviderRelease(h);
        asset := assetRefInfos[name].result;
      }
    }

    /** The loop after `WhenAll` that keeps the non-null loaded objects. */
    static method MergeLoadedAssets(results: map<string, Asset>, loaded: seq<(string, Asset)>)
      returns (merged: map<string, Asset>)
      ensures merged == MergeLoaded(results, loaded)
    {
      merged := results;
      for i := 0 to |loaded|
        invariant MergeLoaded(merged, loaded[i..]) == MergeLoaded(results, loaded)
      {
        assert loaded[i..][1..] == loaded[i + 1..];
        var (name, asset) := loaded[i];
        if asset != Null {
          merged := merged[name := asset];
        }
      }
    }

    // -------------------------------------------------------------------
    // Preload groups
    // -------------------------------------------------------------------

    /** `PreloadAsset` and `PreloadAssetByTag` up to their await. */
    method BeginPreloadAsset(key: string) returns (start: PreloadStart)
      requires Valid()
      modifies this
      ensures Valid() && (Model(), start) == BeginPreload(old(Model()), key)
    {
      if key in preloadInfos {
        return Joined;
      }
      var h := ProviderLoad();
      start := BatchPending(h);
    }

    /** `PreloadAsset(key, names)` after its await. */
    method CompletePreloadAsset(key: string, names: seq<string>, h: Handle, outcome: BatchOutcome)
      returns (ret: PreloadReturn)
      requires Valid()
      modifies this
      ensures Valid() && (Model(), ret) == CompletePreload(old(Model()), key, names, h, outcome)
    {
      match outcome
      case BatchCanceled =>
        return PreloadReturn.CanceledThrown;
      case BatchFailed =>
        ProviderRelease(h);
        return LoadFailedThrown;
      case BatchSucceeded(prefabs) =>
        for i := 0 to |names|
          invariant Valid()
          invariant PreloadInstallFrom(Model(), key, names, prefabs, i)
                 == PreloadInstallFrom(old(Model()), key, names, prefabs, 0)
        {
          var n := names[i];
          if n !in assetRefInfos {
            if i >= |prefabs| {
              return IndexOutOfRangeThrown;
            }
            assetRefInfos := assetRefInfos[n := PreloadedInfo(key, n, prefabs[i].1)];
          } else {
            assetRefInfos := assetRefInfos[n := assetRefInfos[n].AddRef()];
            CancelRemoveCoroutine(n);
          }
        }
        ret := AddPreloadInfo(key, names, h);
    }

    /** `preloadInfos.Add(key, new PreloadInfo(key, names, handle))`. */
    method AddPreloadInfo(key: string, names: seq<string>, h: Handle) returns (ret: PreloadReturn)
      requires Valid()
      modifies this
      ensures Valid() && (Model(), ret) == AddGroup(old(Model()), key, names, h)
    {
      if key in preloadInfos {
        return DuplicateGroupThrown;
      }
      preloadInfos := preloadInfos[key := PreloadInfo(key, names, h)];
      ret := Done;
    }

    /** `PreloadAssetByTag(key, tag)` after its await. */
    method CompletePreloadAssetByTag(key: string, h: Handle, outcome: BatchOutcome) returns (ret: PreloadReturn)
      requires Valid()
      modifies this
      ensures Valid() && (Model(), ret) == CompletePreloadByTag(old(Model()), key, h, outcome)
    {
      match outcome
      case BatchCanceled =>
        return PreloadReturn.CanceledThrown;
      case BatchFailed =>
        ProviderRelease(h);
        return LoadFailedThrown;
      case BatchSucceeded(prefabs) =>
        var installed: seq<string> := [];
        for i := 0 to |prefabs|
          invariant Valid()
          invariant PreloadTagInstallFrom(Model(), key, prefabs[i..], installed)
                 == PreloadTagInstallFrom(old(Model()), key, prefabs, [])
        {
          assert prefabs[i..][1..] == prefabs[i + 1..];
          var (name, asset) := prefabs[i];
          if name !in assetRefInfos {
            installed := installed + [name];
            assetRefInfos := assetRefInfos[name := PreloadedInfo(key, name, asset)];
          } else {
            assetRefInfos := assetRefInfos[name := assetRefInfos[name].AddRef()];
            CancelRemoveCoroutine(name);
          }
        }
        ret := AddPreloadInfo(key, installed, h);
    }

    /** The forced branch of `ReleasePreload`: drop each listed entry that is present. */
    method DeleteBundleEntries(names: seq<string>)
      modifies this`assetRefInfos
      ensures assetRefInfos == DeleteEntries(old(assetRefInfos), names)
    {
      for i := 0 to |names|
        invariant DeleteEntries(assetRefInfos, names[i..]) == DeleteEntries(old(assetRefInfos), names)
      {
        assert names[i..][1..] == names[i + 1..];
        var n := names[i];
        if n in assetRefInfos {
          assetRefInfos := assetRefInfos - {n};
        } else {
          assert assetRefInfos - {n} == assetRefInfos;
        }
      }
    }

    method ReleasePreload(key: string, force: bool)
      requires Valid()
      modifies this
      ensures Valid() && Model() == AddressableCache.ReleasePreload(old(Model()), key, force)
    {
      if key !in preloadInfos { return; }
      var info := preloadInfos[key];
      if force {
        DeleteBundleEntries(info.bundleNames);
        ProviderRelease(info.handle);
        preloadInfos := preloadInfos - {key};
      } else {
        ReleaseAssets(info.bundleNames, false);
      }
    }

    /** `ReleasePreload()`: releases every group over a snapshot of the keys; `order`
        is the snapshot. */
    method ReleaseAllPreloads() returns (order: seq<string>)
      requires Valid()
      modifies this
      ensures Valid() && Model() == ReleasePreloads(old(Model()), order)
      ensures forall k :: k in order <==> k in old(preloadInfos)
      ensures |order| == |old(preloadInfos).Keys|
    {
      var remaining := preloadInfos.Keys;
      order := [];
      while remaining != {}
        invariant remaining !! set k | k in order
        invariant forall k :: k in preloadInfos <==> k in order || k in remaining
        invariant |order| + |remaining| == |preloadInfos.Keys|
        decreases |remaining|
      {
        var k :| k in remaining;
        order := order + [k];
        remaining := remaining - {k};
      }
      for i := 0 to |order|
        invariant Valid()
        invariant ReleasePreloads(Model(), order[i..]) == ReleasePreloads(old(Model()), order)
      {
        assert order[i..][1..] == order[i + 1..];
        ReleasePreload(order[i], false);
      }
    }
  }

  /** `AddressablesPreloader`. Its `PreloadAsset` adds the loaded keys to its
      parameter, which shadows the field of the same name, so the field stays
      as it was and `Dispose` releases only what it held before. */
  class AddressablesPreloader {
    var loadObjects: seq<Asset>
    var bundleNames: seq<string>

    constructor()
      ensures loadObjects == [] && bundleNames == []
    {
      loadObjects := [];
      bundleNames := [];
    }

    /** `PreloadAsset` after its load: `loaded` is the returned dictionary in its
        enumeration order, `callerNames` the list the caller passed; the result
        is that list afterwards. */
    method CompletePreloadAsset(callerNames: seq<string>, loaded: seq<(string, Asset)>)
      returns (callerNamesAfter: seq<string>)
      modifies this
      ensures callerNamesAfter == callerNames + seq(|loaded|, j requires 0 <= j < |loaded| => loaded[j].0)
      ensures loadObjects == old(loadObjects) + seq(|loaded|, j requires 0 <= j < |loaded| => loaded[j].1)
      ensures bundleNames == old(bundleNames)
    {
      callerNamesAfter := callerNames;
      for i := 0 to |loaded|
        invariant callerNamesAfter == callerNames + seq(i, j requires 0 <= j < i => loaded[j].0)
        invariant loadObjects == old(loadObjects) + seq(i, j requires 0 <= j < i => loaded[j].1)
        invariant bundleNames == old(bundleNames)
      {
        callerNamesAfter := callerNamesAfter + [loaded[i].0];
        loadObjects := loadObjects + [loaded[i].1];
      }
    }

    method Dispose(manager: AddressablesManager)
      requires manager.Valid()
      modifies this, manager
      ensures manager.Valid() && manager.Model() == AddressableCache.ReleaseAssets(old(manager.Model()), old(bundleNames), false)
      ensures loadObjects == [] && bundleNames == []
    {
      manager.ReleaseAssets(bundleNames, false);
      loadObjects := [];
      bundleNames := [];
    }
  }
}
