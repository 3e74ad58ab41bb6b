/** The bookkeeping of `AddressablesManager`: the three tables it mutates
    (`assetRefInfos`, `removeCoutines`, `preloadInfos`) and the calls it makes
    on the Addressables provider, as one value `Cache`, with one transition
    function per non-suspending step of the manager. Every `await` of the
    source splits an operation into a Begin step (before the await) and a
    Complete step (after it); a delayed-removal coroutine that wakes up is the
    step `FireTimer`. The class in addressables_manager.dfy performs these
    steps in place and is proved against these functions. */
module AddressableCache {
  import opened Wrappers

  /** An `AsyncOperationHandle` issued by the provider, known by identity. */
  datatype Handle = Handle(id: nat)

  /** The object a handle resolved to; `Null` is a null reference. */
  datatype Asset = Null | Obj(id: nat)

  /** `AssetRefInfo`: one cached key. A preload member carries the key of its
      preload group and no handle of its own (`handle.None?` stands for the
      default handle, whose `IsValid()` is false). */
  datatype AssetRefInfo = AssetRefInfo(
    assetKey: string, refCnt: int, preloadKey: string, handle: Option<Handle>, result: Asset)
  {
    predicate IsPreload() { preloadKey != "" }
    predicate IsUsed() { refCnt > 0 }
    function AddRef(): AssetRefInfo { this.(refCnt := refCnt + 1) }
    function RemoveRef(): AssetRefInfo { this.(refCnt := refCnt - 1) }
  }

  /** `new AssetRefInfo(assetKey, handle)`: an entry that owns a load handle. */
  function LoadedInfo(key: string, h: Handle, result: Asset): (e: AssetRefInfo)
    ensures e.refCnt == 1 && e.IsUsed() && !e.IsPreload()
    ensures e.assetKey == key && e.handle == Some(h) && e.result == result
  {
    AssetRefInfo(key, 1, "", Some(h), result)
  }

  /** `new AssetRefInfo(preloadKey, assetKey, result)`: a member of a preload batch. */
  function PreloadedInfo(group: string, key: string, result: Asset): (e: AssetRefInfo)
    ensures e.refCnt == 1 && e.IsUsed() && e.handle.None?
    ensures e.IsPreload() <==> group != ""
    ensures e.assetKey == key && e.preloadKey == group && e.result == result
  {
    AssetRefInfo(key, 1, group, None, result)
  }

  /** `PreloadInfo`: the member list of a preload group and its one batch handle. */
  datatype PreloadInfo = PreloadInfo(key: string, bundleNames: seq<string>, handle: Handle)

  /** The manager's three tables plus the provider's call logs: `loaded` lists
      every handle the provider issued (a handle's id is its position there),
      `released` every `Addressables.Release` call, in order. */
  datatype Cache = Cache(
    infos: map<string, AssetRefInfo>,
    timers: set<string>,
    groups: map<string, PreloadInfo>,
    loaded: seq<Handle>,
    released: seq<Handle>)

  const Empty: Cache := Cache(map[], {}, map[], [], [])

  /** Every entry but the one under `key` is the same in `a` and `b`. */
  ghost predicate OthersUnchanged(a: map<string, AssetRefInfo>, b: map<string, AssetRefInfo>, key: string) {
    forall k :: k != key ==> (k in a <==> k in b) && (k in a ==> a[k] == b[k])
  }

  /** Everything but the provider's release log is the same. */
  predicate SameButReleased(a: Cache, b: Cache) {
    a.infos == b.infos && a.timers == b.timers && a.groups == b.groups && a.loaded == b.loaded
  }

  // ---------------------------------------------------------------------
  // Provider calls
  // ---------------------------------------------------------------------

  /** The handle the provider issues for its next load call. */
  function NextHandle(c: Cache): Handle {
    Handle(|c.loaded|)
  }

  /** One provider load call (single asset, tag, or batch). */
  function Issue(c: Cache): (r: Cache)
    ensures r.loaded == c.loaded + [NextHandle(c)]
    ensures r.infos == c.infos && r.timers == c.timers && r.groups == c.groups && r.released == c.released
  {
    c.(loaded := c.loaded + [NextHandle(c)])
  }

  /** One `Addressables.Release(handle)` call. */
  function Release(c: Cache, h: Handle): (r: Cache)
    ensures SameButReleased(r, c) && r.released == c.released + [h]
  {
    c.(released := c.released + [h])
  }

  // ---------------------------------------------------------------------
  // Timers: StartRemoveCoroutine, CancelRemoveCoroutine, _RemoveAsset
  // ---------------------------------------------------------------------

  /** `CancelRemoveCoroutine`: stop and forget the key's pending removal, if any. */
  function CancelTimer(c: Cache, key: string): (r: Cache)
    ensures key !in r.timers && forall k :: k != key ==> (k in r.timers <==> k in c.timers)
    ensures key !in c.timers ==> r == c
    ensures r.infos == c.infos && r.groups == c.groups && r.loaded == c.loaded && r.released == c.released
  {
    c.(timers := c.timers - {key})
  }

  /** `StartRemoveCoroutine`: arm a delayed removal unless one is pending or the
      key is not cached. */
  function ArmTimer(c: Cache, key: string): (r: Cache)
    ensures key in c.infos ==> key in r.timers && forall k :: k != key ==> (k in r.timers <==> k in c.timers)
    ensures key !in c.infos ==> r == c
    ensures r.infos == c.infos && r.groups == c.groups && r.loaded == c.loaded && r.released == c.released
  {
    if key in c.timers || key !in c.infos then c else c.(timers := c.timers + {key})
  }

  /** The body of `_RemoveAsset` once its delay has elapsed. */
  function FireTimer(c: Cache, key: string): (r: Cache)
    requires key in c.timers
    ensures key !in r.infos && key !in r.timers
    ensures OthersUnchanged(r.infos, c.infos, key)
    ensures forall k :: k != key ==> (k in r.timers <==> k in c.timers)
    ensures r.loaded == c.loaded
    ensures key in c.infos && !c.infos[key].IsPreload() && c.infos[key].handle.Some? ==>
              r.released == c.released + [c.infos[key].handle.value] && r.groups == c.groups
  {
    var r := RemoveInfo(c, key);
    r.(timers := r.timers - {key})
  }

  // ---------------------------------------------------------------------
  // Removal: _RemoveAssetRefInfo and _ReleasePreloadAsset
  // ---------------------------------------------------------------------

  /** `List.Remove(x)`: drop the first occurrence of `x`, if any. */
  function RemoveFirst<T(==)>(s: seq<T>, x: T): (r: seq<T>)
    ensures x !in s ==> r == s
    ensures x in s ==> |r| == |s| - 1 && multiset(r) == multiset(s) - multiset{x}
    ensures s != [] && s[0] == x ==> r == s[1..]
  {
    if s == [] then []
    else if s[0] == x then
      assert s == [s[0]] + s[1..];
      s[1..]
    else
      assert s == [s[0]] + s[1..];
      [s[0]] + RemoveFirst(s[1..], x)
  }

  /** `_ReleasePreloadAsset(group, name)`: drop `name` from the group's list;
      when the list is then empty, release the batch handle and delete the group. */
  function ReleasePreloadMember(c: Cache, group: string, name: string): (r: Cache)
    ensures r.infos == c.infos && r.timers == c.timers && r.loaded == c.loaded
    ensures group !in c.groups ==> r == c
    ensures group in c.groups && RemoveFirst(c.groups[group].bundleNames, name) == [] ==>
              group !in r.groups && r.released == c.released + [c.groups[group].handle]
    ensures group in c.groups && RemoveFirst(c.groups[group].bundleNames, name) != [] ==>
              group in r.groups && r.released == c.released
              && r.groups[group].bundleNames == RemoveFirst(c.groups[group].bundleNames, name)
              && r.groups[group].handle == c.groups[group].handle
    ensures forall g :: g != group ==> (g in r.groups <==> g in c.groups) && (g in r.groups ==> r.groups[g] == c.groups[g])
  {
    if group !in c.groups then c
    else
      var info := c.groups[group];
      var rest := RemoveFirst(info.bundleNames, name);
      if rest == [] then Release(c, info.handle).(groups := c.groups - {group})
      else c.(groups := c.groups[group := info.(bundleNames := rest)])
  }

  /** `_RemoveAssetRefInfo(key)`: release what the entry holds, then delete it. */
  function RemoveInfo(c: Cache, key: string): (r: Cache)
    ensures key !in c.infos ==> r == c
    ensures key !in r.infos && OthersUnchanged(r.infos, c.infos, key)
    ensures r.timers == c.timers && r.loaded == c.loaded
    ensures key in c.infos && !c.infos[key].IsPreload() ==>
              r.groups == c.groups
              && r.released == c.released + (if c.infos[key].handle.Some? then [c.infos[key].handle.value] else [])
    ensures key in c.infos && c.infos[key].IsPreload() ==>
              var m := ReleasePreloadMember(c, c.infos[key].preloadKey, key);
              r.groups == m.groups && r.released == m.released
  {
    if key !in c.infos then c
    else
      var info := c.infos[key];
      var c1 :=
        if !info.IsPreload() then (if info.handle.Some? then Release(c, info.handle.value) else c)
        else ReleasePreloadMember(c, info.preloadKey, key);
      c1.(infos := c1.infos - {key})
  }

  // ---------------------------------------------------------------------
  // Acquire: cache hits of LoadAssetAsync / LoadAssetsAsync, GetAsset, GetPrefab
  // ---------------------------------------------------------------------

  /** `info.AddRef(); CancelRemoveCoroutine(key)` on a cached key. */
  function Acquire(c: Cache, key: string): (r: Cache)
    requires key in c.infos
    ensures key in r.infos && r.infos[key] == c.infos[key].(refCnt := c.infos[key].refCnt + 1)
    ensures OthersUnchanged(r.infos, c.infos, key)
    ensures key !in r.timers && forall k :: k != key ==> (k in r.timers <==> k in c.timers)
    ensures r.groups == c.groups && r.loaded == c.loaded && r.released == c.released
  {
    CancelTimer(c.(infos := c.infos[key := c.infos[key].AddRef()]), key)
  }

  /** `GetAsset<T>(key)` and `GetPrefab(key)`: the new cache and the returned
      object (`Null`, i.e. `default`, for an absent key). */
  function GetAsset(c: Cache, key: string): (r: (Cache, Asset))
    ensures key !in c.infos ==> r == (c, Null)
    ensures key in c.infos ==> r.1 == c.infos[key].result && key in r.0.infos && r.0.infos[key].refCnt == c.infos[key].refCnt + 1
                                && key !in r.0.timers
    ensures key in c.infos ==> r.0 == Acquire(c, key)
    ensures r.0.loaded == c.loaded && r.0.released == c.released && r.0.groups == c.groups
  {
    if key !in c.infos then (c, Null) else (Acquire(c, key), c.infos[key].result)
  }

  // ---------------------------------------------------------------------
  // Single loads: LoadAssetAsync<T>(key) and LoadAssetsAsync<T>(tag)
  // ---------------------------------------------------------------------

  /** What the step before the `await` produced: a cache hit, or a provider
      load whose handle is awaited. */
  datatype LoadStart = Hit(result: Asset) | Pending(handle: Handle)

  /** How the awaited provider operation ended. */
  datatype LoadOutcome = Succeeded(result: Asset) | Failed | Canceled

  /** What the async method returns to its caller: a value, or the
      `OperationCanceledException` thrown by the await. */
  datatype LoadReturn = Returned(asset: Asset) | CanceledThrown

  /** The part of `LoadAssetAsync` (and of the tag overload) before its await. */
  function BeginLoad(c: Cache, key: string): (r: (Cache, LoadStart))
    ensures r.1.Hit? <==> key in c.infos
    ensures r.1.Hit? ==> r.1.result == c.infos[key].result && r.0 == Acquire(c, key)
    ensures r.1.Pending? ==> r.0.loaded == c.loaded + [r.1.handle] && r.1.handle == NextHandle(c)
                             && r.0.infos == c.infos && r.0.timers == c.timers && r.0.released == c.released
    ensures r.1.Pending? ==> r.0 == Issue(c)
    ensures r.0.groups == c.groups
  {
    if key in c.infos then (Acquire(c, key), Hit(c.infos[key].result))
    else (Issue(c), Pending(NextHandle(c)))
  }

  /** The part of `LoadAssetAsync<T>(key)` after its await. */
  function CompleteLoad(c: Cache, key: string, h: Handle, outcome: LoadOutcome): (r: (Cache, LoadReturn))
    ensures outcome.Canceled? ==> r == (c, LoadReturn.CanceledThrown)
    ensures outcome.Failed? ==> SameButReleased(r.0, c) && r.0.released == c.released + [h] && r.1 == Returned(Null)
    ensures outcome.Succeeded? && key !in c.infos ==>
              r.0.infos == c.infos[key := LoadedInfo(key, h, outcome.result)] && r.0.timers == c.timers
              && r.0.released == c.released && r.1 == Returned(outcome.result)
    ensures outcome.Succeeded? && key in c.infos ==>
              key in r.0.infos && r.0.infos[key].refCnt == c.infos[key].refCnt + 1 && key !in r.0.timers
              && r.0.released == c.released + [h] && r.1 == Returned(c.infos[key].result)
    ensures outcome.Succeeded? && key in c.infos ==> r.0 == Release(Acquire(c, key), h)
    ensures r.0.loaded == c.loaded && r.0.groups == c.groups
  {
    match outcome
    case Canceled => (c, LoadReturn.CanceledThrown)
    case Failed => (Release(c, h), Returned(Null))
    case Succeeded(result) =>
      if key !in c.infos then (c.(infos := c.infos[key := LoadedInfo(key, h, result)]), Returned(result))
      else (Release(Acquire(c, key), h), Returned(c.infos[key].result))
  }

  /** The part of `LoadAssetsAsync<T>(tag)` after its await. On the race path
      the count is raised and the timer cancelled, but the second handle is kept
      and its own result returned. */
  function CompleteLoadTag(c: Cache, tag: string, h: Handle, outcome: LoadOutcome): (r: (Cache, LoadReturn))
    ensures outcome.Canceled? ==> r == (c, LoadReturn.CanceledThrown)
    ensures outcome.Failed? ==> SameButReleased(r.0, c) && r.0.released == c.released + [h] && r.1 == Returned(Null)
    ensures outcome.Succeeded? ==> r.1 == Returned(outcome.result) && r.0.released == c.released
    ensures outcome.Succeeded? && tag !in c.infos ==> r.0.infos == c.infos[tag := LoadedInfo(tag, h, outcome.result)]
    ensures outcome.Succeeded? && tag in c.infos ==> r.0 == Acquire(c, tag)
    ensures r.0.loaded == c.loaded && r.0.groups == c.groups
  {
    match outcome
    case Canceled => (c, LoadReturn.CanceledThrown)
    case Failed => (Release(c, h), Returned(Null))
    case Succeeded(result) =>
      if tag !in c.infos then (c.(infos := c.infos[tag := LoadedInfo(tag, h, result)]), Returned(result))
      else (Acquire(c, tag), Returned(result))
  }

  // ---------------------------------------------------------------------
  // List load: LoadAssetsAsync<T>(IEnumerable<string>)
  // ---------------------------------------------------------------------

  /** `Enumerable.Distinct`: first occurrences, in order, skipping `seen`. */
  function DistinctFrom(s: seq<string>, seen: set<string>): (r: seq<string>)
    ensures forall x :: x in r <==> x in s && x !in seen
    ensures forall i, j :: 0 <= i < j < |r| ==> r[i] != r[j]
  {
    if s == [] then []
    else if s[0] in seen then DistinctFrom(s[1..], seen)
    else [s[0]] + DistinctFrom(s[1..], seen + {s[0]})
  }

  function Distinct(s: seq<string>): (r: seq<string>)
    ensures forall x :: x in r <==> x in s
    ensures forall i, j :: 0 <= i < j < |r| ==> r[i] != r[j]
  {
    DistinctFrom(s, {})
  }

  /** One iteration of the first loop of the list load, for the name `n`:
      skip it if empty, acquire it if cached, else start its load. */
  function BeginLoadManyStep(c: Cache, n: string, results: map<string, Asset>, pending: seq<(string, Handle)>)
    : (Cache, map<string, Asset>, seq<(string, Handle)>)
  {
    if n == "" then (c, results, pending)
    else if n in c.infos then (Acquire(c, n), results[n := c.infos[n].result], pending)
    else (Issue(c), results, pending + [(n, NextHandle(c))])
  }

  /** The first loop of the list load over the remaining names `ns`, from the
      given state and accumulators. */
  function BeginLoadManyFrom(c: Cache, ns: seq<string>, results: map<string, Asset>, pending: seq<(string, Handle)>)
    : (Cache, map<string, Asset>, seq<(string, Handle)>)
    decreases |ns|
  {
    if ns == [] then (c, results, pending)
    else
      var (c1, r1, p1) := BeginLoadManyStep(c, ns[0], results, pending);
      BeginLoadManyFrom(c1, ns[1..], r1, p1)
  }

  /** The part of the list load before its `WhenAll` await: the new cache, the
      result dictionary holding the hits, and the started loads. */
  function BeginLoadMany(c: Cache, names: seq<string>): (Cache, map<string, Asset>, seq<(string, Handle)>) {
    BeginLoadManyFrom(c, Distinct(names), map[], [])
  }

  /** `LoadAndRegisterAsync` after its await, for one started load. A cancelled
      or failed load releases its handle and yields `Null`; on the race path
      the count is raised (the pending timer is left armed) and the second
      handle released. */
  function CompleteLoadOne(c: Cache, name: string, h: Handle, outcome: LoadOutcome): (r: (Cache, Asset))
    ensures !outcome.Succeeded? ==> SameButReleased(r.0, c) && r.0.released == c.released + [h] && r.1 == Null
    ensures outcome.Succeeded? && name !in c.infos ==>
              r.0.infos == c.infos[name := LoadedInfo(name, h, outcome.result)]
              && r.0.released == c.released && r.1 == outcome.result
    ensures outcome.Succeeded? && name in c.infos ==>
              r.0.infos == c.infos[name := c.infos[name].(refCnt := c.infos[name].refCnt + 1)]
              && r.0.released == c.released + [h] && r.1 == c.infos[name].result
    ensures r.0.timers == c.timers && r.0.loaded == c.loaded && r.0.groups == c.groups
  {
    match outcome
    case Canceled => (Release(c, h), Null)
    case Failed => (Release(c, h), Null)
    case Succeeded(result) =>
      if name !in c.infos then (c.(infos := c.infos[name := LoadedInfo(name, h, result)]), result)
      else (Release(c.(infos := c.infos[name := c.infos[name].AddRef()]), h), c.infos[name].result)
  }

  /** The loop after `WhenAll`: every non-null loaded asset enters the results. */
  function MergeLoaded(results: map<string, Asset>, loaded: seq<(string, Asset)>): map<string, Asset>
    decreases |loaded|
  {
    if loaded == [] then results
    else
      var (name, asset) := loaded[0];
      MergeLoaded(if asset != Null then results[name := asset] else results, loaded[1..])
  }

  // ---------------------------------------------------------------------
  // ReleaseAsset
  // ---------------------------------------------------------------------

  /** `ReleaseAsset(key, delayTime)`, where `delayed` is `delayTime > 0`. */
  function ReleaseAsset(c: Cache, key: string, delayed: bool): (r: Cache)
    ensures key !in c.infos ==> r == c
    ensures key in c.infos && c.infos[key].refCnt > 1 ==>
              r.infos == c.infos[key := c.infos[key].(refCnt := c.infos[key].refCnt - 1)]
              && r.timers == c.timers && r.groups == c.groups && r.released == c.released
    ensures key in c.infos && c.infos[key].refCnt <= 1 && delayed ==>
              r.infos == c.infos[key := c.infos[key].(refCnt := c.infos[key].refCnt - 1)]
              && r.timers == c.timers + {key} && r.groups == c.groups && r.released == c.released
    ensures key in c.infos && c.infos[key].refCnt <= 1 && !delayed ==>
              key !in r.infos && key !in r.timers && OthersUnchanged(r.infos, c.infos, key)
              && (forall k :: k != key ==> (k in r.timers <==> k in c.timers))
    ensures key in c.infos && c.infos[key].refCnt <= 1 && !delayed && !c.infos[key].IsPreload() ==>
              r.groups == c.groups
              && r.released == c.released + (if c.infos[key].handle.Some? then [c.infos[key].handle.value] else [])
    ensures key in c.infos && c.infos[key].refCnt <= 1 && !delayed && c.infos[key].IsPreload() ==>
              var m := ReleasePreloadMember(c, c.infos[key].preloadKey, key);
              r.groups == m.groups && r.released == m.released
    ensures r.infos.Keys <= c.infos.Keys && r.loaded == c.loaded
  {
    if key !in c.infos then c
    else
      var c1 := c.(infos := c.infos[key := c.infos[key].RemoveRef()]);
      if c1.infos[key].IsUsed() then c1
      else if delayed then ArmTimer(c1, key)
      else RemoveInfo(CancelTimer(c1, key), key)
  }

  /** `ReleaseAsset(IEnumerable<string>, delayTime)`: one release per listed name, in order. */
  function ReleaseAssets(c: Cache, keys: seq<string>, delayed: bool): (r: Cache)
    ensures r.infos.Keys <= c.infos.Keys && r.loaded == c.loaded
    decreases |keys|
  {
    if keys == [] then c else ReleaseAssets(ReleaseAsset(c, keys[0], delayed), keys[1..], delayed)
  }

  // ---------------------------------------------------------------------
  // Preload groups
  // ---------------------------------------------------------------------

  datatype PreloadStart = Joined | BatchPending(handle: Handle)

  /** How the awaited batch load ended; on success, the loaded objects with
      their names, in the order the provider returned them. */
  datatype BatchOutcome = BatchSucceeded(assets: seq<(string, Asset)>) | BatchFailed | BatchCanceled

  /** How a preload call ends for its caller. */
  datatype PreloadReturn =
    | Done
    | CanceledThrown         // the await threw OperationCanceledException
    | LoadFailedThrown       // "PreloadAssetAsync failed": the handle was released
    | IndexOutOfRangeThrown  // `prefabs[i]` with i >= prefabs.Count
    | DuplicateGroupThrown   // `preloadInfos.Add` of a key added meanwhile

  /** `PreloadAsset` and `PreloadAssetByTag` before their await: join an existing
      group, or start one batch load. */
  function BeginPreload(c: Cache, key: string): (r: (Cache, PreloadStart))
    ensures key in c.groups ==> r == (c, Joined)
    ensures key !in c.groups ==> r.1.BatchPending? && r.0.loaded == c.loaded + [r.1.handle] && r.1.handle == NextHandle(c)
                                 && r.0.infos == c.infos && r.0.groups == c.groups && r.0.released == c.released
  {
    if key in c.groups then (c, Joined) else (Issue(c), BatchPending(NextHandle(c)))
  }

  /** The install loop of `PreloadAsset` from index `i` on. */
  function PreloadInstallFrom(c: Cache, key: string, names: seq<string>, prefabs: seq<(string, Asset)>, i: nat)
    : (r: (Cache, bool))
    requires i <= |names|
    ensures |prefabs| >= |names| ==> r.1
    ensures !r.1 ==> |prefabs| < |names|
    ensures r.1 ==> forall j :: i <= j < |names| ==> names[j] in r.0.infos
    ensures c.infos.Keys <= r.0.infos.Keys
    ensures r.0.groups == c.groups && r.0.loaded == c.loaded && r.0.released == c.released
    decreases |names| - i
  {
    if i == |names| then (c, true)
    else if names[i] !in c.infos then
      if i < |prefabs| then
        PreloadInstallFrom(c.(infos := c.infos[names[i] := PreloadedInfo(key, names[i], prefabs[i].1)]), key, names, prefabs, i + 1)
      else (c, false)
    else PreloadInstallFrom(Acquire(c, names[i]), key, names, prefabs, i + 1)
  }

  /** Record a finished group: `preloadInfos.Add(key, ...)`. */
  function AddGroup(c: Cache, key: string, names: seq<string>, h: Handle): (r: (Cache, PreloadReturn))
    ensures key in c.groups ==> r == (c, DuplicateGroupThrown)
    ensures key !in c.groups ==> r.1 == Done && r.0.groups == c.groups[key := PreloadInfo(key, names, h)]
    ensures r.0.infos == c.infos && r.0.timers == c.timers && r.0.loaded == c.loaded && r.0.released == c.released
  {
    if key in c.groups then (c, DuplicateGroupThrown)
    else (c.(groups := c.groups[key := PreloadInfo(key, names, h)]), Done)
  }

  /** `PreloadAsset(key, bundleNames)` after its await. */
  function CompletePreload(c: Cache, key: string, names: seq<string>, h: Handle, outcome: BatchOutcome)
    : (r: (Cache, PreloadReturn))
    ensures outcome.BatchCanceled? ==> r == (c, PreloadReturn.CanceledThrown)
    ensures outcome.BatchFailed? ==> SameButReleased(r.0, c) && r.0.released == c.released + [h] && r.1 == LoadFailedThrown
    ensures outcome.BatchSucceeded? && |outcome.assets| >= |names| && key !in c.groups ==>
              r.1 == Done && key in r.0.groups && r.0.groups[key] == PreloadInfo(key, names, h)
    ensures r.1 == Done ==> outcome.BatchSucceeded? && forall n :: n in names ==> n in r.0.infos
    ensures r.1 == IndexOutOfRangeThrown ==> outcome.BatchSucceeded? && |outcome.assets| < |names|
    ensures outcome.BatchSucceeded? ==>
              var c1 := PreloadInstallFrom(c, key, names, outcome.assets, 0).0;
              r.0.infos == c1.infos && r.0.timers == c1.timers && r.0.released == c.released
    ensures outcome.BatchSucceeded? && !PreloadInstallFrom(c, key, names, outcome.assets, 0).1 ==>
              r == (PreloadInstallFrom(c, key, names, outcome.assets, 0).0, IndexOutOfRangeThrown)
    ensures outcome.BatchSucceeded? && PreloadInstallFrom(c, key, names, outcome.assets, 0).1 && key in c.groups ==>
              r == (PreloadInstallFrom(c, key, names, outcome.assets, 0).0, DuplicateGroupThrown)
    ensures outcome.BatchSucceeded? && PreloadInstallFrom(c, key, names, outcome.assets, 0).1 && key !in c.groups ==>
              r.1 == Done && r.0.groups == c.groups[key := PreloadInfo(key, names, h)]
    ensures r.0.loaded == c.loaded
  {
    match outcome
    case BatchCanceled => (c, PreloadReturn.CanceledThrown)
    case BatchFailed => (Release(c, h), LoadFailedThrown)
    case BatchSucceeded(prefabs) =>
      var (c1, ok) := PreloadInstallFrom(c, key, names, prefabs, 0);
      if !ok then (c1, IndexOutOfRangeThrown) else AddGroup(c1, key, names, h)
  }

  /** The names of the loaded objects (`prefabs[i].name`), in provider order. */
  function TagNames(prefabs: seq<(string, Asset)>): seq<string>
    decreases |prefabs|
  {
    if prefabs == [] then [] else [prefabs[0].0] + TagNames(prefabs[1..])
  }

  /** The install loop of `PreloadAssetByTag` over the remaining objects; it
      collects the names it installed: the first occurrence of every name that
      was not cached, in provider order. Afterwards every returned name is
      cached and no entry is lost. */
  function PreloadTagInstallFrom(c: Cache, key: string, prefabs: seq<(string, Asset)>, installed: seq<string>)
    : (r: (Cache, seq<string>))
    ensures r.1 == installed + DistinctFrom(TagNames(prefabs), c.infos.Keys)
    ensures forall k :: k in r.0.infos <==> k in c.infos || k in TagNames(prefabs)
    ensures r.0.groups == c.groups && r.0.loaded == c.loaded && r.0.released == c.released
    decreases |prefabs|
  {
    if prefabs == [] then (c, installed)
    else
      var (name, asset) := prefabs[0];
      assert TagNames(prefabs) == [name] + TagNames(prefabs[1..]);
      if name !in c.infos then
        var c1 := c.(infos := c.infos[name := PreloadedInfo(key, name, asset)]);
        assert c1.infos.Keys == c.infos.Keys + {name};
        PreloadTagInstallFrom(c1, key, prefabs[1..], installed + [name])
      else
        assert Acquire(c, name).infos.Keys == c.infos.Keys;
        PreloadTagInstallFrom(Acquire(c, name), key, prefabs[1..], installed)
  }

  /** `PreloadAssetByTag(key, tag)` after its await. The recorded group lists
      only the names this preload installed; names that were cached already
      gain a reference but are not members. */
  function CompletePreloadByTag(c: Cache, key: string, h: Handle, outcome: BatchOutcome): (r: (Cache, PreloadReturn))
    ensures outcome.BatchCanceled? ==> r == (c, PreloadReturn.CanceledThrown)
    ensures outcome.BatchFailed? ==> SameButReleased(r.0, c) && r.0.released == c.released + [h] && r.1 == LoadFailedThrown
    ensures outcome.BatchSucceeded? ==> r.0.released == c.released
    ensures outcome.BatchSucceeded? ==> forall k :: k in r.0.infos <==> k in c.infos || k in TagNames(outcome.assets)
    ensures outcome.BatchSucceeded? && key in c.groups ==> r.1 == DuplicateGroupThrown && r.0.groups == c.groups
    ensures outcome.BatchSucceeded? && key !in c.groups ==>
              r.1 == Done
              && r.0.groups == c.groups[key := PreloadInfo(key, DistinctFrom(TagNames(outcome.assets), c.infos.Keys), h)]
    ensures r.0.loaded == c.loaded
  {
    match outcome
    case BatchCanceled => (c, PreloadReturn.CanceledThrown)
    case BatchFailed => (Release(c, h), LoadFailedThrown)
    case BatchSucceeded(prefabs) =>
      var (c1, installed) := PreloadTagInstallFrom(c, key, prefabs, []);
      assert installed == DistinctFrom(TagNames(prefabs), c.infos.Keys);
      AddGroup(c1, key, installed, h)
  }

  /** The first loop of `ReleasePreload(key, force: true)`: delete each listed entry. */
  function DeleteEntries(infos: map<string, AssetRefInfo>, names: seq<string>): (r: map<string, AssetRefInfo>)
    ensures r.Keys == infos.Keys - set n | n in names
    ensures forall k :: k in r ==> r[k] == infos[k]
  {
    if names == [] then infos else DeleteEntries(infos - {names[0]}, names[1..])
  }

  /** `ReleasePreload(key, force)`. */
  function ReleasePreload(c: Cache, key: string, force: bool): (r: Cache)
    ensures key !in c.groups ==> r == c
    ensures key in c.groups && force ==>
              key !in r.groups && r.released == c.released + [c.groups[key].handle]
              && r.infos.Keys == c.infos.Keys - (set n | n in c.groups[key].bundleNames)
              && (forall k :: k in r.infos ==> r.infos[k] == c.infos[k])
              && r.timers == c.timers && r.loaded == c.loaded
  {
    if key !in c.groups then c
    else if force then
      var info := c.groups[key];
      Release(c.(infos := DeleteEntries(c.infos, info.bundleNames)), info.handle).(groups := c.groups - {key})
    else ReleaseAssets(c, c.groups[key].bundleNames, false)
  }

  /** `ReleasePreload()`: a non-forced release of every group, over a snapshot
      of the group keys in the dictionary's enumeration order `order`. */
  function ReleasePreloads(c: Cache, order: seq<string>): Cache
    decreases |order|
  {
    if order == [] then c else ReleasePreloads(ReleasePreload(c, order[0], false), order[1..])
  }
}
