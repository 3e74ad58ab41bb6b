# Addressables cache and data layer of the portfolio game client

This project models, in Dafny, the core of a Unity game client:

- **`AddressablesManager`.** A reference-counted cache of loaded assets.
  - Every key maps to an `AssetRefInfo`: its count, its handle, its object, and the preload group it belongs to.
  - A cache hit takes one more reference. A release of the last reference deletes the entry, either at once or after a delay coroutine.
  - A preload batch loads many keys under one handle, and releases them together.
- **Scopes.** Around the cache sit `AddressableLease`, `AddressableMultiScope`, `ActionDisposable` and the `AddressableScopeMB` component. They give references back once, on the first dispose.
- **Network.** `WebRequestAPI` keeps a per-path counter of posts in flight, and `WebRequestBatch` waits for a set of requests.
- **Static data.** A tab-separated text is read into `TSVRow` dictionaries and then into the table classes: indexed by id, keyed, grouped and plain list.
- **Server data.** `JsonDataBase` imports JSON by replacing or merging its collections. `ServerContainer` keeps a keyed item dictionary fed from JSON. `ServerDataRepository` dispatches one payload to every registered container.
- **Editor tools.** Two tools assign Addressables groups, addresses and labels from the folder layout: `AddressableKeySetter` and `AddressableFolderGrouper`.
- **Small value types.** `KeyReferenceCounter`, `Int2Key` and `VMCollection`.

## How the cache is modelled

The bookkeeping of the manager is a value, `AddressableCache.Cache`. It holds the manager's three dictionaries and the provider's call logs:

- the entries (`assetRefInfos`);
- the pending removal coroutines (`removeCoutines`);
- the preload groups (`preloadInfos`);
- every handle the provider issued (`loaded`);
- every handle given back to it (`released`).

Each `async` method of the manager is cut at its `await`:

- a `Begin…` function covers the code before the await;
- a `Complete…` function covers the code after it, given how the awaited operation ended (succeeded with an object, failed, or cancelled).

Any interleaving of the manager's callers is therefore a sequence of these steps (`AddressableCacheProperties.Step`). The class `Addressables.AddressablesManager` holds the dictionaries as mutable fields, and each of its methods is proved equal to the step function its Model row names.

The model has two kinds of lemmas:

- **Invariant preservation.** The properties module proves that every step keeps the cache's invariant, except for a forced `ReleasePreload`.
- **Source behaviour.** Several lemmas exhibit how the source behaves at its edges:
  - a doubled release drives a count negative;
  - the race paths of the list and tag loads;
  - a forced preload release leaves a stale removal coroutine behind.

## Model

| member | source | states |
|---|---|---|
| AddressableCache.LoadedInfo | Addressable/AddressablesManager.cs:83-89 | an entry made from a load handle holds one reference, owns the handle and is not a preload member |
| AddressableCache.PreloadedInfo | Addressable/AddressablesManager.cs:91-97 | a preload entry holds one reference and no handle; it is a preload member exactly when its group key is non-empty |
| AddressableCache.Issue | Addressable/AddressablesManager.cs:179-181 | a provider load call appends exactly one new handle to the issued log and touches nothing else |
| AddressableCache.Release | Addressable/AddressablesManager.cs:200-204 | `Addressables.Release(handle)` appends that handle to the released log and touches nothing else |
| AddressableCache.CancelTimer | Addressable/AddressablesManager.cs:351-358 | afterwards the key has no pending removal, the other keys' timers are as before, and a key without a timer leaves the cache unchanged |
| AddressableCache.ArmTimer | Addressable/AddressablesManager.cs:360-366 | a cached key gets a pending removal, other timers unchanged; an uncached key changes nothing |
| AddressableCache.FireTimer | Addressable/AddressablesManager.cs:368-375 | when the delay ends the key's entry and timer are gone, other entries unchanged, and a non-preload entry's handle is released |
| AddressableCache.RemoveFirst | Addressable/AddressablesManager.cs:544-545 | `List.Remove`: one fewer occurrence of the element (multiset difference) when present, the list unchanged when absent |
| AddressableCache.ReleasePreloadMember | Addressable/AddressablesManager.cs:540-552 | the member leaves its group's list; a group whose list becomes empty is deleted and its batch handle released; other groups unchanged |
| AddressableCache.RemoveInfo | Addressable/AddressablesManager.cs:377-395 | the entry is deleted, others unchanged; a loaded entry's handle is released, a preload entry is removed from its group |
| AddressableCache.Acquire | Addressable/AddressablesManager.cs:170-176 | a cache hit raises that key's count by one, cancels its pending removal and changes no other entry |
| AddressableCache.GetAsset | Addressable/AddressablesManager.cs:412-421 | an uncached key returns null and changes nothing; a cached key returns its object and the cache is exactly `Acquire` of it (one more reference, its timer cancelled, every other entry, timer, group and log unchanged) |
| AddressableCache.BeginLoad | Addressable/AddressablesManager.cs:165-181 | a hit exactly when the key is cached (returning its object, acquired); otherwise exactly one new provider load with the next handle (`Issue`), entries, timers, groups and released handles unchanged |
| AddressableCache.CompleteLoad | Addressable/AddressablesManager.cs:183-206 | cancellation changes nothing; failure releases the handle and returns null; success caches a fresh entry, or on the race path the cache is exactly `Acquire` of the cached entry followed by `Release` of the second handle; groups and issued loads never change |
| AddressableCache.CompleteLoadTag | Addressable/AddressablesManager.cs:296-317 | as for a key, except that on the race path the second handle is kept (neither cached nor released) |
| AddressableCache.DistinctFrom | Addressable/AddressablesManager.cs:219-221 | the result holds each listed name not yet seen exactly once |
| AddressableCache.Distinct | Addressable/AddressablesManager.cs:219-221 | `Distinct()`: the same elements as the input, without repeats |
| AddressableCache.CompleteLoadOne | Addressable/AddressablesManager.cs:254-280 | a failed or cancelled load releases its handle and yields null; success caches a fresh entry, or acquires the already cached one and releases the handle |
| AddressableCache.ReleaseAsset | Addressable/AddressablesManager.cs:327-349 | a count above one is lowered; the last reference is either handed to a delay timer or deleted at once; an immediate deletion of a single-asset entry releases exactly its handle and leaves the groups alone, and one of a preload member does what `ReleasePreloadMember` does to the groups and handles; an unknown key changes nothing |
| AddressableCache.ReleaseAssets | Addressable/AddressablesManager.cs:319-325 | releasing a list never adds entries and never issues a load |
| AddressableCache.BeginPreload | Addressable/AddressablesManager.cs:423-434 | an existing group is joined with no provider call; otherwise exactly one batch load with the next handle |
| AddressableCache.PreloadInstallFrom | Addressable/AddressablesManager.cs:459-472 | if the provider returned at least as many objects as names the install loop succeeds, and a failure means it returned fewer (names already cached take no object, so success with fewer objects is possible); on success every remaining name is cached; no entry is lost |
| AddressableCache.AddGroup | Addressable/AddressablesManager.cs:474 | a new group is recorded with its names and handle; a duplicate key throws and changes nothing |
| AddressableCache.CompletePreload | Addressable/AddressablesManager.cs:436-475 | cancellation changes nothing; failure releases the batch handle; on success the entries and timers are those the install loop leaves (`PreloadInstallFrom`); if the loop runs out of objects that state is kept with the index-out-of-range error; a group key added meanwhile throws the duplicate-key error, keeping the installed entries and the groups; otherwise the group is recorded |
| AddressableCache.PreloadTagInstallFrom | Addressable/AddressablesManager.cs:496-513 | the group's member list gains exactly the tag's names that were not cached before, in order; the cache keys after are the old keys plus the tag's names; the groups, the provider logs and the issued handles are unchanged |
| AddressableCache.DeleteEntries | Addressable/AddressablesManager.cs:520-527 | exactly the listed names are deleted, the other entries unchanged |
| AddressableCache.ReleasePreload | Addressable/AddressablesManager.cs:516-538 | an unknown group changes nothing; a forced release deletes the member entries, releases the batch handle and drops the group; a non-forced one releases each member once |
| AddressableCacheProperties.EmptyInv | Addressable/AddressablesManager.cs:134-138 | the empty manager satisfies the invariant |
| AddressableCacheProperties.FreshHandle | Addressable/AddressablesManager.cs:179-181 | the next provider handle was never issued before |
| AddressableCacheProperties.ReleaseAssetPreservesInv | Addressable/AddressablesManager.cs:327-349 | a release keeps the invariant |
| AddressableCacheProperties.ReleaseAssetsPreservesInv | Addressable/AddressablesManager.cs:319-325 | releasing a list keeps the invariant |
| AddressableCacheProperties.ReleasePreloadsPreservesInv | Addressable/AddressablesManager.cs:554-560 | releasing every preload group keeps the invariant |
| AddressableCacheProperties.BeginLoadManyFromPreservesInv | Addressable/AddressablesManager.cs:219-235 | the first loop of the list load keeps the invariant |
| AddressableCacheProperties.PreloadInstallFromPreservesInv | Addressable/AddressablesManager.cs:459-472 | the preload install loop keeps the invariant |
| AddressableCacheProperties.PreloadTagInstallFromPreservesInv | Addressable/AddressablesManager.cs:496-508 | the tag preload install loop keeps the invariant |
| AddressableCacheProperties.GetAssetPreservesInv | Addressable/AddressablesManager.cs:412-421 | `GetAsset` keeps the invariant |
| AddressableCacheProperties.BeginLoadPreservesInv | Addressable/AddressablesManager.cs:165-181 | the load's first half keeps the invariant |
| AddressableCacheProperties.CompleteLoadPreservesInv | Addressable/AddressablesManager.cs:183-206 | the load's second half keeps the invariant for any outcome |
| AddressableCacheProperties.CompleteLoadTagPreservesInv | Addressable/AddressablesManager.cs:296-317 | the tag load's second half keeps the invariant |
| AddressableCacheProperties.CompleteLoadOnePreservesInv | Addressable/AddressablesManager.cs:254-280 | `LoadAndRegisterAsync`'s second half keeps the invariant |
| AddressableCacheProperties.FireTimerPreservesInv | Addressable/AddressablesManager.cs:368-375 | a firing removal timer keeps the invariant |
| AddressableCacheProperties.BeginPreloadPreservesInv | Addressable/AddressablesManager.cs:423-434 | the preload's first half keeps the invariant |
| AddressableCacheProperties.CompletePreloadPreservesInv | Addressable/AddressablesManager.cs:436-475 | the preload's second half keeps the invariant |
| AddressableCacheProperties.CompletePreloadByTagPreservesInv | Addressable/AddressablesManager.cs:477-514 | the tag preload's second half keeps the invariant |
| AddressableCacheProperties.StepPreservesInv | Addressable/AddressablesManager.cs:165-560 | every enabled step of the manager, in any interleaving, keeps the invariant, except a forced `ReleasePreload` |
| AddressableCacheProperties.MissesNoDuplicates | Addressable/AddressablesManager.cs:219-235 | the names that start a load are pairwise distinct |
| AddressableCacheProperties.BeginLoadManyFromEntries | Addressable/AddressablesManager.cs:222-229 | each cached listed name gains exactly one reference; each started load adds a fresh entry-less name |
| AddressableCacheProperties.BeginLoadManyFromResults | Addressable/AddressablesManager.cs:222-229 | every cache hit's object enters the results; earlier results are kept |
| AddressableCacheProperties.BeginLoadManyFromLoaded | Addressable/AddressablesManager.cs:230-234 | exactly one provider load per miss, in order, with consecutive fresh handles |
| AddressableCacheProperties.BeginLoadManyFromPending | Addressable/AddressablesManager.cs:230-234 | the pending list gains each miss paired with its own handle, in order |
| AddressableCacheProperties.BeginLoadManySpec | Addressable/AddressablesManager.cs:208-235 | up to `WhenAll`: each distinct cached name acquired once with its object in the results, every other distinct non-empty name loaded once |
| AddressableCacheProperties.BeginLoadManyPending | Addressable/AddressablesManager.cs:219-235 | the pending loads are exactly the distinct missing names, each once, with a fresh handle |
| AddressableCacheProperties.MergeLoadedSpec | Addressable/AddressablesManager.cs:238-249 | the keys after are the old keys plus the names whose load produced a non-null object; a name with no such load keeps its old object; a name with one maps to the object of its last such load |
| AddressableCacheProperties.PreloadInstallCounts | Addressable/AddressablesManager.cs:459-472 | with enough objects, every listed name's count rises by one per occurrence in the list |
| AddressableCacheProperties.PreloadInstallKeeps | Addressable/AddressablesManager.cs:459-472 | an already cached name keeps its handle and group; a new name becomes a member of the group with no handle of its own |
| AddressableCacheProperties.ReleaseFirstMember | Addressable/AddressablesManager.cs:531-537 | releasing the last reference of a group's first member deletes it and shortens the group |
| AddressableCacheProperties.ReleaseGroupMembers | Addressable/AddressablesManager.cs:531-552 | releasing every member one by one deletes them all and, with the last one, the group, releasing its batch handle once |
| AddressableCacheProperties.PreloadThenRelease | Addressable/AddressablesManager.cs:423-552 | preloading distinct new names into a new group and releasing the group restores the entries and groups, with the batch handle released |
| AddressableCacheProperties.DelayedReleaseThenReacquire | Addressable/AddressablesManager.cs:170-176 | a delayed release of the last reference followed by a hit before the delay ends gives back the original entry and cancels the timer |
| AddressableCacheProperties.DelayedReleaseThenFire | Addressable/AddressablesManager.cs:368-375 | left alone, the delayed release deletes the entry and releases its handle when the timer fires |
| AddressableCacheProperties.RefCntCanGoNegative | Addressable/AddressablesManager.cs:104-107 | releasing twice an entry whose removal is pending drives its count below zero |
| AddressableCacheProperties.ListRaceLeavesTimerArmed | Addressable/AddressablesManager.cs:266-277 | the list-load race path raises the count but leaves a pending removal armed |
| AddressableCacheProperties.TagRaceLeaksHandle | Addressable/AddressablesManager.cs:300-309 | the tag-load race path keeps its second handle, neither cached nor released |
| AddressableCacheProperties.StaleTimerEvictsReloadedEntry | Addressable/AddressablesManager.cs:520-530 | a forced preload release leaves a member's timer running, so the invariant fails afterwards |
| Addressables.AddressablesManager.constructor | Addressable/AddressablesManager.cs:134-138 | the manager starts with empty tables |
| Addressables.AddressablesManager.ProviderLoad | Addressable/AddressablesManager.cs:179-181 | the provider issues the next handle |
| Addressables.AddressablesManager.ProviderRelease | Addressable/AddressablesManager.cs:200-204 | the handle is logged as released |
| Addressables.AddressablesManager.CancelRemoveCoroutine | Addressable/AddressablesManager.cs:351-358 | the state after is `CancelTimer` of the state before |
| Addressables.AddressablesManager.StartRemoveCoroutine | Addressable/AddressablesManager.cs:360-366 | the state after is `ArmTimer` of the state before |
| Addressables.AddressablesManager.RemoveAssetCoroutine | Addressable/AddressablesManager.cs:368-375 | the state after is `FireTimer` of the state before |
| Addressables.AddressablesManager.RemoveAssetRefInfo | Addressable/AddressablesManager.cs:377-395 | the state after is `RemoveInfo` of the state before |
| Addressables.AddressablesManager.ReleasePreloadAsset | Addressable/AddressablesManager.cs:540-552 | the state after is `ReleasePreloadMember` of the state before |
| Addressables.AddressablesManager.GetAsset | Addressable/AddressablesManager.cs:412-421 | the state and the result are those of `GetAsset` |
| Addressables.AddressablesManager.GetPrefab | Addressable/AddressablesManager.cs:397-410 | the same lookup as `GetAsset` |
| Addressables.AddressablesManager.ReleaseAsset | Addressable/AddressablesManager.cs:327-349 | the state after is `ReleaseAsset` of the state before |
| Addressables.AddressablesManager.ReleaseAssets | Addressable/AddressablesManager.cs:319-325 | the state after is `ReleaseAssets` of the state before |
| Addressables.AddressablesManager.BeginLoadAsset | Addressable/AddressablesManager.cs:165-181 | the state and the start are those of `BeginLoad` |
| Addressables.AddressablesManager.CompleteLoadAsset | Addressable/AddressablesManager.cs:183-206 | the state and the return are those of `CompleteLoad` |
| Addressables.AddressablesManager.CompleteLoadAssetsByTag | Addressable/AddressablesManager.cs:296-317 | the state and the return are those of `CompleteLoadTag` |
| Addressables.AddressablesManager.BeginLoadAssets | Addressable/AddressablesManager.cs:208-235 | the loop's state, hits and started loads are those of `BeginLoadMany` |
| Addressables.AddressablesManager.CompleteLoadAndRegister | Addressable/AddressablesManager.cs:254-280 | the state and the object are those of `CompleteLoadOne` |
| Addressables.AddressablesManager.MergeLoadedAssets | Addressable/AddressablesManager.cs:238-249 | the merged dictionary is `MergeLoaded`, characterised by `MergeLoadedSpec` |
| Addressables.AddressablesManager.BeginPreloadAsset | Addressable/AddressablesManager.cs:423-434 | the state and the start are those of `BeginPreload` |
| Addressables.AddressablesManager.CompletePreloadAsset | Addressable/AddressablesManager.cs:436-475 | the state and the return are those of `CompletePreload` |
| Addressables.AddressablesManager.AddPreloadInfo | Addressable/AddressablesManager.cs:474 | the state and the return are those of `AddGroup` |
| Addressables.AddressablesManager.CompletePreloadAssetByTag | Addressable/AddressablesManager.cs:477-514 | the state and the return are those of `CompletePreloadByTag`, whose contract states the outcome cases |
| AddressableCache.CompletePreloadByTag | Addressable/AddressablesManager.cs:477-514 | a cancellation changes nothing; a failure releases the handle and throws; on success the cache keys gain the tag's names, a duplicate group key throws leaving the groups unchanged, and otherwise the new group holds exactly the names that were not cached before, with the tag's handle |
| AddressableCacheProperties.PreloadTagInstallCounts | Addressable/AddressablesManager.cs:496-513 | each name's reference count rises by the number of times the tag lists it |
| AddressableCacheProperties.PreloadTagInstallKeeps | Addressable/AddressablesManager.cs:496-513 | cached entries keep everything but their count; new entries belong to the group, hold no handle of their own and are keyed by their name |
| AddressableCacheProperties.TagPreloadOfCachedAssetsKeepsHandle | Addressable/AddressablesManager.cs:499-513 | when every object of the tag is already cached the group's list is empty, and a non-forced `ReleasePreload` of it changes nothing, so its handle is never released |
| AddressableCacheProperties.MergeLoadedKeys | Addressable/AddressablesManager.cs:238-249 | a name is in the merged results exactly when it was before or some load produced a non-null object for it |
| AddressableCacheProperties.MergeLoadedUntouched | Addressable/AddressablesManager.cs:238-249 | a name no non-null load produced keeps its old object |
| AddressableCacheProperties.MergeLoadedLast | Addressable/AddressablesManager.cs:238-249 | a name maps to the object of its last non-null load |
| Addressables.AddressablesManager.DeleteBundleEntries | Addressable/AddressablesManager.cs:520-527 | the entries after are `DeleteEntries` of those before |
| Addressables.AddressablesManager.ReleasePreload | Addressable/AddressablesManager.cs:516-538 | the state after is `ReleasePreload` of the state before |
| Addressables.AddressablesManager.ReleaseAllPreloads | Addressable/AddressablesManager.cs:554-560 | every group present at the call is released once, in the order of a snapshot of its keys |
| Addressables.AddressablesPreloader.constructor | Addressable/AddressablesManager.cs:21-24 | a new preloader holds nothing |
| Addressables.AddressablesPreloader.CompletePreloadAsset | Addressable/AddressablesManager.cs:35-45 | the loaded keys are appended to the caller's list, the objects to the preloader's, in dictionary order |
| Addressables.AddressablesPreloader.Dispose | Addressable/AddressablesManager.cs:27-33 | every key of the preloader is released once with no delay, and its lists are emptied |
| AddressableScopes.LoadNow | Addressable/AddressableScope.cs:86-95 | awaiting a load is a hit on a cached key, otherwise a provider load followed by its completion |
| AddressableScopes.NullLoadStillTakesReference | Addressable/AddressableScope.cs:86-95 | a load that returns null on a hit still takes a reference that no lease will give back |
| AddressableScopes.AddressableLease.constructor | Addressable/AddressableScope.cs:20-24 | the lease holds its key and object and is not disposed |
| AddressableScopes.AddressableLease.Dispose | Addressable/AddressableScope.cs:28-39 | the first dispose releases a non-empty key once and clears the lease; later disposes change nothing |
| AddressableScopes.AddressableMultiScope.constructor | Addressable/AddressableScope.cs:45-48 | a new scope holds no keys |
| AddressableScopes.AddressableMultiScope.Add | Addressable/AddressableScope.cs:51-55 | a non-empty key is appended; an empty key is ignored |
| AddressableScopes.AddressableMultiScope.ReleaseNow | Addressable/AddressableScope.cs:58-65 | a registered key is released once and its first occurrence dropped; otherwise nothing changes |
| AddressableScopes.AddressableMultiScope.Dispose | Addressable/AddressableScope.cs:67-76 | the first dispose releases every registered key in order and clears the list; later disposes change nothing |
| AddressableScopes.Get | Addressable/AddressableScope.cs:86-95 | an empty key yields no lease; otherwise the load runs and a non-null object is wrapped in a fresh lease on that key |
| AddressableScopes.AddToScope | Addressable/AddressableScope.cs:102-108 | with a scope and a key, the key is registered in the scope and `GetAsset` is applied; otherwise nothing happens |
| AddressableScopes.ActionDisposable.constructor | Addressable/AddressableScope.cs:141 | the action is held and has not run |
| AddressableScopes.ActionDisposable.Dispose | Addressable/AddressableScope.cs:142-148 | the action runs at most once over any number of disposes |
| AddressableScopeComponents.SweepDestroyed | Addressable/AddressableScopeMB.cs:106-114 | after a cleanup pass every listed object is destroyed and nothing else newly is |
| AddressableScopeComponents.SweepCalls | Addressable/AddressableScopeMB.cs:106-114 | with `Destroy` taking effect at once, `Destroy` is called exactly on the listed objects that were alive |
| AddressableScopeComponents.SweepDestroysEachLiveObjectOnce | Addressable/AddressableScopeMB.cs:106-114 | with `Destroy` taking effect at once, each live listed object is destroyed once even if listed twice (Unity's deferred `Destroy` would be called again for a duplicate) |
| AddressableScopeComponents.BorrowThenReleaseRestores | Addressable/AddressableScopeMB.cs:33-48 | borrowing a cached key and releasing it at once leaves its entry as it was |
| AddressableScopeComponents.Scene.constructor | Addressable/AddressableScopeMB.cs:17-23 | an empty scene |
| AddressableScopeComponents.Scene.Instantiate | Addressable/AddressableScopeMB.cs:60-67 | a new live object that was never destroyed |
| AddressableScopeComponents.Scene.Destroy | Addressable/AddressableScopeMB.cs:76-80 | the object is destroyed and the call logged |
| AddressableScopeComponents.AddressableScopeMB.constructor | Addressable/AddressableScopeMB.cs:17-23 | the three Inspector flags as given (serialized defaults `false`, `true`, `true`), with no keys and no instances, not yet released |
| AddressableScopeComponents.AddressableScopeMB.RegisterKey | Addressable/AddressableScopeMB.cs:26-30 | a non-empty key is appended |
| AddressableScopeComponents.AddressableScopeMB.Borrow | Addressable/AddressableScopeMB.cs:33-38 | without a manager, null and no change; otherwise `GetAsset`, registering the key when asked |
| AddressableScopeComponents.AddressableScopeMB.ReleaseNow | Addressable/AddressableScopeMB.cs:41-48 | a registered key is released once and dropped once |
| AddressableScopeComponents.AddressableScopeMB.LoadAsync | Addressable/AddressableScopeMB.cs:51-57 | the load is `LoadNow`; the key is registered exactly when the object is non-null |
| AddressableScopeComponents.AddressableScopeMB.InstantiateAsync | Addressable/AddressableScopeMB.cs:60-67 | a non-null prefab is instantiated, its key registered and the copy tracked; otherwise nothing is created, tracked or registered; an empty key leaves the manager unchanged; nothing is destroyed |
| AddressableScopeComponents.AddressableScopeMB.TrackInstance | Addressable/AddressableScopeMB.cs:70-73 | only a live object is tracked |
| AddressableScopeComponents.AddressableScopeMB.DestroyInstanceNow | Addressable/AddressableScopeMB.cs:76-80 | a tracked live object is untracked once and destroyed; otherwise nothing changes |
| AddressableScopeComponents.AddressableScopeMB.DestroyAllInstances | Addressable/AddressableScopeMB.cs:106-114 | the tracked list is emptied after a `Sweep` of it |
| AddressableScopeComponents.AddressableScopeMB.ReleaseAll | Addressable/AddressableScopeMB.cs:83-103 | on the first call only, every key is released once and, by the flag, the instances destroyed |
| AddressableScopeComponents.AddressableScopeMB.OnDisable | Addressable/AddressableScopeMB.cs:116-119 | when `releaseOnDisable` is set and nothing was released yet, every key is released, the lists emptied and, under `destroyInstancesOnRelease`, the tracked objects swept; otherwise the component, the manager and the scene are unchanged |
| AddressableScopeComponents.AddressableScopeMB.OnDestroy | Addressable/AddressableScopeMB.cs:121-124 | when `releaseOnDestroy` is set and nothing was released yet, every key is released, the lists emptied and, under `destroyInstancesOnRelease`, the tracked objects swept; otherwise the component, the manager and the scene are unchanged |
| KeyReference.EnableCount | KeyReference/KeyReferenceCounter.cs:38-48 | enabling adds one to the key's count, or stores 1, and leaves the other keys alone |
| KeyReference.DisableCount | KeyReference/KeyReferenceCounter.cs:22-31 | disabling lowers the count and removes the key at zero; an unknown key changes nothing |
| KeyReference.EnablePreservesPositive | KeyReference/KeyReferenceCounter.cs:38-48 | enabling keeps every stored count positive |
| KeyReference.DisablePreservesPositive | KeyReference/KeyReferenceCounter.cs:22-31 | disabling keeps every stored count positive |
| KeyReference.EnableThenDisable | KeyReference/KeyReferenceCounter.cs:22-48 | enabling then disabling a key gives back the dictionary |
| KeyReference.KeyReferenceCounter.constructor | KeyReference/KeyReferenceCounter.cs:10 | an empty counter |
| KeyReference.KeyReferenceCounter.ContainMeansStored | KeyReference/KeyReferenceCounter.cs:12-20 | a key is contained exactly when it is stored, and the counter is enabled exactly when some key is |
| KeyReference.KeyReferenceCounter.Disable | KeyReference/KeyReferenceCounter.cs:22-31 | the counts after are `DisableCount` of those before |
| KeyReference.KeyReferenceCounter.Clear | KeyReference/KeyReferenceCounter.cs:33-36 | no key remains and the counter is not enabled |
| KeyReference.KeyReferenceCounter.Enable | KeyReference/KeyReferenceCounter.cs:38-48 | the counts after are `EnableCount` of those before, and the key is contained |
| Network.IncrementPost | Network/WebRequestAPI.cs:366-372 | the path's count rises by one (from 0 when absent) and other paths are unchanged |
| Network.DecrementPost | Network/WebRequestAPI.cs:374-383 | the path's count falls by one and is removed at zero; an absent path changes nothing |
| Network.PostCount | Network/WebRequestAPI.cs:171-174 | the count of a path, 0 when it has none in flight |
| Network.IncrementThenDecrement | Network/WebRequestAPI.cs:366-383 | starting and completing a post gives back the counter |
| Network.DecrementKeepsPositive | Network/WebRequestAPI.cs:374-383 | completing a post keeps every count positive |
| Network.PostCounter.constructor | Network/WebRequestAPI.cs:165 | no post is in flight |
| Network.PostCounter.WaitingMeansSomeCount | Network/WebRequestAPI.cs:166-169 | waiting for a response exactly when some path has a positive count |
| Network.PostCounter.Increment | Network/WebRequestAPI.cs:366-372 | the counts after are `IncrementPost` of those before |
| Network.PostCounter.Decrement | Network/WebRequestAPI.cs:374-383 | the counts after are `DecrementPost` of those before |
| Network.WebRequestAPI.constructor | Network/WebRequestAPI.cs:238-241 | a new request is not completed and has its base URL and path |
| Network.WebRequestAPI.URL | Network/WebRequestAPI.cs:188-199 | the URL starts with the base URL and ends with the path |
| Network.WebRequestAPI.RequestSuccess | Network/WebRequestAPI.cs:288 | success means the transport succeeded and the error code is empty |
| Network.WebRequestAPI.SetAPI | Network/WebRequestAPI.cs:243-248 | only the path changes |
| Network.WebRequestAPI.SetCallback | Network/WebRequestAPI.cs:270-275 | only the callback changes |
| Network.WebRequestAPI.PostStart | Network/WebRequestAPI.cs:318-323 | the path's in-flight count rises by one |
| Network.WebRequestAPI.PostComplete | Network/WebRequestAPI.cs:325-364 | the count falls by one, the reply is parsed, and the callback runs exactly once with the parsed result |
| Network.WebRequestAPI.FinishPost | Network/WebRequestAPI.cs:385-395 | the request becomes completed and the callback, if any, runs once |
| Network.WebRequestAPI.Outcome | Network/WebRequestAPI.cs:127-145 | a batch reads success exactly when the request succeeded |
| Network.PostRoundTrip | Network/WebRequestAPI.cs:318-345 | a post and its completion leave the counter as it was and complete the request |
| Network.InitialBatch | Network/WebRequestAPI.cs:103-107 | a new batch waits for every request and has not completed |
| Network.CheckIfAllDone | Network/WebRequestAPI.cs:147-160 | the batch completes, with one `onComplete`, exactly when nothing is left to wait for |
| Network.HandleResult | Network/WebRequestAPI.cs:127-145 | a done batch ignores results; a failure ends it with that status; a success counts down |
| Network.Finished | Network/WebRequestAPI.cs:108-121 | the outcomes of the requests already completed, in order |
| Network.FirstFailure | Network/WebRequestAPI.cs:127-145 | the index of the first failing outcome, none exactly when all succeed |
| Network.RegisterAllIsHandleAll | Network/WebRequestAPI.cs:108-121 | the constructor's loop handles exactly the already-completed requests' outcomes, in order |
| Network.HandleAllAppend | Network/WebRequestAPI.cs:127-145 | handling two runs of results is handling their concatenation |
| Network.DoneIgnoresResults | Network/WebRequestAPI.cs:129 | a done batch is unchanged by any later results |
| Network.SuccessesCountDown | Network/WebRequestAPI.cs:143-144 | successes below the remaining count only count down |
| Network.LastSuccessCompletes | Network/WebRequestAPI.cs:143-160 | exactly the remaining number of successes completes the batch once, successfully |
| Network.FirstFailureWins | Network/WebRequestAPI.cs:131-141 | the first failure ends the batch with its status and no later result changes it |
| Network.BatchCompletesIffAllSucceed | Network/WebRequestAPI.cs:103-160 | once every request has reported, the batch succeeded exactly when all succeeded, otherwise it carries the first failure |
| Network.FirstFailureOfPrefix | Network/WebRequestAPI.cs:131-141 | a failure found in a prefix is the first failure of the whole |
| Network.HandleAllKeepsAtMostOnce | Network/WebRequestAPI.cs:127-160 | handling results never raises the completion count above one |
| Network.RegisterAllKeepsAtMostOnce | Network/WebRequestAPI.cs:108-121 | the constructor's loop never raises the completion count above one |
| Network.BatchCompletesAtMostOnce | Network/WebRequestAPI.cs:103-160 | with the final check guarded, `onComplete` runs at most once over the batch's life |
| Network.AlreadyCompletedBatchCompletesTwice | Network/WebRequestAPI.cs:103-125 | as written, one already-completed request makes `onComplete` run twice; guarded, once |
| Network.EmptyBatchCompletesAtOnce | Network/WebRequestAPI.cs:103-125 | an empty batch completes, successfully, in its constructor |
| Network.WebRequestBatch.constructor | Network/WebRequestAPI.cs:103-125 | the state is the corrected, guarded `BatchStart` of the requests' current outcomes, not the source's unconditional final check (see Findings) |
| Network.WebRequestBatch.HandleResultStep | Network/WebRequestAPI.cs:127-145 | the state after is `HandleResult` of the state before |
| Network.WebRequestBatch.CheckIfAllDoneStep | Network/WebRequestAPI.cs:147-160 | the state after is `CheckIfAllDone` of the state before |
| Tsv.FromTsv | Data/TSVRow.cs:15-37 | the rows are those of `FromTsvSpec`: one dictionary per record line after the header |
| Tsv.LinesAreClean | Data/TSVRow.cs:19-20 | every line of the split text is non-empty and free of line breaks |
| Tsv.ZipKeys | Data/TSVRow.cs:27-33 | a column is present exactly when one of the paired headers names it |
| Tsv.ZipLastWins | Data/TSVRow.cs:27-33 | a header that does not occur again maps to its own field |
| Tsv.ZipPrefix | Data/TSVRow.cs:27-33 | only the paired fields matter |
| Tsv.ExtraFieldsIgnored | Data/TSVRow.cs:27-33 | fields past the last header are ignored |
| Tsv.RowOfDistinct | Data/TSVRow.cs:27-33 | with distinct headers each column maps to its own field |
| Tsv.FromTsvOfOneRecord | Data/TSVRow.cs:15-37 | a header line and one record line read back as the written dictionary |
| Tsv.Get | Data/TSVRow.cs:44-47 | the column's value exactly when the row exists and holds the column |
| Tsv.RawValue | Data/TSVRow.cs:49-65 | a value is converted only when present and non-empty |
| Tsv.GetInt | Data/TSVRow.cs:67 | the parsed 32-bit value, or the default when absent, empty or unparsable |
| Tsv.GetLong | Data/TSVRow.cs:71 | the parsed 64-bit value, or the default |
| Tsv.GetBoolean | Data/TSVRow.cs:70 | the parsed boolean, or the default |
| Tsv.GetString | Data/TSVRow.cs:72 | the raw value, or the default |
| Tsv.GetIntOfWritten | Data/TSVRow.cs:67 | a 32-bit integer written in a column reads back |
| Tsv.GetStringList | Data/TSVRow.cs:75-80 | the trimmed pieces between separators; empty for a missing column |
| Tsv.GetIntList | Data/TSVRow.cs:82-86 | one integer per piece, 0 for an unparsable piece |
| Tsv.GetLongList | Data/TSVRow.cs:88-92 | one 64-bit integer per piece, 0 for an unparsable piece |
| Tsv.GetBooleanList | Data/TSVRow.cs:106-110 | one boolean per piece, true only for a piece that parses as true |
| Tsv.IntToStringShape | Data/TSVRow.cs:75-86 | an integer's text has no white space at its ends and no separator |
| Tsv.GetStringListOfWritten | Data/TSVRow.cs:75-80 | pieces written with a separator read back, when clean |
| Tsv.GetIntListOfWritten | Data/TSVRow.cs:82-86 | 32-bit integers written with a separator read back |
| Tsv.ParseInt32OfIntToString | Data/TSVRow.cs:67 | a 32-bit integer's text parses back as that integer |
| Tables.SetDataId | Data/1_TableData/TableData.cs:30-42 | the "ID" column wins over "id"; without either, the id is kept |
| Tables.SetDataGrade | Data/1_TableData/TableData.cs:39-40 | the grade changes only with a "grade" column |
| Tables.SetDataReadsWrittenId | Data/1_TableData/TableData.cs:34-35 | an id written in the "ID" column is read back |
| Tables.TableData.constructor | Data/1_TableData/TableData.cs:19-23 | the fields are `SetData` of a present row, defaults otherwise |
| Tables.TableData.Init | Data/1_TableData/TableData.cs:25-42 | the fields after are `SetData` of the row |
| Tables.GetLoc | Data/1_TableData/TableData.cs:45-57 | an empty key gives `""`; without settings or collection the key itself; otherwise the table entry when there is one, and for a missing entry the key (debug mode) or `""`; the result is always the key, `""` or a table entry |
| Tables.FallbackChoice | Data/1_TableData/TableData.cs:60-68 | the result is the primary key or a genuine translation (a table entry that is neither empty nor its key) of one of the keys; a translation of the primary key is returned; failing that, one of the secondary key; with neither, the primary key |
| Tables.FallbackWithoutSettings | Data/1_TableData/TableData.cs:45-68 | without settings every lookup returns the primary key |
| Tables.IndexRowsSpec | Data/1_TableData/IndexedTable.cs:19-34 | the stored ids are exactly the parsed ids, each with its last row |
| Tables.IdOrderSpec | Data/1_TableData/IndexedTable.cs:19-34 | the enumeration order lists each stored id exactly once |
| Tables.ValuesInOrder | Data/1_TableData/IndexedTable.cs:43 | one value per listed key, in that order |
| Tables.IndexedTable.constructor | Data/1_TableData/IndexedTable.cs:11-15 | an empty table |
| Tables.IndexedTable.InsertData | Data/1_TableData/IndexedTable.cs:19-34 | the table is cleared first, so a null list leaves it empty; otherwise the table is exactly `IndexRows` of the rows, with ids in `IdOrder` |
| Tables.IndexedTable.DataClear | Data/1_TableData/IndexedTable.cs:36-39 | the table is empty |
| Tables.IndexedTable.Get | Data/1_TableData/IndexedTable.cs:45-50 | the row stored under the id, none exactly when absent |
| Tables.IndexedTable.Datas | Data/1_TableData/IndexedTable.cs:43 | every stored row once, in id enumeration order |
| Tables.KeyRowsSpec | Data/1_TableData/KeyedTable.cs:22-34 | the stored keys are exactly the rows' keys, each with its last row |
| Tables.KeyedTable.constructor | Data/1_TableData/KeyedTable.cs:11-17 | an empty table |
| Tables.KeyedTable.InsertData | Data/1_TableData/KeyedTable.cs:22-34 | the table is cleared first, so a null list leaves it empty; otherwise it is exactly `KeyRows` of the rows |
| Tables.KeyedTable.InsertOne | Data/1_TableData/KeyedTable.cs:36-39 | the key maps to the data, other keys unchanged |
| Tables.KeyedTable.DataClear | Data/1_TableData/KeyedTable.cs:41-44 | the table is empty |
| Tables.KeyedTable.Get | Data/1_TableData/KeyedTable.cs:46-50 | the row under the key, none exactly when absent |
| Tables.GroupRowsSpec | Data/1_TableData/GroupedTable.cs:23-38 | each group is exactly the rows with its key, in input order |
| Tables.RowsWithKeyMembers | Data/1_TableData/GroupedTable.cs:23-38 | every row is in its key's group and only there |
| Tables.SumSizesAppend | Data/1_TableData/GroupedTable.cs:30-35 | appending to one group adds one to the sum of group sizes |
| Tables.GroupSizesSum | Data/1_TableData/GroupedTable.cs:23-38 | the group sizes add up to the number of rows: nothing lost, nothing duplicated |
| Tables.GroupedTable.constructor | Data/1_TableData/GroupedTable.cs:14-18 | an empty table |
| Tables.GroupedTable.InsertData | Data/1_TableData/GroupedTable.cs:23-38 | the table is cleared first, so a null list leaves it empty; otherwise the groups are exactly `GroupRows` of the rows |
| Tables.GroupedTable.GetGroup | Data/1_TableData/GroupedTable.cs:42-45 | the key's group, none exactly when absent |
| Tables.GroupedTable.DataClear | Data/1_TableData/GroupedTable.cs:47-50 | the table is empty |
| Tables.ListTable.constructor | Data/1_TableData/ListTable.cs:11-15 | an empty list |
| Tables.ListTable.InsertData | Data/1_TableData/ListTable.cs:19-29 | the list is cleared first, so a null list leaves it empty; otherwise it is exactly one parsed element per row, in order |
| Tables.ListTable.DataClear | Data/1_TableData/ListTable.cs:33-36 | the list is empty |
| JsonData.IndexOfName | Data/2_ServerData/JsonDataBase.cs:234 | the first property with exactly that name, none exactly when the name is absent |
| JsonData.IndexIgnoreCase | Data/2_ServerData/JsonDataBase.cs:237-238 | the first property whose name matches ignoring case, none exactly when none matches |
| JsonData.TryGetToken | Data/2_ServerData/JsonDataBase.cs:232-243 | a token is found exactly when some name matches ignoring case |
| JsonData.TryGetTokenChoice | Data/2_ServerData/JsonDataBase.cs:232-243 | an exact match wins; without one, the first match ignoring case |
| JsonData.RemoveName | Data/2_ServerData/JsonDataBase.cs:187 | only a property with exactly that name is dropped |
| JsonData.CaseInsensitiveMatchIsNotRemoved | Data/2_ServerData/JsonDataBase.cs:184-193 | a property found only ignoring case stays in the data and is deserialised again |
| JsonData.ListReplaced | Data/2_ServerData/JsonDataBase.cs:246-261 | one new element per array item, in array order |
| JsonData.FirstMatch | Data/2_ServerData/JsonDataBase.cs:324-335 | the first existing element the new one matches, none exactly when none matches |
| JsonData.DictMergeKeys | Data/2_ServerData/JsonDataBase.cs:278-304 | merging never loses a key: old keys plus incoming ones |
| JsonData.DictMergeUntouched | Data/2_ServerData/JsonDataBase.cs:278-304 | a key the JSON does not mention keeps its value |
| JsonData.DictMergeMentioned | Data/2_ServerData/JsonDataBase.cs:278-304 | a key mentioned once is merged when present, created when new |
| JsonData.DictReplacedKeys | Data/2_ServerData/JsonDataBase.cs:263-308 | after a replace the keys are exactly the incoming ones |
| JsonData.DictUpdatedKeys | Data/2_ServerData/JsonDataBase.cs:340-374 | after an update the keys are old plus incoming, unmentioned values kept |
| JsonData.ListUpdatedShape | Data/2_ServerData/JsonDataBase.cs:310-338 | an update only grows the list, by at most one element per item, keeping its prefix length |
| JsonData.ListUpdatedAppendsAll | Data/2_ServerData/JsonDataBase.cs:381-384 | with reference comparison nothing matches, so every item is appended |
| JsonData.AppendsFirst | Data/2_ServerData/JsonDataBase.cs:336 | without matches the first item is appended |
| JsonData.NothingMatches | Data/2_ServerData/JsonDataBase.cs:381-384 | reference comparison never matches a newly created element |
| JsonData.HandledMemberIsRemoved | Data/2_ServerData/JsonDataBase.cs:184-193 | a handled collection property is removed from the data before field deserialisation |
| JsonData.UnhandledMemberChangesNothing | Data/2_ServerData/JsonDataBase.cs:169-175 | a non-collection or absent member changes nothing |
| JsonData.DictMemberKeys | Data/2_ServerData/JsonDataBase.cs:189-193 | a replaced dictionary has exactly the incoming keys; an updated one old plus incoming |
| JsonData.JsonModel.constructor | Data/2_ServerData/JsonDataBase.cs:114 | no collections and nothing deserialised |
| JsonData.JsonModel.HandleListReplace | Data/2_ServerData/JsonDataBase.cs:246-261 | the list becomes `ListReplaced` of the items |
| JsonData.JsonModel.UpdateOrAppend | Data/2_ServerData/JsonDataBase.cs:315-336 | the first matching element is updated, otherwise the new element appended |
| JsonData.JsonModel.HandleListUpdate | Data/2_ServerData/JsonDataBase.cs:310-338 | the list becomes `ListUpdated` of the items |
| JsonData.JsonModel.HandleDictionaryReplace | Data/2_ServerData/JsonDataBase.cs:263-308 | the dictionary becomes `DictReplaced` of the pairs |
| JsonData.JsonModel.HandleDictionaryUpdate | Data/2_ServerData/JsonDataBase.cs:340-374 | the dictionary becomes `DictUpdated` of the pairs |
| JsonData.JsonModel.MergePairs | Data/2_ServerData/JsonDataBase.cs:278-304 | the dictionary becomes `DictMerge` of the pairs |
| JsonData.JsonModel.HandleCollections | Data/2_ServerData/JsonDataBase.cs:165-229 | collections and data after the member loop are `CollectionsAll` |
| JsonData.JsonModel.HandleMember | Data/2_ServerData/JsonDataBase.cs:167-194 | one member is `CollectionStep` |
| JsonData.JsonModel.HandleListMember | Data/2_ServerData/JsonDataBase.cs:177-188 | a list member is `ListMemberStep` |
| JsonData.JsonModel.HandleList | Data/2_ServerData/JsonDataBase.cs:184-188 | the list handler the mode selects |
| JsonData.JsonModel.HandleDictMember | Data/2_ServerData/JsonDataBase.cs:177-193 | a dictionary member is `DictMemberStep` |
| JsonData.JsonModel.HandleDictionary | Data/2_ServerData/JsonDataBase.cs:189-193 | the dictionary handler the mode selects |
| JsonData.JsonModel.Apply | Data/2_ServerData/JsonDataBase.cs:126-149 | null data returns false and changes nothing; otherwise collections are handled, then the remaining data deserialised |
| JsonData.JsonObjectData.constructor | Data/2_ServerData/JsonDataBase.cs:119 | the object holds the given properties |
| JsonData.JsonObjectData.Remove | Data/2_ServerData/JsonDataBase.cs:187 | the properties after are `RemoveName` of those before |
| ServerStore.GetToken | Data/2_ServerData/ServerContainer.cs:197 | a token exactly when the key is present |
| ServerStore.ObjectItems | Data/2_ServerData/ServerContainer.cs:123 | only the object items of the array are kept |
| ServerStore.NormalizeDataCases | Data/2_ServerData/ServerContainer.cs:195-230 | each branch: an array under the data key is wrapped or kept, an object returned, a container value wrapped in an array, and nothing found gives null |
| ServerStore.NormalizedHasContainer | Data/2_ServerData/ServerContainer.cs:195-230 | outside the object case, the normalised data holds an array under the container key |
| ServerStore.PutItem | Data/2_ServerData/ServerContainer.cs:157-188 | the key is present afterwards and every other item unchanged |
| ServerStore.PutAllKeys | Data/2_ServerData/ServerContainer.cs:123-127 | the keys after are the old ones plus every extracted key; unmentioned items unchanged |
| ServerStore.PutAllLastEntry | Data/2_ServerData/ServerContainer.cs:157-169 | the last listed item's key is present afterwards |
| ServerStore.ServerContainer.constructor | Data/2_ServerData/ServerContainer.cs:79-82 | an empty, subscribed container |
| ServerStore.ServerContainer.SetSubscribe | Data/2_ServerData/ServerContainer.cs:66-74 | the subscription becomes the argument and the result says whether it changed |
| ServerStore.ServerContainer.Clear | Data/2_ServerData/ServerContainer.cs:95-98 | no items remain |
| ServerStore.ServerContainer.ImportJson | Data/2_ServerData/ServerContainer.cs:117-132 | null returns false; otherwise the items are exactly those imported from the container list |
| ServerStore.ServerContainer.UpdateJson | Data/2_ServerData/ServerContainer.cs:137-150 | null returns false; otherwise the listed items are merged into the old ones |
| ServerStore.ServerContainer.PutList | Data/2_ServerData/ServerContainer.cs:123-127 | the items after are `PutAll` of those before |
| ServerStore.ServerContainer.PutData | Data/2_ServerData/ServerContainer.cs:157-188 | the items after are `PutItem` of those before |
| ServerStore.ServerContainer.Get | Data/2_ServerData/ServerContainer.cs:235-238 | the item exactly when the key is present |
| ServerStore.ServerContainer.TryGet | Data/2_ServerData/ServerContainer.cs:240-245 | found exactly when present, with its item |
| ServerStore.ServerContainer.AddOrReplaceJson | Data/2_ServerData/ServerContainer.cs:251-255 | the items after are an update of the key |
| ServerStore.ServerContainer.AddOrReplace | Data/2_ServerData/ServerContainer.cs:261-266 | the key maps to the value, every other item unchanged |
| ServerStore.ServerContainer.Dispose | Data/2_ServerData/ServerContainer.cs:271-274 | the container is unsubscribed |
| ServerStore.SubscribeTwice | Data/2_ServerData/ServerContainer.cs:66-74 | a second identical subscription reports no change |
| ServerStore.ImportAllEffect | Data/2_ServerData/ServerDataRepository.cs:14-44 | each container is imported from the payload and then updated from `updatedData`, local-only data reaching only local containers |
| ServerStore.ServerDataRepository.constructor | Data/2_ServerData/ServerDataRepository.cs:11-12 | not initialised, no containers |
| ServerStore.ServerDataRepository.ImportJson | Data/2_ServerData/ServerDataRepository.cs:14-44 | null changes nothing; otherwise the containers after are `ImportAll` |
| ServerStore.ServerDataRepository.VisitEach | Data/2_ServerData/ServerDataRepository.cs:18-27 | each container visited once with its normalised data |
| ServerStore.ServerDataRepository.ExportJson | Data/2_ServerData/ServerDataRepository.cs:46-57 | the saved containers' data under their keys; two sharing a key is the duplicate-key error |
| ServerStore.ServerDataRepository.Init | Data/2_ServerData/ServerDataRepository.cs:98-108 | the first call installs the registered containers; later calls change nothing |
| ServerStore.ServerDataRepository.Release | Data/2_ServerData/ServerDataRepository.cs:113-123 | every container is disposed once, then the repository is initialised afresh |
| ServerStore.InitTwice | Data/2_ServerData/ServerDataRepository.cs:98-108 | a second `Init` changes nothing |
| AddressableKeySetting.GetRelative | Addressable/Editor/AddressableKeySetter.cs:274-279 | the path relative to the root, with forward slashes only |
| AddressableKeySetting.GetRelativeStrips | Addressable/Editor/AddressableKeySetter.cs:274-279 | the root plus `/` is stripped ignoring case, otherwise the path is kept |
| AddressableKeySetting.GetRelativeBelow | Addressable/Editor/AddressableKeySetter.cs:274-279 | a path below the root gives back its tail |
| AddressableKeySetting.ParsedPathShape | Addressable/Editor/AddressableKeySetter.cs:198-228 | a parsed path is local or remote, not both, with a non-empty top folder free of `/` |
| AddressableKeySetting.SplitTop | Addressable/Editor/AddressableKeySetter.cs:222-226 | the first segment is the top folder and the rest joins back to the tail |
| AddressableKeySetting.ParseLocalRelative | Addressable/Editor/AddressableKeySetter.cs:207-211 | `Local/<Top>/<rest>` parses as local with that top and tail |
| AddressableKeySetting.ParseRemoteRelative | Addressable/Editor/AddressableKeySetter.cs:212-216 | `Remote/<Top>/<rest>` parses as remote with that top and tail |
| AddressableKeySetting.LocalLayout | Addressable/Editor/AddressableKeySetter.cs:198-228 | a file under `<root>/Local/<Top>/` parses to local, top and tail |
| AddressableKeySetting.RemoteLayout | Addressable/Editor/AddressableKeySetter.cs:198-228 | a file under `<root>/Remote/<Top>/` parses to remote, top and tail |
| AddressableKeySetting.ResolveGroupName | Addressable/Editor/AddressableKeySetter.cs:230-237 | empty exactly for an empty top; `Remote_<Top>` only for remote with the prefix option; otherwise the top |
| AddressableKeySetting.MakeKeyFromAfterTop | Addressable/Editor/AddressableKeySetter.cs:242-254 | the key is never empty and has forward slashes only |
| AddressableKeySetting.KeyDropsExtension | Addressable/Editor/AddressableKeySetter.cs:242-254 | `dir/stem.ext` gives `dir/stem`, or the whole path with the extension option |
| AddressableKeySetting.KeyAndExtension | Addressable/Editor/AddressableKeySetter.cs:242-254 | the key without extension plus the extension gives back the path |
| AddressableKeySetting.Numbered | Addressable/Editor/AddressableKeySetter.cs:292 | a numbered alternative extends the hashed key |
| AddressableKeySetting.NumberedInjective | Addressable/Editor/AddressableKeySetter.cs:290-293 | different numbers give different alternatives |
| AddressableKeySetting.NumberedRangeExcludes | Addressable/Editor/AddressableKeySetter.cs:290-294 | a number not yet tried gives an alternative not among those tried |
| AddressableKeySetting.EnsureUniqueAddress | Addressable/Editor/AddressableKeySetter.cs:281-295 | the result is never taken: the key itself when free, else `key#hash` when free, else the first free `key#hash_i` from 2 |
| AddressableKeySetting.CandidateFiles | Addressable/Editor/AddressableKeySetter.cs:106-109 | the non-`.meta` files, with forward slashes only |
| AddressableKeySetting.InitialAddresses | Addressable/Editor/AddressableKeySetter.cs:99-104 | every non-empty address of an entry, and never the empty one |
| AddressableKeySetting.UniqueSinceAppend | Addressable/Editor/AddressableKeySetter.cs:162-171 | with the uniqueness option, a key that was free keeps all assigned keys distinct |
| AddressableKeySetting.AddressableKeySetter.constructor | Addressable/Editor/AddressableKeySetter.cs:36-50 | the options and settings given, nothing counted or assigned yet |
| AddressableKeySetting.AddressableKeySetter.FindOrCreateGroup | Addressable/Editor/AddressableKeySetter.cs:256-271 | a group is found exactly for a non-empty name that exists or may be created; a created group is recorded |
| AddressableKeySetting.AddressableKeySetter.AddEntry | Addressable/Editor/AddressableKeySetter.cs:136-147 | an entry is added in the resolved group exactly when the group is found, and counted |
| AddressableKeySetting.AddressableKeySetter.SetAddress | Addressable/Editor/AddressableKeySetter.cs:165-171 | only a changed address is set, recorded as taken and counted |
| AddressableKeySetting.AddressableKeySetter.AssignKey | Addressable/Editor/AddressableKeySetter.cs:152-171 | an existing address is kept with the only-if-empty option; otherwise the key, made unique when asked, is assigned (`SettledAddress`) |
| AddressableKeySetting.AddressableKeySetter.ProcessFile | Addressable/Editor/AddressableKeySetter.cs:116-172 | one file: only its own entry changes, an entry keeps its group, a new entry's counter rises; a file with a GUID below the root has an entry exactly when it had one or auto-add found its group, and that entry carries the kept address, the key, or under the uniqueness option the key or a `key#hash` variant (`FileSettled`) |
| AddressableKeySetting.AddressableKeySetter.RunStep | Addressable/Editor/AddressableKeySetter.cs:116-172 | one loop iteration keeps the run's frame, its address set and the counters' bounds, changes only its file's entry, and settles that file as if first |
| AddressableKeySetting.AddressableKeySetter.RunAdvance | Addressable/Editor/AddressableKeySetter.cs:116-172 | an iteration that changes only its own entry keeps earlier files settled and later files' entries untouched |
| AddressableKeySetting.AddressableKeySetter.Run | Addressable/Editor/AddressableKeySetter.cs:83-189 | over all files: only file entries change, neither counter exceeds the number of candidate files, and every candidate whose GUID no other candidate shares ends with the entry and address `FileSettled` gives it |
| AddressableFolderGrouping.GetRelative | Addressable/Editor/AddressableFolderGrouper.cs:172-178 | the path relative to the root, with forward slashes only |
| AddressableFolderGrouping.GetRelativeRebuilds | Addressable/Editor/AddressableFolderGrouper.cs:172-178 | the root plus `/` plus the result rebuilds the path when stripped (case-sensitive) |
| AddressableFolderGrouping.GetRelativeBelow | Addressable/Editor/AddressableFolderGrouper.cs:172-178 | a path below the root gives back its tail |
| AddressableFolderGrouping.BelowHashRootIsRelative | Addressable/Editor/AddressableFolderGrouper.cs:144 | the hashed path is the path relative to `Assets/ProjectArcana/Addressables` |
| AddressableFolderGrouping.NormalizeKeeps | Addressable/Editor/AddressableFolderGrouper.cs:135 | a path without backslashes is already normalised |
| AddressableFolderGrouping.HashRootIsNormal | Addressable/Editor/AddressableFolderGrouper.cs:144 | the hash root has no backslashes to replace |
| AddressableFolderGrouping.HashRootIsTrimmed | Addressable/Editor/AddressableFolderGrouper.cs:144 | the hash root has no trailing slash to trim |
| AddressableFolderGrouping.IsMetaIgnoresCase | Addressable/Editor/AddressableFolderGrouper.cs:132-133 | a file is skipped exactly when its extension is `.meta` in any case |
| AddressableFolderGrouping.MetaFileIsSkipped | Addressable/Editor/AddressableFolderGrouper.cs:132-133 | a `.meta` file is skipped |
| AddressableFolderGrouping.IndexOfGuid | Addressable/Editor/AddressableFolderGrouper.cs:139 | the entry with that GUID, none exactly when absent |
| AddressableFolderGrouping.GroupEntries | Addressable/Editor/AddressableFolderGrouper.cs:183 | exactly the entries of the group |
| AddressableFolderGrouping.GroupHasAddress | Addressable/Editor/AddressableFolderGrouper.cs:180-189 | true exactly when some other non-null member has the address |
| AddressableFolderGrouping.GroupHasAddressOfGroup | Addressable/Editor/AddressableFolderGrouper.cs:180-189 | over a group's entries, the check is another entry of that group having the address |
| AddressableFolderGrouping.MemberOfGroup | Addressable/Editor/AddressableFolderGrouper.cs:180-189 | another entry of the group with the address is found by the check |
| AddressableFolderGrouping.DerivedAddress | Addressable/Editor/AddressableFolderGrouper.cs:142-147 | the file name, or `name#hash` exactly when the name is taken |
| AddressableFolderGrouping.AddressOfFile | Addressable/Editor/AddressableFolderGrouper.cs:142-147 | `dir/stem.ext` gets address `stem`, or `stem#hash` when taken |
| AddressableFolderGrouping.LabelCount | Addressable/Editor/AddressableFolderGrouper.cs:157 | at most the depth and fewer than the segments |
| AddressableFolderGrouping.Labels | Addressable/Editor/AddressableFolderGrouper.cs:158-166 | exactly the non-empty segments before the count |
| AddressableFolderGrouping.LabelsStep | Addressable/Editor/AddressableFolderGrouper.cs:158-166 | one more segment adds its label when non-empty |
| AddressableFolderGrouping.LabelsBound | Addressable/Editor/AddressableFolderGrouper.cs:157-166 | no more labels than segments read |
| AddressableFolderGrouping.FolderLabelsShape | Addressable/Editor/AddressableFolderGrouper.cs:153-167 | at most `depth` labels, non-empty, slash-free folder segments, never the file name |
| AddressableFolderGrouping.PartLabelsOfDirs | Addressable/Editor/AddressableFolderGrouper.cs:155-166 | the labels are the first `depth` folder names |
| AddressableFolderGrouping.FolderLabelsOfPath | Addressable/Editor/AddressableFolderGrouper.cs:155-166 | a path `d1/…/dn/file` is labelled with its first `depth` folders |
| AddressableFolderGrouping.CountedGuids | Addressable/Editor/AddressableFolderGrouper.cs:130-137 | no more counted files than files |
| AddressableFolderGrouping.OtherHasAddressIgnoresOwn | Addressable/Editor/AddressableFolderGrouper.cs:146 | the entry being addressed never counts as a clash |
| AddressableFolderGrouping.PlacedByUpdate | Addressable/Editor/AddressableFolderGrouper.cs:139-149 | the file's entry gets the address and labels, the rest unchanged |
| AddressableFolderGrouping.OtherHasAddressAfterCreate | Addressable/Editor/AddressableFolderGrouper.cs:139-146 | creating the file's entry changes no clash check |
| AddressableFolderGrouping.GrownGuids | Addressable/Editor/AddressableFolderGrouper.cs:139 | no GUID is lost |
| AddressableFolderGrouping.CountedGuidsStep | Addressable/Editor/AddressableFolderGrouper.cs:130-150 | one more file counts once exactly when processed |
| AddressableFolderGrouping.TouchedStep | Addressable/Editor/AddressableFolderGrouper.cs:149 | the touched list gains the file's GUID exactly when processed |
| AddressableFolderGrouping.GrownTrans | Addressable/Editor/AddressableFolderGrouper.cs:127-170 | growing twice is growing |
| AddressableFolderGrouping.PlacedGrows | Addressable/Editor/AddressableFolderGrouper.cs:139-149 | placing a file's entry grows the entries, and some entry with its GUID holds the address and the new labels |
| AddressableFolderGrouping.Infos | Addressable/Editor/AddressableFolderGrouper.cs:130-145 | one record per file: processed or skipped, GUID, base name, hash and folder labels |
| AddressableFolderGrouping.InfosAt | Addressable/Editor/AddressableFolderGrouper.cs:130-145 | the record of file `j` is the one derived from that file alone |
| AddressableFolderGrouping.FileStepOfPlaced | Addressable/Editor/AddressableFolderGrouper.cs:130-167 | an entry placed with the derived address and labels, or nothing for a skipped file, is one step of the fold |
| AddressableFolderGrouping.ProcessAllStep | Addressable/Editor/AddressableFolderGrouper.cs:130-168 | one step of the loop advances the fold over the remaining files |
| AddressableFolderGrouping.FileStepGrows | Addressable/Editor/AddressableFolderGrouper.cs:139-167 | one file loses no entry, moves none out of the group, and loses no label |
| AddressableFolderGrouping.ProcessAllGrows | Addressable/Editor/AddressableFolderGrouper.cs:127-170 | the whole loop loses no entry, moves none out of the group, and loses no label |
| AddressableFolderGrouping.FileStepPlaces | Addressable/Editor/AddressableFolderGrouper.cs:139-167 | a processed file's entry carries its GUID, the name or `name#hash` as address, and its folder labels |
| AddressableFolderGrouping.FileStepKeeps | Addressable/Editor/AddressableFolderGrouper.cs:139-167 | an entry with another GUID is left as it was |
| AddressableFolderGrouping.ProcessAllKeeps | Addressable/Editor/AddressableFolderGrouper.cs:127-170 | an entry whose GUID no processed file has is left as it was |
| AddressableFolderGrouping.ProcessAllPlaces | Addressable/Editor/AddressableFolderGrouper.cs:127-170 | a processed file's labels are in the settings and on an entry with its GUID; when no later file shares the GUID, that entry's address is the name or `name#hash` |
| AddressableFolderGrouping.ProcessFilesPlaces | Addressable/Editor/AddressableFolderGrouper.cs:130-167 | for a non-`.meta` file with a GUID: its folder labels are set on its entry and in the settings, and when no later file shares the GUID its address is its file name, or that name plus `#` and the hash of its path below `Assets/ProjectArcana/Addressables` |
| AddressableFolderGrouping.ProcessAllLabelsFromFiles | Addressable/Editor/AddressableFolderGrouper.cs:153-167 | every label in the settings afterwards was there before or is a folder label of a processed file |
| AddressableFolderGrouping.FolderGrouper.constructor | Addressable/Editor/AddressableFolderGrouper.cs:58-71 | the settings' entries and labels, nothing touched |
| AddressableFolderGrouping.FolderGrouper.AddFolderLabels | Addressable/Editor/AddressableFolderGrouper.cs:158-166 | the entry and the settings gain exactly the folder labels |
| AddressableFolderGrouping.FolderGrouper.FindOrCreateEntry | Addressable/Editor/AddressableFolderGrouper.cs:139 | the existing entry for the GUID, or a new one appended in the group |
| AddressableFolderGrouping.FolderGrouper.Assign | Addressable/Editor/AddressableFolderGrouper.cs:148-167 | the entry gets the address and, when writing labels, the folder labels |
| AddressableFolderGrouping.FolderGrouper.Touch | Addressable/Editor/AddressableFolderGrouper.cs:139-167 | the file's entry is placed with its derived address and recorded as touched |
| AddressableFolderGrouping.FolderGrouper.ProcessFile | Addressable/Editor/AddressableFolderGrouper.cs:130-167 | a `.meta` or unknown file changes nothing; otherwise its entry is placed and touched, which is one `FileStep` of the fold |
| AddressableFolderGrouping.FolderGrouper.ProcessStep | Addressable/Editor/AddressableFolderGrouper.cs:130-167 | one loop iteration keeps the touched list and count, and advances the fold by the file's record |
| AddressableFolderGrouping.FolderGrouper.ProcessFiles | Addressable/Editor/AddressableFolderGrouper.cs:127-170 | the entries and labels are the fold `ProcessAll` over the files' records (so `ProcessFilesPlaces` applies); the count is the number of processed files, each touched once in order |
| KeyStruct.Equals | Data/KeyStruct/Int2Key.cs:23-26 | equal exactly when both items are equal |
| KeyStruct.EqualsObject | Data/KeyStruct/Int2Key.cs:18-21 | only a boxed key with the same items is equal |
| KeyStruct.EqualsIsEquivalence | Data/KeyStruct/Int2Key.cs:18-26 | equality is reflexive, symmetric and transitive |
| KeyStruct.ConstructorInjective | Data/KeyStruct/Int2Key.cs:12-16 | keys from different pairs differ |
| ViewModel.SetSubscribeSpec | Data/3_ViewModel/VMCollection.cs:17-25 | the subscription becomes the argument, and a change is reported exactly when it differed |
| ViewModel.SetSubscribeTwice | Data/3_ViewModel/VMCollection.cs:17-25 | a second identical subscription reports no change |
| ViewModel.DisposeIdempotent | Data/3_ViewModel/VMCollection.cs:43-46 | disposing twice is disposing once |
| ViewModel.VMCollection.constructor | Data/3_ViewModel/VMCollection.cs:30-33 | a new collection is subscribed |
| ViewModel.VMCollection.SetSubscribe | Data/3_ViewModel/VMCollection.cs:17-25 | the state and result are `SetSubscribeSpec` |
| ViewModel.VMCollection.Dispose | Data/3_ViewModel/VMCollection.cs:43-46 | the collection is unsubscribed |

## Left out

- Unity's Addressables provider is not modelled as code. It appears only as a log of issued and released handles. How an awaited operation ends is a parameter: an object, a failure, or a cancellation.
- `async`/`await`, cancellation tokens and coroutines become separate `Begin…`/`Complete…` steps. Concurrency is captured only as an arbitrary interleaving of steps.
- `ReleaseAsset`'s `delayTime` float becomes a boolean, `delayed`, meaning `delayTime > 0`. The delay itself is a timer that fires as a separate step.
- `AddressableCacheProperties.StepPreservesInv`: it does not cover a forced `ReleasePreload`. That step can leave a stale removal coroutine, as shown by `StaleTimerEvictsReloadedEntry`.
- Unity's `Object.Destroy` takes effect at the end of the frame. The scene model destroys at once.
- `WebRequestAPI`:
  - the request's timestamp (`Timef`) and the raw `Response` field are not modelled;
  - the underlying `UnityWebRequest` transport is a parameter;
  - callbacks are counted, not run;
  - `SetCallback` replacing a batch's own callback on a request is not modelled.
- `TSVRow` parsing uses invariant ASCII digits. `int.Parse` under the current culture and the float getters (`GetFloat`, `GetFloatList`) are not modelled.
- `JsonDataBase`:
  - Json.NET's `Populate`, reflection over members and `Activator.CreateInstance` are functions given to the model (`Serializer`);
  - dictionary keys are strings: `Convert.ChangeType` of a key is the identity;
  - field deserialisation is only recorded, as the data handed to it;
  - `AssignFrom` is not modelled;
  - `OnChange` and `OnChangeItem` events are not modelled.
- `ServerContainer.ExportJson` and `ServerData.ExportJson` are given as a function; Json.NET's serialisation is not modelled.
- The `AddOrReplace(key, value)` overload's null value is not distinguished.
- `GetJSONList` and `GetJSONObject` are extension methods whose source is not part of this model. They are modelled as reading the array's object items and an object-valued property.
- `Save`, `Load` and `LoadServerData` of `ServerData` and `ServerDataRepository` are not modelled (PlayerPrefs, AES, Base64 and the network).
- Case-insensitive comparison (`OrdinalIgnoreCase`, `ToLowerInvariant`) folds ASCII letters only.
- The editor tools' `Path` functions treat `/` and `\` as separators. The `:` volume separator is not modelled.
- `AddressableKeySetter`:
  - the Unity editor API (settings, groups, `SetDirty`, `Debug.Log`) is modelled as maps of entries and a set of groups;
  - `Directory.GetFiles`, the GUID lookup and `ShortHash` (SHA-1) are parameters;
  - the parsed path of a file is computed by `TryParseRootRelative`;
  - a null `rootPath` is not modelled;
  - a new entry created by `CreateOrMoveEntry` starts with its asset path as its address.
- `AddressableKeySetting.AddressableKeySetter.Run`: it does not state that addresses stay globally unique when the uniqueness option is off, because the source does not promise that.
- `AddressableKeySetting.AddressableKeySetter.Run`: the final address is stated only for a candidate whose GUID no other candidate shares; for a shared GUID the later file's turn rewrites the entry, which the contract leaves unstated.
- `AddressableFolderGrouping.ProcessFilesPlaces`: the address is stated only when no later file has the same GUID, because a later file's turn rewrites that entry's address; its labels are stated in every case.
- `AddressableFolderGrouper`:
  - `Run` and `ProcessTree` (directory walking) and `GetOrCreateGroup` (schema settings) are not modelled;
  - `ProcessFiles` is modelled for one group;
  - `ShortHash` (MD5) and the GUID lookup are parameters.
- `AddressableFolderGrouping.FolderGrouper.ProcessFile`:
  - an existing entry in another group keeps that group, as `FindAssetEntry` returns it unmoved;
  - the `name#hash` address is not checked again for clashes;
  - the hash is taken relative to the fixed root `Assets/ProjectArcana/Addressables`.
- Null group entries are modelled as `None` members of the group's list. Entries are identified by their GUID.
- ReleasePreloadMember (`AddressableCache.ReleasePreloadMember`): the group's list is modelled as a copy. In the source `PreloadAsset` stores the caller's own `List<string>`, so removing a member also edits the caller's list, and the caller editing it edits the group.
- AddGroup (`AddressableCache.AddGroup`): the stored member list is a copy, not the caller's list (see `ReleasePreloadMember`).
- DictReplacedKeys (`JsonData.DictReplacedKeys`): keys are compared as strings. With a non-string key type, the source removes keys by `ToString` but adds them by `Convert.ChangeType`, which the model does not distinguish.
- DictMemberKeys (`JsonData.DictMemberKeys`): as `DictReplacedKeys`, typed keys are not modelled.
- HandleDictionaryReplace (`JsonData.JsonModel.HandleDictionaryReplace`): as `DictReplacedKeys`, typed keys are not modelled.
- ImportAllEffect (`ServerStore.ImportAllEffect`): each container receives its normalised data as a value. In the source every container normalises the same `JObject`, and `ReplaceCollections` removes the replaced members from it, so a later container can see a payload with those members gone.
- ImportJson (`ServerStore.ServerDataRepository.ImportJson`): as `ImportAllEffect`, the shared payload edited by earlier containers is not modelled.
- VisitEach (`ServerStore.ServerDataRepository.VisitEach`): as `ImportAllEffect`, each visit gets the payload as it was at the start.
- WebRequestBatch.constructor (`Network.WebRequestBatch.constructor`): the start check is the corrected, guarded `BatchStart`; the source's unconditional final `CheckIfAllDone` is modelled only by `AlreadyCompletedBatchCompletesTwice` (see Findings).
- SweepCalls (`AddressableScopeComponents.SweepCalls`): `Destroy` takes effect at once, so a duplicate in the tracked list is skipped. Unity defers `Destroy`, so the source calls it again for a duplicate.
- SweepDestroysEachLiveObjectOnce (`AddressableScopeComponents.SweepDestroysEachLiveObjectOnce`): as `SweepCalls`, it relies on `Destroy` taking effect at once.
- BatchCompletesIffAllSucceed (`Network.BatchCompletesIffAllSucceed`): the pending requests are assumed to be distinct objects, each reporting its own outcome. If the same pending request is listed twice, the source's second `SetCallback` replaces the first, the request reports once, and the batch never completes successfully; the model does not capture that.
- `Int2Key.GetHashCode` is not modelled: hashing is not observable beyond equality.
- The finalizer of `VMCollection` is not modelled (garbage collection).
- `Network/HttpPostManager.cs`, `Addressable/IconLoader.cs`, `Data/Editor/CreateTable.cs`, `Data/PersistentSingleton.cs`, `Data/1_TableData/TableBase.cs`, `Data/1_TableData/TableRepository.cs` and `Network/GlobalAPI.cs` are not part of this model.

## Findings

| source | as written | input that shows it | evidently intended | confidence | as-written member | corrected member |
|---|---|---|---|---|---|---|
| Network/WebRequestAPI.cs:103-125 | The constructor handles every already-completed request in its loop, and then calls `CheckIfAllDone` once more. If the last of those requests completes the batch inside the loop, the final check invokes `onComplete` a second time. | A batch over one request that has already completed successfully, with an `onComplete` callback | `onComplete` runs at most once | not executed | Network.AlreadyCompletedBatchCompletesTwice | Network.BatchCompletesAtMostOnce |
