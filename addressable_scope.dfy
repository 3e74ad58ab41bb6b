/** `AddressableLease`, `AddressableMultiScope`, `ActionDisposable` and the
    `AddressableScope` helpers: small lifetime objects on top of the manager.
    Each holds a `_disposed` flag; releasing goes through the manager's
    `ReleaseAsset` with no delay. A null string is modelled as the empty
    string wherever the code tests it with `IsNullOrEmpty`. */
module AddressableScopes {
  import opened Wrappers
  import opened AddressableCache
  import opened Addressables

  /** `await AddressablesManager.LoadAssetAsync<T>(key)` when the awaited
      provider load (if one is started) ends with `outcome`. */
  function LoadNow(c: Cache, key: string, outcome: LoadOutcome): (r: (Cache, LoadReturn))
    ensures key in c.infos ==> r == (Acquire(c, key), Returned(c.infos[key].result))
    ensures key !in c.infos ==> r == CompleteLoad(Issue(c), key, NextHandle(c), outcome)
  {
    var (c1, start) := BeginLoad(c, key);
    match start
    case Hit(result) => (c1, Returned(result))
    case Pending(h) => CompleteLoad(c1, key, h, outcome)
  }

  /** The object a load returned to its caller, if any. */
  function LoadedAsset(ret: LoadReturn): Asset {
    if ret.Returned? then ret.asset else Null
  }

  /** A load that yields a null object still takes a reference: a cache hit on
      an entry holding `Null`, or a successful load of `Null`, raises or creates
      a count; `Get`, `LoadAsync` and `AddToScope` then register nothing that
      would give it back. */
  lemma NullLoadStillTakesReference(c: Cache, key: string, outcome: LoadOutcome)
    requires (key in c.infos && c.infos[key].result == Null) || (key !in c.infos && outcome == Succeeded(Null))
    ensures var (r, ret) := LoadNow(c, key, outcome);
      && ret == Returned(Null) && key in r.infos
      && r.infos[key].refCnt == (if key in c.infos then c.infos[key].refCnt else 0) + 1
  {
  }

  /** `AddressableLease<T>`: releases its key once, on the first `Dispose`. */
  class AddressableLease {
    var key: Option<string>
    var asset: Asset
    var disposed: bool

    constructor(key: string, asset: Asset)
      ensures this.key == Some(key) && this.asset == asset && !disposed
    {
      this.key := Some(key);
      this.asset := asset;
      disposed := false;
    }

    method Dispose(manager: AddressablesManager)
      requires manager.Valid()
      modifies this, manager
      ensures manager.Valid()
      ensures old(disposed) ==> manager.Model() == old(manager.Model()) && key == old(key) && asset == old(asset)
      ensures !old(disposed) && old(key).Some? && old(key).value != "" ==>
                manager.Model() == AddressableCache.ReleaseAsset(old(manager.Model()), old(key).value, false)
      ensures !old(disposed) && !(old(key).Some? && old(key).value != "") ==> manager.Model() == old(manager.Model())
      ensures !old(disposed) ==> key.None? && asset == Null
      ensures disposed
    {
      if disposed { return; }
      disposed := true;
      if key.Some? && key.value != "" {
        manager.ReleaseAsset(key.value, false);
      }
      asset := Null;
      key := None;
    }
  }

  /** `AddressableMultiScope`: a list of keys released together on the first `Dispose`. */
  class AddressableMultiScope {
    var keys: seq<string>
    var disposed: bool

    constructor()
      ensures keys == [] && !disposed
    {
      keys := [];
      disposed := false;
    }

    method Add(key: string)
      modifies this
      ensures key == "" ==> keys == old(keys)
      ensures key != "" ==> keys == old(keys) + [key]
      ensures disposed == old(disposed)
    {
      if key == "" { return; }
      keys := keys + [key];
    }

    method ReleaseNow(manager: AddressablesManager, key: string)
      requires manager.Valid()
      modifies this, manager
      ensures manager.Valid() && disposed == old(disposed)
      ensures key != "" && key in old(keys) ==>
                keys == RemoveFirst(old(keys), key)
                && manager.Model() == AddressableCache.ReleaseAsset(old(manager.Model()), key, false)
      ensures !(key != "" && key in old(keys)) ==> keys == old(keys) && manager.Model() == old(manager.Model())
    {
      if key == "" { return; }
      if key in keys {
        keys := RemoveFirst(keys, key);
        manager.ReleaseAsset(key, false);
      }
    }

    method Dispose(manager: AddressablesManager)
      requires manager.Valid()
      modifies this, manager
      ensures manager.Valid() && disposed
      ensures old(disposed) ==> keys == old(keys) && manager.Model() == old(manager.Model())
      ensures !old(disposed) ==>
                keys == [] && manager.Model() == AddressableCache.ReleaseAssets(old(manager.Model()), old(keys), false)
    {
      if disposed { return; }
      disposed := true;
      for i := 0 to |keys|
        invariant manager.Valid() && keys == old(keys) && disposed
        invariant AddressableCache.ReleaseAssets(manager.Model(), keys[i..], false)
               == AddressableCache.ReleaseAssets(old(manager.Model()), keys, false)
      {
        assert keys[i..][1..] == keys[i + 1..];
        manager.ReleaseAsset(keys[i], false);
      }
      keys := [];
    }
  }

  /** `AddressableScope.Get<T>(key)`: load, and wrap a non-null result in a new
      lease; `canceled` is the cancellation exception passing through. */
  method Get(manager: AddressablesManager, key: string, outcome: LoadOutcome)
    returns (lease: AddressableLease?, canceled: bool)
    requires manager.Valid()
    modifies manager
    ensures manager.Valid()
    ensures key == "" ==> lease == null && !canceled && manager.Model() == old(manager.Model())
    ensures key != "" ==>
              var (r, ret) := LoadNow(old(manager.Model()), key, outcome);
              && manager.Model() == r
              && (canceled <==> ret.CanceledThrown?)
              && (lease != null <==> LoadedAsset(ret) != Null)
    ensures lease != null ==> fresh(lease) && lease.key == Some(key) && !lease.disposed
                              && lease.asset == LoadedAsset(LoadNow(old(manager.Model()), key, outcome).1)
  {
    lease := null;
    canceled := false;
    if key == "" { return; }
    var start := manager.BeginLoadAsset(key);
    var ret: LoadReturn;
    match start {
      case Hit(result) =>
        ret := Returned(result);
      case Pending(h) =>
        ret := manager.CompleteLoadAsset(key, h, outcome);
    }
    assert (manager.Model(), ret) == LoadNow(old(manager.Model()), key, outcome);
    if ret.CanceledThrown? {
      canceled := true;
      return;
    }
    if ret.asset == Null { return; }
    lease := new AddressableLease(key, ret.asset);
  }

  /** `AddToScope<T>(scope, key)`: `GetAsset`, registering the key in the scope
      only when the object is non-null. */
  method AddToScope(manager: AddressablesManager, scope: AddressableMultiScope?, key: string) returns (asset: Asset)
    requires manager.Valid()
    modifies manager, scope
    ensures manager.Valid()
    ensures scope == null || key == "" ==> asset == Null && manager.Model() == old(manager.Model())
    ensures scope != null && key != "" ==>
              (manager.Model(), asset) == AddressableCache.GetAsset(old(manager.Model()), key)
              && scope.keys == old(scope.keys) + (if asset != Null then [key] else [])
  {
    if scope == null || key == "" { return Null; }
    asset := manager.GetAsset(key);
    if asset != Null {
      scope.Add(key);
    }
  }

  /** `ActionDisposable`: runs its action on the first `Dispose` only;
      `invocations` counts the runs. */
  class ActionDisposable {
    var hasAction: bool
    var disposed: bool
    var invocations: nat

    ghost predicate Valid()
      reads this
    {
      invocations <= 1 && (disposed ==> !hasAction) && (invocations == 1 ==> disposed)
    }

    constructor(hasAction: bool)
      ensures Valid() && this.hasAction == hasAction && !disposed && invocations == 0
    {
      this.hasAction := hasAction;
      disposed := false;
      invocations := 0;
    }

    method Dispose()
      requires Valid()
      modifies this
      ensures Valid() && disposed && !hasAction
      ensures invocations == old(invocations) + (if !old(disposed) && old(hasAction) then 1 else 0)
    {
      if disposed { return; }
      disposed := true;
      if hasAction {
        invocations := invocations + 1;
      }
      hasAction := false;
    }
  }
}
