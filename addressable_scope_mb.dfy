/** `AddressableScopeMB`: a component that ties registered keys and tracked
    instances to its own lifetime. The engine side (object creation,
    `Destroy`, and Unity's "destroyed objects compare equal to null") is the
    `Scene` class. */
module AddressableScopeComponents {
  import opened Wrappers
  import opened AddressableCache
  import opened Addressables
  import opened AddressableScopes

  datatype GameObject = GameObject(id: nat)

  /** One pass of `if (go) Destroy(go);` over `gos`, starting from the set of
      destroyed objects `destroyed`: the new set, and the objects `Destroy`
      was called on, in order. */
  function Sweep(destroyed: set<GameObject>, gos: seq<GameObject>): (r: (set<GameObject>, seq<GameObject>))
    decreases |gos|
  {
    if gos == [] then (destroyed, [])
    else
      var g := gos[0];
      var calls1 := if g in destroyed then [] else [g];
      var rest := Sweep(destroyed + {g}, gos[1..]);
      (rest.0, calls1 + rest.1)
  }

  /** After the pass every listed object is destroyed, and nothing else newly is. */
  lemma {:induction false} SweepDestroyed(destroyed: set<GameObject>, gos: seq<GameObject>)
    ensures Sweep(destroyed, gos).0 == destroyed + (set g | g in gos)
    decreases |gos|
  {
    if gos != [] {
      SweepDestroyed(destroyed + {gos[0]}, gos[1..]);
      SweepUnfold(destroyed, gos);
      assert (set g | g in gos) == {gos[0]} + (set g | g in gos[1..]);
    }
  }

  /** `Destroy` is called on exactly the objects of `gos` not destroyed
      beforehand, each once. */
  lemma {:induction false} SweepCalls(destroyed: set<GameObject>, gos: seq<GameObject>)
    ensures var calls := Sweep(destroyed, gos).1;
      && (forall i :: 0 <= i < |calls| ==> calls[i] !in destroyed && calls[i] in gos)
      && (forall g :: g in gos && g !in destroyed ==> g in calls)
      && NoDuplicates(calls)
    decreases |gos|
  {
    if gos != [] {
      var g := gos[0];
      SweepCalls(destroyed + {g}, gos[1..]);
      SweepUnfold(destroyed, gos);
    }
  }

  lemma SweepUnfold(destroyed: set<GameObject>, gos: seq<GameObject>)
    requires gos != []
    ensures Sweep(destroyed, gos).0 == Sweep(destroyed + {gos[0]}, gos[1..]).0
    ensures Sweep(destroyed, gos).1
         == (if gos[0] in destroyed then [] else [gos[0]]) + Sweep(destroyed + {gos[0]}, gos[1..]).1
  {
  }

  /** Unity's scene: the objects it created (ids below `nextId`), the ones
      destroyed, and the log of `Destroy` calls. */
  class Scene {
    var nextId: nat
    var destroyed: set<GameObject>
    var destroyCalls: seq<GameObject>

    ghost predicate Valid()
      reads this
    {
      forall g :: g in destroyed ==> g.id < nextId
    }

    constructor()
      ensures Valid() && nextId == 0 && destroyed == {} && destroyCalls == []
    {
      nextId := 0;
      destroyed := {};
      destroyCalls := [];
    }

    /** The object exists and was not destroyed: `if (go)` / `go != null`. */
    predicate Alive(go: Option<GameObject>)
      reads this
    {
      go.Some? && go.value.id < nextId && go.value !in destroyed
    }

    /** `Object.Instantiate`: a new live object. */
    method Instantiate() returns (go: GameObject)
      requires Valid()
      modifies this
      ensures Valid() && Alive(Some(go)) && go == GameObject(old(nextId)) && nextId == old(nextId) + 1
      ensures destroyed == old(destroyed) && destroyCalls == old(destroyCalls)
    {
      go := GameObject(nextId);
      nextId := nextId + 1;
    }

    /** `Object.Destroy`. */
    method Destroy(go: GameObject)
      requires Valid() && go.id < nextId
      modifies this
      ensures Valid() && nextId == old(nextId)
      ensures destroyed == old(destroyed) + {go} && destroyCalls == old(destroyCalls) + [go]
    {
      destroyed := destroyed + {go};
      destroyCalls := destroyCalls + [go];
    }
  }

  class AddressableScopeMB {
    const releaseOnDisable: bool
    const releaseOnDestroy: bool
    const destroyInstancesOnRelease: bool
    var keys: seq<string>
    var instances: seq<GameObject>
    var released: bool

    /** Every tracked object was created by `scene`. */
    ghost predicate ValidIn(scene: Scene)
      reads this, scene
    {
      scene.Valid() && forall g :: g in instances ==> g.id < scene.nextId
    }

    /** A component with the flags set in the Inspector; the serialized
        defaults are `false`, `true` and `true`. */
    constructor(scene: Scene, releaseOnDisable: bool, releaseOnDestroy: bool, destroyInstancesOnRelease: bool)
      requires scene.Valid()
      ensures ValidIn(scene)
      ensures this.releaseOnDisable == releaseOnDisable && this.releaseOnDestroy == releaseOnDestroy
      ensures this.destroyInstancesOnRelease == destroyInstancesOnRelease
      ensures keys == [] && instances == [] && !released
    {
      this.releaseOnDisable := releaseOnDisable;
      this.releaseOnDestroy := releaseOnDestroy;
      this.destroyInstancesOnRelease := destroyInstancesOnRelease;
      keys := [];
      instances := [];
      released := false;
    }

    method RegisterKey(key: string)
      modifies this
      ensures keys == old(keys) + (if key == "" then [] else [key])
      ensures instances == old(instances) && released == old(released)
    {
      if key == "" { return; }
      keys := keys + [key];
    }

    /** `Borrow<T>(key, registerToRelease)`; `manager` is the singleton
        instance, possibly absent. */
    method Borrow(manager: AddressablesManager?, key: string, registerToRelease: bool) returns (asset: Asset)
      requires manager != null ==> manager.Valid()
      modifies this, manager
      ensures manager != null ==> manager.Valid()
      ensures manager == null ==> asset == Null && keys == old(keys)
      ensures manager != null ==>
                (manager.Model(), asset) == AddressableCache.GetAsset(old(manager.Model()), key)
                && keys == old(keys) + (if asset != Null && registerToRelease && key != "" then [key] else [])
      ensures instances == old(instances) && released == old(released)
    {
      if manager == null { return Null; }
      asset := manager.GetAsset(key);
      if asset != Null && registerToRelease {
        RegisterKey(key);
      }
    }

    method ReleaseNow(manager: AddressablesManager, key: string)
      requires manager.Valid()
      modifies this, manager
      ensures manager.Valid()
      ensures key != "" && key in old(keys) ==>
                keys == RemoveFirst(old(keys), key)
                && manager.Model() == AddressableCache.ReleaseAsset(old(manager.Model()), key, false)
      ensures !(key != "" && key in old(keys)) ==> keys == old(keys) && manager.Model() == old(manager.Model())
      ensures instances == old(instances) && released == old(released)
    {
      if key == "" { return; }
      if key in keys {
        keys := RemoveFirst(keys, key);
        manager.ReleaseAsset(key, false);
      }
    }

    /** `LoadAsync<T>(key)`: load, registering the key when the object is non-null. */
    method LoadAsync(manager: AddressablesManager, key: string, outcome: LoadOutcome)
      returns (asset: Asset, canceled: bool)
      requires manager.Valid()
      modifies this, manager
      ensures manager.Valid()
      ensures key == "" ==> asset == Null && !canceled && keys == old(keys) && manager.Model() == old(manager.Model())
      ensures key != "" ==>
                var (r, ret) := LoadNow(old(manager.Model()), key, outcome);
                && manager.Model() == r
                && (canceled <==> ret.CanceledThrown?)
                && asset == LoadedAsset(ret)
                && keys == old(keys) + (if asset != Null then [key] else [])
      ensures instances == old(instances) && released == old(released)
    {
      canceled := false;
      if key == "" { return Null, false; }
      var start := manager.BeginLoadAsset(key);
      var ret: LoadReturn;
      match start {
        case Hit(result) =>
          ret := Returned(result);
        case Pending(h) =>
          ret := manager.CompleteLoadAsset(key, h, outcome);
      }
      assert (manager.Model(), ret) == LoadNow(old(manager.Model()), key, outcome);
      if ret.CanceledThrown? {
        return Null, true;
      }
      asset := ret.asset;
      if asset != Null {
        RegisterKey(key);
      }
    }

    /** `InstantiateAsync(key)`: load the prefab, instantiate it and track the copy. */
    method InstantiateAsync(manager: AddressablesManager, scene: Scene, key: string, outcome: LoadOutcome)
      returns (go: Option<GameObject>, canceled: bool)
      requires manager.Valid() && ValidIn(scene)
      modifies this, manager, scene
      ensures manager.Valid() && ValidIn(scene)
      ensures var (r, ret) := LoadNow(old(manager.Model()), key, outcome);
              && (key != "" ==> manager.Model() == r && (canceled <==> ret.CanceledThrown?))
              && (go.Some? <==> key != "" && LoadedAsset(ret) != Null)
      ensures go.None? ==> instances == old(instances) && keys == old(keys) && scene.nextId == old(scene.nextId)
      ensures key == "" ==> go.None? && !canceled && manager.Model() == old(manager.Model())
      ensures go.Some? ==> go.value == GameObject(old(scene.nextId)) && instances == old(instances) + [go.value]
                           && keys == old(keys) + [key] && scene.Alive(go)
      ensures scene.destroyed == old(scene.destroyed) && scene.destroyCalls == old(scene.destroyCalls)
      ensures released == old(released)
    {
      var prefab;
      prefab, canceled := LoadAsync(manager, key, outcome);
      if canceled || prefab == Null { return None, canceled; }
      var obj := scene.Instantiate();
      go := Some(obj);
      TrackInstance(scene, go);
    }

    /** `TrackInstance(go)`: only live objects are tracked. */
    method TrackInstance(scene: Scene, go: Option<GameObject>)
      requires ValidIn(scene)
      modifies this
      ensures ValidIn(scene)
      ensures instances == old(instances) + (if scene.Alive(go) then [go.value] else [])
      ensures keys == old(keys) && released == old(released)
    {
      if scene.Alive(go) {
        instances := instances + [go.value];
      }
    }

    /** `DestroyInstanceNow(go)`: untrack the first occurrence and destroy it. */
    method DestroyInstanceNow(scene: Scene, go: Option<GameObject>)
      requires ValidIn(scene)
      modifies this, scene
      ensures ValidIn(scene) && scene.nextId == old(scene.nextId)
      ensures old(scene.Alive(go)) && go.value in old(instances) ==>
                instances == RemoveFirst(old(instances), go.value)
                && scene.destroyed == old(scene.destroyed) + {go.value}
                && scene.destroyCalls == old(scene.destroyCalls) + [go.value]
      ensures !(old(scene.Alive(go)) && go.value in old(instances)) ==>
                instances == old(instances) && scene.destroyed == old(scene.destroyed)
                && scene.destroyCalls == old(scene.destroyCalls)
      ensures keys == old(keys) && released == old(released)
    {
      if !scene.Alive(go) { return; }
      var g := go.value;
      if g in instances {
        instances := RemoveFirst(instances, g);
        forall y | y in instances ensures y in old(instances) {
          assert multiset(instances)[y] > 0;
        }
        scene.Destroy(g);
      }
    }

    /** `DestroyAllInstances()`: destroy every tracked object still alive and
        stop tracking them all; keys are untouched. */
    method DestroyAllInstances(scene: Scene)
      requires ValidIn(scene)
      modifies this, scene
      ensures ValidIn(scene) && instances == [] && scene.nextId == old(scene.nextId)
      ensures scene.destroyed == Sweep(old(scene.destroyed), old(instances)).0
      ensures scene.destroyCalls == old(scene.destroyCalls) + Sweep(old(scene.destroyed), old(instances)).1
      ensures keys == old(keys) && released == old(released)
    {
      var gos := instances;
      ghost var target := Sweep(scene.destroyed, gos);
      for i := 0 to |gos|
        modifies scene
        invariant scene.Valid() && scene.nextId == old(scene.nextId)
        invariant Sweep(scene.destroyed, gos[i..]).0 == target.0
        invariant scene.destroyCalls + Sweep(scene.destroyed, gos[i..]).1 == old(scene.destroyCalls) + target.1
      {
        var go := gos[i];
        SweepUnfold(scene.destroyed, gos[i..]);
        assert gos[i..][1..] == gos[i + 1..];
        if go !in scene.destroyed {
          assert go in old(instances);
          scene.Destroy(go);
        } else {
          assert scene.destroyed + {go} == scene.destroyed;
        }
      }
      instances := [];
    }

    /** `ReleaseAll()`: on the first call only, release every registered key
        in order, destroy the tracked objects when configured to, and clear both
        lists. */
    method ReleaseAll(manager: AddressablesManager, scene: Scene)
      requires manager.Valid() && ValidIn(scene)
      modifies this, manager, scene
      ensures manager.Valid() && ValidIn(scene) && released && scene.nextId == old(scene.nextId)
      ensures old(released) ==>
                keys == old(keys) && instances == old(instances) && manager.Model() == old(manager.Model())
                && scene.destroyed == old(scene.destroyed) && scene.destroyCalls == old(scene.destroyCalls)
      ensures !old(released) ==>
                keys == [] && instances == []
                && manager.Model() == AddressableCache.ReleaseAssets(old(manager.Model()), old(keys), false)
      ensures !old(released) && destroyInstancesOnRelease ==>
                scene.destroyed == Sweep(old(scene.destroyed), old(instances)).0
                && scene.destroyCalls == old(scene.destroyCalls) + Sweep(old(scene.destroyed), old(instances)).1
      ensures !old(released) && !destroyInstancesOnRelease ==>
                scene.destroyed == old(scene.destroyed) && scene.destroyCalls == old(scene.destroyCalls)
    {
      if released { return; }
      released := true;
      for i := 0 to |keys|
        modifies manager
        invariant manager.Valid()
        invariant AddressableCache.ReleaseAssets(manager.Model(), keys[i..], false)
               == AddressableCache.ReleaseAssets(old(manager.Model()), keys, false)
      {
        assert keys[i..][1..] == keys[i + 1..];
        manager.ReleaseAsset(keys[i], false);
      }
      keys := [];
      if destroyInstancesOnRelease {
        DestroyAllInstances(scene);
      }
      instances := [];
    }

    method OnDisable(manager: AddressablesManager, scene: Scene)
      requires manager.Valid() && ValidIn(scene)
      modifies this, manager, scene
      ensures manager.Valid() && ValidIn(scene) && scene.nextId == old(scene.nextId)
      ensures !releaseOnDisable || old(released) ==>
                keys == old(keys) && instances == old(instances) && released == old(released)
                && manager.Model() == old(manager.Model())
                && scene.destroyed == old(scene.destroyed) && scene.destroyCalls == old(scene.destroyCalls)
      ensures releaseOnDisable && !old(released) ==>
                released && keys == [] && instances == []
                && manager.Model() == AddressableCache.ReleaseAssets(old(manager.Model()), old(keys), false)
      ensures releaseOnDisable && !old(released) && destroyInstancesOnRelease ==>
                scene.destroyed == Sweep(old(scene.destroyed), old(instances)).0
                && scene.destroyCalls == old(scene.destroyCalls) + Sweep(old(scene.destroyed), old(instances)).1
      ensures releaseOnDisable && !old(released) && !destroyInstancesOnRelease ==>
                scene.destroyed == old(scene.destroyed) && scene.destroyCalls == old(scene.destroyCalls)
    {
      if releaseOnDisable {
        ReleaseAll(manager, scene);
      }
    }

    method OnDestroy(manager: AddressablesManager, scene: Scene)
      requires manager.Valid() && ValidIn(scene)
      modifies this, manager, scene
      ensures manager.Valid() && ValidIn(scene) && scene.nextId == old(scene.nextId)
      ensures !releaseOnDestroy || old(released) ==>
                keys == old(keys) && instances == old(instances) && released == old(released)
                && manager.Model() == old(manager.Model())
                && scene.destroyed == old(scene.destroyed) && scene.destroyCalls == old(scene.destroyCalls)
      ensures releaseOnDestroy && !old(released) ==>
                released && keys == [] && instances == []
                && manager.Model() == AddressableCache.ReleaseAssets(old(manager.Model()), old(keys), false)
      ensures releaseOnDestroy && !old(released) && destroyInstancesOnRelease ==>
                scene.destroyed == Sweep(old(scene.destroyed), old(instances)).0
                && scene.destroyCalls == old(scene.destroyCalls) + Sweep(old(scene.destroyed), old(instances)).1
      ensures releaseOnDestroy && !old(released) && !destroyInstancesOnRelease ==>
                scene.destroyed == old(scene.destroyed) && scene.destroyCalls == old(scene.destroyCalls)
    {
      if releaseOnDestroy {
        ReleaseAll(manager, scene);
      }
    }
  }

  /** A cleanup pass never calls `Destroy` on an object that was already
      destroyed, nor twice on the same object, even when an object was tracked
      twice. */
  lemma SweepDestroysEachLiveObjectOnce(destroyed: set<GameObject>, gos: seq<GameObject>, g: GameObject)
    requires g in gos && g !in destroyed
    ensures multiset(Sweep(destroyed, gos).1)[g] == 1
  {
    var calls := Sweep(destroyed, gos).1;
    SweepCalls(destroyed, gos);
    var k :| 0 <= k < |calls| && calls[k] == g;
    CountOne(calls, k);
  }

  lemma {:induction false} CountOne(s: seq<GameObject>, k: nat)
    requires k < |s| && NoDuplicates(s)
    ensures multiset(s)[s[k]] == 1
  {
    if k == 0 {
      assert s == [s[0]] + s[1..];
      assert s[0] !in s[1..];
    } else {
      assert s == [s[0]] + s[1..];
      assert s[1..][k - 1] == s[k];
      CountOne(s[1..], k - 1);
    }
  }

  /** Borrowing a cached key and giving it back at once leaves its entry as it
      was; the only trace is the cancelled delayed removal. */
  lemma BorrowThenReleaseRestores(c: Cache, key: string)
    requires key in c.infos && c.infos[key].refCnt >= 1
    ensures var r := AddressableCache.ReleaseAsset(AddressableCache.GetAsset(c, key).0, key, false);
      r.infos == c.infos && r.timers == c.timers - {key}
      && r.groups == c.groups && r.loaded == c.loaded && r.released == c.released
  {
    var c1 := AddressableCache.GetAsset(c, key).0;
    assert c1.infos[key].refCnt > 1;
    assert c1.infos[key := c1.infos[key].(refCnt := c1.infos[key].refCnt - 1)] == c.infos;
  }
}
