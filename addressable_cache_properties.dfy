/** Properties of the `AddressablesManager` bookkeeping that relate several
    steps: the invariant every step but the forced group release keeps, the
    list load handling each distinct key once, a preload group's batch handle
    being released exactly once, and the documented quirks of the source
    (counts below zero, a timer left armed by the list-load race, a leaked
    handle on the tag-load race, a stale timer after a forced release). */
module AddressableCacheProperties {
  import opened Wrappers
  import opened AddressableCache

  // ---------------------------------------------------------------------
  // The invariant
  // ---------------------------------------------------------------------

  /** The provider numbers its handles in issue order. */
  ghost predicate HandlesNumbered(c: Cache) {
    forall i :: 0 <= i < |c.loaded| ==> c.loaded[i] == Handle(i)
  }

  predicate Issued(c: Cache, h: Handle) {
    h.id < |c.loaded|
  }

  /** Every entry is stored under its own key, only cached keys have a pending
      removal, and every handle the manager holds was issued by the provider. */
  ghost predicate Inv(c: Cache) {
    HandlesNumbered(c)
    && (forall k :: k in c.infos ==> c.infos[k].assetKey == k)
    && c.timers <= c.infos.Keys
    && (forall k :: k in c.infos && c.infos[k].handle.Some? ==> Issued(c, c.infos[k].handle.value))
    && (forall g :: g in c.groups ==> Issued(c, c.groups[g].handle))
  }

  lemma EmptyInv()
    ensures Inv(Empty)
  {
  }

  /** A load never hands out a handle the provider issued before. */
  lemma FreshHandle(c: Cache)
    requires HandlesNumbered(c)
    ensures NextHandle(c) !in c.loaded
    ensures HandlesNumbered(Issue(c))
  {
  }

  /** Every non-suspending step of the manager. */
  datatype Step =
    | GetAssetStep(key: string)
    | BeginLoadStep(key: string)
    | CompleteLoadStep(key: string, h: Handle, outcome: LoadOutcome)
    | CompleteLoadTagStep(key: string, h: Handle, outcome: LoadOutcome)
    | BeginLoadListStep(names: seq<string>)
    | CompleteLoadOneStep(key: string, h: Handle, outcome: LoadOutcome)
    | ReleaseAssetStep(key: string, delayed: bool)
    | ReleaseAssetsStep(names: seq<string>, delayed: bool)
    | FireTimerStep(key: string)
    | BeginPreloadStep(key: string)
    | CompletePreloadStep(key: string, names: seq<string>, h: Handle, batch: BatchOutcome)
    | CompletePreloadByTagStep(key: string, h: Handle, batch: BatchOutcome)
    | ReleasePreloadStep(key: string, force: bool)
    | ReleasePreloadsStep(names: seq<string>)

  /** A completion step awaits a handle the provider issued; a timer fires only while armed. */
  predicate Enabled(c: Cache, s: Step) {
    match s
    case CompleteLoadStep(_, h, _) => Issued(c, h)
    case CompleteLoadTagStep(_, h, _) => Issued(c, h)
    case CompleteLoadOneStep(_, h, _) => Issued(c, h)
    case CompletePreloadStep(_, _, h, _) => Issued(c, h)
    case CompletePreloadByTagStep(_, h, _) => Issued(c, h)
    case FireTimerStep(key) => key in c.timers
    case _ => true
  }

  function Apply(c: Cache, s: Step): Cache
    requires Enabled(c, s)
  {
    match s
    case GetAssetStep(key) => GetAsset(c, key).0
    case BeginLoadStep(key) => BeginLoad(c, key).0
    case CompleteLoadStep(key, h, outcome) => CompleteLoad(c, key, h, outcome).0
    case CompleteLoadTagStep(key, h, outcome) => CompleteLoadTag(c, key, h, outcome).0
    case BeginLoadListStep(names) => BeginLoadMany(c, names).0
    case CompleteLoadOneStep(key, h, outcome) => CompleteLoadOne(c, key, h, outcome).0
    case ReleaseAssetStep(key, delayed) => ReleaseAsset(c, key, delayed)
    case ReleaseAssetsStep(names, delayed) => ReleaseAssets(c, names, delayed)
    case FireTimerStep(key) => FireTimer(c, key)
    case BeginPreloadStep(key) => BeginPreload(c, key).0
    case CompletePreloadStep(key, names, h, batch) => CompletePreload(c, key, names, h, batch).0
    case CompletePreloadByTagStep(key, h, batch) => CompletePreloadByTag(c, key, h, batch).0
    case ReleasePreloadStep(key, force) => ReleasePreload(c, key, force)
    case ReleasePreloadsStep(order) => ReleasePreloads(c, order)
  }

  lemma ReleaseAssetPreservesInv(c: Cache, key: string, delayed: bool)
    requires Inv(c)
    ensures Inv(ReleaseAsset(c, key, delayed))
  {
  }

  lemma {:induction false} ReleaseAssetsPreservesInv(c: Cache, keys: seq<string>, delayed: bool)
    requires Inv(c)
    ensures Inv(ReleaseAssets(c, keys, delayed))
    decreases |keys|
  {
    if keys != [] {
      ReleaseAssetPreservesInv(c, keys[0], delayed);
      ReleaseAssetsPreservesInv(ReleaseAsset(c, keys[0], delayed), keys[1..], delayed);
    }
  }

  lemma {:induction false} ReleasePreloadsPreservesInv(c: Cache, order: seq<string>)
    requires Inv(c)
    ensures Inv(ReleasePreloads(c, order))
    decreases |order|
  {
    if order != [] {
      var c1 := ReleasePreload(c, order[0], false);
      if order[0] in c.groups {
        ReleaseAssetsPreservesInv(c, c.groups[order[0]].bundleNames, false);
      }
      ReleasePreloadsPreservesInv(c1, order[1..]);
    }
  }

  lemma {:induction false} BeginLoadManyFromPreservesInv(
    c: Cache, ns: seq<string>, results: map<string, Asset>, pending: seq<(string, Handle)>)
    requires Inv(c)
    ensures Inv(BeginLoadManyFrom(c, ns, results, pending).0)
    decreases |ns|
  {
    if ns != [] {
      var (c1, r1, p1) := BeginLoadManyStep(c, ns[0], results, pending);
      if ns[0] != "" && ns[0] !in c.infos {
        FreshHandle(c);
      }
      BeginLoadManyFromPreservesInv(c1, ns[1..], r1, p1);
    }
  }

  lemma {:induction false} PreloadInstallFromPreservesInv(
    c: Cache, key: string, names: seq<string>, prefabs: seq<(string, Asset)>, i: nat)
    requires Inv(c) && i <= |names|
    ensures Inv(PreloadInstallFrom(c, key, names, prefabs, i).0)
    decreases |names| - i
  {
    if i < |names| {
      if names[i] !in c.infos {
        if i < |prefabs| {
          var c1 := c.(infos := c.infos[names[i] := PreloadedInfo(key, names[i], prefabs[i].1)]);
          PreloadInstallFromPreservesInv(c1, key, names, prefabs, i + 1);
        }
      } else {
        PreloadInstallFromPreservesInv(Acquire(c, names[i]), key, names, prefabs, i + 1);
      }
    }
  }

  lemma {:induction false} PreloadTagInstallFromPreservesInv(
    c: Cache, key: string, prefabs: seq<(string, Asset)>, installed: seq<string>)
    requires Inv(c)
    ensures Inv(PreloadTagInstallFrom(c, key, prefabs, installed).0)
    decreases |prefabs|
  {
    if prefabs != [] {
      var (name, asset) := prefabs[0];
      if name !in c.infos {
        var c1 := c.(infos := c.infos[name := PreloadedInfo(key, name, asset)]);
        PreloadTagInstallFromPreservesInv(c1, key, prefabs[1..], installed + [name]);
      } else {
        PreloadTagInstallFromPreservesInv(Acquire(c, name), key, prefabs[1..], installed);
      }
    }
  }

  lemma GetAssetPreservesInv(c: Cache, key: string)
    requires Inv(c)
    ensures Inv(GetAsset(c, key).0)
  {
  }

  lemma BeginLoadPreservesInv(c: Cache, key: string)
    requires Inv(c)
    ensures Inv(BeginLoad(c, key).0)
  {
    FreshHandle(c);
  }

  lemma CompleteLoadPreservesInv(c: Cache, key: string, h: Handle, outcome: LoadOutcome)
    requires Inv(c) && Issued(c, h)
    ensures Inv(CompleteLoad(c, key, h, outcome).0)
  {
  }

  lemma CompleteLoadTagPreservesInv(c: Cache, tag: string, h: Handle, outcome: LoadOutcome)
    requires Inv(c) && Issued(c, h)
    ensures Inv(CompleteLoadTag(c, tag, h, outcome).0)
  {
  }

  lemma CompleteLoadOnePreservesInv(c: Cache, name: string, h: Handle, outcome: LoadOutcome)
    requires Inv(c) && Issued(c, h)
    ensures Inv(CompleteLoadOne(c, name, h, outcome).0)
  {
  }

  lemma FireTimerPreservesInv(c: Cache, key: string)
    requires Inv(c) && key in c.timers
    ensures Inv(FireTimer(c, key))
  {
  }

  lemma BeginPreloadPreservesInv(c: Cache, key: string)
    requires Inv(c)
    ensures Inv(BeginPreload(c, key).0)
  {
    FreshHandle(c);
  }

  lemma CompletePreloadPreservesInv(c: Cache, key: string, names: seq<string>, h: Handle, batch: BatchOutcome)
    requires Inv(c) && Issued(c, h)
    ensures Inv(CompletePreload(c, key, names, h, batch).0)
  {
    if batch.BatchSucceeded? {
      PreloadInstallFromPreservesInv(c, key, names, batch.assets, 0);
    }
  }

  lemma CompletePreloadByTagPreservesInv(c: Cache, key: string, h: Handle, batch: BatchOutcome)
    requires Inv(c) && Issued(c, h)
    ensures Inv(CompletePreloadByTag(c, key, h, batch).0)
  {
    if batch.BatchSucceeded? {
      PreloadTagInstallFromPreservesInv(c, key, batch.assets, []);
    }
  }

  /** Every step except `ReleasePreload(key, force: true)` keeps the invariant. */
  lemma StepPreservesInv(c: Cache, s: Step)
    requires Inv(c) && Enabled(c, s)
    requires !(s.ReleasePreloadStep? && s.force)
    ensures Inv(Apply(c, s))
  {
    match s
    case GetAssetStep(key) => GetAssetPreservesInv(c, key);
    case BeginLoadStep(key) => BeginLoadPreservesInv(c, key);
    case CompleteLoadStep(key, h, outcome) => CompleteLoadPreservesInv(c, key, h, outcome);
    case CompleteLoadTagStep(key, h, outcome) => CompleteLoadTagPreservesInv(c, key, h, outcome);
    case BeginLoadListStep(names) => BeginLoadManyFromPreservesInv(c, Distinct(names), map[], []);
    case CompleteLoadOneStep(key, h, outcome) => CompleteLoadOnePreservesInv(c, key, h, outcome);
    case ReleaseAssetStep(key, delayed) => ReleaseAssetPreservesInv(c, key, delayed);
    case ReleaseAssetsStep(names, delayed) => ReleaseAssetsPreservesInv(c, names, delayed);
    case FireTimerStep(key) => FireTimerPreservesInv(c, key);
    case BeginPreloadStep(key) => BeginPreloadPreservesInv(c, key);
    case CompletePreloadStep(key, names, h, batch) => CompletePreloadPreservesInv(c, key, names, h, batch);
    case CompletePreloadByTagStep(key, h, batch) => CompletePreloadByTagPreservesInv(c, key, h, batch);
    case ReleasePreloadStep(key, force) =>
      if key in c.groups {
        ReleaseAssetsPreservesInv(c, c.groups[key].bundleNames, false);
      }
    case ReleasePreloadsStep(order) => ReleasePreloadsPreservesInv(c, order);
  }

  // ---------------------------------------------------------------------
  // Sequences without repetition
  // ---------------------------------------------------------------------

  lemma NoDuplicatesTail(s: seq<string>)
    requires NoDuplicates(s) && s != []
    ensures NoDuplicates(s[1..]) && s[0] !in s[1..]
    ensures forall x :: x in s <==> x == s[0] || x in s[1..]
  {
    forall i, j | 0 <= i < j < |s[1..]| ensures s[1..][i] != s[1..][j] {
      assert s[1..][i] == s[i + 1] && s[1..][j] == s[j + 1];
    }
    forall j | 0 <= j < |s[1..]| ensures s[1..][j] != s[0] {
      assert s[1..][j] == s[j + 1];
    }
    assert s == [s[0]] + s[1..];
  }

  lemma {:induction false} NoDuplicatesCountOne(s: seq<string>, x: string)
    requires NoDuplicates(s) && x in s
    ensures multiset(s)[x] == 1
    decreases |s|
  {
    NoDuplicatesTail(s);
    assert s == [s[0]] + s[1..];
    if s[0] != x {
      NoDuplicatesCountOne(s[1..], x);
    }
  }

  // ---------------------------------------------------------------------
  // The list load handles each distinct non-empty key once
  // ---------------------------------------------------------------------

  /** The names among `ns` that start a provider load: non-empty and not cached. */
  function Misses(keys: set<string>, ns: seq<string>): (m: seq<string>)
    ensures forall x :: x in m <==> x in ns && x != "" && x !in keys
  {
    if ns == [] then []
    else if ns[0] != "" && ns[0] !in keys then [ns[0]] + Misses(keys, ns[1..])
    else Misses(keys, ns[1..])
  }

  lemma {:induction false} MissesNoDuplicates(keys: set<string>, ns: seq<string>)
    requires NoDuplicates(ns)
    ensures NoDuplicates(Misses(keys, ns))
    decreases |ns|
  {
    if ns != [] {
      NoDuplicatesTail(ns);
      MissesNoDuplicates(keys, ns[1..]);
    }
  }

  /** Requested names that are cache hits. */
  ghost predicate HitIn(c: Cache, ns: seq<string>, k: string) {
    k in ns && k != "" && k in c.infos
  }

  /** The first loop of the list load acquires each cached listed name once
      and touches nothing else. */
  lemma {:induction false} BeginLoadManyFromEntries(
    c: Cache, ns: seq<string>, results: map<string, Asset>, pending: seq<(string, Handle)>)
    requires NoDuplicates(ns)
    ensures var r := BeginLoadManyFrom(c, ns, results, pending).0;
      && r.infos.Keys == c.infos.Keys
      && (forall k :: k in c.infos ==>
            r.infos[k] == if HitIn(c, ns, k) then c.infos[k].(refCnt := c.infos[k].refCnt + 1) else c.infos[k])
      && (forall k :: k in r.timers <==> k in c.timers && !HitIn(c, ns, k))
      && r.groups == c.groups && r.released == c.released
    decreases |ns|
  {
    if ns != [] {
      NoDuplicatesTail(ns);
      var (c1, r1, p1) := BeginLoadManyStep(c, ns[0], results, pending);
      BeginLoadManyFromEntries(c1, ns[1..], r1, p1);
    }
  }

  /** ... enters each cache hit's object in the results and keeps the rest. */
  lemma {:induction false} BeginLoadManyFromResults(
    c: Cache, ns: seq<string>, results: map<string, Asset>, pending: seq<(string, Handle)>)
    requires NoDuplicates(ns)
    ensures var res := BeginLoadManyFrom(c, ns, results, pending).1;
      && (forall k :: k in res <==> k in results || HitIn(c, ns, k))
      && (forall k :: HitIn(c, ns, k) ==> res[k] == c.infos[k].result)
      && (forall k :: k in results && !HitIn(c, ns, k) ==> res[k] == results[k])
    decreases |ns|
  {
    if ns != [] {
      NoDuplicatesTail(ns);
      var (c1, r1, p1) := BeginLoadManyStep(c, ns[0], results, pending);
      BeginLoadManyFromResults(c1, ns[1..], r1, p1);
    }
  }

  /** `n` consecutive provider handles, the first numbered `base`. */
  function HandlesFrom(base: nat, n: nat): (r: seq<Handle>)
    ensures |r| == n && forall j :: 0 <= j < n ==> r[j] == Handle(base + j)
  {
    seq(n, j requires 0 <= j < n => Handle(base + j))
  }

  /** The started loads for the misses `m`, numbered from `base`. */
  function StartedLoads(m: seq<string>, base: nat): (r: seq<(string, Handle)>)
    ensures |r| == |m| && forall j :: 0 <= j < |m| ==> r[j] == (m[j], Handle(base + j))
  {
    seq(|m|, j requires 0 <= j < |m| => (m[j], Handle(base + j)))
  }

  lemma HandlesFromCons(base: nat, n: nat)
    ensures [Handle(base)] + HandlesFrom(base + 1, n) == HandlesFrom(base, n + 1)
  {
  }

  lemma StartedLoadsCons(x: string, m: seq<string>, base: nat)
    ensures [(x, Handle(base))] + StartedLoads(m, base + 1) == StartedLoads([x] + m, base)
  {
  }

  /** ... starts one provider load per miss, in order, with consecutive handles ... */
  lemma {:induction false} BeginLoadManyFromLoaded(
    c: Cache, ns: seq<string>, results: map<string, Asset>, pending: seq<(string, Handle)>)
    ensures BeginLoadManyFrom(c, ns, results, pending).0.loaded
            == c.loaded + HandlesFrom(|c.loaded|, |Misses(c.infos.Keys, ns)|)
    decreases |ns|
  {
    if ns == [] {
      assert HandlesFrom(|c.loaded|, 0) == [];
    } else {
      var (c1, r1, p1) := BeginLoadManyStep(c, ns[0], results, pending);
      BeginLoadManyFromLoaded(c1, ns[1..], r1, p1);
      assert c1.infos.Keys == c.infos.Keys;
      var m1 := Misses(c.infos.Keys, ns[1..]);
      if ns[0] != "" && ns[0] !in c.infos {
        assert Misses(c.infos.Keys, ns) == [ns[0]] + m1;
        HandlesFromCons(|c.loaded|, |m1|);
        assert c1.loaded == c.loaded + [Handle(|c.loaded|)];
        assert (c.loaded + [Handle(|c.loaded|)]) + HandlesFrom(|c.loaded| + 1, |m1|)
               == c.loaded + ([Handle(|c.loaded|)] + HandlesFrom(|c.loaded| + 1, |m1|));
      } else {
        assert Misses(c.infos.Keys, ns) == m1;
      }
    }
  }

  /** One step of the list load's first loop, as seen by the started loads. */
  lemma BeginLoadManyStepPending(c: Cache, n: string, results: map<string, Asset>, pending: seq<(string, Handle)>)
    ensures var (c1, _, p1) := BeginLoadManyStep(c, n, results, pending);
      && c1.infos.Keys == c.infos.Keys
      && (n != "" && n !in c.infos ==> |c1.loaded| == |c.loaded| + 1 && p1 == pending + [(n, Handle(|c.loaded|))])
      && (n == "" || n in c.infos ==> c1.loaded == c.loaded && p1 == pending)
  {
  }

  /** ... and records each miss with its handle, in order. */
  lemma {:induction false} BeginLoadManyFromPending(
    c: Cache, ns: seq<string>, results: map<string, Asset>, pending: seq<(string, Handle)>)
    ensures BeginLoadManyFrom(c, ns, results, pending).2
            == pending + StartedLoads(Misses(c.infos.Keys, ns), |c.loaded|)
    decreases |ns|
  {
    if ns == [] {
      assert StartedLoads([], |c.loaded|) == [];
    } else {
      var (c1, r1, p1) := BeginLoadManyStep(c, ns[0], results, pending);
      BeginLoadManyFromPending(c1, ns[1..], r1, p1);
      BeginLoadManyStepPending(c, ns[0], results, pending);
      var m1 := Misses(c.infos.Keys, ns[1..]);
      if ns[0] != "" && ns[0] !in c.infos {
        assert Misses(c.infos.Keys, ns) == [ns[0]] + m1;
        StartedLoadsCons(ns[0], m1, |c.loaded|);
        assert (pending + [(ns[0], Handle(|c.loaded|))]) + StartedLoads(m1, |c.loaded| + 1)
               == pending + ([(ns[0], Handle(|c.loaded|))] + StartedLoads(m1, |c.loaded| + 1));
      } else {
        assert Misses(c.infos.Keys, ns) == m1;
      }
    }
  }

  /** The part of the list load before its await: every distinct non-empty
      requested key is either a cache hit, acquired exactly once and entered in
      the results, or a miss that starts exactly one fresh provider load; empty
      names are skipped and nothing is released. */
  lemma BeginLoadManySpec(c: Cache, names: seq<string>)
    requires HandlesNumbered(c)
    ensures
      var (r, res, pend) := BeginLoadMany(c, names);
      && r.infos.Keys == c.infos.Keys
      && (forall k :: k in c.infos ==>
            r.infos[k].refCnt == c.infos[k].refCnt + (if k in names && k != "" then 1 else 0))
      && (forall k :: k in names && k != "" && k in c.infos ==> k !in r.timers)
      && (forall k :: k in res <==> k in names && k != "" && k in c.infos)
      && (forall k :: k in res ==> res[k] == c.infos[k].result)
      && (forall k :: (exists j :: 0 <= j < |pend| && pend[j].0 == k) <==> k in names && k != "" && k !in c.infos)
      && (forall i, j :: 0 <= i < j < |pend| ==> pend[i].0 != pend[j].0)
      && (forall j :: 0 <= j < |pend| ==> pend[j].1 == Handle(|c.loaded| + j) && pend[j].1 !in c.loaded)
      && |r.loaded| == |c.loaded| + |pend| && HandlesNumbered(r)
      && r.released == c.released && r.groups == c.groups
  {
    var ns := Distinct(names);
    BeginLoadManyFromEntries(c, ns, map[], []);
    BeginLoadManyFromResults(c, ns, map[], []);
    BeginLoadManyFromLoaded(c, ns, map[], []);
    BeginLoadManyPending(c, names);
  }

  /** The pending loads of `BeginLoadMany`: one per distinct missing name,
      numbered from the next handle. */
  lemma BeginLoadManyPending(c: Cache, names: seq<string>)
    requires HandlesNumbered(c)
    ensures
      var (r, res, pend) := BeginLoadMany(c, names);
      && |pend| == |Misses(c.infos.Keys, Distinct(names))|
      && (forall k :: (exists j :: 0 <= j < |pend| && pend[j].0 == k) <==> k in names && k != "" && k !in c.infos)
      && (forall i, j :: 0 <= i < j < |pend| ==> pend[i].0 != pend[j].0)
      && (forall j :: 0 <= j < |pend| ==> pend[j].1 == Handle(|c.loaded| + j) && pend[j].1 !in c.loaded)
  {
    var ns := Distinct(names);
    BeginLoadManyFromPending(c, ns, map[], []);
    MissesNoDuplicates(c.infos.Keys, ns);
    var (r, res, pend) := BeginLoadMany(c, names);
    var m := Misses(c.infos.Keys, ns);
    forall k ensures (exists j :: 0 <= j < |pend| && pend[j].0 == k) <==> k in names && k != "" && k !in c.infos {
      if k in names && k != "" && k !in c.infos {
        assert k in m;
        var j :| 0 <= j < |m| && m[j] == k;
        assert pend[j].0 == k;
      }
    }
  }

  /** The load at index `j` was for `k` and produced a non-null object. */
  predicate NonNullLoad(loaded: seq<(string, Asset)>, k: string, j: int) {
    0 <= j < |loaded| && loaded[j].0 == k && loaded[j].1 != Null
  }

  lemma NonNullLoadShift(loaded: seq<(string, Asset)>, k: string)
    requires loaded != []
    ensures forall j :: 1 <= j < |loaded| ==> (NonNullLoad(loaded, k, j) <==> NonNullLoad(loaded[1..], k, j - 1))
    ensures forall j :: 0 <= j < |loaded| - 1 ==> (NonNullLoad(loaded[1..], k, j) <==> NonNullLoad(loaded, k, j + 1))
  {
  }

  /** A name enters the results exactly when it was there or one of its loads produced an object. */
  lemma {:induction false} MergeLoadedKeys(results: map<string, Asset>, loaded: seq<(string, Asset)>, k: string)
    ensures k in MergeLoaded(results, loaded) <==> k in results || exists j :: NonNullLoad(loaded, k, j)
    decreases |loaded|
  {
    if loaded != [] {
      var (name, asset) := loaded[0];
      var next := if asset != Null then results[name := asset] else results;
      assert MergeLoaded(results, loaded) == MergeLoaded(next, loaded[1..]);
      MergeLoadedKeys(next, loaded[1..], k);
      NonNullLoadShift(loaded, k);
      if asset != Null && name == k {
        assert NonNullLoad(loaded, k, 0);
      }
      if exists j :: NonNullLoad(loaded[1..], k, j) {
        var j :| NonNullLoad(loaded[1..], k, j);
        assert NonNullLoad(loaded, k, j + 1);
      }
      if exists j :: NonNullLoad(loaded, k, j) {
        var j :| NonNullLoad(loaded, k, j);
        if j > 0 {
          assert NonNullLoad(loaded[1..], k, j - 1);
        }
      }
    }
  }

  /** A name none of whose loads produced an object keeps its earlier result. */
  lemma {:induction false} MergeLoadedUntouched(results: map<string, Asset>, loaded: seq<(string, Asset)>, k: string)
    requires forall j :: !NonNullLoad(loaded, k, j)
    ensures k in MergeLoaded(results, loaded) <==> k in results
    ensures k in results ==> MergeLoaded(results, loaded)[k] == results[k]
    decreases |loaded|
  {
    if loaded != [] {
      var (name, asset) := loaded[0];
      var next := if asset != Null then results[name := asset] else results;
      assert !NonNullLoad(loaded, k, 0);
      NonNullLoadShift(loaded, k);
      assert forall j :: !NonNullLoad(loaded[1..], k, j);
      MergeLoadedUntouched(next, loaded[1..], k);
    }
  }

  /** The last load of a name that produced an object decides its result. */
  lemma {:induction false} MergeLoadedLast(results: map<string, Asset>, loaded: seq<(string, Asset)>, k: string, j: nat)
    requires NonNullLoad(loaded, k, j)
    requires forall i :: j < i ==> !NonNullLoad(loaded, k, i)
    ensures k in MergeLoaded(results, loaded) && MergeLoaded(results, loaded)[k] == loaded[j].1
    decreases |loaded|
  {
    var (name, asset) := loaded[0];
    var next := if asset != Null then results[name := asset] else results;
    NonNullLoadShift(loaded, k);
    if j == 0 {
      assert forall i :: !NonNullLoad(loaded[1..], k, i);
      MergeLoadedUntouched(next, loaded[1..], k);
    } else {
      assert NonNullLoad(loaded[1..], k, j - 1);
      assert forall i :: j - 1 < i ==> !NonNullLoad(loaded[1..], k, i);
      MergeLoadedLast(next, loaded[1..], k, j - 1);
    }
  }

  /** After `WhenAll`: the results gain exactly the names whose load produced a
      non-null object, so a cancelled or failed load (which yields `Null`) adds
      no entry; such a name maps to the object of its last successful load, and
      every other name keeps its earlier result. */
  lemma MergeLoadedSpec(results: map<string, Asset>, loaded: seq<(string, Asset)>)
    ensures var r := MergeLoaded(results, loaded);
      && (forall k :: k in r <==> k in results || exists j :: NonNullLoad(loaded, k, j))
      && (forall k :: k in results && (forall j :: !NonNullLoad(loaded, k, j)) ==> k in r && r[k] == results[k])
      && (forall k, j :: NonNullLoad(loaded, k, j) && (forall i :: j < i ==> !NonNullLoad(loaded, k, i)) ==>
            k in r && r[k] == loaded[j].1)
  {
    var r := MergeLoaded(results, loaded);
    forall k ensures k in r <==> k in results || exists j :: NonNullLoad(loaded, k, j) {
      MergeLoadedKeys(results, loaded, k);
    }
    forall k | k in results && (forall j :: !NonNullLoad(loaded, k, j)) ensures k in r && r[k] == results[k] {
      MergeLoadedUntouched(results, loaded, k);
    }
    forall k, j | NonNullLoad(loaded, k, j) && (forall i :: j < i ==> !NonNullLoad(loaded, k, i))
      ensures k in r && r[k] == loaded[j].1
    {
      MergeLoadedLast(results, loaded, k, j);
    }
  }

  // ---------------------------------------------------------------------
  // Preload groups
  // ---------------------------------------------------------------------

  /** The count a key has before a step: 0 when it is not cached. */
  function CountOf(c: Cache, k: string): int {
    if k in c.infos then c.infos[k].refCnt else 0
  }

  /** One iteration of the `PreloadAsset` install loop, for an index with an object. */
  function PreloadInstallOne(c: Cache, key: string, n: string, prefab: Asset): (r: Cache)
    ensures forall k :: k in r.infos <==> k in c.infos || k == n
    ensures forall k :: CountOf(r, k) == CountOf(c, k) + (if k == n then 1 else 0)
    ensures forall k :: k in c.infos ==> r.infos[k] == c.infos[k].(refCnt := r.infos[k].refCnt)
    ensures n !in c.infos ==> r.infos[n] == PreloadedInfo(key, n, prefab)
    ensures forall k :: k != n ==> (k in r.timers <==> k in c.timers)
    ensures n in c.infos ==> n !in r.timers
    ensures r.timers <= c.timers
  {
    if n !in c.infos then c.(infos := c.infos[n := PreloadedInfo(key, n, prefab)]) else Acquire(c, n)
  }

  lemma PreloadInstallUnfold(c: Cache, key: string, names: seq<string>, prefabs: seq<(string, Asset)>, i: nat)
    requires i < |names| <= |prefabs|
    ensures PreloadInstallFrom(c, key, names, prefabs, i)
         == PreloadInstallFrom(PreloadInstallOne(c, key, names[i], prefabs[i].1), key, names, prefabs, i + 1)
    ensures forall x :: x in names[i..] <==> x == names[i] || x in names[i + 1..]
    ensures multiset(names[i..]) == multiset{names[i]} + multiset(names[i + 1..])
  {
    assert names[i..] == [names[i]] + names[i + 1..];
  }

  /** The install loop of `PreloadAsset`, when the provider returned at least
      one object per requested name: each listed name is cached afterwards and
      its count raised by the number of times it is listed. */
  lemma {:induction false} PreloadInstallCounts(
    c: Cache, key: string, names: seq<string>, prefabs: seq<(string, Asset)>, i: nat)
    requires i <= |names| <= |prefabs|
    ensures var r := PreloadInstallFrom(c, key, names, prefabs, i).0;
      && (forall k :: k in r.infos <==> k in c.infos || k in names[i..])
      && (forall k :: CountOf(r, k) == CountOf(c, k) + multiset(names[i..])[k])
    decreases |names| - i
  {
    if i < |names| {
      PreloadInstallUnfold(c, key, names, prefabs, i);
      PreloadInstallCounts(PreloadInstallOne(c, key, names[i], prefabs[i].1), key, names, prefabs, i + 1);
    }
  }

  /** ... a name it adds becomes a preload-tagged entry with no handle of its
      own, entries that were cached keep everything but their count, and the
      listed names lose their pending removal. */
  lemma {:induction false} PreloadInstallKeeps(
    c: Cache, key: string, names: seq<string>, prefabs: seq<(string, Asset)>, i: nat)
    requires i <= |names| <= |prefabs|
    ensures var r := PreloadInstallFrom(c, key, names, prefabs, i).0;
      && (forall k :: k in c.infos ==> k in r.infos && r.infos[k] == c.infos[k].(refCnt := r.infos[k].refCnt))
      && (forall k :: k in r.infos && k !in c.infos ==>
            r.infos[k].preloadKey == key && r.infos[k].handle.None? && r.infos[k].assetKey == k)
      && r.timers <= c.timers
      && (forall k :: k in c.timers && k !in names[i..] ==> k in r.timers)
      && (forall k :: k in c.infos && k in names[i..] ==> k !in r.timers)
    decreases |names| - i
  {
    if i < |names| {
      PreloadInstallUnfold(c, key, names, prefabs, i);
      PreloadInstallKeeps(PreloadInstallOne(c, key, names[i], prefabs[i].1), key, names, prefabs, i + 1);
    }
  }

  /** One iteration of the `PreloadAssetByTag` install loop is the same
      install-or-acquire step as in `PreloadAsset`. */
  lemma PreloadTagInstallUnfold(c: Cache, key: string, prefabs: seq<(string, Asset)>, installed: seq<string>)
    requires prefabs != []
    ensures PreloadTagInstallFrom(c, key, prefabs, installed).0
         == PreloadTagInstallFrom(PreloadInstallOne(c, key, prefabs[0].0, prefabs[0].1), key, prefabs[1..],
                                  if prefabs[0].0 in c.infos then installed else installed + [prefabs[0].0]).0
  {
    var n := prefabs[0].0;
    var a := prefabs[0].1;
    var rest := prefabs[1..];
    if n !in c.infos {
      assert PreloadInstallOne(c, key, n, a) == c.(infos := c.infos[n := PreloadedInfo(key, n, a)]);
    } else {
      assert PreloadInstallOne(c, key, n, a) == Acquire(c, n);
    }
  }

  lemma TagNamesCons(prefabs: seq<(string, Asset)>)
    requires prefabs != []
    ensures TagNames(prefabs) == [prefabs[0].0] + TagNames(prefabs[1..])
    ensures multiset(TagNames(prefabs)) == multiset{prefabs[0].0} + multiset(TagNames(prefabs[1..]))
  {
  }

  /** The install loop of `PreloadAssetByTag`: every returned name is cached
      afterwards, its count raised by the number of objects of that name. */
  lemma {:induction false} PreloadTagInstallCounts(
    c: Cache, key: string, prefabs: seq<(string, Asset)>, installed: seq<string>)
    ensures var r := PreloadTagInstallFrom(c, key, prefabs, installed).0;
      forall k :: CountOf(r, k) == CountOf(c, k) + multiset(TagNames(prefabs))[k]
    decreases |prefabs|
  {
    if prefabs != [] {
      PreloadTagInstallUnfold(c, key, prefabs, installed);
      TagNamesCons(prefabs);
      PreloadTagInstallCounts(PreloadInstallOne(c, key, prefabs[0].0, prefabs[0].1), key, prefabs[1..],
                              if prefabs[0].0 in c.infos then installed else installed + [prefabs[0].0]);
    }
  }

  /** ... a name it adds becomes a member entry of the group with no handle of
      its own, entries that were cached keep everything but their count, and
      the returned names lose their pending removal. */
  lemma {:induction false} PreloadTagInstallKeeps(
    c: Cache, key: string, prefabs: seq<(string, Asset)>, installed: seq<string>)
    ensures var r := PreloadTagInstallFrom(c, key, prefabs, installed).0;
      && (forall k :: k in c.infos ==> k in r.infos && r.infos[k] == c.infos[k].(refCnt := r.infos[k].refCnt))
      && (forall k :: k in r.infos && k !in c.infos ==>
            r.infos[k].preloadKey == key && r.infos[k].handle.None? && r.infos[k].assetKey == k)
      && r.timers <= c.timers
      && (forall k :: k in c.timers && k !in TagNames(prefabs) ==> k in r.timers)
      && (forall k :: k in c.infos && k in TagNames(prefabs) ==> k !in r.timers)
    decreases |prefabs|
  {
    if prefabs != [] {
      PreloadTagInstallUnfold(c, key, prefabs, installed);
      TagNamesCons(prefabs);
      PreloadTagInstallKeeps(PreloadInstallOne(c, key, prefabs[0].0, prefabs[0].1), key, prefabs[1..],
                             if prefabs[0].0 in c.infos then installed else installed + [prefabs[0].0]);
    }
  }

  /** When every object a tag preload returns is cached already, the group it
      records has no members, so the non-forced `ReleasePreload` of that group
      changes nothing and its batch handle is never released. */
  lemma TagPreloadOfCachedAssetsKeepsHandle(c: Cache, key: string, h: Handle, assets: seq<(string, Asset)>)
    requires key !in c.groups
    requires forall n :: n in TagNames(assets) ==> n in c.infos
    ensures var (r, ret) := CompletePreloadByTag(c, key, h, BatchSucceeded(assets));
      && ret == Done && key in r.groups && r.groups[key].bundleNames == [] && r.groups[key].handle == h
      && ReleasePreload(r, key, false) == r
  {
    assert DistinctFrom(TagNames(assets), c.infos.Keys) == [];
  }

  /** Releasing the last reference of the first member of a group. */
  lemma ReleaseFirstMember(c: Cache, g: string, rest: seq<string>)
    requires g != "" && g in c.groups && c.groups[g].bundleNames == rest && rest != []
    requires rest[0] in c.infos && c.infos[rest[0]].refCnt == 1 && c.infos[rest[0]].preloadKey == g
    ensures var c1 := ReleaseAsset(c, rest[0], false);
      && rest[0] !in c1.infos && OthersUnchanged(c1.infos, c.infos, rest[0])
      && rest[0] !in c1.timers && c1.loaded == c.loaded
      && (|rest| == 1 ==> g !in c1.groups && c1.released == c.released + [c.groups[g].handle])
      && (|rest| > 1 ==> g in c1.groups && c1.groups[g].bundleNames == rest[1..]
                         && c1.groups[g].handle == c.groups[g].handle && c1.released == c.released)
  {
    assert RemoveFirst(rest, rest[0]) == rest[1..];
  }

  /** Releasing the members of a preload group one by one (the non-forced
      `ReleasePreload`), when each is listed once and held once: every member
      entry is removed, the group is deleted, and the batch handle is released
      exactly once, by the last member. */
  lemma {:induction false} ReleaseGroupMembers(c: Cache, g: string, rest: seq<string>)
    requires g != "" && g in c.groups && c.groups[g].bundleNames == rest && rest != []
    requires NoDuplicates(rest)
    requires forall n :: n in rest ==> n in c.infos && c.infos[n].refCnt == 1 && c.infos[n].preloadKey == g
    ensures var r := ReleaseAssets(c, rest, false);
      && g !in r.groups && r.released == c.released + [c.groups[g].handle]
      && (forall n :: n in rest ==> n !in r.infos)
      && (forall k :: k in c.infos && k !in rest ==> k in r.infos && r.infos[k] == c.infos[k])
      && r.loaded == c.loaded
    decreases |rest|
  {
    var c1 := ReleaseAsset(c, rest[0], false);
    ReleaseFirstMember(c, g, rest);
    NoDuplicatesTail(rest);
    assert ReleaseAssets(c, rest, false) == ReleaseAssets(c1, rest[1..], false);
    if |rest| > 1 {
      ReleaseGroupMembers(c1, g, rest[1..]);
    } else {
      assert rest[1..] == [];
    }
  }

  /** A preload of distinct uncached names into a new group, followed by the
      non-forced release of that group: the batch handle is released exactly
      once and the cached entries are those from before. */
  lemma PreloadThenRelease(c: Cache, g: string, names: seq<string>, prefabs: seq<(string, Asset)>)
    requires HandlesNumbered(c)
    requires g != "" && g !in c.groups && names != [] && |prefabs| >= |names|
    requires NoDuplicates(names)
    requires forall n :: n in names ==> n !in c.infos
    ensures
      var (c1, start) := BeginPreload(c, g);
      var (c2, ret) := CompletePreload(c1, g, names, start.handle, BatchSucceeded(prefabs));
      var c3 := ReleasePreload(c2, g, false);
      && ret == Done && start.handle !in c.loaded
      && c3.infos == c.infos && g !in c3.groups
      && c3.released == c.released + [start.handle]
  {
    var (c1, start) := BeginPreload(c, g);
    FreshHandle(c);
    var h := start.handle;
    PreloadInstallCounts(c1, g, names, prefabs, 0);
    PreloadInstallKeeps(c1, g, names, prefabs, 0);
    assert names[0..] == names;
    var (i2, ok) := PreloadInstallFrom(c1, g, names, prefabs, 0);
    var c2 := i2.(groups := i2.groups[g := PreloadInfo(g, names, h)]);
    assert CompletePreload(c1, g, names, h, BatchSucceeded(prefabs)) == (c2, Done);
    forall n | n in names ensures n in c2.infos && c2.infos[n].refCnt == 1 && c2.infos[n].preloadKey == g {
      NoDuplicatesCountOne(names, n);
      assert CountOf(i2, n) == 1;
    }
    forall k | k in c.infos ensures k in c2.infos && c2.infos[k] == c.infos[k] {
      assert k !in names;
      assert CountOf(i2, k) == CountOf(c1, k);
    }
    ReleaseGroupMembers(c2, g, names);
    var c3 := ReleaseAssets(c2, names, false);
    assert ReleasePreload(c2, g, false) == c3;
    assert c3.infos == c.infos;
  }

  // ---------------------------------------------------------------------
  // Delayed release
  // ---------------------------------------------------------------------

  /** A delayed release of the last reference followed by an acquire before the
      timer fires: the pending removal is cancelled and the cached object reused
      with no provider call. */
  lemma DelayedReleaseThenReacquire(c: Cache, key: string)
    requires key in c.infos && c.infos[key].refCnt == 1
    ensures
      var c1 := ReleaseAsset(c, key, true);
      var (c2, start) := BeginLoad(c1, key);
      && key in c1.timers
      && start == Hit(c.infos[key].result)
      && c2.infos == c.infos && key !in c2.timers
      && c2.loaded == c.loaded && c2.released == c.released
  {
    var c1 := ReleaseAsset(c, key, true);
    assert c1.infos[key].refCnt == 0;
    assert c1.infos[key := c1.infos[key].(refCnt := 1)] == c.infos;
  }

  /** The same release left alone: when the timer fires, the entry is removed
      and its handle released exactly once. */
  lemma DelayedReleaseThenFire(c: Cache, key: string)
    requires key in c.infos && c.infos[key].refCnt == 1
    requires !c.infos[key].IsPreload() && c.infos[key].handle.Some?
    ensures
      var c1 := ReleaseAsset(c, key, true);
      key in c1.timers &&
      var c2 := FireTimer(c1, key);
      && key !in c2.infos && key !in c2.timers
      && c2.released == c.released + [c.infos[key].handle.value]
  {
  }

  // ---------------------------------------------------------------------
  // Behaviours of the source kept as written
  // ---------------------------------------------------------------------

  /** `RemoveRef` is unguarded: releasing twice an entry whose removal is
      still pending drives its count below zero, and the entry stays. */
  lemma RefCntCanGoNegative(c: Cache, key: string)
    requires key in c.infos && c.infos[key].refCnt == 1
    ensures
      var c2 := ReleaseAsset(ReleaseAsset(c, key, true), key, true);
      key in c2.infos && c2.infos[key].refCnt == -1 && key in c2.timers
  {
  }

  /** The list-load race path raises the count without cancelling a pending
      removal: when that timer fires, the entry is removed although a caller
      holds it. */
  lemma ListRaceLeavesTimerArmed(c: Cache, name: string, h: Handle, result: Asset)
    requires name in c.infos && name in c.timers
    ensures
      var r := CompleteLoadOne(c, name, h, Succeeded(result)).0;
      && name in r.timers && r.infos[name].refCnt == c.infos[name].refCnt + 1
      && name !in FireTimer(r, name).infos
  {
  }

  /** The tag-load race path keeps the second handle: it is neither released
      nor stored, so the manager can never release it. */
  lemma TagRaceLeaksHandle(c: Cache, tag: string, h: Handle, result: Asset)
    requires tag in c.infos
    requires forall k :: k in c.infos ==> c.infos[k].handle != Some(h)
    requires forall g :: g in c.groups ==> c.groups[g].handle != h
    ensures
      var r := CompleteLoadTag(c, tag, h, Succeeded(result)).0;
      && r.released == c.released
      && (forall k :: k in r.infos ==> r.infos[k].handle != Some(h))
      && (forall g :: g in r.groups ==> r.groups[g].handle != h)
  {
  }

  /** A forced `ReleasePreload` deletes member entries without cancelling their
      pending removals. If a member is loaded again before that stale timer
      fires, the timer removes the new entry and releases its handle while the
      caller still holds it; so `Inv` does not survive a forced release. */
  lemma StaleTimerEvictsReloadedEntry(c: Cache, g: string, key: string, h: Handle, result: Asset)
    requires g in c.groups && key in c.groups[g].bundleNames && key in c.infos && key in c.timers
    ensures
      var c1 := ReleasePreload(c, g, true);
      key !in c1.infos && key in c1.timers && !Inv(c1) &&
      var c2 := CompleteLoad(c1, key, h, Succeeded(result)).0;
      && key in c2.infos && c2.infos[key].refCnt == 1 && key in c2.timers
      && var c3 := FireTimer(c2, key);
      && key !in c3.infos && c3.released == c2.released + [h]
  {
  }
}
