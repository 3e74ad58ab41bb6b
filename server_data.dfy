/** `ServerContainer` (a keyed store of server items filled from a JSON list)
    and `ServerDataRepository` (the set of server data objects, imported and
    exported together).

    JSON objects are property lists (`JsonData.JProperty`), `None` standing
    for null. Subclass hooks (`_ExportKey`, `_CreateData`, an item's own
    `ImportJson`/`UpdateJson`, `NormalizeData` overrides, `_Init`) are
    function parameters. */
module ServerStore {
  import opened Wrappers
  import opened JsonData

  // ---------------------------------------------------------------------
  // JSON access helpers
  // ---------------------------------------------------------------------

  /** `data.Get(key)`: the value of the property named exactly `key`. */
  function GetToken(data: seq<JProperty>, key: string): (r: Option<JToken>)
    ensures r.Some? <==> key in NameSet(data)
  {
    match IndexOfName(data, key)
    case None => None
    case Some(i) => Some(data[i].value)
  }

  /** `data.GetJSONList(key)`: the object items of the array under `key`, in
      order; nothing when the key is absent or not an array. */
  function GetJSONList(data: seq<JProperty>, key: string): seq<seq<JProperty>> {
    match GetToken(data, key)
    case Some(JArray(items)) => ObjectItems(items)
    case _ => []
  }

  function ObjectItems(items: seq<JToken>): (r: seq<seq<JProperty>>)
    ensures |r| <= |items|
  {
    if items == [] then []
    else (if items[0].JObject? then [items[0].props] else []) + ObjectItems(items[1..])
  }

  /** `data.GetJSONObject(key)`: the object under `key`, if it is one. */
  function GetJSONObject(data: seq<JProperty>, key: string): Option<seq<JProperty>> {
    match GetToken(data, key)
    case Some(JObject(props)) => Some(props)
    case _ => None
  }

  // ---------------------------------------------------------------------
  // ServerContainer
  // ---------------------------------------------------------------------

  /** `ServerContainer.NormalizeData(data)`: brings the data into the shape
      `{ containerKey: [ item, ... ] }`. */
  function NormalizeData(data: seq<JProperty>, dataKey: string, containerKey: string): (r: Option<seq<JProperty>>)
  {
    match GetToken(data, dataKey)
    case Some(token) =>
      if token.JArray? then
        if dataKey == containerKey then Some(data) else Some([JProperty(containerKey, token)])
      else if token.JObject? then Some(token.props)
      else None
    case None =>
      match GetToken(data, containerKey)
      case Some(token) =>
        if token.JArray? then Some(data)
        else Some([JProperty(containerKey, JArray([if token.JObject? then token else JNull]))])
      case None => None
  }

  /** Each case of `NormalizeData`. */
  lemma NormalizeDataCases(data: seq<JProperty>, dataKey: string, containerKey: string)
    ensures var t := GetToken(data, dataKey);
      t.Some? && t.value.JArray? && dataKey == containerKey ==> NormalizeData(data, dataKey, containerKey) == Some(data)
    ensures var t := GetToken(data, dataKey);
      (t.Some? && t.value.JArray? && dataKey != containerKey)
      ==> NormalizeData(data, dataKey, containerKey) == Some([JProperty(containerKey, t.value)])
    ensures var t := GetToken(data, dataKey);
      (t.None? && GetToken(data, containerKey).Some? && GetToken(data, containerKey).value.JArray?)
      ==> NormalizeData(data, dataKey, containerKey) == Some(data)
    ensures var t := GetToken(data, dataKey);
      (t.Some? && t.value.JObject?) ==> NormalizeData(data, dataKey, containerKey) == Some(t.value.props)
    ensures var t := GetToken(data, dataKey);
      (t.Some? && !t.value.JArray? && !t.value.JObject?) ==> NormalizeData(data, dataKey, containerKey).None?
    ensures var t := GetToken(data, containerKey);
      (GetToken(data, dataKey).None? && t.Some? && t.value.JObject?)
      ==> NormalizeData(data, dataKey, containerKey) == Some([JProperty(containerKey, JArray([t.value]))])
    ensures dataKey !in NameSet(data) && containerKey !in NameSet(data) ==> NormalizeData(data, dataKey, containerKey).None?
  {
  }

  /** A normalised result always holds its items under `containerKey`, except
      for an object found under `dataKey`, which is returned as it is. */
  lemma NormalizedHasContainer(data: seq<JProperty>, dataKey: string, containerKey: string)
    requires NormalizeData(data, dataKey, containerKey).Some?
    requires !(GetToken(data, dataKey).Some? && GetToken(data, dataKey).value.JObject?)
    ensures var n := NormalizeData(data, dataKey, containerKey).value;
      GetToken(n, containerKey).Some? && GetToken(n, containerKey).value.JArray?
  {
    var n := NormalizeData(data, dataKey, containerKey).value;
    if GetToken(data, dataKey).Some? {
      if dataKey != containerKey {
        assert IndexOfName(n, containerKey) == Some(0);
      }
    } else if !GetToken(data, containerKey).value.JArray? {
      assert IndexOfName(n, containerKey) == Some(0);
    }
  }

  /** The subclass hooks of a container. */
  datatype ItemOps<!K, !V> = ItemOps(
    /** `_ExportKey(data, out key)`. */
    exportKey: seq<JProperty> -> Option<K>,
    /** `_CreateData(data)`. */
    createData: seq<JProperty> -> V,
    /** `item.ImportJson(data)`. */
    importItem: (V, seq<JProperty>) -> V,
    /** `item.UpdateJson(data)`. */
    updateItem: (V, seq<JProperty>) -> V)

  /** `_ImportData(key, data)` (`replace`) or `_UpdateData(key, data)` on the dictionary. */
  function PutItem<K, V>(items: map<K, V>, key: K, data: seq<JProperty>, replace: bool, ops: ItemOps<K, V>): (r: map<K, V>)
    ensures r.Keys == items.Keys + {key}
    ensures forall k :: k in items && k != key ==> r[k] == items[k]
  {
    if key in items then items[key := if replace then ops.importItem(items[key], data) else ops.updateItem(items[key], data)]
    else items[key := ops.createData(data)]
  }

  /** The list entries applied in order, skipping those without a key. */
  function PutAll<K, V>(items: map<K, V>, list: seq<seq<JProperty>>, replace: bool, ops: ItemOps<K, V>): map<K, V>
    decreases |list|
  {
    if list == [] then items
    else
      var rest := PutAll(items, list[..|list| - 1], replace, ops);
      match ops.exportKey(list[|list| - 1])
      case None => rest
      case Some(k) => PutItem(rest, k, list[|list| - 1], replace, ops)
  }

  /** The keys that can be extracted from the list. */
  function ExtractedKeys<K>(list: seq<seq<JProperty>>, exportKey: seq<JProperty> -> Option<K>): set<K> {
    set i | 0 <= i < |list| && exportKey(list[i]).Some? :: exportKey(list[i]).value
  }

  /** After putting the list, the keys are the old ones and the extractable ones;
      an item the list does not mention is unchanged. */
  lemma {:induction false} PutAllKeys<K, V>(items: map<K, V>, list: seq<seq<JProperty>>, replace: bool, ops: ItemOps<K, V>)
    ensures PutAll(items, list, replace, ops).Keys == items.Keys + ExtractedKeys(list, ops.exportKey)
    ensures forall k :: k in items && k !in ExtractedKeys(list, ops.exportKey) ==> PutAll(items, list, replace, ops)[k] == items[k]
    decreases |list|
  {
    if list != [] {
      var init := list[..|list| - 1];
      PutAllKeys(items, init, replace, ops);
      var last := list[|list| - 1];
      var e := ExtractedKeys(list, ops.exportKey);
      var e0 := ExtractedKeys(init, ops.exportKey);
      assert e == e0 + (if ops.exportKey(last).Some? then {ops.exportKey(last).value} else {}) by {
        forall k | k in e ensures k in e0 + (if ops.exportKey(last).Some? then {ops.exportKey(last).value} else {}) {
          var i :| 0 <= i < |list| && ops.exportKey(list[i]) == Some(k);
          if i < |init| {
            assert init[i] == list[i];
          }
        }
        forall k | k in e0 ensures k in e {
          var i :| 0 <= i < |init| && ops.exportKey(init[i]) == Some(k);
          assert list[i] == init[i];
        }
      }
    }
  }

  /** An item mentioned only by the last entry naming it is created from, or
      merged with, that entry. */
  lemma PutAllLastEntry<K, V>(items: map<K, V>, list: seq<seq<JProperty>>, replace: bool, ops: ItemOps<K, V>)
    requires list != [] && ops.exportKey(list[|list| - 1]).Some?
    ensures var k := ops.exportKey(list[|list| - 1]).value;
      var before := PutAll(items, list[..|list| - 1], replace, ops);
      var r := PutAll(items, list, replace, ops);
      k in r && r[k] == (if k !in before then ops.createData(list[|list| - 1])
                         else if replace then ops.importItem(before[k], list[|list| - 1])
                         else ops.updateItem(before[k], list[|list| - 1]))
  {
  }

  class ServerContainer<K(==), V> {
    const dataKey: string
    const containerKey: string
    var hasItems: map<K, V>
    var subscribed: bool
    /** What reached the base class's `ImportJson`/`UpdateJson`, in order. */
    var baseImports: seq<seq<JProperty>>
    var baseUpdates: seq<seq<JProperty>>

    /** The constructor subscribes. */
    constructor(dataKey: string, containerKey: string)
      ensures this.dataKey == dataKey && this.containerKey == containerKey
      ensures hasItems == map[] && subscribed && baseImports == [] && baseUpdates == []
    {
      this.dataKey := dataKey;
      this.containerKey := containerKey;
      hasItems := map[];
      subscribed := false;
      baseImports := [];
      baseUpdates := [];
      new;
      var _ := SetSubscribe(true);
    }

    /** `_SetSubscribe(subscribe)`: whether the state changed. */
    method SetSubscribe(subscribe: bool) returns (changed: bool)
      modifies this`subscribed
      ensures subscribed == subscribe
      ensures changed <==> old(subscribed) != subscribe
    {
      if subscribed != subscribe {
        subscribed := subscribe;
        return true;
      }
      return false;
    }

    method Clear()
      modifies this`hasItems
      ensures hasItems == map[]
    {
      hasItems := map[];
    }

    /** `ImportJson(data)`: the items are rebuilt from the container list. */
    method ImportJson(data: Option<seq<JProperty>>, ops: ItemOps<K, V>) returns (ok: bool)
      modifies this`hasItems, this`baseImports
      ensures ok <==> data.Some?
      ensures data.None? ==> hasItems == old(hasItems) && baseImports == old(baseImports)
      ensures data.Some? ==> hasItems == PutAll(map[], GetJSONList(data.value, containerKey), true, ops)
                             && baseImports == old(baseImports) + [data.value]
    {
      if data.None? {
        return false;
      }
      hasItems := map[];
      PutList(GetJSONList(data.value, containerKey), true, ops);
      baseImports := baseImports + [data.value];
      return true;
    }

    /** `UpdateJson(data)`: the items of the container list are added or merged. */
    method UpdateJson(data: Option<seq<JProperty>>, ops: ItemOps<K, V>) returns (ok: bool)
      modifies this`hasItems, this`baseUpdates
      ensures ok <==> data.Some?
      ensures data.None? ==> hasItems == old(hasItems) && baseUpdates == old(baseUpdates)
      ensures data.Some? ==> hasItems == PutAll(old(hasItems), GetJSONList(data.value, containerKey), false, ops)
                             && baseUpdates == old(baseUpdates) + [data.value]
    {
      if data.None? {
        return false;
      }
      PutList(GetJSONList(data.value, containerKey), false, ops);
      baseUpdates := baseUpdates + [data.value];
      return true;
    }

    /** The loop over the container list shared by `ImportJson` and `UpdateJson`. */
    method PutList(list: seq<seq<JProperty>>, replace: bool, ops: ItemOps<K, V>)
      modifies this`hasItems
      ensures hasItems == PutAll(old(hasItems), list, replace, ops)
    {
      for i := 0 to |list|
        invariant hasItems == PutAll(old(hasItems), list[..i], replace, ops)
      {
        assert list[..i + 1][..i] == list[..i];
        var key := ops.exportKey(list[i]);
        if key.Some? {
          PutData(key.value, list[i], replace, ops);
        }
      }
      assert list[..|list|] == list;
    }

    /** `_ImportData(key, data)` (`replace`) and `_UpdateData(key, data)`. */
    method PutData(key: K, data: seq<JProperty>, replace: bool, ops: ItemOps<K, V>)
      modifies this`hasItems
      ensures hasItems == PutItem(old(hasItems), key, data, replace, ops)
    {
      if key in hasItems {
        if replace {
          hasItems := hasItems[key := ops.importItem(hasItems[key], data)];
        } else {
          hasItems := hasItems[key := ops.updateItem(hasItems[key], data)];
        }
      } else {
        hasItems := hasItems[key := ops.createData(data)];
      }
    }

    /** `Get(id)`: `None` is null. */
    function Get(id: K): (r: Option<V>)
      reads this
      ensures r.Some? <==> id in hasItems
      ensures r.Some? ==> r.value == hasItems[id]
    {
      if id in hasItems then Some(hasItems[id]) else None
    }

    /** `TryGet(id, out item)`. */
    method TryGet(id: K) returns (found: bool, item: Option<V>)
      ensures found <==> id in hasItems
      ensures found ==> item == Some(hasItems[id])
      ensures !found ==> item.None?
    {
      item := Get(id);
      found := item.Some?;
    }

    /** `AddOrReplace(key, json)`. */
    method AddOrReplaceJson(key: K, json: seq<JProperty>, ops: ItemOps<K, V>)
      modifies this`hasItems
      ensures hasItems == PutItem(old(hasItems), key, json, false, ops)
    {
      PutData(key, json, false, ops);
    }

    /** `AddOrReplace(key, value)`. */
    method AddOrReplace(key: K, value: V)
      modifies this`hasItems
      ensures key in hasItems && hasItems[key] == value
      ensures forall k :: k != key ==> (k in hasItems <==> k in old(hasItems))
      ensures forall k :: k != key && k in hasItems ==> hasItems[k] == old(hasItems)[k]
    {
      hasItems := hasItems[key := value];
    }

    /** `Dispose()` unsubscribes. */
    method Dispose()
      modifies this`subscribed
      ensures !subscribed
    {
      var _ := SetSubscribe(false);
    }
  }

  /** Subscribing twice reports a change only the first time. */
  method SubscribeTwice<K(==), V>(c: ServerContainer<K, V>, s: bool) returns (first: bool, second: bool)
    modifies c`subscribed
    ensures first <==> old(c.subscribed) != s
    ensures !second && c.subscribed == s
  {
    first := c.SetSubscribe(s);
    second := c.SetSubscribe(s);
  }

  // ---------------------------------------------------------------------
  // ServerDataRepository
  // ---------------------------------------------------------------------

  /** What the repository did to one data object, in order. */
  datatype EntryOp = Imported(data: seq<JProperty>) | Updated(data: seq<JProperty>)

  /** A registered server data object: its key, whether it is saved
      locally, and the imports and updates it received. */
  datatype DataEntry = DataEntry(dataKey: string, isSaveLocal: bool, log: seq<EntryOp>)

  /** One object's part of an import pass (`update` false) or update pass. */
  function Visit(e: DataEntry, payload: seq<JProperty>, isLocalData: bool, update: bool,
                 normalize: (DataEntry, seq<JProperty>) -> Option<seq<JProperty>>): DataEntry
  {
    if !isLocalData || e.isSaveLocal then
      match normalize(e, payload)
      case None => e
      case Some(n) => e.(log := e.log + [if update then Updated(n) else Imported(n)])
    else e
  }

  /** Every object visited once. */
  function VisitAll(dict: map<string, DataEntry>, payload: seq<JProperty>, isLocalData: bool, update: bool,
                    normalize: (DataEntry, seq<JProperty>) -> Option<seq<JProperty>>): map<string, DataEntry>
  {
    map k | k in dict :: Visit(dict[k], payload, isLocalData, update, normalize)
  }

  /** `ImportJson(data, isLocalData)`: an import pass over everything, then an
      update pass with `updatedData` if the data holds that object. */
  function ImportAll(dict: map<string, DataEntry>, data: seq<JProperty>, isLocalData: bool,
                     normalize: (DataEntry, seq<JProperty>) -> Option<seq<JProperty>>): map<string, DataEntry>
  {
    var imported := VisitAll(dict, data, isLocalData, false, normalize);
    match GetJSONObject(data, "updatedData")
    case None => imported
    case Some(u) => VisitAll(imported, u, isLocalData, true, normalize)
  }

  /** Each object receives at most one import and then at most one update;
      with `isLocalData` an object not saved locally receives nothing. */
  lemma ImportAllEffect(dict: map<string, DataEntry>, data: seq<JProperty>, isLocalData: bool,
                        normalize: (DataEntry, seq<JProperty>) -> Option<seq<JProperty>>, k: string)
    requires k in dict
    ensures var r := ImportAll(dict, data, isLocalData, normalize);
      k in r && r[k].dataKey == dict[k].dataKey && r[k].isSaveLocal == dict[k].isSaveLocal
      && |dict[k].log| <= |r[k].log| <= |dict[k].log| + 2
      && r[k].log[..|dict[k].log|] == dict[k].log
      && (|r[k].log| == |dict[k].log| + 2 ==> r[k].log[|dict[k].log|].Imported? && r[k].log[|dict[k].log| + 1].Updated?)
      && (isLocalData && !dict[k].isSaveLocal ==> r[k] == dict[k])
      && (GetJSONObject(data, "updatedData").None? ==> forall i :: |dict[k].log| <= i < |r[k].log| ==> r[k].log[i].Imported?)
  {
  }

  /** `ExportJson()`: the saved objects under their `DataKey`; two saved
      objects with the same `DataKey` make `Dictionary.Add` throw (`None`). */
  ghost predicate DuplicateSavedKey(dict: map<string, DataEntry>) {
    exists a, b :: a in dict && b in dict && a != b && dict[a].isSaveLocal && dict[b].isSaveLocal
                   && dict[a].dataKey == dict[b].dataKey
  }

  ghost function SavedKeys(dict: map<string, DataEntry>): set<string> {
    set k | k in dict && dict[k].isSaveLocal :: dict[k].dataKey
  }

  class ServerDataRepository {
    var inited: bool
    var dataDict: map<string, DataEntry>
    /** The keys of the objects `Release` disposed. */
    var disposed: multiset<string>
    /** What `_Init` registers. */
    const initEntries: map<string, DataEntry>
    const normalize: (DataEntry, seq<JProperty>) -> Option<seq<JProperty>>

    constructor(initEntries: map<string, DataEntry>, normalize: (DataEntry, seq<JProperty>) -> Option<seq<JProperty>>)
      ensures this.initEntries == initEntries && this.normalize == normalize
      ensures !inited && dataDict == map[] && disposed == multiset{}
    {
      this.initEntries := initEntries;
      this.normalize := normalize;
      inited := false;
      dataDict := map[];
      disposed := multiset{};
    }

    /** `ImportJson(data, isLocalData)`: `None` is null and changes nothing. */
    method ImportJson(data: Option<seq<JProperty>>, isLocalData: bool)
      modifies this`dataDict
      ensures data.None? ==> dataDict == old(dataDict)
      ensures data.Some? ==> dataDict == ImportAll(old(dataDict), data.value, isLocalData, normalize)
    {
      if data.None? {
        return;
      }
      VisitEach(data.value, isLocalData, false);
      var updatedData := GetJSONObject(data.value, "updatedData");
      if updatedData.Some? {
        VisitEach(updatedData.value, isLocalData, true);
      }
    }

    /** One pass over `DataDict.Values`. */
    method VisitEach(payload: seq<JProperty>, isLocalData: bool, update: bool)
      modifies this`dataDict
      ensures dataDict == VisitAll(old(dataDict), payload, isLocalData, update, normalize)
    {
      var todo := dataDict.Keys;
      while todo != {}
        invariant todo <= dataDict.Keys && dataDict.Keys == old(dataDict).Keys
        invariant forall k :: k in dataDict ==>
          dataDict[k] == if k in todo then old(dataDict)[k] else Visit(old(dataDict)[k], payload, isLocalData, update, normalize)
        decreases todo
      {
        var k :| k in todo;
        dataDict := dataDict[k := Visit(dataDict[k], payload, isLocalData, update, normalize)];
        todo := todo - {k};
      }
    }

    /** `ExportJson()`. */
    method ExportJson(exportEntry: DataEntry -> JToken) returns (r: Option<map<string, JToken>>)
      ensures r.None? <==> DuplicateSavedKey(dataDict)
      ensures r.Some? ==> r.value.Keys == SavedKeys(dataDict)
      ensures r.Some? ==> forall k :: k in dataDict && dataDict[k].isSaveLocal ==> r.value[dataDict[k].dataKey] == exportEntry(dataDict[k])
    {
      var out: map<string, JToken> := map[];
      var todo := dataDict.Keys;
      ghost var done: set<string> := {};
      while todo != {}
        invariant todo + done == dataDict.Keys && todo !! done
        invariant out.Keys == set k | k in done && dataDict[k].isSaveLocal :: dataDict[k].dataKey
        invariant forall k :: k in done && dataDict[k].isSaveLocal ==> out[dataDict[k].dataKey] == exportEntry(dataDict[k])
        invariant forall a, b :: a in done && b in done && a != b && dataDict[a].isSaveLocal && dataDict[b].isSaveLocal
                    ==> dataDict[a].dataKey != dataDict[b].dataKey
        decreases todo
      {
        var k :| k in todo;
        var e := dataDict[k];
        if e.isSaveLocal {
          if e.dataKey in out {
            ghost var j :| j in done && dataDict[j].isSaveLocal && dataDict[j].dataKey == e.dataKey;
            assert j != k;
            return None;
          }
          out := out[e.dataKey := exportEntry(e)];
        }
        todo := todo - {k};
        done := done + {k};
      }
      return Some(out);
    }

    /** `Init()`: `_Init` runs only while not initialised. */
    method Init()
      modifies this`inited, this`dataDict
      ensures inited
      ensures !old(inited) ==> dataDict == initEntries
      ensures old(inited) ==> dataDict == old(dataDict)
    {
      if !inited {
        dataDict := map[];
        dataDict := initEntries;
        inited := true;
      }
    }

    /** `Release()`: dispose every object once, clear, and initialise again. */
    method Release()
      modifies this`inited, this`dataDict, this`disposed
      ensures disposed == old(disposed) + multiset(old(dataDict).Keys)
      ensures inited && dataDict == initEntries
    {
      var todo := dataDict.Keys;
      while todo != {}
        invariant todo <= dataDict.Keys && dataDict == old(dataDict)
        invariant disposed + multiset(todo) == old(disposed) + multiset(old(dataDict).Keys)
        decreases todo
      {
        var k :| k in todo;
        disposed := disposed + multiset{k};
        todo := todo - {k};
      }
      dataDict := map[];
      inited := false;
      Init();
    }
  }

  /** A second `Init` changes nothing. */
  method InitTwice(r: ServerDataRepository)
    modifies r`inited, r`dataDict
    ensures r.inited && (old(r.inited) ==> r.dataDict == old(r.dataDict))
    ensures !old(r.inited) ==> r.dataDict == r.initEntries
  {
    r.Init();
    ghost var once := r.dataDict;
    r.Init();
    assert r.dataDict == once;
  }
}
