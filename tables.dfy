/** The static data tables: `TableData` (the id/grade columns of a row and
    localised-name lookup) and the four table shapes that load a list of TSV
    rows: `IndexedTable` (by id, overwriting), `KeyedTable` (by key, last row
    wins), `GroupedTable` (rows appended per key) and `ListTable` (in order).
    The subclass hooks `ParseJson` and `GetKey` are function parameters; the
    localisation database is a lookup function. */
module Tables {
  import opened Wrappers
  import opened Strings
  import opened Tsv

  // ---------------------------------------------------------------------
  // TableData
  // ---------------------------------------------------------------------

  const NO_ID: int := 9999

  /** `_SetData(data)` on the fields `(id, grade)`. */
  function SetData(id: int, grade: int, data: Option<TsvRow>): (r: (int, int))
  {
    match data
    case None => (id, grade)
    case Some(row) =>
      var newId :=
        if Get(row, "ID").Some? then GetInt(row, "ID", NO_ID)
        else if Get(row, "id").Some? then GetInt(row, "id", NO_ID)
        else id;
      var newGrade := if Get(row, "grade").Some? then GetInt(row, "grade", 0) else grade;
      (newId, newGrade)
  }

  /** The "ID" column wins over "id"; without either, `id` stays; a present
      id column that is empty or does not parse gives 9999. */
  lemma SetDataId(id: int, grade: int, row: TsvRow)
    ensures Contains(row, "ID") ==> SetData(id, grade, Some(row)).0 == GetInt(row, "ID", NO_ID)
    ensures !Contains(row, "ID") && Contains(row, "id") ==> SetData(id, grade, Some(row)).0 == GetInt(row, "id", NO_ID)
    ensures !Contains(row, "ID") && !Contains(row, "id") ==> SetData(id, grade, Some(row)).0 == id
    ensures Get(row, "ID") == Some("") ==> SetData(id, grade, Some(row)).0 == NO_ID
    ensures (RawValue(row, "ID").Some? && ParseInt32(RawValue(row, "ID").value).None?)
              ==> SetData(id, grade, Some(row)).0 == NO_ID
  {
  }

  /** `grade` changes only with a "grade" column, and falls back to 0. */
  lemma SetDataGrade(id: int, grade: int, row: TsvRow)
    ensures !Contains(row, "grade") ==> SetData(id, grade, Some(row)).1 == grade
    ensures (Contains(row, "grade") && (RawValue(row, "grade").None? || ParseInt32(RawValue(row, "grade").value).None?))
              ==> SetData(id, grade, Some(row)).1 == 0
  {
  }

  /** An id written in the "ID" column is read back. */
  lemma SetDataReadsWrittenId(id: int, grade: int, row: TsvRow, n: int)
    requires INT32_MIN <= n <= INT32_MAX && Get(row, "ID") == Some(IntToString(n))
    ensures SetData(id, grade, Some(row)).0 == n
  {
    GetIntOfWritten(row, "ID", n, NO_ID);
  }

  class TableData {
    var id: int
    var grade: int

    /** `TableData(data)`: `Init` runs only for a non-null row. */
    constructor(data: Option<TsvRow>)
      ensures (id, grade) == SetData(0, 0, data)
    {
      id := 0;
      grade := 0;
      new;
      if data.Some? {
        Init(data);
      }
    }

    /** `Init(data)` and `_SetData(data)`. */
    method Init(data: Option<TsvRow>)
      modifies this
      ensures (id, grade) == SetData(old(id), old(grade), data)
      ensures data.None? ==> id == old(id) && grade == old(grade)
    {
      if data.None? { return; }
      var row := data.value;
      if Get(row, "ID").Some? {
        id := GetInt(row, "ID", NO_ID);
      } else if Get(row, "id").Some? {
        id := GetInt(row, "id", NO_ID);
      }
      if Get(row, "grade").Some? {
        grade := GetInt(row, "grade", 0);
      }
    }
  }

  /** `GetLoc(collection, key)`: `db(collection, key)` is the string-table entry. */
  function GetLoc(hasSettings: bool, db: (string, string) -> Option<string>,
                  collection: string, key: string, returnDebugKey: bool): (r: string)
    ensures key == "" ==> r == ""
    ensures key != "" && (!hasSettings || collection == "") ==> r == key
    ensures key != "" && hasSettings && collection != "" ==>
              r == (match db(collection, key) case Some(v) => v case None => if returnDebugKey then key else "")
    ensures r == key || r == "" || db(collection, key) == Some(r)
  {
    if key == "" then ""
    else if !hasSettings || collection == "" then key
    else match db(collection, key)
      case None => if returnDebugKey then key else ""
      case Some(v) => v
  }

  /** `GetLocWithFallback(collection, primaryKey, secondaryKey)`. */
  function GetLocWithFallback(hasSettings: bool, db: (string, string) -> Option<string>,
                              collection: string, primaryKey: string, secondaryKey: string): (r: string)
  {
    var s := GetLoc(hasSettings, db, collection, primaryKey, true);
    if s != "" && s != primaryKey then s
    else
      var t := GetLoc(hasSettings, db, collection, secondaryKey, true);
      if t != "" && t != secondaryKey then t else primaryKey
  }

  /** `v` is a genuine translation of `key`: the string table has an entry for
      it that is neither empty nor the key itself. */
  predicate Translates(hasSettings: bool, db: (string, string) -> Option<string>,
                       collection: string, key: string, v: string) {
    hasSettings && collection != "" && key != "" && db(collection, key) == Some(v) && v != "" && v != key
  }

  /** The fallback answers with a genuine translation of one of the keys,
      preferring the primary one, and otherwise with the primary key itself. */
  lemma FallbackChoice(hasSettings: bool, db: (string, string) -> Option<string>,
                       collection: string, primaryKey: string, secondaryKey: string)
    ensures var r := GetLocWithFallback(hasSettings, db, collection, primaryKey, secondaryKey);
      r == primaryKey
      || Translates(hasSettings, db, collection, primaryKey, r)
      || Translates(hasSettings, db, collection, secondaryKey, r)
    ensures forall v :: Translates(hasSettings, db, collection, primaryKey, v) ==>
              GetLocWithFallback(hasSettings, db, collection, primaryKey, secondaryKey) == v
    ensures forall w :: (forall v :: !Translates(hasSettings, db, collection, primaryKey, v))
                        && Translates(hasSettings, db, collection, secondaryKey, w) ==>
              GetLocWithFallback(hasSettings, db, collection, primaryKey, secondaryKey) == w
    ensures (forall v :: !Translates(hasSettings, db, collection, primaryKey, v)
                         && !Translates(hasSettings, db, collection, secondaryKey, v)) ==>
              GetLocWithFallback(hasSettings, db, collection, primaryKey, secondaryKey) == primaryKey
  {
    var p := GetLoc(hasSettings, db, collection, primaryKey, true);
    var q := GetLoc(hasSettings, db, collection, secondaryKey, true);
    assert p != "" && p != primaryKey ==> Translates(hasSettings, db, collection, primaryKey, p);
    assert q != "" && q != secondaryKey ==> Translates(hasSettings, db, collection, secondaryKey, q);
  }

  /** Without localisation settings every lookup falls back to the primary key. */
  lemma FallbackWithoutSettings(db: (string, string) -> Option<string>,
                                collection: string, primaryKey: string, secondaryKey: string)
    ensures GetLocWithFallback(false, db, collection, primaryKey, secondaryKey) == primaryKey
  {
  }

  // ---------------------------------------------------------------------
  // IndexedTable
  // ---------------------------------------------------------------------

  /** The rows parsed and stored by id in order, a later id overwriting. */
  function IndexRows<D>(rows: seq<TsvRow>, parse: TsvRow -> D, idOf: D -> int): map<int, D>
    decreases |rows|
  {
    if rows == [] then map[]
    else IndexRows(rows[..|rows| - 1], parse, idOf)[idOf(parse(rows[|rows| - 1])) := parse(rows[|rows| - 1])]
  }

  /** The ids in first-insertion order: the enumeration order of the dictionary. */
  function IdOrder<D>(rows: seq<TsvRow>, parse: TsvRow -> D, idOf: D -> int): seq<int>
    decreases |rows|
  {
    if rows == [] then []
    else
      var prev := IdOrder(rows[..|rows| - 1], parse, idOf);
      var id := idOf(parse(rows[|rows| - 1]));
      if id in prev then prev else prev + [id]
  }

  /** The stored ids are exactly the parsed ids, and each maps to the last
      row carrying it. */
  lemma {:induction false} IndexRowsSpec<D>(rows: seq<TsvRow>, parse: TsvRow -> D, idOf: D -> int)
    ensures IndexRows(rows, parse, idOf).Keys == set i | 0 <= i < |rows| :: idOf(parse(rows[i]))
    ensures forall i :: 0 <= i < |rows| && (forall l :: i < l < |rows| ==> idOf(parse(rows[l])) != idOf(parse(rows[i])))
              ==> IndexRows(rows, parse, idOf)[idOf(parse(rows[i]))] == parse(rows[i])
    decreases |rows|
  {
    if rows != [] {
      var init := rows[..|rows| - 1];
      IndexRowsSpec(init, parse, idOf);
      assert forall i :: 0 <= i < |init| ==> init[i] == rows[i];
      var ids := set i | 0 <= i < |rows| :: idOf(parse(rows[i]));
      var initIds := set i | 0 <= i < |init| :: idOf(parse(init[i]));
      assert ids == initIds + {idOf(parse(rows[|rows| - 1]))} by {
        forall x | x in ids ensures x in initIds + {idOf(parse(rows[|rows| - 1]))} {
          var i :| 0 <= i < |rows| && x == idOf(parse(rows[i]));
          if i < |init| {
            assert x == idOf(parse(init[i]));
          }
        }
      }
    }
  }

  /** The enumeration order lists each stored id exactly once. */
  lemma {:induction false} IdOrderSpec<D>(rows: seq<TsvRow>, parse: TsvRow -> D, idOf: D -> int)
    ensures NoDuplicates(IdOrder(rows, parse, idOf))
    ensures forall k :: k in IdOrder(rows, parse, idOf) <==> k in IndexRows(rows, parse, idOf)
    decreases |rows|
  {
    if rows != [] {
      var init := rows[..|rows| - 1];
      IdOrderSpec(init, parse, idOf);
      var prev := IdOrder(init, parse, idOf);
      var id := idOf(parse(rows[|rows| - 1]));
      assert IndexRows(rows, parse, idOf) == IndexRows(init, parse, idOf)[id := parse(rows[|rows| - 1])];
      if id !in prev {
        var order := prev + [id];
        assert IdOrder(rows, parse, idOf) == order;
        assert NoDuplicates(prev);
        forall a, b | 0 <= a < b < |order| ensures order[a] != order[b] {
          assert order[a] == prev[a];
          if b == |prev| {
            assert order[b] == id;
            assert prev[a] in prev;
          } else {
            assert order[b] == prev[b];
          }
        }
      } else {
        assert IdOrder(rows, parse, idOf) == prev;
      }
    }
  }

  /** The values of `m` listed in the key order `keys`. */
  function ValuesInOrder<K, D>(m: map<K, D>, keys: seq<K>): (r: seq<D>)
    requires forall k :: k in keys ==> k in m
    ensures |r| == |keys| && forall i :: 0 <= i < |r| ==> r[i] == m[keys[i]]
  {
    if keys == [] then [] else [m[keys[0]]] + ValuesInOrder(m, keys[1..])
  }

  class IndexedTable<D> {
    var dict: map<int, D>
    /** The order in which ids were first added. */
    var order: seq<int>

    ghost predicate Valid()
      reads this
    {
      NoDuplicates(order)
      && (forall k :: k in order <==> k in dict)
      && (forall i :: 0 <= i < |order| ==> order[i] in dict)
    }

    constructor()
      ensures Valid() && dict == map[] && order == []
    {
      dict := map[];
      order := [];
    }

    /** `InsertData(datas)`: `None` is a null list. */
    method InsertData(datas: Option<seq<TsvRow>>, parse: TsvRow -> D, idOf: D -> int)
      modifies this
      ensures Valid()
      ensures datas.None? ==> dict == map[] && order == []
      ensures datas.Some? ==> dict == IndexRows(datas.value, parse, idOf) && order == IdOrder(datas.value, parse, idOf)
    {
      dict := map[];
      order := [];
      if datas.None? { return; }
      var rows := datas.value;
      for i := 0 to |rows|
        invariant dict == IndexRows(rows[..i], parse, idOf) && order == IdOrder(rows[..i], parse, idOf)
      {
        assert rows[..i + 1][..i] == rows[..i];
        var data := parse(rows[i]);
        if idOf(data) !in order {
          order := order + [idOf(data)];
        }
        dict := dict[idOf(data) := data];
      }
      assert rows[..|rows|] == rows;
      IdOrderSpec(rows, parse, idOf);
    }

    method DataClear()
      modifies this
      ensures Valid() && dict == map[] && order == []
    {
      dict := map[];
      order := [];
    }

    /** `Get(id)`: `None` is null. */
    function Get(id: int): (r: Option<D>)
      reads this
      ensures r.Some? <==> id in dict
      ensures r.Some? ==> r.value == dict[id]
    {
      if id in dict then Some(dict[id]) else None
    }

    /** `Datas`: the values in enumeration order, one per distinct id. */
    function Datas(): (r: seq<D>)
      reads this
      requires Valid()
      ensures |r| == |order| && forall i :: 0 <= i < |r| ==> r[i] == dict[order[i]]
    {
      ValuesInOrder(dict, order)
    }
  }

  // ---------------------------------------------------------------------
  // KeyedTable
  // ---------------------------------------------------------------------

  /** The rows parsed and stored under their key, the last row for a key winning. */
  function KeyRows<K(==), D>(rows: seq<TsvRow>, parse: TsvRow -> D, keyOf: D -> K): map<K, D>
    decreases |rows|
  {
    if rows == [] then map[]
    else KeyRows(rows[..|rows| - 1], parse, keyOf)[keyOf(parse(rows[|rows| - 1])) := parse(rows[|rows| - 1])]
  }

  /** The stored keys are exactly the keys of the rows, and each maps to the
      last row with that key. */
  lemma {:induction false} KeyRowsSpec<K, D>(rows: seq<TsvRow>, parse: TsvRow -> D, keyOf: D -> K)
    ensures KeyRows(rows, parse, keyOf).Keys == set i | 0 <= i < |rows| :: keyOf(parse(rows[i]))
    ensures forall i :: 0 <= i < |rows| && (forall l :: i < l < |rows| ==> keyOf(parse(rows[l])) != keyOf(parse(rows[i])))
              ==> KeyRows(rows, parse, keyOf)[keyOf(parse(rows[i]))] == parse(rows[i])
    decreases |rows|
  {
    if rows != [] {
      var init := rows[..|rows| - 1];
      KeyRowsSpec(init, parse, keyOf);
      assert forall i :: 0 <= i < |init| ==> init[i] == rows[i];
      var keys := set i | 0 <= i < |rows| :: keyOf(parse(rows[i]));
      var initKeys := set i | 0 <= i < |init| :: keyOf(parse(init[i]));
      assert keys == initKeys + {keyOf(parse(rows[|rows| - 1]))} by {
        forall x | x in keys ensures x in initKeys + {keyOf(parse(rows[|rows| - 1]))} {
          var i :| 0 <= i < |rows| && x == keyOf(parse(rows[i]));
          if i < |init| {
            assert x == keyOf(parse(init[i]));
          }
        }
      }
    }
  }

  class KeyedTable<K(==), D> {
    var dict: map<K, D>

    constructor()
      ensures dict == map[]
    {
      dict := map[];
    }

    method InsertData(datas: Option<seq<TsvRow>>, parse: TsvRow -> D, keyOf: D -> K)
      modifies this
      ensures datas.None? ==> dict == map[]
      ensures datas.Some? ==> dict == KeyRows(datas.value, parse, keyOf)
    {
      dict := map[];
      if datas.None? { return; }
      var rows := datas.value;
      for i := 0 to |rows|
        invariant dict == KeyRows(rows[..i], parse, keyOf)
      {
        assert rows[..i + 1][..i] == rows[..i];
        var data := parse(rows[i]);
        InsertOne(keyOf(data), data);
      }
      assert rows[..|rows|] == rows;
    }

    /** `_InsertData(key, data)`. */
    method InsertOne(key: K, data: D)
      modifies this
      ensures dict == old(dict)[key := data]
      ensures key in dict && dict[key] == data && forall k :: k != key ==> (k in dict <==> k in old(dict))
    {
      dict := dict[key := data];
    }

    method DataClear()
      modifies this
      ensures dict == map[]
    {
      dict := map[];
    }

    /** `Get(key)`: `None` is `default`. */
    function Get(key: K): (r: Option<D>)
      reads this
      ensures r.Some? <==> key in dict
      ensures r.Some? ==> r.value == dict[key]
    {
      if key in dict then Some(dict[key]) else None
    }
  }

  // ---------------------------------------------------------------------
  // GroupedTable
  // ---------------------------------------------------------------------

  /** The rows parsed and appended to their key's list. */
  function GroupRows<K(==), D>(rows: seq<TsvRow>, parse: TsvRow -> D, keyOf: D -> K): map<K, seq<D>>
    decreases |rows|
  {
    if rows == [] then map[]
    else
      var g := GroupRows(rows[..|rows| - 1], parse, keyOf);
      var d := parse(rows[|rows| - 1]);
      var k := keyOf(d);
      g[k := (if k in g then g[k] else []) + [d]]
  }

  /** The parsed rows with key `k`, in input order. */
  function RowsWithKey<K(==), D>(rows: seq<TsvRow>, parse: TsvRow -> D, keyOf: D -> K, k: K): seq<D>
    decreases |rows|
  {
    if rows == [] then []
    else
      var d := parse(rows[|rows| - 1]);
      RowsWithKey(rows[..|rows| - 1], parse, keyOf, k) + (if keyOf(d) == k then [d] else [])
  }

  /** Each group is exactly the rows with its key, in input order, so no
      stored group is empty; a key without rows has no group. */
  lemma {:induction false} GroupRowsSpec<K, D>(rows: seq<TsvRow>, parse: TsvRow -> D, keyOf: D -> K, k: K)
    ensures k in GroupRows(rows, parse, keyOf) <==> RowsWithKey(rows, parse, keyOf, k) != []
    ensures k in GroupRows(rows, parse, keyOf) ==> GroupRows(rows, parse, keyOf)[k] == RowsWithKey(rows, parse, keyOf, k)
    decreases |rows|
  {
    if rows != [] {
      GroupRowsSpec(rows[..|rows| - 1], parse, keyOf, k);
    }
  }

  /** Every parsed row is in the list of its own key, and only rows with
      that key are. */
  lemma {:induction false} RowsWithKeyMembers<K, D>(rows: seq<TsvRow>, parse: TsvRow -> D, keyOf: D -> K, k: K)
    ensures forall d :: d in RowsWithKey(rows, parse, keyOf, k) ==> keyOf(d) == k
    ensures forall i :: 0 <= i < |rows| && keyOf(parse(rows[i])) == k ==> parse(rows[i]) in RowsWithKey(rows, parse, keyOf, k)
    decreases |rows|
  {
    if rows != [] {
      var init := rows[..|rows| - 1];
      RowsWithKeyMembers(init, parse, keyOf, k);
      assert forall i :: 0 <= i < |init| ==> init[i] == rows[i];
    }
  }

  /** The sizes of the groups listed in `ks` added up; a key without a group counts 0. */
  function SumSizes<K, D>(g: map<K, seq<D>>, ks: seq<K>): nat
  {
    if ks == [] then 0 else (if ks[0] in g then |g[ks[0]]| else 0) + SumSizes(g, ks[1..])
  }

  /** Appending to one group listed once in `ks` adds one to the sum. */
  lemma {:induction false} SumSizesAppend<K, D>(g: map<K, seq<D>>, k: K, d: D, ks: seq<K>)
    requires NoDuplicates(ks)
    ensures SumSizes(g[k := (if k in g then g[k] else []) + [d]], ks) == SumSizes(g, ks) + (if k in ks then 1 else 0)
  {
    if ks != [] {
      assert NoDuplicates(ks[1..]) by {
        forall a, b | 0 <= a < b < |ks[1..]| ensures ks[1..][a] != ks[1..][b] {
          assert ks[1..][a] == ks[a + 1] && ks[1..][b] == ks[b + 1];
        }
      }
      SumSizesAppend(g, k, d, ks[1..]);
      if ks[0] == k {
        assert k !in ks[1..] by {
          forall j | 0 <= j < |ks[1..]| ensures ks[1..][j] != k {
            assert ks[1..][j] == ks[j + 1];
          }
        }
      } else {
        assert k in ks <==> k in ks[1..] by {
          assert ks == [ks[0]] + ks[1..];
        }
      }
    }
  }

  /** Listing every stored key once, the group sizes add up to the number of rows. */
  lemma {:induction false} GroupSizesSum<K, D>(rows: seq<TsvRow>, parse: TsvRow -> D, keyOf: D -> K, ks: seq<K>)
    requires NoDuplicates(ks) && forall k :: k in GroupRows(rows, parse, keyOf) ==> k in ks
    ensures SumSizes(GroupRows(rows, parse, keyOf), ks) == |rows|
    decreases |rows|
  {
    if rows == [] {
      SumSizesEmpty(GroupRows(rows, parse, keyOf), ks);
    } else {
      var init := rows[..|rows| - 1];
      var g := GroupRows(init, parse, keyOf);
      var d := parse(rows[|rows| - 1]);
      var k := keyOf(d);
      assert GroupRows(rows, parse, keyOf) == g[k := (if k in g then g[k] else []) + [d]];
      assert k in GroupRows(rows, parse, keyOf);
      GroupSizesSum(init, parse, keyOf, ks);
      SumSizesAppend(g, k, d, ks);
    }
  }

  lemma {:induction false} SumSizesEmpty<K, D>(g: map<K, seq<D>>, ks: seq<K>)
    requires forall k :: k in ks ==> k !in g
    ensures SumSizes(g, ks) == 0
  {
    if ks != [] {
      assert forall k :: k in ks[1..] ==> k in ks;
      SumSizesEmpty(g, ks[1..]);
    }
  }

  class GroupedTable<K(==), D> {
    var dict: map<K, seq<D>>

    constructor()
      ensures dict == map[]
    {
      dict := map[];
    }

    method InsertData(datas: Option<seq<TsvRow>>, parse: TsvRow -> D, keyOf: D -> K)
      modifies this
      ensures datas.None? ==> dict == map[]
      ensures datas.Some? ==> dict == GroupRows(datas.value, parse, keyOf)
    {
      dict := map[];
      if datas.None? { return; }
      var rows := datas.value;
      for i := 0 to |rows|
        invariant dict == GroupRows(rows[..i], parse, keyOf)
      {
        assert rows[..i + 1][..i] == rows[..i];
        var data := parse(rows[i]);
        var key := keyOf(data);
        if key !in dict {
          dict := dict[key := []];
        }
        dict := dict[key := dict[key] + [data]];
      }
      assert rows[..|rows|] == rows;
    }

    /** `GetGroup(key)`: `None` is null. */
    function GetGroup(key: K): (r: Option<seq<D>>)
      reads this
      ensures r.Some? <==> key in dict
      ensures r.Some? ==> r.value == dict[key]
    {
      if key in dict then Some(dict[key]) else None
    }

    method DataClear()
      modifies this
      ensures dict == map[]
    {
      dict := map[];
    }
  }

  // ---------------------------------------------------------------------
  // ListTable
  // ---------------------------------------------------------------------

  class ListTable<D> {
    var list: seq<D>

    constructor()
      ensures list == []
    {
      list := [];
    }

    /** `InsertData(datas)`: one parsed element per row, in row order. */
    method InsertData(datas: Option<seq<TsvRow>>, parse: TsvRow -> D)
      modifies this
      ensures datas.None? ==> list == []
      ensures datas.Some? ==> |list| == |datas.value| && forall i :: 0 <= i < |list| ==> list[i] == parse(datas.value[i])
    {
      list := [];
      if datas.None? { return; }
      var rows := datas.value;
      for i := 0 to |rows|
        invariant |list| == i && forall j :: 0 <= j < i ==> list[j] == parse(rows[j])
      {
        list := list + [parse(rows[i])];
      }
    }

    method DataClear()
      modifies this
      ensures list == []
    {
      list := [];
    }

    /** `Datas`. */
    function Datas(): seq<D>
      reads this
    {
      list
    }
  }
}
