/** `JsonDataBase`: importing (replace) and updating (merge) a data object
    from a JSON object. Collection members are handled by the four `Handle*`
    operations and their property is then removed from the JSON object; what
    is left goes to `DeserializeFields`.

    JSON is a value (`JToken`); a data object's collection members are two
    maps from member name to list or dictionary, a missing name standing for
    a null collection. How a single element is created from JSON, merged
    with JSON, or compared with another is Json.NET and subclass behaviour,
    given as the functions of a `Serializer`. */
module JsonData {
  import opened Wrappers
  import opened Strings

  datatype JToken =
    | JArray(items: seq<JToken>)
    | JObject(props: seq<JProperty>)
    | JValue(text: string)
    | JNull

  datatype JProperty = JProperty(name: string, value: JToken)

  /** What Json.NET and the subclass hooks do to a single element. */
  datatype Serializer<!E> = Serializer(
    /** `Activator.CreateInstance` followed by `Serializer.Populate`. */
    create: JToken -> E,
    /** An existing dictionary value replaced from JSON (`ImportJson` or `Populate`). */
    importInto: (E, JToken) -> E,
    /** An existing dictionary value merged with JSON (`UpdateJson` or `Populate`). */
    updateInto: (E, JToken) -> E,
    /** Whether an element is a `JsonDataBase`. */
    isModel: E -> bool,
    /** `existing.CompareModel(other)`. */
    compare: (E, E) -> bool,
    /** `existing.UpdateJson(JObject.FromObject(other))`. */
    updateFrom: (E, E) -> E)

  datatype MemberKind = ListMember | DictMember | OtherMember

  /** A public readable and writable member: its JSON name and what kind of value it holds. */
  datatype Member = Member(jsonName: string, kind: MemberKind)

  // ---------------------------------------------------------------------
  // Property lookup
  // ---------------------------------------------------------------------

  function NameSet(props: seq<JProperty>): set<string> {
    set p | p in props :: p.name
  }

  /** The first property named exactly `name` (`JObject.TryGetValue`). */
  function IndexOfName(props: seq<JProperty>, name: string): (r: Option<nat>)
    ensures r.None? <==> name !in NameSet(props)
    ensures r.Some? ==> r.value < |props| && props[r.value].name == name
                        && forall j :: 0 <= j < r.value ==> props[j].name != name
  {
    if props == [] then None
    else if props[0].name == name then Some(0)
    else match IndexOfName(props[1..], name)
      case None =>
        assert NameSet(props) == {props[0].name} + NameSet(props[1..]) by {
          assert props == [props[0]] + props[1..];
        }
        None
      case Some(i) => Some(i + 1)
  }

  /** The first property whose name equals `name` ignoring case. */
  function IndexIgnoreCase(props: seq<JProperty>, name: string): (r: Option<nat>)
    ensures r.None? <==> forall j :: 0 <= j < |props| ==> !EqualsIgnoreCase(props[j].name, name)
    ensures r.Some? ==> r.value < |props| && EqualsIgnoreCase(props[r.value].name, name)
                        && forall j :: 0 <= j < r.value ==> !EqualsIgnoreCase(props[j].name, name)
  {
    if props == [] then None
    else if EqualsIgnoreCase(props[0].name, name) then Some(0)
    else match IndexIgnoreCase(props[1..], name)
      case None => None
      case Some(i) => Some(i + 1)
  }

  /** `TryGetToken(data, name)`: the value of the property named exactly
      `name`, else of the first property whose name matches ignoring case,
      else nothing. */
  function TryGetToken(props: seq<JProperty>, name: string): (r: Option<JToken>)
    ensures r.None? <==> forall j :: 0 <= j < |props| ==> !EqualsIgnoreCase(props[j].name, name)
  {
    match IndexOfName(props, name)
    case Some(i) =>
      assert EqualsIgnoreCase(props[i].name, name);
      Some(props[i].value)
    case None =>
      match IndexIgnoreCase(props, name)
      case Some(i) => Some(props[i].value)
      case None => None
  }

  /** An exact match wins; without one, the first match ignoring case wins. */
  lemma TryGetTokenChoice(props: seq<JProperty>, name: string, i: nat)
    requires i < |props|
    ensures (props[i].name == name && forall j :: 0 <= j < i ==> props[j].name != name)
              ==> TryGetToken(props, name) == Some(props[i].value)
    ensures (name !in NameSet(props) && EqualsIgnoreCase(props[i].name, name)
              && forall j :: 0 <= j < i ==> !EqualsIgnoreCase(props[j].name, name))
              ==> TryGetToken(props, name) == Some(props[i].value)
  {
    if props[i].name == name && (forall j :: 0 <= j < i ==> props[j].name != name) {
      assert props[i] in props;
    }
  }

  /** `JObject.Remove(name)`: drops the property named exactly `name`. */
  function RemoveName(props: seq<JProperty>, name: string): (r: seq<JProperty>)
    ensures name !in NameSet(props) ==> r == props
    ensures name in NameSet(props) ==> |r| == |props| - 1
    ensures NameSet(r) <= NameSet(props)
    ensures (forall a, b :: 0 <= a < b < |props| ==> props[a].name != props[b].name) ==> name !in NameSet(r)
  {
    match IndexOfName(props, name)
    case None => props
    case Some(i) =>
      var r := props[..i] + props[i + 1..];
      assert forall p :: p in r ==> p in props;
      assert forall k :: 0 <= k < |r| ==> r[k] == props[if k < i then k else k + 1];
      r
  }

  /** A property whose name differs in case only is found, yet stays in the
      data after its collection has been handled: `Remove` is exact. */
  lemma CaseInsensitiveMatchIsNotRemoved(props: seq<JProperty>, name: string)
    requires name !in NameSet(props) && exists j :: 0 <= j < |props| && EqualsIgnoreCase(props[j].name, name)
    ensures TryGetToken(props, name).Some? && RemoveName(props, name) == props
  {
  }

  // ---------------------------------------------------------------------
  // The four collection handlers, on values
  // ---------------------------------------------------------------------

  /** `HandleListReplace`: one new element per array item, in array order. */
  function ListReplaced<E>(items: seq<JToken>, ser: Serializer<E>): (r: seq<E>)
    ensures |r| == |items| && forall i :: 0 <= i < |items| ==> r[i] == ser.create(items[i])
  {
    seq(|items|, i requires 0 <= i < |items| => ser.create(items[i]))
  }

  /** The dictionary after merging each pair in turn: a present key is merged, a new one created. */
  function DictMerge<E>(dict: map<string, E>, pairs: seq<JProperty>,
                        merge: (E, JToken) -> E, create: JToken -> E): map<string, E>
    decreases |pairs|
  {
    if pairs == [] then dict
    else
      var p := pairs[0];
      var d := if p.name in dict then dict[p.name := merge(dict[p.name], p.value)] else dict[p.name := create(p.value)];
      DictMerge(d, pairs[1..], merge, create)
  }

  /** `HandleDictionaryReplace`: merge every pair, then drop the keys that were
      present before and are absent from the JSON. */
  function DictReplaced<E>(dict: map<string, E>, pairs: seq<JProperty>, ser: Serializer<E>): map<string, E> {
    DictMerge(dict, pairs, ser.importInto, ser.create) - (set k | k in dict && k !in NameSet(pairs))
  }

  /** `HandleDictionaryUpdate`: merge every pair and remove nothing. */
  function DictUpdated<E>(dict: map<string, E>, pairs: seq<JProperty>, ser: Serializer<E>): map<string, E> {
    DictMerge(dict, pairs, ser.updateInto, ser.create)
  }

  /** Whether an existing element takes the update of a new one. */
  predicate Matches<E>(ser: Serializer<E>, existing: E, newObj: E) {
    ser.isModel(existing) && ser.isModel(newObj) && ser.compare(existing, newObj)
  }

  /** The first element of `list` that `newObj` matches. */
  function FirstMatch<E>(list: seq<E>, newObj: E, ser: Serializer<E>): (r: Option<nat>)
    ensures r.None? <==> forall j :: 0 <= j < |list| ==> !Matches(ser, list[j], newObj)
    ensures r.Some? ==> r.value < |list| && Matches(ser, list[r.value], newObj)
                        && forall j :: 0 <= j < r.value ==> !Matches(ser, list[j], newObj)
  {
    if list == [] then None
    else if Matches(ser, list[0], newObj) then Some(0)
    else match FirstMatch(list[1..], newObj, ser)
      case None => None
      case Some(i) => Some(i + 1)
  }

  /** One array item of `HandleListUpdate`: update the first matching element, or append. */
  function ListUpdateStep<E>(list: seq<E>, item: JToken, ser: Serializer<E>): seq<E> {
    var newObj := ser.create(item);
    match FirstMatch(list, newObj, ser)
    case Some(i) => list[i := ser.updateFrom(list[i], newObj)]
    case None => list + [newObj]
  }

  /** `HandleListUpdate`: the array items applied in order. */
  function ListUpdated<E>(list: seq<E>, items: seq<JToken>, ser: Serializer<E>): seq<E>
    decreases |items|
  {
    if items == [] then list else ListUpdated(ListUpdateStep(list, items[0], ser), items[1..], ser)
  }

  // ---------------------------------------------------------------------
  // Properties of the handlers
  // ---------------------------------------------------------------------

  /** Merging never loses a key: the keys are the old ones and the incoming ones. */
  lemma {:induction false} DictMergeKeys<E>(dict: map<string, E>, pairs: seq<JProperty>,
                                            merge: (E, JToken) -> E, create: JToken -> E)
    ensures DictMerge(dict, pairs, merge, create).Keys == dict.Keys + NameSet(pairs)
    decreases |pairs|
  {
    if pairs != [] {
      var p := pairs[0];
      var d := if p.name in dict then dict[p.name := merge(dict[p.name], p.value)] else dict[p.name := create(p.value)];
      DictMergeKeys(d, pairs[1..], merge, create);
      assert NameSet(pairs) == {p.name} + NameSet(pairs[1..]) by {
        assert pairs == [p] + pairs[1..];
      }
    }
  }

  /** A key the JSON does not mention keeps its value. */
  lemma {:induction false} DictMergeUntouched<E>(dict: map<string, E>, pairs: seq<JProperty>,
                                                 merge: (E, JToken) -> E, create: JToken -> E, k: string)
    requires k in dict && k !in NameSet(pairs)
    ensures k in DictMerge(dict, pairs, merge, create) && DictMerge(dict, pairs, merge, create)[k] == dict[k]
    decreases |pairs|
  {
    if pairs != [] {
      var p := pairs[0];
      var d := if p.name in dict then dict[p.name := merge(dict[p.name], p.value)] else dict[p.name := create(p.value)];
      assert p in pairs;
      assert forall q :: q in pairs[1..] ==> q in pairs;
      DictMergeUntouched(d, pairs[1..], merge, create, k);
    }
  }

  /** A key mentioned once is merged with its JSON when it was present and
      created from it otherwise. */
  lemma {:induction false} DictMergeMentioned<E>(dict: map<string, E>, pairs: seq<JProperty>,
                                                 merge: (E, JToken) -> E, create: JToken -> E, i: nat)
    requires i < |pairs| && forall j :: 0 <= j < |pairs| && j != i ==> pairs[j].name != pairs[i].name
    ensures var k := pairs[i].name;
      var r := DictMerge(dict, pairs, merge, create);
      k in r && r[k] == (if k in dict then merge(dict[k], pairs[i].value) else create(pairs[i].value))
    decreases |pairs|
  {
    var p := pairs[0];
    var d := if p.name in dict then dict[p.name := merge(dict[p.name], p.value)] else dict[p.name := create(p.value)];
    if i == 0 {
      assert p.name !in NameSet(pairs[1..]) by {
        forall q | q in pairs[1..] ensures q.name != p.name {
          var j :| 0 <= j < |pairs[1..]| && pairs[1..][j] == q;
          assert pairs[j + 1] == q;
        }
      }
      DictMergeUntouched(d, pairs[1..], merge, create, p.name);
    } else {
      assert pairs[1..][i - 1] == pairs[i];
      forall j | 0 <= j < |pairs[1..]| && j != i - 1 ensures pairs[1..][j].name != pairs[1..][i - 1].name {
        assert pairs[1..][j] == pairs[j + 1];
      }
      DictMergeMentioned(d, pairs[1..], merge, create, i - 1);
    }
  }

  /** After `HandleDictionaryReplace` the keys are exactly the incoming ones. */
  lemma DictReplacedKeys<E>(dict: map<string, E>, pairs: seq<JProperty>, ser: Serializer<E>)
    ensures DictReplaced(dict, pairs, ser).Keys == NameSet(pairs)
  {
    DictMergeKeys(dict, pairs, ser.importInto, ser.create);
  }

  /** After `HandleDictionaryUpdate` the keys are the old ones and the
      incoming ones, and an unmentioned key keeps its value. */
  lemma DictUpdatedKeys<E>(dict: map<string, E>, pairs: seq<JProperty>, ser: Serializer<E>)
    ensures DictUpdated(dict, pairs, ser).Keys == dict.Keys + NameSet(pairs)
    ensures forall k :: k in dict && k !in NameSet(pairs) ==> DictUpdated(dict, pairs, ser)[k] == dict[k]
  {
    DictMergeKeys(dict, pairs, ser.updateInto, ser.create);
    forall k | k in dict && k !in NameSet(pairs) ensures DictUpdated(dict, pairs, ser)[k] == dict[k] {
      DictMergeUntouched(dict, pairs, ser.updateInto, ser.create, k);
    }
  }

  /** `HandleListUpdate` only grows the list, by at most one element per
      item, and an existing element changes only if it is a model. */
  lemma {:induction false} ListUpdatedShape<E>(list: seq<E>, items: seq<JToken>, ser: Serializer<E>)
    ensures var r := ListUpdated(list, items, ser);
      |list| <= |r| <= |list| + |items|
      && forall i :: 0 <= i < |list| && !ser.isModel(list[i]) ==> r[i] == list[i]
    decreases |items|
  {
    if items != [] {
      var step := ListUpdateStep(list, items[0], ser);
      ListUpdatedShape(step, items[1..], ser);
    }
  }

  /** With the default `CompareModel` (reference equality, never true of a
      fresh element) every item is appended, in order. */
  lemma {:induction false} ListUpdatedAppendsAll<E>(list: seq<E>, items: seq<JToken>, ser: Serializer<E>)
    requires forall a, b :: !ser.compare(a, b)
    ensures ListUpdated(list, items, ser) == list + ListReplaced(items, ser)
    decreases |items|
  {
    if items != [] {
      var newObj := ser.create(items[0]);
      AppendsFirst(list, items, ser);
      ListUpdatedAppendsAll(list + [newObj], items[1..], ser);
      AppendReplaced(list, items, ser);
    } else {
      assert ListReplaced(items, ser) == [];
    }
  }

  /** Appending the first created item, then the rest, appends them all. */
  lemma AppendReplaced<E>(list: seq<E>, items: seq<JToken>, ser: Serializer<E>)
    requires items != []
    ensures (list + [ser.create(items[0])]) + ListReplaced(items[1..], ser) == list + ListReplaced(items, ser)
  {
    ListReplacedCons(items, ser);
    var newObj := ser.create(items[0]);
    assert (list + [newObj]) + ListReplaced(items[1..], ser) == list + ([newObj] + ListReplaced(items[1..], ser));
  }

  /** Without matches the first item is appended. */
  lemma AppendsFirst<E>(list: seq<E>, items: seq<JToken>, ser: Serializer<E>)
    requires items != [] && forall a, b :: !ser.compare(a, b)
    ensures ListUpdated(list, items, ser) == ListUpdated(list + [ser.create(items[0])], items[1..], ser)
  {
    NothingMatches(list, ser.create(items[0]), ser);
  }

  lemma NothingMatches<E>(list: seq<E>, newObj: E, ser: Serializer<E>)
    requires forall a, b :: !ser.compare(a, b)
    ensures FirstMatch(list, newObj, ser) == None
  {
  }

  lemma ListReplacedCons<E>(items: seq<JToken>, ser: Serializer<E>)
    requires items != []
    ensures ListReplaced(items, ser) == [ser.create(items[0])] + ListReplaced(items[1..], ser)
  {
    var a := ListReplaced(items, ser);
    var b := [ser.create(items[0])] + ListReplaced(items[1..], ser);
    assert |a| == |b|;
    forall i | 0 <= i < |a| ensures a[i] == b[i] {
      if i > 0 {
        assert b[i] == ListReplaced(items[1..], ser)[i - 1];
        assert items[1..][i - 1] == items[i];
      }
    }
  }

  // ---------------------------------------------------------------------
  // Replacing and updating the collection members
  // ---------------------------------------------------------------------

  /** The collection members and the JSON properties still to be deserialised. */
  datatype Collections<E> = Collections(lists: map<string, seq<E>>, dicts: map<string, map<string, E>>,
                                        data: seq<JProperty>)

  /** A list member whose property was found: a missing list is created,
      and an array replaces or updates it and is removed from the data. */
  function ListMemberStep<E>(st: Collections<E>, name: string, token: JToken, replace: bool, ser: Serializer<E>): Collections<E> {
    var list := if name in st.lists then st.lists[name] else [];
    if token.JArray? then
      var newList := if replace then ListReplaced(token.items, ser) else ListUpdated(list, token.items, ser);
      st.(lists := st.lists[name := newList], data := RemoveName(st.data, name))
    else st.(lists := st.lists[name := list])
  }

  /** A dictionary member whose property was found, likewise with an object. */
  function DictMemberStep<E>(st: Collections<E>, name: string, token: JToken, replace: bool, ser: Serializer<E>): Collections<E> {
    var dict := if name in st.dicts then st.dicts[name] else map[];
    if token.JObject? then
      var newDict := if replace then DictReplaced(dict, token.props, ser) else DictUpdated(dict, token.props, ser);
      st.(dicts := st.dicts[name := newDict], data := RemoveName(st.data, name))
    else st.(dicts := st.dicts[name := dict])
  }

  /** One member of `ReplaceCollections` (`replace`) or `UpdateCollections`. */
  function CollectionStep<E>(st: Collections<E>, m: Member, replace: bool, ser: Serializer<E>): Collections<E> {
    match TryGetToken(st.data, m.jsonName)
    case None => st
    case Some(token) =>
      match m.kind
      case OtherMember => st
      case ListMember => ListMemberStep(st, m.jsonName, token, replace, ser)
      case DictMember => DictMemberStep(st, m.jsonName, token, replace, ser)
  }

  /** The members handled in declaration order. */
  function CollectionsAll<E>(st: Collections<E>, members: seq<Member>, replace: bool, ser: Serializer<E>): Collections<E>
    decreases |members|
  {
    if members == [] then st else CollectionsAll(CollectionStep(st, members[0], replace, ser), members[1..], replace, ser)
  }

  /** No two properties share a name, as in a Json.NET `JObject`. */
  predicate UniqueNames(props: seq<JProperty>) {
    forall a, b :: 0 <= a < b < |props| ==> props[a].name != props[b].name
  }

  /** A collection member found under its exact name with a value of its
      shape is handled and its property removed, so `DeserializeFields`
      does not see it; any other member leaves the data alone. */
  lemma HandledMemberIsRemoved<E>(st: Collections<E>, m: Member, replace: bool, ser: Serializer<E>)
    requires UniqueNames(st.data) && m.jsonName in NameSet(st.data)
    requires var t := TryGetToken(st.data, m.jsonName).value;
      (m.kind == ListMember && t.JArray?) || (m.kind == DictMember && t.JObject?)
    ensures m.jsonName !in NameSet(CollectionStep(st, m, replace, ser).data)
    ensures |CollectionStep(st, m, replace, ser).data| == |st.data| - 1
  {
  }

  /** A member that is not a collection, or whose JSON is absent, changes nothing. */
  lemma UnhandledMemberChangesNothing<E>(st: Collections<E>, m: Member, replace: bool, ser: Serializer<E>)
    requires m.kind == OtherMember || TryGetToken(st.data, m.jsonName).None?
    ensures CollectionStep(st, m, replace, ser) == st
  {
  }

  /** A replaced dictionary member ends with exactly the incoming keys; an
      updated one keeps its old keys too. */
  lemma DictMemberKeys<E>(st: Collections<E>, m: Member, replace: bool, ser: Serializer<E>)
    requires m.kind == DictMember && TryGetToken(st.data, m.jsonName).Some?
    requires TryGetToken(st.data, m.jsonName).value.JObject?
    ensures var pairs := TryGetToken(st.data, m.jsonName).value.props;
      var old_ := if m.jsonName in st.dicts then st.dicts[m.jsonName] else map[];
      var r := CollectionStep(st, m, replace, ser).dicts[m.jsonName];
      r.Keys == (if replace then NameSet(pairs) else old_.Keys + NameSet(pairs))
  {
    var pairs := TryGetToken(st.data, m.jsonName).value.props;
    var old_ := if m.jsonName in st.dicts then st.dicts[m.jsonName] else map[];
    if replace {
      DictReplacedKeys(old_, pairs, ser);
    } else {
      DictUpdatedKeys(old_, pairs, ser);
    }
  }

  /** A data object: its collection members. `fieldData` records the JSON
      each `DeserializeFields` call received. */
  class JsonModel<E> {
    var lists: map<string, seq<E>>
    var dicts: map<string, map<string, E>>
    var fieldData: seq<seq<JProperty>>

    constructor()
      ensures lists == map[] && dicts == map[] && fieldData == []
    {
      lists := map[];
      dicts := map[];
      fieldData := [];
    }

    /** `HandleListReplace`: clear, then add one element per item. */
    method HandleListReplace(name: string, items: seq<JToken>, ser: Serializer<E>)
      requires name in lists
      modifies this`lists
      ensures lists == old(lists)[name := ListReplaced(items, ser)]
    {
      lists := lists[name := []];
      for i := 0 to |items|
        invariant name in lists && lists[name] == ListReplaced(items[..i], ser)
        invariant lists == old(lists)[name := lists[name]]
      {
        lists := lists[name := lists[name] + [ser.create(items[i])]];
      }
      assert items[..|items|] == items;
    }

    /** One item of `HandleListUpdate`: update the first matching element
        in place, or append the new one. */
    method UpdateOrAppend(name: string, item: JToken, ser: Serializer<E>)
      requires name in lists
      modifies this`lists
      ensures lists == old(lists)[name := ListUpdateStep(old(lists)[name], item, ser)]
    {
      var list := lists[name];
      var newObj := ser.create(item);
      var matched := false;
      var j := 0;
      while j < |list| && !matched
        invariant 0 <= j <= |list|
        invariant name in lists && lists == old(lists)[name := lists[name]]
        invariant !matched ==> forall l :: 0 <= l < j ==> !Matches(ser, list[l], newObj)
        invariant matched ==> 0 < j && FirstMatch(list, newObj, ser) == Some(j - 1)
        invariant matched ==> lists[name] == list[j - 1 := ser.updateFrom(list[j - 1], newObj)]
        invariant !matched ==> lists[name] == list
      {
        if Matches(ser, list[j], newObj) {
          lists := lists[name := list[j := ser.updateFrom(list[j], newObj)]];
          matched := true;
        }
        j := j + 1;
      }
      if !matched {
        lists := lists[name := list + [newObj]];
      }
    }

    /** `HandleListUpdate`: for each item, update the first matching element or append. */
    method HandleListUpdate(name: string, items: seq<JToken>, ser: Serializer<E>)
      requires name in lists
      modifies this`lists
      ensures lists == old(lists)[name := ListUpdated(old(lists)[name], items, ser)]
    {
      for i := 0 to |items|
        invariant name in lists && ListUpdated(lists[name], items[i..], ser) == ListUpdated(old(lists)[name], items, ser)
        invariant lists == old(lists)[name := lists[name]]
      {
        assert items[i..][1..] == items[i + 1..];
        UpdateOrAppend(name, items[i], ser);
      }
    }

    /** `HandleDictionaryReplace`. */
    method HandleDictionaryReplace(name: string, pairs: seq<JProperty>, ser: Serializer<E>)
      requires name in dicts
      modifies this`dicts
      ensures dicts == old(dicts)[name := DictReplaced(old(dicts)[name], pairs, ser)]
    {
      var keysToRemove := set k | k in dicts[name] && k !in NameSet(pairs);
      MergePairs(name, pairs, ser.importInto, ser.create);
      dicts := dicts[name := dicts[name] - keysToRemove];
    }

    /** `HandleDictionaryUpdate`. */
    method HandleDictionaryUpdate(name: string, pairs: seq<JProperty>, ser: Serializer<E>)
      requires name in dicts
      modifies this`dicts
      ensures dicts == old(dicts)[name := DictUpdated(old(dicts)[name], pairs, ser)]
    {
      MergePairs(name, pairs, ser.updateInto, ser.create);
    }

    /** The loop the two dictionary handlers share: merge a present key, create a new one. */
    method MergePairs(name: string, pairs: seq<JProperty>, merge: (E, JToken) -> E, create: JToken -> E)
      requires name in dicts
      modifies this`dicts
      ensures dicts == old(dicts)[name := DictMerge(old(dicts)[name], pairs, merge, create)]
    {
      for i := 0 to |pairs|
        invariant name in dicts && DictMerge(dicts[name], pairs[i..], merge, create) == DictMerge(old(dicts)[name], pairs, merge, create)
        invariant dicts == old(dicts)[name := dicts[name]]
      {
        assert pairs[i..][1..] == pairs[i + 1..];
        var dict := dicts[name];
        var p := pairs[i];
        if p.name in dict {
          dicts := dicts[name := dict[p.name := merge(dict[p.name], p.value)]];
        } else {
          dicts := dicts[name := dict[p.name := create(p.value)]];
        }
      }
    }

    function State(data: JsonObjectData): Collections<E>
      reads this, data
    {
      Collections(lists, dicts, data.props)
    }

    /** `ReplaceCollections` (`replace`) and `UpdateCollections`. */
    method HandleCollections(members: seq<Member>, data: JsonObjectData, replace: bool, ser: Serializer<E>)
      modifies this`lists, this`dicts, data
      ensures State(data) == CollectionsAll(old(State(data)), members, replace, ser)
    {
      for i := 0 to |members|
        invariant CollectionsAll(State(data), members[i..], replace, ser) == CollectionsAll(old(State(data)), members, replace, ser)
      {
        assert members[i..][1..] == members[i + 1..];
        HandleMember(members[i], data, replace, ser);
      }
    }

    /** One iteration of the member loop. */
    method HandleMember(m: Member, data: JsonObjectData, replace: bool, ser: Serializer<E>)
      modifies this`lists, this`dicts, data
      ensures State(data) == CollectionStep(old(State(data)), m, replace, ser)
    {
      var token := TryGetToken(data.props, m.jsonName);
      if token.None? || m.kind == OtherMember {
        return;
      }
      if m.kind == ListMember {
        HandleListMember(m.jsonName, token.value, data, replace, ser);
      } else {
        HandleDictMember(m.jsonName, token.value, data, replace, ser);
      }
    }

    method HandleListMember(name: string, token: JToken, data: JsonObjectData, replace: bool, ser: Serializer<E>)
      modifies this`lists, data
      ensures State(data) == ListMemberStep(old(State(data)), name, token, replace, ser)
    {
      if name !in lists {
        lists := lists[name := []];
      }
      if token.JArray? {
        HandleList(name, token.items, replace, ser);
        data.Remove(name);
      }
    }

    /** The list handler `replace` selects. */
    method HandleList(name: string, items: seq<JToken>, replace: bool, ser: Serializer<E>)
      requires name in lists
      modifies this`lists
      ensures lists == old(lists)[name := if replace then ListReplaced(items, ser) else ListUpdated(old(lists)[name], items, ser)]
    {
      if replace {
        HandleListReplace(name, items, ser);
      } else {
        HandleListUpdate(name, items, ser);
      }
    }

    method HandleDictMember(name: string, token: JToken, data: JsonObjectData, replace: bool, ser: Serializer<E>)
      modifies this`dicts, data
      ensures State(data) == DictMemberStep(old(State(data)), name, token, replace, ser)
    {
      if name !in dicts {
        dicts := dicts[name := map[]];
      }
      if token.JObject? {
        HandleDictionary(name, token.props, replace, ser);
        data.Remove(name);
      }
    }

    /** The dictionary handler `replace` selects. */
    method HandleDictionary(name: string, pairs: seq<JProperty>, replace: bool, ser: Serializer<E>)
      requires name in dicts
      modifies this`dicts
      ensures dicts == old(dicts)[name := if replace then DictReplaced(old(dicts)[name], pairs, ser)
                                          else DictUpdated(old(dicts)[name], pairs, ser)]
    {
      if replace {
        HandleDictionaryReplace(name, pairs, ser);
      } else {
        HandleDictionaryUpdate(name, pairs, ser);
      }
    }

    /** `ImportJson(data)` (`replace`) and `UpdateJson(data)`: `None` is null. */
    method Apply(members: seq<Member>, data: JsonObjectData?, replace: bool, ser: Serializer<E>) returns (ok: bool)
      modifies this, data
      ensures ok <==> data != null
      ensures data == null ==> lists == old(lists) && dicts == old(dicts) && fieldData == old(fieldData)
      ensures data != null ==>
        var r := CollectionsAll(old(State(data)), members, replace, ser);
        lists == r.lists && dicts == r.dicts && data.props == r.data && fieldData == old(fieldData) + [r.data]
    {
      if data == null {
        return false;
      }
      HandleCollections(members, data, replace, ser);
      fieldData := fieldData + [data.props];
      return true;
    }
  }

  /** A `JObject` whose properties are removed in place. */
  class JsonObjectData {
    var props: seq<JProperty>

    constructor(props: seq<JProperty>)
      ensures this.props == props
    {
      this.props := props;
    }

    method Remove(name: string)
      modifies this
      ensures props == RemoveName(old(props), name)
    {
      var i := IndexOfName(props, name);
      if i.Some? {
        props := props[..i.value] + props[i.value + 1..];
      }
    }
  }
}
