/** The editor tool `AddressableFolderGrouper`: the files of a folder are put
    into an Addressables group, each under the address of its file name
    (without extension), suffixed with `#<hash>` when another entry of the
    group already uses that name, and optionally labelled with the folders
    above it.

    The directory walk, the GUID lookup and the MD5 `ShortHash` are
    parameters; the Addressables settings are the list of entries and the
    set of registered labels. */
module AddressableFolderGrouping {
  import opened Wrappers
  import opened Strings
  import opened Paths

  /** The root the address hash is taken relative to, whatever root the
      tool runs on. */
  const HashRoot: string := "Assets/ProjectArcana/Addressables"

  // ---------------------------------------------------------------------
  // Paths
  // ---------------------------------------------------------------------

  /** `GetRelative(path, root)`: the normalised path below `root`, compared
      case-sensitively, or the normalised path itself. */
  function GetRelative(path: string, root: string): (r: string)
    ensures '\\' !in r && |r| <= |path|
  {
    var p := Normalize(path);
    var rt := TrimEndSlash(Normalize(root));
    if StartsWith(p, rt + "/") then p[|rt| + 1..] else p
  }

  /** The relative path is the whole normalised path, or what follows the
      root and a slash in it. */
  lemma GetRelativeRebuilds(path: string, root: string)
    ensures var rt := TrimEndSlash(Normalize(root));
      var r := GetRelative(path, root);
      r == Normalize(path) || Normalize(path) == rt + "/" + r
  {
    var p := Normalize(path);
    var rt := TrimEndSlash(Normalize(root));
    if StartsWith(p, rt + "/") {
      assert p == p[..|rt + "/"|] + p[|rt| + 1..];
    }
  }

  /** A path one slash below a root is the rest of the path. */
  lemma GetRelativeBelow(root: string, tail: string)
    requires root != "" && root[|root| - 1] != '/' && '\\' !in root && '\\' !in tail
    ensures GetRelative(root + "/" + tail, root) == tail
  {
    var p := root + "/" + tail;
    assert Normalize(root) == root;
    assert Normalize(p) == p;
    assert TrimEndSlash(root) == root;
    assert p[..|root + "/"|] == root + "/";
    assert p[|root| + 1..] == tail;
  }

  /** The path below `HashRoot`, for a path already normalised; `HashRoot`
      is itself normalised and has no trailing slash. */
  function BelowHashRoot(p: string): string {
    if StartsWith(p, HashRoot + "/") then p[|HashRoot| + 1..] else p
  }

  /** `BelowHashRoot` is `GetRelative(_, HashRoot)` on normalised paths. */
  lemma BelowHashRootIsRelative(path: string)
    ensures BelowHashRoot(Normalize(path)) == GetRelative(Normalize(path), HashRoot)
  {
    NormalizeKeeps(Normalize(path));
    HashRootIsNormal();
    HashRootIsTrimmed();
  }

  /** Normalising a path without backslashes keeps it. */
  lemma NormalizeKeeps(s: string)
    requires '\\' !in s
    ensures Normalize(s) == s
  {
    assert forall i :: 0 <= i < |s| ==> Normalize(s)[i] == s[i];
  }

  lemma HashRootIsNormal()
    ensures Normalize(HashRoot) == HashRoot
  {
    NormalizeKeeps(HashRoot);
  }

  lemma HashRootIsTrimmed()
    ensures TrimEndSlash(HashRoot) == HashRoot
  {
    assert HashRoot[|HashRoot| - 1] == 's';
  }

  /** `Path.GetExtension(abs).ToLowerInvariant() == ".meta"`. */
  predicate IsMeta(path: string) {
    ToLower(GetExtension(path)) == ".meta"
  }

  /** A file is skipped exactly when its extension is `.meta` in any case. */
  lemma IsMetaIgnoresCase(path: string)
    ensures IsMeta(path) <==> EqualsIgnoreCase(GetExtension(path), ".meta")
  {
    var e := GetExtension(path);
    var m := ".meta";
    assert forall i :: 0 <= i < |m| ==> FoldChar(m[i]) == m[i];
    if EqualsIgnoreCase(e, m) {
      assert ToLower(e) == m;
    }
  }

  /** The `.meta` companion of any file is skipped. */
  lemma MetaFileIsSkipped(dir: string, stem: string)
    requires forall i :: 0 <= i < |stem| ==> !IsSeparator(stem[i])
    ensures IsMeta(dir + "/" + stem + "." + "meta")
  {
    var ext := "meta";
    assert forall i :: 0 <= i < |ext| ==> ext[i] != '.' && !IsSeparator(ext[i]);
    ExtensionOf(dir, stem, ext);
    IsMetaIgnoresCase(dir + "/" + stem + "." + ext);
  }

  // ---------------------------------------------------------------------
  // Entries and groups
  // ---------------------------------------------------------------------

  /** An Addressables entry: asset GUID, group, address and labels. */
  datatype AssetEntry = AssetEntry(guid: string, group: string, address: string, labels: set<string>)

  /** `settings.FindAssetEntry(guid)`: the position of the entry of `guid`. */
  function IndexOfGuid(entries: seq<AssetEntry>, guid: string): (r: Option<nat>)
    ensures r.Some? ==> r.value < |entries| && entries[r.value].guid == guid
    ensures r.None? ==> forall i :: 0 <= i < |entries| ==> entries[i].guid != guid
  {
    if entries == [] then None
    else if entries[|entries| - 1].guid == guid then Some(|entries| - 1)
    else IndexOfGuid(entries[..|entries| - 1], guid)
  }

  /** `group.entries`: the entries of `group` in settings order, as the
      (nullable) references the source iterates over. */
  function GroupEntries(entries: seq<AssetEntry>, group: string): (r: seq<Option<AssetEntry>>)
    ensures forall x :: x in r ==> x.Some? && x.value in entries && x.value.group == group
    ensures forall e :: e in entries && e.group == group ==> Some(e) in r
  {
    if entries == [] then []
    else (if entries[0].group == group then [Some(entries[0])] else []) + GroupEntries(entries[1..], group)
  }

  /** A member that is not null, not the excluded entry (entries are
      identified by their GUID) and has `address`. */
  predicate OtherWithAddress(e: Option<AssetEntry>, address: string, exclude: Option<string>) {
    e.Some? && !(exclude.Some? && e.value.guid == exclude.value) && e.value.address == address
  }

  /** `GroupHasAddress(group, address, exclude)`. */
  method GroupHasAddress(members: seq<Option<AssetEntry>>, address: string, exclude: Option<string>) returns (found: bool)
    ensures found <==> exists i :: 0 <= i < |members| && OtherWithAddress(members[i], address, exclude)
  {
    var i := 0;
    while i < |members|
      invariant 0 <= i <= |members|
      invariant forall j :: 0 <= j < i ==> !OtherWithAddress(members[j], address, exclude)
    {
      var e := members[i];
      if !(e.Some? && exclude.Some? && e.value.guid == exclude.value) {
        if e.Some? && e.value.address == address {
          return true;
        }
      }
      i := i + 1;
    }
    return false;
  }

  /** Some entry of `group` other than the one of `guid` has `address`. */
  predicate OtherHasAddress(entries: seq<AssetEntry>, group: string, address: string, guid: string) {
    exists e :: e in entries && e.group == group && e.guid != guid && e.address == address
  }

  /** Searching the group's members finds exactly the other entries of the
      group with that address. */
  lemma GroupHasAddressOfGroup(entries: seq<AssetEntry>, group: string, address: string, guid: string)
    ensures (exists i :: 0 <= i < |GroupEntries(entries, group)|
                         && OtherWithAddress(GroupEntries(entries, group)[i], address, Some(guid)))
            <==> OtherHasAddress(entries, group, address, guid)
  {
    var members := GroupEntries(entries, group);
    if i :| 0 <= i < |members| && OtherWithAddress(members[i], address, Some(guid)) {
      assert members[i] in members;
      var e := members[i].value;
      assert e in entries && e.group == group && e.guid != guid && e.address == address;
    }
    if OtherHasAddress(entries, group, address, guid) {
      MemberOfGroup(entries, group, address, guid);
    }
  }

  lemma MemberOfGroup(entries: seq<AssetEntry>, group: string, address: string, guid: string)
    requires OtherHasAddress(entries, group, address, guid)
    ensures exists i :: 0 <= i < |GroupEntries(entries, group)|
                         && OtherWithAddress(GroupEntries(entries, group)[i], address, Some(guid))
  {
    var members := GroupEntries(entries, group);
    var e :| e in entries && e.group == group && e.guid != guid && e.address == address;
    assert Some(e) in members;
    var i :| 0 <= i < |members| && members[i] == Some(e);
    assert OtherWithAddress(members[i], address, Some(guid));
  }

  // ---------------------------------------------------------------------
  // Addresses and labels
  // ---------------------------------------------------------------------

  /** The name an asset is addressed by: its file name without extension. */
  function BaseAddress(abs: string): string {
    GetFileNameWithoutExtension(Normalize(abs))
  }

  /** The address of a file: the base name, or `name#hash` when the base
      name is taken in the group. */
  function DerivedAddress(fileName: string, hash: string, taken: bool): (r: string)
    ensures StartsWith(r, fileName)
    ensures r == fileName <==> !taken
  {
    if taken then fileName + "#" + hash else fileName
  }

  /** `dir/stem.ext` is addressed `stem`, or `stem#hash` when `stem` is taken. */
  lemma AddressOfFile(dir: string, stem: string, ext: string, hash: string, taken: bool)
    requires ext != "" && forall i :: 0 <= i < |ext| ==> ext[i] != '.' && !IsSeparator(ext[i])
    requires forall i :: 0 <= i < |stem| ==> !IsSeparator(stem[i])
    requires '\\' !in dir
    ensures BaseAddress(dir + "/" + stem + "." + ext) == stem
    ensures DerivedAddress(BaseAddress(dir + "/" + stem + "." + ext), hash, taken)
            == if taken then stem + "#" + hash else stem
  {
    var path := dir + "/" + stem + "." + ext;
    assert '\\' !in path by {
      assert forall i :: 0 <= i < |stem| ==> stem[i] != '\\';
      assert forall i :: 0 <= i < |ext| ==> ext[i] != '\\';
    }
    assert Normalize(path) == path;
    ExtensionOf(dir, stem, ext);
  }

  /** `Mathf.Min(depth, Mathf.Max(0, count - 1))`: how many leading segments
      may become labels, never the last one. */
  function LabelCount(count: nat, depth: int): (r: int)
    ensures (r <= depth && r < count) || r <= 0
  {
    var m := if count - 1 > 0 then count - 1 else 0;
    if depth < m then depth else m
  }

  /** The non-empty segments among the first `n`. */
  function Labels(parts: seq<string>, n: int): (r: set<string>)
    requires n <= |parts|
    ensures forall l :: l in r <==> exists i :: 0 <= i < n && parts[i] == l && l != ""
  {
    set i | 0 <= i < n && parts[i] != "" :: parts[i]
  }

  /** The labels of the segments `parts` of a path. */
  function PartLabels(parts: seq<string>, depth: int): set<string> {
    Labels(parts, LabelCount(|parts|, depth))
  }

  /** The labels of a path relative to the label root. */
  function FolderLabels(rel: string, depth: int): set<string> {
    PartLabels(Split(rel, {'/'}), depth)
  }

  /** One more segment adds itself when it is not empty. */
  lemma LabelsStep(parts: seq<string>, i: nat)
    requires i < |parts|
    ensures Labels(parts, i + 1) == Labels(parts, i) + (if parts[i] != "" then {parts[i]} else {})
  {
    var a := Labels(parts, i + 1);
    var b := Labels(parts, i) + (if parts[i] != "" then {parts[i]} else {});
    forall l | l in a ensures l in b {
      var j :| 0 <= j < i + 1 && parts[j] == l && l != "";
      if j < i {
        assert l in Labels(parts, i);
      }
    }
    forall l | l in b ensures l in a {
      if l in Labels(parts, i) {
        var j :| 0 <= j < i && parts[j] == l && l != "";
        assert 0 <= j < i + 1;
      }
    }
  }

  /** There are at most `n` labels among `n` segments. */
  lemma {:induction false} LabelsBound(parts: seq<string>, n: nat)
    requires n <= |parts|
    ensures |Labels(parts, n)| <= n
  {
    if n > 0 {
      LabelsBound(parts, n - 1);
      LabelsStep(parts, n - 1);
    }
  }

  /** Labels are non-empty folder names: never more than `depth`, without a
      slash, and each the name of a folder above the file. */
  lemma FolderLabelsShape(rel: string, depth: int)
    ensures |FolderLabels(rel, depth)| <= if depth > 0 then depth else 0
    ensures forall l :: l in FolderLabels(rel, depth) ==> l != "" && '/' !in l
    ensures forall l :: l in FolderLabels(rel, depth) ==> l in Split(rel, {'/'})[..|Split(rel, {'/'})| - 1]
  {
    var parts := Split(rel, {'/'});
    var n := LabelCount(|parts|, depth);
    assert FolderLabels(rel, depth) == Labels(parts, n);
    if n > 0 {
      LabelsBound(parts, n);
    } else {
      assert Labels(parts, n) == {};
    }
    SplitPiecesHaveNoSeparator(rel, {'/'});
    forall l | l in Labels(parts, n) ensures l != "" && '/' !in l {
      var i :| 0 <= i < n && parts[i] == l && l != "";
      assert forall j :: 0 <= j < |parts[i]| ==> parts[i][j] != '/';
    }
    forall l | l in Labels(parts, n) ensures l in parts[..|parts| - 1] {
      var i :| 0 <= i < n && parts[i] == l && l != "";
      assert parts[..|parts| - 1][i] == l;
    }
  }

  /** The segments `d0, ..., file` give the first `depth` folders as labels. */
  lemma PartLabelsOfDirs(dirs: seq<string>, file: string, depth: int)
    requires forall i :: 0 <= i < |dirs| ==> dirs[i] != ""
    ensures PartLabels(dirs + [file], depth) == set i | 0 <= i < |dirs| && i < depth :: dirs[i]
  {
    var parts := dirs + [file];
    var n := LabelCount(|parts|, depth);
    var want := set i | 0 <= i < |dirs| && i < depth :: dirs[i];
    forall l | l in Labels(parts, n) ensures l in want {
      var i :| 0 <= i < n && parts[i] == l && l != "";
      assert dirs[i] == l;
    }
    forall l | l in want ensures l in Labels(parts, n) {
      var i :| 0 <= i < |dirs| && i < depth && dirs[i] == l;
      assert parts[i] == l;
    }
  }

  /** The file `d0/d1/.../file` is labelled with its first `depth` folders. */
  lemma FolderLabelsOfPath(dirs: seq<string>, file: string, depth: int)
    requires forall i :: 0 <= i < |dirs| ==> dirs[i] != "" && '/' !in dirs[i]
    requires '/' !in file
    ensures FolderLabels(Join(dirs + [file], '/'), depth) == set i | 0 <= i < |dirs| && i < depth :: dirs[i]
  {
    var parts := dirs + [file];
    forall i | 0 <= i < |parts| ensures '/' !in parts[i] {
      if i < |dirs| {
        assert parts[i] == dirs[i];
      }
    }
    SplitJoin(parts, '/');
    PartLabelsOfDirs(dirs, file, depth);
  }

  /** The labels a processed file gets. */
  function NewLabels(abs: string, labelRoot: string, writeLabels: bool, depth: int): set<string> {
    if writeLabels then FolderLabels(GetRelative(Normalize(abs), labelRoot), depth) else {}
  }

  /** The GUIDs `ProcessFiles` touches, in order: every file that is not
      `.meta` and has a GUID. */
  function CountedGuids(files: seq<string>, guidOf: string -> string): (r: seq<string>)
    ensures |r| <= |files|
  {
    if files == [] then []
    else
      var f := files[|files| - 1];
      CountedGuids(files[..|files| - 1], guidOf)
      + (if !IsMeta(f) && guidOf(Normalize(f)) != "" then [guidOf(Normalize(f))] else [])
  }

  /** The entry of `guid` after it was placed with `address` and `newLabels`:
      an existing one keeps its group, a missing one is created in `group`. */
  ghost predicate Placed(before: seq<AssetEntry>, after: seq<AssetEntry>, guid: string, group: string,
                         address: string, newLabels: set<string>) {
    match IndexOfGuid(before, guid)
    case Some(k) => after == before[k := before[k].(address := address, labels := before[k].labels + newLabels)]
    case None => after == before + [AssetEntry(guid, group, address, newLabels)]
  }

  /** `after` keeps every entry of `before` at its place with its GUID, group
      and labels, and adds entries only to `group`. */
  ghost predicate Grown(before: seq<AssetEntry>, after: seq<AssetEntry>, group: string) {
    && |before| <= |after|
    && (forall i :: 0 <= i < |before| ==>
          after[i].guid == before[i].guid && after[i].group == before[i].group && before[i].labels <= after[i].labels)
    && (forall i :: |before| <= i < |after| ==> after[i].group == group)
  }

  /** The entry of `guid` itself is never "another" entry. */
  lemma OtherHasAddressIgnoresOwn(entries: seq<AssetEntry>, e: AssetEntry, group: string, address: string)
    ensures OtherHasAddress(entries + [e], group, address, e.guid) == OtherHasAddress(entries, group, address, e.guid)
  {
    if OtherHasAddress(entries + [e], group, address, e.guid) {
      var x :| x in entries + [e] && x.group == group && x.guid != e.guid && x.address == address;
      assert x in entries;
    }
  }

  /** Finding or creating the entry of `guid`, then updating it, places it. */
  lemma PlacedByUpdate(before: seq<AssetEntry>, created: seq<AssetEntry>, after: seq<AssetEntry>, k: nat,
                       guid: string, group: string, assetPath: string, address: string, newLabels: set<string>)
    requires IndexOfGuid(before, guid).Some? ==> k == IndexOfGuid(before, guid).value && created == before
    requires IndexOfGuid(before, guid).None? ==>
               k == |before| && created == before + [AssetEntry(guid, group, assetPath, {})]
    requires k < |created| && after == created[k := created[k].(address := address, labels := created[k].labels + newLabels)]
    ensures Placed(before, after, guid, group, address, newLabels)
    ensures Grown(before, after, group)
    ensures after[k].guid == guid
  {
    if IndexOfGuid(before, guid).None? {
      assert {} + newLabels == newLabels;
      assert after == before + [AssetEntry(guid, group, address, newLabels)];
    }
  }

  /** Creating the entry of `guid` does not change what other entries hold. */
  lemma OtherHasAddressAfterCreate(before: seq<AssetEntry>, created: seq<AssetEntry>,
                                   guid: string, group: string, assetPath: string, address: string)
    requires created == before || created == before + [AssetEntry(guid, group, assetPath, {})]
    ensures OtherHasAddress(created, group, address, guid) == OtherHasAddress(before, group, address, guid)
  {
    if created != before {
      OtherHasAddressIgnoresOwn(before, AssetEntry(guid, group, assetPath, {}), group, address);
    }
  }

  /** The GUIDs that have an entry. */
  function Guids(entries: seq<AssetEntry>): set<string> {
    set e | e in entries :: e.guid
  }

  /** Growing keeps every GUID. */
  lemma GrownGuids(before: seq<AssetEntry>, after: seq<AssetEntry>, group: string)
    requires Grown(before, after, group)
    ensures Guids(before) <= Guids(after)
  {
    forall g | g in Guids(before) ensures g in Guids(after) {
      var e :| e in before && e.guid == g;
      var j :| 0 <= j < |before| && before[j] == e;
      assert after[j] in after;
    }
  }

  /** The files counted up to `i + 1` are those up to `i` and maybe file `i`. */
  lemma CountedGuidsStep(files: seq<string>, i: nat, guidOf: string -> string)
    requires i < |files|
    ensures CountedGuids(files[..i + 1], guidOf)
            == CountedGuids(files[..i], guidOf)
               + (if !IsMeta(files[i]) && guidOf(Normalize(files[i])) != "" then [guidOf(Normalize(files[i]))] else [])
  {
    assert files[..i + 1][..i] == files[..i];
  }

  /** The touched list after file `i` of `files`. */
  lemma TouchedStep(files: seq<string>, i: nat, guidOf: string -> string, touched0: seq<string>,
                    before: seq<string>, after: seq<string>, counted: bool)
    requires i < |files| && before == touched0 + CountedGuids(files[..i], guidOf)
    requires counted <==> !IsMeta(files[i]) && guidOf(Normalize(files[i])) != ""
    requires after == before + (if counted then [guidOf(Normalize(files[i]))] else [])
    ensures after == touched0 + CountedGuids(files[..i + 1], guidOf)
    ensures |CountedGuids(files[..i + 1], guidOf)| == |CountedGuids(files[..i], guidOf)| + (if counted then 1 else 0)
  {
    CountedGuidsStep(files, i, guidOf);
  }

  /** Placing an entry grows the entries, and the placed entry holds its
      address and its new labels. */
  lemma PlacedGrows(before: seq<AssetEntry>, after: seq<AssetEntry>, guid: string, group: string,
                    address: string, newLabels: set<string>)
    requires Placed(before, after, guid, group, address, newLabels)
    ensures Grown(before, after, group)
    ensures exists k :: 0 <= k < |after| && after[k].guid == guid && after[k].address == address
                        && newLabels <= after[k].labels
  {
    var k := if IndexOfGuid(before, guid).Some? then IndexOfGuid(before, guid).value else |before|;
    assert after[k].guid == guid && after[k].address == address && newLabels <= after[k].labels;
  }

  /** Growing twice is growing. */
  lemma GrownTrans(a: seq<AssetEntry>, b: seq<AssetEntry>, c: seq<AssetEntry>, group: string)
    requires Grown(a, b, group) && Grown(b, c, group)
    ensures Grown(a, c, group)
  {
  }

  /** What one pass makes of one file: whether it is processed, its GUID, its
      address without and with its hash, and its folder labels. */
  datatype FileInfo = FileInfo(counted: bool, guid: string, name: string, hash: string, newLabels: set<string>)

  /** The file `f` with GUID `guid` and hash `hash` is processed when it is
      not a `.meta` file and the GUID is not empty. */
  function InfoFor(f: string, guid: string, hash: string, labelRoot: string, writeLabels: bool, depth: int): FileInfo {
    FileInfo(!IsMeta(f) && guid != "", guid, BaseAddress(f), hash, NewLabels(f, labelRoot, writeLabels, depth))
  }

  /** The hash of a file, taken on its path relative to `HashRoot` (see
      `BelowHashRootIsRelative`). */
  function FileHash(f: string, shortHash: string -> string): string {
    shortHash(BelowHashRoot(Normalize(f)))
  }

  /** What a pass over `files` makes of each of them, in order. */
  function Infos(files: seq<string>, labelRoot: string, writeLabels: bool, depth: int,
                 guidOf: string -> string, shortHash: string -> string): (r: seq<FileInfo>)
    ensures |r| == |files|
    decreases |files|
  {
    if files == [] then []
    else [InfoFor(files[0], guidOf(Normalize(files[0])), FileHash(files[0], shortHash), labelRoot, writeLabels, depth)]
         + Infos(files[1..], labelRoot, writeLabels, depth, guidOf, shortHash)
  }

  /** The `j`-th info is what the pass makes of the `j`-th file. */
  lemma {:induction false} InfosAt(files: seq<string>, labelRoot: string, writeLabels: bool, depth: int,
                                   guidOf: string -> string, shortHash: string -> string, j: nat)
    requires j < |files|
    ensures Infos(files, labelRoot, writeLabels, depth, guidOf, shortHash)[j]
            == InfoFor(files[j], guidOf(Normalize(files[j])), FileHash(files[j], shortHash), labelRoot, writeLabels, depth)
    decreases |files|
  {
    if j > 0 {
      InfosAt(files[1..], labelRoot, writeLabels, depth, guidOf, shortHash, j - 1);
      assert files[1..][j - 1] == files[j];
    }
  }

  /** The entry of `guid` placed with `address` and `newLabels`. */
  function PlaceEntry(entries: seq<AssetEntry>, guid: string, group: string, address: string,
                      newLabels: set<string>): seq<AssetEntry>
  {
    match IndexOfGuid(entries, guid)
    case Some(k) => entries[k := entries[k].(address := address, labels := entries[k].labels + newLabels)]
    case None => entries + [AssetEntry(guid, group, address, newLabels)]
  }

  /** The address a processed file gets: its name, or its name with its hash
      when another entry of the group already has that name. */
  function AddressIn(entries: seq<AssetEntry>, info: FileInfo, group: string): string {
    DerivedAddress(info.name, info.hash, OtherHasAddress(entries, group, info.name, info.guid))
  }

  /** What the loop of `ProcessFiles` does with one file: the settings'
      entries and registered labels afterwards. */
  function FileStep(entries: seq<AssetEntry>, labels: set<string>, info: FileInfo, group: string)
    : (seq<AssetEntry>, set<string>)
  {
    if !info.counted then (entries, labels)
    else (PlaceEntry(entries, info.guid, group, AddressIn(entries, info, group), info.newLabels),
          labels + info.newLabels)
  }

  /** The whole loop of `ProcessFiles`, file after file. */
  function ProcessAll(entries: seq<AssetEntry>, labels: set<string>, infos: seq<FileInfo>, group: string)
    : (seq<AssetEntry>, set<string>)
    decreases |infos|
  {
    if infos == [] then (entries, labels)
    else
      var r1 := FileStep(entries, labels, infos[0], group);
      ProcessAll(r1.0, r1.1, infos[1..], group)
  }

  /** Placing a processed file, or leaving everything alone for a skipped
      one, is the file's step. */
  lemma FileStepOfPlaced(before: seq<AssetEntry>, after: seq<AssetEntry>, labelsBefore: set<string>,
                         labelsAfter: set<string>, info: FileInfo, group: string)
    requires info.counted ==> Placed(before, after, info.guid, group, AddressIn(before, info, group), info.newLabels)
                              && labelsAfter == labelsBefore + info.newLabels
    requires !info.counted ==> after == before && labelsAfter == labelsBefore
    ensures (after, labelsAfter) == FileStep(before, labelsBefore, info, group)
  {
  }

  /** The rest of the pass after the step of `infos[i]`. */
  lemma ProcessAllStep(e0: seq<AssetEntry>, l0: set<string>, e: seq<AssetEntry>, l: set<string>,
                       infos: seq<FileInfo>, i: nat, group: string)
    requires i < |infos| && (e, l) == FileStep(e0, l0, infos[i], group)
    ensures ProcessAll(e0, l0, infos[i..], group) == ProcessAll(e, l, infos[i + 1..], group)
  {
    assert infos[i..][0] == infos[i] && infos[i..][1..] == infos[i + 1..];
  }

  /** `a` is an address a file gets: its name, or its name with its hash. */
  predicate AddressedAs(a: string, info: FileInfo) {
    a == info.name || a == info.name + "#" + info.hash
  }

  /** One file's step keeps every entry at its place with its GUID and group,
      never drops a label, and only adds entries to the pass's group. */
  lemma FileStepGrows(entries: seq<AssetEntry>, labels: set<string>, info: FileInfo, group: string)
    ensures Grown(entries, FileStep(entries, labels, info, group).0, group)
    ensures labels <= FileStep(entries, labels, info, group).1
  {
    if info.counted {
      var address := AddressIn(entries, info, group);
      PlacedGrows(entries, PlaceEntry(entries, info.guid, group, address, info.newLabels),
                  info.guid, group, address, info.newLabels);
    }
  }

  /** The whole pass grows the entries and the registered labels. */
  lemma {:induction false} ProcessAllGrows(entries: seq<AssetEntry>, labels: set<string>, infos: seq<FileInfo>, group: string)
    ensures Grown(entries, ProcessAll(entries, labels, infos, group).0, group)
    ensures labels <= ProcessAll(entries, labels, infos, group).1
    decreases |infos|
  {
    if infos != [] {
      var r1 := FileStep(entries, labels, infos[0], group);
      FileStepGrows(entries, labels, infos[0], group);
      ProcessAllGrows(r1.0, r1.1, infos[1..], group);
      GrownTrans(entries, r1.0, ProcessAll(r1.0, r1.1, infos[1..], group).0, group);
    }
  }

  /** After its own step, a processed file's entry holds its address and its
      folder labels. */
  lemma FileStepPlaces(entries: seq<AssetEntry>, labels: set<string>, info: FileInfo, group: string) returns (k: nat)
    requires info.counted
    ensures k < |FileStep(entries, labels, info, group).0|
    ensures FileStep(entries, labels, info, group).0[k].guid == info.guid
    ensures AddressedAs(FileStep(entries, labels, info, group).0[k].address, info)
    ensures info.newLabels <= FileStep(entries, labels, info, group).0[k].labels
  {
    var address := AddressIn(entries, info, group);
    var after := PlaceEntry(entries, info.guid, group, address, info.newLabels);
    k := if IndexOfGuid(entries, info.guid).Some? then IndexOfGuid(entries, info.guid).value else |entries|;
    assert after[k].guid == info.guid && after[k].address == address && info.newLabels <= after[k].labels;
  }

  /** A file with another GUID leaves the entry at `k` alone. */
  lemma FileStepKeeps(entries: seq<AssetEntry>, labels: set<string>, info: FileInfo, group: string, k: nat)
    requires k < |entries|
    requires info.counted ==> info.guid != entries[k].guid
    ensures k < |FileStep(entries, labels, info, group).0| && FileStep(entries, labels, info, group).0[k] == entries[k]
  {
    if info.counted {
      match IndexOfGuid(entries, info.guid)
      case Some(j) =>
        assert j != k;
      case None =>
    }
  }

  /** Files with other GUIDs leave the entry at `k` alone. */
  lemma {:induction false} ProcessAllKeeps(entries: seq<AssetEntry>, labels: set<string>, infos: seq<FileInfo>,
                                           group: string, k: nat)
    requires k < |entries|
    requires forall m :: 0 <= m < |infos| && infos[m].counted ==> infos[m].guid != entries[k].guid
    ensures k < |ProcessAll(entries, labels, infos, group).0| && ProcessAll(entries, labels, infos, group).0[k] == entries[k]
    decreases |infos|
  {
    if infos != [] {
      var r1 := FileStep(entries, labels, infos[0], group);
      FileStepKeeps(entries, labels, infos[0], group, k);
      forall m | 0 <= m < |infos[1..]| && infos[1..][m].counted
        ensures infos[1..][m].guid != r1.0[k].guid
      {
        assert infos[1..][m] == infos[m + 1];
      }
      ProcessAllKeeps(r1.0, r1.1, infos[1..], group, k);
    }
  }

  /** Every file the pass processes ends with an entry labelled with its
      folders, and the settings register those labels; the last file of a
      GUID also decides that entry's address: its name, or its name with its
      hash. */
  lemma {:induction false} ProcessAllPlaces(entries: seq<AssetEntry>, labels: set<string>, infos: seq<FileInfo>,
                                            group: string, j: nat)
    requires j < |infos| && infos[j].counted
    ensures var r := ProcessAll(entries, labels, infos, group);
      exists k :: 0 <= k < |r.0| && r.0[k].guid == infos[j].guid && infos[j].newLabels <= r.0[k].labels
    ensures infos[j].newLabels <= ProcessAll(entries, labels, infos, group).1
    ensures (forall m :: j < m < |infos| && infos[m].counted ==> infos[m].guid != infos[j].guid) ==>
      var r := ProcessAll(entries, labels, infos, group);
      exists k :: 0 <= k < |r.0| && r.0[k].guid == infos[j].guid && AddressedAs(r.0[k].address, infos[j])
    decreases |infos|
  {
    var r1 := FileStep(entries, labels, infos[0], group);
    var r := ProcessAll(entries, labels, infos, group);
    assert r == ProcessAll(r1.0, r1.1, infos[1..], group);
    ProcessAllGrows(r1.0, r1.1, infos[1..], group);
    if j == 0 {
      var k := FileStepPlaces(entries, labels, infos[0], group);
      assert r.0[k].guid == r1.0[k].guid && r1.0[k].labels <= r.0[k].labels;
      if forall m :: j < m < |infos| && infos[m].counted ==> infos[m].guid != infos[j].guid {
        forall m | 0 <= m < |infos[1..]| && infos[1..][m].counted
          ensures infos[1..][m].guid != r1.0[k].guid
        {
          assert infos[1..][m] == infos[m + 1];
        }
        ProcessAllKeeps(r1.0, r1.1, infos[1..], group, k);
        assert AddressedAs(r.0[k].address, infos[j]);
      }
      assert 0 <= k < |r.0| && r.0[k].guid == infos[j].guid && infos[j].newLabels <= r.0[k].labels;
      assert exists k' :: 0 <= k' < |r.0| && r.0[k'].guid == infos[j].guid && infos[j].newLabels <= r.0[k'].labels;
      assert r == ProcessAll(entries, labels, infos, group);
    } else {
      assert infos[1..][j - 1] == infos[j];
      ProcessAllPlaces(r1.0, r1.1, infos[1..], group, j - 1);
      if forall m :: j < m < |infos| && infos[m].counted ==> infos[m].guid != infos[j].guid {
        forall m | j - 1 < m < |infos[1..]| && infos[1..][m].counted
          ensures infos[1..][m].guid != infos[1..][j - 1].guid
        {
          assert infos[1..][m] == infos[m + 1];
        }
      }
    }
  }

  /** Over files: every processed file ends with an entry carrying its
      folder labels, which the settings register; when no later processed
      file has its GUID, that entry's address is the file's name, or its name
      with its hash. */
  lemma ProcessFilesPlaces(entries: seq<AssetEntry>, labels: set<string>, files: seq<string>, labelRoot: string,
                           writeLabels: bool, depth: int, guidOf: string -> string, shortHash: string -> string,
                           group: string, j: nat)
    requires j < |files| && !IsMeta(files[j]) && guidOf(Normalize(files[j])) != ""
    ensures var r := ProcessAll(entries, labels, Infos(files, labelRoot, writeLabels, depth, guidOf, shortHash), group);
      && NewLabels(files[j], labelRoot, writeLabels, depth) <= r.1
      && exists k :: 0 <= k < |r.0| && r.0[k].guid == guidOf(Normalize(files[j]))
                     && NewLabels(files[j], labelRoot, writeLabels, depth) <= r.0[k].labels
    ensures (forall m :: j < m < |files| && !IsMeta(files[m]) ==> guidOf(Normalize(files[m])) != guidOf(Normalize(files[j]))) ==>
      var r := ProcessAll(entries, labels, Infos(files, labelRoot, writeLabels, depth, guidOf, shortHash), group);
      exists k :: 0 <= k < |r.0| && r.0[k].guid == guidOf(Normalize(files[j]))
                  && (r.0[k].address == BaseAddress(files[j])
                      || r.0[k].address == BaseAddress(files[j]) + "#" + FileHash(files[j], shortHash))
  {
    var infos := Infos(files, labelRoot, writeLabels, depth, guidOf, shortHash);
    InfosAt(files, labelRoot, writeLabels, depth, guidOf, shortHash, j);
    if forall m :: j < m < |files| && !IsMeta(files[m]) ==> guidOf(Normalize(files[m])) != guidOf(Normalize(files[j])) {
      forall m | j < m < |infos| && infos[m].counted
        ensures infos[m].guid != infos[j].guid
      {
        InfosAt(files, labelRoot, writeLabels, depth, guidOf, shortHash, m);
      }
    }
    ProcessAllPlaces(entries, labels, infos, group, j);
  }

  /** Every label the pass registers was already registered or is a folder
      label of a processed file. */
  lemma {:induction false} ProcessAllLabelsFromFiles(entries: seq<AssetEntry>, labels: set<string>,
                                                     infos: seq<FileInfo>, group: string)
    ensures forall x :: x in ProcessAll(entries, labels, infos, group).1 ==>
              x in labels || exists m :: 0 <= m < |infos| && infos[m].counted && x in infos[m].newLabels
    decreases |infos|
  {
    if infos != [] {
      var r1 := FileStep(entries, labels, infos[0], group);
      ProcessAllLabelsFromFiles(r1.0, r1.1, infos[1..], group);
      forall x | x in ProcessAll(entries, labels, infos, group).1
        ensures x in labels || exists m :: 0 <= m < |infos| && infos[m].counted && x in infos[m].newLabels
      {
        if x !in r1.1 {
          var m :| 0 <= m < |infos[1..]| && infos[1..][m].counted && x in infos[1..][m].newLabels;
          assert infos[1..][m] == infos[m + 1];
        } else if x !in labels {
          assert infos[0].counted && x in infos[0].newLabels;
        }
      }
    }
  }

  class FolderGrouper {
    /** The Addressables settings: its entries and its registered labels. */
    var entries: seq<AssetEntry>
    var labels: set<string>
    /** The GUIDs of the entries touched so far, in order. */
    var touched: seq<string>

    constructor(entries: seq<AssetEntry>, labels: set<string>)
      requires forall i, j :: 0 <= i < j < |entries| ==> entries[i].guid != entries[j].guid
      requires forall i :: 0 <= i < |entries| ==> entries[i].labels <= labels
      ensures this.entries == entries && this.labels == labels && touched == []
      ensures Valid()
    {
      this.entries := entries;
      this.labels := labels;
      touched := [];
    }

    /** One entry per GUID, and every label of an entry is registered. */
    ghost predicate Valid()
      reads this
    {
      && (forall i, j :: 0 <= i < j < |entries| ==> entries[i].guid != entries[j].guid)
      && (forall i :: 0 <= i < |entries| ==> entries[i].labels <= labels)
    }

    /** The label loop of `ProcessFiles`: `settings.AddLabel(label)` and
        `entry.SetLabel(label, true)` for each label of segments `parts`. */
    method AddFolderLabels(k: nat, parts: seq<string>, depth: int)
      requires Valid() && k < |entries|
      modifies this`entries, this`labels
      ensures Valid()
      ensures labels == old(labels) + PartLabels(parts, depth)
      ensures entries == old(entries)[k := old(entries)[k].(labels := old(entries)[k].labels + PartLabels(parts, depth))]
    {
      var max := LabelCount(|parts|, depth);
      var i := 0;
      assert Labels(parts, 0) == {};
      while i < max
        invariant 0 <= i && (max >= 0 ==> i <= max) && (max < 0 ==> i == 0)
        invariant Valid() && k < |entries|
        invariant labels == old(labels) + Labels(parts, i)
        invariant |entries| == |old(entries)|
        invariant forall j :: 0 <= j < |entries| && j != k ==> entries[j] == old(entries)[j]
        invariant entries[k] == old(entries)[k].(labels := old(entries)[k].labels + Labels(parts, i))
      {
        var name := parts[i];
        LabelsStep(parts, i);
        if name != "" {
          labels := labels + {name};
          var e := entries[k];
          entries := entries[k := e.(labels := e.labels + {name})];
        }
        i := i + 1;
      }
      assert Labels(parts, i) == Labels(parts, max);
    }

    /** `settings.FindAssetEntry(guid) ?? settings.CreateOrMoveEntry(guid,
        group)`: the position of the entry of `guid`, created in `group` with
        its asset path as address when there is none. */
    method FindOrCreateEntry(guid: string, group: string, assetPath: string) returns (k: nat)
      requires Valid()
      modifies this`entries
      ensures Valid() && k < |entries| && entries[k].guid == guid
      ensures IndexOfGuid(old(entries), guid).Some? ==> k == IndexOfGuid(old(entries), guid).value && entries == old(entries)
      ensures IndexOfGuid(old(entries), guid).None? ==>
                k == |old(entries)| && entries == old(entries) + [AssetEntry(guid, group, assetPath, {})]
    {
      var found := IndexOfGuid(entries, guid);
      if found.Some? {
        k := found.value;
      } else {
        entries := entries + [AssetEntry(guid, group, assetPath, {})];
        k := |entries| - 1;
      }
    }

    /** `entry.SetAddress(address)`, then the labels when they are written. */
    method Assign(k: nat, address: string, parts: seq<string>, writeLabels: bool, depth: int)
      requires Valid() && k < |entries|
      modifies this`entries, this`labels
      ensures Valid()
      ensures labels == old(labels) + (if writeLabels then PartLabels(parts, depth) else {})
      ensures entries == old(entries)[k := old(entries)[k].(address := address,
                                          labels := old(entries)[k].labels + if writeLabels then PartLabels(parts, depth) else {})]
    {
      entries := entries[k := entries[k].(address := address)];
      if writeLabels {
        AddFolderLabels(k, parts, depth);
      } else {
        assert entries[k].labels + {} == entries[k].labels;
      }
    }

    /** What `ProcessFiles` does to a file it does not skip: the entry of
        `guid` is found or created in `group`, addressed by `fileName` (made
        distinct with `hash`), touched and labelled with the folders `parts`. */
    method Touch(guid: string, group: string, assetPath: string, fileName: string, hash: string,
                 parts: seq<string>, writeLabels: bool, depth: int)
      requires Valid()
      modifies this`entries, this`labels, this`touched
      ensures Valid() && Grown(old(entries), entries, group)
      ensures guid in Guids(entries)
      ensures touched == old(touched) + [guid]
      ensures labels == old(labels) + (if writeLabels then PartLabels(parts, depth) else {})
      ensures Placed(old(entries), entries, guid, group,
                     DerivedAddress(fileName, hash, OtherHasAddress(old(entries), group, fileName, guid)),
                     if writeLabels then PartLabels(parts, depth) else {})
    {
      var k := FindOrCreateEntry(guid, group, assetPath);
      ghost var created := entries;
      var taken := GroupHasAddress(GroupEntries(entries, group), fileName, Some(guid));
      GroupHasAddressOfGroup(entries, group, fileName, guid);
      OtherHasAddressAfterCreate(old(entries), entries, guid, group, assetPath, fileName);
      var address := fileName;
      if taken {
        address := fileName + "#" + hash;
      }
      Assign(k, address, parts, writeLabels, depth);
      touched := touched + [guid];
      PlacedByUpdate(old(entries), created, entries, k, guid, group, assetPath, address,
                     if writeLabels then PartLabels(parts, depth) else {});
      assert entries[k] in entries;
    }

    /** The body of `ProcessFiles`' loop for the file `abs`: `guid` is its
        GUID (empty when it has none) and `hash` its `ShortHash`. */
    method ProcessFile(abs: string, group: string, labelRoot: string, writeLabels: bool, depth: int,
                       guid: string, hash: string) returns (counted: bool)
      requires Valid()
      modifies this`entries, this`labels, this`touched
      ensures Valid() && Grown(old(entries), entries, group)
      ensures counted <==> !IsMeta(abs) && guid != ""
      ensures counted ==> guid in Guids(entries)
      ensures !counted ==> entries == old(entries) && labels == old(labels) && touched == old(touched)
      ensures counted ==>
                touched == old(touched) + [guid]
                && labels == old(labels) + NewLabels(abs, labelRoot, writeLabels, depth)
                && Placed(old(entries), entries, guid, group,
                          DerivedAddress(BaseAddress(abs), hash,
                                         OtherHasAddress(old(entries), group, BaseAddress(abs), guid)),
                          NewLabels(abs, labelRoot, writeLabels, depth))
      ensures (entries, labels)
              == FileStep(old(entries), old(labels), InfoFor(abs, guid, hash, labelRoot, writeLabels, depth), group)
    {
      if IsMeta(abs) {
        return false;
      }
      var assetPath := Normalize(abs);
      if guid == "" {
        return false;
      }
      Touch(guid, group, assetPath, GetFileNameWithoutExtension(assetPath), hash,
            Split(GetRelative(assetPath, labelRoot), {'/'}), writeLabels, depth);
      counted := true;
      FileStepOfPlaced(old(entries), entries, old(labels), labels, InfoFor(abs, guid, hash, labelRoot, writeLabels, depth), group);
    }

    /** One iteration of `ProcessFiles`: file `i` with its hash. */
    method ProcessStep(files: seq<string>, i: nat, group: string, labelRoot: string, writeLabels: bool, depth: int,
                       guidOf: string -> string, hash: string, ghost touched0: seq<string>,
                       ghost infos: seq<FileInfo>) returns (counted: bool)
      requires i < |files| && Valid() && touched == touched0 + CountedGuids(files[..i], guidOf)
      requires i < |infos| && infos[i] == InfoFor(files[i], guidOf(Normalize(files[i])), hash, labelRoot, writeLabels, depth)
      modifies this`entries, this`labels, this`touched
      ensures Valid() && touched == touched0 + CountedGuids(files[..i + 1], guidOf)
      ensures (entries, labels) == FileStep(old(entries), old(labels), infos[i], group)
      ensures ProcessAll(old(entries), old(labels), infos[i..], group) == ProcessAll(entries, labels, infos[i + 1..], group)
      ensures |CountedGuids(files[..i + 1], guidOf)| == |CountedGuids(files[..i], guidOf)| + (if counted then 1 else 0)
    {
      var abs := files[i];
      var assetPath := Normalize(abs);
      var guid := guidOf(assetPath);
      counted := ProcessFile(abs, group, labelRoot, writeLabels, depth, guid, hash);
      assert (entries, labels) == FileStep(old(entries), old(labels), InfoFor(abs, guid, hash, labelRoot, writeLabels, depth), group);
      TouchedStep(files, i, guidOf, touched0, old(touched), touched, counted);
      ProcessAllStep(old(entries), old(labels), entries, labels, infos, i, group);
    }

    /** `ProcessFiles(settings, group, files, labelRoot, touched, writeLabels,
        depth)`; `guidOf` is `AssetDatabase.AssetPathToGUID` and `shortHash`
        is `ShortHash`. Returns how many entries were touched. */
    method ProcessFiles(group: string, files: seq<string>, labelRoot: string, writeLabels: bool, depth: int,
                        guidOf: string -> string, shortHash: string -> string) returns (moved: nat)
      requires Valid()
      modifies this`entries, this`labels, this`touched
      ensures Valid() && Grown(old(entries), entries, group) && old(labels) <= labels
      ensures (entries, labels)
              == ProcessAll(old(entries), old(labels), Infos(files, labelRoot, writeLabels, depth, guidOf, shortHash), group)
      ensures touched == old(touched) + CountedGuids(files, guidOf)
      ensures moved == |CountedGuids(files, guidOf)|
    {
      ghost var infos := Infos(files, labelRoot, writeLabels, depth, guidOf, shortHash);
      moved := 0;
      var i := 0;
      assert files[..0] == [] && infos[0..] == infos;
      assert CountedGuids(files[..0], guidOf) == [];
      assert touched == old(touched) + CountedGuids(files[..0], guidOf);
      assert ProcessAll(entries, labels, infos[0..], group) == ProcessAll(old(entries), old(labels), infos, group);
      while i < |files|
        invariant 0 <= i <= |files|
        invariant Valid() && touched == old(touched) + CountedGuids(files[..i], guidOf)
        invariant ProcessAll(entries, labels, infos[i..], group) == ProcessAll(old(entries), old(labels), infos, group)
        invariant moved == |CountedGuids(files[..i], guidOf)|
      {
        var hash := FileHash(files[i], shortHash);
        InfosAt(files, labelRoot, writeLabels, depth, guidOf, shortHash, i);
        var counted := ProcessStep(files, i, group, labelRoot, writeLabels, depth, guidOf, hash, old(touched), infos);
        if counted {
          moved := moved + 1;
        }
        i := i + 1;
      }
      assert files[..i] == files && infos[i..] == [];
      ProcessAllGrows(old(entries), old(labels), infos, group);
    }
  }
}
