/** The editor tool `AddressableKeySetter`: every asset under a root folder
    `<root>/Local/<Top>/A/B/File.ext` (or `Remote/...`) is made addressable
    in group `<Top>` (or `Remote_<Top>`) with the address `A/B/File`.

    The file list, GUID lookup and the SHA1 `ShortHash` are parameters; the
    Addressables settings are the map of entries (GUID to group and address)
    and the set of group names. */
module AddressableKeySetting {
  import opened Wrappers
  import opened Strings
  import opened Paths

  /** `GetRelative(path, root)`: the path below `root`, compared ignoring
      case, or the normalised path itself. */
  function GetRelative(path: string, root: string): (r: string)
    ensures '\\' !in r && |r| <= |path|
  {
    var p := Normalize(path);
    var rt := TrimEndSlash(Normalize(root));
    if StartsWithIgnoreCase(p, rt + "/") then p[|rt| + 1..] else p
  }

  /** The path below the root when it starts with the root and a slash. */
  lemma GetRelativeStrips(path: string, root: string)
    ensures var p := Normalize(path);
      var rt := TrimEndSlash(Normalize(root));
      (StartsWithIgnoreCase(p, rt + "/") ==> GetRelative(path, root) == p[|rt| + 1..] && |GetRelative(path, root)| == |path| - |rt| - 1)
      && (!StartsWithIgnoreCase(p, rt + "/") ==> GetRelative(path, root) == p)
  {
  }

  datatype ParsedPath = ParsedPath(isLocal: bool, isRemote: bool, top: string, afterTopWithExt: string)

  /** `TryParseRootRelative(absPath, ...)`: `None` when the path is not below
      the root or has no segment. */
  function TryParseRootRelative(absPath: string, rootPath: string): Option<ParsedPath>
  {
    ParseRelative(GetRelative(absPath, rootPath), GetFileName(absPath))
  }

  /** The parsing of the relative path `rel` of a file named `fileName`. */
  function ParseRelative(rel: string, fileName: string): Option<ParsedPath>
  {
    if rel == "" then None
    else
      var isLocal := StartsWithIgnoreCase(rel, "Local/");
      var isRemote := !isLocal && StartsWithIgnoreCase(rel, "Remote/");
      var rest := if isLocal then rel[|"Local/"|..] else if isRemote then rel[|"Remote/"|..] else rel;
      var parts := NonEmpty(Split(rest, {'/'}));
      if |parts| == 0 then None
      else Some(ParsedPath(isLocal, isRemote, parts[0],
                           if |parts| >= 2 then Join(parts[1..], '/') else fileName))
  }

  /** Local and remote are exclusive, each is set exactly by its prefix, the
      top is the first non-empty segment and never holds a slash. */
  lemma ParsedPathShape(rel: string, fileName: string)
    requires ParseRelative(rel, fileName).Some?
    ensures var r := ParseRelative(rel, fileName).value;
      && !(r.isLocal && r.isRemote)
      && (r.isLocal <==> StartsWithIgnoreCase(rel, "Local/"))
      && (r.isRemote <==> !StartsWithIgnoreCase(rel, "Local/") && StartsWithIgnoreCase(rel, "Remote/"))
      && r.top != "" && '/' !in r.top
  {
    var isLocal := StartsWithIgnoreCase(rel, "Local/");
    var isRemote := !isLocal && StartsWithIgnoreCase(rel, "Remote/");
    var rest := if isLocal then rel[|"Local/"|..] else if isRemote then rel[|"Remote/"|..] else rel;
    SplitPiecesHaveNoSeparator(rest, {'/'});
    var parts := NonEmpty(Split(rest, {'/'}));
    assert parts[0] in Split(rest, {'/'});
  }

  /** Separator-free text is left alone by `Normalize`. */
  lemma NormalizeKeeps(s: string)
    requires '\\' !in s
    ensures Normalize(s) == s
  {
  }

  /** A path one slash below a root is the rest of the path. */
  lemma GetRelativeBelow(root: string, tail: string)
    requires root != "" && root[|root| - 1] != '/' && '\\' !in root && '\\' !in tail
    ensures GetRelative(root + "/" + tail, root) == tail
  {
    var p := root + "/" + tail;
    NormalizeKeeps(root);
    NormalizeKeeps(p);
    assert TrimEndSlash(root) == root;
    assert p[..|root + "/"|] == root + "/";
    assert p[|root| + 1..] == tail;
  }

  /** Behind a separator-free top segment, a path without empty segments
      is kept whole. */
  lemma SplitTop(top: string, after: string)
    requires top != "" && '/' !in top
    requires forall i :: 0 <= i < |Split(after, {'/'})| ==> Split(after, {'/'})[i] != ""
    ensures var parts := NonEmpty(Split(top + "/" + after, {'/'}));
      |parts| >= 2 && parts[0] == top && Join(parts[1..], '/') == after
  {
    assert top + "/" + after == top + ['/'] + after;
    SplitAfterPiece(top, '/', {'/'}, after);
    var parts := [top] + Split(after, {'/'});
    NonEmptyKeeps(parts);
    assert parts[1..] == Split(after, {'/'});
    JoinSplit(after, '/');
  }

  /** A relative path `Local/<top>/<after>` ... */
  lemma ParseLocalRelative(top: string, after: string, fileName: string)
    requires top != "" && '/' !in top
    requires forall i :: 0 <= i < |Split(after, {'/'})| ==> Split(after, {'/'})[i] != ""
    ensures ParseRelative("Local/" + top + "/" + after, fileName) == Some(ParsedPath(true, false, top, after))
  {
    var rel := "Local/" + top + "/" + after;
    assert rel[..6] == "Local/";
    assert StartsWithIgnoreCase(rel, "Local/");
    var rest := rel[|"Local/"|..];
    assert rest == top + "/" + after;
    SplitTop(top, after);
    var parts := NonEmpty(Split(rest, {'/'}));
    var isRemote := false && StartsWithIgnoreCase(rel, "Remote/");
    assert ParseRelative(rel, fileName) == Some(ParsedPath(true, isRemote, parts[0], Join(parts[1..], '/')));
  }

  /** ... and `Remote/<top>/<after>`. */
  lemma ParseRemoteRelative(top: string, after: string, fileName: string)
    requires top != "" && '/' !in top
    requires forall i :: 0 <= i < |Split(after, {'/'})| ==> Split(after, {'/'})[i] != ""
    ensures ParseRelative("Remote/" + top + "/" + after, fileName) == Some(ParsedPath(false, true, top, after))
  {
    var rel := "Remote/" + top + "/" + after;
    assert FoldChar(rel[0]) == 'r' && FoldChar("Local/"[0]) == 'l';
    assert !StartsWithIgnoreCase(rel, "Local/");
    assert rel[..7] == "Remote/";
    assert StartsWithIgnoreCase(rel, "Remote/");
    var rest := rel[|"Remote/"|..];
    assert rest == top + "/" + after;
    SplitTop(top, after);
    var parts := NonEmpty(Split(rest, {'/'}));
    assert ParseRelative(rel, fileName) == Some(ParsedPath(false, true, parts[0], Join(parts[1..], '/')));
  }

  /** The layout the tool documents: `<root>/Local/<Top>/<rest>` is local with
      top `<Top>` and the rest kept whole, ... */
  lemma LocalLayout(root: string, top: string, after: string)
    requires root != "" && root[|root| - 1] != '/' && '\\' !in root && '\\' !in top && '\\' !in after
    requires top != "" && '/' !in top
    requires forall i :: 0 <= i < |Split(after, {'/'})| ==> Split(after, {'/'})[i] != ""
    ensures TryParseRootRelative(root + "/" + ("Local/" + top + "/" + after), root) == Some(ParsedPath(true, false, top, after))
  {
    var rel := "Local/" + top + "/" + after;
    GetRelativeBelow(root, rel);
    ParseLocalRelative(top, after, GetFileName(root + "/" + rel));
  }

  /** ... and `<root>/Remote/<Top>/<rest>` is remote. */
  lemma RemoteLayout(root: string, top: string, after: string)
    requires root != "" && root[|root| - 1] != '/' && '\\' !in root && '\\' !in top && '\\' !in after
    requires top != "" && '/' !in top
    requires forall i :: 0 <= i < |Split(after, {'/'})| ==> Split(after, {'/'})[i] != ""
    ensures TryParseRootRelative(root + "/" + ("Remote/" + top + "/" + after), root) == Some(ParsedPath(false, true, top, after))
  {
    var rel := "Remote/" + top + "/" + after;
    GetRelativeBelow(root, rel);
    ParseRemoteRelative(top, after, GetFileName(root + "/" + rel));
  }

  /** The key of `A/B/File.ext` is `A/B/File`, or the whole path when the
      extension is kept. */
  lemma KeyDropsExtension(dir: string, stem: string, ext: string)
    requires ext != "" && forall i :: 0 <= i < |ext| ==> ext[i] != '.' && !IsSeparator(ext[i])
    requires forall i :: 0 <= i < |stem| ==> !IsSeparator(stem[i])
    requires '\\' !in dir
    ensures MakeKeyFromAfterTop(dir + "/" + stem + "." + ext, false) == dir + "/" + stem
    ensures MakeKeyFromAfterTop(dir + "/" + stem + "." + ext, true) == dir + "/" + stem + "." + ext
  {
    var after := dir + "/" + stem + "." + ext;
    ExtensionOf(dir, stem, ext);
    var e := GetExtension(after);
    assert e == "." + ext;
    var key := after[..|after| - |e|];
    assert key == dir + "/" + stem;
    NormalizeKeeps(key);
    assert MakeKeyFromAfterTop(after, false) == Normalize(key);
    NormalizeKeeps(after);
    assert MakeKeyFromAfterTop(after, true) == Normalize(after);
  }

  /** `ResolveGroupName(isLocal, isRemote, top)`. */
  function ResolveGroupName(isLocal: bool, isRemote: bool, top: string, groupHasRemotePrefix: bool): (r: string)
    ensures top == "" <==> r == ""
    ensures top != "" && isRemote && groupHasRemotePrefix ==> r == "Remote_" + top
    ensures top != "" && !(isRemote && groupHasRemotePrefix) ==> r == top
  {
    if top == "" then ""
    else if isRemote && groupHasRemotePrefix then "Remote_" + top
    else top
  }

  /** `MakeKeyFromAfterTop(afterTopWithExt)`. */
  function MakeKeyFromAfterTop(afterTopWithExt: string, includeExtension: bool): (r: string)
    ensures r != "" && '\\' !in r
  {
    var ext := GetExtension(afterTopWithExt);
    var key := if !includeExtension && ext != "" then afterTopWithExt[..|afterTopWithExt| - |ext|] else afterTopWithExt;
    Normalize(if key == "" then "Unnamed" else key)
  }

  /** For a path without backslashes and with a name before its extension,
      the key and the extension together give the path back; with the
      extension kept, the key is the path. */
  lemma KeyAndExtension(after: string)
    requires '\\' !in after && |GetExtension(after)| < |after|
    ensures MakeKeyFromAfterTop(after, false) + GetExtension(after) == after
    ensures MakeKeyFromAfterTop(after, true) == after
  {
    ExtensionShape(after);
    var e := GetExtension(after);
    NormalizeKeeps(after);
    if e != "" {
      var key := after[..|after| - |e|];
      assert forall i :: 0 <= i < |key| ==> key[i] == after[i];
      NormalizeKeeps(key);
      assert MakeKeyFromAfterTop(after, false) == Normalize(key);
    } else {
      assert MakeKeyFromAfterTop(after, false) == Normalize(after);
    }
  }

  /** The candidates `EnsureUniqueAddress` tries after the hashed key. */
  function Numbered(withHash: string, i: int): (r: string)
    ensures StartsWith(r, withHash) && |r| > |withHash|
  {
    var r := withHash + "_" + IntToString(i);
    assert r[..|withHash|] == withHash;
    r
  }

  lemma NumberedInjective(withHash: string, i: int, j: int)
    requires Numbered(withHash, i) == Numbered(withHash, j)
    ensures i == j
  {
    var a := Numbered(withHash, i);
    assert a[|withHash| + 1..] == IntToString(i);
    assert Numbered(withHash, j)[|withHash| + 1..] == IntToString(j);
    IntToStringInjective(i, j);
  }

  /** The numbered candidates `lo` to `hi - 1`. */
  function NumberedRange(withHash: string, lo: int, hi: int): set<string>
    decreases hi - lo
  {
    if hi <= lo then {} else NumberedRange(withHash, lo, hi - 1) + {Numbered(withHash, hi - 1)}
  }

  lemma {:induction false} NumberedRangeExcludes(withHash: string, lo: int, hi: int, k: int)
    requires k >= hi
    ensures Numbered(withHash, k) !in NumberedRange(withHash, lo, hi)
    decreases hi - lo
  {
    if hi > lo {
      NumberedRangeExcludes(withHash, lo, hi - 1, k);
      if Numbered(withHash, hi - 1) == Numbered(withHash, k) {
        NumberedInjective(withHash, hi - 1, k);
      }
    }
  }

  /** `n` is the first numbered candidate not in `existing`. */
  ghost predicate FirstFreeNumbered(withHash: string, existing: set<string>, n: int) {
    n >= 2 && Numbered(withHash, n) !in existing
    && forall m :: 2 <= m < n ==> Numbered(withHash, m) in existing
  }

  /** `EnsureUniqueAddress(baseKey, absPath, existing)` with `hash` the
      `ShortHash` of the path: `baseKey` when unused, else the hashed key,
      else the first unused numbered one. */
  method EnsureUniqueAddress(baseKey: string, hash: string, existing: set<string>) returns (r: string)
    ensures r !in existing
    ensures baseKey !in existing ==> r == baseKey
    ensures baseKey in existing ==> StartsWith(r, baseKey + "#" + hash) && r != baseKey
    ensures baseKey in existing && baseKey + "#" + hash !in existing ==> r == baseKey + "#" + hash
    ensures baseKey in existing && baseKey + "#" + hash in existing ==>
              exists n :: FirstFreeNumbered(baseKey + "#" + hash, existing, n) && r == Numbered(baseKey + "#" + hash, n)
  {
    if baseKey !in existing {
      return baseKey;
    }
    var withHash := baseKey + "#" + hash;
    assert withHash[..|baseKey + "#" + hash|] == withHash;
    if withHash !in existing {
      return withHash;
    }
    var i := 2;
    var alt := Numbered(withHash, i);
    i := i + 1;
    while alt in existing
      invariant i >= 3 && alt == Numbered(withHash, i - 1)
      invariant forall m :: 2 <= m < i - 1 ==> Numbered(withHash, m) in existing
      invariant NumberedRange(withHash, 2, i - 1) <= existing
      decreases |existing - NumberedRange(withHash, 2, i - 1)|
    {
      NumberedRangeExcludes(withHash, 2, i - 1, i - 1);
      assert existing - NumberedRange(withHash, 2, i) < existing - NumberedRange(withHash, 2, i - 1);
      alt := Numbered(withHash, i);
      i := i + 1;
    }
    assert FirstFreeNumbered(withHash, existing, i - 1);
    return alt;
  }

  // ---------------------------------------------------------------------
  // Run
  // ---------------------------------------------------------------------

  datatype Entry = Entry(group: string, address: string)

  /** The files `Run` visits: `.meta` files dropped, slashes normalised. */
  function CandidateFiles(files: seq<string>): (r: seq<string>)
    ensures |r| <= |files|
    ensures forall f :: f in r ==> '\\' !in f
  {
    if files == [] then []
    else
      var f := files[0];
      var isMeta := |f| >= 5 && EqualsIgnoreCase(f[|f| - 5..], ".meta");
      (if isMeta then [] else [Normalize(f)]) + CandidateFiles(files[1..])
  }

  /** The addresses collected when `Run` starts: every non-empty one. */
  function InitialAddresses(entries: map<string, Entry>): (r: set<string>)
    ensures forall g :: g in entries && entries[g].address != "" ==> entries[g].address in r
    ensures "" !in r
  {
    set g | g in entries && entries[g].address != "" :: entries[g].address
  }

  /** Two settings that differ at most in the entry of `guid`. */
  ghost predicate OnlyEntryChanged(before: map<string, Entry>, after: map<string, Entry>, guid: string) {
    forall g :: g != guid ==> (g in before <==> g in after) && (g in before ==> before[g] == after[g])
  }

  /** The keys are pairwise different and none was in `initial`. */
  ghost predicate UniqueSince(keys: seq<string>, initial: set<string>) {
    NoDuplicates(keys) && forall j :: 0 <= j < |keys| ==> keys[j] !in initial
  }

  /** A key unknown so far keeps the assigned keys unique. */
  lemma UniqueSinceAppend(keys: seq<string>, k: string, initial: set<string>, known: set<string>)
    requires UniqueSince(keys, initial) && initial <= known && k !in known
    requires forall j :: 0 <= j < |keys| ==> keys[j] in known
    ensures UniqueSince(keys + [k], initial)
  {
  }

  /** No other candidate of `Run` has the GUID of candidate `j`. */
  ghost predicate UniqueGuid(candidates: seq<string>, guidOf: string -> string, j: int)
    requires 0 <= j < |candidates|
  {
    forall m :: 0 <= m < |candidates| && m != j ==> guidOf(candidates[m]) != guidOf(candidates[j])
  }

  class AddressableKeySetter {
    const rootPath: string
    const autoAddIfNotAddressable: bool
    const createGroupIfMissing: bool
    const onlyIfEmpty: bool
    const includeExtension: bool
    const ensureUnique: bool
    const groupHasRemotePrefix: bool
    /** The Addressables settings: entries by GUID and the group names. */
    var entries: map<string, Entry>
    var groups: set<string>
    /** State of one `Run`. */
    var existingAddresses: set<string>
    var updatedKeys: nat
    var addedEntries: nat
    var createdGroups: set<string>
    /** The addresses `Run` assigned, in order. */
    ghost var assignedKeys: seq<string>

    constructor(rootPath: string, autoAdd: bool, createGroup: bool, onlyIfEmpty: bool, includeExtension: bool,
                ensureUnique: bool, groupHasRemotePrefix: bool, entries: map<string, Entry>, groups: set<string>)
      ensures this.rootPath == rootPath && autoAddIfNotAddressable == autoAdd && createGroupIfMissing == createGroup
      ensures this.onlyIfEmpty == onlyIfEmpty && this.includeExtension == includeExtension
      ensures this.ensureUnique == ensureUnique && this.groupHasRemotePrefix == groupHasRemotePrefix
      ensures this.entries == entries && this.groups == groups
      ensures existingAddresses == {} && updatedKeys == 0 && addedEntries == 0 && createdGroups == {}
      ensures assignedKeys == []
    {
      this.rootPath := rootPath;
      autoAddIfNotAddressable := autoAdd;
      createGroupIfMissing := createGroup;
      this.onlyIfEmpty := onlyIfEmpty;
      this.includeExtension := includeExtension;
      this.ensureUnique := ensureUnique;
      this.groupHasRemotePrefix := groupHasRemotePrefix;
      this.entries := entries;
      this.groups := groups;
      existingAddresses := {};
      updatedKeys := 0;
      addedEntries := 0;
      createdGroups := {};
      assignedKeys := [];
    }

    ghost predicate Valid()
      reads this
    {
      createdGroups <= groups
    }

    /** `FindOrCreateGroup(settings, groupName, createGroupIfMissing, createdGroups)`. */
    method FindOrCreateGroup(groupName: string) returns (found: bool)
      modifies this`groups, this`createdGroups
      ensures found <==> groupName != "" && (groupName in old(groups) || createGroupIfMissing)
      ensures groups == (if found then old(groups) + {groupName} else old(groups))
      ensures createdGroups == (if found && groupName !in old(groups) then old(createdGroups) + {groupName} else old(createdGroups))
    {
      if groupName == "" {
        return false;
      }
      if groupName in groups {
        return true;
      }
      if !createGroupIfMissing {
        return false;
      }
      groups := groups + {groupName};
      createdGroups := createdGroups + {groupName};
      return true;
    }

    /** The group of a parsed path. */
    function GroupOf(p: ParsedPath): string {
      ResolveGroupName(p.isLocal, p.isRemote, p.top, groupHasRemotePrefix)
    }

    /** The key of a parsed path. */
    function KeyOf(p: ParsedPath): string {
      MakeKeyFromAfterTop(p.afterTopWithExt, includeExtension)
    }

    /** A change of address from `before` to `after` for derived key `key`:
        only of an empty address under `onlyIfEmpty`; the key itself, or
        under `ensureUnique` the key when unused and else an unused
        `key#hash...` variant. */
    ghost predicate NewAddress(before: string, after: string, key: string, hash: string, existing: set<string>) {
      && after != before
      && (onlyIfEmpty ==> before == "")
      && (!ensureUnique ==> after == key)
      && (ensureUnique ==> after !in existing)
      && (ensureUnique && key !in existing ==> after == key)
      && (ensureUnique && key in existing ==> StartsWith(after, key + "#" + hash))
    }

    /** The address an entry settles on when its address was `before` and
        its derived key is `key`: `before` itself when kept under
        `onlyIfEmpty`, the key, or under `ensureUnique` the key or one of
        its `key#hash...` variants. */
    ghost predicate SettledAddress(a: string, before: string, key: string, hash: string) {
      if onlyIfEmpty && before != "" then a == before
      else if ensureUnique then a == key || StartsWith(a, key + "#" + hash)
      else a == key
    }

    /** What `Run` leaves in the entries `es` for the file at `path`, given
        the entries and groups the file's turn started from: a file with a
        GUID below the root has an entry exactly when it had one or auto-add
        found (or could create) its group; an added entry sits in that group;
        and the entry carries the address it settles on. */
    ghost predicate FileSettled(es: map<string, Entry>, path: string, guid: string, parsed: Option<ParsedPath>,
                                hash: string, entries0: map<string, Entry>, groups0: set<string>) {
      guid != "" && parsed.Some? ==>
        var p := parsed.value;
        && (guid in es <==> guid in entries0 || (autoAddIfNotAddressable && GroupOf(p) != ""
                                                  && (GroupOf(p) in groups0 || createGroupIfMissing)))
        && (guid in es && guid !in entries0 ==> es[guid].group == GroupOf(p))
        && (guid in es ==> SettledAddress(es[guid].address, if guid in entries0 then entries0[guid].address else path,
                                          KeyOf(p), hash))
    }

    /** `settings.CreateOrMoveEntry(guid, group)` for a new entry, whose
        address starts out as its asset path. */
    method AddEntry(guid: string, groupName: string, path: string) returns (added: bool)
      requires Valid() && guid !in entries
      modifies this`entries, this`groups, this`createdGroups, this`addedEntries
      ensures Valid() && old(groups) <= groups
      ensures added <==> groupName != "" && (groupName in old(groups) || createGroupIfMissing)
      ensures entries == if added then old(entries)[guid := Entry(groupName, path)] else old(entries)
      ensures addedEntries == old(addedEntries) + (if added then 1 else 0)
      ensures added ==> groupName in groups
      ensures !createGroupIfMissing ==> groups == old(groups)
      ensures createdGroups == old(createdGroups) + (groups - old(groups))
    {
      added := FindOrCreateGroup(groupName);
      if added {
        entries := entries[guid := Entry(groupName, path)];
        addedEntries := addedEntries + 1;
      }
    }

    /** `entry.SetAddress(newKey)` when the address differs, remembering the key. */
    method SetAddress(guid: string, newKey: string)
      requires guid in entries
      modifies this`entries, this`existingAddresses, this`updatedKeys, this`assignedKeys
      ensures entries == old(entries)[guid := old(entries)[guid].(address := newKey)]
      ensures old(entries)[guid].address == newKey ==>
                existingAddresses == old(existingAddresses) && updatedKeys == old(updatedKeys)
                && assignedKeys == old(assignedKeys)
      ensures old(entries)[guid].address != newKey ==>
                existingAddresses == old(existingAddresses) + {newKey} && updatedKeys == old(updatedKeys) + 1
                && assignedKeys == old(assignedKeys) + [newKey]
    {
      if entries[guid].address != newKey {
        entries := entries[guid := entries[guid].(address := newKey)];
        existingAddresses := existingAddresses + {newKey};
        updatedKeys := updatedKeys + 1;
        assignedKeys := assignedKeys + [newKey];
      }
    }

    /** The address part of `Run` for an entry whose derived key is `key`:
        kept under `onlyIfEmpty` when set, made unique under `ensureUnique`,
        then set when it differs. */
    method AssignKey(guid: string, key: string, hash: string)
      requires guid in entries
      modifies this`entries, this`existingAddresses, this`updatedKeys, this`assignedKeys
      ensures guid in entries && entries == old(entries)[guid := entries[guid]]
      ensures entries[guid].group == old(entries)[guid].group
      ensures SettledAddress(entries[guid].address, old(entries)[guid].address, key, hash)
      ensures assignedKeys == old(assignedKeys) ==>
                entries == old(entries) && updatedKeys == old(updatedKeys) && existingAddresses == old(existingAddresses)
      ensures assignedKeys != old(assignedKeys) ==>
                assignedKeys == old(assignedKeys) + [entries[guid].address]
                && updatedKeys == old(updatedKeys) + 1
                && existingAddresses == old(existingAddresses) + {entries[guid].address}
                && NewAddress(old(entries)[guid].address, entries[guid].address, key, hash, old(existingAddresses))
      ensures (ensureUnique && !(onlyIfEmpty && old(entries)[guid].address != "")
               && old(entries)[guid].address in old(existingAddresses)) ==> assignedKeys != old(assignedKeys)
      ensures (!ensureUnique && !(onlyIfEmpty && old(entries)[guid].address != "")
               && old(entries)[guid].address != key) ==> assignedKeys != old(assignedKeys)
    {
      if onlyIfEmpty && entries[guid].address != "" {
        return;
      }
      var newKey := key;
      if ensureUnique {
        newKey := EnsureUniqueAddress(key, hash, existingAddresses);
      }
      SetAddress(guid, newKey);
    }

    /** The body of `Run`'s loop for one file: `guid` is its GUID (empty when
        it has none), `parsed` its `TryParseRootRelative` and `hash` its
        `ShortHash`. */
    method ProcessFile(path: string, guid: string, parsed: Option<ParsedPath>, hash: string)
      requires Valid()
      modifies this`entries, this`groups, this`createdGroups, this`existingAddresses, this`updatedKeys,
               this`addedEntries, this`assignedKeys
      ensures Valid() && old(groups) <= groups && createdGroups == old(createdGroups) + (groups - old(groups))
      ensures !createGroupIfMissing ==> groups == old(groups)
      // The file's entry ends up as `FileSettled` says.
      ensures FileSettled(entries, path, guid, parsed, hash, old(entries), old(groups))
      // Only this file's entry changes, and no entry changes group.
      ensures OnlyEntryChanged(old(entries), entries, guid)
      ensures guid in old(entries) ==> guid in entries && entries[guid].group == old(entries)[guid].group
      // A missing entry is added only with auto-add, into the file's group.
      ensures addedEntries == old(addedEntries) + (if guid !in old(entries) && guid in entries then 1 else 0)
      ensures guid !in old(entries) && guid in entries ==>
                guid != "" && autoAddIfNotAddressable && parsed.Some?
                && entries[guid].group == GroupOf(parsed.value) && entries[guid].group in groups
      // Without a new address nothing else moves.
      ensures assignedKeys == old(assignedKeys) ==>
                updatedKeys == old(updatedKeys) && existingAddresses == old(existingAddresses)
                && (guid in old(entries) ==> entries[guid] == old(entries)[guid])
                && (guid !in old(entries) && guid in entries ==> entries[guid].address == path)
      // A new address is counted, remembered and derived from the path.
      ensures assignedKeys != old(assignedKeys) ==>
                guid != "" && guid in entries && parsed.Some?
                && assignedKeys == old(assignedKeys) + [entries[guid].address]
                && updatedKeys == old(updatedKeys) + 1
                && existingAddresses == old(existingAddresses) + {entries[guid].address}
                && NewAddress(if guid in old(entries) then old(entries)[guid].address else path,
                              entries[guid].address, KeyOf(parsed.value), hash, old(existingAddresses))
      // An existing entry whose address is already known is always renamed
      // under `ensureUnique`: its own address counts as a collision.
      ensures (ensureUnique && guid != "" && parsed.Some? && guid in old(entries)
               && !(onlyIfEmpty && old(entries)[guid].address != "")
               && old(entries)[guid].address in old(existingAddresses)) ==> assignedKeys != old(assignedKeys)
    {
      if guid == "" {
        return;
      }
      if parsed.None? {
        return;
      }
      var p := parsed.value;
      if guid !in entries && autoAddIfNotAddressable {
        var added := AddEntry(guid, GroupOf(p), path);
        if !added {
          return;
        }
      }
      if guid !in entries {
        return;
      }
      AssignKey(guid, KeyOf(p), hash);
    }

    /** What `Run` keeps true from the settings `entries0`, `groups0` it
        started with: entries and groups only grow, entries never move, ... */
    ghost predicate RunFrame(entries0: map<string, Entry>, groups0: set<string>)
      reads this
    {
      && Valid() && groups == groups0 + createdGroups && createdGroups !! groups0
      && (!createGroupIfMissing ==> createdGroups == {})
      && (forall g :: g in entries0 ==> g in entries && entries[g].group == entries0[g].group)
      && (forall g :: g in entries && g !in entries0 ==> autoAddIfNotAddressable && entries[g].group in groups)
      && (onlyIfEmpty ==>
            forall g :: g in entries0 && entries0[g].address != "" ==> g in entries && entries[g] == entries0[g])
    }

    /** ... every address in use at the start or assigned since is known, and
        under `ensureUnique` the assigned ones are new and pairwise different. */
    ghost predicate RunAddresses(entries0: map<string, Entry>)
      reads this
    {
      && updatedKeys == |assignedKeys|
      && InitialAddresses(entries0) <= existingAddresses
      && (forall j :: 0 <= j < |assignedKeys| ==> assignedKeys[j] in existingAddresses)
      && (ensureUnique ==> UniqueSince(assignedKeys, InitialAddresses(entries0)))
    }

    /** One iteration of `Run` keeps its invariant and bumps each counter at
        most once. */
    method RunStep(path: string, guid: string, parsed: Option<ParsedPath>, hash: string,
                   ghost entries0: map<string, Entry>, ghost groups0: set<string>)
      requires RunFrame(entries0, groups0) && RunAddresses(entries0)
      modifies this`entries, this`groups, this`createdGroups, this`existingAddresses, this`updatedKeys,
               this`addedEntries, this`assignedKeys
      ensures RunFrame(entries0, groups0) && RunAddresses(entries0)
      ensures updatedKeys <= old(updatedKeys) + 1 && addedEntries <= old(addedEntries) + 1
      ensures OnlyEntryChanged(old(entries), entries, guid)
      // A file whose entry is still as it was at the start settles as if
      // it were the first one visited.
      ensures (guid in old(entries) <==> guid in entries0) && (guid in entries0 ==> old(entries)[guid] == entries0[guid])
              ==> FileSettled(entries, path, guid, parsed, hash, entries0, groups0)
    {
      ghost var keys := assignedKeys;
      ghost var known := existingAddresses;
      ProcessFile(path, guid, parsed, hash);
      if ensureUnique && assignedKeys != keys {
        UniqueSinceAppend(keys, entries[guid].address, InitialAddresses(entries0), known);
      }
    }

    /** The candidates before `n` with a GUID of their own have settled in `es`. */
    ghost predicate SettledUpTo(es: map<string, Entry>, candidates: seq<string>, guidOf: string -> string,
                                shortHash: string -> string, n: int, entries0: map<string, Entry>, groups0: set<string>) {
      forall j :: 0 <= j < n && j < |candidates| && UniqueGuid(candidates, guidOf, j) ==>
        FileSettled(es, candidates[j], guidOf(candidates[j]), TryParseRootRelative(candidates[j], rootPath),
                    shortHash(candidates[j]), entries0, groups0)
    }

    /** The candidates from `n` on with a GUID of their own still have the
        entry they had in `entries0`. */
    ghost predicate UntouchedFrom(es: map<string, Entry>, candidates: seq<string>, guidOf: string -> string,
                                  n: int, entries0: map<string, Entry>) {
      forall j :: 0 <= n <= j < |candidates| && UniqueGuid(candidates, guidOf, j) ==>
        var g := guidOf(candidates[j]);
        (g in es <==> g in entries0) && (g in entries0 ==> es[g] == entries0[g])
    }

    /** The turn of candidate `i`, which changes only its own entry, moves
        both frontiers one step. */
    lemma RunAdvance(before: map<string, Entry>, after: map<string, Entry>, candidates: seq<string>,
                     guidOf: string -> string, shortHash: string -> string, i: nat,
                     entries0: map<string, Entry>, groups0: set<string>)
      requires i < |candidates|
      requires SettledUpTo(before, candidates, guidOf, shortHash, i, entries0, groups0)
      requires UntouchedFrom(before, candidates, guidOf, i, entries0)
      requires OnlyEntryChanged(before, after, guidOf(candidates[i]))
      requires UniqueGuid(candidates, guidOf, i) ==>
                 FileSettled(after, candidates[i], guidOf(candidates[i]), TryParseRootRelative(candidates[i], rootPath),
                             shortHash(candidates[i]), entries0, groups0)
      ensures SettledUpTo(after, candidates, guidOf, shortHash, i + 1, entries0, groups0)
      ensures UntouchedFrom(after, candidates, guidOf, i + 1, entries0)
    {
      forall j | 0 <= j < i && UniqueGuid(candidates, guidOf, j)
        ensures FileSettled(after, candidates[j], guidOf(candidates[j]), TryParseRootRelative(candidates[j], rootPath),
                            shortHash(candidates[j]), entries0, groups0)
      {
        var g := guidOf(candidates[j]);
        assert g != guidOf(candidates[i]);
        assert (g in after <==> g in before) && (g in before ==> after[g] == before[g]);
      }
      forall j | i + 1 <= j < |candidates| && UniqueGuid(candidates, guidOf, j)
        ensures var g := guidOf(candidates[j]);
                (g in after <==> g in entries0) && (g in entries0 ==> after[g] == entries0[g])
      {
        assert guidOf(candidates[j]) != guidOf(candidates[i]);
      }
    }

    /** `Run()`: every candidate file below the root, in order; `guidOf` is
        `AssetDatabase.AssetPathToGUID` and `shortHash` is `ShortHash`. */
    method Run(files: seq<string>, guidOf: string -> string, shortHash: string -> string)
      requires Valid()
      modifies this`entries, this`groups, this`createdGroups, this`existingAddresses, this`updatedKeys,
               this`addedEntries, this`assignedKeys
      ensures RunFrame(old(entries), old(groups)) && RunAddresses(old(entries))
      ensures updatedKeys <= |CandidateFiles(files)| && addedEntries <= |CandidateFiles(files)|
      // Every candidate whose GUID no other candidate shares ends up with
      // the entry and the address its own turn gives it.
      ensures SettledUpTo(entries, CandidateFiles(files), guidOf, shortHash, |CandidateFiles(files)|, old(entries), old(groups))
    {
      existingAddresses := InitialAddresses(entries);
      var candidates := CandidateFiles(files);
      updatedKeys := 0;
      addedEntries := 0;
      createdGroups := {};
      assignedKeys := [];
      var i := 0;
      while i < |candidates|
        invariant 0 <= i <= |candidates|
        invariant RunFrame(old(entries), old(groups)) && RunAddresses(old(entries))
        invariant updatedKeys <= i && addedEntries <= i
        invariant !createGroupIfMissing ==> groups == old(groups)
        invariant SettledUpTo(entries, candidates, guidOf, shortHash, i, old(entries), old(groups))
        invariant UntouchedFrom(entries, candidates, guidOf, i, old(entries))
      {
        var path := candidates[i];
        ghost var before := entries;
        RunStep(path, guidOf(path), TryParseRootRelative(path, rootPath), shortHash(path), old(entries), old(groups));
        RunAdvance(before, entries, candidates, guidOf, shortHash, i, old(entries), old(groups));
        i := i + 1;
      }
    }
  }
}
