/** The parts of `System.IO.Path` the editor tools use: `GetFileName`,
    `GetExtension` and `GetFileNameWithoutExtension`, with both `/` and `\`
    as directory separators (the Windows editor's convention). */
module Paths {
  import opened Wrappers

  predicate IsSeparator(c: char) {
    c == '/' || c == '\\'
  }

  predicate IsDot(c: char) {
    c == '.'
  }

  /** The last index of a character satisfying `p`. */
  function LastIndexWhere(s: string, p: char -> bool): (r: Option<nat>)
    ensures r.None? ==> forall i :: 0 <= i < |s| ==> !p(s[i])
    ensures r.Some? ==> r.value < |s| && p(s[r.value]) && forall i :: r.value < i < |s| ==> !p(s[i])
    decreases |s|
  {
    if s == [] then None
    else if p(s[|s| - 1]) then Some(|s| - 1)
    else LastIndexWhere(s[..|s| - 1], p)
  }

  /** `Path.GetFileName(path)`: what follows the last separator. */
  function GetFileName(path: string): (r: string)
    ensures forall c :: c in r ==> !IsSeparator(c)
    ensures |r| <= |path| && r == path[|path| - |r|..]
  {
    match LastIndexWhere(path, IsSeparator)
    case None => path
    case Some(i) =>
      assert forall c :: c in path[i + 1..] ==> !IsSeparator(c) by {
        forall c | c in path[i + 1..] ensures !IsSeparator(c) {
          var k :| 0 <= k < |path[i + 1..]| && path[i + 1..][k] == c;
          assert path[i + 1 + k] == c;
        }
      }
      path[i + 1..]
  }

  /** `Path.GetExtension(path)`: from the last `.` of the file name, or empty
      when there is none or it is the last character. */
  function GetExtension(path: string): (r: string)
    ensures |r| <= |path|
  {
    var name := GetFileName(path);
    match LastIndexWhere(name, IsDot)
    case None => ""
    case Some(i) => if i == |name| - 1 then "" else name[i..]
  }

  /** `Path.GetFileNameWithoutExtension(path)`: the file name up to its last `.`. */
  function GetFileNameWithoutExtension(path: string): string
  {
    var name := GetFileName(path);
    match LastIndexWhere(name, IsDot)
    case None => name
    case Some(i) => name[..i]
  }

  /** A non-empty extension starts with `.`, has no other `.` and no
      separator, and ends the path. */
  lemma ExtensionShape(path: string)
    ensures var e := GetExtension(path);
      e != "" ==> |e| >= 2 && e[0] == '.' && |e| <= |path| && path[|path| - |e|..] == e
                  && path[..|path| - |e|] + e == path
                  && forall k :: 0 < k < |e| ==> e[k] != '.' && !IsSeparator(e[k])
  {
    var name := GetFileName(path);
    var e := GetExtension(path);
    if e != "" {
      var i := LastIndexWhere(name, IsDot).value;
      assert e == name[i..];
      forall k | 0 < k < |e| ensures e[k] != '.' && !IsSeparator(e[k]) {
        assert e[k] == name[i + k];
        assert name[i + k] in name;
      }
      assert path[..|path| - |e|] + path[|path| - |e|..] == path;
    }
  }

  /** Without extension and extension together give back the file name. */
  lemma FileNameSplitsAtExtension(path: string)
    ensures GetExtension(path) != "" ==> GetFileNameWithoutExtension(path) + GetExtension(path) == GetFileName(path)
    ensures GetExtension(path) == "" && '.' !in GetFileName(path) ==> GetFileNameWithoutExtension(path) == GetFileName(path)
  {
    var name := GetFileName(path);
    match LastIndexWhere(name, IsDot)
    case None =>
    case Some(i) =>
      assert name[..i] + name[i..] == name;
      assert name[i] in name;
  }

  /** The last match is the one no later character matches. */
  lemma {:induction false} LastIndexAt(a: string, c: char, b: string, p: char -> bool)
    requires p(c) && forall i :: 0 <= i < |b| ==> !p(b[i])
    ensures LastIndexWhere(a + [c] + b, p) == Some(|a|)
    decreases |b|
  {
    if b != [] {
      var s := a + [c] + b;
      assert s[..|s| - 1] == a + [c] + b[..|b| - 1];
      LastIndexAt(a, c, b[..|b| - 1], p);
    }
  }

  /** The file name of `dir/name` is `name`. */
  lemma FileNameOf(dir: string, name: string)
    requires forall i :: 0 <= i < |name| ==> !IsSeparator(name[i])
    ensures GetFileName(dir + "/" + name) == name
  {
    var s := dir + "/" + name;
    assert s == dir + ['/'] + name;
    LastIndexAt(dir, '/', name, IsSeparator);
    assert s[|dir| + 1..] == name;
  }

  /** `dir/stem.ext` has extension `.ext` and stem `stem`. */
  lemma ExtensionOf(dir: string, stem: string, ext: string)
    requires ext != "" && forall i :: 0 <= i < |ext| ==> ext[i] != '.' && !IsSeparator(ext[i])
    requires forall i :: 0 <= i < |stem| ==> !IsSeparator(stem[i])
    ensures GetFileName(dir + "/" + stem + "." + ext) == stem + "." + ext
    ensures GetExtension(dir + "/" + stem + "." + ext) == "." + ext
    ensures GetFileNameWithoutExtension(dir + "/" + stem + "." + ext) == stem
  {
    var name := stem + ['.'] + ext;
    assert dir + "/" + stem + "." + ext == dir + "/" + name;
    forall i | 0 <= i < |name| ensures !IsSeparator(name[i]) {
      if i < |stem| {
        assert name[i] == stem[i];
      } else if i > |stem| {
        assert name[i] == ext[i - |stem| - 1];
      }
    }
    var full := dir + "/" + stem + "." + ext;
    FileNameOf(dir, name);
    assert GetFileName(full) == name;
    LastIndexAt(stem, '.', ext, IsDot);
    assert LastIndexWhere(name, IsDot) == Some(|stem|);
    assert name[|stem|..] == "." + ext;
    assert name[..|stem|] == stem;
    assert GetExtension(full) == name[|stem|..];
  }
}
