/** Paths and the filesystem, as the session code sees them through
    `std::path::Path` and `std::fs`.

    A path is its list of normal components plus whether it is absolute: Rust
    compares paths component by component, so `a//b/./c/` and `a/b/c` are the
    same path, and so are they here. The filesystem is a finite map from paths
    to what is stored there. */
module Paths {
  import opened Wrappers
  import opened Text

  datatype Path = Path(absolute: bool, parts: seq<string>)

  /** `Path::join` with a single normal component. */
  function Child(p: Path, name: string): Path
  {
    Path(p.absolute, p.parts + [name])
  }

  /** `Path::join`: an absolute right-hand side replaces the base. */
  function JoinPath(base: Path, rel: Path): (r: Path)
    ensures rel.absolute ==> r == rel
    ensures !rel.absolute ==> StartsWith(r, base) && |r.parts| == |base.parts| + |rel.parts|
    ensures !rel.absolute ==> r.parts[|base.parts|..] == rel.parts
  {
    if rel.absolute then rel else Path(base.absolute, base.parts + rel.parts)
  }

  /** The ancestor of `p` made of its first `k` components. */
  function Ancestor(p: Path, k: nat): Path
    requires k <= |p.parts|
  {
    Path(p.absolute, p.parts[..k])
  }

  /** Going up from an ancestor gives the next ancestor. */
  lemma AncestorParent(p: Path, k: nat)
    requires 0 < k <= |p.parts|
    ensures Parent(Ancestor(p, k)) == Some(Ancestor(p, k - 1))
  {
    assert p.parts[..k][..k - 1] == p.parts[..k - 1];
  }

  /** A component as it appears in a path string: empty components (from
      repeated or trailing slashes) and `.` are not components. */
  function Component(c: string): seq<string>
  {
    if c == "" || c == "." then [] else [c]
  }

  /** The components of `s` when `pending` holds the characters already read of
      the current component. */
  function ComponentsFrom(s: string, pending: string): seq<string>
  {
    if s == [] then Component(pending)
    else if s[0] == '/' then Component(pending) + ComponentsFrom(s[1..], "")
    else ComponentsFrom(s[1..], pending + [s[0]])
  }

  /** A path written as a string, split at `/`. */
  function ParsePath(s: string): Path
  {
    Path(|s| > 0 && s[0] == '/', ComponentsFrom(s, ""))
  }

  /** `Path::file_name`: the last component, unless the path has none or it is `..`. */
  function FileName(p: Path): (r: Option<string>)
    ensures r.Some? <==> p.parts != [] && p.parts[|p.parts| - 1] != ".."
    ensures r.Some? ==> r.value == p.parts[|p.parts| - 1]
  {
    if p.parts == [] || p.parts[|p.parts| - 1] == ".." then None
    else Some(p.parts[|p.parts| - 1])
  }

  /** `Path::parent`: the path without its last component; a root or an empty
      path has none. */
  function Parent(p: Path): (r: Option<Path>)
    ensures r.Some? <==> p.parts != []
    ensures r.Some? ==> Child(r.value, p.parts[|p.parts| - 1]) == p
  {
    if p.parts == [] then None else Some(Path(p.absolute, p.parts[..|p.parts| - 1]))
  }

  /** Index of the last `.` in `s`, if there is one. */
  function LastDot(s: string): (r: Option<nat>)
    ensures r.Some? ==> r.value < |s| && s[r.value] == '.'
    ensures r.Some? ==> forall j :: r.value < j < |s| ==> s[j] != '.'
    ensures r.None? ==> forall j :: 0 <= j < |s| ==> s[j] != '.'
  {
    if s == [] then None
    else if s[|s| - 1] == '.' then Some(|s| - 1)
    else LastDot(s[..|s| - 1])
  }

  /** `Path::extension`: the text after the last `.` of the file name, provided
      that dot is not the name's first character. */
  function Extension(p: Path): (r: Option<string>)
    ensures r.Some? ==> FileName(p).Some? && '.' !in r.value
    ensures r.Some? ==>
      exists i :: 0 < i < |FileName(p).value| && FileName(p).value[i] == '.' && r.value == FileName(p).value[i + 1..]
    ensures r.None? ==>
      FileName(p).None? || forall i :: 0 < i < |FileName(p).value| ==> FileName(p).value[i] != '.'
  {
    match FileName(p)
    case None => None
    case Some(name) =>
      match LastDot(name)
      case None => None
      case Some(i) => if i == 0 then None else Some(name[i + 1..])
  }

  /** `Path::starts_with`: `base` is a whole-component prefix of `p`. */
  predicate StartsWith(p: Path, base: Path)
  {
    p.absolute == base.absolute && |base.parts| <= |p.parts| && p.parts[..|base.parts|] == base.parts
  }

  /** A name that is one normal path component. */
  predicate IsComponent(name: string)
  {
    name != "" && name != "." && '/' !in name
  }

  lemma {:induction false} ComponentsOfPlain(s: string, pending: string)
    requires '/' !in s
    ensures ComponentsFrom(s, pending) == Component(pending + s)
    decreases |s|
  {
    if s == [] {
      assert pending + s == pending;
    } else {
      assert s[0] in s;
      assert '/' !in s[1..] by {
        forall j | 0 <= j < |s[1..]| ensures s[1..][j] != '/' {
          assert s[1..][j] == s[j + 1] && s[j + 1] in s;
        }
      }
      ComponentsOfPlain(s[1..], pending + [s[0]]);
      assert pending + [s[0]] + s[1..] == pending + s;
    }
  }

  lemma {:induction false} ComponentsAfterPlain(a: string, rest: string, pending: string)
    requires '/' !in a
    ensures ComponentsFrom(a + rest, pending) == ComponentsFrom(rest, pending + a)
    decreases |a|
  {
    if a == [] {
      assert a + rest == rest && pending + a == pending;
    } else {
      assert a[0] in a;
      assert (a + rest)[0] == a[0];
      assert (a + rest)[1..] == a[1..] + rest;
      assert '/' !in a[1..] by {
        forall j | 0 <= j < |a[1..]| ensures a[1..][j] != '/' {
          assert a[1..][j] == a[j + 1] && a[j + 1] in a;
        }
      }
      ComponentsAfterPlain(a[1..], rest, pending + [a[0]]);
      assert pending + [a[0]] + a[1..] == pending + a;
    }
  }

  /** A relative path string `dir/name` of two components parses to those two
      components: this is how `sessions/<id>` in `active.json` reads back. */
  lemma ParseTwoComponents(dir: string, name: string)
    requires IsComponent(dir) && IsComponent(name)
    ensures ParsePath(dir + "/" + name) == Path(false, [dir, name])
  {
    var s := dir + "/" + name;
    assert s[0] == dir[0] && dir[0] != '/' by { assert dir[0] in dir; }
    ComponentsAfterPlain(dir, "/" + name, "");
    assert dir + ("/" + name) == s;
    assert "" + dir == dir;
    assert ("/" + name)[1..] == name;
    ComponentsOfPlain(name, "");
    assert "" + name == name;
  }

  /** The `.md` test on a path is a test on the file name: it ends in `.md`
      after at least one other character. */
  lemma ExtensionMd(p: Path)
    ensures Extension(p) == Some("md") <==>
      FileName(p).Some? && |FileName(p).value| >= 4 && EndsWith(FileName(p).value, ".md")
  {
    if FileName(p).Some? {
      var name := FileName(p).value;
      if Extension(p) == Some("md") {
        var i := LastDot(name).value;
        assert name[i + 1..] == "md";
        assert |name| == i + 3;
        assert name[|name| - 3..] == ".md" by {
          assert name[|name| - 3] == '.';
          assert name[|name| - 2..] == name[i + 1..];
        }
      }
      if |name| >= 4 && EndsWith(name, ".md") {
        assert name[|name| - 3] == '.' && name[|name| - 2] == 'm' && name[|name| - 1] == 'd' by {
          assert name[|name| - 3..] == ".md";
        }
        assert LastDot(name) == Some(|name| - 3);
        assert name[|name| - 2..] == "md";
      }
    }
  }

  lemma ChildStartsWith(p: Path, name: string)
    ensures StartsWith(Child(p, name), p)
    ensures Parent(Child(p, name)) == Some(p)
  {
    assert Child(p, name).parts[..|p.parts|] == p.parts;
  }

  /** What is stored at a path: a file with text content, something that exists
      but cannot be read as text, or a directory. */
  datatype Node = File(content: string) | Unreadable | Dir

  /** Every entry has at least one component and every proper ancestor of an
      entry is a directory, as on any real filesystem. */
  predicate WellFormed(fs: map<Path, Node>)
  {
    && (forall p :: p in fs ==> p.parts != [])
    && (forall p, k {:trigger Ancestor(p, k), fs[p]} ::
          p in fs && 1 <= k < |p.parts| ==> Ancestor(p, k) in fs && fs[Ancestor(p, k)].Dir?)
  }

  type FileSystem = fs: map<Path, Node> | WellFormed(fs) witness map[]

  /** A path with no components (the root, or the empty relative path) always
      names an existing directory. For the empty relative path this differs
      from Rust, where `Path::new("").exists()` is false; the model never asks
      about that path. */
  predicate IsDir(fs: map<Path, Node>, p: Path)
  {
    p.parts == [] || (p in fs && fs[p].Dir?)
  }

  /** `Path::exists`. */
  predicate Exists(fs: map<Path, Node>, p: Path)
  {
    p.parts == [] || p in fs
  }

  /** `fs::read_to_string`. */
  function Read(fs: map<Path, Node>, p: Path): (r: Option<string>)
    ensures r.Some? <==> p in fs && fs[p].File?
    ensures r.Some? ==> fs[p] == File(r.value)
  {
    if p in fs && fs[p].File? then Some(fs[p].content) else None
  }

  /** `fs::write`: creates or truncates a file; fails when the parent is not a
      directory or the path is a directory. */
  function Write(fs: FileSystem, p: Path, content: string): (r: Option<FileSystem>)
    ensures r.Some? <==> p.parts != [] && IsDir(fs, Parent(p).value) && !(p in fs && fs[p].Dir?)
    ensures r.Some? ==> Read(r.value, p) == Some(content)
    ensures r.Some? ==> forall q :: q != p ==> (q in fs <==> q in r.value) && (q in fs ==> r.value[q] == fs[q])
  {
    if p.parts == [] || !IsDir(fs, Parent(p).value) || (p in fs && fs[p].Dir?) then None
    else
      AddEntryWellFormed(fs, p, File(content));
      Some(fs[p := File(content)])
  }

  /** Adding an entry below an existing directory, where no directory was,
      keeps the filesystem well formed. */
  lemma AddEntryWellFormed(fs: FileSystem, p: Path, node: Node)
    requires p.parts != [] && IsDir(fs, Parent(p).value) && !(p in fs && fs[p].Dir?)
    ensures WellFormed(fs[p := node])
  {
    var up := Parent(p).value;
    var fs' := fs[p := node];
    forall q, k | q in fs' && 1 <= k < |q.parts|
      ensures Ancestor(q, k) in fs' && fs'[Ancestor(q, k)].Dir?
    {
      if q == p {
        assert Ancestor(p, k) == Ancestor(up, k);
        if k < |up.parts| {
          assert fs[up].Dir?;
        }
      } else {
        assert fs[Ancestor(q, k)].Dir?;
      }
    }
  }

  /** Some ancestor of `p` (itself included) is in the way as a non-directory. */
  predicate Blocked(fs: map<Path, Node>, p: Path)
  {
    exists k :: 1 <= k <= |p.parts| && Ancestor(p, k) in fs && !fs[Ancestor(p, k)].Dir?
  }

  /** `fs::create_dir_all`: creates every missing directory on the way to `p`.
      A failure is modelled as creating nothing. */
  function CreateDirAll(fs: FileSystem, p: Path): (r: Option<FileSystem>)
    ensures r.None? <==> Blocked(fs, p)
    ensures r.Some? ==> Created(fs, r.value, p)
    decreases |p.parts|
  {
    if p.parts == [] then Some(fs)
    else if p in fs then
      ExistingEntry(fs, p);
      if fs[p].Dir? then Some(fs) else None
    else
      var up := Parent(p).value;
      match CreateDirAll(fs, up)
      case None =>
        BlockedBelow(fs, p);
        None
      case Some(fs') =>
        GrowDir(fs, fs', p);
        Some(fs'[p := Dir])
  }

  /** The last step of `CreateDirAll`: the missing directory `p` is added
      below its parent, created by the steps before. */
  lemma GrowDir(fs: FileSystem, fs': FileSystem, p: Path)
    requires p.parts != [] && p !in fs && !Blocked(fs, Parent(p).value)
    requires IsDir(fs', Parent(p).value) && Preserves(fs, fs') && OnlyDirsTo(fs, fs', Parent(p).value)
    ensures p !in fs' && WellFormed(fs'[p := Dir])
    ensures !Blocked(fs, p)
    ensures Created(fs, fs'[p := Dir], p)
  {
    NotBlockedBelow(fs, p);
    NewDirOnTheWay(fs, fs', p);
    AddEntryWellFormed(fs', p, Dir);
  }

  /** `fs'` is `fs` with the directory `p` and any missing directories on the
      way to it created. */
  ghost predicate Created(fs: map<Path, Node>, fs': map<Path, Node>, p: Path)
  {
    IsDir(fs', p) && Preserves(fs, fs') && OnlyDirsTo(fs, fs', p)
  }

  /** Every entry of `fs` is still in `fs'` with the same node. */
  ghost predicate Preserves(fs: map<Path, Node>, fs': map<Path, Node>)
  {
    forall q :: q in fs ==> q in fs' && fs'[q] == fs[q]
  }

  /** Every entry `fs'` adds to `fs` is a directory on the way to `p`. */
  ghost predicate OnlyDirsTo(fs: map<Path, Node>, fs': map<Path, Node>, p: Path)
  {
    forall q :: q in fs' && q !in fs ==> fs'[q] == Dir && StartsWith(p, q) && q.parts != []
  }

  lemma ExistingEntry(fs: FileSystem, p: Path)
    requires p in fs
    ensures Blocked(fs, p) <==> !fs[p].Dir?
  {
    assert Ancestor(p, |p.parts|) == p;
  }

  lemma BlockedBelow(fs: map<Path, Node>, p: Path)
    requires p.parts != [] && Blocked(fs, Parent(p).value)
    ensures Blocked(fs, p)
  {
    var up := Parent(p).value;
    var k :| 1 <= k <= |up.parts| && Ancestor(up, k) in fs && !fs[Ancestor(up, k)].Dir?;
    assert Ancestor(p, k) == Ancestor(up, k);
  }

  lemma NotBlockedBelow(fs: map<Path, Node>, p: Path)
    requires p.parts != [] && p !in fs && !Blocked(fs, Parent(p).value)
    ensures !Blocked(fs, p)
  {
    var up := Parent(p).value;
    assert Ancestor(p, |p.parts|) == p;
    forall k | 1 <= k <= |p.parts| && Ancestor(p, k) in fs
      ensures fs[Ancestor(p, k)].Dir?
    {
      if k < |p.parts| {
        assert Ancestor(p, k) == Ancestor(up, k);
      }
    }
  }

  lemma NewDirOnTheWay(fs: map<Path, Node>, fs': map<Path, Node>, p: Path)
    requires p.parts != [] && p !in fs
    requires OnlyDirsTo(fs, fs', Parent(p).value)
    ensures p !in fs'
    ensures OnlyDirsTo(fs, fs'[p := Dir], p)
  {
    var up := Parent(p).value;
    assert forall q :: q in fs' && q !in fs ==> |q.parts| < |p.parts|;
    forall q | q in fs'[p := Dir] && q !in fs
      ensures fs'[p := Dir][q] == Dir && StartsWith(p, q) && q.parts != []
    {
      if q != p {
        assert StartsWith(up, q);
        assert p.parts[..|up.parts|] == up.parts;
        assert p.parts[..|q.parts|] == up.parts[..|q.parts|];
      }
    }
  }

}
