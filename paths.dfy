/**
 * File-system paths as `pathlib` sees them: a sequence of non-empty
 * components, the root `/` first in an absolute one, with the file name,
 * suffix and stem of the last one, and the local file system as a map
 * from paths to file contents.
 */
module Paths {
  import opened Strings
  import opened Wrappers

  type byte = b: int | 0 <= b < 256

  /** `Path(...).parts`: an absolute path has the root `/` as its first component. */
  type Path = seq<string>

  /** File contents by path; a path that is not a key does not exist. */
  type FileSystem = map<Path, seq<byte>>

  /** The component `pathlib` puts first in the parts of an absolute path. */
  const Root := "/"

  /** A string `pathlib` reads as an absolute path. */
  predicate IsAbsolute(s: string)
  {
    s != [] && s[0] == '/'
  }

  /** A path whose first component is the root. */
  predicate Rooted(p: Path)
  {
    p != [] && p[0] == Root
  }

  /** Components as `Parts` makes them: none empty or `.`, and only a leading root holds a `/`. */
  predicate WellFormed(p: Path)
  {
    forall i :: 0 <= i < |p| ==> p[i] != "" && p[i] != "." && ('/' in p[i] ==> i == 0 && p[i] == Root)
  }

  /**
   * The components `pathlib` makes of a string: the root for a leading
   * `/`, then the text split at `/` with empty and `.` parts dropped.
   */
  function Parts(s: string): (r: Path)
    ensures WellFormed(r)
    ensures Rooted(r) <==> IsAbsolute(s)
    ensures !IsAbsolute(s) ==> forall i :: 0 <= i < |r| ==> '/' !in r[i]
  {
    JoinSplit(s, '/');
    (if IsAbsolute(s) then [Root] else []) + DropEmpty(Split(s, '/'))
  }

  function DropEmpty(ps: seq<string>): (r: Path)
    requires forall i :: 0 <= i < |ps| ==> '/' !in ps[i]
    ensures forall i :: 0 <= i < |r| ==> r[i] != "" && r[i] != "." && '/' !in r[i]
    ensures |r| <= |ps|
  {
    if ps == [] then []
    else if ps[0] == "" || ps[0] == "." then DropEmpty(ps[1..])
    else [ps[0]] + DropEmpty(ps[1..])
  }

  /** Dropping empty components distributes over concatenation. */
  lemma {:induction false} DropEmptyAppend(a: seq<string>, b: seq<string>)
    requires forall i :: 0 <= i < |a| ==> '/' !in a[i]
    requires forall i :: 0 <= i < |b| ==> '/' !in b[i]
    ensures DropEmpty(a + b) == DropEmpty(a) + DropEmpty(b)
    decreases |a|
  {
    if a == [] {
      assert a + b == b;
    } else {
      assert (a + b)[0] == a[0] && (a + b)[1..] == a[1..] + b;
      DropEmptyAppend(a[1..], b);
    }
  }

  /** A name without `/` that is neither empty nor `.` is a single path component. */
  lemma PartsOfName(s: string)
    requires '/' !in s && s != "" && s != "."
    ensures Parts(s) == [s]
  {
    SplitNoSeparator(s, '/');
  }

  /** Joining a non-empty string and a relative one with a `/` concatenates their components. */
  lemma PartsSlash(a: string, b: string)
    requires a != "" && !IsAbsolute(b)
    ensures Parts(a + "/" + b) == Parts(a) + Parts(b)
  {
    SplitAppend(a, '/', b);
    JoinSplit(a, '/');
    JoinSplit(b, '/');
    assert a + "/" + b == a + ['/'] + b;
    assert (a + "/" + b)[0] == a[0];
    DropEmptyAppend(Split(a, '/'), Split(b, '/'));
  }

  /** A `/` before a relative string makes it absolute, with the same components after the root. */
  lemma PartsRootSlash(b: string)
    requires !IsAbsolute(b)
    ensures Parts("/" + b) == [Root] + Parts(b)
  {
    SplitAppend("", '/', b);
    JoinSplit(b, '/');
    assert "" + "/" + b == "/" + b;
    assert Split("", '/') == [""];
    DropEmptyAppend([""], Split(b, '/'));
  }

  /** A trailing `/` adds no component to a non-empty string. */
  lemma PartsTrailingSlash(a: string)
    requires a != ""
    ensures Parts(a + "/") == Parts(a)
  {
    PartsSlash(a, "");
    assert a + "/" + "" == a + "/";
    assert Split("", '/') == [""];
  }

  /** The empty string has no components. */
  lemma PartsEmpty()
    ensures Parts("") == []
  {
    assert Split("", '/') == [""];
  }

  /** `p / q`: a rooted `q` discards `p`, any other is appended to it. */
  function JoinPath(p: Path, q: Path): Path
  {
    if Rooted(q) then q else p + q
  }

  /** `p / s` */
  function Child(p: Path, s: string): Path
  {
    JoinPath(p, Parts(s))
  }

  /**
   * A child path starts with its parent and goes on with the components
   * of the relative name; an absolute name discards the parent.
   */
  lemma ChildExtends(p: Path, s: string)
    ensures !IsAbsolute(s) ==> Child(p, s) == p + Parts(s) && |Child(p, s)| >= |p| && Child(p, s)[..|p|] == p
    ensures IsAbsolute(s) ==> Child(p, s) == Parts(s)
  {
  }

  /** `p / s1 / s2 / ...` */
  function ChildAll(p: Path, ss: seq<string>): Path
  {
    if ss == [] then p else Child(ChildAll(p, ss[..|ss| - 1]), ss[|ss| - 1])
  }

  /** The components of all of `parts`, one after another. */
  function PartsAll(parts: seq<string>): Path
  {
    if parts == [] then [] else PartsAll(parts[..|parts| - 1]) + Parts(parts[|parts| - 1])
  }

  /** Relative names add their components after the base path. */
  lemma {:induction false} ChildAllRelative(p: Path, ss: seq<string>)
    requires forall i :: 0 <= i < |ss| ==> !IsAbsolute(ss[i])
    ensures ChildAll(p, ss) == p + PartsAll(ss)
    decreases |ss|
  {
    if ss != [] {
      var init := ss[..|ss| - 1];
      ChildAllRelative(p, init);
      AppendAssoc(p, PartsAll(init), Parts(ss[|ss| - 1]));
    }
  }

  /** An absolute name discards the base path and every name before it. */
  lemma {:induction false} ChildAllRestarts(p: Path, q: Path, ss: seq<string>, j: nat)
    requires j < |ss| && IsAbsolute(ss[j])
    ensures ChildAll(p, ss) == ChildAll(q, ss[j..])
    decreases |ss|
  {
    var init := ss[..|ss| - 1];
    if j == |ss| - 1 {
      assert ss[j..] == [ss[j]] && ss[j..][..0] == [];
    } else {
      ChildAllRestarts(p, q, init, j);
      assert init[j..] == ss[j..][..|ss[j..]| - 1];
    }
  }

  /** `p.parent`; the root and the empty path are their own parents. */
  function Parent(p: Path): Path
  {
    if p == [] || p == [Root] then p else p[..|p| - 1]
  }

  /** `p.name`; the root and the empty path have the empty name. */
  function Name(p: Path): string
  {
    if p == [] || p[|p| - 1] == Root then "" else p[|p| - 1]
  }

  /** Python's `s.rfind(c)`: the last index of `c`, or -1. */
  function RFind(s: string, c: char): (r: int)
    ensures -1 <= r < |s|
    ensures r >= 0 ==> s[r] == c
    ensures forall j :: r < j < |s| ==> s[j] != c
  {
    if s == [] then -1
    else if s[|s| - 1] == c then |s| - 1
    else RFind(s[..|s| - 1], c)
  }

  /** A name has a suffix when its last dot is neither its first nor its last character. */
  predicate HasSuffix(name: string)
  {
    var i := RFind(name, '.');
    0 < i < |name| - 1
  }

  /** `PurePath.suffix` of a file name: from the last dot on, or empty. */
  function Suffix(name: string): (r: string)
    ensures HasSuffix(name) ==> r == name[RFind(name, '.')..] && |r| >= 2 && r[0] == '.'
    ensures !HasSuffix(name) ==> r == ""
    ensures |r| > 0 ==> '.' !in r[1..]
  {
    if HasSuffix(name) then name[RFind(name, '.')..] else ""
  }

  /** `PurePath.stem` of a file name. */
  function Stem(name: string): (r: string)
    ensures r + Suffix(name) == name
  {
    if HasSuffix(name) then name[..RFind(name, '.')] else name
  }

  /** `p.with_suffix(suffix)`: the stem of the last component followed by `suffix` (a path with an empty name has none). */
  function WithSuffix(p: Path, suffix: string): (r: Path)
    requires Name(p) != ""
    ensures |r| == |p| && r[..|p| - 1] == p[..|p| - 1]
    ensures r[|p| - 1] == Stem(Name(p)) + suffix
  {
    p[..|p| - 1] + [Stem(Name(p)) + suffix]
  }

  /** The `.tmp` sibling a download is written to before it is renamed. */
  function TempPath(p: Path): Path
    requires Name(p) != ""
  {
    WithSuffix(p, ".tmp")
  }

  /** The temp sibling of a file whose suffix is not `.tmp` is a different path. */
  lemma TempPathDiffers(p: Path)
    requires Name(p) != "" && Suffix(Name(p)) != ".tmp"
    ensures TempPath(p) != p
  {
    var name := Name(p);
    var t := Stem(name) + ".tmp";
    assert TempPath(p)[|p| - 1] == t;
    assert Name(p) == p[|p| - 1];
  }

  /** `f.write` of a whole file: `open(p, 'wb')` truncates, then the data is written. */
  function Write(fs: FileSystem, p: Path, data: seq<byte>): FileSystem
  {
    fs[p := data]
  }

  /** `p.unlink()`; removing a path that does not exist changes nothing here. */
  function Unlink(fs: FileSystem, p: Path): FileSystem
  {
    fs - {p}
  }

  /** `src.rename(dst)`: the contents move and the source disappears. */
  function Rename(fs: FileSystem, src: Path, dst: Path): (r: FileSystem)
    requires src in fs
    ensures dst in r && r[dst] == fs[src]
    ensures src != dst ==> src !in r
    ensures forall q :: q != src && q != dst ==> Lookup(r, q) == Lookup(fs, q)
  {
    (fs - {src})[dst := fs[src]]
  }

  /** The file at a path, if there is one. */
  function Lookup(fs: FileSystem, p: Path): Option<seq<byte>>
  {
    if p in fs then Some(fs[p]) else None
  }

  /** Every path outside `keep` is the same in both file systems. */
  ghost predicate SameExcept(fs: FileSystem, fs': FileSystem, keep: set<Path>)
  {
    forall q :: q !in keep ==> Lookup(fs', q) == Lookup(fs, q)
  }
}
