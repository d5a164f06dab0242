/**
 * `System.IO.Path.GetDirectoryName`, `GetFileName` and `GetExtension` as .NET
 * computes them on Unix, where `/` is the only directory separator and a
 * leading `/` is the root. Unlike .NET, `DirectoryName` does not collapse
 * repeated separators inside its result: "a//b/c" gives "a//b", not "a/b".
 */
module Paths {
  import opened Wrappers
  import opened Text

  const Separator: char := '/'

  /** The last position of `c` in `s`, or -1. */
  function LastIndexOf(s: string, c: char): (i: int)
    ensures -1 <= i < |s|
    ensures 0 <= i ==> s[i] == c
    ensures forall j :: i < j < |s| ==> s[j] != c
    decreases |s|
  {
    if |s| == 0 then -1
    else if s[|s| - 1] == c then |s| - 1
    else LastIndexOf(s[..|s| - 1], c)
  }

  /** `Path.GetFileName`: the text after the last separator. */
  function FileName(path: string): (f: string)
    ensures |f| <= |path| && path[|path| - |f|..] == f
    ensures Separator !in f
    ensures |f| < |path| ==> path[|path| - |f| - 1] == Separator
  {
    path[LastIndexOf(path, Separator) + 1..]
  }

  /**
   * `Path.GetExtension`: the file name from its last `.` on, or "" when the
   * file name has no `.` or ends with it.
   */
  function Extension(path: string): (x: string)
    ensures x != "" ==> |x| >= 2 && x[0] == '.' && '.' !in x[1..]
    ensures x != "" ==> EndsWith(FileName(path), x)
    ensures x == "" <==> ('.' !in FileName(path) || FileName(path)[|FileName(path)| - 1] == '.')
  {
    var name := FileName(path);
    var dot := LastIndexOf(name, '.');
    if dot < 0 || dot == |name| - 1 then ""
    else
      assert name[dot..][1..] == name[dot + 1..];
      name[dot..]
  }

  /** The extension depends on the file name only. */
  lemma ExtensionOfFileName(p: string, q: string)
    requires FileName(p) == FileName(q)
    ensures Extension(p) == Extension(q)
  {
  }

  /** The separators just before `end` (but not the root) are trimmed. */
  function TrimSeparators(path: string, root: nat, end: nat): (e: nat)
    requires root <= end <= |path|
    ensures root <= e <= end
    ensures e == root || path[e - 1] != Separator
    ensures forall j :: e <= j < end ==> path[j] == Separator
    decreases end
  {
    if end > root && path[end - 1] == Separator then TrimSeparators(path, root, end - 1) else end
  }

  /** The length of the root: 1 for an absolute path, 0 otherwise. */
  function RootLength(path: string): nat {
    if |path| > 0 && path[0] == Separator then 1 else 0
  }

  /**
   * `Path.GetDirectoryName`: `None` (C# `null`) for "" and for the bare root;
   * otherwise the text before the last separator, with the separators that
   * end it trimmed (keeping the root), or just the root when no separator
   * follows it; `DirectoryNameCharacterisation` states this. Repeated
   * separators inside the result are kept.
   */
  function DirectoryName(path: string): (d: Option<string>)
    ensures d.None? <==> path == "" || path == [Separator]
    ensures d.Some? ==> |d.value| <= |path| && path[..|d.value|] == d.value
  {
    var root := RootLength(path);
    if |path| <= root then None
    else
      var k := LastIndexOf(path[root..], Separator);
      var end := if k < 0 then root else root + k;
      Some(path[..TrimSeparators(path, root, end)])
  }

  /**
   * Which prefix `DirectoryName` is: just the root when no separator follows
   * it; otherwise the text before the last separator, cut back over the
   * separators that end it but not into the root.
   */
  lemma DirectoryNameCharacterisation(path: string)
    requires DirectoryName(path).Some?
    ensures var d := DirectoryName(path).value;
      && (LastIndexOf(path, Separator) < RootLength(path) ==> d == path[..RootLength(path)])
      && (LastIndexOf(path, Separator) >= RootLength(path) ==>
            && RootLength(path) <= |d| <= LastIndexOf(path, Separator)
            && (|d| == RootLength(path) || path[|d| - 1] != Separator)
            && forall j :: |d| <= j < LastIndexOf(path, Separator) ==> path[j] == Separator)
  {
    DirectoryNameCut(path);
    var root, end := RootLength(path), LastSeparatorOrRoot(path);
    var e := TrimSeparators(path, root, end);
    var d := DirectoryName(path).value;
    assert d == path[..e] && |d| == e;
    if LastIndexOf(path, Separator) < root {
      assert e == root;
    } else {
      assert forall j :: |d| <= j < end ==> path[j] == Separator;
    }
  }

  /** The end `DirectoryName` trims back from: the last separator, or the root when none follows it. */
  function LastSeparatorOrRoot(path: string): (end: nat)
    ensures RootLength(path) <= end <= |path|
    ensures LastIndexOf(path, Separator) < RootLength(path) ==> end == RootLength(path)
    ensures LastIndexOf(path, Separator) >= RootLength(path) ==> end == LastIndexOf(path, Separator)
  {
    if LastIndexOf(path, Separator) < RootLength(path) then RootLength(path) else LastIndexOf(path, Separator)
  }

  /** `DirectoryName` cuts the path where `TrimSeparators` stops, starting from `LastSeparatorOrRoot`. */
  lemma DirectoryNameCut(path: string)
    requires DirectoryName(path).Some?
    ensures DirectoryName(path).value == path[..TrimSeparators(path, RootLength(path), LastSeparatorOrRoot(path))]
  {
    LastIndexOfSuffix(path, RootLength(path), Separator);
  }

  /** Searching from `root` on finds the last occurrence, when it lies there. */
  lemma LastIndexOfSuffix(s: string, root: nat, c: char)
    requires root <= |s|
    ensures LastIndexOf(s[root..], c) < 0 <==> LastIndexOf(s, c) < root
    ensures LastIndexOf(s[root..], c) >= 0 ==> LastIndexOf(s, c) == root + LastIndexOf(s[root..], c)
  {
    assert forall j :: root <= j < |s| ==> s[root..][j - root] == s[j];
  }

  /** A one-level entry name: the directory is what precedes the separator, the file name what follows. */
  lemma EntryInDirectory(dir: string, name: string)
    requires dir != "" && Separator !in dir && Separator !in name
    ensures DirectoryName(dir + [Separator] + name) == Some(dir)
    ensures FileName(dir + [Separator] + name) == name
  {
    var path := dir + [Separator] + name;
    assert path[0] == dir[0];
    assert path[|dir|] == Separator;
    var k := LastIndexOf(path, Separator);
    assert k == |dir| by {
      forall j | |dir| < j < |path| ensures path[j] != Separator {
        assert path[j] == name[j - |dir| - 1];
      }
      assert k >= |dir|;
    }
    assert path[k + 1..] == name;
    assert path[..|dir|] == dir;
    assert LastIndexOf(path[0..], Separator) == k by { assert path[0..] == path; }
    assert TrimSeparators(path, 0, |dir|) == |dir| by {
      assert path[|dir| - 1] == dir[|dir| - 1];
    }
  }

  /** A two-level entry name: the directory part keeps the inner separator. */
  lemma EntryInSubdirectory(dir: string, sub: string, name: string)
    requires dir != "" && Separator !in dir && sub != "" && Separator !in sub && Separator !in name
    ensures DirectoryName(dir + [Separator] + sub + [Separator] + name) == Some(dir + [Separator] + sub)
  {
    var inner := dir + [Separator] + sub;
    var path := inner + [Separator] + name;
    assert path[0] == dir[0];
    assert path[|inner|] == Separator;
    var k := LastIndexOf(path, Separator);
    assert k == |inner| by {
      forall j | |inner| < j < |path| ensures path[j] != Separator {
        assert path[j] == name[j - |inner| - 1];
      }
      assert k >= |inner|;
    }
    assert path[..|inner|] == inner;
    assert LastIndexOf(path[0..], Separator) == k by { assert path[0..] == path; }
    assert TrimSeparators(path, 0, |inner|) == |inner| by {
      assert path[|inner| - 1] == sub[|sub| - 1];
    }
  }
}
