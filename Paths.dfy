/**
 * The parts of pathlib the scripts rely on, over resolved POSIX path strings:
 * the suffix and stem of a final component, with_suffix, with_stem, joining
 * a directory and a name, and relative_to as prefix stripping.
 */
module Paths {
  import opened Base

  /** The last index below n at which s holds c, or -1. */
  function LastIndexBelow(s: string, c: char, n: nat): (i: int)
    requires n <= |s|
    ensures -1 <= i < n
  {
    if n == 0 then -1
    else if s[n - 1] == c then n - 1
    else LastIndexBelow(s, c, n - 1)
  }

  /** The index found holds c, and no later index below n does. */
  lemma {:induction false} LastIndexBelowIsLast(s: string, c: char, n: nat)
    requires n <= |s|
    ensures var i := LastIndexBelow(s, c, n);
      (i >= 0 ==> s[i] == c) && forall k :: i < k < n ==> s[k] != c
    decreases n
  {
    if n > 0 && s[n - 1] != c {
      LastIndexBelowIsLast(s, c, n - 1);
    }
  }

  /** Python's s.rfind(c): the last index of c in s, or -1. */
  function RFind(s: string, c: char): (i: int)
    ensures -1 <= i < |s|
  {
    LastIndexBelow(s, c, |s|)
  }

  /** rfind finds c, and c does not occur after it. */
  lemma RFindIsLast(s: string, c: char)
    ensures var i := RFind(s, c);
      (i >= 0 ==> s[i] == c) && forall k :: i < k < |s| ==> s[k] != c
  {
    LastIndexBelowIsLast(s, c, |s|);
  }

  /**
   * PurePath.suffix of a final component: from its last '.', unless that dot
   * is the first or the last character.
   */
  function Suffix(name: string): string {
    var i := RFind(name, '.');
    if 0 < i < |name| - 1 then name[i..] else []
  }

  /** PurePath.stem of a final component: the name without its suffix. */
  function Stem(name: string): string {
    var i := RFind(name, '.');
    if 0 < i < |name| - 1 then name[..i] else name
  }

  /** The stem followed by the suffix gives the name back. */
  lemma StemSuffix(name: string)
    ensures Stem(name) + Suffix(name) == name
  {
    var i := RFind(name, '.');
    if 0 < i < |name| - 1 {
      assert name[..i] + name[i..] == name;
    }
  }

  /** PurePath.with_suffix on a final component. */
  function WithSuffix(name: string, suffix: string): string {
    Stem(name) + suffix
  }

  /** PurePath.with_stem on a final component: the new stem keeps the old suffix. */
  function WithStem(name: string, stem: string): string {
    stem + Suffix(name)
  }

  /** A suffix as pathlib recognises one: a dot followed by dot-free text. */
  predicate IsSuffix(ext: string) {
    |ext| >= 2 && ext[0] == '.' && '.' !in ext[1..]
  }

  /** A non-empty stem followed by a suffix splits back into the two. */
  lemma StemSuffixOf(stem: string, ext: string)
    requires |stem| > 0 && IsSuffix(ext)
    ensures Suffix(stem + ext) == ext
    ensures Stem(stem + ext) == stem
  {
    var s := stem + ext;
    var i := RFind(s, '.');
    RFindIsLast(s, '.');
    assert s[|stem|] == '.';
    assert i == |stem|;
    assert s[i..] == ext;
  }

  /** A name whose suffix is not empty has a suffix pathlib recognises. */
  lemma SuffixShape(name: string)
    ensures Suffix(name) == [] || IsSuffix(Suffix(name))
  {
    var i := RFind(name, '.');
    RFindIsLast(name, '.');
    if 0 < i < |name| - 1 {
      assert forall k :: 1 <= k < |name[i..]| ==> name[i..][k] == name[i + k];
    }
  }

  /** The path of `name` inside the directory `dir`. */
  function Join(dir: string, name: string): string {
    dir + "/" + name
  }

  /** The text of a path up to and including its last '/'. */
  function DirPart(path: string): string {
    path[..RFind(path, '/') + 1]
  }

  /** The final component of a path. */
  function Name(path: string): string {
    path[RFind(path, '/') + 1..]
  }

  /** A path is its directory part followed by a final component free of '/'. */
  lemma NameSplit(path: string)
    ensures DirPart(path) + Name(path) == path
    ensures '/' !in Name(path)
  {
    var i := RFind(path, '/');
    RFindIsLast(path, '/');
    assert path[..i + 1] + path[i + 1..] == path;
    var name := path[i + 1..];
    forall k | 0 <= k < |name| ensures name[k] != '/' {
      assert name[k] == path[i + 1 + k];
    }
  }

  /** The final component of `dir/name` is `name`. */
  lemma NameOfJoin(dir: string, name: string)
    requires '/' !in name
    ensures Name(Join(dir, name)) == name
  {
    var path := Join(dir, name);
    RFindIsLast(path, '/');
    assert path[|dir|] == '/';
    assert forall k :: |dir| < k < |path| ==> path[k] == name[k - |dir| - 1];
    assert RFind(path, '/') == |dir|;
  }

  /** The final component of a path, collected from its end back to the last '/'. */
  function BaseName(path: string): string
    decreases |path|
  {
    if |path| == 0 || path[|path| - 1] == '/' then [] else BaseName(path[..|path| - 1]) + [path[|path| - 1]]
  }

  /** The last index below m depends only on the first m characters. */
  lemma {:induction false} LastIndexBelowPrefix(s: string, t: string, c: char, m: nat)
    requires m <= |s| && m <= |t| && forall k :: 0 <= k < m ==> s[k] == t[k]
    ensures LastIndexBelow(s, c, m) == LastIndexBelow(t, c, m)
    decreases m
  {
    if m > 0 {
      LastIndexBelowPrefix(s, t, c, m - 1);
    }
  }

  /** Collecting the final component from the end agrees with cutting the path after its last '/'. */
  lemma {:induction false} BaseNameIsName(path: string)
    ensures BaseName(path) == Name(path)
    decreases |path|
  {
    var n := |path|;
    if n > 0 && path[n - 1] != '/' {
      var prefix := path[..n - 1];
      BaseNameIsName(prefix);
      LastIndexBelowPrefix(path, prefix, '/', n - 1);
      var r := RFind(path, '/');
      assert r == RFind(prefix, '/');
      assert path == prefix + [path[n - 1]];
      assert path[r + 1..] == prefix[r + 1..] + [path[n - 1]];
    }
  }

  /** PurePath.stem of a whole path: the stem of its final component. */
  function PathStem(path: string): string {
    Stem(BaseName(path))
  }

  /** The stem of `dir/name` is the stem of `name`. */
  lemma PathStemOfJoin(dir: string, name: string)
    requires '/' !in name
    ensures PathStem(Join(dir, name)) == Stem(name)
  {
    BaseNameIsName(Join(dir, name));
    NameOfJoin(dir, name);
  }

  /** The stem of a path is free of '/' and starts its final component. */
  lemma PathStemShape(path: string)
    ensures PathStem(path) <= Name(path) && '/' !in PathStem(path)
  {
    BaseNameIsName(path);
    NameSplit(path);
    var name := Name(path);
    var stem := Stem(name);
    assert stem <= name;
    forall k | 0 <= k < |stem| ensures stem[k] != '/' {
      assert stem[k] == name[k];
    }
  }

  /** PurePath.with_suffix on a relative path: only the final component changes. */
  function PathWithSuffix(path: string, suffix: string): string {
    DirPart(path) + WithSuffix(Name(path), suffix)
  }

  /** with_suffix on `dir/name` changes only the name. */
  lemma PathWithSuffixOfJoin(dir: string, name: string, suffix: string)
    requires '/' !in name
    ensures PathWithSuffix(Join(dir, name), suffix) == Join(dir, WithSuffix(name, suffix))
  {
    var path := Join(dir, name);
    NameOfJoin(dir, name);
    NameSplit(path);
    assert DirPart(path) == path[..|path| - |name|] == dir + "/";
  }

  /**
   * PurePath.relative_to on resolved paths: the part of `path` below `root`,
   * or the ValueError pathlib raises when `path` is not below it.
   */
  function RelativeTo(path: string, root: string): Result<string, Error> {
    if root + "/" <= path && |path| > |root| + 1 then Success(path[|root| + 1..])
    else Failure(NotRelative(path, root))
  }

  /**
   * relative_to succeeds exactly for a path strictly below the root, and the
   * root joined with the result gives the path back; otherwise the error
   * names both.
   */
  lemma RelativeToMeaning(path: string, root: string)
    ensures var r := RelativeTo(path, root);
      (r.Success? <==> root + "/" <= path && |path| > |root| + 1)
      && (r.Success? ==> Join(root, r.value) == path && |r.value| > 0)
      && (r.Failure? ==> r.error == NotRelative(path, root))
  {
    if root + "/" <= path && |path| > |root| + 1 {
      assert path == path[..|root| + 1] + path[|root| + 1..];
    }
  }
}
