/** File paths for a check: rebased from the repository root to the check's working
    directory, so that each resolves to the same file. */
module Fileset {
  import opened Wrappers
  import opened Text
  import opened ShellWords

  // ------------------------------------------------------------- resolving a path

  /** Enter one component from a directory. */
  function Enter(dir: seq<string>, part: string): seq<string> {
    if part == "" || part == "." then dir
    else if part == ".." then (if dir == [] then [] else dir[..|dir| - 1])
    else dir + [part]
  }

  /** Where a relative path leads, component by component. */
  function Walk(dir: seq<string>, parts: seq<string>): seq<string>
    decreases |parts|
  {
    if parts == [] then dir else Walk(Enter(dir, parts[0]), parts[1..])
  }

  function ResolvePath(dir: seq<string>, path: string): seq<string> {
    Walk(dir, Split(path, '/'))
  }

  lemma {:induction false} WalkConcat(dir: seq<string>, a: seq<string>, b: seq<string>)
    ensures Walk(dir, a + b) == Walk(Walk(dir, a), b)
    decreases |a|
  {
    if a == [] {
      assert a + b == b;
    } else {
      assert (a + b)[1..] == a[1..] + b;
      WalkConcat(Enter(dir, a[0]), a[1..], b);
    }
  }

  // -------------------------------------------------------------------- components

  function Kept(parts: seq<string>): (kept: seq<string>)
    ensures forall k :: 0 <= k < |kept| ==> kept[k] in parts && kept[k] != "" && kept[k] != "."
  {
    if parts == [] then []
    else (if parts[0] == "" || parts[0] == "." then [] else [parts[0]]) + Kept(parts[1..])
  }

  function Parts(path: string): seq<string> {
    Kept(Split(path, '/'))
  }

  lemma {:induction false} WalkKept(dir: seq<string>, parts: seq<string>)
    ensures Walk(dir, Kept(parts)) == Walk(dir, parts)
    decreases |parts|
  {
    if parts != [] {
      WalkKept(Enter(dir, parts[0]), parts[1..]);
      if parts[0] == "" || parts[0] == "." {
        assert Kept(parts) == Kept(parts[1..]);
      } else {
        assert Kept(parts) == [parts[0]] + Kept(parts[1..]);
      }
    }
  }

  /** Only plain names: nothing empty, no dot and no dot-dot. */
  predicate Names(parts: seq<string>) {
    forall k :: 0 <= k < |parts| ==> parts[k] != "" && parts[k] != "." && parts[k] != ".."
  }

  lemma {:induction false} WalkNames(dir: seq<string>, parts: seq<string>)
    requires Names(parts)
    ensures Walk(dir, parts) == dir + parts
    decreases |parts|
  {
    if parts == [] {
      assert dir + parts == dir;
    } else {
      WalkNames(dir + [parts[0]], parts[1..]);
      assert dir + [parts[0]] + parts[1..] == dir + parts;
    }
  }

  function Ups(n: nat): seq<string> {
    seq(n, k => "..")
  }

  lemma {:induction false} WalkUps(dir: seq<string>, n: nat)
    ensures Walk(dir, Ups(n)) == if n <= |dir| then dir[..|dir| - n] else []
    decreases n
  {
    if n > 0 {
      assert Ups(n)[1..] == Ups(n - 1);
      WalkUps(Enter(dir, ".."), n - 1);
    } else {
      assert dir[..|dir|] == dir;
    }
  }

  // ---------------------------------------------------------------------- rebasing

  /** The length of the common prefix, once `k` components are known to agree. */
  function CommonFrom(a: seq<string>, b: seq<string>, k: nat): (n: nat)
    requires k <= |a| && k <= |b| && a[..k] == b[..k]
    ensures k <= n <= |a| && n <= |b| && a[..n] == b[..n]
    ensures n == |a| || n == |b| || a[n] != b[n]
    decreases |a| - k
  {
    if k < |a| && k < |b| && a[k] == b[k] then
      assert a[..k + 1] == a[..k] + [a[k]] && b[..k + 1] == b[..k] + [b[k]];
      CommonFrom(a, b, k + 1)
    else k
  }

  function CommonLength(a: seq<string>, b: seq<string>): (n: nat)
    ensures n <= |a| && n <= |b| && a[..n] == b[..n]
    ensures n == |a| || n == |b| || a[n] != b[n]
  {
    CommonFrom(a, b, 0)
  }

  lemma CommonIsUnique(a: seq<string>, b: seq<string>, n: nat)
    requires n <= |a| && n <= |b| && a[..n] == b[..n] && (n == |a| || n == |b| || a[n] != b[n])
    ensures n == CommonLength(a, b)
  {
    var m := CommonLength(a, b);
    assert forall k :: 0 <= k < m ==> a[..m][k] == b[..m][k];
    assert forall k :: 0 <= k < n ==> a[..n][k] == b[..n][k];
  }

  function TrimSlashes(s: string): string
    decreases |s|
  {
    if s != [] && s[0] == '/' then TrimSlashes(s[1..])
    else if s != [] && s[|s| - 1] == '/' then TrimSlashes(s[..|s| - 1])
    else s
  }

  function Rebased(cwd: seq<string>, path: seq<string>): seq<string> {
    var n := CommonLength(cwd, path);
    Ups(|cwd| - n) + path[n..]
  }

  function PathText(parts: seq<string>): string {
    if parts == [] then "." else Join(parts, "/")
  }

  function RebasedPath(cwd: string, path: string): string {
    PathText(Rebased(Parts(cwd), Parts(TrimSlashes(Trim(path)))))
  }

  /** The rebasing loop. */
  method RebaseParts(cwdParts: seq<string>, pathParts: seq<string>) returns (out: seq<string>)
    ensures out == Rebased(cwdParts, pathParts)
  {
    var common := 0;
    while common < |cwdParts| && common < |pathParts| && cwdParts[common] == pathParts[common]
      invariant common <= |cwdParts| && common <= |pathParts|
      invariant cwdParts[..common] == pathParts[..common]
    {
      common := common + 1;
    }
    CommonIsUnique(cwdParts, pathParts, common);
    out := [];
    for k := 0 to |cwdParts| - common
      invariant out == Ups(k)
    {
      out := out + [".."];
    }
    out := out + pathParts[common..];
  }

  method RebasePathForCwd(cwd: string, path: string) returns (r: string)
    ensures r == RebasedPath(cwd, path)
  {
    var out := RebaseParts(Parts(cwd), Parts(TrimSlashes(Trim(path))));
    return PathText(out);
  }

  // ------------------------------------------------------------- printing components

  lemma {:induction false} SplitPieces(s: string, c: char)
    ensures forall k :: 0 <= k < |Split(s, c)| ==> Without(Split(s, c)[k], c)
    decreases |s|
  {
    var at := IndexOf(s, c);
    if at.Some? {
      SplitPieces(s[at.value + 1..], c);
    }
  }

  lemma {:induction false} SplitJoin(parts: seq<string>)
    requires parts != [] && forall k :: 0 <= k < |parts| ==> Without(parts[k], '/')
    ensures Split(Join(parts, "/"), '/') == parts
  {
    if |parts| == 1 {
      SplitWhole(parts[0], '/');
    } else {
      SplitAfter(parts[0], '/', Join(parts[1..], "/"));
      SplitJoin(parts[1..]);
      assert parts == [parts[0]] + parts[1..];
    }
  }

  predicate NoSlashes(parts: seq<string>) {
    forall k :: 0 <= k < |parts| ==> Without(parts[k], '/')
  }

  lemma PartsHaveNoSlashes(path: string)
    ensures NoSlashes(Parts(path))
  {
    SplitPieces(path, '/');
  }

  lemma RebasedHasNoSlashes(cwd: seq<string>, path: seq<string>)
    requires NoSlashes(path)
    ensures NoSlashes(Rebased(cwd, path))
  {
    assert Without("..", '/');
  }

  lemma PathTextResolves(dir: seq<string>, parts: seq<string>)
    requires NoSlashes(parts)
    ensures ResolvePath(dir, PathText(parts)) == Walk(dir, parts)
  {
    if parts == [] {
      SplitWhole(".", '/');
      assert Walk(dir, ["."][1..]) == dir;
    } else {
      SplitJoin(parts);
    }
  }

  // ------------------------------------------------------------------ the same file

  lemma UpsBack(base: seq<string>, tail: seq<string>, rest: seq<string>)
    ensures Walk(base + tail, Ups(|tail|) + rest) == Walk(base, rest)
  {
    WalkUps(base + tail, |tail|);
    assert (base + tail)[..|base|] == base;
    WalkConcat(base + tail, Ups(|tail|), rest);
  }

  lemma WalkInto(root: seq<string>, first: seq<string>, path: seq<string>)
    requires Names(first) && |first| <= |path| && path[..|first|] == first
    ensures Walk(root + first, path[|first|..]) == Walk(root, path)
  {
    WalkNames(root, first);
    WalkConcat(root, first, path[|first|..]);
    assert path == first + path[|first|..];
  }

  /** From a working directory without dot-dot, the rebased components lead where the
      path leads from the root, dot-dot in the path included. */
  lemma RebasedWalk(root: seq<string>, cwd: seq<string>, path: seq<string>)
    requires Names(cwd)
    ensures Walk(Walk(root, cwd), Rebased(cwd, path)) == Walk(root, path)
  {
    var n := CommonLength(cwd, path);
    var first, tail := cwd[..n], cwd[n..];
    WalkNames(root, cwd);
    assert root + cwd == root + first + tail;
    UpsBack(root + first, tail, path[n..]);
    WalkInto(root, first, path);
  }

  lemma {:induction false} WalkLength(dir: seq<string>, parts: seq<string>)
    ensures |Walk(dir, parts)| <= |dir| + |parts|
    ensures !Names(parts) ==> |Walk(dir, parts)| < |dir| + |parts|
    decreases |parts|
  {
    if parts != [] {
      WalkLength(Enter(dir, parts[0]), parts[1..]);
      if Names([parts[0]]) && Names(parts[1..]) {
        assert parts == [parts[0]] + parts[1..];
      }
    }
  }

  /** A dot-dot in the working directory sends every plain path astray, unless it is
      removed first: one step up is printed for it as for any other component. */
  lemma DotDotGoesAstray(root: seq<string>, cwd: seq<string>, path: seq<string>)
    requires Names(path) && !Names(cwd) && root != []
    ensures |Walk(Walk(root, cwd), Rebased(cwd, path))| < |root| + |path|
  {
    WalkLength(root, cwd);
    RebasedCuts(Walk(root, cwd), cwd, path);
  }

  // --------------------------------------------------------------------- white space

  function Spaces(s: string): nat {
    if s == [] then 0 else (if IsSpace(s[0]) then 1 else 0) + Spaces(s[1..])
  }

  function AllSpaces(parts: seq<string>): nat {
    if parts == [] then 0 else Spaces(parts[0]) + AllSpaces(parts[1..])
  }

  lemma {:induction false} SpacesConcat(a: string, b: string)
    ensures Spaces(a + b) == Spaces(a) + Spaces(b)
  {
    if a == [] {
      assert a + b == b;
    } else {
      assert (a + b)[1..] == a[1..] + b;
      SpacesConcat(a[1..], b);
    }
  }

  lemma {:induction false} AllSpacesConcat(a: seq<string>, b: seq<string>)
    ensures AllSpaces(a + b) == AllSpaces(a) + AllSpaces(b)
  {
    if a == [] {
      assert a + b == b;
    } else {
      assert (a + b)[1..] == a[1..] + b;
      AllSpacesConcat(a[1..], b);
    }
  }

  lemma {:induction false} SplitKeepsSpaces(s: string)
    ensures AllSpaces(Split(s, '/')) == Spaces(s)
    decreases |s|
  {
    var at := IndexOf(s, '/');
    if at.None? {
      assert Split(s, '/') == [s] && [s][1..] == [];
    } else {
      var piece, rest := s[..at.value], s[at.value + 1..];
      SplitKeepsSpaces(rest);
      assert s == piece + ("/" + rest);
      SpacesConcat(piece, "/" + rest);
      SpacesConcat("/", rest);
      assert ([piece] + Split(rest, '/'))[1..] == Split(rest, '/');
    }
  }

  lemma {:induction false} KeptKeepsSpaces(parts: seq<string>)
    ensures AllSpaces(Kept(parts)) == AllSpaces(parts)
  {
    if parts != [] {
      KeptKeepsSpaces(parts[1..]);
      if parts[0] == "" || parts[0] == "." {
        assert Kept(parts) == Kept(parts[1..]);
        assert Spaces(parts[0]) == 0 by {
          if parts[0] == "." {
            assert "."[1..] == "";
          }
        }
      } else {
        assert Kept(parts) == [parts[0]] + Kept(parts[1..]);
      }
    }
  }

  lemma PartsKeepSpaces(path: string)
    ensures AllSpaces(Parts(path)) == Spaces(path)
  {
    SplitKeepsSpaces(path);
    KeptKeepsSpaces(Split(path, '/'));
  }

  lemma {:induction false} SlashesAreNoSpaces(s: string)
    ensures Spaces(TrimSlashes(s)) == Spaces(s)
    decreases |s|
  {
    if s != [] && s[0] == '/' {
      SlashesAreNoSpaces(s[1..]);
    } else if s != [] && s[|s| - 1] == '/' {
      SlashesAreNoSpaces(s[..|s| - 1]);
      SpacesLast(s);
    }
  }

  lemma SpacesLast(s: string)
    requires s != []
    ensures Spaces(s) == Spaces(s[..|s| - 1]) + (if IsSpace(s[|s| - 1]) then 1 else 0)
  {
    var front, last := s[..|s| - 1], s[|s| - 1];
    SpacesConcat(front, [last]);
    assert s == front + [last] && [last][1..] == [];
  }

  lemma {:induction false} TrimEndSpaces(s: string)
    ensures Spaces(TrimEnd(s)) <= Spaces(s)
    ensures s != [] && IsSpace(s[|s| - 1]) ==> Spaces(TrimEnd(s)) < Spaces(s)
  {
    if s != [] && IsSpace(s[|s| - 1]) {
      TrimEndSpaces(s[..|s| - 1]);
      SpacesLast(s);
    }
  }

  lemma {:induction false} TrimStartSpaces(s: string)
    ensures Spaces(TrimStart(s)) <= Spaces(s)
    ensures s != [] && IsSpace(s[0]) ==> Spaces(TrimStart(s)) < Spaces(s)
  {
    if s != [] && IsSpace(s[0]) {
      TrimStartSpaces(s[1..]);
    }
  }

  /** Trimming text that needs it removes white space. */
  lemma TrimSpaces(s: string)
    requires !Trimmed(s)
    ensures Spaces(Trim(s)) < Spaces(s)
  {
    TrimStartSpaces(s);
    TrimEndSpaces(TrimStart(s));
  }

  lemma {:induction false} WalkSpaces(dir: seq<string>, parts: seq<string>)
    ensures AllSpaces(Walk(dir, parts)) <= AllSpaces(dir) + AllSpaces(parts)
    decreases |parts|
  {
    if parts != [] {
      var next := Enter(dir, parts[0]);
      WalkSpaces(next, parts[1..]);
      if parts[0] == ".." && dir != [] {
        AllSpacesConcat(next, [dir[|dir| - 1]]);
        assert dir == next + [dir[|dir| - 1]];
      } else if next == dir + [parts[0]] {
        AllSpacesConcat(dir, [parts[0]]);
        assert [parts[0]][1..] == [];
      }
    }
  }

  // ------------------------------------------------------------------ slashes at the ends

  lemma {:induction false} IndexInLonger(s: string, c: char, at: nat, rest: string)
    requires IndexOf(s, c) == Some(at)
    ensures IndexOf(s + rest, c) == Some(at)
  {
    if s[0] != c {
      IndexInLonger(s[1..], c, at - 1, rest);
      assert (s + rest)[1..] == s[1..] + rest;
    }
  }

  lemma SlicesOfLonger(s: string, at: nat, rest: string)
    requires at < |s|
    ensures (s + rest)[..at] == s[..at] && (s + rest)[at + 1..] == s[at + 1..] + rest
  {
  }

  lemma SplitOnce(s: string, c: char, at: nat)
    requires IndexOf(s, c) == Some(at)
    ensures Split(s, c) == [s[..at]] + Split(s[at + 1..], c)
  {
  }

  lemma SplitPlainAppend(s: string)
    requires Without(s, '/')
    ensures Split(s + "/", '/') == [s] + [""]
  {
    SplitAfter(s, '/', "");
    assert s + "/" + "" == s + "/";
    SplitWhole("", '/');
  }

  lemma AppendLast(first: string, parts: seq<string>, last: string)
    ensures [first] + (parts + [last]) == [first] + parts + [last]
  {
  }

  lemma {:induction false} SplitAppend(s: string)
    ensures Split(s + "/", '/') == Split(s, '/') + [""]
    decreases |s|
  {
    var at := IndexOf(s, '/');
    if at.None? {
      SplitWhole(s, '/');
      SplitPlainAppend(s);
    } else {
      var piece, rest := s[..at.value], s[at.value + 1..];
      SplitAppend(rest);
      IndexInLonger(s, '/', at.value, "/");
      SlicesOfLonger(s, at.value, "/");
      SplitOnce(s, '/', at.value);
      SplitOnce(s + "/", '/', at.value);
      AppendLast(piece, Split(rest, '/'), "");
    }
  }

  lemma {:induction false} KeptConcat(a: seq<string>, b: seq<string>)
    ensures Kept(a + b) == Kept(a) + Kept(b)
  {
    if a == [] {
      assert a + b == b;
    } else {
      assert (a + b)[1..] == a[1..] + b;
      KeptConcat(a[1..], b);
    }
  }

  lemma {:induction false} SlashesDoNotMatter(s: string)
    ensures Parts(TrimSlashes(s)) == Parts(s)
    decreases |s|
  {
    if s != [] && s[0] == '/' {
      SlashesDoNotMatter(s[1..]);
      assert s == "" + "/" + s[1..];
      SplitAfter("", '/', s[1..]);
      KeptConcat([""], Split(s[1..], '/'));
    } else if s != [] && s[|s| - 1] == '/' {
      var front := s[..|s| - 1];
      SlashesDoNotMatter(front);
      assert s == front + "/";
      SplitAppend(front);
      KeptConcat(Split(front, '/'), [""]);
    }
  }

  // ------------------------------------------------------------------- main results

  /** Rebasing a path and resolving it from the working directory gives the file that
      the path names from the root. */
  lemma RebasedPathResolves(root: seq<string>, cwd: string, path: string)
    requires Names(Parts(cwd)) && Trimmed(path)
    ensures ResolvePath(Walk(root, Parts(cwd)), RebasedPath(cwd, path)) == ResolvePath(root, path)
  {
    TrimPadded(path);
    SlashesDoNotMatter(path);
    RebasedResolvesTrimmed(root, cwd, path);
    WalkKept(root, Split(path, '/'));
  }

  lemma RebasedResolvesTrimmed(root: seq<string>, cwd: string, path: string)
    requires Names(Parts(cwd))
    ensures ResolvePath(Walk(root, Parts(cwd)), RebasedPath(cwd, path)) == Walk(root, Parts(TrimSlashes(Trim(path))))
  {
    var parts := Parts(TrimSlashes(Trim(path)));
    PartsHaveNoSlashes(TrimSlashes(Trim(path)));
    RebasedHasNoSlashes(Parts(cwd), parts);
    PathTextResolves(Walk(root, Parts(cwd)), Rebased(Parts(cwd), parts));
    RebasedWalk(root, Parts(cwd), parts);
  }

  /** For a plain path the rebased path is right exactly when no white space is trimmed
      from it. */
  lemma RightIffTrimmed(root: seq<string>, cwd: string, path: string)
    requires Names(Parts(cwd)) && Names(Parts(path))
    ensures ResolvePath(Walk(root, Parts(cwd)), RebasedPath(cwd, path)) == ResolvePath(root, path) <==> Trimmed(path)
  {
    if Trimmed(path) {
      RebasedPathResolves(root, cwd, path);
    } else {
      var trimmed := TrimSlashes(Trim(path));
      RebasedResolvesTrimmed(root, cwd, path);
      WalkKept(root, Split(path, '/'));
      WalkNames(root, Parts(path));
      AllSpacesConcat(root, Parts(path));
      PartsKeepSpaces(path);
      PartsKeepSpaces(trimmed);
      SlashesAreNoSpaces(Trim(path));
      TrimSpaces(path);
      WalkSpaces(root, Parts(trimmed));
    }
  }

  /** For a plain path the rebased path is right exactly when the working directory
      has no dot-dot. */
  lemma RightIffNoDotDot(root: seq<string>, cwd: string, path: string)
    requires Names(Parts(path)) && Trimmed(path) && root != []
    ensures ResolvePath(Walk(root, Parts(cwd)), RebasedPath(cwd, path)) == ResolvePath(root, path) <==>
            Names(Parts(cwd))
  {
    if Names(Parts(cwd)) {
      RebasedPathResolves(root, cwd, path);
    } else {
      TrimPadded(path);
      SlashesDoNotMatter(path);
      var parts := Parts(path);
      PartsHaveNoSlashes(path);
      RebasedHasNoSlashes(Parts(cwd), parts);
      PathTextResolves(Walk(root, Parts(cwd)), Rebased(Parts(cwd), parts));
      DotDotGoesAstray(root, Parts(cwd), parts);
      WalkKept(root, Split(path, '/'));
      WalkNames(root, parts);
    }
  }

  // ---------------------------------------------------------------- the guard on cwd

  /** What validation lets through: not blank, not absolute, no parent component. */
  predicate CwdAllowed(cwd: string) {
    Trim(cwd) != "" && !StartsWith(cwd, "/") && ".." !in Split(cwd, '/')
  }

  lemma {:induction false} KeptHas(parts: seq<string>, part: string)
    requires part != "" && part != "."
    ensures part in Kept(parts) <==> part in parts
  {
    if parts != [] {
      KeptHas(parts[1..], part);
      assert parts == [parts[0]] + parts[1..];
    }
  }

  lemma NamesIffNoParent(path: string)
    ensures Names(Parts(path)) <==> ".." !in Split(path, '/')
  {
    KeptHas(Split(path, '/'), "..");
  }

  // ------------------------------------------------------- the directory of a check

  /** The directory that rebasing works with: white space and slashes trimmed off. */
  function TrimmedCwd(cwd: Option<string>): string {
    if cwd.None? then "" else TrimSlashes(Trim(cwd.value))
  }

  /** The directory that the check runs in: the path as it is written. */
  function CheckDir(root: seq<string>, cwd: Option<string>): seq<string> {
    if cwd.None? then root else ResolvePath(root, cwd.value)
  }

  function RebasedFiles(files: seq<string>, cwd: Option<string>): seq<string> {
    var dir := TrimmedCwd(cwd);
    if dir == "" then files
    else seq(|files|, k requires 0 <= k < |files| => RebasedPath(dir, files[k]))
  }

  lemma RebasedPathWalks(from: seq<string>, cwd: string, path: string)
    requires Trimmed(path)
    ensures ResolvePath(from, RebasedPath(cwd, path)) == Walk(from, Rebased(Parts(cwd), Parts(path)))
  {
    TrimPadded(path);
    SlashesDoNotMatter(path);
    PartsHaveNoSlashes(path);
    RebasedHasNoSlashes(Parts(cwd), Parts(path));
    PathTextResolves(from, Rebased(Parts(cwd), Parts(path)));
  }

  lemma UnchangedWalks(from: seq<string>, path: string)
    ensures ResolvePath(from, path) == Walk(from, Rebased(Parts(""), Parts(path)))
  {
    SplitWhole("", '/');
    assert Parts("") == [] && Ups(0) + Parts(path) == Parts(path);
    WalkKept(from, Split(path, '/'));
  }

  /** Where a rebased file leads from the directory `from`. */
  lemma RebasedFileWalks(from: seq<string>, cwd: Option<string>, path: string)
    requires Trimmed(path)
    ensures |RebasedFiles([path], cwd)| == 1
    ensures ResolvePath(from, RebasedFiles([path], cwd)[0]) == Walk(from, Rebased(Parts(TrimmedCwd(cwd)), Parts(path)))
  {
    if TrimmedCwd(cwd) == "" {
      UnchangedWalks(from, path);
    } else {
      RebasedPathWalks(from, TrimmedCwd(cwd), path);
    }
  }

  /** All but the last `n` components, or none. */
  function Cut(dir: seq<string>, n: nat): seq<string> {
    if n <= |dir| then dir[..|dir| - n] else []
  }

  lemma RebasedCuts(dir: seq<string>, assumed: seq<string>, path: seq<string>)
    requires Names(path)
    ensures var n := CommonLength(assumed, path);
            Walk(dir, Rebased(assumed, path)) == Cut(dir, |assumed| - n) + path[n..]
  {
    var n := CommonLength(assumed, path);
    WalkUps(dir, |assumed| - n);
    WalkConcat(dir, Ups(|assumed| - n), path[n..]);
    assert Names(path[n..]);
    WalkNames(Cut(dir, |assumed| - n), path[n..]);
  }

  lemma SameCut(root: seq<string>, here: seq<string>, path: seq<string>, n: nat)
    requires n <= |path| && n <= |here|
    ensures Cut(root + here, |here| - n) + path[n..] == root + path <==> here[..n] == path[..n]
  {
    assert Cut(root + here, |here| - n) == root + here[..n];
    assert root + path == root + path[..n] + path[n..];
    SameSuffix(root + here[..n], root + path[..n], path[n..]);
    SamePrefix(root, here[..n], path[..n]);
  }

  lemma OtherCut(root: seq<string>, here: seq<string>, path: seq<string>, n: nat, ups: nat)
    requires n <= |path| && n + ups != |here| && root != []
    ensures Cut(root + here, ups) + path[n..] != root + path
  {
    assert |Cut(root + here, ups)| != |root| + n;
  }

  lemma CutReachesIff(root: seq<string>, here: seq<string>, assumed: seq<string>, path: seq<string>, n: nat)
    requires n <= |assumed| && n <= |path| && assumed[..n] == path[..n] && root != []
    ensures Cut(root + here, |assumed| - n) + path[n..] == root + path <==>
            |here| == |assumed| && here[..n] == assumed[..n]
  {
    if |here| == |assumed| {
      SameCut(root, here, path, n);
    } else {
      OtherCut(root, here, path, n, |assumed| - n);
    }
  }

  /** Rebased components lead to the path from a directory other than the one they were
      made for exactly if it is as deep and agrees on what they share with the path. */
  lemma WalkFromElsewhere(root: seq<string>, here: seq<string>, assumed: seq<string>, path: seq<string>)
    requires Names(path) && root != []
    ensures Walk(root + here, Rebased(assumed, path)) == root + path <==>
            |here| == |assumed| && here[..CommonLength(assumed, path)] == assumed[..CommonLength(assumed, path)]
  {
    RebasedCuts(root + here, assumed, path);
    CutReachesIff(root, here, assumed, path, CommonLength(assumed, path));
  }

  lemma SameSuffix(a: seq<string>, b: seq<string>, c: seq<string>)
    requires |a| == |b|
    ensures a + c == b + c <==> a == b
  {
    if a + c == b + c {
      assert a == (a + c)[..|a|] && b == (b + c)[..|b|];
    }
  }

  lemma SamePrefix(a: seq<string>, b: seq<string>, c: seq<string>)
    ensures a + b == a + c <==> b == c
  {
    if a + b == a + c {
      assert b == (a + b)[|a|..] && c == (a + c)[|a|..];
    }
  }

  /** For a plain path the file is reached exactly when trimming changed neither the
      number of components of `cwd` nor those it shares with the path. */
  lemma RightFromCwdIff(root: seq<string>, cwd: string, path: string)
    requires Names(Parts(cwd)) && Names(Parts(path)) && Trimmed(path) && root != []
    ensures |RebasedFiles([path], Some(cwd))| == 1
    ensures var trimmed := Parts(TrimmedCwd(Some(cwd)));
            var n := CommonLength(trimmed, Parts(path));
            ResolvePath(CheckDir(root, Some(cwd)), RebasedFiles([path], Some(cwd))[0]) == ResolvePath(root, path) <==>
            |Parts(cwd)| == |trimmed| && Parts(cwd)[..n] == trimmed[..n]
  {
    WalkKept(root, Split(cwd, '/'));
    WalkNames(root, Parts(cwd));
    WalkKept(root, Split(path, '/'));
    WalkNames(root, Parts(path));
    RebasedFileWalks(root + Parts(cwd), Some(cwd), path);
    WalkFromElsewhere(root, Parts(cwd), Parts(TrimmedCwd(Some(cwd))), Parts(path));
  }

  /** So for a file below the (trimmed) directory it is reached exactly when there was no
      white space to trim from `cwd`. */
  lemma InsideRightIffCwdTrimmed(root: seq<string>, cwd: string, path: string)
    requires Names(Parts(cwd)) && Names(Parts(path)) && Trimmed(path) && root != []
    requires CommonLength(Parts(TrimmedCwd(Some(cwd))), Parts(path)) == |Parts(TrimmedCwd(Some(cwd)))|
    ensures |RebasedFiles([path], Some(cwd))| == 1
    ensures ResolvePath(CheckDir(root, Some(cwd)), RebasedFiles([path], Some(cwd))[0]) == ResolvePath(root, path) <==>
            Trimmed(cwd)
  {
    RightFromCwdIff(root, cwd, path);
    var trimmed := Parts(TrimmedCwd(Some(cwd)));
    assert trimmed[..|trimmed|] == trimmed && Parts(cwd)[..|Parts(cwd)|] == Parts(cwd);
    if Trimmed(cwd) {
      TrimPadded(cwd);
      SlashesDoNotMatter(cwd);
    } else {
      TrimSpaces(cwd);
      SlashesAreNoSpaces(Trim(cwd));
      PartsKeepSpaces(cwd);
      PartsKeepSpaces(TrimmedCwd(Some(cwd)));
    }
  }

  /** The guard against parent components is exactly what the rebasing needs: for every
      plain path, and every `cwd` that is otherwise in order, the file is reached if and
      only if the guard lets `cwd` through. */
  lemma GuardIsExact(root: seq<string>, cwd: string, path: string)
    requires Trim(cwd) != "" && !StartsWith(cwd, "/") && Trimmed(cwd)
    requires Names(Parts(path)) && Trimmed(path) && root != []
    ensures |RebasedFiles([path], Some(cwd))| == 1
    ensures ResolvePath(CheckDir(root, Some(cwd)), RebasedFiles([path], Some(cwd))[0]) == ResolvePath(root, path) <==>
            CwdAllowed(cwd)
  {
    NamesIffNoParent(cwd);
    WalkKept(root, Split(cwd, '/'));
    RebasedFileWalks(CheckDir(root, Some(cwd)), Some(cwd), path);
    TrimPadded(cwd);
    SlashesDoNotMatter(cwd);
    RebasedPathWalks(CheckDir(root, Some(cwd)), cwd, path);
    RightIffNoDotDot(root, cwd, path);
  }

  // -------------------------------------------------------------- files in a command

  lemma FileReached(root: seq<string>, cwd: Option<string>, path: string)
    requires cwd.Some? ==> CwdAllowed(cwd.value) && Trimmed(cwd.value)
    requires Trimmed(path)
    ensures |RebasedFiles([path], cwd)| == 1
    ensures ResolvePath(CheckDir(root, cwd), RebasedFiles([path], cwd)[0]) == ResolvePath(root, path)
  {
    var dir, parts := TrimmedCwd(cwd), Parts(TrimmedCwd(cwd));
    RebasedFileWalks(CheckDir(root, cwd), cwd, path);
    WalkKept(root, Split(path, '/'));
    if cwd.Some? {
      NamesIffNoParent(cwd.value);
      TrimPadded(cwd.value);
      SlashesDoNotMatter(cwd.value);
      WalkKept(root, Split(cwd.value, '/'));
    } else {
      SplitWhole("", '/');
      assert parts == [];
    }
    RebasedWalk(root, parts, Parts(path));
  }

  /** The words that a shell in the check's directory reads from the expanded placeholder
      name exactly the matched files, in order, in whichever simple command of the line
      the placeholder stands. */
  lemma CommandSeesTheFiles(root: seq<string>, cwd: Option<string>, files: seq<string>, before: string, after: string)
    requires cwd.Some? ==> CwdAllowed(cwd.value) && Trimmed(cwd.value)
    requires forall k :: 0 <= k < |files| ==> Trimmed(files[k])
    requires Find(before + PLACEHOLDER + after, PLACEHOLDER) == Some(|before|) && Find(after, PLACEHOLDER).None?
    requires StartsWord(FeedAll(START, before)) && EndsWord(after) && Tokens(after).Some?
    ensures var command := SubstituteFiles(before + PLACEHOLDER + after, RebasedFiles(files, cwd));
            var tokens := FeedAll(START, before).tokens;
            && |RebasedFiles(files, cwd)| == |files|
            && Tokens(command) == Some(tokens + FileTokens(RebasedFiles(files, cwd)) + Tokens(after).value)
            && forall k :: 0 <= k < |files| ==>
                 ResolvePath(CheckDir(root, cwd), RebasedFiles(files, cwd)[k]) == ResolvePath(root, files[k])
  {
    PlaceholderBecomesFiles(before, after, RebasedFiles(files, cwd));
    forall k | 0 <= k < |files|
      ensures ResolvePath(CheckDir(root, cwd), RebasedFiles(files, cwd)[k]) == ResolvePath(root, files[k])
    {
      FileReached(root, cwd, files[k]);
      assert RebasedFiles(files, cwd)[k] == RebasedFiles([files[k]], cwd)[0];
    }
  }
}
