/** Locating the host's own directory and building the absolute paths of the
    runtime library and of the managed library from it. */
module Paths {
  import opened HostPlatform

  /** strrchr: the index of the last occurrence of `c` in `s`, or -1. */
  function LastIndexOf(s: string, c: char): (r: int)
    ensures -1 <= r < |s|
    ensures r >= 0 ==> s[r] == c
    ensures forall i :: r < i < |s| ==> s[i] != c
    decreases |s|
  {
    if s == [] then -1
    else if s[|s| - 1] == c then |s| - 1
    else LastIndexOf(s[..|s| - 1], c)
  }

  /** The directory part of `path`: everything before its last separator,
      or the whole path when it has none. */
  function DirName(path: string, sep: char): (r: string) {
    var k := LastIndexOf(path, sep);
    if k < 0 then path else path[..k]
  }

  /** The entry name part of `path`: everything after its last separator. */
  function BaseName(path: string, sep: char): (r: string) {
    path[LastIndexOf(path, sep) + 1..]
  }

  /** `directory + FS_SEPARATOR + name`. */
  function JoinPath(p: Platform, directory: string, name: string): (r: string) {
    directory + FsSeparator(p) + name
  }

  /** The runtime library next to the executable (LoadCoreCLR). */
  function CoreClrPath(p: Platform, directory: string): (r: string) {
    JoinPath(p, directory, CoreClrFileName(p))
  }

  /** The managed library under the netstandard2.0 sub-directory (main). */
  function ManagedLibraryPath(p: Platform, directory: string): (r: string) {
    JoinPath(p, JoinPath(p, directory, "netstandard2.0"), "ManagedLibrary.dll")
  }

  lemma {:induction false} LastIndexOfAppend(a: string, b: string, c: char)
    requires c !in b
    ensures LastIndexOf(a + b, c) == LastIndexOf(a, c)
    decreases |b|
  {
    if b != [] {
      assert (a + b)[..|a + b| - 1] == a + b[..|b| - 1];
      LastIndexOfAppend(a, b[..|b| - 1], c);
    } else {
      assert a + b == a;
    }
  }

  /** The last separator of `directory + sep + name` is the one joined in
      when `name` has none. */
  lemma LastIndexOfJoin(directory: string, sep: char, name: string)
    requires sep !in name
    ensures LastIndexOf(directory + [sep] + name, sep) == |directory|
  {
    LastIndexOfAppend(directory + [sep], name, sep);
  }

  /** Cutting a joined path at its last separator gives back the directory
      and the name it was joined from. */
  lemma SplitJoinPath(p: Platform, directory: string, name: string)
    requires SeparatorChar(p) !in name
    ensures DirName(JoinPath(p, directory, name), SeparatorChar(p)) == directory
    ensures BaseName(JoinPath(p, directory, name), SeparatorChar(p)) == name
  {
    LastIndexOfJoin(directory, SeparatorChar(p), name);
  }

  /** Conversely, a path that holds a separator is the join of its directory and its name. */
  lemma JoinSplitPath(p: Platform, path: string)
    requires SeparatorChar(p) in path
    ensures JoinPath(p, DirName(path, SeparatorChar(p)), BaseName(path, SeparatorChar(p))) == path
  {
    var k := LastIndexOf(path, SeparatorChar(p));
    assert path == path[..k] + [path[k]] + path[k + 1..];
  }

  /** The runtime library path lies directly in the executable's directory. */
  lemma CoreClrPathInDirectory(p: Platform, directory: string)
    ensures DirName(CoreClrPath(p, directory), SeparatorChar(p)) == directory
    ensures BaseName(CoreClrPath(p, directory), SeparatorChar(p)) == CoreClrFileName(p)
  {
    SplitJoinPath(p, directory, CoreClrFileName(p));
  }

  /** The managed library path is two levels below the executable's directory. */
  lemma ManagedLibraryPathInDirectory(p: Platform, directory: string)
    ensures var path := ManagedLibraryPath(p, directory);
      && BaseName(path, SeparatorChar(p)) == "ManagedLibrary.dll"
      && BaseName(DirName(path, SeparatorChar(p)), SeparatorChar(p)) == "netstandard2.0"
      && DirName(DirName(path, SeparatorChar(p)), SeparatorChar(p)) == directory
  {
    var sep := SeparatorChar(p);
    SplitJoinPath(p, JoinPath(p, directory, "netstandard2.0"), "ManagedLibrary.dll");
    SplitJoinPath(p, directory, "netstandard2.0");
  }

  /** GetCurrentDir: the platform resolves the executable's path into a
      NUL-terminated buffer; the host writes a NUL over the last separator
      (strrchr) and reads the buffer back as a string. */
  method GetCurrentDir(p: Platform, resolved: string) returns (dir: string)
    requires '\0' !in resolved
    ensures dir == DirName(resolved, SeparatorChar(p))
  {
    var sep := SeparatorChar(p);
    var runtimePath := new char[|resolved| + 1];
    forall k | 0 <= k < |resolved| {
      runtimePath[k] := resolved[k];
    }
    runtimePath[|resolved|] := '\0';

    // strrchr(runtimePath, FS_SEPARATOR[0])
    var lastSlash := -1;
    var i := 0;
    while runtimePath[i] != '\0'
      invariant 0 <= i <= |resolved|
      invariant runtimePath[..] == resolved + ['\0']
      invariant lastSlash == LastIndexOf(resolved[..i], sep)
      decreases |resolved| - i
    {
      assert resolved[..i + 1][..i] == resolved[..i];
      if runtimePath[i] == sep {
        lastSlash := i;
      }
      i := i + 1;
    }
    assert i == |resolved|;
    assert resolved[..i] == resolved;
    var cut := if lastSlash < 0 then |resolved| else lastSlash;
    if lastSlash >= 0 {
      runtimePath[lastSlash] := '\0';
    }

    // string(runtimePath): the characters up to the first NUL
    dir := [];
    var j := 0;
    while runtimePath[j] != '\0'
      invariant 0 <= j <= cut
      invariant runtimePath[cut] == '\0'
      invariant forall k :: 0 <= k < cut ==> runtimePath[k] == resolved[k]
      invariant dir == resolved[..j]
      decreases cut - j
    {
      dir := dir + [runtimePath[j]];
      j := j + 1;
    }
    assert j == cut;
  }
}
