/** The trusted platform assemblies (TPA) list: the delimiter-terminated list
    of `directory + FS_SEPARATOR + name` paths, one per directory entry whose
    name ends with the requested extension, in enumeration order. The
    directory listing is an input: the names readdir (POSIX) or
    FindFirstFileA/FindNextFileA (Windows) would yield, in their order. */
module Tpa {
  import opened HostPlatform
  import opened Hosting
  import opened Paths

  /** The POSIX filter: the name is strictly longer than the extension and
      its tail equals the extension character for character. */
  predicate HasExtension(name: string, extension: string) {
    var position := |name| - |extension|;
    position > 0 && name[position..] == extension
  }

  /** The entries the filter keeps, in enumeration order. */
  function Matching(names: seq<string>, extension: string): (r: seq<string>)
    decreases |names|
  {
    if names == [] then []
    else
      var kept := Matching(names[..|names| - 1], extension);
      var last := names[|names| - 1];
      if HasExtension(last, extension) then kept + [last] else kept
  }

  /** The first entry the filter keeps, if any. */
  function FirstMatch(names: seq<string>, extension: string): (r: Option<string>)
    decreases |names|
  {
    if names == [] then None
    else
      var first := FirstMatch(names[..|names| - 1], extension);
      var last := names[|names| - 1];
      if first.Some? then first
      else if HasExtension(last, extension) then Some(last)
      else None
  }

  /** What one accepted entry adds: `directory + FS_SEPARATOR + name + PATH_DELIMITER`. */
  function Segment(p: Platform, directory: string, name: string): (r: string) {
    JoinPath(p, directory, name) + PathDelimiter(p)
  }

  /** The segments of `names`, concatenated in order. */
  function Segments(p: Platform, directory: string, names: seq<string>): (r: string)
    decreases |names|
  {
    if names == [] then []
    else Segments(p, directory, names[..|names| - 1]) + Segment(p, directory, names[|names| - 1])
  }

  /** The list the POSIX lister builds from a full directory listing. */
  function TpaList(p: Platform, directory: string, extension: string, entries: seq<string>)
    : (r: string)
  {
    Segments(p, directory, Matching(entries, extension))
  }

  /** The list both hosts build for the runtime directory and ".dll". On
      Windows `entries` is what the `*.dll` search pattern enumerated; on
      POSIX it is the whole directory listing, filtered here. */
  function HostTpaList(p: Platform, directory: string, entries: seq<string>): (r: string) {
    if p == Windows then Segments(Windows, directory, entries)
    else TpaList(p, directory, ".dll", entries)
  }

  /** The paths of `names` in `directory`, in order. */
  function EntryPaths(p: Platform, directory: string, names: seq<string>): (r: seq<string>)
    ensures |r| == |names|
    decreases |names|
  {
    if names == [] then []
    else EntryPaths(p, directory, names[..|names| - 1]) + [JoinPath(p, directory, names[|names| - 1])]
  }

  /** How the runtime reads the list back: split a list of items each
      terminated by `d` into those items. */
  function SplitTerminated(s: string, d: char): (r: seq<string>)
    decreases |s|
  {
    if s == [] then []
    else
      var body := s[..|s| - 1];
      var k := LastIndexOf(body, d);
      SplitTerminated(body[..k + 1], d) + [body[k + 1..]]
  }

  /** A name passes the filter exactly when it is a non-empty stem followed by the extension. */
  lemma HasExtensionIff(name: string, extension: string)
    ensures HasExtension(name, extension) <==>
      exists stem :: stem != [] && name == stem + extension
  {
    var position := |name| - |extension|;
    if HasExtension(name, extension) {
      assert name == name[..position] + extension;
    }
    if stem :| stem != [] && name == stem + extension {
      assert name[|stem|..] == extension;
    }
  }

  /** An entry named exactly like the extension is not accepted. */
  lemma BareExtensionRejected(extension: string)
    ensures !HasExtension(extension, extension)
    ensures !HasExtension(".dll", ".dll") && HasExtension("a.dll", ".dll")
  {
    assert "a.dll"[1..] == ".dll";
  }

  /** The filter keeps exactly the entries with the extension. */
  lemma {:induction false} MatchingMembers(names: seq<string>, extension: string)
    ensures forall n :: n in Matching(names, extension) <==> n in names && HasExtension(n, extension)
    decreases |names|
  {
    if names != [] {
      var init := names[..|names| - 1];
      MatchingMembers(init, extension);
      assert names == init + [names[|names| - 1]];
    }
  }

  /** The first match is the head of the list of matches. */
  lemma {:induction false} FirstMatchIsFirstOfMatching(names: seq<string>, extension: string)
    ensures FirstMatch(names, extension) ==
      if Matching(names, extension) == [] then None else Some(Matching(names, extension)[0])
    decreases |names|
  {
    if names != [] {
      FirstMatchIsFirstOfMatching(names[..|names| - 1], extension);
    }
  }

  /** Once an entry has matched, later entries do not change the first match. */
  lemma {:induction false} FirstMatchPrefix(names: seq<string>, more: seq<string>, extension: string)
    requires FirstMatch(names, extension).Some?
    ensures FirstMatch(names + more, extension) == FirstMatch(names, extension)
    decreases |more|
  {
    if more != [] {
      var init := more[..|more| - 1];
      FirstMatchPrefix(names, init, extension);
      assert (names + more)[..|names + more| - 1] == names + init;
    } else {
      assert names + more == names;
    }
  }

  /** One step of a scan that stops at the first accepted entry: entry `i`
      is the first match when it is accepted, and otherwise there is still no
      match among the first `i + 1` entries. */
  lemma FirstMatchStep(entries: seq<string>, i: nat, extension: string)
    requires i < |entries|
    requires FirstMatch(entries[..i], extension).None?
    ensures HasExtension(entries[i], extension) ==> FirstMatch(entries, extension) == Some(entries[i])
    ensures !HasExtension(entries[i], extension) ==> FirstMatch(entries[..i + 1], extension).None?
  {
    assert entries[..i + 1] == entries[..i] + [entries[i]];
    FirstMatchAppend(entries[..i], entries[i], extension);
    if HasExtension(entries[i], extension) {
      FirstMatchPrefix(entries[..i + 1], entries[i + 1..], extension);
      assert entries[..i + 1] + entries[i + 1..] == entries;
    }
  }

  lemma SegmentsAppend(p: Platform, directory: string, names: seq<string>, name: string)
    ensures Segments(p, directory, names + [name]) ==
      Segments(p, directory, names) + Segment(p, directory, name)
  {
    assert (names + [name])[..|names|] == names;
  }

  lemma MatchingAppend(names: seq<string>, name: string, extension: string)
    ensures Matching(names + [name], extension) ==
      Matching(names, extension) + (if HasExtension(name, extension) then [name] else [])
  {
    assert (names + [name])[..|names|] == names;
  }

  lemma FirstMatchAppend(names: seq<string>, name: string, extension: string)
    ensures FirstMatch(names + [name], extension) ==
      if FirstMatch(names, extension).Some? then FirstMatch(names, extension)
      else if HasExtension(name, extension) then Some(name)
      else None
  {
    assert (names + [name])[..|names|] == names;
  }

  /** A non-empty list ends with the delimiter, and the list is empty exactly
      when there are no names. */
  lemma SegmentsShape(p: Platform, directory: string, names: seq<string>)
    ensures Segments(p, directory, names) == [] <==> names == []
    ensures names != [] ==>
      var s := Segments(p, directory, names); s[|s| - 1] == DelimiterChar(p)
  {
  }

  /** The list is empty exactly when no entry has the extension. */
  lemma TpaListEmptyIff(p: Platform, directory: string, extension: string, entries: seq<string>)
    ensures TpaList(p, directory, extension, entries) == [] <==>
      forall n :: n in entries ==> !HasExtension(n, extension)
  {
    SegmentsShape(p, directory, Matching(entries, extension));
    MatchingMembers(entries, extension);
    if Matching(entries, extension) != [] {
      assert Matching(entries, extension)[0] in Matching(entries, extension);
    }
  }

  /** Splitting a terminated item off the end of a list. */
  lemma SplitTerminatedAppend(prefix: string, item: string, d: char)
    requires d !in item
    requires prefix != [] ==> prefix[|prefix| - 1] == d
    ensures SplitTerminated(prefix + item + [d], d) == SplitTerminated(prefix, d) + [item]
  {
    var s := prefix + item + [d];
    var body := s[..|s| - 1];
    assert body == prefix + item;
    LastIndexOfAppend(prefix, item, d);
    var k := LastIndexOf(body, d);
    assert k == |prefix| - 1;
    assert body[..k + 1] == prefix;
    assert body[k + 1..] == item;
  }

  /** Splitting the list at its delimiters gives back one path per name, in
      order, as long as neither the directory nor a name holds the delimiter. */
  lemma {:induction false} SplitSegments(p: Platform, directory: string, names: seq<string>)
    requires DelimiterChar(p) !in directory
    requires forall n :: n in names ==> DelimiterChar(p) !in n
    ensures SplitTerminated(Segments(p, directory, names), DelimiterChar(p)) ==
      EntryPaths(p, directory, names)
    decreases |names|
  {
    if names != [] {
      var init := names[..|names| - 1];
      var last := names[|names| - 1];
      var path := JoinPath(p, directory, last);
      var prefix := Segments(p, directory, init);
      assert DelimiterChar(p) !in path by {
        assert last in names;
        DelimiterNotInPath(p, directory, last);
      }
      assert prefix != [] ==> prefix[|prefix| - 1] == DelimiterChar(p) by {
        SegmentsShape(p, directory, init);
      }
      assert forall n :: n in init ==> n in names;
      SplitSegments(p, directory, init);
      calc {
        SplitTerminated(Segments(p, directory, names), DelimiterChar(p));
        { assert Segments(p, directory, names) == prefix + path + [DelimiterChar(p)]; }
        SplitTerminated(prefix + path + [DelimiterChar(p)], DelimiterChar(p));
        { SplitTerminatedAppend(prefix, path, DelimiterChar(p)); }
        SplitTerminated(prefix, DelimiterChar(p)) + [path];
        EntryPaths(p, directory, names);
      }
    }
  }

  lemma DelimiterNotInPath(p: Platform, directory: string, name: string)
    requires DelimiterChar(p) !in directory && DelimiterChar(p) !in name
    ensures DelimiterChar(p) !in JoinPath(p, directory, name)
  {
  }

  /** Every path read back from the list names an entry of the directory that
      has the extension, and every such entry is read back, in enumeration order. */
  lemma TpaListReadsBack(p: Platform, directory: string, extension: string, entries: seq<string>)
    requires DelimiterChar(p) !in directory
    requires forall n :: n in entries ==> DelimiterChar(p) !in n
    ensures SplitTerminated(TpaList(p, directory, extension, entries), DelimiterChar(p)) ==
      EntryPaths(p, directory, Matching(entries, extension))
    ensures forall n :: n in Matching(entries, extension) <==> n in entries && HasExtension(n, extension)
  {
    MatchingMembers(entries, extension);
    SplitSegments(p, directory, Matching(entries, extension));
  }

  /** The Windows lister (FindFirstFileA/FindNextFileA over `directory\*extension`):
      the enumeration already holds only the names the pattern matched, and
      one segment is appended per enumerated name, in enumeration order. */
  method BuildTpaListWindows(directory: string, found: seq<string>, tpaList: string)
    returns (result: string)
    ensures result == tpaList + Segments(Windows, directory, found)
  {
    result := tpaList;
    var i := 0;
    while i < |found|
      invariant 0 <= i <= |found|
      invariant result == tpaList + Segments(Windows, directory, found[..i])
    {
      SegmentsAppend(Windows, directory, found[..i], found[i]);
      assert found[..i + 1] == found[..i] + [found[i]];
      result := result + directory + FsSeparator(Windows) + found[i] + PathDelimiter(Windows);
      i := i + 1;
    }
    assert found[..i] == found;
  }

  /** The POSIX lister (opendir/readdir): every entry is examined, entries
      without the extension are skipped, and each accepted one appends its
      segment to the end of the buffer. */
  method BuildTpaListPosix(p: Platform, directory: string, extension: string,
                           entries: seq<string>, tpaList: string)
    returns (result: string)
    requires p != Windows
    ensures result == tpaList + TpaList(p, directory, extension, entries)
  {
    result := tpaList;
    var i := 0;
    while i < |entries|
      invariant 0 <= i <= |entries|
      invariant result == tpaList + TpaList(p, directory, extension, entries[..i])
    {
      var filename := entries[i];
      ghost var kept := Matching(entries[..i], extension);
      assert Matching(entries[..i + 1], extension) ==
        kept + (if HasExtension(filename, extension) then [filename] else []) by {
        assert entries[..i + 1] == entries[..i] + [filename];
        MatchingAppend(entries[..i], filename, extension);
      }
      var extPos := |filename| - |extension|;
      if extPos <= 0 || filename[extPos..] != extension {
        assert !HasExtension(filename, extension);
        assert Matching(entries[..i + 1], extension) == kept;
        i := i + 1;
        continue;
      }
      assert HasExtension(filename, extension);
      assert TpaList(p, directory, extension, entries[..i + 1]) ==
        TpaList(p, directory, extension, entries[..i]) + Segment(p, directory, filename) by {
        SegmentsAppend(p, directory, kept, filename);
      }
      result := result + directory + FsSeparator(p) + filename + PathDelimiter(p);
      i := i + 1;
    }
    assert entries[..i] == entries;
  }
}
