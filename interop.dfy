/** The host session class: it loads the runtime library, resolves the three
    hosting entry points into its fields, starts the runtime, resolves
    managed delegates and shuts the runtime down. */
module Interop {
  import opened HostPlatform
  import opened Hosting
  import opened Paths
  import opened Tpa

  /** The friendly name of the application domain the session creates. */
  const AppDomainName: string := "DotNetHostInterop"

  /** The runtime library Init opens: `coreclr.dll` on every platform. */
  function InteropRuntimePath(p: Platform, directory: string): (r: string) {
    JoinPath(p, directory, "coreclr.dll")
  }

  /** The fully qualified managed type name `namespace + "." + class`. */
  function FullTypeName(namespaceName: string, className: string): (r: string) {
    namespaceName + "." + className
  }

  /** Init's hard-coded library name agrees with CORECLR_FILE_NAME on Windows only. */
  lemma InteropRuntimePathIsWindowsName(p: Platform, directory: string)
    ensures InteropRuntimePath(p, directory) == CoreClrPath(p, directory) <==> p == Windows
  {
    SplitJoinPath(p, directory, "coreclr.dll");
    CoreClrPathInDirectory(p, directory);
  }

  /** The namespace and the class can be read back from the type name, cut at
      its last dot, as long as the class name holds no dot. */
  lemma SplitFullTypeName(namespaceName: string, className: string)
    requires '.' !in className
    ensures DirName(FullTypeName(namespaceName, className), '.') == namespaceName
    ensures BaseName(FullTypeName(namespaceName, className), '.') == className
  {
    LastIndexOfJoin(namespaceName, '.', className);
  }

  /** What the POSIX lister of the class (which returns at its first match)
      leaves in the list: one segment at most, against one per match for the
      lister that scans the whole directory. */
  lemma FirstMatchKeepsOneEntry(p: Platform, directory: string, extension: string, entries: seq<string>)
    requires DelimiterChar(p) !in directory
    requires forall n :: n in entries ==> DelimiterChar(p) !in n
    requires FirstMatch(entries, extension).Some?
    ensures var n := FirstMatch(entries, extension).value;
      SplitTerminated(Segment(p, directory, n), DelimiterChar(p)) == [JoinPath(p, directory, n)]
    ensures |SplitTerminated(TpaList(p, directory, extension, entries), DelimiterChar(p))| ==
      |Matching(entries, extension)|
  {
    var n := FirstMatch(entries, extension).value;
    assert DelimiterChar(p) !in n by {
      FirstMatchIsFirstOfMatching(entries, extension);
      MatchingMembers(entries, extension);
      assert n in Matching(entries, extension);
    }
    SplitOne(p, directory, n);
    TpaListReadsBack(p, directory, extension, entries);
  }

  lemma SplitOne(p: Platform, directory: string, name: string)
    requires DelimiterChar(p) !in directory && DelimiterChar(p) !in name
    ensures SplitTerminated(Segment(p, directory, name), DelimiterChar(p)) == [JoinPath(p, directory, name)]
  {
    assert Segments(p, directory, [name]) == Segment(p, directory, name) by {
      assert [name][..0] == [];
    }
    SplitSegments(p, directory, [name]);
  }

  /** A directory with two assemblies: the class's POSIX lister keeps the first
      only; a directory with none: it runs off the end of the function. */
  lemma FirstMatchCounterexample()
    ensures FirstMatch(["System.Runtime.dll", "System.Console.dll"], ".dll") == Some("System.Runtime.dll")
    ensures Matching(["System.Runtime.dll", "System.Console.dll"], ".dll") ==
      ["System.Runtime.dll", "System.Console.dll"]
    ensures FirstMatch([".", "..", "readme.txt"], ".dll") == None
  {
    var entries := ["System.Runtime.dll", "System.Console.dll"];
    assert entries[..1] == ["System.Runtime.dll"];
    assert entries[..1][..0] == [];
    assert "System.Runtime.dll"[14..] == ".dll";
    assert "System.Console.dll"[14..] == ".dll";
  }

  datatype SessionState = Unstarted | Started | Stopped

  /** How control leaves a function declared to return bool. */
  datatype Exit = Returned(value: bool) | FellOffEnd

  class DotNetCoreInterop {
    var initializePtr: Ptr
    var createDelegatePtr: Ptr
    var shutdownPtr: Ptr
    var hostHandle: Ptr
    var domainId: uint32
    /** Where the session is in its life: the source does not track this;
        it is what makes GetFunction and End safe to call. */
    ghost var state: SessionState
    /** The requests this session has made of the loader and the runtime. */
    ghost var calls: seq<HostCall>

    ghost predicate Valid()
      reads this
    {
      state == Started ==>
        initializePtr != Null && createDelegatePtr != Null && shutdownPtr != Null
    }

    constructor ()
      ensures Valid()
      ensures initializePtr == Null && createDelegatePtr == Null && shutdownPtr == Null
      ensures hostHandle == Null && domainId == 0
      ensures state == Unstarted && calls == []
    {
      initializePtr, createDelegatePtr, shutdownPtr := Null, Null, Null;
      hostHandle, domainId := Null, 0;
      state, calls := Unstarted, [];
    }

    /** Loads the runtime from `dotnetLibsDir`, resolves the hosting entry
        points and starts the runtime with the TPA list of that directory.
        `loaded` is what the loader returns for the library path, `entries`
        the directory enumeration, and `status`, `handle`, `domain` what
        coreclr_initialize returns. */
    method Init(p: Platform, dotnetLibsDir: string, loaded: Option<Image>, entries: seq<string>,
                status: int32, handle: Ptr, domain: uint32)
      returns (ok: bool, report: Report)
      modifies this
      ensures Valid()
      ensures ok <==> report == Success
      ensures state == if ok then Started else Unstarted
      ensures loaded.None? ==>
        && report == LoadFailed(InteropRuntimePath(p, dotnetLibsDir))
        && calls == old(calls) + [LoadLibrary(InteropRuntimePath(p, dotnetLibsDir))]
        && initializePtr == old(initializePtr) && createDelegatePtr == old(createDelegatePtr)
        && shutdownPtr == old(shutdownPtr)
        && hostHandle == old(hostHandle) && domainId == old(domainId)
      ensures loaded.Some? ==>
        && initializePtr == Lookup(loaded.value, InitializeSymbol)
        && createDelegatePtr == Lookup(loaded.value, CreateDelegateSymbol)
        && shutdownPtr == Lookup(loaded.value, ShutdownSymbol)
      ensures loaded.Some? && FirstMissingSymbol(loaded.value).Some? ==>
        && report == SymbolNotFound(FirstMissingSymbol(loaded.value).value)
        && calls == old(calls) + [LoadLibrary(InteropRuntimePath(p, dotnetLibsDir))]
        && hostHandle == old(hostHandle) && domainId == old(domainId)
      ensures loaded.Some? && FirstMissingSymbol(loaded.value).None? ==>
        && calls == old(calls) + [LoadLibrary(InteropRuntimePath(p, dotnetLibsDir)),
                                  Initialize(dotnetLibsDir, AppDomainName, [TpaPropertyKey],
                                             [HostTpaList(p, dotnetLibsDir, entries)])]
        && hostHandle == handle && domainId == domain
        && report == if Succeeded(status) then Success else InitializeFailed(status)
    {
      var dotnetRuntimeLibName := "coreclr.dll";
      var coreClrPath := dotnetLibsDir + FsSeparator(p) + dotnetRuntimeLibName;
      calls := calls + [LoadLibrary(coreClrPath)];
      if loaded.None? {
        ok, report, state := false, LoadFailed(coreClrPath), Unstarted;
        return;
      }
      var coreClr := loaded.value;
      initializePtr := Lookup(coreClr, InitializeSymbol);
      createDelegatePtr := Lookup(coreClr, CreateDelegateSymbol);
      shutdownPtr := Lookup(coreClr, ShutdownSymbol);
      if initializePtr == Null {
        ok, report, state := false, SymbolNotFound(InitializeSymbol), Unstarted;
        return;
      }
      if createDelegatePtr == Null {
        ok, report, state := false, SymbolNotFound(CreateDelegateSymbol), Unstarted;
        return;
      }
      if shutdownPtr == Null {
        ok, report, state := false, SymbolNotFound(ShutdownSymbol), Unstarted;
        return;
      }

      state := Unstarted;
      var tapList, built := BuildTpaList(p, dotnetLibsDir, ".dll", entries, "");
      if built != Returned(true) {
        ok, report := false, TpaListFailed;
        return;
      }
      var propertyKeys := [TpaPropertyKey];
      var propertyValues := [tapList];

      assert tapList == HostTpaList(p, dotnetLibsDir, entries);
      calls := calls + [Initialize(dotnetLibsDir, AppDomainName, propertyKeys, propertyValues)];
      hostHandle, domainId := handle, domain;
      if status < 0 {
        ok, report, state := false, InitializeFailed(status), Unstarted;
        return;
      }
      ok, report, state := true, Success, Started;
    }

    /** A runtime-allocated return value is released unless it is null. */
    method ReleaseReturn(returnToRelease: Ptr) returns (ok: bool)
      ensures ok <==> returnToRelease != Null
    {
      if returnToRelease == Null {
        return false;
      }
      ok := true;
    }

    /** Resolves `namespaceName.className::functionName` in `assemblyName`;
        `status` and `delegate` are what coreclr_create_delegate returns. */
    method GetFunction(assemblyName: string, namespaceName: string, className: string,
                       functionName: string, status: int32, delegate: Ptr)
      returns (ok: bool, functionPointer: Ptr, report: Report)
      requires Valid() && state == Started
      modifies this`calls
      ensures calls == old(calls) + [CreateDelegate(hostHandle, domainId, assemblyName,
                                                    FullTypeName(namespaceName, className), functionName)]
      ensures ok <==> Succeeded(status)
      ensures report == if ok then Success else DelegateFailed(status)
      ensures functionPointer == delegate
    {
      var fullClassName := namespaceName;
      fullClassName := fullClassName + ".";
      fullClassName := fullClassName + className;
      calls := calls + [CreateDelegate(hostHandle, domainId, assemblyName, fullClassName, functionName)];
      functionPointer := delegate;
      if status < 0 {
        ok, report := false, DelegateFailed(status);
        return;
      }
      ok, report := true, Success;
    }

    /** Shuts the runtime down; `status` is what coreclr_shutdown returns.
        The session is over whatever the status. */
    method End(status: int32) returns (ok: bool, report: Report)
      requires Valid() && state == Started
      modifies this`calls, this`state
      ensures calls == old(calls) + [Shutdown(hostHandle, domainId)]
      ensures ok <==> Succeeded(status)
      ensures report == if ok then Success else ShutdownFailed(status)
      ensures state == Stopped
    {
      calls := calls + [Shutdown(hostHandle, domainId)];
      state := Stopped;
      if status < 0 {
        ok, report := false, ShutdownFailed(status);
        return;
      }
      ok, report := true, Success;
    }

    /** The lister Init uses. On Windows (FindFirstFileA/FindNextFileA over
        `directory\*extension`) it appends one segment per enumerated file and
        returns true, also when nothing was found. On POSIX it is the lister
        that scans every entry (see BuildTpaListFirstMatch for the class's
        own POSIX lister as written), and it returns true as well. */
    method BuildTpaList(p: Platform, directory: string, extension: string,
                        entries: seq<string>, tapList: string)
      returns (result: string, exit: Exit)
      ensures exit == Returned(true)
      ensures p == Windows ==> result == tapList + Segments(Windows, directory, entries)
      ensures p != Windows ==> result == tapList + TpaList(p, directory, extension, entries)
    {
      if p == Windows {
        result := BuildTpaListWindows(directory, entries, tapList);
      } else {
        result := BuildTpaListPosix(p, directory, extension, entries, tapList);
      }
      exit := Returned(true);
    }

    /** The class's POSIX lister as written: it returns true right after
        appending the first accepted entry, and when no entry is accepted
        control runs off the end of the function without a return value. */
    method BuildTpaListFirstMatch(p: Platform, directory: string, extension: string,
                                  entries: seq<string>, tapList: string)
      returns (result: string, exit: Exit)
      requires p != Windows
      ensures FirstMatch(entries, extension).None? ==> exit == FellOffEnd && result == tapList
      ensures FirstMatch(entries, extension).Some? ==>
        && exit == Returned(true)
        && result == tapList + Segment(p, directory, FirstMatch(entries, extension).value)
    {
      result := tapList;
      var i := 0;
      while i < |entries|
        invariant 0 <= i <= |entries|
        invariant FirstMatch(entries[..i], extension).None?
        invariant result == tapList
      {
        var filename := entries[i];
        FirstMatchStep(entries, i, extension);
        var extensionPosition := |filename| - |extension|;
        if extensionPosition <= 0 || filename[extensionPosition..] != extension {
          assert !HasExtension(filename, extension);
          i := i + 1;
          continue;
        }
        assert HasExtension(filename, extension);
        result := result + directory + FsSeparator(p) + filename + PathDelimiter(p);
        return result, Returned(true);
      }
      assert entries[..i] == entries;
      exit := FellOffEnd;
    }
  }
}
