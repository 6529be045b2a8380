/** The free-function host: it locates its own directory, loads the runtime
    library next to it, resolves the hosting entry points, starts the
    runtime with the TPA list of that directory, resolves and invokes the
    managed DoWork delegate, releases its result and shuts the runtime down. */
module UnmanagedExecutable {
  import opened HostPlatform
  import opened Hosting
  import opened Paths
  import opened Tpa

  const AppDomainName: string := "SampleHost"
  const ManagedAssemblyName: string := "ManagedLibrary, Version=1.0.0.0"
  const ManagedTypeName: string := "ManagedLibrary.ManagedWorker"
  const ManagedMethodName: string := "DoWork"

  /** The callback handed to managed code: it answers a progress value with
      its negation. Negating the least `int` overflows in C, so that value is
      excluded. */
  function ReportProgressCallback(progress: int32): (r: int32)
    requires progress != -0x8000_0000
    ensures r as int + progress as int == 0
  {
    -progress
  }

  /** The whole run. `exePath` is the executable's resolved path; `loaded`
      what the loader returns for the runtime library path; `entries` the
      enumeration of the executable's directory; `initStatus`, `handle` and
      `domain` what coreclr_initialize returns; `delegateStatus` and
      `shutdownStatus` what coreclr_create_delegate and coreclr_shutdown
      return. The result is the exit code, the requests made of the loader,
      the runtime and managed code in order, and the last line reported. */
  method HostMain(p: Platform, exePath: string, loaded: Option<Image>, entries: seq<string>,
                  initStatus: int32, handle: Ptr, domain: uint32,
                  delegateStatus: int32, shutdownStatus: int32)
    returns (exitCode: int, calls: seq<HostCall>, report: Report)
    requires '\0' !in exePath
    ensures exitCode == 0 || exitCode == -1
    ensures exitCode == -1 <==>
      loaded.None? || FirstMissingSymbol(loaded.value).Some? ||
      !Succeeded(initStatus) || !Succeeded(delegateStatus)
    ensures var dir := DirName(exePath, SeparatorChar(p));
      var load := LoadLibrary(CoreClrPath(p, dir));
      var init := Initialize(dir, AppDomainName, [TpaPropertyKey], [HostTpaList(p, dir, entries)]);
      var create := CreateDelegate(handle, domain, ManagedAssemblyName, ManagedTypeName, ManagedMethodName);
      && (loaded.None? ==>
            calls == [load] && report == LoadFailed(CoreClrPath(p, dir)))
      && (loaded.Some? && FirstMissingSymbol(loaded.value).Some? ==>
            calls == [load] && report == SymbolNotFound(FirstMissingSymbol(loaded.value).value))
      && (loaded.Some? && FirstMissingSymbol(loaded.value).None? && !Succeeded(initStatus) ==>
            calls == [load, init] && report == InitializeFailed(initStatus))
      && (loaded.Some? && FirstMissingSymbol(loaded.value).None? && Succeeded(initStatus) &&
          !Succeeded(delegateStatus) ==>
            calls == [load, init, create] && report == DelegateFailed(delegateStatus))
      && (exitCode == 0 ==>
            && calls == [load, init, create, InvokeDelegate, FreeReturned, Shutdown(handle, domain)]
            && report == if Succeeded(shutdownStatus) then Success else ShutdownFailed(shutdownStatus))
  {
    calls := [];
    // The managed library path is built but not used further.
    var managedLibraryDir := GetCurrentDir(p, exePath);
    var managedLibraryPath := ManagedLibraryPath(p, managedLibraryDir);

    // STEP 1: LoadCoreCLR
    var currentDir := GetCurrentDir(p, exePath);
    var coreClrPath := CoreClrPath(p, currentDir);
    calls := calls + [LoadLibrary(coreClrPath)];
    if loaded.None? {
      return -1, calls, LoadFailed(coreClrPath);
    }
    var coreClrModule := loaded.value;

    // STEP 2: the hosting functions
    var initializeCoreClr := Lookup(coreClrModule, InitializeSymbol);
    var createManagedDelegate := Lookup(coreClrModule, CreateDelegateSymbol);
    var shutdownCoreClr := Lookup(coreClrModule, ShutdownSymbol);
    if initializeCoreClr == Null {
      return -1, calls, SymbolNotFound(InitializeSymbol);
    }
    if createManagedDelegate == Null {
      return -1, calls, SymbolNotFound(CreateDelegateSymbol);
    }
    if shutdownCoreClr == Null {
      return -1, calls, SymbolNotFound(ShutdownSymbol);
    }

    // STEP 3: the TPA list of the executable's directory
    var tpaDir := GetCurrentDir(p, exePath);
    var tpaList := "";
    if p == Windows {
      tpaList := BuildTpaListWindows(tpaDir, entries, tpaList);
    } else {
      tpaList := BuildTpaListPosix(p, tpaDir, ".dll", entries, tpaList);
    }
    var propertyKeys := [TpaPropertyKey];
    var propertyValues := [tpaList];

    // STEP 4: start the runtime, with the executable's directory as the app base path
    assert tpaList == HostTpaList(p, currentDir, entries);
    calls := calls + [Initialize(currentDir, AppDomainName, propertyKeys, propertyValues)];
    var hostHandle, domainId := handle, domain;
    if initStatus < 0 {
      return -1, calls, InitializeFailed(initStatus);
    }

    // STEP 5: resolve DoWork, invoke it, release the string it returns
    calls := calls + [CreateDelegate(hostHandle, domainId, ManagedAssemblyName, ManagedTypeName,
                                     ManagedMethodName)];
    if delegateStatus < 0 {
      return -1, calls, DelegateFailed(delegateStatus);
    }
    calls := calls + [InvokeDelegate, FreeReturned];

    // STEP 6: shut down; a failure is reported but the run still succeeds
    calls := calls + [Shutdown(hostHandle, domainId)];
    if shutdownStatus >= 0 {
      report := Success;
    } else {
      report := ShutdownFailed(shutdownStatus);
    }
    exitCode := 0;
  }
}
