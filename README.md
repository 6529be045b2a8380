# CoreCLR native host sample, modelled in Dafny

This project models the logic of a native executable that hosts the .NET Core
runtime (CoreCLR) in two versions. One is a free-function program
(`UnmanagedExecutable.cpp`). The other is a session class, `DotNetCoreInterop`
(`dotnetcore_interop.cpp`).

The free program runs these steps in order:

- locate the executable's directory;
- load the runtime library from it and resolve the three hosting entry points
  `coreclr_initialize`, `coreclr_create_delegate` and `coreclr_shutdown`;
- build the trusted platform assemblies (TPA) list of that directory;
- start the runtime with that list as its only property;
- resolve a managed delegate by assembly, type and method name;
- shut the runtime down.

The class does not locate the executable. Its `Init` loads the runtime library
from the directory its caller passes in, and builds the TPA list of that same
directory. Its other methods resolve a delegate (`GetFunction`), shut the
runtime down (`End`) and release a returned buffer (`ReleaseReturn`).

Everything that crosses into the operating system or the runtime is a foreign
call. The model makes each one an input:

- a loaded library is an `Image`, the map from exported symbol names to
  addresses; a failed load is `None`;
- a directory listing is the sequence of names the enumeration yields;
- each hosting call is the `int32` status it returns, plus its out-values.

What the host asks of the loader, the runtime and managed code is recorded as
a trace of `HostCall` values. The console line it reports is a `Report`.

Modules, one per concern:

- `HostPlatform` (host_platform.dfy): the platform constants `FS_SEPARATOR`,
  `PATH_DELIMITER` and `CORECLR_FILE_NAME` for Windows, Linux and OSX.
- `Hosting` (hosting.dfy): the foreign boundary. It holds pointers, images,
  symbol lookup, the order in which symbols are checked, the rule that a
  status is a success exactly when it is `>= 0`, the call trace and the reports.
- `Paths` (paths.dfy): `strrchr` as `LastIndexOf`, the directory and name of a
  path, `GetCurrentDir` over a `char` array, and the runtime and managed
  library paths.
- `Tpa` (tpa.dfy): the extension filter, the list segments, the parse back
  into paths, and the Windows and POSIX list builders.
- `Interop` (interop.dfy): the class `DotNetCoreInterop` with its five fields.
- `UnmanagedExecutable` (unmanaged_executable.dfy): the run of `main` and the
  progress callback.

Points of the code that shape the model:

- The class has no guard against calling `GetFunction` or `End` before a
  successful `Init`: calling through its null or stale pointers is undefined.
  The model therefore makes `state == Started` a precondition of `GetFunction`
  and `End`. The state is a ghost field, since the class keeps no state of
  this kind.
- The free `main` checks neither the `DoWork` result nor the release, and it
  returns 0 when shutdown fails. The model returns 0 there too.
- `Init` in the class loads `dir + FS_SEPARATOR + "coreclr.dll"` on every
  platform, not `CORECLR_FILE_NAME`. `InteropRuntimePathIsWindowsName` shows
  that the two names agree only on Windows.
- `UnmanagedExecutable.cpp` does not compile as written. `argv` is undeclared
  in `GetCurrentDir`. `coreClr` stands for `coreClrModule`. `runtimePath` is out
  of scope at the initialize call. `BuildTpaList` is called with a
  `std::string` before it is declared. The model follows the evident intent in
  each case: the executable's resolved path is an input, the loaded module is
  used, the app base path is the executable's directory, and the directory
  string is passed.

## Model

| member | source | states |
|---|---|---|
| `HostPlatform.DelimiterChar` | src/UnmanagedExecutable/typedefs.hpp:9-18 | `PATH_DELIMITER` is one character and differs from the one character of `FS_SEPARATOR` on every platform. |
| `Hosting.FirstMissingSymbol` | src/UnmanagedExecutable/dotnetcore_interop.cpp:83-97 | The reported missing symbol is the first null one in the order initialize, create_delegate, shutdown. It is `None` exactly when all three resolve. |
| `Paths.LastIndexOf` | src/UnmanagedExecutable/UnmanagedExecutable.cpp:18 | `strrchr`: the result is -1 or an index holding the character, and no later index holds it. |
| `Paths.GetCurrentDir` | src/UnmanagedExecutable/UnmanagedExecutable.cpp:9-22 | The method writes NUL over the last `FS_SEPARATOR[0]` of the resolved path in a `char` buffer and reads the buffer back. The result is the path before its last separator, or the whole path if it has none (`DirName`). |
| `Paths.SplitJoinPath` | src/UnmanagedExecutable/UnmanagedExecutable.cpp:18-21 | Cutting `dir + FS_SEPARATOR + name` at its last separator gives back `dir` and `name`, provided `name` holds no separator. |
| `Paths.JoinSplitPath` | src/UnmanagedExecutable/UnmanagedExecutable.cpp:18-21 | In the other direction, a path that holds a separator is the join of its directory part and its name part. |
| `Paths.CoreClrPathInDirectory` | src/UnmanagedExecutable/UnmanagedExecutable.cpp:27-29 | The runtime library path lies directly in the executable's directory and is named `CORECLR_FILE_NAME`. |
| `Paths.ManagedLibraryPathInDirectory` | src/UnmanagedExecutable/UnmanagedExecutable.cpp:47-51 | The managed library path is `ManagedLibrary.dll` inside `netstandard2.0` inside the executable's directory. |
| `Tpa.HasExtensionIff` | src/UnmanagedExecutable/UnmanagedExecutable.cpp:246-250 | The POSIX filter accepts a name exactly when it is a non-empty stem followed by the extension. The match is case-sensitive, and the iff holds in both directions. |
| `Tpa.BareExtensionRejected` | src/UnmanagedExecutable/dotnetcore_interop.cpp:230-232 | A name equal to the extension (`.dll`) is rejected, while `a.dll` is accepted. |
| `Tpa.MatchingMembers` | src/UnmanagedExecutable/UnmanagedExecutable.cpp:240-256 | The accepted entries are exactly the listed names that have the extension. |
| `Tpa.FirstMatchIsFirstOfMatching` | src/UnmanagedExecutable/dotnetcore_interop.cpp:224-238 | The entry the early-returning scan stops at is the first accepted entry of the full scan, or none when nothing is accepted. |
| `Tpa.TpaListEmptyIff` | src/UnmanagedExecutable/UnmanagedExecutable.cpp:240-265 | The POSIX list is empty exactly when no entry has the extension. |
| `Tpa.SplitSegments` | src/UnmanagedExecutable/UnmanagedExecutable.cpp:253-256 | Splitting the concatenated `dir + FS_SEPARATOR + name + PATH_DELIMITER` segments at the delimiter gives one path per name, in order. This holds when neither `dir` nor a name holds the delimiter. |
| `Tpa.TpaListReadsBack` | src/UnmanagedExecutable/UnmanagedExecutable.cpp:234-266 | The POSIX list reads back as the paths of exactly the entries with the extension, in enumeration order. No other entry is included and none is dropped. |
| `Tpa.BuildTpaListWindows` | src/UnmanagedExecutable/UnmanagedExecutable.cpp:194-230 | The loop appends one segment per enumerated file, in enumeration order, after the earlier buffer contents, which stay unchanged. Nothing is appended when nothing is enumerated. |
| `Tpa.BuildTpaListPosix` | src/UnmanagedExecutable/UnmanagedExecutable.cpp:234-266 | The loop scans every entry, skips names of length `<=` the extension's or with another suffix, and leaves the buffer as its old contents followed by the segments of the accepted entries. |
| `Interop.InteropRuntimePathIsWindowsName` | src/UnmanagedExecutable/dotnetcore_interop.cpp:57-60 | `Init` loads `dir + FS_SEPARATOR + "coreclr.dll"`, which equals the `CORECLR_FILE_NAME` path exactly on Windows. |
| `Interop.SplitFullTypeName` | src/UnmanagedExecutable/dotnetcore_interop.cpp:151-153 | The type name `namespace + "." + class` cut at its last dot gives back the namespace and the class, provided the class name holds no dot. |
| `Interop.FirstMatchKeepsOneEntry` | src/UnmanagedExecutable/dotnetcore_interop.cpp:224-249 | The class's POSIX lister leaves a list that reads back as one path. The full scan leaves one path per accepted entry. |
| `Interop.FirstMatchCounterexample` | src/UnmanagedExecutable/dotnetcore_interop.cpp:224-249 | With two assemblies listed, the early return keeps only the first. With no assembly listed, no entry matches and the function runs off its end. |
| `Interop.DotNetCoreInterop.constructor` | src/UnmanagedExecutable/dotnetcore_interop.cpp:41-48 | All three entry points and the host handle are null, the domain id is 0, the session is unstarted and nothing has been called. |
| `Interop.DotNetCoreInterop.Init` | src/UnmanagedExecutable/dotnetcore_interop.cpp:54-129 | A failed load reports `LoadFailed` for the `coreclr.dll` path and leaves every field unchanged. Otherwise the three lookups are stored. The first null one, in the fixed order, is reported, and then initialize is never called. With all three present, initialize is called once, with the directory as app base, `"DotNetHostInterop"`, and the single property `TRUSTED_PLATFORM_ASSEMBLIES` mapped to the directory's TPA list, built by `BuildTpaList` (on POSIX the corrected lister, see Findings). Its handle and domain are stored, and success holds exactly when its status is `>= 0`. |
| `Interop.DotNetCoreInterop.ReleaseReturn` | src/UnmanagedExecutable/dotnetcore_interop.cpp:131-144 | The result is false for a null buffer and true otherwise. |
| `Interop.DotNetCoreInterop.GetFunction` | src/UnmanagedExecutable/dotnetcore_interop.cpp:146-163 | The method makes one create_delegate call with the stored handle and domain and the type name `namespace + "." + class`. It succeeds exactly when the status is `>= 0`. |
| `Interop.DotNetCoreInterop.End` | src/UnmanagedExecutable/dotnetcore_interop.cpp:165-176 | The method makes one shutdown call with the stored handle and domain. It succeeds exactly when the status is `>= 0`, and the session is stopped either way. |
| `Interop.DotNetCoreInterop.BuildTpaList` | src/UnmanagedExecutable/dotnetcore_interop.cpp:178-216 | The lister `Init` uses. It always returns true, also when nothing was enumerated. On Windows it leaves the old buffer followed by one segment per enumerated file, in enumeration order. On POSIX it is the corrected lister (see Findings): the old buffer followed by the segments of every entry with the extension. |
| `Interop.DotNetCoreInterop.BuildTpaListFirstMatch` | src/UnmanagedExecutable/dotnetcore_interop.cpp:219-249 | This models the code as written. With a match, it appends only the first accepted entry's segment and returns true. Without a match, it leaves the buffer unchanged and exits without a return value (`FellOffEnd`). |
| `UnmanagedExecutable.ReportProgressCallback` | src/UnmanagedExecutable/UnmanagedExecutable.cpp:270-275 | The callback returns the negation of the progress value. The least `int`, whose negation overflows in C, is excluded. |
| `UnmanagedExecutable.HostMain` | src/UnmanagedExecutable/UnmanagedExecutable.cpp:44-189 | The exit code is -1 exactly on a failed load, a null symbol (the first in order is reported), a negative initialize status or a negative delegate status. After such a failure no later call is made. Otherwise the calls are load, initialize, create_delegate, invoke, free and shutdown, and the exit code is 0 even when the shutdown status is negative (then `ShutdownFailed` is reported). |

## Findings

| source | as written | input that shows it | evidently intended | confidence | as-written member | corrected member |
|---|---|---|---|---|---|---|
| src/UnmanagedExecutable/dotnetcore_interop.cpp:224-249 | The POSIX `BuildTpaList` of the class returns true right after appending the first accepted entry. When no entry is accepted, control leaves this `bool` function without a return value. | The listing `System.Runtime.dll`, `System.Console.dll` keeps only the first; the listing `.`, `..`, `readme.txt` runs off the end | Scan every entry and return true, as the free `BuildTpaList` (UnmanagedExecutable.cpp:240-265) and the Windows variant do | high; not executed | `Interop.DotNetCoreInterop.BuildTpaListFirstMatch` (with `Interop.FirstMatchCounterexample`, `Interop.FirstMatchKeepsOneEntry`) | `Tpa.BuildTpaListPosix` (with `Tpa.TpaListReadsBack`) |

`Interop.DotNetCoreInterop.Init` builds its list with the corrected POSIX
lister. The as-written one stays in the model only to exhibit the difference.

## Left out

- Dynamic loading and symbol lookup (`LoadLibraryExA`, `dlopen`,
  `GetProcAddress`, `dlsym`) are foreign. The loader's result is an input
  `Option<Image>` and a lookup reads the image's export map.
- The CoreCLR entry points are foreign. Each call is a trace entry plus the
  status and out-values given as inputs. What the runtime does with the TPA
  list is not modelled.
- Directory enumeration (`opendir`/`readdir`, `FindFirstFileA`/`FindNextFileA`)
  is foreign. The listing is an input sequence. On Windows it stands for what
  the `dir\*ext` search pattern matched, since that matching is done by the
  operating system. An `opendir` failure is not modelled: the source does not
  check it and passes the null result straight to `readdir`.
- Path resolution (`realpath`, `GetFullPathNameA`) is foreign. The resolved path
  is an input without NUL characters. Its `MAX_PATH` limit and its failure are
  not modelled.
- Console output (`printf`) is not modelled. Only which report is made is kept,
  not its text or the hexadecimal status format.
- Memory release (`free`, `CoTaskMemFree`) is not modelled. Only the null check
  in `ReleaseReturn` and the free step in the trace of `main` are kept.
- Invoking the managed `DoWork` and `BoolReturn` delegates, the callbacks managed
  code makes, and the `double` sample data are foreign managed code and
  floating point. `main`'s invocation is the trace entry `InvokeDelegate`.
- The `int` conversion of `length - extension_length` in the POSIX filters is
  not modelled. It only wraps for names longer than 2^31 characters, so the
  model uses unbounded integer subtraction.
- The class's failed `Init` leaves the session unstarted even when the failure
  comes before any field was overwritten. This model state is conservative and
  only ever forbids calls.
- `Interop.DotNetCoreInterop.Init` uses the corrected POSIX lister, so it
  does not show the early return of the class's own POSIX lister (see Findings).
  In the model every lister `Init` uses returns true, so its failure branch for
  a failed list build (dotnetcore_interop.cpp:101-105) is kept but never
  taken. In the source the class's POSIX lister returns no value when nothing
  matches, so the test at line 101 reads an undefined value and that branch
  may fire.
- main.cpp is not part of this model. It is a linear driver over the class, and
  its callback duplicates `ReportProgressCallback`.
- dotnetcore_interop.h and typedefs.hpp hold only declarations and constants.
  The constants are in `HostPlatform`.
- Program.cs is not part of this model. It calls a managed library that is not
  available.
