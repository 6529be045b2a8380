/** The boundary to the hosted runtime. Every call across it is foreign: the
    model sees a loaded library as the table of symbols it exports, and each
    hosting call as the status code (and out-values) the runtime hands back,
    supplied by the caller as an input. What the host asks of the runtime is
    recorded as a trace of HostCall values. */
module Hosting {

  /** A C `int` (status codes, progress values). */
  newtype int32 = x: int | -0x8000_0000 <= x < 0x8000_0000

  /** A C `unsigned int` (the application domain identifier). */
  newtype uint32 = x: int | 0 <= x < 0x1_0000_0000

  /** An opaque native pointer: a function pointer, a handle, a returned buffer. */
  datatype Ptr = Null | Addr(address: nat)

  /** A runtime library image that the loader opened: the address each exported symbol resolves to. */
  datatype Image = Image(exports: map<string, Ptr>)

  const InitializeSymbol: string := "coreclr_initialize"
  const CreateDelegateSymbol: string := "coreclr_create_delegate"
  const ShutdownSymbol: string := "coreclr_shutdown"

  /** The only runtime property the host passes to initialize. */
  const TpaPropertyKey: string := "TRUSTED_PLATFORM_ASSEMBLIES"

  /** dlsym / GetProcAddress: null for a symbol the image does not export. */
  function Lookup(image: Image, symbol: string): (r: Ptr)
    ensures symbol !in image.exports ==> r == Null
  {
    if symbol in image.exports then image.exports[symbol] else Null
  }

  /** The first of the three hosting symbols, in the order the host checks
      them (initialize, create_delegate, shutdown), that resolves to null. */
  function FirstMissingSymbol(image: Image): (r: Option<string>)
    ensures r == None <==>
      Lookup(image, InitializeSymbol) != Null &&
      Lookup(image, CreateDelegateSymbol) != Null &&
      Lookup(image, ShutdownSymbol) != Null
    ensures r == Some(InitializeSymbol) <==> Lookup(image, InitializeSymbol) == Null
    ensures r == Some(CreateDelegateSymbol) <==>
      Lookup(image, InitializeSymbol) != Null && Lookup(image, CreateDelegateSymbol) == Null
    ensures r == Some(ShutdownSymbol) <==>
      Lookup(image, InitializeSymbol) != Null && Lookup(image, CreateDelegateSymbol) != Null &&
      Lookup(image, ShutdownSymbol) == Null
  {
    if Lookup(image, InitializeSymbol) == Null then Some(InitializeSymbol)
    else if Lookup(image, CreateDelegateSymbol) == Null then Some(CreateDelegateSymbol)
    else if Lookup(image, ShutdownSymbol) == Null then Some(ShutdownSymbol)
    else None
  }

  /** The runtime's convention for every hosting call: a negative status is a failure. */
  predicate Succeeded(status: int32) {
    status >= 0
  }

  /** A request the host makes of the loader, the runtime or managed code. */
  datatype HostCall =
    | LoadLibrary(path: string)
    | Initialize(appBasePath: string, appDomainName: string,
                 propertyKeys: seq<string>, propertyValues: seq<string>)
    | CreateDelegate(hostHandle: Ptr, domainId: uint32,
                     assemblyName: string, typeName: string, methodName: string)
    | InvokeDelegate
    | FreeReturned
    | Shutdown(hostHandle: Ptr, domainId: uint32)

  /** The error (or success) line the host reports on the console. */
  datatype Report =
    | LoadFailed(path: string)
    | SymbolNotFound(symbol: string)
    | TpaListFailed
    | InitializeFailed(status: int32)
    | DelegateFailed(status: int32)
    | ShutdownFailed(status: int32)
    | Success

  datatype Option<+T> = None | Some(value: T)
}
