/** The operating-system dependent constants of the host (the FS_SEPARATOR,
    PATH_DELIMITER and CORECLR_FILE_NAME macros), selected by the platform
    the host is built for. OSX is the Linux build with a different runtime
    library name. */
module HostPlatform {

  datatype Platform = Windows | Linux | OSX

  /** FS_SEPARATOR: separates a directory from the name of an entry in it. */
  function FsSeparator(p: Platform): (r: string) {
    if p == Windows then "\\" else "/"
  }

  /** PATH_DELIMITER: separates (here: terminates) the entries of a path list. */
  function PathDelimiter(p: Platform): (r: string) {
    if p == Windows then ";" else ":"
  }

  /** CORECLR_FILE_NAME: the file name of the runtime's shared library. */
  function CoreClrFileName(p: Platform): (r: string) {
    match p
    case Windows => "coreclr.dll"
    case Linux => "libcoreclr.so"
    case OSX => "libcoreclr.dylib"
  }

  /** FS_SEPARATOR[0], the character the directory of a path is cut at. */
  function SeparatorChar(p: Platform): (c: char)
    ensures FsSeparator(p) == [c]
    ensures [c] != PathDelimiter(p)
  {
    FsSeparator(p)[0]
  }

  /** The one character of PATH_DELIMITER. */
  function DelimiterChar(p: Platform): (c: char)
    ensures PathDelimiter(p) == [c]
    ensures c != SeparatorChar(p)
  {
    PathDelimiter(p)[0]
  }
}
