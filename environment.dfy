/**
 * The host the plugin runs in: the file system, the module loader and Node's `path`, each as an oracle
 * that answers `None` where the real call would throw. Also `fileExists` and `isDir` of src/utils.ts,
 * the two probes that turn a `stat` error into "absent" and "not a directory".
 */
module Environment {
  import opened Wrappers
  import opened NodePath

  /** What the plugin reads from `fs.Stats`. */
  datatype Stats = Stats(isDirectory: bool)

  /** `require.resolve` of a loader made by `createRequire`: None when resolution throws. */
  type Loader = string -> Option<string>

  datatype Host = Host(
    path: Platform,
    stat: string -> Option<Stats>,                         // fs.stat; None on any error
    realpath: string -> Option<string>,                    // fs.realpath; None on any error
    readFile: string -> Option<string>,                    // fs.readFile(_, 'utf8'); None on any error
    requireResolve: (string, seq<string>) -> Option<string>,  // require.resolve(name, { paths }); None when it throws
    createRequire: string -> Option<Loader>)                // createRequire(base); None when it throws

  /** `fileExists`: never raises; a stat error of any kind, "not found" included, yields None. */
  method FileExists(host: Host, filepath: string) returns (r: Option<Stats>)
    ensures r.None? <==> host.stat(filepath).None?
    ensures r.Some? ==> r == host.stat(filepath)
  {
    r := host.stat(filepath);
  }

  /** `isDir`: true exactly for a path that stats as a directory; false on every stat error. */
  method IsDir(host: Host, pathname: string) returns (r: bool)
    ensures r <==> host.stat(pathname).Some? && host.stat(pathname).value.isDirectory
    ensures r ==> host.stat(pathname).Some?
  {
    var st := host.stat(pathname);
    if st.Some? {
      return st.value.isDirectory;
    }
    return false;
  }
}
