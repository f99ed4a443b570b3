/**
 * Node's `path` module, as far as the plugin uses it. Everything that depends on the platform or on
 * the current working directory (normalisation, `resolve`, `dirname`) is a function the host supplies;
 * `join` is written out because its handling of empty segments decides what the plugin returns.
 */
module NodePath {
  import opened JsText

  datatype Platform = Platform(
    sep: char,                           // path.sep: '/' on POSIX, '\\' on Windows
    normalize: string -> string,         // path.normalize of a non-empty path
    resolve: seq<string> -> string,      // path.resolve(...segments), reads the working directory
    dirname: string -> string)           // path.dirname

  /** The segments `path.join` keeps: it ignores zero-length ones. */
  function NonEmpty(segments: seq<string>): (r: seq<string>)
    ensures forall i :: 0 <= i < |r| ==> r[i] != ""
    ensures |r| <= |segments|
  {
    if segments == [] then []
    else if segments[0] == "" then NonEmpty(segments[1..])
    else [segments[0]] + NonEmpty(segments[1..])
  }

  /**
   * `path.join(...segments)`: the non-empty segments glued with the separator and normalised;
   * when no segment is left the answer is ".", the current directory.
   */
  function Join(p: Platform, segments: seq<string>): (r: string)
    ensures NonEmpty(segments) == [] ==> r == "."
  {
    var parts := NonEmpty(segments);
    if parts == [] then "." else p.normalize(JoinWith(parts, p.sep))
  }

  /** `path.join` of one path: "." when that path is empty, its normal form otherwise. */
  lemma {:induction false} JoinOne(p: Platform, path: string)
    ensures Join(p, [path]) == if path == "" then "." else p.normalize(path)
  {
    assert NonEmpty([path]) == (if path == "" then [] else [path]);
  }
}
