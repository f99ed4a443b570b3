/**
 * `walkBack` of src/utils.ts: the path up to and including its last `node_modules` component.
 *
 * The source matches the resolved path against
 * `(.*[\\/]node_modules)(?:[\\/].+?$|[\\/]?$)` with the `i` flag and no `m` flag. So
 *   - `.` never crosses a line terminator and `$` is the end of the input: the whole match lies in the
 *     text after the last line terminator (for an ordinary path, the whole path);
 *   - a "cut" at index i means: a separator, then `node_modules` in any case, ending at i, and then
 *     either the end or another separator;
 *   - the greedy `.*` picks the last cut.
 */
module ModuleRoot {
  import opened Wrappers
  import opened JsText
  import opened NodePath

  const NodeModules := "node_modules"

  predicate IsSep(c: char) {
    c == '/' || c == '\\'
  }

  /** ASCII case folding; under the `i` flag no other character folds onto a letter of `node_modules`. */
  function Lower(c: char): char {
    if 'A' <= c <= 'Z' then (c as int + 32) as char else c
  }

  predicate IsNodeModules(w: string) {
    |w| == |NodeModules| && forall k :: 0 <= k < |w| ==> Lower(w[k]) == NodeModules[k]
  }

  /** `line[..i]` ends in a separator followed by `node_modules`, and a separator or the end follows. */
  predicate IsCut(line: string, i: int) {
    13 <= i <= |line| && IsSep(line[i - 13]) && IsNodeModules(line[i - 12..i])
    && (i == |line| || IsSep(line[i]))
  }

  /** The shape of every non-empty answer: it ends in a separator and a `node_modules` component. */
  predicate EndsWithRoot(r: string) {
    |r| >= 13 && IsSep(r[|r| - 13]) && IsNodeModules(r[|r| - 12..])
  }

  /** The index just after the last line terminator of s (0 when there is none). */
  function LastLineStart(s: string): (k: nat)
    ensures k <= |s|
    ensures k == 0 || IsLineTerminator(s[k - 1])
    ensures NoLineTerminator(s[k..])
    ensures NoLineTerminator(s) ==> k == 0
  {
    if s == [] then 0
    else if IsLineTerminator(s[|s| - 1]) then |s|
    else
      var k := LastLineStart(s[..|s| - 1]);
      assert s[k..] == s[..|s| - 1][k..] + [s[|s| - 1]];
      k
  }

  /** The text the regular expression can match in: what follows the last line terminator. */
  function LastLine(s: string): (line: string)
    ensures NoLineTerminator(line)
    ensures NoLineTerminator(s) ==> line == s
  {
    s[LastLineStart(s)..]
  }

  /** The largest cut at or below i, found by giving back one character at a time as `.*` does. */
  function LastCut(line: string, i: nat): (r: Option<nat>)
    requires i <= |line|
    ensures r.Some? ==> r.value <= i && IsCut(line, r.value)
    ensures forall j :: IsCut(line, j) && j <= i ==> r.Some? && j <= r.value
    decreases i
  {
    if i < 13 then None
    else if IsCut(line, i) then Some(i)
    else LastCut(line, i - 1)
  }

  /** The group `walkBack` returns for an already resolved path, or "" when the expression does not match. */
  function MatchRoot(resolved: string): (r: string)
    ensures r == "" <==> forall i :: !IsCut(LastLine(resolved), i)
    ensures r != "" ==> |r| <= |LastLine(resolved)| && r == LastLine(resolved)[..|r|]
    ensures r != "" ==> IsCut(LastLine(resolved), |r|)
    ensures r != "" ==> forall i :: IsCut(LastLine(resolved), i) ==> i <= |r|
    ensures r != "" ==> EndsWithRoot(r) && NoLineTerminator(r)
    ensures NoLineTerminator(resolved) ==> StartsWith(resolved, r)
  {
    var line := LastLine(resolved);
    match LastCut(line, |line|)
    case None => ""
    case Some(i) =>
      assert line[..i][i - 12..] == line[i - 12..i];
      line[..i]
  }

  /** `walkBack(startPath)`: resolve the path on the host, then take its last `node_modules` root. */
  function WalkBack(p: Platform, startPath: string): (r: string)
    ensures r == "" || EndsWithRoot(r)
  {
    MatchRoot(p.resolve([startPath]))
  }

  /** A root maps to itself: walking back from an answer gives the same answer. */
  lemma {:induction false} MatchRootIdempotent(s: string)
    ensures MatchRoot(MatchRoot(s)) == MatchRoot(s)
  {
    var r := MatchRoot(s);
    if r != "" {
      assert LastLine(r) == r;
      assert r[|r| - 12..|r|] == r[|r| - 12..];
      assert IsCut(r, |r|);
      assert r[..|r|] == r;
    }
  }

  /** A line that ends in a `node_modules` component is its own root. */
  lemma {:induction false} RootIsFixed(s: string)
    requires NoLineTerminator(s) && EndsWithRoot(s)
    ensures MatchRoot(s) == s
  {
    assert LastLine(s) == s;
    assert s[|s| - 12..|s|] == s[|s| - 12..];
    assert IsCut(s, |s|);
    assert s[..|s|] == s;
  }

  /** A separator inside `node_modules`? Never: none of its letters folds onto a separator. */
  lemma {:induction false} NoSepInNodeModules(w: string, k: nat)
    requires IsNodeModules(w) && k < |w|
    ensures !IsSep(w[k])
  {
    assert Lower(w[k]) == NodeModules[k];
  }

  /** A cut of root + tail that starts inside tail is a cut of tail. */
  lemma {:induction false} CutInTail(root: string, tail: string, i: int)
    requires IsCut(root + tail, i) && i - 13 >= |root|
    ensures IsCut(tail, i - |root|)
  {
    var s, j := root + tail, i - |root|;
    assert tail[j - 12..j] == s[i - 12..i];
    assert j < |tail| ==> tail[j] == s[i];
  }

  /**
   * Descending below a root without crossing another `node_modules` component leaves the answer
   * unchanged: `walkBack(<root>/gatsby/dist)` is `<root>`.
   */
  lemma {:induction false} MatchRootBelowRoot(root: string, tail: string)
    requires NoLineTerminator(root + tail) && EndsWithRoot(root)
    requires tail == "" || IsSep(tail[0])
    requires forall j :: !IsCut(tail, j)
    ensures MatchRoot(root + tail) == root
  {
    var s := root + tail;
    assert LastLine(s) == s;
    assert s[..|root|] == root;
    assert s[|root| - 12..|root|] == root[|root| - 12..];
    assert IsCut(s, |root|);
    forall i | IsCut(s, i) ensures i <= |root| {
      if i > |root| {
        var j := i - |root|;
        if i - 13 < |root| {
          assert s[|root|] == tail[0];
          NoSepInNodeModules(s[i - 12..i], |root| - (i - 12));
          assert false;
        }
        CutInTail(root, tail, i);
        assert false;
      }
    }
  }

  /** Only `n` and `N` fold onto `n`. */
  lemma {:induction false} LowerIsNotN(c: char)
    requires c != 'n' && c != 'N'
    ensures Lower(c) != 'n'
  {
  }

  /** Text without `n` or `N`. */
  predicate NoLetterN(s: string) {
    'n' !in s && 'N' !in s
  }

  /** Without `n` or `N` there is no `node_modules` component, so no cut. */
  lemma {:induction false} NoCutWithoutN(line: string)
    requires NoLetterN(line)
    ensures forall i :: !IsCut(line, i)
  {
    forall i | 13 <= i <= |line| ensures !IsCut(line, i) {
      var w := line[i - 12..i];
      assert w[0] == line[i - 12] && line[i - 12] in line;
      LowerIsNotN(w[0]);
      assert !IsNodeModules(w);
    }
  }

  /** `walkBack` returns "" for any text with no `n` or `N`. */
  lemma {:induction false} NoRootWithoutN(s: string)
    requires NoLetterN(s)
    ensures MatchRoot(s) == ""
  {
    var k := LastLineStart(s);
    var line := LastLine(s);
    forall j | 0 <= j < |line| ensures line[j] != 'n' && line[j] != 'N' {
      assert line[j] == s[k + j] && s[k + j] in s;
    }
    NoCutWithoutN(line);
  }

  /** The file-system root of the test suite has no `node_modules` component: "". */
  lemma {:induction false} NoRootAtFileSystemRoot()
    ensures MatchRoot("/") == ""
  {
    NoRootWithoutN("/");
  }

  /** The test suite's path without `node_modules` gives "". */
  lemma {:induction false} NoRootInPlainPath()
    ensures MatchRoot("/asdf/123/4321/fdsa/foo/bar/baz/boom") == ""
  {
    NoRootWithoutN("/asdf/123/4321/fdsa/foo/bar/baz/boom");
  }

  lemma {:induction false} NoLineTerminatorConcat(a: string, b: string)
    requires NoLineTerminator(a) && NoLineTerminator(b)
    ensures NoLineTerminator(a + b)
  {
    var ab := a + b;
    forall k | 0 <= k < |ab| ensures !IsLineTerminator(ab[k]) {
      if k < |a| { assert ab[k] == a[k]; } else { assert ab[k] == b[k - |a|]; }
    }
  }

  /** Below a root, a path tail without another `node_modules` component walks back to the root. */
  lemma {:induction false} BelowRoot(dir: string, component: string, tail: string)
    requires NoLineTerminator(dir) && NoLineTerminator(component) && NoLineTerminator(tail)
    requires EndsWithRoot(dir + component)
    requires NoLetterN(tail) && tail != "" && IsSep(tail[0])
    ensures MatchRoot(dir + component + tail) == dir + component
  {
    NoLineTerminatorConcat(dir, component);
    NoLineTerminatorConcat(dir + component, tail);
    NoCutWithoutN(tail);
    MatchRootBelowRoot(dir + component, tail);
  }

  /** The nested-path example of the test suite with `/`: `<dir>/node_modules/gatsby/dist`. */
  lemma {:induction false} NestedSlashExample(dir: string)
    requires NoLineTerminator(dir)
    ensures MatchRoot(dir + "/node_modules" + "/gatsby/dist") == dir + "/node_modules"
  {
    var r := dir + "/node_modules";
    assert r[|r| - 13..] == "/node_modules";
    BelowRoot(dir, "/node_modules", "/gatsby/dist");
  }

  /** The nested-path example of the test suite with `\`: `<dir>\node_modules\test\dist`. */
  lemma {:induction false} NestedBackslashExample(dir: string)
    requires NoLineTerminator(dir)
    ensures MatchRoot(dir + "\\node_modules" + "\\test\\dist") == dir + "\\node_modules"
  {
    var r := dir + "\\node_modules";
    assert r[|r| - 13..] == "\\node_modules";
    BelowRoot(dir, "\\node_modules", "\\test\\dist");
  }
}
