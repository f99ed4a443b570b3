/**
 * `getPnpmVirtualStoreDir` of src/utils.ts: where pnpm's virtual store lives, read from
 * `<node_modules>/.modules.yaml`, with `<node_modules>/.pnpm` as the fallback.
 *
 * The source finds the value with `/^\s*virtualStoreDir:\s*(.+)\s*$/m`. With the `m` flag `^` is a
 * line start, but `\s` also matches line terminators, so:
 *   - the key counts when only whitespace (blank lines included) precedes it on its line;
 *   - when nothing follows the key on its line, `\s*` moves on to the next non-blank line and
 *     captures that line instead;
 *   - the first key for which the rest of the expression matches wins.
 */
module VirtualStore {
  import opened Wrappers
  import opened JsText
  import opened NodePath
  import opened Environment

  const Key := "virtualStoreDir:"

  /** `^\s*` can end at k: from some line start up to k there is only whitespace. */
  predicate BlankBefore(s: string, k: nat)
    requires k <= |s|
  {
    k == 0 || IsLineTerminator(s[k - 1]) || (IsSpace(s[k - 1]) && BlankBefore(s, k - 1))
  }

  /** The key's text starts at k. */
  predicate KeyOccurs(s: string, k: int) {
    0 <= k && k + |Key| <= |s| && s[k..k + |Key|] == Key
  }

  /** The key starts at k and `^\s*` can reach it. */
  predicate KeyAt(s: string, k: nat) {
    KeyOccurs(s, k) && BlankBefore(s, k)
  }

  /** The end of the whitespace run that starts at i (`\s*`, greedy). */
  function SkipSpaces(s: string, i: nat): (j: nat)
    requires i <= |s|
    ensures i <= j <= |s|
    ensures AllSpace(s[i..j])
    ensures j == |s| || !IsSpace(s[j])
    decreases |s| - i
  {
    if i < |s| && IsSpace(s[i]) then
      var j := SkipSpaces(s, i + 1);
      assert s[i..j] == [s[i]] + s[i + 1..j];
      j
    else i
  }

  /** Where `.+` starting at i stops: at the first line terminator, or at the end. */
  function LineEnd(s: string, i: nat): (j: nat)
    requires i <= |s|
    ensures i <= j <= |s|
    ensures NoLineTerminator(s[i..j])
    ensures j == |s| || IsLineTerminator(s[j])
    decreases |s| - i
  {
    if i < |s| && !IsLineTerminator(s[i]) then
      var j := LineEnd(s, i + 1);
      assert s[i..j] == [s[i]] + s[i + 1..j];
      j
    else i
  }

  /** The last position in [from, to) that `.` can match, found as `\s*` gives back characters. */
  function LastNonTerminator(s: string, lo: nat, hi: nat): (r: Option<nat>)
    requires lo <= hi <= |s|
    ensures r.Some? ==> lo <= r.value < hi && !IsLineTerminator(s[r.value])
    ensures r.Some? ==> forall q :: r.value < q < hi ==> IsLineTerminator(s[q])
    ensures r.None? ==> forall q :: lo <= q < hi ==> IsLineTerminator(s[q])
    decreases hi
  {
    if hi == lo then None
    else if !IsLineTerminator(s[hi - 1]) then Some(hi - 1)
    else LastNonTerminator(s, lo, hi - 1)
  }

  /** What group 1 of `\s*(.+)\s*$` captures when the match continues at v, or None when it cannot. */
  function ValueAfter(s: string, v: nat): (r: Option<string>)
    requires v <= |s|
    ensures r.Some? ==> r.value != "" && NoLineTerminator(r.value)
  {
    var e := SkipSpaces(s, v);
    if e < |s| then Some(s[e..LineEnd(s, e)])
    else match LastNonTerminator(s, v, |s|)
      case None => None
      case Some(q) => Some(s[q..LineEnd(s, q)])
  }

  predicate MatchesAt(s: string, k: nat) {
    KeyAt(s, k) && ValueAfter(s, k + |Key|).Some?
  }

  /** The first key at or after k where the whole expression matches. */
  function FirstMatch(s: string, k: nat): (r: Option<nat>)
    ensures r.Some? ==> k <= r.value && MatchesAt(s, r.value)
    ensures r.Some? ==> forall j :: k <= j < r.value ==> !MatchesAt(s, j)
    ensures r.None? ==> forall j :: k <= j ==> !MatchesAt(s, j)
    decreases |s| - k
  {
    if k + |Key| > |s| then None
    else if MatchesAt(s, k) then Some(k)
    else FirstMatch(s, k + 1)
  }

  /** `.replace(/^q(.*)q$/, '$1')`: one surrounding pair of q is dropped. */
  function Unquote(q: char, s: string): (r: string)
    ensures NoLineTerminator(s) ==> NoLineTerminator(r)
    ensures !Quoted(q, s) ==> r == s
    ensures r == s || (Quoted(q, s) && |r| == |s| - 2 && r == s[1..|s| - 1])
  {
    if |s| >= 2 && s[0] == q && s[|s| - 1] == q && NoLineTerminator(s[1..|s| - 1]) then s[1..|s| - 1] else s
  }

  predicate Quoted(q: char, s: string) {
    |s| >= 2 && s[0] == q && s[|s| - 1] == q
  }

  /** Double quotes first, then single quotes, as the two `replace` calls do. */
  function StripQuotes(s: string): (r: string)
    ensures !Quoted('"', s) && !Quoted('\'', s) ==> r == s
    ensures |r| <= |s| && (|r| == |s| || |r| == |s| - 2 || |r| == |s| - 4)
  {
    Unquote('\'', Unquote('"', s))
  }

  /** The captured text trimmed and unquoted; None when nothing is left. */
  function Interpret(captured: string): (r: Option<string>)
    ensures r.Some? ==> r.value != ""
    ensures r.Some? && NoLineTerminator(captured) ==> NoLineTerminator(r.value)
  {
    var v := StripQuotes(Trim(captured));
    if v == "" then None else Some(v)
  }

  /** Group 1 of the first match, or None when no line matches. */
  function Capture(text: string): (r: Option<string>)
    ensures r.Some? ==> r.value != "" && NoLineTerminator(r.value)
    ensures r.Some? ==> exists k :: KeyAt(text, k)
  {
    var m := FirstMatch(text, 0);
    if m.None? then None else ValueAfter(text, m.value + |Key|)
  }

  /**
   * The configured virtual store directory of a `.modules.yaml` text: the value the first matching
   * key captures, trimmed and unquoted; None when no line matches or the value is empty.
   */
  function ManifestValue(text: string): (r: Option<string>)
    ensures r.Some? ==> r.value != "" && NoLineTerminator(r.value)
    ensures r.Some? ==> exists k :: KeyAt(text, k)
  {
    var c := Capture(text);
    if c.None? then None else Interpret(c.value)
  }

  /** `getPnpmVirtualStoreDir(nodeModules)` */
  method GetPnpmVirtualStoreDir(host: Host, nodeModules: string) returns (r: string)
    ensures host.readFile(Join(host.path, [nodeModules, ".modules.yaml"])).None?
      ==> r == Join(host.path, [nodeModules, ".pnpm"])
    ensures forall text :: host.readFile(Join(host.path, [nodeModules, ".modules.yaml"])) == Some(text) ==>
              r == (match ManifestValue(text)
                    case None => Join(host.path, [nodeModules, ".pnpm"])
                    case Some(v) => host.path.resolve([nodeModules, v]))
    ensures r == Join(host.path, [nodeModules, ".pnpm"])
      || exists v :: v != "" && r == host.path.resolve([nodeModules, v])
  {
    var manifestPath := Join(host.path, [nodeModules, ".modules.yaml"]);
    var manifest := host.readFile(manifestPath);
    if manifest.Some? {
      var value := ManifestValue(manifest.value);
      if value.Some? {
        return host.path.resolve([nodeModules, value.value]);
      }
    }
    return Join(host.path, [nodeModules, ".pnpm"]);
  }

  /** The whitespace run that starts at i ends at the first non-whitespace character. */
  lemma {:induction false} SkipSpacesAt(s: string, i: nat, j: nat)
    requires i <= j <= |s| && AllSpace(s[i..j]) && (j == |s| || !IsSpace(s[j]))
    ensures SkipSpaces(s, i) == j
  {
  }

  /** `.+` from i stops at the first line terminator. */
  lemma {:induction false} LineEndAt(s: string, i: nat, j: nat)
    requires i <= j <= |s| && NoLineTerminator(s[i..j]) && (j == |s| || IsLineTerminator(s[j]))
    ensures LineEnd(s, i) == j
  {
  }

  /** No key occurs in `pre`, which is empty or ends a line. */
  ghost predicate KeyFreeLines(pre: string) {
    (pre == "" || IsLineTerminator(pre[|pre| - 1])) && forall j :: !KeyOccurs(pre, j)
  }

  /** The first match is the one no earlier key position beats. */
  lemma {:induction false} FirstMatchAt(text: string, k: nat)
    requires MatchesAt(text, k)
    requires forall j :: 0 <= j < k ==> !MatchesAt(text, j)
    ensures FirstMatch(text, 0) == Some(k)
  {
  }

  /** After lines free of the key, no key starts before the lines end. */
  lemma {:induction false} NoKeyBefore(pre: string, tail: string, j: nat)
    requires KeyFreeLines(pre) && j < |pre|
    ensures !KeyOccurs(pre + tail, j)
  {
    var text := pre + tail;
    if j + |Key| <= |pre| {
      assert !KeyOccurs(pre, j);
      assert pre[j..j + |Key|] == text[j..j + |Key|];
    } else if j + |Key| <= |text| {
      var m := |pre| - 1 - j;
      assert text[j..j + |Key|][m] == pre[|pre| - 1];
      assert !IsLineTerminator(Key[m]);
    }
  }

  /** Whitespace, then a word ended by a line feed: the capture is the word. */
  lemma {:induction false} CaptureAfterGap(text: string, v: nat, gap: string, word: string)
    requires AllSpace(gap)
    requires word != "" && NoLineTerminator(word) && !IsSpace(word[0])
    requires v + |gap| + |word| < |text|
    requires text[v..v + |gap|] == gap && text[v + |gap|..v + |gap| + |word|] == word
    requires text[v + |gap| + |word|] == '\n'
    ensures ValueAfter(text, v) == Some(word)
  {
    var e := v + |gap|;
    assert text[e] == word[0];
    SkipSpacesAt(text, v, e);
    LineEndAt(text, e, e + |word|);
  }

  /**
   * A key line after lines without the key: the line's text after the key and its whitespace is what
   * the expression captures, whatever comes later in the file.
   */
  lemma {:induction false} KeyLineCaptures(pre: string, gap: string, word: string, rest: string)
    requires KeyFreeLines(pre)
    requires AllSpace(gap)
    requires word != "" && NoLineTerminator(word) && !IsSpace(word[0])
    ensures FirstMatch(pre + Key + gap + word + "\n" + rest, 0) == Some(|pre|)
    ensures ValueAfter(pre + Key + gap + word + "\n" + rest, |pre| + |Key|) == Some(word)
  {
    var tail := Key + gap + word + "\n" + rest;
    var text := pre + tail;
    assert text == pre + Key + gap + word + "\n" + rest;
    var k, v := |pre|, |pre| + |Key|;
    assert text[k..v] == Key;
    assert BlankBefore(text, k);
    assert text[v..v + |gap|] == gap;
    assert text[v + |gap|..v + |gap| + |word|] == word;
    CaptureAfterGap(text, v, gap, word);
    forall j | 0 <= j < k ensures !MatchesAt(text, j) {
      NoKeyBefore(pre, tail, j);
    }
    FirstMatchAt(text, k);
  }

  /** What the manifest yields once the capture is known. */
  lemma {:induction false} ManifestFromCapture(text: string, k: nat, captured: string)
    requires FirstMatch(text, 0) == Some(k)
    requires ValueAfter(text, k + |Key|) == Some(captured)
    ensures ManifestValue(text) == Interpret(captured)
  {
    assert Capture(text) == Some(captured);
  }

  /** A value without quotes comes back as written, trailing blanks dropped. */
  lemma {:induction false} InterpretPlain(v: string, trailing: string)
    requires v != "" && !IsSpace(v[0]) && !IsSpace(v[|v| - 1])
    requires !Quoted('"', v) && !Quoted('\'', v)
    requires AllSpace(trailing)
    ensures Interpret(v + trailing) == Some(v)
  {
    assert Trim(v + trailing) == v by { TrimTrailing(v, trailing); }
    assert Unquote('"', v) == v;
    assert Unquote('\'', v) == v;
  }

  /** A double-quoted value comes back without its quotes; `""` is an empty value. */
  lemma {:induction false} InterpretQuoted(v: string)
    requires NoLineTerminator(v) && !Quoted('\'', v)
    ensures Interpret("\"" + v + "\"") == if v == "" then None else Some(v)
  {
    var w := "\"" + v + "\"";
    TrimUnpadded(w);
    assert w[1..|w| - 1] == v;
    assert Unquote('\'', v) == v;
    assert Unquote('"', w) == v;
  }

  /** A one-line text wrapped in a pair of quotes stays on one line, and `Unquote` unwraps it. */
  lemma {:induction false} UnquoteWrapped(q: char, v: string)
    requires NoLineTerminator(v) && !IsLineTerminator(q)
    ensures NoLineTerminator([q] + v + [q])
    ensures Unquote(q, [q] + v + [q]) == v
  {
    var w := [q] + v + [q];
    assert w[1..|w| - 1] == v;
    forall k | 0 <= k < |w| ensures !IsLineTerminator(w[k]) {
      if 0 < k < |w| - 1 { assert w[k] == v[k - 1]; }
    }
  }

  /** A single-quoted value comes back without its quotes; `''` is an empty value. */
  lemma {:induction false} InterpretSingleQuoted(v: string)
    requires NoLineTerminator(v)
    ensures Interpret("'" + v + "'") == if v == "" then None else Some(v)
  {
    var w := ['\''] + v + ['\''];
    TrimUnpadded(w);
    UnquoteWrapped('\'', v);
    assert !Quoted('"', w);
  }

  /** Both layers come off a value wrapped first in single and then in double quotes. */
  lemma {:induction false} InterpretBothQuotes(v: string)
    requires NoLineTerminator(v)
    ensures Interpret("\"'" + v + "'\"") == if v == "" then None else Some(v)
  {
    var u := ['\''] + v + ['\''];
    var w := ['"'] + u + ['"'];
    assert "\"'" + v + "'\"" == w;
    TrimUnpadded(w);
    UnquoteWrapped('\'', v);
    UnquoteWrapped('"', u);
  }

  /**
   * The order matters: double quotes inside single quotes survive, since the double-quote
   * replacement runs first and finds a single quote at each end.
   */
  lemma {:induction false} InterpretQuotesOrder(v: string)
    requires NoLineTerminator(v)
    ensures Interpret("'\"" + v + "\"'") == Some("\"" + v + "\"")
  {
    var u := ['"'] + v + ['"'];
    var w := ['\''] + u + ['\''];
    assert "'\"" + v + "\"'" == w;
    TrimUnpadded(w);
    UnquoteWrapped('"', v);
    UnquoteWrapped('\'', u);
    assert !Quoted('"', w);
  }

  /** The round trip of a plain value: `virtualStoreDir: <v>` reads back as v, trailing blanks dropped. */
  lemma {:induction false} ManifestPlainValue(pre: string, v: string, trailing: string, rest: string)
    requires KeyFreeLines(pre)
    requires v != "" && NoLineTerminator(v) && !IsSpace(v[0]) && !IsSpace(v[|v| - 1])
    requires !Quoted('"', v) && !Quoted('\'', v)
    requires AllSpace(trailing) && NoLineTerminator(trailing)
    ensures ManifestValue(pre + Key + " " + (v + trailing) + "\n" + rest) == Some(v)
  {
    var w := v + trailing;
    assert w[0] == v[0];
    assert NoLineTerminator(w) by {
      forall k | 0 <= k < |w| ensures !IsLineTerminator(w[k]) {
        if k < |v| { assert w[k] == v[k]; } else { assert w[k] == trailing[k - |v|]; }
      }
    }
    KeyLineCaptures(pre, " ", w, rest);
    InterpretPlain(v, trailing);
    ManifestFromCapture(pre + Key + " " + w + "\n" + rest, |pre|, w);
  }

  /**
   * The round trip of a double-quoted value: `virtualStoreDir: "<v>"` reads back as v, and
   * `virtualStoreDir: ""` as no value, so that the default directory is used.
   */
  lemma {:induction false} ManifestQuotedValue(pre: string, v: string, rest: string)
    requires KeyFreeLines(pre)
    requires NoLineTerminator(v) && !Quoted('\'', v)
    ensures ManifestValue(pre + Key + " " + ("\"" + v + "\"") + "\n" + rest) == if v == "" then None else Some(v)
  {
    var w := "\"" + v + "\"";
    assert NoLineTerminator(w) by {
      forall k | 0 <= k < |w| ensures !IsLineTerminator(w[k]) {
        if 0 < k < |w| - 1 { assert w[k] == v[k - 1]; }
      }
    }
    KeyLineCaptures(pre, " ", w, rest);
    InterpretQuoted(v);
    ManifestFromCapture(pre + Key + " " + w + "\n" + rest, |pre|, w);
  }

  /**
   * The round trip of a single-quoted value: `virtualStoreDir: '<v>'` reads back as v, and
   * `virtualStoreDir: ''` as no value.
   */
  lemma {:induction false} ManifestSingleQuoted(pre: string, v: string, rest: string)
    requires KeyFreeLines(pre)
    requires NoLineTerminator(v)
    ensures ManifestValue(pre + Key + " " + ("'" + v + "'") + "\n" + rest) == if v == "" then None else Some(v)
  {
    var w := "'" + v + "'";
    assert NoLineTerminator(w) by {
      forall k | 0 <= k < |w| ensures !IsLineTerminator(w[k]) {
        if 0 < k < |w| - 1 { assert w[k] == v[k - 1]; }
      }
    }
    KeyLineCaptures(pre, " ", w, rest);
    InterpretSingleQuoted(v);
    ManifestFromCapture(pre + Key + " " + w + "\n" + rest, |pre|, w);
  }

  /**
   * A key with nothing after it on its line takes its value from the next non-blank line,
   * because `\s*` crosses line terminators.
   */
  lemma {:induction false} ManifestValueOnNextLine(pre: string, v: string, rest: string)
    requires KeyFreeLines(pre)
    requires v != "" && NoLineTerminator(v) && !IsSpace(v[0]) && !IsSpace(v[|v| - 1])
    requires !Quoted('"', v) && !Quoted('\'', v)
    ensures ManifestValue(pre + Key + "\n" + v + "\n" + rest) == Some(v)
  {
    assert AllSpace("\n");
    KeyLineCaptures(pre, "\n", v, rest);
    InterpretPlain(v, "");
    assert v + "" == v;
    ManifestFromCapture(pre + Key + "\n" + v + "\n" + rest, |pre|, v);
  }

  /** A text without the key yields no value, so the default directory is used. */
  lemma {:induction false} ManifestWithoutKey(text: string)
    requires forall j :: !KeyOccurs(text, j)
    ensures ManifestValue(text) == None
  {
  }
}
