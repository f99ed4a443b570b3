/**
 * The few pieces of ECMAScript string and regular-expression semantics the plugin relies on:
 * which characters `\s` matches and `trim()` removes, which ones `.` refuses to match,
 * `startsWith`, and `split`/`join` on a one-character separator.
 */
module JsText {

  /** LineTerminator: LF, CR, LINE SEPARATOR, PARAGRAPH SEPARATOR. `.` matches every other character. */
  predicate IsLineTerminator(c: char) {
    c == '\n' || c == '\r' || c == '\U{2028}' || c == '\U{2029}'
  }

  /** WhiteSpace or LineTerminator: what `\s` matches and what `String.prototype.trim` removes. */
  predicate IsSpace(c: char) {
    IsLineTerminator(c) || c == '\t' || c == '\U{000B}' || c == '\U{000C}' || c == ' '
    || c == '\U{00A0}' || c == '\U{1680}' || ('\U{2000}' <= c <= '\U{200A}')
    || c == '\U{202F}' || c == '\U{205F}' || c == '\U{3000}' || c == '\U{FEFF}'
  }

  predicate NoLineTerminator(s: string) {
    forall k :: 0 <= k < |s| ==> !IsLineTerminator(s[k])
  }

  predicate AllSpace(s: string) {
    forall k :: 0 <= k < |s| ==> IsSpace(s[k])
  }

  /** `s.startsWith(prefix)` */
  predicate StartsWith(s: string, prefix: string) {
    |prefix| <= |s| && s[..|prefix|] == prefix
  }

  /** `startsWith` compares the prefix with the text character by character. */
  lemma {:induction false} StartsWithIndex(s: string, prefix: string)
    ensures StartsWith(s, prefix) <==> |prefix| <= |s| && forall i :: 0 <= i < |prefix| ==> s[i] == prefix[i]
  {
    if |prefix| <= |s| && forall i :: 0 <= i < |prefix| ==> s[i] == prefix[i] {
      assert s[..|prefix|] == prefix;
    }
  }

  /** `trim()` at the front: drops the leading run of whitespace and nothing else. */
  function TrimStart(s: string): (r: string)
    ensures |r| <= |s| && r == s[|s| - |r|..]
    ensures AllSpace(s[..|s| - |r|])
    ensures r == [] || !IsSpace(r[0])
  {
    if s != [] && IsSpace(s[0]) then TrimStart(s[1..]) else s
  }

  /** `trim()` at the back: drops the trailing run of whitespace and nothing else. */
  function TrimEnd(s: string): (r: string)
    ensures |r| <= |s| && r == s[..|r|]
    ensures AllSpace(s[|r|..])
    ensures r == [] || !IsSpace(r[|r| - 1])
  {
    if s != [] && IsSpace(s[|s| - 1]) then TrimEnd(s[..|s| - 1]) else s
  }

  /** `String.prototype.trim` */
  function Trim(s: string): (r: string)
    ensures NoLineTerminator(s) ==> NoLineTerminator(r)
  {
    var a := TrimStart(s);
    assert forall i :: 0 <= i < |a| ==> a[i] == s[|s| - |a| + i];
    TrimEnd(a)
  }

  /** `trim()` at the front stops at the first character that is not whitespace. */
  lemma {:induction false} TrimStartOf(front: string, rest: string)
    requires AllSpace(front)
    requires rest == [] || !IsSpace(rest[0])
    ensures TrimStart(front + rest) == rest
    decreases |front|
  {
    if front == [] {
      assert front + rest == rest;
    } else {
      var s := front + rest;
      assert s[0] == front[0];
      assert s[1..] == front[1..] + rest;
      TrimStartOf(front[1..], rest);
    }
  }

  /** `trim()` at the back stops at the last character that is not whitespace. */
  lemma {:induction false} TrimEndOf(rest: string, back: string)
    requires AllSpace(back)
    requires rest == [] || !IsSpace(rest[|rest| - 1])
    ensures TrimEnd(rest + back) == rest
    decreases |back|
  {
    if back == [] {
      assert rest + back == rest;
    } else {
      var s := rest + back;
      var shorter := back[..|back| - 1];
      assert s[|s| - 1] == back[|back| - 1];
      assert s[..|s| - 1] == rest + shorter;
      TrimEndOf(rest, shorter);
    }
  }

  /** Trailing whitespace after a word with no whitespace at its ends is exactly what `trim()` takes away. */
  lemma {:induction false} TrimTrailing(word: string, back: string)
    requires AllSpace(back)
    requires word != [] && !IsSpace(word[0]) && !IsSpace(word[|word| - 1])
    ensures Trim(word + back) == word
  {
    TrimStartOf([], word + back);
    assert [] + (word + back) == word + back;
    TrimEndOf(word, back);
  }

  /** A word with no whitespace at its ends is left alone by `trim()`. */
  lemma {:induction false} TrimUnpadded(word: string)
    requires word != [] && !IsSpace(word[0]) && !IsSpace(word[|word| - 1])
    ensures Trim(word) == word
  {
    TrimStartOf([], word);
    assert [] + word == word;
    TrimEndOf(word, []);
    assert word + [] == word;
  }

  /** Whitespace around a word with no whitespace at its ends is exactly what `trim()` takes away. */
  lemma {:induction false} TrimPadding(front: string, word: string, back: string)
    requires AllSpace(front) && AllSpace(back)
    requires word == [] || (!IsSpace(word[0]) && !IsSpace(word[|word| - 1]))
    ensures Trim(front + word + back) == word
  {
    if word == [] {
      var s := front + back;
      assert AllSpace(s) by {
        forall k | 0 <= k < |s| ensures IsSpace(s[k]) {
          if k < |front| { assert s[k] == front[k]; } else { assert s[k] == back[k - |front|]; }
        }
      }
      TrimStartOf(s, []);
      assert s + [] == front + word + back;
      TrimEndOf([], []);
    } else {
      TrimStartOf(front, word + back);
      assert front + (word + back) == front + word + back;
      TrimEndOf(word, back);
    }
  }

  /** `s.split(c)` for a one-character separator: "" splits to [""] and every separator opens a new piece. */
  function Split(s: string, c: char): (r: seq<string>)
    ensures |r| >= 1
    ensures forall i :: 0 <= i < |r| ==> c !in r[i]
    decreases |s|
  {
    if s == [] then [""]
    else if s[0] == c then [""] + Split(s[1..], c)
    else
      var rest := Split(s[1..], c);
      [[s[0]] + rest[0]] + rest[1..]
  }

  /** `pieces.join(c)` */
  function JoinWith(pieces: seq<string>, c: char): string
    decreases |pieces|
  {
    if pieces == [] then ""
    else if |pieces| == 1 then pieces[0]
    else pieces[0] + [c] + JoinWith(pieces[1..], c)
  }

  /**
   * Joining separator-free pieces starts with the first piece and puts exactly one separator
   * between each neighbouring pair.
   */
  lemma {:induction false} JoinWithSeparators(pieces: seq<string>, c: char)
    requires pieces != []
    requires forall i :: 0 <= i < |pieces| ==> c !in pieces[i]
    ensures StartsWith(JoinWith(pieces, c), pieces[0])
    ensures multiset(JoinWith(pieces, c))[c] == |pieces| - 1
    decreases |pieces|
  {
    assert c !in multiset(pieces[0]);
    if |pieces| > 1 {
      assert JoinWith(pieces, c) == pieces[0] + ([c] + JoinWith(pieces[1..], c));
    }
    if |pieces| > 1 {
      JoinWithSeparators(pieces[1..], c);
    }
  }

  /** Splitting undoes joining, for any non-empty list of pieces free of the separator. */
  lemma {:induction false} SplitJoin(pieces: seq<string>, c: char)
    requires |pieces| >= 1
    requires forall i :: 0 <= i < |pieces| ==> c !in pieces[i]
    ensures Split(JoinWith(pieces, c), c) == pieces
    decreases |pieces|, |pieces[0]|
  {
    var head := pieces[0];
    if head == [] {
      if |pieces| > 1 {
        SplitJoin(pieces[1..], c);
        assert JoinWith(pieces, c) == [c] + JoinWith(pieces[1..], c);
        assert JoinWith(pieces, c)[1..] == JoinWith(pieces[1..], c);
        assert pieces == [""] + pieces[1..];
      }
    } else {
      var shorter := [head[1..]] + pieces[1..];
      SplitJoin(shorter, c);
      assert shorter[1..] == pieces[1..];
      if |pieces| == 1 {
        assert JoinWith(shorter, c) == head[1..];
      } else {
        assert JoinWith(shorter, c) == head[1..] + [c] + JoinWith(pieces[1..], c);
        assert JoinWith(pieces, c) == head + [c] + JoinWith(pieces[1..], c);
      }
      assert JoinWith(pieces, c) == [head[0]] + JoinWith(shorter, c);
      assert JoinWith(pieces, c)[1..] == JoinWith(shorter, c);
      assert head[0] != c by { assert head[0] in pieces[0]; }
      assert [head[0]] + head[1..] == head;
    }
  }

  /** Joining undoes splitting, whatever the string. */
  lemma {:induction false} JoinSplit(s: string, c: char)
    ensures JoinWith(Split(s, c), c) == s
    decreases |s|
  {
    if s == [] {
    } else if s[0] == c {
      JoinSplit(s[1..], c);
      assert s == [c] + s[1..];
    } else {
      JoinSplit(s[1..], c);
      var rest := Split(s[1..], c);
      assert Split(s, c)[1..] == rest[1..];
      if |rest| > 1 {
        assert JoinWith(rest, c) == rest[0] + [c] + JoinWith(rest[1..], c);
      }
      assert s == [s[0]] + s[1..];
    }
  }
}
