/**
 * `fixFrameworkCache` of src/fixes.ts. The bundler's `framework` cache group recognises its packages
 * with a regular expression over `node_modules/<name>/` paths, which misses packages reached through
 * pnpm's symlinks. The patch recovers the package names from the expression's text, resolves each
 * name to its real directory, and replaces `framework.test` in place with a prefix test on those
 * directories.
 */
module FrameworkCache {
  import opened Wrappers
  import opened JsText
  import opened NodePath
  import opened Environment

  /** What `framework.test` holds. */
  datatype Test =
    | Falsy                               // undefined, null, false, ...
    | RegExp(source: string, flags: string)
    | PrefixTest(dirs: seq<string>)       // `(mod) => isRootDependency(mod.resource)` over `dirs`
    | OtherTruthy                         // any other function or truthy value

  /** A module as the bundler hands it to `test`. */
  datatype FrameworkModule = FrameworkModule(resource: Option<string>)

  /** The `framework` cache group: the one object the patch writes to. */
  class CacheGroup {
    var test: Test
    var name: string
    var priority: int
    var enforce: bool

    constructor (test: Test, name: string, priority: int, enforce: bool)
      ensures this.test == test && this.name == name && this.priority == priority && this.enforce == enforce
    {
      this.test := test;
      this.name := name;
      this.priority := priority;
      this.enforce := enforce;
    }
  }

  /**
   * A property of the configuration as the shape guard sees it: missing or falsy, truthy but not
   * of type "object" (a function, a number, `true`), or an object.
   */
  datatype Slot<T> = Absent | NonObject | Object(value: T)

  datatype CacheGroups = CacheGroups(framework: Slot<CacheGroup>)
  datatype SplitChunks = SplitChunks(cacheGroups: Slot<CacheGroups>)
  datatype Optimization = Optimization(splitChunks: Slot<SplitChunks>)
  datatype Configuration = Configuration(optimization: Slot<Optimization>)

  /** `optimization.splitChunks.cacheGroups.framework` when every step of the path is an object. */
  function FrameworkGroup(config: Configuration): (r: Option<CacheGroup>)
    ensures r.Some? <==>
      config.optimization.Object? && config.optimization.value.splitChunks.Object?
      && config.optimization.value.splitChunks.value.cacheGroups.Object?
      && config.optimization.value.splitChunks.value.cacheGroups.value.framework.Object?
  {
    match config.optimization
    case Object(optimization) =>
      (match optimization.splitChunks
       case Object(splitChunks) =>
         (match splitChunks.cacheGroups
          case Object(cacheGroups) =>
            (match cacheGroups.framework
             case Object(framework) => Some(framework)
             case _ => None)
          case _ => None)
       case _ => None)
    case _ => None
  }

  /** The objects the patch may write to. */
  function Targets(config: Configuration): set<CacheGroup> {
    if FrameworkGroup(config).Some? then {FrameworkGroup(config).value} else {}
  }

  /** The guard: a framework group whose `test` is a regular expression. */
  predicate Patchable(config: Configuration): (r: bool)
    reads Targets(config)
    ensures r <==> Targets(config) != {} && forall g :: g in Targets(config) ==> g.test.RegExp?
  {
    FrameworkGroup(config).Some? && FrameworkGroup(config).value.test.RegExp?
  }

  /** `RegExp.prototype.toString`: `/source/flags`. */
  function RegExpText(source: string, flags: string): string {
    "/" + source + "/" + flags
  }

  /** The text is the source between two slashes, followed by the flags, and nothing else. */
  lemma {:induction false} RegExpTextParts(source: string, flags: string)
    ensures var r := RegExpText(source, flags);
            |r| == |source| + |flags| + 2
            && r[0] == '/' && r[|source| + 1] == '/'
            && r[1..|source| + 1] == source && r[|source| + 2..] == flags
  {
  }

  predicate IsClassChar(c: char) {
    c == '[' || c == '\\' || c == ']'
  }

  predicate Plain(s: string) {
    forall k :: 0 <= k < |s| ==> !IsClassChar(s[k])
  }

  /** `.replace(/[[\\\]]/g, '')`: every `[`, `\` and `]` removed, everything else kept in order. */
  function StripClassChars(s: string): (r: string)
    ensures Plain(r)
    ensures |r| <= |s|
    ensures Plain(s) ==> r == s
  {
    if s == [] then []
    else if IsClassChar(s[0]) then StripClassChars(s[1..])
    else [s[0]] + StripClassChars(s[1..])
  }

  /** One character: a class character is deleted, any other is kept as it is. */
  lemma {:induction false} StripOne(c: char)
    ensures StripClassChars([c]) == if IsClassChar(c) then [] else [c]
  {
    assert [c][1..] == [];
  }

  /** Stripping works piece by piece. */
  lemma {:induction false} StripConcat(a: string, b: string)
    ensures StripClassChars(a + b) == StripClassChars(a) + StripClassChars(b)
    decreases |a|
  {
    if a != [] {
      StripConcat(a[1..], b);
      assert (a + b)[1..] == a[1..] + b;
    } else {
      assert a + b == b;
    }
  }

  /** `.slice(1, -1)`: the first and the last character dropped. */
  function SliceInner(s: string): (r: string)
    ensures |s| >= 2 ==> [s[0]] + r + [s[|s| - 1]] == s
    ensures |s| < 2 ==> r == ""
  {
    if |s| >= 2 then s[1..|s| - 1] else ""
  }

  /**
   * `/\/\(([^)]+)\)\/$/` matches at p: `/(` at p, then at least one character other than `)`
   * up to the `)/` that ends the text.
   */
  predicate GroupAt(s: string, p: int) {
    0 <= p && p + 5 <= |s| && s[p] == '/' && s[p + 1] == '(' && s[|s| - 2] == ')' && s[|s| - 1] == '/'
    && forall k :: p + 2 <= k < |s| - 2 ==> s[k] != ')'
  }

  /** The leftmost position at or after p where the expression matches. */
  function FirstGroup(s: string, p: nat): (r: Option<nat>)
    ensures r.Some? ==> p <= r.value && GroupAt(s, r.value)
    ensures r.Some? ==> forall q :: p <= q < r.value ==> !GroupAt(s, q)
    ensures r.None? ==> forall q :: p <= q ==> !GroupAt(s, q)
    decreases |s| - p
  {
    if p + 5 > |s| then None
    else if GroupAt(s, p) then Some(p)
    else FirstGroup(s, p + 1)
  }

  /** Group 1 of the expression: the alternation inside the trailing `/( ... )/`. */
  function TrailingGroup(s: string): (r: Option<string>)
    ensures r.Some? ==> r.value != "" && ')' !in r.value
  {
    match FirstGroup(s, 0)
    case None => None
    case Some(p) => Some(s[p + 2..|s| - 2])
  }

  /** `/(` never occurs in s. */
  predicate NoOpenGroup(s: string) {
    forall p :: 0 <= p < |s| - 1 ==> !(s[p] == '/' && s[p + 1] == '(')
  }

  /** When no `/(` comes earlier, the trailing group is exactly the text between `/(` and `)/`. */
  lemma {:induction false} TrailingGroupOf(pre: string, body: string)
    requires NoOpenGroup(pre)
    requires body != "" && ')' !in body
    ensures TrailingGroup(pre + "/" + ("(" + body + ")") + "/") == Some(body)
  {
    var s := pre + "/" + ("(" + body + ")") + "/";
    var p := |pre|;
    assert s[p] == '/' && s[p + 1] == '(';
    assert s[p + 2..|s| - 2] == body;
    assert forall k :: p + 2 <= k < |s| - 2 ==> s[k] == body[k - p - 2];
    assert GroupAt(s, p);
    forall q | 0 <= q < p ensures !GroupAt(s, q) {
      if q < p - 1 {
        assert s[q] == pre[q] && s[q + 1] == pre[q + 1];
      } else {
        assert s[q + 1] == '/';
      }
    }
  }

  /** The framework package names written into the expression, or None when its text has no group. */
  function FrameworkNames(source: string, flags: string): (r: Option<seq<string>>)
    ensures r.Some? ==> |r.value| >= 1 && forall i :: 0 <= i < |r.value| ==> '|' !in r.value[i]
  {
    match TrailingGroup(SliceInner(StripClassChars(RegExpText(source, flags))))
    case None => None
    case Some(group) => Some(Split(group, '|'))
  }

  /** The look-behind that opens Gatsby's expression: only the first `node_modules` counts. */
  const Lookbehind := "(?<!node_modules.*)"

  /** Gatsby's way of writing the expression: the names, between separator classes `cls`. */
  function ConventionalSource(names: seq<string>, cls: string): string {
    Lookbehind + cls + "node_modules" + cls + ("(" + JoinWith(names, '|') + ")") + cls
  }

  /** Names that survive the string surgery unchanged. */
  predicate SimpleName(n: string) {
    n != "" && Plain(n) && '|' !in n && ')' !in n
  }

  lemma {:induction false} JoinedNamesPlain(names: seq<string>)
    requires forall i :: 0 <= i < |names| ==> SimpleName(names[i])
    ensures Plain(JoinWith(names, '|')) && ')' !in JoinWith(names, '|')
    decreases |names|
  {
    if |names| > 1 {
      JoinedNamesPlain(names[1..]);
      var rest := JoinWith(names[1..], '|');
      var j := JoinWith(names, '|');
      assert j == names[0] + ['|'] + rest;
      assert SimpleName(names[0]);
      forall k | 0 <= k < |j| ensures !IsClassChar(j[k]) && j[k] != ')' {
        if k < |names[0]| {
          assert j[k] == names[0][k];
        } else if k > |names[0]| {
          assert j[k] == rest[k - |names[0]| - 1];
        }
      }
    } else if |names| == 1 {
      assert SimpleName(names[0]);
    }
  }

  /** Stripping a piece without class characters leaves it as it is. */
  lemma {:induction false} StripPlainSuffix(a: string, b: string)
    requires Plain(b)
    ensures StripClassChars(a + b) == StripClassChars(a) + b
  {
    StripConcat(a, b);
  }

  /** The source written the conventional way loses its classes' brackets and backslashes. */
  lemma {:induction false} StrippedSource(lead: string, word: string, group: string, cls: string)
    requires Plain(lead) && Plain(word) && Plain(group)
    requires StripClassChars(cls) == "/"
    ensures StripClassChars(lead + cls + word + cls + group + cls) == lead + "/" + word + "/" + group + "/"
  {
    var y1 := lead + cls;
    var y2 := y1 + word;
    var y3 := y2 + cls;
    var y4 := y3 + group;
    assert StripClassChars(y1) == lead + "/" by { StripConcat(lead, cls); }
    assert StripClassChars(y2) == lead + "/" + word by { StripPlainSuffix(y1, word); }
    assert StripClassChars(y3) == lead + "/" + word + "/" by { StripConcat(y2, cls); }
    assert StripClassChars(y4) == lead + "/" + word + "/" + group by { StripPlainSuffix(y3, group); }
    StripConcat(y4, cls);
  }

  /** `toString` then stripping: the source stripped, between the two slashes. */
  lemma {:induction false} StrippedText(source: string)
    ensures StripClassChars(RegExpText(source, "")) == "/" + StripClassChars(source) + "/"
  {
    assert RegExpText(source, "") == "/" + source + "/";
    StripPlainSuffix("/" + source, "/");
    StripConcat("/", source);
  }

  lemma {:induction false} SliceInnerOf(x: string)
    ensures SliceInner("/" + x + "/") == x
  {
    var s := "/" + x + "/";
    assert s[1..|s| - 1] == x;
  }

  /** Joined simple names are not empty. */
  lemma {:induction false} JoinedNonEmpty(names: seq<string>)
    requires |names| >= 1 && SimpleName(names[0])
    ensures JoinWith(names, '|') != ""
  {
    if |names| > 1 { assert JoinWith(names, '|') == names[0] + ['|'] + JoinWith(names[1..], '|'); }
  }

  /** Joined simple names form a group body: not empty, no class characters, no `)`. */
  lemma {:induction false} JoinedGroup(names: seq<string>)
    requires |names| >= 1 && forall i :: 0 <= i < |names| ==> SimpleName(names[i])
    ensures JoinWith(names, '|') != "" && ')' !in JoinWith(names, '|')
    ensures Plain("(" + JoinWith(names, '|') + ")")
  {
    var joined := JoinWith(names, '|');
    JoinedNamesPlain(names);
    var group := "(" + joined + ")";
    forall k | 0 <= k < |group| ensures !IsClassChar(group[k]) {
      if 0 < k < |group| - 1 { assert group[k] == joined[k - 1]; }
    }
    JoinedNonEmpty(names);
  }

  /** The round trip for any lead-in and word around the separator classes. */
  lemma {:induction false} NamesRoundTrip(lead: string, word: string, names: seq<string>, cls: string)
    requires Plain(lead) && Plain(word) && NoOpenGroup(lead + "/" + word)
    requires |names| >= 1 && forall i :: 0 <= i < |names| ==> SimpleName(names[i])
    requires StripClassChars(cls) == "/"
    ensures FrameworkNames(lead + cls + word + cls + ("(" + JoinWith(names, '|') + ")") + cls, "") == Some(names)
  {
    var joined := JoinWith(names, '|');
    var group := "(" + joined + ")";
    var source := lead + cls + word + cls + group + cls;
    JoinedGroup(names);
    var x := lead + "/" + word + "/" + group + "/";
    assert StripClassChars(RegExpText(source, "")) == "/" + x + "/" by {
      StrippedText(source);
      StrippedSource(lead, word, group, cls);
    }
    SliceInnerOf(x);
    TrailingGroupOf(lead + "/" + word, joined);
    SplitJoin(names, '|');
  }

  /**
   * Round trip of the extraction: for an expression written the conventional way, the patch
   * recovers exactly the names it was built from, in order.
   */
  lemma {:induction false} ConventionalNames(names: seq<string>, cls: string)
    requires |names| >= 1 && forall i :: 0 <= i < |names| ==> SimpleName(names[i])
    requires StripClassChars(cls) == "/"
    ensures FrameworkNames(ConventionalSource(names, cls), "") == Some(names)
  {
    assert NoOpenGroup(Lookbehind + "/" + "node_modules");
    NamesRoundTrip(Lookbehind, "node_modules", names, cls);
  }

  /** The separator class `[\\/]` of the test suite strips to `/`. */
  lemma {:induction false} SeparatorClassStrips()
    ensures StripClassChars("[\\\\/]") == "/"
  {
    StripConcat("[\\\\", "/]");
    StripConcat("/", "]");
  }

  /** The names of the test suite's expression come out as written: gatsby, typescript, asdf. */
  lemma {:induction false} TestSuiteNames()
    ensures FrameworkNames(ConventionalSource(["gatsby", "typescript", "asdf"], "[\\\\/]"), "")
            == Some(["gatsby", "typescript", "asdf"])
  {
    var names := ["gatsby", "typescript", "asdf"];
    assert SimpleName(names[0]) && SimpleName(names[1]) && SimpleName(names[2]);
    SeparatorClassStrips();
    ConventionalNames(names, "[\\\\/]");
  }

  /** The base the patch hands to `createRequire`: a file name inside the site directory. */
  function SiteBase(siteDirectory: string): string {
    siteDirectory + "/:internal:"
  }

  /**
   * One name's directory: `path.dirname(frameworkRequire.resolve(name + '/package.json')) + path.sep`,
   * or None when resolution throws.
   */
  function DirOf(path: Platform, resolve: Loader, name: string): (r: Option<string>)
    ensures r.Some? <==> resolve(name + "/package.json").Some?
    ensures r.Some? ==> r.value != "" && r.value[|r.value| - 1] == path.sep
  {
    match resolve(name + "/package.json")
    case None => None
    case Some(manifest) => Some(path.dirname(manifest) + [path.sep])
  }

  /** `.map(...).filter(Boolean)`: the directories of the names that resolve, in the names' order. */
  function CollectDirs(path: Platform, resolve: Loader, names: seq<string>): (r: seq<string>)
    ensures |r| <= |names|
    ensures forall i :: 0 <= i < |r| ==> r[i] != ""
  {
    if names == [] then []
    else
      var rest := CollectDirs(path, resolve, names[1..]);
      match DirOf(path, resolve, names[0])
      case None => rest
      case Some(d) => [d] + rest
  }

  /** A directory is collected exactly when some name resolves to it. */
  lemma {:induction false} CollectDirsMembers(path: Platform, resolve: Loader, names: seq<string>, d: string)
    ensures d in CollectDirs(path, resolve, names)
            <==> exists n :: n in names && DirOf(path, resolve, n) == Some(d)
    decreases |names|
  {
    if names != [] {
      CollectDirsMembers(path, resolve, names[1..], d);
      assert forall n :: n in names <==> n == names[0] || n in names[1..];
    }
  }

  /** The survivors keep the input order: collecting a concatenation concatenates the collections. */
  lemma {:induction false} CollectDirsAppend(path: Platform, resolve: Loader, a: seq<string>, b: seq<string>)
    ensures CollectDirs(path, resolve, a + b)
            == CollectDirs(path, resolve, a) + CollectDirs(path, resolve, b)
    decreases |a|
  {
    if a != [] {
      CollectDirsAppend(path, resolve, a[1..], b);
      var x, y := CollectDirs(path, resolve, a[1..]), CollectDirs(path, resolve, b);
      assert (a + b)[0] == a[0];
      assert (a + b)[1..] == a[1..] + b;
      match DirOf(path, resolve, a[0])
      case None =>
      case Some(d) =>
        assert [d] + (x + y) == ([d] + x) + y;
    } else {
      assert a + b == b;
    }
  }

  /**
   * The directories the patch installs: none when the expression has no group of names, and
   * None when names were found but `createRequire` throws, an error that `fixFrameworkCache`
   * does not catch.
   */
  function PatchedDirs(host: Host, siteDirectory: string, source: string, flags: string): (r: Option<seq<string>>)
    ensures FrameworkNames(source, flags).None? ==> r == Some([])
    ensures FrameworkNames(source, flags).Some? ==>
              (r.None? <==> host.createRequire(SiteBase(siteDirectory)).None?)
    ensures FrameworkNames(source, flags).Some? && r.Some? ==>
              |r.value| <= |FrameworkNames(source, flags).value|
  {
    match FrameworkNames(source, flags)
    case None => Some([])
    case Some(names) =>
      match host.createRequire(SiteBase(siteDirectory))
      case None => None
      case Some(resolve) => Some(CollectDirs(host.path, resolve, names))
  }

  /** `isRootDependency(val)`: `frameworkList.some((f) => val?.startsWith(f))`. */
  function IsRootDependency(dirs: seq<string>, val: Option<string>): (r: bool)
    ensures r <==> val.Some? && exists i :: 0 <= i < |dirs| && StartsWith(val.value, dirs[i])
  {
    if dirs == [] || val.None? then false
    else StartsWith(val.value, dirs[0]) || IsRootDependency(dirs[1..], val)
  }

  /** The installed `test(mod)`: does the module's resource lie under one of the directories? */
  function Classify(dirs: seq<string>, mod: FrameworkModule): (r: bool)
    ensures mod.resource.None? ==> !r
  {
    IsRootDependency(dirs, mod.resource)
  }

  /** An expression without a trailing group still gets replaced, by a test that accepts no module. */
  lemma {:induction false} NoGroupAcceptsNothing(host: Host, siteDirectory: string, source: string, flags: string, mod: FrameworkModule)
    requires FrameworkNames(source, flags).None?
    ensures PatchedDirs(host, siteDirectory, source, flags).Some?
    ensures !Classify(PatchedDirs(host, siteDirectory, source, flags).value, mod)
  {
  }

  /**
   * Modules under the directories of two resolved names are accepted; a module under none of the
   * directories the names resolve to is not.
   */
  lemma {:induction false} CollectedClassify(path: Platform, resolve: Loader, names: seq<string>,
                                             a: string, b: string, aModule: string, bModule: string, otherModule: string)
    requires exists n :: n in names && DirOf(path, resolve, n) == Some(a)
    requires exists n :: n in names && DirOf(path, resolve, n) == Some(b)
    requires StartsWith(aModule, a) && StartsWith(bModule, b)
    requires forall n, d :: n in names && DirOf(path, resolve, n) == Some(d) ==> !StartsWith(otherModule, d)
    ensures var dirs := CollectDirs(path, resolve, names);
            Classify(dirs, FrameworkModule(Some(aModule)))
            && Classify(dirs, FrameworkModule(Some(bModule)))
            && !Classify(dirs, FrameworkModule(Some(otherModule)))
  {
    var dirs := CollectDirs(path, resolve, names);
    CollectDirsMembers(path, resolve, names, a);
    CollectDirsMembers(path, resolve, names, b);
    forall i | 0 <= i < |dirs| ensures !StartsWith(otherModule, dirs[i]) {
      CollectDirsMembers(path, resolve, names, dirs[i]);
    }
  }

  /**
   * The classification of the test suite: with gatsby and typescript resolved, their modules are
   * framework modules and a module of another package (vitest) is not.
   */
  lemma {:induction false} TestSuiteClassification(host: Host, siteDirectory: string, resolve: Loader,
                                gatsbyDir: string, typescriptDir: string,
                                gatsbyModule: string, typescriptModule: string, otherModule: string)
    requires host.createRequire(SiteBase(siteDirectory)) == Some(resolve)
    requires DirOf(host.path, resolve, "gatsby") == Some(gatsbyDir)
    requires DirOf(host.path, resolve, "typescript") == Some(typescriptDir)
    requires StartsWith(gatsbyModule, gatsbyDir) && StartsWith(typescriptModule, typescriptDir)
    requires !StartsWith(otherModule, gatsbyDir) && !StartsWith(otherModule, typescriptDir)
    requires forall d :: DirOf(host.path, resolve, "asdf") == Some(d) ==> !StartsWith(otherModule, d)
    ensures var dirs := PatchedDirs(host, siteDirectory,
                                    ConventionalSource(["gatsby", "typescript", "asdf"], "[\\\\/]"), "");
            dirs.Some?
            && Classify(dirs.value, FrameworkModule(Some(gatsbyModule)))
            && Classify(dirs.value, FrameworkModule(Some(typescriptModule)))
            && !Classify(dirs.value, FrameworkModule(Some(otherModule)))
  {
    TestSuiteNames();
    var names := ["gatsby", "typescript", "asdf"];
    assert "gatsby" in names && "typescript" in names;
    CollectedClassify(host.path, resolve, names, gatsbyDir, typescriptDir, gatsbyModule, typescriptModule, otherModule);
  }

  /**
   * `fixFrameworkCache(config, siteDirectory)`. Only `framework.test` is written, and only when the
   * guard holds; afterwards `test` is a function, so a second application changes nothing. When
   * `createRequire` throws, `threw` is true: the error reaches the caller and nothing is written.
   */
  method FixFrameworkCache(config: Configuration, siteDirectory: string, host: Host) returns (threw: bool)
    modifies Targets(config)`test
    ensures threw <==> old(Patchable(config))
                       && PatchedDirs(host, siteDirectory,
                                      old(FrameworkGroup(config).value.test.source),
                                      old(FrameworkGroup(config).value.test.flags)).None?
    ensures !old(Patchable(config)) || threw ==> unchanged(Targets(config))
    ensures old(Patchable(config)) && !threw ==>
              FrameworkGroup(config).value.test
              == PrefixTest(PatchedDirs(host, siteDirectory,
                                        old(FrameworkGroup(config).value.test.source),
                                        old(FrameworkGroup(config).value.test.flags)).value)
    ensures !threw ==> !Patchable(config)
  {
    threw := false;
    var group := FrameworkGroup(config);
    if group.None? {
      return;
    }
    var framework := group.value;
    if !framework.test.RegExp? {
      return;
    }
    var names := FrameworkNames(framework.test.source, framework.test.flags);
    var frameworkList: seq<string> := [];
    if names.Some? {
      var frameworkRequire := host.createRequire(SiteBase(siteDirectory));
      if frameworkRequire.None? {
        return true;
      }
      frameworkList := CollectDirs(host.path, frameworkRequire.value, names.value);
    }
    framework.test := PrefixTest(frameworkList);
  }
}
