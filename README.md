# gatsby-plugin-pnpm: module lookup and the framework cache fix, in Dafny

gatsby-plugin-pnpm lets Gatsby build a site whose dependencies pnpm installed. pnpm keeps packages in
a virtual store and links them into `node_modules`. The plugin therefore needs three things:

- the `node_modules` root that really holds a package;
- the location of pnpm's virtual store;
- a patch to webpack's `framework` cache group, whose path regular expression misses the
  symlinked packages.

This project models those pieces of `src/utils.ts` and `src/fixes.ts` and proves what they promise.

| module | file | models |
|---|---|---|
| `Wrappers` | wrappers.dfy | `Option` |
| `JsText` | js_text.dfy | ECMAScript `\s` and line terminators, `trim()`, `split`/`join` on one character |
| `NodePath` | node_path.dfy | `path.join`, written out; `normalize`, `resolve`, `dirname` and `sep` are platform parameters |
| `Environment` | environment.dfy | the host: `fs.stat`, `fs.realpath`, `fs.readFile` and the module loader, each as a function that answers `None` where the call throws; `fileExists`, `isDir` |
| `ModuleRoot` | module_root.dfy | `walkBack` and its regular expression |
| `VirtualStore` | virtual_store.dfy | `getPnpmVirtualStoreDir` and the `.modules.yaml` expression |
| `PackageRoot` | package_root.dfy | `getPkgNodeModules`, as written and corrected |
| `FrameworkCache` | framework_cache.dfy | `fixFrameworkCache`: the shape guard, name extraction, directory collection, the installed test |

Notes on the model:

- The regular expressions are modelled for the texts they are applied to, not as a general engine.
  - `walkBack`'s expression has the `i` flag but no `m` flag, and `.` never matches a line terminator.
    So its match lies after the last line terminator of the resolved path. The group is that line up
    to its last "cut": a separator, then `node_modules` in any ASCII case, then the end or another
    separator.
  - The `.modules.yaml` expression has the `m` flag, but `\s` also matches line terminators. So a key
    with nothing after it takes the next non-blank line as its value (`VirtualStore.ManifestValueOnNextLine`).
- `FrameworkCache.CacheGroup` is a class because the patch overwrites `framework.test` in place.
  Everything else is a value.

## Model

| member | source | states |
|---|---|---|
| JsText.StartsWithIndex | src/fixes.ts:57 | `startsWith` holds exactly when the prefix is no longer than the text and agrees with it character by character |
| JsText.JoinWithSeparators | tests/gatsby-node.test.ts:254-256 | `join` of one or more separator-free pieces starts with the first piece and puts exactly one separator between neighbours: the result holds the separator as many times as there are pieces, less one |
| JsText.Split | src/fixes.ts:45 | `split('|')` gives at least one piece, and no piece contains the separator |
| JsText.SplitJoin | src/fixes.ts:45 | splitting the `|`-join of one or more separator-free names gives back exactly those names, in order |
| JsText.JoinSplit | src/fixes.ts:45 | joining the pieces of a split gives back the original string, for every string |
| JsText.TrimPadding | src/utils.ts:49 | `trim()` removes exactly the whitespace around a word whose ends are not whitespace; whitespace alone trims to "" |
| JsText.TrimStart | src/utils.ts:49 | the front half of `trim()` keeps a suffix of the text, everything it drops is whitespace, and what it keeps does not start with whitespace |
| JsText.TrimEnd | src/utils.ts:49 | the back half of `trim()` keeps a prefix of the text, everything it drops is whitespace, and what it keeps does not end with whitespace |
| JsText.TrimStartOf | src/utils.ts:49 | the front half of `trim()` stops at the first character that is not whitespace |
| JsText.TrimEndOf | src/utils.ts:49 | the back half of `trim()` stops at the last character that is not whitespace |
| JsText.Trim | src/utils.ts:49 | trimming a text without line terminators gives a text without line terminators |
| NodePath.Join | src/utils.ts:95-97 | `path.join` with no non-empty segment is ".", the current directory |
| NodePath.JoinOne | src/utils.ts:95-97 | `path.join(p)` is "." for the empty path and the normal form of p otherwise |
| Environment.FileExists | src/utils.ts:12-21 | `fileExists` never throws: absent exactly when `stat` fails, else the stat result |
| Environment.IsDir | src/utils.ts:23-31 | `isDir` is true exactly when `stat` succeeds and reports a directory; false on every error |
| ModuleRoot.LastCut | src/utils.ts:67 | the greedy `.*` finds the largest cut at or below the bound, and None only when there is no cut there |
| ModuleRoot.LastLineStart | src/utils.ts:67 | the match region starts after the last line terminator; a text without terminators is searched from 0 |
| ModuleRoot.MatchRoot | src/utils.ts:65-69 | the result is "" exactly when the last line has no `node_modules` cut; otherwise it is the prefix of that line ending at the last cut, so it ends in a separator and `node_modules` |
| ModuleRoot.WalkBack | src/utils.ts:64-70 | `walkBack` is "" or a path that ends in a separator followed by `node_modules` |
| ModuleRoot.MatchRootIdempotent | src/utils.ts:64-70 | walking back from an answer gives the same answer |
| ModuleRoot.RootIsFixed | tests/utils.test.ts:41-43 | a one-line path that ends in a `node_modules` component is its own root |
| ModuleRoot.MatchRootBelowRoot | tests/utils.test.ts:41-49 | descending below a root without another cut leaves the answer at that root |
| ModuleRoot.NoCutWithoutN | src/utils.ts:67-69 | a text without `n` or `N` has no cut |
| ModuleRoot.NoRootWithoutN | src/utils.ts:67-69 | `walkBack` of a path without `n` or `N` is "" |
| ModuleRoot.BelowRoot | tests/utils.test.ts:41-49 | a tail without `n` that starts with a separator, below a one-line root, walks back to the root |
| ModuleRoot.NestedSlashExample | tests/utils.test.ts:41-45 | `<dir>/node_modules/gatsby/dist` walks back to `<dir>/node_modules` |
| ModuleRoot.NestedBackslashExample | tests/utils.test.ts:46-49 | `<dir>\node_modules\test\dist` walks back to `<dir>\node_modules` |
| ModuleRoot.NoRootAtFileSystemRoot | tests/utils.test.ts:50-53 | `walkBack("/")` is "" |
| ModuleRoot.NoRootInPlainPath | tests/utils.test.ts:54-57 | `walkBack("/asdf/123/4321/fdsa/foo/bar/baz/boom")` is "" |
| VirtualStore.SkipSpaces | src/utils.ts:47 | the greedy `\s*` ends at the first character that is not whitespace, or at the end |
| VirtualStore.LineEnd | src/utils.ts:47 | `.+` stops at the first line terminator, or at the end |
| VirtualStore.LastNonTerminator | src/utils.ts:47 | when `\s*` reaches the end, backtracking gives `.+` the last character that is not a line terminator, if there is one |
| VirtualStore.ValueAfter | src/utils.ts:47 | a capture of `\s*(.+)\s*$` is non-empty and lies within one line |
| VirtualStore.FirstMatch | src/utils.ts:47 | the leftmost key at which the whole expression matches, and None when there is none |
| VirtualStore.Capture | src/utils.ts:47-48 | group 1 of the first match is non-empty, contains no line terminator, and exists only when some key begins a line after whitespace |
| VirtualStore.Unquote | src/utils.ts:51-52 | a text that does not start and end with the quote is left alone; otherwise either it is left alone or exactly the two end characters go, never more |
| VirtualStore.StripQuotes | src/utils.ts:50-52 | a text quoted in neither kind of quote is left alone; at most one pair of each kind goes |
| VirtualStore.Interpret | src/utils.ts:49-53 | the trimmed and unquoted value is non-empty, or None; it adds no line terminator |
| VirtualStore.ManifestValue | src/utils.ts:46-53 | the configured directory is non-empty and one line long, and only a text with a key at a line start yields one |
| VirtualStore.GetPnpmVirtualStoreDir | src/utils.ts:43-62 | an unreadable manifest gives `join(nodeModules, ".pnpm")`; a readable one gives `resolve(nodeModules, v)` for its value v, else the same default |
| VirtualStore.NoKeyBefore | src/utils.ts:47 | lines without the key contribute no key position, even across the line end |
| VirtualStore.CaptureAfterGap | src/utils.ts:47 | after the key, whitespace and then a word ending in a line feed: the capture is that word |
| VirtualStore.KeyLineCaptures | src/utils.ts:47 | a key line after lines without the key is the first match, and captures the text after the key and its whitespace |
| VirtualStore.InterpretPlain | src/utils.ts:49-52 | an unquoted value comes back unchanged, trailing whitespace dropped |
| VirtualStore.InterpretQuoted | src/utils.ts:49-53 | `"v"` comes back as v, and `""` as no value |
| VirtualStore.InterpretSingleQuoted | src/utils.ts:49-53 | `'v'` comes back as v, and `''` as no value |
| VirtualStore.InterpretBothQuotes | src/utils.ts:50-53 | `"'v'"` comes back as v: the double quotes come off first, then the single quotes |
| VirtualStore.InterpretQuotesOrder | src/utils.ts:50-52 | `'"v"'` comes back as `"v"`: the double-quote replacement runs first and finds single quotes at the ends, so only one layer goes |
| VirtualStore.ManifestPlainValue | tests/utils.test.ts:107-121 | `virtualStoreDir: <v>` after lines without the key reads back as v, whatever follows |
| VirtualStore.ManifestQuotedValue | tests/utils.test.ts:123-137 | `virtualStoreDir: "<v>"` reads back as v; `virtualStoreDir: ""` gives no value, so the default is used |
| VirtualStore.ManifestSingleQuoted | src/utils.ts:47-53 | `virtualStoreDir: '<v>'` after lines without the key reads back as v; `virtualStoreDir: ''` gives no value, so the default is used |
| VirtualStore.ManifestValueOnNextLine | src/utils.ts:47 | a key with nothing after it on its line takes the next line as its value |
| VirtualStore.ManifestWithoutKey | src/utils.ts:47-61 | a manifest without the key gives no value, so the default is used |
| PackageRoot.GetPkgNodeModules | src/utils.ts:77-107 | strict mode examines only `join(nodeModules, pkgName)` and walks back from its real path; loose mode walks back from the loader's answer; every failed probe gives "". The result is "", "." or a normalised root |
| PackageRoot.GetPkgNodeModulesFixed | src/utils.ts:77-107 | the same lookup, but a path without a `node_modules` component also gives ""; every result is "" or a normalised root |
| PackageRoot.WorkspaceLinkGivesDot | src/utils.ts:95-98 | for a package linked to `/repo/packages/ui`, `walkBack` is "" and `path.join` of it is "." |
| FrameworkCache.FrameworkGroup | src/fixes.ts:18-30 | the group is found exactly when `optimization`, `splitChunks`, `cacheGroups` and `framework` are all objects |
| FrameworkCache.StripClassChars | src/fixes.ts:35 | the result has no `[`, `\` or `]`, is no longer than the input, and equals the input when the input has none |
| FrameworkCache.Patchable | src/fixes.ts:29-31 | the guard holds exactly when there is a framework group object and its `test` is a RegExp |
| FrameworkCache.RegExpTextParts | src/fixes.ts:33-34 | `toString()` is the source between two slashes followed by the flags, and nothing else |
| FrameworkCache.StripOne | src/fixes.ts:35 | a single `[`, `\` or `]` is deleted, not replaced, and any other character is kept as it is |
| FrameworkCache.StripConcat | src/fixes.ts:35 | the global replace works piece by piece: stripping a concatenation concatenates the stripped pieces |
| FrameworkCache.SliceInner | src/fixes.ts:36 | `slice(1, -1)` drops exactly the first and the last character, and gives "" for shorter texts |
| FrameworkCache.FirstGroup | src/fixes.ts:37 | the leftmost position where `/\/\(([^)]+)\)\/$/` matches, and None when it matches nowhere |
| FrameworkCache.TrailingGroup | src/fixes.ts:37-40 | group 1, when there is a match, is non-empty and has no `)` |
| FrameworkCache.TrailingGroupOf | src/fixes.ts:37 | with no `/(` before it, the group is exactly the text between the final `/(` and `)/` |
| FrameworkCache.FrameworkNames | src/fixes.ts:33-45 | the extracted names are at least one, and none contains `|` |
| FrameworkCache.StrippedSource | src/fixes.ts:35 | a source written with separator classes loses the classes' brackets and backslashes |
| FrameworkCache.StrippedText | src/fixes.ts:33-35 | `toString` and stripping give the stripped source between two slashes |
| FrameworkCache.JoinedGroup | src/fixes.ts:37-45 | joined simple names form a group body: non-empty, no `)`, no class characters |
| FrameworkCache.NamesRoundTrip | src/fixes.ts:33-45 | for any lead-in and word without `/(`, the extraction returns exactly the names the expression was built from |
| FrameworkCache.ConventionalNames | tests/gatsby-node.test.ts:253-257 | for Gatsby's way of writing the expression, the extraction returns exactly its names, in order |
| FrameworkCache.TestSuiteNames | tests/gatsby-node.test.ts:253-257 | the test suite's expression yields `gatsby`, `typescript`, `asdf` |
| FrameworkCache.DirOf | src/fixes.ts:46-51 | a name yields a directory exactly when the site's loader resolves its `package.json`, so names whose resolution throws are dropped; the directory is non-empty ending in the separator, so `filter(Boolean)` keeps it |
| FrameworkCache.CollectDirs | src/fixes.ts:42-54 | at most one directory per name, none of them empty |
| FrameworkCache.CollectDirsMembers | src/fixes.ts:46-53 | a directory is collected exactly when some name resolves to it |
| FrameworkCache.CollectDirsAppend | src/fixes.ts:46-53 | the kept directories stay in the names' order: collecting a concatenation concatenates the collections |
| FrameworkCache.PatchedDirs | src/fixes.ts:37-55 | no group gives no directories; with a group, the result is missing exactly when `createRequire` throws, and otherwise holds at most one directory per extracted name |
| FrameworkCache.IsRootDependency | src/fixes.ts:57 | true exactly when the resource is present and starts with one of the directories |
| FrameworkCache.Classify | src/fixes.ts:58 | a module without a resource is never a framework module |
| FrameworkCache.NoGroupAcceptsNothing | src/fixes.ts:37-58 | an expression without a trailing group is still replaced, by a test that accepts no module |
| FrameworkCache.CollectedClassify | src/fixes.ts:46-58 | a module under the directory of a resolved name is accepted by the installed test; a module under none of the names' directories is not |
| FrameworkCache.TestSuiteClassification | tests/gatsby-node.test.ts:276-279 | with the site's loader created and `gatsby` and `typescript` resolved, their modules are accepted and a module of another package is not |
| FrameworkCache.FixFrameworkCache | src/fixes.ts:17-59 | without a framework group whose test is a RegExp, nothing changes. When names were extracted and `createRequire` throws, the error escapes (`threw`) and nothing changes. Otherwise only `framework.test` is written, and it becomes the prefix test over the directories of the extracted names. Afterwards the guard no longer holds, so a second call changes nothing |

## Left out

- The file system, the module loader (`require.resolve`, `createRequire` and its fallback
  `createRequireFromPath`) and the platform-dependent parts of `path` are host functions. An error
  they raise becomes `None`, whatever its kind. Where the source lets an error escape, the model
  says so: a `createRequire` that throws in `fixFrameworkCache` (src/fixes.ts:41, outside every
  `try`) makes `FixFrameworkCache` report `threw` and leave the configuration as it was.
- `async`/`await` and promises are left out. Each operation is modelled as the sequence of steps it
  awaits.
- Strings are sequences of Unicode scalar values rather than UTF-16 code units. A lone surrogate
  cannot be expressed.
- The case-insensitive match folds ASCII letters only. Under the `i` flag without `u`, no non-ASCII
  character folds onto a letter of `node_modules`, so nothing is lost.
- The regular expressions are modelled only as the six patterns the core uses, not as a general
  engine: the manifest pattern (src/utils.ts:47), the two quote replacements (src/utils.ts:51-52),
  the `walkBack` pattern (src/utils.ts:67), the class-character replacement (src/fixes.ts:35) and
  the trailing-group pattern (src/fixes.ts:37). `RegExp.prototype.source` is taken as given; its escaping is not modelled.
- Only the webpack configuration's path down to `framework` is modelled. Each step is absent or
  falsy, a non-object, or an object. The framework group also carries `name`, `priority` and
  `enforce`, only so that `FixFrameworkCache`'s frame shows the patch leaves them alone; no other
  property of the configuration is modelled.
- The callers in `gatsby-node` (`onCreateWebpackConfig`, `onPreBootstrap`) are not part of this model.
- `path.join` is written out for its handling of empty segments. Its normalisation is a host
  function, so Windows drive letters and UNC paths are the host's concern.

## Findings

| source | as written | input that shows it | evidently intended | confidence | as-written member | corrected member |
|---|---|---|---|---|---|---|
| src/utils.ts:95-98 | the package root is `path.join(await walkBack(...))`, and `path.join("")` is `"."` | a strict lookup whose symlink leads to a workspace package, `/repo/packages/ui`, outside every `node_modules`: `walkBack` gives "" and the function returns "." (the current directory) | "" like every other failed lookup, so callers do not treat the working directory as a `node_modules` root | medium, not executed | PackageRoot.GetPkgNodeModules, PackageRoot.WorkspaceLinkGivesDot | PackageRoot.GetPkgNodeModulesFixed |
