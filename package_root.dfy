/**
 * `getPkgNodeModules` of src/utils.ts: the `node_modules` directory that holds a package's real
 * location. In strict mode only `<nodeModules>/<pkgName>` is examined and its symlink is followed;
 * otherwise the module loader resolves the name from `nodeModules` and its answer is used as is.
 * Every failed probe ends in "".
 */
module PackageRoot {
  import opened Wrappers
  import opened NodePath
  import opened Environment
  import opened ModuleRoot

  /** The package directory strict mode expects: `path.join(nodeModules, pkgName)`. */
  function Candidate(host: Host, nodeModules: string, pkgName: string): string {
    Join(host.path, [nodeModules, pkgName])
  }

  /** Results that name a `node_modules` root: the normal form of a non-empty `walkBack` answer. */
  ghost predicate IsRootResult(host: Host, r: string) {
    exists w :: EndsWithRoot(w) && r == host.path.normalize(w)
  }

  /** `getPkgNodeModules({ pkgName, nodeModules, strict })`, as written. */
  method GetPkgNodeModules(host: Host, pkgName: string, nodeModules: string, strict: bool) returns (r: string)
    // strict: the candidate must exist and have a real path; the loader is never consulted
    ensures strict && host.stat(Candidate(host, nodeModules, pkgName)).None? ==> r == ""
    ensures strict && host.realpath(Candidate(host, nodeModules, pkgName)).None? ==> r == ""
    ensures strict && host.stat(Candidate(host, nodeModules, pkgName)).Some? ==>
              forall target :: host.realpath(Candidate(host, nodeModules, pkgName)) == Some(target) ==>
                r == Join(host.path, [WalkBack(host.path, target)])
    // loose: the loader's answer must exist; it is walked back without following symlinks
    ensures !strict && host.requireResolve(pkgName, [nodeModules]).None? ==> r == ""
    ensures !strict ==>
              forall found :: host.requireResolve(pkgName, [nodeModules]) == Some(found) ==>
                r == (if host.stat(found).Some? then Join(host.path, [WalkBack(host.path, found)]) else "")
    // what can come out: nothing, a root, or "." when the package path has no node_modules component
    ensures r == "" || r == "." || IsRootResult(host, r)
  {
    var pkgPath: string;
    if strict {
      pkgPath := Candidate(host, nodeModules, pkgName);
    } else {
      var found := host.requireResolve(pkgName, [nodeModules]);
      if found.None? {
        return "";
      }
      pkgPath := found.value;
    }
    var stats := FileExists(host, pkgPath);
    if stats.Some? {
      var target := pkgPath;
      if strict {
        var resolved := host.realpath(pkgPath);
        if resolved.None? {
          return "";
        }
        target := resolved.value;
      }
      var root := WalkBack(host.path, target);
      JoinOne(host.path, root);
      return Join(host.path, [root]);
    }
    return "";
  }

  /**
   * The same lookup with the evidently intended ending: a package path without a `node_modules`
   * component is a failure like the others and gives "" where the original gives `path.join("")`,
   * which is ".". Every other answer is the normal form of a non-empty `walkBack` root.
   */
  method GetPkgNodeModulesFixed(host: Host, pkgName: string, nodeModules: string, strict: bool) returns (r: string)
    ensures strict && host.stat(Candidate(host, nodeModules, pkgName)).None? ==> r == ""
    ensures strict && host.realpath(Candidate(host, nodeModules, pkgName)).None? ==> r == ""
    ensures strict && host.stat(Candidate(host, nodeModules, pkgName)).Some? ==>
              forall target :: host.realpath(Candidate(host, nodeModules, pkgName)) == Some(target) ==>
                r == (if WalkBack(host.path, target) == "" then "" else host.path.normalize(WalkBack(host.path, target)))
    ensures !strict && host.requireResolve(pkgName, [nodeModules]).None? ==> r == ""
    ensures !strict ==>
              forall found :: host.requireResolve(pkgName, [nodeModules]) == Some(found) ==>
                r == (if host.stat(found).Some? && WalkBack(host.path, found) != ""
                      then host.path.normalize(WalkBack(host.path, found)) else "")
    // every answer is either a failure or a root
    ensures r == "" || IsRootResult(host, r)
  {
    var pkgPath: string;
    if strict {
      pkgPath := Candidate(host, nodeModules, pkgName);
    } else {
      var found := host.requireResolve(pkgName, [nodeModules]);
      if found.None? {
        return "";
      }
      pkgPath := found.value;
    }
    var stats := FileExists(host, pkgPath);
    if stats.Some? {
      var target := pkgPath;
      if strict {
        var resolved := host.realpath(pkgPath);
        if resolved.None? {
          return "";
        }
        target := resolved.value;
      }
      var root := WalkBack(host.path, target);
      if root != "" {
        JoinOne(host.path, root);
        return Join(host.path, [root]);
      }
    }
    return "";
  }

  /**
   * The input that shows the difference: a strict lookup of a package whose symlink leads to a
   * workspace directory such as `/repo/packages/ui`, outside every `node_modules`. The path has no
   * `node_modules` component, so `walkBack` gives "" and `path.join("")` turns it into ".".
   */
  lemma {:induction false} WorkspaceLinkGivesDot(host: Host)
    requires host.path.resolve(["/repo/packages/ui"]) == "/repo/packages/ui"
    ensures WalkBack(host.path, "/repo/packages/ui") == ""
    ensures Join(host.path, [WalkBack(host.path, "/repo/packages/ui")]) == "."
  {
    NoRootWithoutN("/repo/packages/ui");
    JoinOne(host.path, "");
  }
}
