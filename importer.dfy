/**
 * The import cache. One context keeps a single map from import path to
 * package, shared by every import the type checker issues, including the
 * nested ones, so that a package is never loaded twice as two different
 * package objects.
 *
 * The foreign calls an import makes are inputs here: the outcome of the
 * build lookup, of importing the compiled package, of parsing the package
 * directory and of type-checking it. What the model computes is which of
 * them the importer consults, what it returns and what it stores.
 */
module Resolver {
  import opened Wrappers
  import opened GoTypes

  /** The build lookup of a path: not found, or found (in GOROOT or not). */
  datatype BuildResult = BuildError | BuildFound(goroot: bool)

  /** Parsing the package directory: an error, or the names of the packages found there. */
  datatype ParseDirResult = ParseDirError | ParsedDir(packageNames: set<string>)

  /** Type-checking the chosen package: a package, or an error with whatever package came with it. */
  datatype CheckResult = Checked(pkg: Package) | CheckError(partial: Package?)

  datatype ImportError =
    | BuildLookupFailed
    | ParseFailed
    | CannotFindImport(name: string)
    | CheckFailed

  /**
   * The importer tries the compiled package first when the build lookup
   * failed or found the package in GOROOT.
   */
  predicate TriesCompiled(build: BuildResult) {
    build.BuildError? || build.goroot
  }

  /** The packages a directory holds once the documentation package is set aside. */
  function Candidates(names: set<string>): (r: set<string>)
    ensures "documentation" !in r
    ensures forall n :: n in r <==> n in names && n != "documentation"
  {
    names - {"documentation"}
  }

  /**
   * The package names the importer may settle on: the only package found, or
   * any package not named main (the directory is iterated in no fixed order).
   */
  predicate Choosable(found: set<string>, name: string) {
    name in found && (|found| == 1 || name != "main")
  }

  /** A directory with at least one package always offers a choice. */
  lemma ChoiceExists(found: set<string>)
    requires found != {}
    ensures exists name :: Choosable(found, name)
  {
    var some :| some in found;
    if |found| != 1 && some == "main" {
      var rest := found - {"main"};
      assert |rest| == |found| - 1;
      var other :| other in rest;
      assert Choosable(found, other);
    } else {
      assert Choosable(found, some);
    }
  }

  class Context {
    /** The shared cache: import path to package. */
    var allImports: map<string, Package>

    /** NewContext: an empty cache. */
    constructor ()
      ensures allImports == map[]
    {
      allImports := map[];
    }

    /**
     * importer: resolves path, returning the package or an error, and the
     * checker's own imports map, to which a successful import adds the
     * package as the cache does.
     */
    method Importer(imports: map<string, Package>, path: string,
                    build: BuildResult, compiled: Option<Package>,
                    parseDir: ParseDirResult, check: string -> CheckResult)
      returns (pkg: Package?, err: Option<ImportError>, imports': map<string, Package>)
      modifies this
      // a compiled package, when tried and found, is stored under its own path
      ensures TriesCompiled(build) && compiled.Some? ==>
        && pkg == compiled.value && err == None
        && allImports == old(allImports)[pkg.path := pkg]
        && imports' == imports[pkg.path := pkg]
      // otherwise a complete cached package is returned as it is
      ensures !(TriesCompiled(build) && compiled.Some?)
              && path in old(allImports) && old(allImports)[path].complete ==>
        && pkg == old(allImports)[path] && err == None
        && allImports == old(allImports) && imports' == imports
      // every error return leaves both maps alone
      ensures err.Some? ==> allImports == old(allImports) && imports' == imports
      // every successful return leaves the returned package in the cache
      ensures err.None? ==>
        && pkg != null
        && ((pkg.path in allImports && allImports[pkg.path] == pkg) || (path in allImports && allImports[path] == pkg))
      // what the source-parsing path stores, under path, is complete
      ensures err.None? && !(TriesCompiled(build) && compiled.Some?)
              && !(path in old(allImports) && old(allImports)[path].complete) ==>
        && pkg.complete
        && allImports == old(allImports)[path := pkg]
        && imports' == imports[path := pkg]
      // the error each failing step reports
      ensures !(TriesCompiled(build) && compiled.Some?)
              && !(path in old(allImports) && old(allImports)[path].complete) ==>
        && (build.BuildError? ==> pkg == null && err == Some(BuildLookupFailed))
        && (build.BuildFound? && parseDir.ParseDirError? ==> pkg == null && err == Some(ParseFailed))
        && (build.BuildFound? && parseDir.ParsedDir? && Candidates(parseDir.packageNames) == {} ==>
              pkg == null && err == Some(CannotFindImport("")))
        && (build.BuildFound? && parseDir.ParsedDir? && Candidates(parseDir.packageNames) != {} ==>
              exists name :: Choosable(Candidates(parseDir.packageNames), name) &&
                match check(name)
                case CheckError(partial) => pkg == partial && err == Some(CheckFailed)
                case Checked(checked) =>
                  && err == None
                  && (checked.complete ==> pkg == checked)
                  && (!checked.complete ==>
                        fresh(pkg) && pkg.path == checked.path && pkg.name == checked.name && pkg.scope == checked.scope))
    {
      if TriesCompiled(build) {
        if compiled.Some? {
          pkg := compiled.value;
          imports' := imports[pkg.path := pkg];
          allImports := allImports[pkg.path := pkg];
          return pkg, None, imports';
        }
      }

      if path in allImports && allImports[path].complete {
        return allImports[path], None, imports;
      }

      if build.BuildError? {
        return null, Some(BuildLookupFailed), imports;
      }

      if parseDir.ParseDirError? {
        return null, Some(ParseFailed), imports;
      }

      var found := Candidates(parseDir.packageNames);
      if found == {} {
        return null, Some(CannotFindImport("")), imports;
      }
      ChoiceExists(found);
      var name :| Choosable(found, name);

      match check(name) {
        case CheckError(partial) =>
          return partial, Some(CheckFailed), imports;
        case Checked(checked) =>
          pkg := checked;
      }
      if !pkg.complete {
        pkg := new Package(pkg.path, pkg.name, pkg.scope, true);
      }

      imports' := imports[path := pkg];
      allImports := allImports[path := pkg];
      return pkg, None, imports';
    }
  }

  /**
   * Importing the same path twice from source yields the same package
   * object: the first import stores a complete package, which the second
   * finds in the cache.
   */
  method ImportTwice(ctx: Context, path: string, dir: ParseDirResult, check: string -> CheckResult)
    returns (first: Package?, firstErr: Option<ImportError>, second: Package?)
    modifies ctx
    ensures firstErr.None? ==> first != null && second == first
  {
    var imports: map<string, Package> := map[];
    first, firstErr, imports := ctx.Importer(imports, path, BuildFound(false), None, dir, check);
    var secondErr;
    second, secondErr, imports := ctx.Importer(imports, path, BuildFound(false), None, dir, check);
  }
}
