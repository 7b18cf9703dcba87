/**
 * Loading the named types of a list of package paths. The build lookup,
 * the import of compiled packages, file parsing and type checking are
 * foreign calls: their outcome for each path is an input (PathLoad), and
 * what the model computes is what the loop does with those outcomes.
 */
module Loader {
  import opened Wrappers
  import opened GoTypes

  /** The outcome of parsing one Go file of a source package. */
  datatype FileParse = Parsed(file: string) | Unparsable(file: string)

  /**
   * What the foreign calls report for one path: the build lookup fails; or
   * the package lives in GOROOT and its compiled form is imported (or not);
   * or it is parsed from its Go files and type-checked (or not).
   */
  datatype PathLoad =
    | BuildFailed
    | FromGoroot(gcImport: Option<Package>)
    | FromSource(goFiles: seq<FileParse>, checked: Option<Package>)

  /** The errors collected while loading; loading goes on after each. */
  datatype LoadError =
    | CouldNotImport(path: string)
    | NoGoFiles(path: string)
    | CouldNotParse(file: string)
    | CouldNotCheck(path: string)

  /** The entries collected so far and the errors met so far. */
  datatype Loaded = Loaded(types: seq<TypeEntry>, errors: seq<LoadError>)

  function Combine(a: Loaded, b: Loaded): Loaded {
    Loaded(a.types + b.types, a.errors + b.errors)
  }

  /** The type names of a scope, in scope order; constants, variables and functions are dropped. */
  function ScopeTypes(scope: seq<ScopeEntry>): seq<TypeEntry>
    decreases |scope|
  {
    if scope == [] then []
    else
      var last := scope[|scope| - 1];
      ScopeTypes(scope[..|scope| - 1]) + (if last.TypeName? then [last.typ] else [])
  }

  /** The files that parsed, in order. */
  function ParsedFiles(files: seq<FileParse>): seq<string>
    decreases |files|
  {
    if files == [] then []
    else
      var last := files[|files| - 1];
      ParsedFiles(files[..|files| - 1]) + (if last.Parsed? then [last.file] else [])
  }

  /** One error per file that did not parse, in order. */
  function ParseErrors(files: seq<FileParse>): seq<LoadError>
    decreases |files|
  {
    if files == [] then []
    else
      var last := files[|files| - 1];
      ParseErrors(files[..|files| - 1]) + (if last.Unparsable? then [CouldNotParse(last.file)] else [])
  }

  /**
   * The outcomes on which the source indexes the first parsed file of a
   * source package that has Go files none of which parsed: it panics there.
   */
  predicate Panics(load: PathLoad) {
    load.FromSource? && |load.goFiles| > 0 && ParsedFiles(load.goFiles) == []
  }

  /** No path of paths panics. */
  predicate NoPanic(paths: seq<string>, resolve: string -> PathLoad)
    decreases |paths|
  {
    paths == [] || (NoPanic(paths[..|paths| - 1], resolve) && !Panics(resolve(paths[|paths| - 1])))
  }

  /** What one path contributes: its package's type names, or the errors that stopped it. */
  function LoadPath(path: string, load: PathLoad): (r: Loaded)
    requires !Panics(load)
    ensures r.types == ScopeTypes(LoadedScope(load))
  {
    match load
    case BuildFailed => Loaded([], [CouldNotImport(path)])
    case FromGoroot(None) => Loaded([], [CouldNotImport(path)])
    case FromGoroot(Some(pkg)) => Loaded(ScopeTypes(pkg.scope), [])
    case FromSource(goFiles, checked) =>
      if goFiles == [] then Loaded([], [NoGoFiles(path)])
      else if checked.None? then Loaded([], ParseErrors(goFiles) + [CouldNotCheck(path)])
      else Loaded(ScopeTypes(checked.value.scope), ParseErrors(goFiles))
  }

  /** getTypes: the contributions of every path, in the order of paths. */
  function TypesOf(paths: seq<string>, resolve: string -> PathLoad): Loaded
    requires NoPanic(paths, resolve)
    decreases |paths|
  {
    if paths == [] then Loaded([], [])
    else
      var last := paths[|paths| - 1];
      Combine(TypesOf(paths[..|paths| - 1], resolve), LoadPath(last, resolve(last)))
  }

  /** The scope of the package a path loaded, or nothing when loading it failed. */
  function LoadedScope(load: PathLoad): seq<ScopeEntry> {
    match load
    case FromGoroot(Some(pkg)) => pkg.scope
    case FromSource(goFiles, Some(pkg)) => if goFiles == [] then [] else pkg.scope
    case _ => []
  }

  /** Whether a path ends with a "Couldn't import" error. */
  predicate ImportFails(load: PathLoad) {
    load.BuildFailed? || load == FromGoroot(None)
  }

  /** getTypes */
  method GetTypes(paths: seq<string>, resolve: string -> PathLoad)
    returns (typs: seq<TypeEntry>, errors: seq<LoadError>)
    requires NoPanic(paths, resolve)
    ensures Loaded(typs, errors) == TypesOf(paths, resolve)
  {
    typs, errors := [], [];
    for k := 0 to |paths|
      invariant NoPanic(paths[..k], resolve)
      invariant Loaded(typs, errors) == TypesOf(paths[..k], resolve)
    {
      var path := paths[k];
      assert paths[..k + 1][..k] == paths[..k];
      NoPanicAt(paths, resolve, k);
      assert paths[..k + 1] + paths[k + 1..] == paths;
      NoPanicAppend(paths[..k + 1], paths[k + 1..], resolve);
      assert TypesOf(paths[..k + 1], resolve) == Combine(Loaded(typs, errors), LoadPath(path, resolve(path)));
      var pathTypes, pathErrors := LoadOnePath(path, resolve(path));
      typs, errors := typs + pathTypes, errors + pathErrors;
    }
    assert paths[..|paths|] == paths;
  }

  /**
   * The body of one iteration of the getTypes path loop: the type names the
   * path's package contributes and the errors met on the way, each `return`
   * standing for a `continue` of the loop.
   */
  method LoadOnePath(path: string, load: PathLoad) returns (typs: seq<TypeEntry>, errors: seq<LoadError>)
    requires !Panics(load)
    ensures Loaded(typs, errors) == LoadPath(path, load)
  {
    typs, errors := [], [];
    var pkg: Package;
    match load {
      case BuildFailed =>
        return [], [CouldNotImport(path)];
      case FromGoroot(gcImport) =>
        if gcImport.None? {
          return [], [CouldNotImport(path)];
        }
        pkg := gcImport.value;
      case FromSource(goFiles, checked) =>
        if |goFiles| == 0 {
          return [], [NoGoFiles(path)];
        }
        var astFiles, parseErrors := ParseGoFiles(goFiles);
        errors := parseErrors;
        // the first parsed file names the package handed to the checker
        assert |astFiles| > 0;
        if checked.None? {
          return [], errors + [CouldNotCheck(path)];
        }
        pkg := checked.value;
    }
    typs := ScopeTypeNames(pkg.scope);
  }

  /** The file loop of getTypes: parses each Go file, collecting the parsed ones and an error per failure. */
  method ParseGoFiles(goFiles: seq<FileParse>) returns (astFiles: seq<string>, errors: seq<LoadError>)
    ensures astFiles == ParsedFiles(goFiles) && errors == ParseErrors(goFiles)
  {
    astFiles, errors := [], [];
    for f := 0 to |goFiles|
      invariant astFiles == ParsedFiles(goFiles[..f])
      invariant errors == ParseErrors(goFiles[..f])
    {
      assert goFiles[..f + 1][..f] == goFiles[..f];
      match goFiles[f] {
        case Unparsable(file) =>
          errors := errors + [CouldNotParse(file)];
          continue;
        case Parsed(file) =>
          astFiles := astFiles + [file];
      }
    }
    assert goFiles[..|goFiles|] == goFiles;
  }

  /** The scope loop of getTypes: keeps the type names of a scope, in scope order. */
  method ScopeTypeNames(scope: seq<ScopeEntry>) returns (typs: seq<TypeEntry>)
    ensures typs == ScopeTypes(scope)
  {
    typs := [];
    for i := 0 to |scope|
      invariant typs == ScopeTypes(scope[..i])
    {
      assert scope[..i + 1][..i] == scope[..i];
      match scope[i] {
        case TypeName(typ) =>
          typs := typs + [typ];
        case OtherObject(_) =>
      }
    }
    assert scope[..|scope|] == scope;
  }

  // ---------------------------------------------------------------- properties

  /** A scope yields exactly its type names. */
  lemma {:induction false} ScopeTypesMembership(scope: seq<ScopeEntry>, t: TypeEntry)
    ensures t in ScopeTypes(scope) <==> TypeName(t) in scope
    decreases |scope|
  {
    if scope != [] {
      var init := scope[..|scope| - 1];
      assert scope == init + [scope[|scope| - 1]];
      ScopeTypesMembership(init, t);
    }
  }

  /** Type names keep their scope order. */
  lemma {:induction false} ScopeTypesAppend(a: seq<ScopeEntry>, b: seq<ScopeEntry>)
    ensures ScopeTypes(a + b) == ScopeTypes(a) + ScopeTypes(b)
    decreases |b|
  {
    if b == [] {
      assert a + b == a;
    } else {
      assert (a + b)[..|a + b| - 1] == a + b[..|b| - 1];
      ScopeTypesAppend(a, b[..|b| - 1]);
    }
  }

  lemma CombineAssociative(x: Loaded, y: Loaded, z: Loaded)
    ensures Combine(Combine(x, y), z) == Combine(x, Combine(y, z))
  {
    assert (x.types + y.types) + z.types == x.types + (y.types + z.types);
    assert (x.errors + y.errors) + z.errors == x.errors + (y.errors + z.errors);
  }

  /** A list of paths does not panic exactly when neither of its parts does. */
  lemma {:induction false} NoPanicAppend(a: seq<string>, b: seq<string>, resolve: string -> PathLoad)
    ensures NoPanic(a + b, resolve) <==> NoPanic(a, resolve) && NoPanic(b, resolve)
    decreases |b|
  {
    if b == [] {
      assert a + b == a;
    } else {
      assert (a + b)[..|a + b| - 1] == a + b[..|b| - 1];
      NoPanicAppend(a, b[..|b| - 1], resolve);
    }
  }

  /** No path of a list that does not panic panics. */
  lemma NoPanicAt(paths: seq<string>, resolve: string -> PathLoad, k: nat)
    requires NoPanic(paths, resolve) && k < |paths|
    ensures !Panics(resolve(paths[k]))
  {
    assert paths == paths[..k] + [paths[k]] + paths[k + 1..];
    NoPanicAppend(paths[..k] + [paths[k]], paths[k + 1..], resolve);
    NoPanicAppend(paths[..k], [paths[k]], resolve);
    assert [paths[k]][..0] == [];
  }

  /** Paths are loaded one after the other: loading a + b is loading a, then b. */
  lemma {:induction false} TypesOfAppend(a: seq<string>, b: seq<string>, resolve: string -> PathLoad)
    requires NoPanic(a, resolve) && NoPanic(b, resolve)
    ensures NoPanic(a + b, resolve)
    ensures TypesOf(a + b, resolve) == Combine(TypesOf(a, resolve), TypesOf(b, resolve))
    decreases |b|
  {
    if b == [] {
      assert a + b == a;
    } else {
      var init, last := b[..|b| - 1], b[|b| - 1];
      assert (a + b)[..|a + b| - 1] == a + init;
      assert (a + b)[|a + b| - 1] == last;
      TypesOfAppend(a, init, resolve);
      var x, y, z := TypesOf(a, resolve), TypesOf(init, resolve), LoadPath(last, resolve(last));
      assert TypesOf(a + b, resolve) == Combine(TypesOf(a + init, resolve), z);
      assert TypesOf(b, resolve) == Combine(y, z);
      CombineAssociative(x, y, z);
    }
  }

  /** A path whose build lookup fails adds one "Couldn't import" error at its place and no types. */
  lemma FailedPathContributesNothing(before: seq<string>, path: string, after: seq<string>, resolve: string -> PathLoad)
    requires NoPanic(before, resolve) && NoPanic(after, resolve)
    requires resolve(path).BuildFailed?
    ensures NoPanic(before + [path] + after, resolve)
    ensures TypesOf(before + [path] + after, resolve)
         == Loaded(TypesOf(before, resolve).types + TypesOf(after, resolve).types,
                   TypesOf(before, resolve).errors + [CouldNotImport(path)] + TypesOf(after, resolve).errors)
  {
    TypesOfSingle(path, resolve);
    TypesOfAppend(before, [path], resolve);
    TypesOfAppend(before + [path], after, resolve);
    var x, y := TypesOf(before, resolve), TypesOf(after, resolve);
    var w := TypesOf(before + [path], resolve);
    assert w == Loaded(x.types + [], x.errors + [CouldNotImport(path)]);
    assert x.types + [] == x.types;
  }

  /** Loading one path is that path's contribution. */
  lemma TypesOfSingle(path: string, resolve: string -> PathLoad)
    requires !Panics(resolve(path))
    ensures NoPanic([path], resolve)
    ensures TypesOf([path], resolve) == LoadPath(path, resolve(path))
  {
    assert [path][..0] == [];
    assert NoPanic([], resolve);
    var r := LoadPath(path, resolve(path));
    assert Combine(Loaded([], []), r) == Loaded([] + r.types, [] + r.errors);
    assert [] + r.types == r.types && [] + r.errors == r.errors;
  }

  /** The loaded entries are exactly the type names of the scopes of the packages that loaded. */
  lemma {:induction false} TypesOfMembership(paths: seq<string>, resolve: string -> PathLoad, t: TypeEntry)
    requires NoPanic(paths, resolve)
    ensures t in TypesOf(paths, resolve).types <==>
      exists p :: p in paths && TypeName(t) in LoadedScope(resolve(p))
    decreases |paths|
  {
    if paths != [] {
      var init, last := paths[..|paths| - 1], paths[|paths| - 1];
      assert paths == init + [last];
      TypesOfMembership(init, resolve, t);
      match resolve(last)
      case FromGoroot(Some(pkg)) => ScopeTypesMembership(pkg.scope, t);
      case FromSource(goFiles, Some(pkg)) => ScopeTypesMembership(pkg.scope, t);
      case _ =>
    }
  }

  /** "Couldn't import" is reported exactly for the paths whose lookup or compiled import failed. */
  lemma {:induction false} ImportErrorMembership(paths: seq<string>, resolve: string -> PathLoad, p: string)
    requires NoPanic(paths, resolve)
    ensures CouldNotImport(p) in TypesOf(paths, resolve).errors <==> p in paths && ImportFails(resolve(p))
    decreases |paths|
  {
    if paths != [] {
      var init, last := paths[..|paths| - 1], paths[|paths| - 1];
      assert paths == init + [last];
      ImportErrorMembership(init, resolve, p);
      if resolve(last).FromSource? {
        ParseErrorsKind(resolve(last).goFiles);
      }
    }
  }

  /** No file parsed exactly when every file is unparsable. */
  lemma {:induction false} ParsedFilesEmpty(files: seq<FileParse>)
    ensures ParsedFiles(files) == [] <==> forall f :: f in files ==> f.Unparsable?
    decreases |files|
  {
    if files != [] {
      var init := files[..|files| - 1];
      assert files == init + [files[|files| - 1]];
      ParsedFilesEmpty(init);
      var last := files[|files| - 1];
      if last.Parsed? {
        assert last in files;
      }
    }
  }

  /** Parse errors are only ever "Couldn't parse" errors. */
  lemma {:induction false} ParseErrorsKind(files: seq<FileParse>)
    ensures forall e :: e in ParseErrors(files) ==> e.CouldNotParse?
    decreases |files|
  {
    if files != [] {
      ParseErrorsKind(files[..|files| - 1]);
    }
  }
}
