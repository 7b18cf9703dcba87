# implements: which types implement which interfaces

This project models the core of `implements`, a Go tool that takes two sets of
packages: the packages whose interfaces form the universe, and the packages
whose types are to be checked. It reports which type `T`, or which pointer type
`*T`, implements which interface. The report comes in one of two orders:

- forward: "T implements ...", one heading per subject;
- reverse: "I is implemented by ...", one heading per interface.

The model covers five pieces of `main.go`:

- **Type entries and method sets** (`go_types.dfy`, module `GoTypes`). A
  package is an object with a path, a name, a scope and a completeness flag.
  Packages are compared by identity, as the source compares `*types.Package`
  pointers. A named type has a package, a name and an underlying type. The
  underlying type is either an interface (its required methods) or a concrete
  type (its value-receiver methods and its pointer-receiver methods). The
  method set of `*T` is the union of the two, following the section "Method
  sets" of the Go Programming Language Specification. `doesImplement` becomes
  "the required set is a subset of the candidate's method set".
- **Interface extraction** (`get_interfaces.dfy`, module `Interfaces`): the
  `getInterfaces` loop.
- **Relation computation** (`report.dfy`, module `Report`, and
  `report_properties.dfy`, module `ReportProperties`): the two report orders
  `listImplementedInterfaces` and `listImplementers`. Each returns its report
  as a list of headings with their entries instead of printing it. Both use
  the same skip rules and the same satisfaction test. The lemmas prove that
  the two orders agree, what each lists, in which order, and when a heading
  appears.
- **Type loading** (`get_types.dfy`, module `Loader`): the `getTypes` loop
  over package paths, its error collection and its scope filter. The foreign
  calls (`build.Import`, `types.GcImport`, parsing, checking) become a
  per-path outcome supplied as input.
- **The import cache** (`importer.dfy`, module `Resolver`): `Context` and its
  `importer` method over the shared `allImports` map. The outcomes of the
  foreign calls it makes are parameters. The contract states the cache
  discipline:
  - store on success;
  - reuse a cached package only when it is complete;
  - force completeness before storing after a check;
  - write nothing on any error return.

Behaviours of the code worth noting:

- The forward report prints `T`'s list and `*T`'s list under two separate
  headings (`main.go:291-303`).
- Reverse headings qualify the interface by its package's name
  (`main.go:335`). Forward headings and entries qualify by package path
  (`main.go:292`, `main.go:299`).
- The importer tries the compiled package before it looks in the cache
  (`main.go:107-120`).
- `getTypes` never looks up, or stores, the path it loads under that path in
  `allImports`. Its nested imports do go through the cache: `GcImport`
  receives `allImports` (`main.go:204`), and the checker it calls
  (`main.go:223`, `main.go:249`) imports through the importer
  (`main.go:76-78`). A package that `getTypes` type-checks from source is
  therefore a new package object on every call.

## Model

| member | source | states |
|---|---|---|
| `GoTypes.TypeEntry.PointerMethodSet` | main.go:284-288 | the method set of `*T` contains every value-receiver and every pointer-receiver method of `T` and nothing else; a pointer to an interface has no methods |
| `GoTypes.DoesImplement` | main.go:258-261 | satisfaction is "no required method is missing": the interface's required set is contained in the candidate's method set, so every type implements an interface without methods |
| `Interfaces.InterfaceOf` | main.go:49-50 | the interface made from an entry carries that entry as its object, its name, and its method set as the required set |
| `Interfaces.GetInterfaces` | main.go:43-55 | the loop returns exactly `InterfacesOf(typs)` |
| `Interfaces.InterfacesOfMembership` | main.go:46-52 | an interface is extracted if and only if some interface-kind entry of the input yields it |
| `Interfaces.InterfacesOfAppend` | main.go:46-52 | extraction keeps input order: it distributes over concatenation |
| `Report.ListImplementedInterfaces` | main.go:263-305 | the nested loops build exactly the forward report over the interfaces of the universe |
| `Report.Skipped` | main.go:270-278 | the pairs both passes skip: an interface without methods, or one with the subject's own package object and name (the same skips are at main.go:313-321) |
| `Report.Listed` | main.go:269-289 | `T` or `*T` is listed against an interface when the pair is not skipped and that variant satisfies it; `*T` only for a subject that is not an interface; a listed `T` that is not an interface also satisfies it through `*T` (the same tests are at main.go:312-332) |
| `Report.ImplementsOf` | main.go:267-289 | the inner loop over the interfaces builds exactly `T`'s list and `*T`'s list, in interface order |
| `Report.ImplementersOf` | main.go:311-332 | the inner loop over the subjects builds exactly the interface's list, in subject order |
| `Report.ListImplementers` | main.go:307-341 | the nested loops build exactly the reverse report over the interfaces of the universe |
| `Report.SubjectEntries` | main.go:323-331 | a subject contributes only listed entries for itself, and `T` comes before `*T` when both are listed |
| `ReportProperties.ImplementsMembership` | main.go:269-289 | `T`'s (or `*T`'s) list holds an interface if and only if it is in the universe and passes the skip rules and the satisfaction test |
| `ReportProperties.ImplementsAppend` | main.go:269-289 | forward lists follow the order of the interface universe |
| `ReportProperties.ImplementedByMembership` | main.go:312-332 | an interface's list holds `T` (or `*T`) if and only if `T` is a subject and that variant passes the skip rules and the satisfaction test |
| `ReportProperties.ImplementedByAppend` | main.go:312-332 | reverse lists follow the order of the subjects |
| `ReportProperties.ImplementedByAt` | main.go:323-331 | a subject's entries sit at its own place in the reverse list, value variant first |
| `ReportProperties.ForwardGroupsWellFormed` | main.go:291-303 | every forward heading belongs to a subject, carries that variant's complete list, and is non-empty |
| `ReportProperties.ForwardGroupPresent` | main.go:291-303 | a subject whose list for a variant is non-empty gets that heading |
| `ReportProperties.ReverseGroupsWellFormed` | main.go:334-339 | every reverse heading belongs to an interface of the universe, carries its complete list, and is non-empty |
| `ReportProperties.ReverseGroupPresent` | main.go:334-339 | an interface whose list is non-empty gets a heading |
| `ReportProperties.ForwardReportMembership` | main.go:263-303 | the forward report relates `T`/`*T` to `I` if and only if `T` is a subject, `I` an interface of the universe, and the pair is listed |
| `ReportProperties.ReverseReportMembership` | main.go:307-339 | the reverse report relates `T`/`*T` to `I` under exactly the same condition |
| `ReportProperties.ReportsAgree` | main.go:263-341 | forward and reverse runs over the same universe and subjects relate exactly the same pairs, variant by variant |
| `ReportProperties.ForwardReportAppend` | main.go:266-304 | forward headings follow the order of the subjects |
| `ReportProperties.ReverseReportAppend` | main.go:310-340 | reverse headings follow the order of the interface universe |
| `ReportProperties.EmptyInterfaceNeverReported` | main.go:270-273 | an interface without methods appears in no forward list and has no reverse heading (the same skip is at main.go:313-316) |
| `ReportProperties.NoSelfMatch` | main.go:275-278 | no subject is reported against an interface with its own package and name, in either order (the same skip is at main.go:318-321) |
| `ReportProperties.PointerOnlyForConcrete` | main.go:284-288 | `*T` is only reported for a subject that is not an interface, in either order (the same test is at main.go:327-331) |
| `ReportProperties.PointerVariantSuperset` | main.go:280-288 | for a non-interface `T`, every interface reported for `T` is also reported for `*T`, in both orders |
| `ReportProperties.ValueAndPointerReceivers` | main.go:280-288 | a value-receiver `Foo` makes both `Bar` and `*Bar` implement `Fooer`; a pointer-receiver `Foo` makes only `*Baz` implement it |
| `ReportProperties.EmptyInterfaceHasNoHeading` | main.go:313-316 | a method-less interface gets no reverse heading even though every type satisfies it |
| `Loader.GetTypes` | main.go:188-246 | the path loop returns exactly `TypesOf(paths, resolve)`, provided no path reaches the unguarded `astFiles[0]` |
| `Loader.LoadPath` | main.go:193-243 | what one path contributes: the types are exactly the type names of the scope of the package it loaded, none when loading failed; the errors of the failing step otherwise |
| `Loader.LoadOnePath` | main.go:193-243 | the body of one path iteration returns exactly `LoadPath`'s contribution, the `continue`s becoming early returns |
| `Loader.ParseGoFiles` | main.go:214-221 | the file loop keeps the parsed files in order and records one error per unparsable file |
| `Loader.ScopeTypeNames` | main.go:230-243 | the scope loop keeps exactly the type names of the scope, in scope order |
| `Loader.ScopeTypesMembership` | main.go:234-241 | an entry is kept if and only if it is a type name of the scope |
| `Loader.ScopeTypesAppend` | main.go:231-243 | type names keep their scope order |
| `Loader.TypesOfAppend` | main.go:192-244 | paths are loaded one after the other: loading `a + b` is loading `a`, then `b` |
| `Loader.TypesOfSingle` | main.go:192-244 | loading a single path that does not panic yields exactly that path's contribution |
| `Loader.FailedPathContributesNothing` | main.go:192-197 | a path whose build lookup fails adds one "Couldn't import" error at its place and no types |
| `Loader.TypesOfMembership` | main.go:192-244 | the loaded entries are exactly the type names in the scopes of the packages that loaded |
| `Loader.ImportErrorMembership` | main.go:193-208 | a "Couldn't import" error is reported for a path if and only if its build lookup or its compiled import failed |
| `Loader.ParsedFilesEmpty` | main.go:214-223 | no file parsed if and only if every file is unparsable, which is when `astFiles[0]` panics |
| `GoTypes.Package.constructor` | main.go:180 | a package made by `NewPackage` carries the given path, name, scope and completeness |
| `Resolver.TriesCompiled` | main.go:107 | the compiled package is tried when the build lookup failed or found the package in GOROOT |
| `Resolver.Candidates` | main.go:147 | the packages of a directory other than `documentation`: exactly the names found except that one |
| `Resolver.Choosable` | main.go:147-160 | the names the directory loop may settle on: the only package, or any package not named `main` |
| `Resolver.ChoiceExists` | main.go:147-160 | a directory with at least one package always offers a package to choose: the only one, or one not named main |
| `Resolver.Context.constructor` | main.go:71-81 | a new context starts with an empty cache |
| `Resolver.Context.Importer` | main.go:83-186 | stores a compiled package under its own path; returns a complete cached package unchanged; stores a checked package under `path`, made complete first; writes neither map on any error return; states each error that is returned |
| `Resolver.ImportTwice` | main.go:117-120 | importing the same path from source twice yields the same package object |

## Left out

- Flag parsing, usage and the exit in `main` (`main.go:21-27`, `main.go:343-360`). This is command-line glue. `matchPackages` is not part of this model; the lists of paths are inputs.
- Text output. Reports are returned as headings with entries and are not printed. Reverse entries keep the subject itself, not the string `fmt.Sprintf` builds from it. `listErrors` (`main.go:252-256`) only prints.
- `build.Import`, `parser.ParseFile`, `parser.ParseDir`, `types.GcImport`, and `types.Context.Check` read the file system or run the Go type checker. Their outcomes are inputs: `PathLoad` in `Loader`, and the `build`, `compiled`, `parseDir` and `check` parameters of `Resolver.Context.Importer`. How `GcImport` and the nested imports of `Check` add packages to `allImports` is not modelled.
- The real `types.MissingMethod` (signature identity, embedding, promotion) is not modelled. A method is one token standing for its name and signature, and satisfaction is set inclusion.
- `Loader.GetTypes`: it requires that no source package has Go files of which none parse. On that input the source indexes `astFiles[0]` of an empty slice and panics (`main.go:223`).
- The malformed `Errorf` call at `main.go:217` has one argument for two verbs. Its message is not modelled; the error is `CouldNotParse(file)`.
- Errors carry the path or file they are about, not the foreign error text.
- The package chosen from a directory comes from iterating a Go map, whose order is unspecified (`main.go:150-160`). The model makes a nondeterministic choice among the allowed names.
- `Resolver.Context.Importer`: the checker's `imports` map is passed in and returned as a value. The model therefore does not capture aliasing between that map and any other. `pkg.Imports()` and `pkg.Pos()`, which `NewPackage` copies, are not modelled.
- The `typs` slice keeps the `Pointer` field only as the derived method set of `*T`. The pointer type object that `types.NewPointer` builds (`main.go:239`) is not modelled.
