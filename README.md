# Gno package tooling: a Dafny model

This project models the package-handling core of the Gno toolchain:

- the in-memory package of `tm2/pkg/std/memfile.go`:
  - validating a package's name, import path and file names, including the
    unanchored `gno.land/p|r/...` path pattern;
  - validating a package-info record and each of its versions;
  - looking up a file, the emptiness test and splitting a file path into
    directory and file name;
- the list helpers `contains` and `endsWith` of `gnovm/pkg/gnolang/utils.go`;
- `gnovm/pkg/gnomod/utils.go`:
  - `FindRootDir`, which walks up from a directory to the nearest `gno.mod`;
  - `extractPackageDir` and `isFiletestsDir`;
- `gno mod tidy` in `gnovm/cmd/gno/mod.go`:
  - `getGnoImports` collects the `gno.land/` imports of every non-filetest
    file, deduplicated and sorted;
  - `execModTidy` makes them the `require` list of `gno.mod`, each at
    `v0.0.0-latest`;
- `gnodev precompile` in `cmd/gnodev/precompile.go`:
  - `precompileFile` turns a `.gno` file into a `.go` file whose name depends
    on whether the source is a filetest, a test or neither;
  - it then precompiles the repository packages the file imports;
  - `precompilePkg` precompiles a package's files at most once, through the
    `skipPkgs` memo table;
  - `precompileApp` counts the files that fail.

Modules:

- `Optional`: the `Option` type;
- `GoStrings`: the parts of Go's `strings` package and of `sort.Strings`'
  ordering that the code relies on;
- `FilePaths`: the parts of Go's `path/filepath` package that the code relies on;
- `GoSort`: `sort.Strings`, as an insertion sort on an array;
- `MemFile`, `GnoLangUtils`, `GnoModUtils`, `ModTidy`, `Precompile`: one per
  source file above.

The file system, the parser and the precompiler are values passed in:

- a map from directories to what `os.Stat` says of their `gno.mod`;
- the list of `.gno` files under a root, each with its parsed import
  literals or a failure;
- a `World` that says:
  - which sources read and precompile, and which imports result;
  - which targets cannot be written;
  - which fail the gofmt check, with which binary;
  - what `*.gno` matches in each package;
  - which output directories cannot be created.

Regular expressions are stated as predicates on strings. The matchers are
proved equal to those predicates. For the unanchored import-path pattern,
the predicate is "some substring is in the language".

## Model

| member | source | states |
|---|---|---|
| MemFile.PathPatternMatches | tm2/pkg/std/memfile.go:74-78 | the scan succeeds exactly when some substring of the path is `gno.land/` then `p` or `r` then one or more `/part` segments (the pattern is unanchored) |
| MemFile.PathPatternIgnoresTail | tm2/pkg/std/memfile.go:78-81 | any text after a package or realm path is accepted, because the pattern has no `$` anchor, although the comment above Validate says the path must have no dot after its first domain component |
| MemFile.DottedPathAccepted | tm2/pkg/std/memfile.go:78-81 | `gno.land/p/demo/a.b`, with a dot after the first domain component, passes the pattern |
| MemFile.FileNamePatternMatches | tm2/pkg/std/memfile.go:79 | succeeds exactly when the name is `LICENSE`, `README`, or a possibly empty run of letters, digits and `_`, then a dot, then a possibly empty run of lower-case letters, digits, `_` and dots |
| MemFile.FileNameHasDot | tm2/pkg/std/memfile.go:82-84 | every accepted file name other than LICENSE and README contains a dot, so it can never be a package-name-shaped path part |
| MemFile.Validate | tm2/pkg/std/memfile.go:85-104 | no error exactly when the name, import path and every file name match and the names are distinct; otherwise the error of the first check that fails: the name, then the path, then the first file whose name is malformed or repeats an earlier one |
| MemFile.ValidNamesDistinct | tm2/pkg/std/memfile.go:93-102 | in a valid package no two files share a name |
| MemFile.ValidateInfo | tm2/pkg/std/memfile.go:34-47 | no error exactly when the name and path match and every version validates; otherwise the name error, then the path error, then "error validating version" |
| MemFile.GetFile | tm2/pkg/std/memfile.go:61-68 | returns nothing exactly when no file has the name, otherwise the first file with that name |
| MemFile.IsEmpty | tm2/pkg/std/memfile.go:70-72 | the package has no files; its partner is EmptyIffNoFile |
| MemFile.EmptyIffNoFile | tm2/pkg/std/memfile.go:70-72 | a package is empty exactly when no name finds a file in it |
| MemFile.SplitFilepath | tm2/pkg/std/memfile.go:107-120 | splits the path at '/' and hands the pieces to SplitParts; its partners are SplitFilepathCases and SplitFilepathRejoin |
| MemFile.SplitParts | tm2/pkg/std/memfile.go:109-119 | the three-way choice on the last piece: dotted file name, empty last piece, or no file name |
| MemFile.SplitFilepathCases | tm2/pkg/std/memfile.go:106-120 | without '/' the whole path is the directory; otherwise the part after the last '/' is the file name if it has a dot, an empty last part drops the trailing '/', and any other last part leaves the whole path as the directory |
| MemFile.SplitFilepathRejoin | tm2/pkg/std/memfile.go:106-120 | directory + "/" + file name gives back the path whenever a file name is found; the file name is one segment with a dot; an empty file name with a shorter directory means the path ended in '/' |
| GoStrings.JoinSplit | tm2/pkg/std/memfile.go:108-118 | joining the pieces of a split with the separator gives back the string |
| GoStrings.SplitJoin | tm2/pkg/std/memfile.go:108-118 | splitting a join of separator-free pieces gives back the pieces |
| GoStrings.SplitSingle | tm2/pkg/std/memfile.go:108-109 | a split has one piece exactly when the separator does not occur |
| GoStrings.SplitLast | tm2/pkg/std/memfile.go:112-114 | the last piece of a split is what follows the last separator, and the other pieces join to what precedes it |
| GoStrings.TrimPrefixSplits | gnovm/cmd/gno/mod.go:244 | a present prefix followed by the trimmed string gives the string; an absent one leaves it unchanged |
| GoStrings.TrimSuffixSplits | gnovm/cmd/gno/mod.go:244 | the trimmed string followed by a present suffix gives the string; an absent one leaves it unchanged |
| GoStrings.LessTransitive | gnovm/cmd/gno/mod.go:255 | the byte-wise string order used by sort.Strings is transitive |
| GoStrings.LessTotal | gnovm/cmd/gno/mod.go:255 | of two different strings one is less than the other |
| GoStrings.LessAsymmetric | gnovm/cmd/gno/mod.go:255 | no two strings are each less than the other |
| FilePaths.DirOfCleanAbs | gnovm/pkg/gnomod/utils.go:28 | the parent of a clean absolute path other than the root is clean, strictly shorter, and above the path |
| FilePaths.AboveIsAboveDir | gnovm/pkg/gnomod/utils.go:24-30 | a directory strictly above a path is at or above its parent |
| FilePaths.AncestorsComparable | gnovm/pkg/gnomod/utils.go:24-30 | two directories at or above one path are at or above one another, so the upward walk meets them in a fixed order |
| FilePaths.BaseSuffix | gnovm/cmd/gno/mod.go:230-231 | for a path that does not end in '/', testing a separator-free suffix on the base name is the same as testing it on the path |
| FilePaths.LastElementSuffix | cmd/gnodev/precompile.go:114 | testing a separator-free suffix on the last element is the same as testing it on the whole string |
| FilePaths.NameUnderDir | cmd/gnodev/precompile.go:145-152 | a separator-free name joined under a directory is the base name of the result, and the directory its parent |
| GoSort.SortStrings | gnovm/cmd/gno/mod.go:255 | the array ends sorted and is a permutation of what it held |
| GoSort.StrictlySortedUnique | gnovm/cmd/gno/mod.go:255 | two strictly sorted lists with the same members are equal |
| GoSort.DistinctPermutation | gnovm/cmd/gno/mod.go:248-255 | a permutation of a duplicate-free list is duplicate-free |
| GoSort.SortedDistinct | gnovm/cmd/gno/mod.go:248-255 | a sorted duplicate-free list is strictly sorted |
| GnoLangUtils.Contains | gnovm/pkg/gnolang/utils.go:5-12 | true exactly when some element equals the item |
| GnoLangUtils.EndsWith | gnovm/pkg/gnolang/utils.go:14-21 | true exactly when the item ends with some element |
| GnoLangUtils.EmptyListFindsNothing | gnovm/pkg/gnolang/utils.go:5-21 | neither helper finds anything in an empty list |
| GnoLangUtils.EmptySuffixMatchesAll | gnovm/pkg/gnolang/utils.go:14-21 | a list holding "" matches every item by suffix |
| GnoLangUtils.ContainsImpliesEndsWith | gnovm/pkg/gnolang/utils.go:5-21 | an item that is in the list also ends with an element of it |
| GnoModUtils.FindRootDir | gnovm/pkg/gnomod/utils.go:18-38 | a relative path is refused; otherwise the result is the nearest directory at or above the path, other than the root, whose gno.mod stat does not report "not exist" (found, or its stat error), and "not found" means no such directory exists |
| GnoModUtils.NearestModDirUnique | gnovm/pkg/gnomod/utils.go:24-34 | at most one directory is the nearest one with a gno.mod, so the root FindRootDir returns is determined by the path |
| GnoModUtils.NearestModDirExcludesNone | gnovm/pkg/gnomod/utils.go:24-37 | "found" and "not found" cannot both describe one path |
| GnoModUtils.ExtractPackageDir | gnovm/pkg/gnomod/utils.go:40-52 | the segments before the first `filetests` segment joined, so the result has no `filetests` segment and is relative |
| GnoModUtils.IsFiletestsDir | gnovm/pkg/gnomod/utils.go:54-68 | true exactly when some segment of the absolute path is `filetests` |
| ModTidy.IsFiletest | gnovm/cmd/gno/mod.go:230-231 | a file is skipped when its base name ends in `_filetest.gno`; its partner is IsFiletestBySuffix |
| ModTidy.IsFiletestBySuffix | gnovm/cmd/gno/mod.go:230-231 | for a file path the base-name test agrees with testing the whole path, the test precompile uses |
| ModTidy.ImportPath | gnovm/cmd/gno/mod.go:244 | removes one trailing, then one leading double quote; its partner is ImportPathUnquotes |
| ModTidy.ImportPathUnquotes | gnovm/cmd/gno/mod.go:244 | removing the quotes shortens a literal by at most two, and a literal quoted at both ends loses exactly its quotes |
| ModTidy.GetGnoImports | gnovm/cmd/gno/mod.go:221-258 | takes the files `gnoFilesFromArgs` listed (a listing failure is ExecModTidy's `ListError`); fails exactly when a non-filetest file cannot be read or parsed, naming the first such file with no failing file before it; otherwise returns, strictly sorted and so without duplicates, exactly the `gno.land/` import paths of the non-filetest files |
| ModTidy.CollectImports | gnovm/cmd/gno/mod.go:229-254 | the loop goes through the files until the first that fails, and the imports collected are exactly those of the files before it, each once |
| ModTidy.AddFile | gnovm/cmd/gno/mod.go:229-253 | a filetest adds nothing; any other file adds its `gno.land/` imports, and the list stays duplicate-free and in step with the seen set |
| ModTidy.AddImports | gnovm/cmd/gno/mod.go:243-253 | adds exactly the `gno.land/` import paths of the literals, keeping the list duplicate-free and in step with the seen set |
| ModTidy.SortImports | gnovm/cmd/gno/mod.go:255 | the sorted list is strictly sorted, has the same members and the same length |
| ModTidy.ImportSetMembers | gnovm/cmd/gno/mod.go:229-253 | a path is collected from the first n files exactly when one of them, not a filetest, has an import literal that unquotes to it and it starts with `gno.land/` |
| ModTidy.LiteralImportsWitness | gnovm/cmd/gno/mod.go:243-247 | every collected path comes from a literal and starts with `gno.land/` |
| ModTidy.LiteralImportsComplete | gnovm/cmd/gno/mod.go:243-247 | every literal that unquotes to a `gno.land/` path is collected |
| ModTidy.ImportsUnique | gnovm/cmd/gno/mod.go:248-255 | the import list is determined by the files: any strictly sorted list of the imported paths is the same list |
| ModTidy.BuildRequires | gnovm/cmd/gno/mod.go:204-212 | one require per import, in order, with its path and version `v0.0.0-latest` |
| ModTidy.ExecModTidy | gnovm/cmd/gno/mod.go:177-217 | each step's failure gives its own error in the source's order: ErrHelp for arguments, the Getwd error, FindRootDir's error (relative path, stat error of the nearest root, no gno.mod), the parse error, the listing error, and the first failing file; it succeeds exactly when every step does, on the nearest root; any error leaves gno.mod's requires alone, and on success they are exactly the imports under that root, strictly sorted, each at `v0.0.0-latest` |
| Precompile.EffectiveGofmt | cmd/gnodev/precompile.go:96-99 | the configured gofmt binary, or `gofmt` when none is configured |
| Precompile.KindOf | cmd/gnodev/precompile.go:115-125 | a file is a filetest exactly when its path ends in `_filetest.gno` and a test exactly when it ends in `_test.gno`; the two cases exclude each other |
| Precompile.Tags | cmd/gnodev/precompile.go:113-125 | every tag set starts with `gno`; it is `gno` alone exactly for a plain file and ends in `,test` exactly for a test |
| Precompile.NameNoExtension | cmd/gnodev/precompile.go:112 | the base name without `.gno`; its partner is TargetFilenameShape |
| Precompile.TargetFilename | cmd/gnodev/precompile.go:112-125 | the generated file name of each case of the switch; its partners are TargetFilenameShape and TargetsDistinct |
| Precompile.FiletestIsNotTest | cmd/gnodev/precompile.go:116-119 | no path ends in both `_filetest.gno` and `_test.gno` |
| Precompile.TargetFilenameShape | cmd/gnodev/precompile.go:112-125 | the target is a `.go` file, ending in `_test.go` exactly for a test, hidden for a filetest or test, and for `x.gno` it is `x.gno.gen.go` or `x.gno.gen_test.go` behind the dot |
| Precompile.TargetsDistinct | cmd/gnodev/precompile.go:112-125 | two different `.gno` files of one directory get different target files |
| Precompile.RewriteImport | cmd/gnodev/precompile.go:135-141 | an import is kept exactly when its unquoted path starts with `github.com/gnolang/gno`, and is rewritten to "." followed by the rest of that path |
| Precompile.RewriteImports | cmd/gnodev/precompile.go:134-142 | every rewritten path starts with "." and comes from an import of the repository |
| Precompile.RewriteImportsComplete | cmd/gnodev/precompile.go:134-142 | every import of the repository appears rewritten |
| Precompile.RewriteImportsAppend | cmd/gnodev/precompile.go:134-142 | rewriting two import lists one after the other is rewriting their concatenation, so the import order is kept |
| Precompile.TargetPath | cmd/gnodev/precompile.go:145-152 | the path the generated file is written to; its partner is TargetPathPlacement |
| Precompile.TargetPathPlacement | cmd/gnodev/precompile.go:145-152 | the target is named by TargetFilename and lies in the source's directory, or, with an output directory, in the join of the output directory and the source's directory |
| Precompile.FileOutcome | cmd/gnodev/precompile.go:106-164 | the first of read, precompile, write and (unless skipped) format check that fails; PrecompileFile is proved to return it |
| Precompile.SkipFmtOnlyDropsFormatErrors | cmd/gnodev/precompile.go:158-164 | turning on skip-fmt changes a file's outcome only by removing a format error |
| Precompile.MkdirFails | cmd/gnodev/precompile.go:68-72 | only with an output directory set can creating the package's output directory fail; PrecompilePkg returns its error first |
| Precompile.FirstFailure | cmd/gnodev/precompile.go:84-88 | no error exactly when every file precompiles; otherwise an error naming a file of the package that failed, with its cause |
| Precompile.FirstFailureIsFirst | cmd/gnodev/precompile.go:84-88 | the file FirstFailure names is preceded only by files that precompile |
| Precompile.FailureCountIsErrorCount | cmd/gnodev/precompile.go:50-58 | the count kept file by file equals the number of failing outcomes |
| Precompile.ErrorCountZero | cmd/gnodev/precompile.go:60-64 | the error count is zero exactly when no file failed |
| Precompile.ErrorCountPositions | cmd/gnodev/precompile.go:50-58 | the error count is the number of positions whose outcome is an error |
| Precompile.AttemptedStopsAtFailure | cmd/gnodev/precompile.go:84-88 | the loop of precompilePkg starts on every file up to and including the first that fails and on no later one, or on all files when none fails |
| Precompile.SequenceAccounts | cmd/gnodev/precompile.go:166-169 | two runs one after the other, each of which precompiled exactly the started files of the packages it newly marked, together do the same |
| Precompile.FileAccounts | cmd/gnodev/precompile.go:93-172 | precompileFile starts its file for its owner, and every package it newly marks had its output directory created and had exactly its started files precompiled on its behalf |
| Precompile.ImportsAccounts | cmd/gnodev/precompile.go:166-169 | the same for the loop over the imported packages |
| Precompile.PkgAccounts | cmd/gnodev/precompile.go:67-91 | the same for precompilePkg |
| Precompile.FilesAccounts | cmd/gnodev/precompile.go:84-88 | the same for the loop over a package's files, which starts them in order through the first failure |
| Precompile.AppAccounts | cmd/gnodev/precompile.go:50-58 | precompileApp starts every listed file, in order, on its own behalf, and every package it marks was precompiled as above |
| Precompile.PkgMarked | cmd/gnodev/precompile.go:68-77 | after precompilePkg the package is in the memo table exactly when it already was or its output directory could be created |
| Precompile.ImportsMarked | cmd/gnodev/precompile.go:166-169 | after the import loop every imported package is in the memo table unless its output directory cannot be created |
| Precompile.ImportsPrecompiled | cmd/gnodev/precompile.go:166-169 | once a file precompiles, each package it imports was already in the memo table, failed its mkdir, or is now marked with exactly its started files precompiled on its behalf |
| Precompile.FileBounded | cmd/gnodev/precompile.go:93-172 | precompileFile marks only packages imported by files it precompiled |
| Precompile.ImportsBounded | cmd/gnodev/precompile.go:166-169 | the import loop marks only the listed packages and those imported by files it precompiled |
| Precompile.PkgBounded | cmd/gnodev/precompile.go:67-91 | precompilePkg marks only its package and packages imported by files it precompiled |
| Precompile.FilesBounded | cmd/gnodev/precompile.go:84-88 | the loop over a package's files marks only packages imported by files it precompiled |
| Precompile.AppBounded | cmd/gnodev/precompile.go:50-58 | precompileApp marks only packages imported by files it precompiled |
| Precompile.Precompiler.constructor | cmd/gnodev/precompile.go:24-31 | starts with an empty memo table |
| Precompile.Precompiler.PrecompileFile | cmd/gnodev/precompile.go:93-172 | the result is the first failing step (read, precompile, write, format check when enabled); the memo table and the log of started files become exactly what the recursion of precompileFile gives; on success every imported repository package was already in the memo table, failed its mkdir, or was precompiled |
| Precompile.Precompiler.VisitImports | cmd/gnodev/precompile.go:166-169 | precompilePkg runs on each imported package in order, errors ignored: the memo table and the log become exactly what that loop gives |
| Precompile.Precompiler.PrecompilePkg | cmd/gnodev/precompile.go:67-91 | a failing mkdir gives its error and changes nothing; a package already in the memo table gives no error and changes nothing; otherwise the package is marked, its files are started in order through the first failure, whose error is returned, and the only other packages marked are imported by files it precompiled |
| Precompile.Precompiler.PrecompileFiles | cmd/gnodev/precompile.go:84-88 | precompiles the files in order and stops at the first failure, which it returns; the memo table and log become what that loop gives |
| Precompile.Precompiler.CountFile | cmd/gnodev/precompile.go:52-57 | adds one to the count exactly when the file fails; the memo table and log carry on from the previous file as the recursion of precompileFile gives |
| Precompile.Precompiler.PrecompileAll | cmd/gnodev/precompile.go:50-58 | the error count is the number of listed files that fail; one memo table is shared by all files, and the state is what the loop gives |
| Precompile.Precompiler.PrecompileApp | cmd/gnodev/precompile.go:33-65 | no arguments is "invalid args", a listing failure is its own error, and otherwise the command fails exactly when some file failed, reporting how many; the listed files are started in order, every newly marked package had exactly its started files precompiled, and only packages imported by precompiled files are marked |

## Left out

- GnoModUtils.FindRootDir: requires an absolute path to be clean already, because `filepath.Clean` is not modelled. Walking up through `filepath.Dir` is stated for clean paths only.
- Windows volume names and the `\` separator are not modelled. The root is always "/".
- FilePaths.JoinPath: joins the non-empty elements with '/' and does not clean the result, so `Join(".", x)` is `./x` rather than `x`, and `Join("/", x)` is `//x` rather than `/x`. The directory MkdirFails creates for a package, `JoinPath([output, pkgPath])`, and the directory a target is written to, `JoinPath([output, Dir(file)])`, are therefore not shown to be the same directory: for the import `github.com/gnolang/gno/x` RewriteImport gives the package path `./x`, while the glob of `./x/*.gno` returns `x/a.gno`, so the model has `out/./x` and `out/x` where the source cleans both to `out/x`. The model does not tie the files of a package to its path at all. ExtractPackageDir's result differs too (next line).
- GnoModUtils.ExtractPackageDir: the result is not cleaned, so `./a/filetests/x` gives `./a` where the source gives `a`, and `a/../b/filetests` gives `a/../b` where the source gives `b`. It is exact for paths that are already clean.
- MemFile.Validate: a package with a nil `ModFile` panics in the source when its import path is read; the model's package always carries a module record.
- MemFile.ValidateInfo: a nil entry in `Versions` panics in the source; the model's versions are values and are never missing.
- MemFile.GetFile: returns a copy of the file record, where the source returns a reference to the package's own record, so a later change made through that reference is not modelled.
- I/O is not modelled and becomes parameters instead:
  - `os.Getwd`, `os.Stat`, `os.ReadFile` and the Go parser;
  - `gno.Precompile`, `gno.PrecompileVerifyFile`, `os.WriteFile`, `os.MkdirAll` and `filepath.Glob`;
  - `gnoFilesFromArgs`, `gnomod.ParseGnoMod` and writing `gno.mod` back with `WriteToPath`.
- The error text of `fmt.Errorf` and `errors.New` is not modelled. Errors are constructors that carry their cause or the file they name.
- Verbose printing, `cmd.ErrPrintfln` and `log.Fatal` (on a glob error) are not modelled.
- GnoModUtils.IsFiletestsDir: takes a path that is already absolute, because `filepath.Abs`, and its panic, need the working directory.
- Strings are sequences of characters rather than bytes. Every literal the code compares against is ASCII.
- Precompile.Tags: the build tags are computed but the modelled `gno.Precompile` does not depend on them.
- `precompileOptions.GoBinary` and `Verbose` are carried in `Options` but change nothing.
- Precompile.Precompiler: the ghost `processed` field is not in the source. It records the files whose precompilation started, in order, each with the package it was started for, so that the effects of the methods can be stated. The ghost functions that follow the recursion take the result of precompiling each file as a parameter; the class passes FileOutcome.
- Precompile.Precompiler.PrecompilePkg: returns early when the glob matches nothing. This is the source's loop running no rounds.
- Precompile.Precompiler.PrecompileApp: does not model the replacement of a nil `skipPkgs` map by an empty one. The constructor always starts with an empty memo table.
- The `MemMod` version and `Requires` fields and the `MemFile` body are data only. Validation does not look at them.
