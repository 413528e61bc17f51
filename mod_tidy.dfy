/** `gno mod tidy` (gnovm/cmd/gno/mod.go): collects the `gno.land/` imports
    of the non-filetest `.gno` files under the module root, deduplicated and
    sorted, and makes them the `require` list of gno.mod.  Reading and
    parsing a file is abstracted: each listed file comes with the quoted
    import literals its parse produced, or with `None` when it could not be
    read or parsed. */
module ModTidy {
  import opened Optional
  import opened GoStrings
  import opened FilePaths
  import opened GoSort
  import opened GnoModUtils

  /** A `.gno` file found under the root, with the raw (quoted) import
      literals of its parse, or None when reading or parsing it fails. */
  datatype GnoSource = GnoSource(path: string, imports: Option<seq<string>>)

  datatype ImportsResult =
    | Imports(paths: seq<string>)
    | ReadOrParseError(path: string)   // the error of the first file that failed

  const GnoLandPrefix := "gno.land/"
  const LatestVersion := "v0.0.0-latest"

  /** Filetests are skipped by their base name. */
  predicate IsFiletest(path: string) {
    HasSuffix(Base(path), "_filetest.gno")
  }

  /** For a file path (not ending in '/') the base-name test is the same as
      testing the whole path, which is how precompile recognises filetests. */
  lemma IsFiletestBySuffix(path: string)
    requires path != [] && path[|path| - 1] != '/'
    ensures IsFiletest(path) <==> HasSuffix(path, "_filetest.gno")
  {
    BaseSuffix(path, "_filetest.gno");
  }

  /** The import path of a literal: at most one trailing, then at most one
      leading, double quote removed. */
  function ImportPath(lit: string): (p: string)
  {
    TrimPrefix(TrimSuffix(lit, "\""), "\"")
  }

  /** An import path is its literal less at most two characters, and a
      literal quoted at both ends loses exactly its quotes. */
  lemma ImportPathUnquotes(lit: string)
    ensures |lit| - 2 <= |ImportPath(lit)| <= |lit|
    ensures |lit| >= 2 && lit[0] == '"' && lit[|lit| - 1] == '"' ==> ImportPath(lit) == lit[1..|lit| - 1]
  {
  }

  /** A file whose imports cannot be collected. */
  predicate Fails(f: GnoSource) {
    !IsFiletest(f.path) && f.imports.None?
  }

  /** The `gno.land/` import paths among the first `n` literals. */
  ghost function LiteralImports(lits: seq<string>, n: nat): (r: set<string>)
    requires n <= |lits|
    ensures forall p :: p in r ==> HasPrefix(p, GnoLandPrefix)
  {
    if n == 0 then {}
    else
      var p := ImportPath(lits[n - 1]);
      LiteralImports(lits, n - 1) + if HasPrefix(p, GnoLandPrefix) then {p} else {}
  }

  /** The `gno.land/` import paths a file contributes: none for a filetest. */
  ghost function FileImports(f: GnoSource): set<string> {
    if IsFiletest(f.path) || f.imports.None? then {}
    else LiteralImports(f.imports.value, |f.imports.value|)
  }

  /** Everything the first `n` files contribute. */
  ghost function ImportSet(files: seq<GnoSource>, n: nat): (r: set<string>)
    requires n <= |files|
    ensures forall p :: p in r ==> HasPrefix(p, GnoLandPrefix)
  {
    if n == 0 then {} else ImportSet(files, n - 1) + FileImports(files[n - 1])
  }

  /** `p` is the `gno.land/` import path of a literal of one of the first
      `n` files that is not a filetest. */
  ghost predicate ImportedBy(files: seq<GnoSource>, n: nat, p: string)
    requires n <= |files|
  {
    exists i: nat, j: nat :: i < n && ImportedAt(files, i, j, p)
  }

  /** `p` is the `gno.land/` import path of literal `j` of file `i`, which
      is not a filetest. */
  ghost predicate ImportedAt(files: seq<GnoSource>, i: nat, j: nat, p: string) {
    && i < |files| && !IsFiletest(files[i].path) && files[i].imports.Some?
    && j < |files[i].imports.value|
    && ImportPath(files[i].imports.value[j]) == p && HasPrefix(p, GnoLandPrefix)
  }

  /** `path` is the path of the first file of `files` whose imports cannot
      be collected. */
  ghost predicate FirstFailing(files: seq<GnoSource>, path: string) {
    exists i :: && 0 <= i < |files| && Fails(files[i]) && files[i].path == path
                && forall k :: 0 <= k < i ==> !Fails(files[k])
  }

  /** getGnoImports, for the files gnoFilesFromArgs listed under the root:
      on success exactly the `gno.land/` imports of the non-filetest files,
      each once, in increasing order; otherwise the error of the first
      non-filetest file that could not be read or parsed. */
  method GetGnoImports(files: seq<GnoSource>) returns (r: ImportsResult)
    ensures r.ReadOrParseError? <==> exists i :: 0 <= i < |files| && Fails(files[i])
    ensures r.ReadOrParseError? ==> FirstFailing(files, r.path)
    ensures r.Imports? ==> StrictlySorted(r.paths)
    ensures r.Imports? ==> forall p :: p in r.paths <==> p in ImportSet(files, |files|)
  {
    var i, all := CollectImports(files);
    if i < |files| {
      FailingAt(files, i);
      return ReadOrParseError(files[i].path);
    }
    var sorted := SortImports(all);
    return Imports(sorted);
  }

  /** The loop of getGnoImports: goes through the files until one fails,
      collecting the imports of those before it, each once. */
  method CollectImports(files: seq<GnoSource>) returns (i: nat, all: seq<string>)
    ensures i <= |files| && (i < |files| ==> Fails(files[i]))
    ensures forall k {:trigger Fails(files[k])} :: 0 <= k < i ==> !Fails(files[k])
    ensures Distinct(all)
    ensures forall p :: p in all <==> p in ImportSet(files, i)
  {
    all := [];
    var seen: set<string> := {};
    i := 0;
    while i < |files| && !Fails(files[i])
      invariant 0 <= i <= |files|
      invariant forall k {:trigger Fails(files[k])} :: 0 <= k < i ==> !Fails(files[k])
      invariant Distinct(all)
      invariant forall p :: p in seen <==> p in all
      invariant forall p :: p in all <==> p in ImportSet(files, i)
    {
      all, seen := AddFile(all, seen, files[i]);
      i := i + 1;
    }
  }

  /** A failing file preceded only by files that do not fail is the first
      failing file. */
  lemma FailingAt(files: seq<GnoSource>, i: nat)
    requires i < |files| && Fails(files[i])
    requires forall k {:trigger Fails(files[k])} :: 0 <= k < i ==> !Fails(files[k])
    ensures FirstFailing(files, files[i].path)
    ensures exists k :: 0 <= k < |files| && Fails(files[k])
  {
  }

  /** One round of getGnoImports' outer loop, for a file that does not
      fail: a filetest is skipped, any other file adds its imports. */
  method AddFile(all: seq<string>, seen: set<string>, f: GnoSource) returns (all': seq<string>, seen': set<string>)
    requires !Fails(f)
    requires Distinct(all) && forall p :: p in seen <==> p in all
    ensures Distinct(all') && forall p :: p in seen' <==> p in all'
    ensures forall p :: p in all' <==> p in all || p in FileImports(f)
  {
    if IsFiletest(f.path) {
      return all, seen;
    }
    all', seen' := AddImports(all, seen, f.imports.value);
  }

  /** The inner loop of getGnoImports: appends the `gno.land/` import paths
      of one file's literals that were not seen before. */
  method AddImports(all: seq<string>, seen: set<string>, lits: seq<string>)
      returns (all': seq<string>, seen': set<string>)
    requires Distinct(all) && forall p :: p in seen <==> p in all
    ensures Distinct(all') && forall p :: p in seen' <==> p in all'
    ensures forall p :: p in all' <==> p in all || p in LiteralImports(lits, |lits|)
  {
    all', seen' := all, seen;
    var j := 0;
    while j < |lits|
      invariant 0 <= j <= |lits|
      invariant Distinct(all') && forall p :: p in seen' <==> p in all'
      invariant forall p :: p in all' <==> p in all || p in LiteralImports(lits, j)
    {
      var importPath := ImportPath(lits[j]);
      if HasPrefix(importPath, GnoLandPrefix) && importPath !in seen' {
        DistinctSnoc(all', importPath);
        all' := all' + [importPath];
        seen' := seen' + {importPath};
      }
      j := j + 1;
    }
  }

  lemma DistinctSnoc(s: seq<string>, x: string)
    requires Distinct(s) && x !in s
    ensures Distinct(s + [x])
  {
  }

  /** sort.Strings on the collected paths: they come out strictly increasing
      because none repeats. */
  method SortImports(all: seq<string>) returns (sorted: seq<string>)
    requires Distinct(all)
    ensures StrictlySorted(sorted)
    ensures forall p :: p in sorted <==> p in all
    ensures |sorted| == |all|
  {
    var a := new string[|all|](k requires 0 <= k < |all| => all[k]);
    assert a[..] == all;
    SortStrings(a);
    sorted := a[..];
    DistinctPermutation(all, sorted);
    SortedDistinct(sorted);
    forall p ensures p in sorted <==> p in all {
      assert p in sorted <==> p in multiset(sorted);
      assert p in all <==> p in multiset(all);
    }
  }

  /** The collected set is the set of `gno.land/` imports of the non-filetest
      files: every such import is collected and nothing else is. */
  lemma {:induction false} ImportSetMembers(files: seq<GnoSource>, n: nat, p: string)
    requires n <= |files|
    ensures p in ImportSet(files, n) <==> ImportedBy(files, n, p)
  {
    if n > 0 {
      ImportSetMembers(files, n - 1, p);
      if p in ImportSet(files, n) {
        ImportSetSound(files, n, p);
      }
      if ImportedBy(files, n, p) {
        ImportSetComplete(files, n, p);
      }
    }
  }

  /** A path imported by one of the first `n` files has been collected. */
  lemma ImportSetComplete(files: seq<GnoSource>, n: nat, p: string)
    requires 0 < n <= |files| && ImportedBy(files, n, p)
    requires ImportedBy(files, n - 1, p) ==> p in ImportSet(files, n - 1)
    ensures p in ImportSet(files, n)
  {
    var i: nat, j: nat :| i < n && ImportedAt(files, i, j, p);
    if i == n - 1 {
      FileImportsComplete(files[i], j);
    } else {
      assert i < n - 1 && ImportedAt(files, i, j, p);
    }
  }

  /** Every `gno.land/` literal of a file that is not a filetest is among
      its imports. */
  lemma FileImportsComplete(f: GnoSource, j: int)
    requires !IsFiletest(f.path) && f.imports.Some? && 0 <= j < |f.imports.value|
    requires HasPrefix(ImportPath(f.imports.value[j]), GnoLandPrefix)
    ensures ImportPath(f.imports.value[j]) in FileImports(f)
  {
    LiteralImportsComplete(f.imports.value, |f.imports.value|, j);
  }

  /** A path collected from the last of the first `n` files was imported by it. */
  lemma ImportSetSound(files: seq<GnoSource>, n: nat, p: string)
    requires 0 < n <= |files| && p in ImportSet(files, n)
    requires p in ImportSet(files, n - 1) ==> ImportedBy(files, n - 1, p)
    ensures ImportedBy(files, n, p)
  {
    if p !in ImportSet(files, n - 1) {
      var f := files[n - 1];
      var j := LiteralImportsWitness(f.imports.value, |f.imports.value|, p);
      assert ImportedAt(files, n - 1, j, p);
    }
  }

  /** Where a collected path comes from. */
  lemma {:induction false} LiteralImportsWitness(lits: seq<string>, n: nat, p: string) returns (j: int)
    requires n <= |lits| && p in LiteralImports(lits, n)
    ensures 0 <= j < n && ImportPath(lits[j]) == p && HasPrefix(p, GnoLandPrefix)
  {
    if p in LiteralImports(lits, n - 1) {
      j := LiteralImportsWitness(lits, n - 1, p);
    } else {
      j := n - 1;
    }
  }

  /** Every `gno.land/` literal is collected. */
  lemma {:induction false} LiteralImportsComplete(lits: seq<string>, n: nat, j: int)
    requires 0 <= j < n <= |lits| && HasPrefix(ImportPath(lits[j]), GnoLandPrefix)
    ensures ImportPath(lits[j]) in LiteralImports(lits, n)
  {
    if j < n - 1 {
      LiteralImportsComplete(lits, n - 1, j);
    }
  }

  /** The result of a successful collection is determined by the set of
      imports alone: any strictly sorted list of exactly those paths is it,
      so it does not depend on the order the files were listed in. */
  lemma ImportsUnique(files: seq<GnoSource>, paths: seq<string>, other: seq<string>)
    requires StrictlySorted(paths) && forall p :: p in paths <==> p in ImportSet(files, |files|)
    requires StrictlySorted(other) && forall p :: p in other <==> ImportedBy(files, |files|, p)
    ensures paths == other
  {
    forall p ensures p in paths <==> p in other {
      ImportSetMembers(files, |files|, p);
    }
    StrictlySortedUnique(paths, other);
  }

  /** A module requirement: `module.Version{Path, Version}`. */
  datatype Require = Require(path: string, version: string)

  /** The parsed gno.mod file; only its require list is modelled. */
  class GnoModFile {
    var require: seq<Require>

    constructor (require: seq<Require>)
      ensures this.require == require
    {
      this.require := require;
    }
  }

  /** The require entries built from the imports: one per import, in the
      same order, each at the version `v0.0.0-latest`. */
  method BuildRequires(imports: seq<string>) returns (reqs: seq<Require>)
    ensures |reqs| == |imports|
    ensures forall k :: 0 <= k < |reqs| ==> reqs[k].path == imports[k] && reqs[k].version == LatestVersion
  {
    reqs := [];
    var k := 0;
    while k < |imports|
      invariant 0 <= k <= |imports| && |reqs| == k
      invariant forall m :: 0 <= m < k ==> reqs[m] == Require(imports[m], LatestVersion)
    {
      reqs := reqs + [Require(imports[k], LatestVersion)];
      k := k + 1;
    }
  }

  /** The paths of some require entries. */
  function RequiredPaths(reqs: seq<Require>): (paths: seq<string>)
    ensures |paths| == |reqs| && forall k :: 0 <= k < |reqs| ==> paths[k] == reqs[k].path
  {
    if reqs == [] then [] else [reqs[0].path] + RequiredPaths(reqs[1..])
  }

  datatype TidyError =
    | ErrHelp                          // flag.ErrHelp: positional arguments given
    | GetwdError                       // os.Getwd failed
    | RootDirError(cause: FindResult)  // FindRootDir failed
    | ListError                        // gnoFilesFromArgs failed
    | ParseGnoModError                 // gnomod.ParseGnoMod failed
    | ImportsError(path: string)       // getGnoImports failed on this file

  /** execModTidy.  `wd` is what os.Getwd returned, `gnoMods` the gno.mod
      files on disk, `listing` what gnoFilesFromArgs lists under each root,
      and `gm` the gno.mod that ParseGnoMod reads from the root (`parseOk`
      says whether it parsed).  On success gm's require list is replaced by
      one `v0.0.0-latest` entry per collected import, in sorted order; on
      every error it is left alone. */
  method ExecModTidy(args: seq<string>, wd: Option<string>, gnoMods: map<string, StatOutcome>,
                     listing: map<string, seq<GnoSource>>, gm: GnoModFile, parseOk: bool)
      returns (err: Option<TidyError>)
    requires wd.Some? && IsAbs(wd.value) ==> IsCleanAbs(wd.value)
    modifies gm
    ensures args != [] ==> err == Some(ErrHelp)
    ensures args == [] && wd.None? ==> err == Some(GetwdError)
    ensures args == [] && wd.Some? && !IsAbs(wd.value) ==> err == Some(RootDirError(NotAbsolute))
    ensures args == [] && wd.Some? && IsAbs(wd.value) && NoModDir(wd.value, gnoMods) ==>
              err == Some(RootDirError(GnoModNotFound))
    ensures forall rd :: args == [] && wd.Some? && NearestModDir(rd, wd.value, gnoMods) ==>
              && (gnoMods[rd] == StatFailed ==> err == Some(RootDirError(StatError(rd))))
              && (gnoMods[rd] == Present && !parseOk ==> err == Some(ParseGnoModError))
              && (gnoMods[rd] == Present && parseOk && rd !in listing ==> err == Some(ListError))
              && (gnoMods[rd] == Present && parseOk && rd in listing ==>
                    && (err.Some? <==> exists k :: 0 <= k < |listing[rd]| && Fails(listing[rd][k]))
                    && (err.Some? ==> err.value.ImportsError? && FirstFailing(listing[rd], err.value.path))
                    && (err.None? ==> forall p :: p in RequiredPaths(gm.require) <==> p in ImportSet(listing[rd], |listing[rd]|)))
    ensures err.None? <==>
              && args == [] && wd.Some? && parseOk
              && exists rd :: && NearestModDir(rd, wd.value, gnoMods) && gnoMods[rd] == Present && rd in listing
                              && forall k :: 0 <= k < |listing[rd]| ==> !Fails(listing[rd][k])
    ensures err.Some? ==> gm.require == old(gm.require)
    ensures err.None? ==> StrictlySorted(RequiredPaths(gm.require))
    ensures err.None? ==> forall k :: 0 <= k < |gm.require| ==> gm.require[k].version == LatestVersion
  {
    if args != [] {
      return Some(ErrHelp);
    }
    if wd.None? {
      return Some(GetwdError);
    }
    var found := FindRootDir(wd.value, gnoMods);
    if found.Found? || found.StatError? {
      forall rd' | NearestModDir(rd', wd.value, gnoMods)
        ensures rd' == found.dir
      {
        NearestModDirUnique(rd', found.dir, wd.value, gnoMods);
      }
    }
    if !found.Found? {
      return Some(RootDirError(found));
    }
    var rd := found.dir;
    if !parseOk {
      return Some(ParseGnoModError);
    }
    if rd !in listing {
      return Some(ListError);
    }
    var imports := GetGnoImports(listing[rd]);
    if imports.ReadOrParseError? {
      return Some(ImportsError(imports.path));
    }
    var reqs := BuildRequires(imports.paths);
    assert RequiredPaths(reqs) == imports.paths;
    gm.require := reqs;
    return None;
  }
}
