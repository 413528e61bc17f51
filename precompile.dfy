/** `gnodev precompile` (cmd/gnodev/precompile.go): turns `.gno` files into
    `.go` files, then precompiles the packages they import from the gno
    repository, each package at most once.  Reading, precompiling, writing,
    formatting checks, directory creation and globbing are what a `World`
    value says they are. */
module Precompile {
  import opened Optional
  import opened GoStrings
  import opened FilePaths

  const DefaultGofmt := "gofmt"
  const DefaultOutput := "."
  const RepoPrefix := "github.com/gnolang/gno"

  /** The command's flags (precompileOptions without the memo table). */
  datatype Options = Options(verbose: bool, skipFmt: bool, goBinary: string, gofmtBinary: string, output: string)

  /** The gofmt binary a file is checked with: the configured one, or the
      default when none is configured. */
  function EffectiveGofmt(gofmtBinary: string): (r: string)
    ensures r != ""
    ensures gofmtBinary != "" ==> r == gofmtBinary
    ensures gofmtBinary == "" ==> r == DefaultGofmt
  {
    if gofmtBinary == "" then DefaultGofmt else gofmtBinary
  }

  /** The case of the switch on the file name that a source file falls in. */
  datatype FileKind = Filetest | Test | Plain

  /** The base name of the source without its `.gno` extension. */
  function NameNoExtension(srcPath: string): string {
    TrimSuffix(Base(srcPath), ".gno")
  }

  /** Filetests are recognised first, then tests; anything else is plain. */
  function KindOf(srcPath: string): (k: FileKind)
    ensures k.Filetest? <==> HasSuffix(srcPath, "_filetest.gno")
    ensures k.Test? <==> HasSuffix(srcPath, "_test.gno")
  {
    FiletestIsNotTest(srcPath);
    if HasSuffix(srcPath, "_filetest.gno") then Filetest
    else if HasSuffix(srcPath, "_test.gno") then Test
    else Plain
  }

  /** The build tags the source is precompiled with. */
  function Tags(k: FileKind): (t: string)
    ensures HasPrefix(t, "gno")
    ensures t == "gno" <==> k.Plain?
    ensures HasSuffix(t, ",test") <==> k.Test?
  {
    match k
    case Filetest => "gno,filetest"
    case Test => "gno,test"
    case Plain => "gno"
  }

  /** Filetests and tests get hidden targets; every other file `x.gno`
      becomes `x.gno.gen.go`. */
  function TargetFilename(srcPath: string): string {
    var name := NameNoExtension(srcPath);
    match KindOf(srcPath)
    case Filetest => "." + name + ".gno.gen.go"
    case Test => "." + name + ".gno.gen_test.go"
    case Plain => name + ".gno.gen.go"
  }

  /** The two special suffixes never apply together, so exactly one case of
      the switch is taken whatever order its cases are in. */
  lemma FiletestIsNotTest(s: string)
    ensures HasSuffix(s, "_filetest.gno") ==> !HasSuffix(s, "_test.gno")
  {
    if HasSuffix(s, "_filetest.gno") {
      assert s[|s| - 9] == "_filetest.gno"[4] == 'e';
    }
  }

  /** Two different `.gno` files of one directory never get the same target
      file, so no generated file overwrites another. */
  lemma TargetsDistinct(a: string, b: string)
    requires HasSuffix(a, ".gno") && HasSuffix(b, ".gno") && '/' !in a && '/' !in b
    requires a != b
    ensures TargetFilename(a) != TargetFilename(b)
  {
    var ta, tb := TargetFilename(a), TargetFilename(b);
    var testA, testB := HasSuffix(a, "_test.gno"), HasSuffix(b, "_test.gno");
    var fileA, fileB := HasSuffix(a, "_filetest.gno"), HasSuffix(b, "_filetest.gno");
    TestTargetShape(a);
    TestTargetShape(b);
    if testA != testB {
      assert ta[|ta| - 8] != tb[|tb| - 8];
    } else if fileA != fileB {
      if fileA {
        PlainNotDotFiletest(b, a);
      } else {
        PlainNotDotFiletest(a, b);
      }
    } else {
      var na := TargetStem(a);
      var nb := TargetStem(b);
      assert a == na + ".gno" && b == nb + ".gno";
      assert na != nb;
      var x := if testA then ".gno.gen_test.go" else ".gno.gen.go";
      if testA || fileA {
        assert ta[..|ta| - |x|] == "." + na && tb[..|tb| - |x|] == "." + nb;
        assert ("." + na)[1..] == na && ("." + nb)[1..] == nb;
      } else {
        assert ta[..|ta| - |x|] == na && tb[..|tb| - |x|] == nb;
      }
    }
  }

  /** The name of a `.gno` file without separators, less its extension, is
      what its target is named after. */
  lemma TargetStem(a: string) returns (name: string)
    requires HasSuffix(a, ".gno") && '/' !in a
    ensures a == name + ".gno" && NameNoExtension(a) == name
  {
    BaseOfName(a);
    name := a[..|a| - 4];
  }

  /** The generated name of a test ends in "_test.go", any other in "o.gen.go". */
  lemma TestTargetShape(a: string)
    ensures var t := TargetFilename(a);
            |t| >= 11 && t[|t| - 8] == if HasSuffix(a, "_test.gno") then '_' else 'o'
  {
  }

  /** The target of `x.gno` is the Go file `x.gno.gen.go`, hidden for
      filetests and tests, and ending in `_test.go`, the names the go tool
      builds only as tests, exactly for tests. */
  lemma TargetFilenameShape(srcPath: string)
    ensures var t := TargetFilename(srcPath);
            && HasSuffix(t, ".go")
            && (HasSuffix(t, "_test.go") <==> KindOf(srcPath).Test?)
            && (!KindOf(srcPath).Plain? ==> t[0] == '.')
    ensures HasSuffix(Base(srcPath), ".gno") ==>
              TargetFilename(srcPath) == (if KindOf(srcPath).Plain? then "" else ".") + Base(srcPath)
                                         + (if KindOf(srcPath).Test? then ".gen_test.go" else ".gen.go")
  {
    match KindOf(srcPath)
    case Plain =>
      PlainTargetShape(srcPath);
      assert "" + Base(srcPath) == Base(srcPath);
    case Filetest => FiletestTargetShape(srcPath);
    case Test => TestFileTargetShape(srcPath);
  }

  /** The target of a plain file `x.gno` is `x.gno.gen.go`. */
  lemma PlainTargetShape(a: string)
    requires KindOf(a).Plain?
    ensures var t := TargetFilename(a);
            HasSuffix(t, ".go") && !HasSuffix(t, "_test.go")
    ensures HasSuffix(Base(a), ".gno") ==> TargetFilename(a) == Base(a) + ".gen.go"
  {
    var name := NameNoExtension(a);
    PlainTarget(a);
    GeneratedName(name);
    TrimSuffixSplits(Base(a), ".gno");
  }

  /** The target of a filetest `x.gno` is `.x.gno.gen.go`. */
  lemma FiletestTargetShape(a: string)
    requires KindOf(a).Filetest?
    ensures var t := TargetFilename(a);
            HasSuffix(t, ".go") && !HasSuffix(t, "_test.go") && t[0] == '.'
    ensures HasSuffix(Base(a), ".gno") ==> TargetFilename(a) == "." + Base(a) + ".gen.go"
  {
    var name := NameNoExtension(a);
    FiletestTarget(a);
    GeneratedName("." + name);
    TrimSuffixSplits(Base(a), ".gno");
    assert ("." + name) + ".gno" == "." + (name + ".gno");
  }

  /** The target of a test `x.gno` is `.x.gno.gen_test.go`. */
  lemma TestFileTargetShape(a: string)
    requires KindOf(a).Test?
    ensures var t := TargetFilename(a);
            HasSuffix(t, ".go") && HasSuffix(t, "_test.go") && t[0] == '.'
    ensures HasSuffix(Base(a), ".gno") ==> TargetFilename(a) == "." + Base(a) + ".gen_test.go"
  {
    var name := NameNoExtension(a);
    TestTarget(a);
    GeneratedTestName("." + name);
    TrimSuffixSplits(Base(a), ".gno");
    assert ("." + name) + ".gno" == "." + (name + ".gno");
  }

  /** A name with `.gno.gen.go` appended is a Go file name but not a test
      file name. */
  lemma GeneratedName(prefix: string)
    ensures var t := prefix + ".gno.gen.go";
            && t == (prefix + ".gno") + ".gen.go"
            && HasSuffix(t, ".go") && !HasSuffix(t, "_test.go")
            && (prefix != [] ==> t[0] == prefix[0])
  {
    var t := prefix + ".gno.gen.go";
    assert t[|t| - 3..] == ".go";
    assert t[|t| - 8] == 'o';
  }

  /** A name with `.gno.gen_test.go` appended is a Go test file name. */
  lemma GeneratedTestName(prefix: string)
    ensures var t := prefix + ".gno.gen_test.go";
            && t == (prefix + ".gno") + ".gen_test.go"
            && HasSuffix(t, ".go") && HasSuffix(t, "_test.go")
            && (prefix != [] ==> t[0] == prefix[0])
  {
    var t := prefix + ".gno.gen_test.go";
    assert t[|t| - 3..] == ".go";
    assert t[|t| - 8..] == "_test.go";
  }

  /** The target name of a `.gno` file is a single path element. */
  lemma TargetFilenameFree(srcPath: string)
    requires HasSuffix(Base(srcPath), ".gno")
    ensures TargetFilename(srcPath) != "" && '/' !in TargetFilename(srcPath)
  {
    var name := NameNoExtension(srcPath);
    var dot := if KindOf(srcPath).Plain? then "" else ".";
    var gen := if KindOf(srcPath).Test? then ".gen_test.go" else ".gen.go";
    TargetFilenameShape(srcPath);
    BaseFree(srcPath);
    var t := TargetFilename(srcPath);
    assert t == dot + Base(srcPath) + gen;
    forall c | c in t ensures c != '/' {
      assert c in dot || c in Base(srcPath) || c in gen;
    }
  }

  /** A plain file `x.gno` and a filetest `y_filetest.gno` get different
      targets: equal targets would make `x` the hidden name `.y_filetest`,
      and `x.gno` would then be a filetest itself. */
  lemma PlainNotDotFiletest(plain: string, filetest: string)
    requires HasSuffix(plain, ".gno") && HasSuffix(filetest, "_filetest.gno")
    requires '/' !in plain && '/' !in filetest
    requires !HasSuffix(plain, "_filetest.gno") && !HasSuffix(plain, "_test.gno")
    ensures TargetFilename(plain) != TargetFilename(filetest)
  {
    PlainTarget(plain);
    FiletestTarget(filetest);
    StemsDiffer(plain, filetest);
    DistinctWithSuffix(NameNoExtension(plain), "." + NameNoExtension(filetest), ".gno.gen.go");
  }

  /** The stem of a plain file is not a dot before the stem of a filetest. */
  lemma StemsDiffer(plain: string, filetest: string)
    requires HasSuffix(plain, ".gno") && HasSuffix(filetest, "_filetest.gno")
    requires '/' !in plain && '/' !in filetest
    requires !HasSuffix(plain, "_filetest.gno")
    ensures NameNoExtension(plain) != "." + NameNoExtension(filetest)
  {
    var np := TargetStem(plain);
    var nf := TargetStem(filetest);
    DotFiletestNotPlain(plain, filetest);
    DotStem(np, nf, plain, filetest);
  }

  /** Stems that differ by a leading dot name files that do too. */
  lemma DotStem(np: string, nf: string, plain: string, filetest: string)
    requires plain == np + ".gno" && filetest == nf + ".gno"
    requires plain != "." + filetest
    ensures np != "." + nf
  {
    assert "." + filetest == ("." + nf) + ".gno";
  }

  /** The target of a plain file is its name with `.gno.gen.go` added. */
  lemma PlainTarget(a: string)
    requires KindOf(a).Plain?
    ensures TargetFilename(a) == NameNoExtension(a) + ".gno.gen.go"
  {
  }

  /** The target of a filetest is hidden: a dot, its name, `.gno.gen.go`. */
  lemma FiletestTarget(a: string)
    requires KindOf(a).Filetest?
    ensures TargetFilename(a) == ("." + NameNoExtension(a)) + ".gno.gen.go"
  {
  }

  /** The target of a test is hidden: a dot, its name, `.gno.gen_test.go`. */
  lemma TestTarget(a: string)
    requires KindOf(a).Test?
    ensures TargetFilename(a) == ("." + NameNoExtension(a)) + ".gno.gen_test.go"
  {
  }

  /** A file that is not a filetest is not a filetest's name behind a dot. */
  lemma DotFiletestNotPlain(plain: string, filetest: string)
    requires HasSuffix(filetest, "_filetest.gno") && !HasSuffix(plain, "_filetest.gno")
    ensures plain != "." + filetest
  {
    SuffixOfLonger(".", filetest, "_filetest.gno");
  }

  /** Putting characters in front keeps a suffix. */
  lemma SuffixOfLonger(c: string, s: string, x: string)
    requires HasSuffix(s, x)
    ensures HasSuffix(c + s, x)
  {
    assert (c + s)[|c + s| - |x|..] == s[|s| - |x|..];
  }

  /** Appending the same characters keeps different strings different. */
  lemma DistinctWithSuffix(p: string, q: string, x: string)
    requires p != q
    ensures p + x != q + x
  {
    if |p| == |q| {
      assert (p + x)[..|p|] == p && (q + x)[..|q|] == q;
    }
  }

  /** The import path inside a quoted literal. */
  function Unquote(lit: string): string
    requires |lit| >= 2
  {
    lit[1..|lit| - 1]
  }

  /** The package an import literal names, relative to the repository root,
      if it is one of the gno repository. */
  function RewriteImport(lit: string): (r: seq<string>)
    requires |lit| >= 2
    ensures |r| <= 1
    ensures r != [] <==> HasPrefix(Unquote(lit), RepoPrefix)
    ensures r != [] ==> HasPrefix(r[0], ".") && Unquote(lit) == RepoPrefix + r[0][1..]
  {
    var path := Unquote(lit);
    if HasPrefix(path, RepoPrefix) then ["." + TrimPrefix(path, RepoPrefix)] else []
  }

  /** The packages of the gno repository a precompiled file imports, as
      paths relative to the repository root ("." + the rest of the path),
      in import order. */
  function RewriteImports(lits: seq<string>): (r: seq<string>)
    requires forall k :: 0 <= k < |lits| ==> |lits[k]| >= 2
    ensures |r| <= |lits|
    ensures forall q :: q in r ==>
              && HasPrefix(q, ".")
              && exists k :: 0 <= k < |lits| && Unquote(lits[k]) == RepoPrefix + q[1..]
  {
    if lits == [] then []
    else
      var rest := RewriteImports(lits[1..]);
      RewriteImportsTail(lits, rest);
      RewriteImport(lits[0]) + rest
  }

  /** What the rest of the literals give comes from the literals. */
  lemma RewriteImportsTail(lits: seq<string>, rest: seq<string>)
    requires lits != [] && forall k :: 0 <= k < |lits| ==> |lits[k]| >= 2
    requires forall q :: q in rest ==>
               HasPrefix(q, ".") && exists k :: 0 <= k < |lits[1..]| && Unquote(lits[1..][k]) == RepoPrefix + q[1..]
    ensures forall q :: q in rest ==>
              HasPrefix(q, ".") && exists k :: 0 <= k < |lits| && Unquote(lits[k]) == RepoPrefix + q[1..]
  {
    forall q | q in rest ensures HasPrefix(q, ".") && exists k :: 0 <= k < |lits| && Unquote(lits[k]) == RepoPrefix + q[1..] {
      var k :| 0 <= k < |lits[1..]| && Unquote(lits[1..][k]) == RepoPrefix + q[1..];
      assert lits[k + 1] == lits[1..][k];
    }
  }

  /** Every import of the gno repository is rewritten. */
  lemma {:induction false} RewriteImportsComplete(lits: seq<string>, k: int)
    requires forall m :: 0 <= m < |lits| ==> |lits[m]| >= 2
    requires 0 <= k < |lits| && HasPrefix(Unquote(lits[k]), RepoPrefix)
    ensures "." + Unquote(lits[k])[|RepoPrefix|..] in RewriteImports(lits)
  {
    if k > 0 {
      assert lits[1..][k - 1] == lits[k];
      RewriteImportsComplete(lits[1..], k - 1);
    }
  }

  /** The rewrite works literal by literal, so it keeps the import order. */
  lemma {:induction false} RewriteImportsAppend(a: seq<string>, b: seq<string>)
    requires forall k :: 0 <= k < |a| ==> |a[k]| >= 2
    requires forall k :: 0 <= k < |b| ==> |b[k]| >= 2
    ensures RewriteImports(a + b) == RewriteImports(a) + RewriteImports(b)
  {
    if a == [] {
      assert a + b == b;
    } else {
      var ab := a + b;
      assert ab[0] == a[0] && ab[1..] == a[1..] + b;
      RewriteImportsAppend(a[1..], b);
      assert RewriteImports(ab) == RewriteImport(a[0]) + RewriteImports(a[1..] + b);
      assert RewriteImports(a) == RewriteImport(a[0]) + RewriteImports(a[1..]);
      AppendAssociates(RewriteImport(a[0]), RewriteImports(a[1..]), RewriteImports(b));
    }
  }

  /** What reading and precompiling a `.gno` file gives. */
  datatype Compiled =
    | Unparsable                      // gno.Precompile failed
    | Precompiled(imports: seq<string>)  // the quoted import literals of the generated file

  /** The environment: files that can be read (with what precompiling them
      gives), target paths that cannot be written, (target, gofmt binary)
      pairs whose check fails, what globbing `*.gno` in each package directory matches
      path, and the output directories that cannot be created. */
  datatype World = World(
    sources: map<string, Compiled>,
    unwritable: set<string>,
    misformatted: set<(string, string)>,
    packages: map<string, seq<string>>,
    mkdirFailures: set<string>)

  /** Import literals always carry their quotes. */
  ghost predicate WellFormed(w: World) {
    forall src :: src in w.sources && w.sources[src].Precompiled? ==>
      forall k :: 0 <= k < |w.sources[src].imports| ==> |w.sources[src].imports[k]| >= 2
  }

  /** The packages of the gno repository a source file imports, once it
      is precompiled. */
  function ImportedPackages(w: World, srcPath: string): seq<string>
    requires WellFormed(w)
  {
    if srcPath in w.sources && w.sources[srcPath].Precompiled? then RewriteImports(w.sources[srcPath].imports) else []
  }

  datatype FileError = ReadError | PrecompileError | WriteError | FormatError

  /** Where the generated file is written: next to the source, or under the
      output directory at the source's directory. */
  function TargetPath(opts: Options, srcPath: string): string {
    var target := TargetFilename(srcPath);
    if opts.output != DefaultOutput then JoinPath([opts.output, Dir(srcPath), target])
    else JoinPath([Dir(srcPath), target])
  }

  /** The generated file is named by TargetFilename and written into the
      source's directory, or into that directory under the output
      directory, which for the files of a package is the directory
      precompilePkg creates (see MkdirFails). */
  lemma TargetPathPlacement(opts: Options, srcPath: string)
    requires HasSuffix(Base(srcPath), ".gno")
    ensures Base(TargetPath(opts, srcPath)) == TargetFilename(srcPath)
    ensures opts.output == DefaultOutput ==> Dir(TargetPath(opts, srcPath)) == Dir(srcPath)
    ensures opts.output != DefaultOutput ==> Dir(TargetPath(opts, srcPath)) == JoinPath([opts.output, Dir(srcPath)])
  {
    var d, t := Dir(srcPath), TargetFilename(srcPath);
    TargetFilenameFree(srcPath);
    assert d != "";
    assert [d, t][1..] == [t] && [t][1..] == [] && [d][1..] == [];
    assert NonEmpty([d, t]) == [d, t];
    if opts.output != DefaultOutput {
      var o := opts.output;
      assert [o, d, t][1..] == [d, t] && [o, d][1..] == [d];
      var front := NonEmpty([o, d]);
      assert NonEmpty([d]) == [d];
      assert front == if o == "" then [d] else [o, d];
      assert NonEmpty([o, d, t]) == front + [t];
      JoinSnoc(front, t, '/');
      assert TargetPath(opts, srcPath) == JoinPath([o, d]) + "/" + t;
      NameUnderDir(JoinPath([o, d]), t);
    } else {
      assert TargetPath(opts, srcPath) == Join([d, t], '/') == d + "/" + t;
      NameUnderDir(d, t);
    }
  }

  /** The result of precompileFile: the first step that fails, if any.  The
      imported packages are precompiled only after every step succeeded and
      their errors are dropped, so they play no part here. */
  function FileOutcome(w: World, opts: Options, srcPath: string): Option<FileError> {
    if srcPath !in w.sources then Some(ReadError)
    else if w.sources[srcPath].Unparsable? then Some(PrecompileError)
    else
      var target := TargetPath(opts, srcPath);
      if target in w.unwritable then Some(WriteError)
      else if !opts.skipFmt && (target, EffectiveGofmt(opts.gofmtBinary)) in w.misformatted then Some(FormatError)
      else None
  }

  /** Skipping the format check removes format errors and nothing else. */
  lemma SkipFmtOnlyDropsFormatErrors(w: World, opts: Options, srcPath: string)
    requires !opts.skipFmt
    ensures var skipping := FileOutcome(w, opts.(skipFmt := true), srcPath);
            skipping == if FileOutcome(w, opts, srcPath) == Some(FormatError) then None
                        else FileOutcome(w, opts, srcPath)
  {
    assert TargetPath(opts.(skipFmt := true), srcPath) == TargetPath(opts, srcPath);
  }

  datatype PkgError =
    | MkdirError                              // os.MkdirAll of the output directory failed
    | InFile(file: string, cause: FileError)  // the first file of the package that failed

  /** The files globbing `*.gno` in the package directory matches. */
  function PackageFiles(w: World, pkgPath: string): seq<string> {
    if pkgPath in w.packages then w.packages[pkgPath] else []
  }

  /** os.MkdirAll fails on the package's output directory. */
  predicate MkdirFails(w: World, opts: Options, pkgPath: string) {
    opts.output != DefaultOutput && JoinPath([opts.output, pkgPath]) in w.mkdirFailures
  }

  /** The first of `files[i..]` that fails, with its error. */
  function FirstFailure(w: World, opts: Options, files: seq<string>, i: nat): (r: Option<PkgError>)
    requires i <= |files|
    ensures r.None? <==> forall k :: i <= k < |files| ==> FileOutcome(w, opts, files[k]).None?
    ensures r.Some? ==> r.value.InFile? && exists k :: && i <= k < |files| && files[k] == r.value.file
                                                      && FileOutcome(w, opts, files[k]) == Some(r.value.cause)
    decreases |files| - i
  {
    if i == |files| then None
    else
      var e := FileOutcome(w, opts, files[i]);
      if e.Some? then Some(InFile(files[i], e.value)) else FirstFailure(w, opts, files, i + 1)
  }

  /** The failure reported is the first: every file before it succeeds. */
  lemma {:induction false} FirstFailureIsFirst(w: World, opts: Options, files: seq<string>, i: nat)
    requires i <= |files|
    ensures var r := FirstFailure(w, opts, files, i);
            r.Some? ==> exists k :: && i <= k < |files| && files[k] == r.value.file
                                    && FileOutcome(w, opts, files[k]) == Some(r.value.cause)
                                    && forall j :: i <= j < k ==> FileOutcome(w, opts, files[j]).None?
    decreases |files| - i
  {
    if i < |files| {
      var e := FileOutcome(w, opts, files[i]);
      if e.None? {
        FirstFailureIsFirst(w, opts, files, i + 1);
        var r := FirstFailure(w, opts, files, i + 1);
        if r.Some? {
          var k :| && i + 1 <= k < |files| && files[k] == r.value.file
                   && FileOutcome(w, opts, files[k]) == Some(r.value.cause)
                   && forall j :: i + 1 <= j < k ==> FileOutcome(w, opts, files[j]).None?;
          assert forall j :: i <= j < k ==> FileOutcome(w, opts, files[j]).None?;
        }
      }
    }
  }

  /** The number of failures among the first `n` files: the count
      precompileApp keeps. */
  function FailureCount(w: World, opts: Options, paths: seq<string>, n: nat): (count: nat)
    requires n <= |paths|
    ensures count <= n
  {
    if n == 0 then 0
    else FailureCount(w, opts, paths, n - 1) + if FileOutcome(w, opts, paths[n - 1]).Some? then 1 else 0
  }

  /** The outcome of precompiling each file. */
  function Outcomes(w: World, opts: Options, paths: seq<string>): seq<Option<FileError>>
  {
    seq(|paths|, k requires 0 <= k < |paths| => FileOutcome(w, opts, paths[k]))
  }

  /** The number of errors among the first `n` outcomes. */
  function ErrorCount(outcomes: seq<Option<FileError>>, n: nat): (count: nat)
    requires n <= |outcomes|
    ensures count <= n
  {
    if n == 0 then 0 else ErrorCount(outcomes, n - 1) + if outcomes[n - 1].Some? then 1 else 0
  }

  /** Counting file by file agrees with counting the outcomes. */
  lemma {:induction false} FailureCountIsErrorCount(w: World, opts: Options, paths: seq<string>, n: nat)
    requires n <= |paths|
    ensures FailureCount(w, opts, paths, n) == ErrorCount(Outcomes(w, opts, paths), n)
  {
    if n > 0 {
      FailureCountIsErrorCount(w, opts, paths, n - 1);
    }
  }

  /** No error is counted exactly when every outcome is a success. */
  lemma {:induction false} ErrorCountZero(outcomes: seq<Option<FileError>>, n: nat)
    requires n <= |outcomes|
    ensures ErrorCount(outcomes, n) == 0 <==> forall k :: 0 <= k < n ==> outcomes[k].None?
  {
    if n > 0 {
      ErrorCountZero(outcomes, n - 1);
    }
  }

  /** Every outcome is counted once: the count is the number of failing
      positions. */
  lemma {:induction false} ErrorCountPositions(outcomes: seq<Option<FileError>>, n: nat)
    requires n <= |outcomes|
    ensures ErrorCount(outcomes, n) == |set k | 0 <= k < n && outcomes[k].Some?|
  {
    if n > 0 {
      ErrorCountPositions(outcomes, n - 1);
      var before := set k | 0 <= k < n - 1 && outcomes[k].Some?;
      var now := set k | 0 <= k < n && outcomes[k].Some?;
      if outcomes[n - 1].Some? {
        assert now == before + {n - 1};
      } else {
        assert now == before;
      }
    }
  }


  // The ghost functions below follow the recursion of precompileFile and
  // precompilePkg through the memo table.  They take the result of
  // precompiling each file as a parameter, `outcome`; the Precompiler
  // class passes FileOutcome.

  /** The number of `files[i..]` that the loop of precompilePkg starts on:
      all of them, or those up to and including the first that fails. */
  ghost function Attempted(w: World, opts: Options, outcome: string -> Option<FileError>, files: seq<string>, i: nat): (a: nat)
    requires i <= |files|
    ensures i <= a <= |files|
    decreases |files| - i
  {
    if i == |files| then i
    else if outcome(files[i]).Some? then i + 1
    else Attempted(w, opts, outcome, files, i + 1)
  }

  /** The loop starts on every file up to the first that fails, and on all
      of them when none fails. */
  lemma {:induction false} AttemptedStopsAtFailure(w: World, opts: Options, outcome: string -> Option<FileError>, files: seq<string>, i: nat)
    requires i <= |files|
    ensures var a := Attempted(w, opts, outcome, files, i);
            || (a == |files| && forall k :: i <= k < a ==> outcome(files[k]).None?)
            || (i < a && outcome(files[a - 1]).Some?
                && forall k :: i <= k < a - 1 ==> outcome(files[k]).None?)
    decreases |files| - i
  {
    if i == |files| {
      assert Attempted(w, opts, outcome, files, i) == i;
    } else if outcome(files[i]).Some? {
      assert Attempted(w, opts, outcome, files, i) == i + 1;
    } else {
      AttemptedStopsAtFailure(w, opts, outcome, files, i + 1);
      var a := Attempted(w, opts, outcome, files, i + 1);
      assert Attempted(w, opts, outcome, files, i) == a;
      if i + 1 < a && outcome(files[a - 1]).Some? {
        forall k | i <= k < a - 1
          ensures outcome(files[k]).None?
        {
          if k > i {
            assert i + 1 <= k < a - 1;
          }
        }
      } else {
        assert forall k :: i <= k < a ==> outcome(files[k]).None?;
      }
    }
  }

  /** A file whose precompilation was started, and the package on whose
      behalf: `None` for a file listed on the command line. */
  datatype Visit = Visit(owner: Option<string>, file: string)

  /** What a run leaves behind: the packages in the memo table, and the
      files it started, in order. */
  datatype Trace = Trace(marked: set<string>, log: seq<Visit>)

  /** precompileFile on `srcPath`, started with the memo table `m`. */
  ghost function FileTrace(w: World, opts: Options, outcome: string -> Option<FileError>, m: set<string>, owner: Option<string>, srcPath: string): (r: Trace)
    requires WellFormed(w)
    ensures m <= r.marked
    decreases w.packages.Keys - m, 2, 0
  {
    var inner := if outcome(srcPath).None? then ImportsTrace(w, opts, outcome, m, ImportedPackages(w, srcPath), 0)
                 else Trace(m, []);
    Trace(inner.marked, [Visit(owner, srcPath)] + inner.log)
  }

  /** A file that fails is started and nothing else happens. */
  lemma FileTraceStops(w: World, opts: Options, outcome: string -> Option<FileError>, m: set<string>, owner: Option<string>, srcPath: string)
    requires WellFormed(w) && outcome(srcPath).Some?
    ensures FileTrace(w, opts, outcome, m, owner, srcPath) == Trace(m, [Visit(owner, srcPath)])
  {
  }

  /** A file that precompiles is started, then its imports are visited. */
  lemma FileTraceContinues(w: World, opts: Options, outcome: string -> Option<FileError>, m: set<string>, owner: Option<string>, srcPath: string)
    requires WellFormed(w) && outcome(srcPath).None?
    ensures var inner := ImportsTrace(w, opts, outcome, m, ImportedPackages(w, srcPath), 0);
            FileTrace(w, opts, outcome, m, owner, srcPath) == Trace(inner.marked, [Visit(owner, srcPath)] + inner.log)
  {
  }

  /** The last loop of precompileFile, from the `i`th imported package on. */
  ghost function ImportsTrace(w: World, opts: Options, outcome: string -> Option<FileError>, m: set<string>, pkgs: seq<string>, i: nat): (r: Trace)
    requires WellFormed(w) && i <= |pkgs|
    ensures m <= r.marked
    decreases w.packages.Keys - m, 1, |pkgs| - i
  {
    if i == |pkgs| then Trace(m, [])
    else
      var a := PkgTrace(w, opts, outcome, m, pkgs[i]);
      var b := ImportsTrace(w, opts, outcome, a.marked, pkgs, i + 1);
      Trace(b.marked, a.log + b.log)
  }

  /** precompilePkg on `pkgPath`, started with the memo table `m`. */
  ghost function PkgTrace(w: World, opts: Options, outcome: string -> Option<FileError>, m: set<string>, pkgPath: string): (r: Trace)
    requires WellFormed(w)
    ensures m <= r.marked
    decreases w.packages.Keys - m, 0, 0
  {
    if MkdirFails(w, opts, pkgPath) || pkgPath in m then Trace(m, [])
    else if PackageFiles(w, pkgPath) == [] then Trace(m + {pkgPath}, [])
    else
      assert pkgPath in w.packages.Keys;
      FilesTrace(w, opts, outcome, m + {pkgPath}, pkgPath, PackageFiles(w, pkgPath), 0)
  }

  /** The loop of precompilePkg, from the `i`th file on: it stops after
      the first file that fails. */
  ghost function FilesTrace(w: World, opts: Options, outcome: string -> Option<FileError>, m: set<string>, pkgPath: string, files: seq<string>, i: nat): (r: Trace)
    requires WellFormed(w) && i <= |files|
    ensures m <= r.marked
    decreases w.packages.Keys - m, 3, |files| - i
  {
    if i == |files| then Trace(m, [])
    else
      var a := FileTrace(w, opts, outcome, m, Some(pkgPath), files[i]);
      if outcome(files[i]).Some? then a
      else
        var b := FilesTrace(w, opts, outcome, a.marked, pkgPath, files, i + 1);
        Trace(b.marked, a.log + b.log)
  }

  /** The loop of precompileApp, from the `i`th listed file on. */
  ghost function AppTrace(w: World, opts: Options, outcome: string -> Option<FileError>, m: set<string>, paths: seq<string>, i: nat): (r: Trace)
    requires WellFormed(w) && i <= |paths|
    ensures m <= r.marked
    decreases |paths| - i
  {
    if i == |paths| then Trace(m, [])
    else
      var a := FileTrace(w, opts, outcome, m, None, paths[i]);
      var b := AppTrace(w, opts, outcome, a.marked, paths, i + 1);
      Trace(b.marked, a.log + b.log)
  }

  /** The files of a log started on behalf of `owner`, in order. */
  ghost function Tagged(log: seq<Visit>, owner: Option<string>): seq<string>
  {
    if log == [] then [] else (if log[0].owner == owner then [log[0].file] else []) + Tagged(log[1..], owner)
  }

  lemma {:induction false} TaggedAppend(a: seq<Visit>, b: seq<Visit>, owner: Option<string>)
    ensures Tagged(a + b, owner) == Tagged(a, owner) + Tagged(b, owner)
  {
    if a == [] {
      assert a + b == b;
    } else {
      assert (a + b)[1..] == a[1..] + b;
      TaggedAppend(a[1..], b, owner);
    }
  }

  /** The files of a package that precompilePkg starts on: those its glob
      matches, in order, through the first that fails. */
  ghost function Started(w: World, opts: Options, outcome: string -> Option<FileError>, pkgPath: string): seq<string>
  {
    var files := PackageFiles(w, pkgPath);
    files[..Attempted(w, opts, outcome, files, 0)]
  }

  /** Every package a run newly put in the memo table got its output
      directory and had exactly its started files precompiled on its
      behalf. */
  ghost predicate NewlyPrecompiled(w: World, opts: Options, outcome: string -> Option<FileError>, m: set<string>, r: Trace)
  {
    forall p :: p in r.marked && p !in m ==> !MkdirFails(w, opts, p) && Tagged(r.log, Some(p)) == Started(w, opts, outcome, p)
  }

  /** Apart from the caller's entries, tagged `own`, a run starts files
      only on behalf of the packages it newly marked. */
  ghost predicate OnlyNewTags(m: set<string>, r: Trace, own: Option<string>)
  {
    forall owner :: owner != own && !(owner.Some? && owner.value in r.marked && owner.value !in m) ==> Tagged(r.log, owner) == []
  }

  ghost predicate Accounts(w: World, opts: Options, outcome: string -> Option<FileError>, m: set<string>, r: Trace, own: Option<string>)
  {
    m <= r.marked && NewlyPrecompiled(w, opts, outcome, m, r) && OnlyNewTags(m, r, own)
  }

  /** Two runs one after the other account for what they did together. */
  lemma SequenceAccounts(w: World, opts: Options, outcome: string -> Option<FileError>, m: set<string>, a: Trace, b: Trace, own: Option<string>)
    requires own.Some? ==> own.value in m
    requires Accounts(w, opts, outcome, m, a, own) && Accounts(w, opts, outcome, a.marked, b, own)
    ensures Accounts(w, opts, outcome, m, Trace(b.marked, a.log + b.log), own)
  {
    var r := Trace(b.marked, a.log + b.log);
    forall p | p in r.marked && p !in m
      ensures !MkdirFails(w, opts, p) && Tagged(r.log, Some(p)) == Started(w, opts, outcome, p)
    {
      TaggedAppend(a.log, b.log, Some(p));
      if p in a.marked {
        assert Tagged(b.log, Some(p)) == [];
      } else {
        assert Tagged(a.log, Some(p)) == [];
      }
    }
    forall owner | owner != own && !(owner.Some? && owner.value in r.marked && owner.value !in m)
      ensures Tagged(r.log, owner) == []
    {
      TaggedAppend(a.log, b.log, owner);
    }
  }

  lemma FileAccounts(w: World, opts: Options, outcome: string -> Option<FileError>, m: set<string>, owner: Option<string>, srcPath: string)
    requires WellFormed(w) && (owner.Some? ==> owner.value in m)
    ensures var r := FileTrace(w, opts, outcome, m, owner, srcPath);
            Accounts(w, opts, outcome, m, r, owner) && Tagged(r.log, owner) == [srcPath]
    decreases w.packages.Keys - m, 2, 0
  {
    var r := FileTrace(w, opts, outcome, m, owner, srcPath);
    var inner := if outcome(srcPath).None? then ImportsTrace(w, opts, outcome, m, ImportedPackages(w, srcPath), 0)
                 else Trace(m, []);
    if outcome(srcPath).None? {
      ImportsAccounts(w, opts, outcome, m, ImportedPackages(w, srcPath), 0, owner);
    }
    assert r.log[1..] == inner.log;
  }

  lemma ImportsAccounts(w: World, opts: Options, outcome: string -> Option<FileError>, m: set<string>, pkgs: seq<string>, i: nat, own: Option<string>)
    requires WellFormed(w) && i <= |pkgs| && (own.Some? ==> own.value in m)
    ensures var r := ImportsTrace(w, opts, outcome, m, pkgs, i);
            Accounts(w, opts, outcome, m, r, own) && Tagged(r.log, own) == []
    decreases w.packages.Keys - m, 1, |pkgs| - i
  {
    if i < |pkgs| {
      var a := PkgTrace(w, opts, outcome, m, pkgs[i]);
      PkgAccounts(w, opts, outcome, m, pkgs[i], own);
      var b := ImportsTrace(w, opts, outcome, a.marked, pkgs, i + 1);
      ImportsAccounts(w, opts, outcome, a.marked, pkgs, i + 1, own);
      SequenceAccounts(w, opts, outcome, m, a, b, own);
      TaggedAppend(a.log, b.log, own);
    }
  }

  lemma PkgAccounts(w: World, opts: Options, outcome: string -> Option<FileError>, m: set<string>, pkgPath: string, own: Option<string>)
    requires WellFormed(w) && (own.Some? ==> own.value in m)
    ensures var r := PkgTrace(w, opts, outcome, m, pkgPath);
            Accounts(w, opts, outcome, m, r, own) && Tagged(r.log, own) == []
    decreases w.packages.Keys - m, 0, 0
  {
    var files := PackageFiles(w, pkgPath);
    if MkdirFails(w, opts, pkgPath) || pkgPath in m {
    } else if files == [] {
      assert Started(w, opts, outcome, pkgPath) == [];
    } else {
      var m' := m + {pkgPath};
      assert pkgPath in w.packages.Keys;
      FilesAccounts(w, opts, outcome, m', pkgPath, files, 0);
      var r := FilesTrace(w, opts, outcome, m', pkgPath, files, 0);
      assert files[0..Attempted(w, opts, outcome, files, 0)] == Started(w, opts, outcome, pkgPath);
      forall p | p in r.marked && p !in m
        ensures !MkdirFails(w, opts, p) && Tagged(r.log, Some(p)) == Started(w, opts, outcome, p)
      {
        if p != pkgPath {
          assert p !in m';
        }
      }
      forall owner | owner != own && !(owner.Some? && owner.value in r.marked && owner.value !in m)
        ensures Tagged(r.log, owner) == []
      {
        assert owner != Some(pkgPath);
      }
    }
  }

  lemma FilesAccounts(w: World, opts: Options, outcome: string -> Option<FileError>, m: set<string>, pkgPath: string, files: seq<string>, i: nat)
    requires WellFormed(w) && i <= |files| && pkgPath in m
    ensures var r := FilesTrace(w, opts, outcome, m, pkgPath, files, i);
            Accounts(w, opts, outcome, m, r, Some(pkgPath)) && Tagged(r.log, Some(pkgPath)) == files[i..Attempted(w, opts, outcome, files, i)]
    decreases w.packages.Keys - m, 3, |files| - i
  {
    if i < |files| {
      FileAccounts(w, opts, outcome, m, Some(pkgPath), files[i]);
      if outcome(files[i]).None? {
        var a := FileTrace(w, opts, outcome, m, Some(pkgPath), files[i]);
        FilesAccounts(w, opts, outcome, a.marked, pkgPath, files, i + 1);
        FilesAccountsStep(w, opts, outcome, m, pkgPath, files, i);
      } else {
        assert files[i..i + 1] == [files[i]];
      }
    }
  }

  /** One round of the loop of precompilePkg followed by the rest of it. */
  lemma FilesAccountsStep(w: World, opts: Options, outcome: string -> Option<FileError>, m: set<string>, pkgPath: string, files: seq<string>, i: nat)
    requires WellFormed(w) && i < |files| && pkgPath in m && outcome(files[i]).None?
    requires var a := FileTrace(w, opts, outcome, m, Some(pkgPath), files[i]);
             && Accounts(w, opts, outcome, m, a, Some(pkgPath)) && Tagged(a.log, Some(pkgPath)) == [files[i]]
             && var b := FilesTrace(w, opts, outcome, a.marked, pkgPath, files, i + 1);
                && Accounts(w, opts, outcome, a.marked, b, Some(pkgPath))
                && Tagged(b.log, Some(pkgPath)) == files[i + 1..Attempted(w, opts, outcome, files, i + 1)]
    ensures var r := FilesTrace(w, opts, outcome, m, pkgPath, files, i);
            Accounts(w, opts, outcome, m, r, Some(pkgPath)) && Tagged(r.log, Some(pkgPath)) == files[i..Attempted(w, opts, outcome, files, i)]
  {
    var a := FileTrace(w, opts, outcome, m, Some(pkgPath), files[i]);
    var b := FilesTrace(w, opts, outcome, a.marked, pkgPath, files, i + 1);
    FilesTraceContinues(w, opts, outcome, m, pkgPath, files, i);
    SequenceAccounts(w, opts, outcome, m, a, b, Some(pkgPath));
    var n := Attempted(w, opts, outcome, files, i + 1);
    AttemptedContinues(w, opts, outcome, files, i);
    TaggedCons(a.log, b.log, Some(pkgPath), files, i, n);
  }

  /** A round on a file that precompiles is followed by the rest of the loop. */
  lemma FilesTraceContinues(w: World, opts: Options, outcome: string -> Option<FileError>, m: set<string>, pkgPath: string, files: seq<string>, i: nat)
    requires WellFormed(w) && i < |files| && outcome(files[i]).None?
    ensures var a := FileTrace(w, opts, outcome, m, Some(pkgPath), files[i]);
            var b := FilesTrace(w, opts, outcome, a.marked, pkgPath, files, i + 1);
            FilesTrace(w, opts, outcome, m, pkgPath, files, i) == Trace(b.marked, a.log + b.log)
  {
  }

  /** A file that precompiles does not stop the loop. */
  lemma AttemptedContinues(w: World, opts: Options, outcome: string -> Option<FileError>, files: seq<string>, i: nat)
    requires i < |files| && outcome(files[i]).None?
    ensures Attempted(w, opts, outcome, files, i) == Attempted(w, opts, outcome, files, i + 1)
  {
  }

  /** A log that starts one file for `own` followed by a log that starts the
      next files for it starts them all. */
  lemma TaggedCons(a: seq<Visit>, b: seq<Visit>, own: Option<string>, files: seq<string>, i: nat, n: nat)
    requires i < n <= |files|
    requires Tagged(a, own) == [files[i]] && Tagged(b, own) == files[i + 1..n]
    ensures Tagged(a + b, own) == files[i..n]
  {
    TaggedAppend(a, b, own);
    assert files[i..n] == [files[i]] + files[i + 1..n];
  }

  /** Every file listed on the command line is started, in order, and
      every package the loop marks was precompiled as its glob says. */
  lemma {:induction false} AppAccounts(w: World, opts: Options, outcome: string -> Option<FileError>, m: set<string>, paths: seq<string>, i: nat)
    requires WellFormed(w) && i <= |paths|
    ensures var r := AppTrace(w, opts, outcome, m, paths, i);
            Accounts(w, opts, outcome, m, r, None) && Tagged(r.log, None) == paths[i..]
    decreases |paths| - i
  {
    if i < |paths| {
      var a := FileTrace(w, opts, outcome, m, None, paths[i]);
      var b := AppTrace(w, opts, outcome, a.marked, paths, i + 1);
      FileAccounts(w, opts, outcome, m, None, paths[i]);
      AppAccounts(w, opts, outcome, a.marked, paths, i + 1);
      SequenceAccounts(w, opts, outcome, m, a, b, None);
      TaggedAppend(a.log, b.log, None);
      assert paths[i..] == [paths[i]] + paths[i + 1..];
    } else {
      assert Tagged([], None) == [];
    }
  }

  /** precompilePkg marks the package unless its output directory cannot
      be created. */
  lemma PkgMarked(w: World, opts: Options, outcome: string -> Option<FileError>, m: set<string>, pkgPath: string)
    requires WellFormed(w)
    ensures pkgPath in PkgTrace(w, opts, outcome, m, pkgPath).marked <==> pkgPath in m || !MkdirFails(w, opts, pkgPath)
  {
    if !MkdirFails(w, opts, pkgPath) && pkgPath !in m && PackageFiles(w, pkgPath) != [] {
      assert pkgPath in w.packages.Keys;
      assert pkgPath in m + {pkgPath};
    }
  }

  /** After the last loop of precompileFile every imported package is in
      the memo table, or its output directory could not be created. */
  lemma {:induction false} ImportsMarked(w: World, opts: Options, outcome: string -> Option<FileError>, m: set<string>, pkgs: seq<string>, i: nat)
    requires WellFormed(w) && i <= |pkgs|
    ensures var r := ImportsTrace(w, opts, outcome, m, pkgs, i);
            forall k :: i <= k < |pkgs| ==> pkgs[k] in r.marked || MkdirFails(w, opts, pkgs[k])
    decreases |pkgs| - i
  {
    if i < |pkgs| {
      var a := PkgTrace(w, opts, outcome, m, pkgs[i]);
      PkgMarked(w, opts, outcome, m, pkgs[i]);
      ImportsMarked(w, opts, outcome, a.marked, pkgs, i + 1);
    }
  }

  /** Once a file is precompiled, each package it imports was in the memo
      table before, or failed to get its output directory, or was newly
      marked and had the files its glob matches precompiled on its behalf,
      in order, through the first that fails. */
  lemma ImportsPrecompiled(w: World, opts: Options, outcome: string -> Option<FileError>, m: set<string>, owner: Option<string>, srcPath: string)
    requires WellFormed(w) && (owner.Some? ==> owner.value in m) && outcome(srcPath).None?
    ensures var r := FileTrace(w, opts, outcome, m, owner, srcPath);
            forall p :: p in ImportedPackages(w, srcPath) ==>
              || p in m
              || MkdirFails(w, opts, p)
              || (p in r.marked && Tagged(r.log, Some(p)) == Started(w, opts, outcome, p))
  {
    var pkgs := ImportedPackages(w, srcPath);
    var r := FileTrace(w, opts, outcome, m, owner, srcPath);
    ImportsMarked(w, opts, outcome, m, pkgs, 0);
    FileAccounts(w, opts, outcome, m, owner, srcPath);
    forall p | p in pkgs
      ensures || p in m || MkdirFails(w, opts, p) || (p in r.marked && Tagged(r.log, Some(p)) == Started(w, opts, outcome, p))
    {
      var k :| 0 <= k < |pkgs| && pkgs[k] == p;
      assert p in r.marked || MkdirFails(w, opts, p);
    }
  }

  /** The elements of a sequence. */
  ghost function Elements(s: seq<string>): set<string>
  {
    set p | p in s
  }

  /** The packages a log leads to: those imported by its files that were
      precompiled. */
  ghost function Reached(w: World, outcome: string -> Option<FileError>, log: seq<Visit>): set<string>
    requires WellFormed(w)
  {
    if log == [] then {}
    else (if outcome(log[0].file).None? then Elements(ImportedPackages(w, log[0].file)) else {}) + Reached(w, outcome, log[1..])
  }

  lemma {:induction false} ReachedAppend(w: World, outcome: string -> Option<FileError>, a: seq<Visit>, b: seq<Visit>)
    requires WellFormed(w)
    ensures Reached(w, outcome, a + b) == Reached(w, outcome, a) + Reached(w, outcome, b)
  {
    if a == [] {
      assert a + b == b;
    } else {
      assert (a + b)[1..] == a[1..] + b;
      ReachedAppend(w, outcome, a[1..], b);
    }
  }

  // The memo table only gains packages that a precompiled file imports
  // (and, for precompilePkg, the package itself).

  lemma FileBounded(w: World, opts: Options, outcome: string -> Option<FileError>, m: set<string>, owner: Option<string>, srcPath: string)
    requires WellFormed(w)
    ensures var r := FileTrace(w, opts, outcome, m, owner, srcPath);
            r.marked - m <= Reached(w, outcome, r.log)
    decreases w.packages.Keys - m, 2, 0
  {
    var r := FileTrace(w, opts, outcome, m, owner, srcPath);
    if outcome(srcPath).None? {
      var pkgs := ImportedPackages(w, srcPath);
      var inner := ImportsTrace(w, opts, outcome, m, pkgs, 0);
      ImportsBounded(w, opts, outcome, m, pkgs, 0);
      assert pkgs[0..] == pkgs;
      assert r.log[0].file == srcPath && r.log[1..] == inner.log;
      assert Reached(w, outcome, r.log) == Elements(pkgs) + Reached(w, outcome, inner.log);
    }
  }

  lemma ImportsBounded(w: World, opts: Options, outcome: string -> Option<FileError>, m: set<string>, pkgs: seq<string>, i: nat)
    requires WellFormed(w) && i <= |pkgs|
    ensures var r := ImportsTrace(w, opts, outcome, m, pkgs, i);
            r.marked - m <= Elements(pkgs[i..]) + Reached(w, outcome, r.log)
    decreases w.packages.Keys - m, 1, |pkgs| - i
  {
    if i < |pkgs| {
      var a := PkgTrace(w, opts, outcome, m, pkgs[i]);
      PkgBounded(w, opts, outcome, m, pkgs[i]);
      ImportsBounded(w, opts, outcome, a.marked, pkgs, i + 1);
      ImportsBoundedStep(w, opts, outcome, m, pkgs, i);
    }
  }

  /** One imported package followed by the rest of the loop. */
  lemma ImportsBoundedStep(w: World, opts: Options, outcome: string -> Option<FileError>, m: set<string>, pkgs: seq<string>, i: nat)
    requires WellFormed(w) && i < |pkgs|
    requires var a := PkgTrace(w, opts, outcome, m, pkgs[i]);
             && a.marked - m <= {pkgs[i]} + Reached(w, outcome, a.log)
             && var b := ImportsTrace(w, opts, outcome, a.marked, pkgs, i + 1);
                b.marked - a.marked <= Elements(pkgs[i + 1..]) + Reached(w, outcome, b.log)
    ensures var r := ImportsTrace(w, opts, outcome, m, pkgs, i);
            r.marked - m <= Elements(pkgs[i..]) + Reached(w, outcome, r.log)
  {
    var a := PkgTrace(w, opts, outcome, m, pkgs[i]);
    var b := ImportsTrace(w, opts, outcome, a.marked, pkgs, i + 1);
    var r := ImportsTrace(w, opts, outcome, m, pkgs, i);
    assert r == Trace(b.marked, a.log + b.log);
    ReachedAppend(w, outcome, a.log, b.log);
    ElementsCons(pkgs[i..]);
    assert pkgs[i..][1..] == pkgs[i + 1..];
    forall p | p in r.marked - m
      ensures p in Elements(pkgs[i..]) + Reached(w, outcome, r.log)
    {
      if p in a.marked {
        assert p in {pkgs[i]} + Reached(w, outcome, a.log);
      } else {
        assert p in b.marked - a.marked;
      }
    }
  }

  lemma ElementsCons(s: seq<string>)
    requires s != []
    ensures Elements(s) == {s[0]} + Elements(s[1..])
  {
    forall p | p in Elements(s) ensures p in {s[0]} + Elements(s[1..]) {
      if p != s[0] {
        var k :| 0 <= k < |s| && s[k] == p;
        assert s[1..][k - 1] == p;
      }
    }
  }

  lemma PkgBounded(w: World, opts: Options, outcome: string -> Option<FileError>, m: set<string>, pkgPath: string)
    requires WellFormed(w)
    ensures var r := PkgTrace(w, opts, outcome, m, pkgPath);
            r.marked - m <= {pkgPath} + Reached(w, outcome, r.log)
    decreases w.packages.Keys - m, 0, 0
  {
    if !MkdirFails(w, opts, pkgPath) && pkgPath !in m && PackageFiles(w, pkgPath) != [] {
      assert pkgPath in w.packages.Keys;
      FilesBounded(w, opts, outcome, m + {pkgPath}, pkgPath, PackageFiles(w, pkgPath), 0);
    }
  }

  lemma FilesBounded(w: World, opts: Options, outcome: string -> Option<FileError>, m: set<string>, pkgPath: string, files: seq<string>, i: nat)
    requires WellFormed(w) && i <= |files|
    ensures var r := FilesTrace(w, opts, outcome, m, pkgPath, files, i);
            r.marked - m <= Reached(w, outcome, r.log)
    decreases w.packages.Keys - m, 3, |files| - i
  {
    if i < |files| {
      var a := FileTrace(w, opts, outcome, m, Some(pkgPath), files[i]);
      FileBounded(w, opts, outcome, m, Some(pkgPath), files[i]);
      if outcome(files[i]).None? {
        var b := FilesTrace(w, opts, outcome, a.marked, pkgPath, files, i + 1);
        FilesBounded(w, opts, outcome, a.marked, pkgPath, files, i + 1);
        ReachedAppend(w, outcome, a.log, b.log);
      }
    }
  }

  lemma {:induction false} AppBounded(w: World, opts: Options, outcome: string -> Option<FileError>, m: set<string>, paths: seq<string>, i: nat)
    requires WellFormed(w) && i <= |paths|
    ensures var r := AppTrace(w, opts, outcome, m, paths, i);
            r.marked - m <= Reached(w, outcome, r.log)
    decreases |paths| - i
  {
    if i < |paths| {
      var a := FileTrace(w, opts, outcome, m, None, paths[i]);
      var b := AppTrace(w, opts, outcome, a.marked, paths, i + 1);
      FileBounded(w, opts, outcome, m, None, paths[i]);
      AppBounded(w, opts, outcome, a.marked, paths, i + 1);
      ReachedAppend(w, outcome, a.log, b.log);
    }
  }

  lemma AppendAssociates<T>(a: seq<T>, b: seq<T>, c: seq<T>)
    ensures (a + b) + c == a + (b + c)
  {
  }

  datatype AppError =
    | InvalidArgs                   // no packages given
    | ListPathsError                // gnoFilesFromArgs failed
    | PrecompileErrors(count: nat)  // "%d precompile errors"

  /** The state shared by the precompilation of one command: the options,
      the environment and the `skipPkgs` memo table.  `processed` is the
      model's own record of the files whose precompilation was started,
      in order, each with the package on whose behalf. */
  class Precompiler {
    const world: World
    const opts: Options
    var skipPkgs: map<string, bool>
    ghost var processed: seq<Visit>

    /** The memo table only ever records `true`. */
    ghost predicate Valid()
      reads this
    {
      WellFormed(world) && forall p :: p in skipPkgs ==> skipPkgs[p]
    }

    /** The result of precompiling each file in this environment. */
    ghost function Outcome(): string -> Option<FileError> {
      (srcPath: string) => FileOutcome(world, opts, srcPath)
    }

    constructor (world: World, opts: Options)
      requires WellFormed(world)
      ensures Valid()
      ensures this.world == world && this.opts == opts
      ensures skipPkgs == map[] && processed == []
    {
      this.world := world;
      this.opts := opts;
      skipPkgs := map[];
      processed := [];
    }

    /** precompileFile: its result is the first failing step, and the memo
        table and the record of started files are what FileTrace says. */
    method PrecompileFile(srcPath: string, ghost owner: Option<string>) returns (err: Option<FileError>)
      requires Valid()
      modifies this
      ensures Valid()
      ensures err == FileOutcome(world, opts, srcPath)
      ensures skipPkgs.Keys == FileTrace(world, opts, Outcome(), old(skipPkgs).Keys, owner, srcPath).marked
      ensures processed == old(processed) + FileTrace(world, opts, Outcome(), old(skipPkgs).Keys, owner, srcPath).log
      ensures err.None? && (owner.Some? ==> owner.value in old(skipPkgs)) ==>
                forall p :: p in ImportedPackages(world, srcPath) ==>
                  || p in old(skipPkgs)
                  || MkdirFails(world, opts, p)
                  || (p in skipPkgs && Tagged(processed[|old(processed)|..], Some(p)) == Started(world, opts, Outcome(), p))
      decreases world.packages.Keys - skipPkgs.Keys, 2
    {
      ghost var m, before := skipPkgs.Keys, processed;
      ghost var outcome := Outcome();
      assert outcome(srcPath) == FileOutcome(world, opts, srcPath);
      if outcome(srcPath).None? && (owner.Some? ==> owner.value in m) {
        ImportsPrecompiled(world, opts, outcome, m, owner, srcPath);
      }
      processed := processed + [Visit(owner, srcPath)];
      if srcPath !in world.sources {
        FileTraceStops(world, opts, outcome, m, owner, srcPath);
        return Some(ReadError);
      }
      var compiled := world.sources[srcPath];
      if compiled.Unparsable? {
        FileTraceStops(world, opts, outcome, m, owner, srcPath);
        return Some(PrecompileError);
      }
      var importPkgPaths := RewriteImports(compiled.imports);
      var targetPath := TargetPath(opts, srcPath);
      if targetPath in world.unwritable {
        FileTraceStops(world, opts, outcome, m, owner, srcPath);
        return Some(WriteError);
      }
      if !opts.skipFmt && (targetPath, EffectiveGofmt(opts.gofmtBinary)) in world.misformatted {
        FileTraceStops(world, opts, outcome, m, owner, srcPath);
        return Some(FormatError);
      }
      assert importPkgPaths == ImportedPackages(world, srcPath);
      FileTraceContinues(world, opts, outcome, m, owner, srcPath);
      VisitImports(importPkgPaths);
      ghost var inner := ImportsTrace(world, opts, outcome, m, importPkgPaths, 0);
      AppendAssociates(before, [Visit(owner, srcPath)], inner.log);
      assert processed[|before|..] == [Visit(owner, srcPath)] + inner.log;
      return None;
    }

    /** The last loop of precompileFile: precompiles each imported package,
        ignoring its error. */
    method VisitImports(importPkgPaths: seq<string>)
      requires Valid()
      modifies this
      ensures Valid()
      ensures skipPkgs.Keys == ImportsTrace(world, opts, Outcome(), old(skipPkgs).Keys, importPkgPaths, 0).marked
      ensures processed == old(processed) + ImportsTrace(world, opts, Outcome(), old(skipPkgs).Keys, importPkgPaths, 0).log
      decreases world.packages.Keys - skipPkgs.Keys, 1
    {
      var i := 0;
      while i < |importPkgPaths|
        invariant 0 <= i <= |importPkgPaths|
        invariant Valid()
        invariant old(skipPkgs).Keys <= skipPkgs.Keys
        invariant ImportsTrace(world, opts, Outcome(), skipPkgs.Keys, importPkgPaths, i).marked
                  == ImportsTrace(world, opts, Outcome(), old(skipPkgs).Keys, importPkgPaths, 0).marked
        invariant processed + ImportsTrace(world, opts, Outcome(), skipPkgs.Keys, importPkgPaths, i).log
                  == old(processed) + ImportsTrace(world, opts, Outcome(), old(skipPkgs).Keys, importPkgPaths, 0).log
      {
        ghost var m, before := skipPkgs.Keys, processed;
        var _ := PrecompilePkg(importPkgPaths[i]);
        ghost var a := PkgTrace(world, opts, Outcome(), m, importPkgPaths[i]);
        AppendAssociates(before, a.log, ImportsTrace(world, opts, Outcome(), a.marked, importPkgPaths, i + 1).log);
        i := i + 1;
      }
    }

    /** precompilePkg: creates the output directory; unless the memo table
        already holds the package, marks it and precompiles its files,
        stopping at the first that fails. */
    method PrecompilePkg(pkgPath: string) returns (err: Option<PkgError>)
      requires Valid()
      modifies this
      ensures Valid()
      ensures err == if MkdirFails(world, opts, pkgPath) then Some(MkdirError)
                     else if pkgPath in old(skipPkgs) then None
                     else FirstFailure(world, opts, PackageFiles(world, pkgPath), 0)
      ensures skipPkgs.Keys == PkgTrace(world, opts, Outcome(), old(skipPkgs).Keys, pkgPath).marked
      ensures processed == old(processed) + PkgTrace(world, opts, Outcome(), old(skipPkgs).Keys, pkgPath).log
      ensures !MkdirFails(world, opts, pkgPath) && pkgPath !in old(skipPkgs) ==>
                && pkgPath in skipPkgs
                && Tagged(processed[|old(processed)|..], Some(pkgPath)) == Started(world, opts, Outcome(), pkgPath)
      ensures skipPkgs.Keys - old(skipPkgs).Keys <= {pkgPath} + Reached(world, Outcome(), processed[|old(processed)|..])
      decreases world.packages.Keys - skipPkgs.Keys, 0
    {
      PkgMarked(world, opts, Outcome(), skipPkgs.Keys, pkgPath);
      PkgBounded(world, opts, Outcome(), skipPkgs.Keys, pkgPath);
      PkgAccounts(world, opts, Outcome(), skipPkgs.Keys, pkgPath, None);
      ghost var before := processed;
      if MkdirFails(world, opts, pkgPath) {
        return Some(MkdirError);
      }
      if pkgPath in skipPkgs && skipPkgs[pkgPath] {
        return None;
      }
      skipPkgs := skipPkgs[pkgPath := true];
      var files := PackageFiles(world, pkgPath);
      if files == [] {
        return None;  // the glob matched nothing: the loop has no round
      }
      assert pkgPath in world.packages.Keys - old(skipPkgs).Keys;
      assert skipPkgs.Keys == old(skipPkgs).Keys + {pkgPath};
      err := PrecompileFiles(pkgPath, files);
      assert processed[|before|..] == PkgTrace(world, opts, Outcome(), old(skipPkgs).Keys, pkgPath).log;
    }

    /** The loop of precompilePkg: precompiles the files in order and stops
        at the first that fails. */
    method PrecompileFiles(pkgPath: string, files: seq<string>) returns (err: Option<PkgError>)
      requires Valid()
      modifies this
      ensures Valid()
      ensures err == FirstFailure(world, opts, files, 0)
      ensures skipPkgs.Keys == FilesTrace(world, opts, Outcome(), old(skipPkgs).Keys, pkgPath, files, 0).marked
      ensures processed == old(processed) + FilesTrace(world, opts, Outcome(), old(skipPkgs).Keys, pkgPath, files, 0).log
      decreases world.packages.Keys - skipPkgs.Keys, 3
    {
      var i := 0;
      while i < |files|
        invariant 0 <= i <= |files|
        invariant Valid()
        invariant old(skipPkgs).Keys <= skipPkgs.Keys
        invariant FirstFailure(world, opts, files, 0) == FirstFailure(world, opts, files, i)
        invariant FilesLeft(pkgPath, files, i, old(skipPkgs).Keys, old(processed))
      {
        ghost var m, before := skipPkgs.Keys, processed;
        var e := PrecompileFile(files[i], Some(pkgPath));
        if e.Some? {
          return Some(InFile(files[i], e.value));
        }
        FilesRound(pkgPath, files, i, m, before);
        i := i + 1;
      }
      return None;
    }

    /** What the loop of precompilePkg still does from the `i`th file on
        completes what the whole loop does from the memo table `m0` and the
        record `p0`. */
    ghost predicate FilesLeft(pkgPath: string, files: seq<string>, i: nat, m0: set<string>, p0: seq<Visit>)
      reads this
    {
      && WellFormed(world) && i <= |files|
      && var rest := FilesTrace(world, opts, Outcome(), skipPkgs.Keys, pkgPath, files, i);
         var all := FilesTrace(world, opts, Outcome(), m0, pkgPath, files, 0);
         rest.marked == all.marked && processed + rest.log == p0 + all.log
    }

    /** A round of the loop of precompilePkg on a file that succeeds keeps
        FilesLeft. */
    lemma FilesRound(pkgPath: string, files: seq<string>, i: nat, m: set<string>, before: seq<Visit>)
      requires WellFormed(world) && i < |files| && FileOutcome(world, opts, files[i]).None?
      requires skipPkgs.Keys == FileTrace(world, opts, Outcome(), m, Some(pkgPath), files[i]).marked
      requires processed == before + FileTrace(world, opts, Outcome(), m, Some(pkgPath), files[i]).log
      ensures FilesTrace(world, opts, Outcome(), skipPkgs.Keys, pkgPath, files, i + 1).marked
              == FilesTrace(world, opts, Outcome(), m, pkgPath, files, i).marked
      ensures processed + FilesTrace(world, opts, Outcome(), skipPkgs.Keys, pkgPath, files, i + 1).log
              == before + FilesTrace(world, opts, Outcome(), m, pkgPath, files, i).log
    {
      var a := FileTrace(world, opts, Outcome(), m, Some(pkgPath), files[i]);
      AppendAssociates(before, a.log, FilesTrace(world, opts, Outcome(), a.marked, pkgPath, files, i + 1).log);
    }

    /** One round of precompileApp's loop: precompiles a listed file and
        adds one to the count if it failed. */
    method CountFile(srcPath: string, count: nat) returns (newCount: nat)
      requires Valid()
      modifies this
      ensures Valid()
      ensures newCount == count + if FileOutcome(world, opts, srcPath).Some? then 1 else 0
      ensures skipPkgs.Keys == FileTrace(world, opts, Outcome(), old(skipPkgs).Keys, None, srcPath).marked
      ensures processed == old(processed) + FileTrace(world, opts, Outcome(), old(skipPkgs).Keys, None, srcPath).log
    {
      var err := PrecompileFile(srcPath, None);
      newCount := if err.Some? then count + 1 else count;
    }

    /** The loop of precompileApp: precompiles each listed file in turn,
        with one memo table for all of them, and counts those that fail. */
    method PrecompileAll(paths: seq<string>) returns (errCount: nat)
      requires Valid()
      modifies this
      ensures Valid()
      ensures errCount == FailureCount(world, opts, paths, |paths|)
      ensures skipPkgs.Keys == AppTrace(world, opts, Outcome(), old(skipPkgs).Keys, paths, 0).marked
      ensures processed == old(processed) + AppTrace(world, opts, Outcome(), old(skipPkgs).Keys, paths, 0).log
    {
      errCount := 0;
      var i := 0;
      while i < |paths|
        invariant 0 <= i <= |paths|
        invariant Valid()
        invariant errCount == FailureCount(world, opts, paths, i)
        invariant AppTrace(world, opts, Outcome(), skipPkgs.Keys, paths, i).marked
                  == AppTrace(world, opts, Outcome(), old(skipPkgs).Keys, paths, 0).marked
        invariant processed + AppTrace(world, opts, Outcome(), skipPkgs.Keys, paths, i).log
                  == old(processed) + AppTrace(world, opts, Outcome(), old(skipPkgs).Keys, paths, 0).log
      {
        ghost var m, before := skipPkgs.Keys, processed;
        errCount := CountFile(paths[i], errCount);
        ghost var a := FileTrace(world, opts, Outcome(), m, None, paths[i]);
        AppendAssociates(before, a.log, AppTrace(world, opts, Outcome(), a.marked, paths, i + 1).log);
        i := i + 1;
      }
    }

    /** precompileApp: precompiles every listed file and counts those that
        fail; it fails exactly when one did, with their number. */
    method PrecompileApp(args: seq<string>, listed: Option<seq<string>>) returns (err: Option<AppError>)
      requires Valid()
      modifies this
      ensures Valid()
      ensures args == [] ==> err == Some(InvalidArgs)
      ensures args != [] && listed.None? ==> err == Some(ListPathsError)
      ensures args != [] && listed.Some? ==>
                var n := FailureCount(world, opts, listed.value, |listed.value|);
                err == if n > 0 then Some(PrecompileErrors(n)) else None
      ensures args == [] || listed.None? ==> skipPkgs == old(skipPkgs) && processed == old(processed)
      ensures args != [] && listed.Some? ==>
                && skipPkgs.Keys == AppTrace(world, opts, Outcome(), old(skipPkgs).Keys, listed.value, 0).marked
                && processed == old(processed) + AppTrace(world, opts, Outcome(), old(skipPkgs).Keys, listed.value, 0).log
      ensures args != [] && listed.Some? ==>
                var log := processed[|old(processed)|..];
                && Tagged(log, None) == listed.value
                && Accounts(world, opts, Outcome(), old(skipPkgs).Keys, Trace(skipPkgs.Keys, log), None)
                && skipPkgs.Keys - old(skipPkgs).Keys <= Reached(world, Outcome(), log)
    {
      if |args| < 1 {
        return Some(InvalidArgs);
      }
      if listed.None? {
        return Some(ListPathsError);
      }
      ghost var m, before := skipPkgs.Keys, processed;
      var errCount := PrecompileAll(listed.value);
      AppAccounts(world, opts, Outcome(), m, listed.value, 0);
      AppBounded(world, opts, Outcome(), m, listed.value, 0);
      assert processed[|before|..] == AppTrace(world, opts, Outcome(), m, listed.value, 0).log;
      if errCount > 0 {
        return Some(PrecompileErrors(errCount));
      }
      return None;
    }
  }
}
