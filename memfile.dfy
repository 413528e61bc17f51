/** Packages held in memory (tm2/pkg/std/memfile.go): the package, module and
    file records, the three name/path patterns as predicates, validation,
    file lookup and the split of a file path into directory and file name. */
module MemFile {
  import opened Optional
  import opened GoStrings

  datatype MemFile = MemFile(name: string, body: string)

  datatype Requirement = Requirement(path: string, version: string)

  datatype MemMod = MemMod(importPath: string, version: string, requirements: seq<Requirement>)

  /** One version of a package: its declared name, its module and its files. */
  datatype MemPackage = MemPackage(name: string, modFile: MemMod, files: seq<MemFile>)

  /** A package name, an import path, and the versions of that package. */
  datatype MemPackageInfo = MemPackageInfo(name: string, path: string, versions: seq<MemPackage>)

  /** What validation reports; each alternative carries the offending text. */
  datatype ValidationError =
    | InvalidPackageName(name: string)
    | InvalidPackagePath(path: string)
    | InvalidFileName(fileName: string)
    | DuplicateFileName(fileName: string)
    | InvalidVersion

  // ---------------------------------------------------------------------
  // The patterns, as predicates over characters

  predicate IsLower(c: char) { 'a' <= c <= 'z' }

  predicate IsDigit(c: char) { '0' <= c <= '9' }

  /** `[a-z0-9_]` */
  predicate IsPartChar(c: char) { IsLower(c) || IsDigit(c) || c == '_' }

  /** The whole of `s` is `[a-z][a-z0-9_]*`: the path-part pattern, which is
      also what a package name must match in full. */
  predicate IsPathPart(s: string) {
    |s| >= 1 && IsLower(s[0]) && forall i :: 1 <= i < |s| ==> IsPartChar(s[i])
  }

  /** The whole of `t` is `(/[a-z][a-z0-9_]*)+`. */
  ghost predicate IsPathTail(t: string) {
    |t| >= 1 && t[0] == '/' &&
    var parts := Split(t[1..], '/');
    forall i :: 0 <= i < |parts| ==> IsPathPart(parts[i])
  }

  /** The whole of `t` is `gno\.land/(p|r)(/[a-z][a-z0-9_]*)+`. */
  ghost predicate IsPkgOrRealmPath(t: string) {
    |t| >= 10 && t[..9] == "gno.land/" && (t[9] == 'p' || t[9] == 'r') && IsPathTail(t[10..])
  }

  /** The import-path pattern carries no `^`/`$` anchors, so a string matches
      as soon as some substring of it is in the pattern's language. */
  ghost predicate MatchesPkgOrRealmPath(s: string) {
    exists i, j :: 0 <= i <= j <= |s| && IsPkgOrRealmPath(s[i..j])
  }

  /** A shortest match of the import-path pattern starts at `i`. */
  predicate MatchStartsAt(s: string, i: nat) {
    && i + 12 <= |s|
    && s[i..i + 9] == "gno.land/"
    && (s[i + 9] == 'p' || s[i + 9] == 'r')
    && s[i + 10] == '/'
    && IsLower(s[i + 11])
  }

  /** The match of the unanchored import-path pattern. */
  function PathPatternMatches(s: string): (r: bool)
    ensures r <==> MatchesPkgOrRealmPath(s)
  {
    var r := exists i :: 0 <= i <= |s| && MatchStartsAt(s, i);
    if r then
      var i :| 0 <= i <= |s| && MatchStartsAt(s, i);
      ShortestMatch(s, i);
      r
    else
      assert !MatchesPkgOrRealmPath(s) by {
        forall i, j | 0 <= i <= j <= |s| && IsPkgOrRealmPath(s[i..j]) ensures false {
          MatchHasStart(s, i, j);
        }
      }
      r
  }

  lemma ShortestMatch(s: string, i: nat)
    requires MatchStartsAt(s, i)
    ensures IsPkgOrRealmPath(s[i..i + 12])
  {
    var t := s[i..i + 12];
    var part := t[10..][1..];
    assert part == [s[i + 11]];
    assert Split(part, '/') == [part];
  }

  lemma MatchHasStart(s: string, i: nat, j: nat)
    requires i <= j <= |s| && IsPkgOrRealmPath(s[i..j])
    ensures MatchStartsAt(s, i)
  {
    var t := s[i..j];
    var u := t[10..][1..];
    var first := Split(u, '/')[0];
    assert IsPathPart(first);
    var k := IndexOf(u, '/');
    assert first == u[..k];
    assert u[0] == first[0];
    assert s[i..i + 9] == t[..9];
  }

  /** Whatever follows a package or realm path, the unanchored pattern still
      accepts it, dots included. */
  lemma PathPatternIgnoresTail(p: string, rest: string)
    requires IsPkgOrRealmPath(p)
    ensures PathPatternMatches(p + rest)
  {
    assert (p + rest)[0..|p|] == p;
  }

  /** A path with a dot after its first domain component is accepted. */
  lemma DottedPathAccepted()
    ensures PathPatternMatches("gno.land/p/demo/a.b")
    ensures '.' in "gno.land/p/demo/a.b"[9..]
  {
    var s := "gno.land/p/demo/a.b";
    assert MatchStartsAt(s, 0);
    assert s[9..][8] == '.';
  }

  /** The whole of `t` is `[a-zA-Z0-9_]*\.[a-z0-9_.]*`, `LICENSE` or `README`. */
  ghost predicate IsFileName(t: string) {
    || t == "LICENSE" || t == "README"
    || exists d :: 0 <= d < |t| && t[d] == '.' && StemAndExtension(t, d)
  }

  /** Before index `d` only `[a-zA-Z0-9_]`, after it only `[a-z0-9_.]`. */
  predicate StemAndExtension(t: string, d: nat)
    requires d < |t|
  {
    && (forall k :: 0 <= k < d ==> IsStemChar(t[k]))
    && (forall k :: d < k < |t| ==> IsPartChar(t[k]) || t[k] == '.')
  }

  /** `[a-zA-Z0-9_]` */
  predicate IsStemChar(c: char) { IsPartChar(c) || 'A' <= c <= 'Z' }

  /** Index of the first character that cannot be part of a stem, or `|t|`. */
  function StemLength(t: string): (d: nat)
    ensures d <= |t|
    ensures forall k :: 0 <= k < d ==> IsStemChar(t[k])
    ensures d < |t| ==> !IsStemChar(t[d])
  {
    if t == [] || !IsStemChar(t[0]) then 0 else 1 + StemLength(t[1..])
  }

  /** The match of the anchored file-name pattern: the stem runs up to the
      first character outside `[a-zA-Z0-9_]`, which must be the dot. */
  function FileNamePatternMatches(t: string): (r: bool)
    ensures r <==> IsFileName(t)
  {
    var d := StemLength(t);
    var r := t == "LICENSE" || t == "README" || (d < |t| && t[d] == '.' && StemAndExtension(t, d));
    assert IsFileName(t) ==> r by {
      if IsFileName(t) && t != "LICENSE" && t != "README" {
        var e :| 0 <= e < |t| && t[e] == '.' && StemAndExtension(t, e);
        assert !IsStemChar(t[e]);
        assert d == e;
      }
    }
    r
  }

  /** A file name that is neither LICENSE nor README contains a dot, so it
      can never be taken for a path part (which has none). */
  lemma {:induction false} FileNameHasDot(t: string)
    requires IsFileName(t) && t != "LICENSE" && t != "README"
    ensures '.' in t && !IsPathPart(t)
  {
    var d :| 0 <= d < |t| && t[d] == '.' && StemAndExtension(t, d);
    assert !IsPartChar(t[d]);
  }

  // ---------------------------------------------------------------------
  // Validation

  /** The file at index `j` passes: its name matches and no earlier file has
      the same name. */
  ghost predicate FileOk(files: seq<MemFile>, j: int)
    requires 0 <= j < |files|
  {
    IsFileName(files[j].name) && forall i :: 0 <= i < j ==> files[i].name != files[j].name
  }

  /** `j` is the first file that fails. */
  ghost predicate FirstBadFile(files: seq<MemFile>, j: int) {
    0 <= j < |files| && !FileOk(files, j) && forall k :: 0 <= k < j ==> FileOk(files, k)
  }

  /** The error reported for a file that fails. */
  ghost function FileError(f: MemFile): ValidationError {
    if IsFileName(f.name) then DuplicateFileName(f.name) else InvalidFileName(f.name)
  }

  /** Every check passes. */
  ghost predicate IsValid(pkg: MemPackage) {
    && IsPathPart(pkg.name)
    && MatchesPkgOrRealmPath(pkg.modFile.importPath)
    && forall j :: 0 <= j < |pkg.files| ==> FileOk(pkg.files, j)
  }

  /** MemPackage.Validate: the package name, then the import path, then each
      file in order; the first failure is reported. */
  method Validate(pkg: MemPackage) returns (err: Option<ValidationError>)
    ensures err.None? <==> IsValid(pkg)
    ensures !IsPathPart(pkg.name) ==> err == Some(InvalidPackageName(pkg.name))
    ensures IsPathPart(pkg.name) && !MatchesPkgOrRealmPath(pkg.modFile.importPath) ==>
              err == Some(InvalidPackagePath(pkg.modFile.importPath))
    ensures IsPathPart(pkg.name) && MatchesPkgOrRealmPath(pkg.modFile.importPath) && err.Some? ==>
              exists j :: FirstBadFile(pkg.files, j) && err == Some(FileError(pkg.files[j]))
  {
    if !IsPathPart(pkg.name) {
      return Some(InvalidPackageName(pkg.name));
    }
    if !PathPatternMatches(pkg.modFile.importPath) {
      return Some(InvalidPackagePath(pkg.modFile.importPath));
    }
    var fnames: set<string> := {};
    var i := 0;
    while i < |pkg.files|
      invariant 0 <= i <= |pkg.files|
      invariant fnames == set k | 0 <= k < i :: pkg.files[k].name
      invariant forall k :: 0 <= k < i ==> FileOk(pkg.files, k)
    {
      var f := pkg.files[i];
      if !FileNamePatternMatches(f.name) {
        assert FirstBadFile(pkg.files, i);
        return Some(InvalidFileName(f.name));
      }
      if f.name in fnames {
        assert FirstBadFile(pkg.files, i);
        return Some(DuplicateFileName(f.name));
      }
      fnames := fnames + {f.name};
      i := i + 1;
    }
    return None;
  }

  /** A package that validates has pairwise distinct file names. */
  lemma ValidNamesDistinct(pkg: MemPackage, i: int, j: int)
    requires IsValid(pkg) && 0 <= i < |pkg.files| && 0 <= j < |pkg.files| && i != j
    ensures pkg.files[i].name != pkg.files[j].name
  {
    if i < j { assert FileOk(pkg.files, j); } else { assert FileOk(pkg.files, i); }
  }

  /** MemPackageInfo.Validate: the name, then the path, then every version. */
  method ValidateInfo(info: MemPackageInfo) returns (err: Option<ValidationError>)
    ensures err.None? <==>
              && IsPathPart(info.name) && MatchesPkgOrRealmPath(info.path)
              && forall v :: 0 <= v < |info.versions| ==> IsValid(info.versions[v])
    ensures !IsPathPart(info.name) ==> err == Some(InvalidPackageName(info.name))
    ensures IsPathPart(info.name) && !MatchesPkgOrRealmPath(info.path) ==>
              err == Some(InvalidPackagePath(info.path))
    ensures IsPathPart(info.name) && MatchesPkgOrRealmPath(info.path) && err.Some? ==>
              err == Some(InvalidVersion)
  {
    if !IsPathPart(info.name) {
      return Some(InvalidPackageName(info.name));
    }
    if !PathPatternMatches(info.path) {
      return Some(InvalidPackagePath(info.path));
    }
    var v := 0;
    while v < |info.versions|
      invariant 0 <= v <= |info.versions|
      invariant forall w :: 0 <= w < v ==> IsValid(info.versions[w])
    {
      var e := Validate(info.versions[v]);
      if e.Some? {
        return Some(InvalidVersion);
      }
      v := v + 1;
    }
    return None;
  }

  // ---------------------------------------------------------------------
  // Lookup

  /** Some file of `files` is called `name`. */
  ghost predicate HasFile(files: seq<MemFile>, name: string) {
    exists k :: 0 <= k < |files| && files[k].name == name
  }

  /** MemPackage.GetFile: the first file called `name`, or nothing. */
  method GetFile(pkg: MemPackage, name: string) returns (f: Option<MemFile>)
    ensures f.None? <==> !HasFile(pkg.files, name)
    ensures f.Some? ==> exists j :: 0 <= j < |pkg.files| && pkg.files[j] == f.value &&
                                    f.value.name == name &&
                                    forall k :: 0 <= k < j ==> pkg.files[k].name != name
  {
    var i := 0;
    while i < |pkg.files|
      invariant 0 <= i <= |pkg.files|
      invariant forall k :: 0 <= k < i ==> pkg.files[k].name != name
    {
      if pkg.files[i].name == name {
        return Some(pkg.files[i]);
      }
      i := i + 1;
    }
    return None;
  }

  /** MemPackage.IsEmpty */
  function IsEmpty(pkg: MemPackage): bool {
    |pkg.files| == 0
  }

  /** A package is empty exactly when no lookup can find a file in it. */
  lemma EmptyIffNoFile(pkg: MemPackage)
    ensures IsEmpty(pkg) <==> forall name :: !HasFile(pkg.files, name)
  {
    if !IsEmpty(pkg) {
      assert HasFile(pkg.files, pkg.files[0].name);
    }
  }

  // ---------------------------------------------------------------------
  // File paths

  /** SplitFilepath */
  function SplitFilepath(path: string): (string, string)
  {
    SplitParts(Split(path, '/'))
  }

  /** The choice SplitFilepath makes on the '/'-separated segments. */
  function SplitParts(parts: seq<string>): (string, string)
    requires |parts| >= 1
  {
    if |parts| == 1 then (parts[0], "")
    else
      var last := parts[|parts| - 1];
      if '.' in last then (Join(parts[..|parts| - 1], '/'), last)
      else if last == "" then (Join(parts[..|parts| - 1], '/'), "")
      else (Join(parts, '/'), "")
  }

  /** The four cases of SplitFilepath, stated on the path itself: a path
      with no '/' is all directory; otherwise the text after the last '/' is
      the file name when it contains a dot, a trailing '/' is dropped, and
      any other path is all directory. */
  lemma SplitFilepathCases(path: string)
    ensures '/' !in path ==> SplitFilepath(path) == (path, "")
    ensures '/' in path ==>
              var k := LastIndexOf(path, '/');
              var last := path[k + 1..];
              SplitFilepath(path) == if '.' in last then (path[..k], last)
                                     else if last == "" then (path[..k], "")
                                     else (path, "")
  {
    if '/' in path {
      SplitFilepathWithSeparator(path);
    } else {
      SplitSingle(path, '/');
      JoinSplit(path, '/');
    }
  }

  lemma SplitFilepathWithSeparator(path: string)
    requires '/' in path
    ensures var k := LastIndexOf(path, '/');
            var last := path[k + 1..];
            SplitFilepath(path) == if '.' in last then (path[..k], last)
                                   else if last == "" then (path[..k], "")
                                   else (path, "")
  {
    var parts, k := Split(path, '/'), LastIndexOf(path, '/');
    SplitLast(path, '/');
    JoinSplit(path, '/');
    SplitPartsCases(parts, path, k);
    assert SplitFilepath(path) == SplitParts(parts);
  }

  lemma SplitPartsCases(parts: seq<string>, path: string, k: nat)
    requires Join(parts, '/') == path && PiecesAroundLast(parts, path, k, '/')
    ensures var last := path[k + 1..];
            SplitParts(parts) == if '.' in last then (path[..k], last)
                                 else if last == "" then (path[..k], "")
                                 else (path, "")
  {
  }

  /** Putting a split path back together: directory, '/', file name gives
      the path whenever a file name was found, and the file name is a single
      segment with a dot in it. */
  lemma SplitFilepathRejoin(path: string)
    ensures var (dir, file) := SplitFilepath(path);
            && (file != "" ==> dir + "/" + file == path && '/' !in file && '.' in file)
            && (file == "" && dir != path ==> dir + "/" == path)
  {
    SplitFilepathCases(path);
    if '/' in path {
      RejoinAtLastSeparator(path, SplitFilepath(path));
    }
  }

  lemma RejoinAtLastSeparator(path: string, r: (string, string))
    requires '/' in path
    requires var k := LastIndexOf(path, '/');
             var last := path[k + 1..];
             r == if '.' in last then (path[..k], last)
                  else if last == "" then (path[..k], "")
                  else (path, "")
    ensures var (dir, file) := r;
            && (file != "" ==> dir + "/" + file == path && '/' !in file && '.' in file)
            && (file == "" && dir != path ==> dir + "/" == path)
  {
    var k := LastIndexOf(path, '/');
    var last := path[k + 1..];
    assert path == path[..k] + "/" + last;
    assert '/' !in last by {
      forall i | 0 <= i < |last| ensures last[i] != '/' {
        assert last[i] == path[k + 1 + i];
      }
    }
  }
}
