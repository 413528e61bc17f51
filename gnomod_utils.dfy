/** Locating the module root and the filetests directories
    (gnovm/pkg/gnomod/utils.go).  The file system is a map from directories
    to what os.Stat says of the gno.mod file in them; a directory the map
    does not hold has none. */
module GnoModUtils {
  import opened GoStrings
  import opened FilePaths

  /** os.Stat of `<dir>/gno.mod` succeeded, or failed with an error other
      than "does not exist". */
  datatype StatOutcome = Present | StatFailed

  datatype FindResult =
    | Found(dir: string)
    | NotAbsolute              // "requires absolute path"
    | StatError(dir: string)   // the os.Stat error, returned as it is
    | GnoModNotFound           // ErrGnoModNotFound

  /** `rd` is the module root of `absPath`: the nearest directory at or
      above it, short of the file system root, that has a gno.mod entry. */
  ghost predicate NearestModDir(rd: string, absPath: string, gnoMods: map<string, StatOutcome>) {
    && rd != "/" && IsAncestorOrSelf(rd, absPath) && rd in gnoMods
    && forall d :: IsAncestorOrSelf(d, absPath) && IsAncestorOrSelf(rd, d) && d != rd ==> d !in gnoMods
  }

  /** No directory at or above `absPath`, short of the root, has a gno.mod
      entry. */
  ghost predicate NoModDir(absPath: string, gnoMods: map<string, StatOutcome>) {
    forall d :: IsAncestorOrSelf(d, absPath) && d != "/" ==> d !in gnoMods
  }

  /** A path has at most one module root. */
  lemma NearestModDirUnique(a: string, b: string, absPath: string, gnoMods: map<string, StatOutcome>)
    requires NearestModDir(a, absPath, gnoMods) && NearestModDir(b, absPath, gnoMods)
    ensures a == b
  {
    AncestorsComparable(a, b, absPath);
  }

  /** A path with a module root is not one without. */
  lemma NearestModDirExcludesNone(rd: string, absPath: string, gnoMods: map<string, StatOutcome>)
    requires NearestModDir(rd, absPath, gnoMods)
    ensures !NoModDir(absPath, gnoMods)
  {
  }

  /** FindRootDir: walks from `absPath` up through its parents, stopping
      before the root, at the first directory whose gno.mod os.Stat does not
      report as missing. */
  method FindRootDir(absPath: string, gnoMods: map<string, StatOutcome>) returns (r: FindResult)
    requires IsAbs(absPath) ==> IsCleanAbs(absPath)
    ensures r == NotAbsolute <==> !IsAbs(absPath)
    ensures r.Found? || r.StatError? ==>
              NearestModDir(r.dir, absPath, gnoMods) && gnoMods[r.dir] == (if r.Found? then Present else StatFailed)
    ensures r == GnoModNotFound ==> NoModDir(absPath, gnoMods)
  {
    if !IsAbs(absPath) {
      return NotAbsolute;
    }
    var p := absPath;
    while p != "/"
      invariant IsCleanAbs(p) && IsAncestorOrSelf(p, absPath)
      invariant forall d :: IsAncestorOrSelf(d, absPath) && !IsAncestorOrSelf(d, p) ==> d !in gnoMods
      decreases |p|
    {
      if p !in gnoMods {
        DirOfCleanAbs(p);
        forall d | IsAncestorOrSelf(d, absPath) && !IsAncestorOrSelf(d, Dir(p))
          ensures d !in gnoMods
        {
          if IsAncestorOrSelf(d, p) && d != p {
            AboveIsAboveDir(d, p);
          }
        }
        AncestorTransitive(Dir(p), p, absPath);
        p := Dir(p);
      } else {
        forall d | IsAncestorOrSelf(d, absPath) && IsAncestorOrSelf(p, d) && d != p
          ensures d !in gnoMods
        {
          if IsAncestorOrSelf(d, p) {
            AncestorAntisymmetric(d, p);
          }
        }
        if gnoMods[p] == StatFailed {
          return StatError(p);
        }
        return Found(p);
      }
    }
    forall d | IsAncestorOrSelf(d, absPath) && d != "/"
      ensures d !in gnoMods
    {
      if IsAncestorOrSelf(d, "/") {
        AboveRoot(d);
      }
    }
    return GnoModNotFound;
  }

  /** Some '/'-separated segment of `dir` is "filetests". */
  predicate HasFiletestsSegment(dir: string) {
    "filetests" in Split(dir, '/')
  }

  /** extractPackageDir: the segments before the first "filetests" segment,
      joined again. */
  method ExtractPackageDir(dir: string) returns (r: string)
    ensures exists n :: && 0 <= n <= |Split(dir, '/')|
                        && (n < |Split(dir, '/')| ==> Split(dir, '/')[n] == "filetests")
                        && (forall j :: 0 <= j < n ==> Split(dir, '/')[j] != "filetests")
                        && r == JoinPath(Split(dir, '/')[..n])
    ensures !HasFiletestsSegment(r)
    ensures !IsAbs(r)
  {
    var parts := Split(dir, '/');
    var kept: seq<string> := [];
    var i := 0;
    while i < |parts|
      invariant 0 <= i <= |parts| && kept == parts[..i]
      invariant forall j :: 0 <= j < i ==> parts[j] != "filetests"
    {
      if parts[i] == "filetests" {
        break;
      }
      kept := kept + [parts[i]];
      i := i + 1;
    }
    r := JoinPath(kept);
    SplitPiecesFree(dir, '/');
    JoinedSegmentsFree(kept);
    JoinedSegmentsRelative(kept);
  }

  /** Joining separator-free segments none of which is "filetests" yields a
      path with no "filetests" segment. */
  lemma JoinedSegmentsFree(segs: seq<string>)
    requires forall j :: 0 <= j < |segs| ==> '/' !in segs[j] && segs[j] != "filetests"
    ensures !HasFiletestsSegment(JoinPath(segs))
  {
    var kept := NonEmpty(segs);
    if kept != [] {
      SplitJoin(kept, '/');
    }
  }

  /** Joining separator-free segments never yields an absolute path: the
      empty leading segment of an absolute path is dropped by the join. */
  lemma JoinedSegmentsRelative(segs: seq<string>)
    requires forall j :: 0 <= j < |segs| ==> '/' !in segs[j]
    ensures !IsAbs(JoinPath(segs))
  {
    var kept := NonEmpty(segs);
    if |kept| > 1 {
      assert Join(kept, '/') == kept[0] + ['/'] + Join(kept[1..], '/');
      assert Join(kept, '/')[0] == kept[0][0];
    }
  }

  /** isFiletestsDir, on a path already made absolute: whether one of its
      segments is "filetests". */
  method IsFiletestsDir(absDir: string) returns (b: bool)
    ensures b <==> HasFiletestsSegment(absDir)
  {
    var parts := Split(absDir, '/');
    var i := 0;
    while i < |parts|
      invariant 0 <= i <= |parts|
      invariant forall j :: 0 <= j < i ==> parts[j] != "filetests"
    {
      if parts[i] == "filetests" {
        return true;
      }
      i := i + 1;
    }
    return false;
  }

}
