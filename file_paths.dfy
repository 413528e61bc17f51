/** The parts of Go's `path/filepath` package that the modelled code relies
    on, for '/'-separated paths.  `Clean` is not modelled: `Dir` is stated
    for paths that are already clean, and `Join` concatenates its non-empty
    elements with '/'. */
module FilePaths {
  import opened GoStrings

  /** filepath.IsAbs */
  predicate IsAbs(p: string) {
    |p| > 0 && p[0] == '/'
  }

  /** A path segment may start at index `i` of a clean path: it is not empty,
      not "." and not "..". */
  predicate SegmentStartsClean(p: string, i: nat) {
    && i < |p| && p[i] != '/'
    && !(p[i] == '.' && (i + 1 == |p| || p[i + 1] == '/'))
    && !(p[i] == '.' && i + 1 < |p| && p[i + 1] == '.' && (i + 2 == |p| || p[i + 2] == '/'))
  }

  /** An absolute path that filepath.Clean leaves unchanged: the root, or
      '/'-separated segments none of which is empty, "." or "..". */
  predicate IsCleanAbs(p: string) {
    p == "/" || (IsAbs(p) && forall i :: 0 <= i < |p| && p[i] == '/' ==> SegmentStartsClean(p, i + 1))
  }

  /** filepath.Dir of a clean path: everything before the last separator,
      the root when that is the leading one, "." when there is none. */
  function Dir(p: string): string {
    var k := LastIndexOf(p, '/');
    if k < 0 then "." else if k == 0 then "/" else p[..k]
  }

  /** `a` is `p` or one of the directories above it. */
  predicate IsAncestorOrSelf(a: string, p: string) {
    && IsAbs(a) && IsAbs(p)
    && (a == p || a == "/" || (|a| < |p| && p[..|a|] == a && p[|a|] == '/'))
  }

  /** The parent of a clean absolute path other than the root is a clean
      absolute path, strictly shorter, and above it. */
  lemma DirOfCleanAbs(p: string)
    requires IsCleanAbs(p) && p != "/"
    ensures IsCleanAbs(Dir(p)) && |Dir(p)| < |p| && Dir(p) != p
    ensures IsAncestorOrSelf(Dir(p), p)
  {
    var k := LastIndexOf(p, '/');
    assert p[0] == '/';
    if k > 0 {
      var d := p[..k];
      forall i | 0 <= i < |d| && d[i] == '/' ensures SegmentStartsClean(d, i + 1) {
        assert SegmentStartsClean(p, i + 1);
      }
    }
  }

  /** Every directory strictly above a clean absolute path is its parent or
      above its parent. */
  lemma AboveIsAboveDir(a: string, p: string)
    requires IsCleanAbs(p) && p != "/"
    requires IsAncestorOrSelf(a, p) && a != p
    ensures IsAncestorOrSelf(a, Dir(p))
  {
    DirOfCleanAbs(p);
    var k := LastIndexOf(p, '/');
    if a != "/" {
      assert p[|a|] == '/';
      assert |a| <= k;
      if k > 0 && |a| < k {
        assert Dir(p)[..|a|] == a;
      }
    }
  }

  lemma AncestorTransitive(a: string, b: string, c: string)
    requires IsAncestorOrSelf(a, b) && IsAncestorOrSelf(b, c)
    ensures IsAncestorOrSelf(a, c)
  {
    if a != b && b != c && a != "/" {
      assert c[..|b|][..|a|] == c[..|a|];
    }
  }

  lemma AncestorAntisymmetric(a: string, b: string)
    requires IsAncestorOrSelf(a, b) && IsAncestorOrSelf(b, a)
    ensures a == b
  {
  }

  /** Two directories above one path lie on one line: one is above the
      other. */
  lemma AncestorsComparable(a: string, b: string, p: string)
    requires IsAncestorOrSelf(a, p) && IsAncestorOrSelf(b, p)
    ensures IsAncestorOrSelf(a, b) || IsAncestorOrSelf(b, a)
  {
    if a != p && b != p && a != "/" && b != "/" {
      if |a| < |b| {
        assert b[..|a|] == p[..|a|] && b[|a|] == p[|a|];
      } else if |b| < |a| {
        assert a[..|b|] == p[..|b|] && a[|b|] == p[|b|];
      } else {
        assert a == p[..|a|] == b;
      }
    }
  }

  /** Only the root is above the root. */
  lemma AboveRoot(a: string)
    requires IsAncestorOrSelf(a, "/")
    ensures a == "/"
  {
  }

  /** Removes every trailing separator. */
  function TrimTrailingSeparators(p: string): string {
    if p != [] && p[|p| - 1] == '/' then TrimTrailingSeparators(p[..|p| - 1]) else p
  }

  /** The characters after the last separator. */
  function LastElement(q: string): string {
    if q == [] || q[|q| - 1] == '/' then [] else LastElement(q[..|q| - 1]) + [q[|q| - 1]]
  }

  /** filepath.Base: the last element of the path after trailing separators
      are removed; "." for the empty path and "/" for a path of separators. */
  function Base(p: string): string {
    if p == "" then "."
    else
      var q := TrimTrailingSeparators(p);
      if q == "" then "/" else LastElement(q)
  }

  /** A name without separators is its own base name. */
  lemma {:induction false} BaseOfName(name: string)
    requires name != "" && '/' !in name
    ensures Base(name) == name
  {
    assert TrimTrailingSeparators(name) == name;
    LastElementOfName(name);
  }

  lemma {:induction false} LastElementOfName(name: string)
    requires '/' !in name
    ensures LastElement(name) == name
  {
    if name != [] {
      LastElementOfName(name[..|name| - 1]);
    }
  }

  /** A path that ends in a name ending in `suffix` (no separator in it) has
      a base name that ends in `suffix` too, and conversely when the path
      has no trailing separator. */
  lemma {:induction false} BaseSuffix(p: string, suffix: string)
    requires suffix != "" && '/' !in suffix
    requires p != [] && p[|p| - 1] != '/'
    ensures HasSuffix(p, suffix) <==> HasSuffix(Base(p), suffix)
  {
    assert TrimTrailingSeparators(p) == p;
    LastElementSuffix(p, suffix);
  }

  lemma {:induction false} LastElementSuffix(q: string, suffix: string)
    requires suffix != "" && '/' !in suffix
    ensures HasSuffix(q, suffix) <==> HasSuffix(LastElement(q), suffix)
    decreases |q|
  {
    if q != [] && q[|q| - 1] != '/' {
      var init, c := q[..|q| - 1], q[|q| - 1];
      var front := suffix[..|suffix| - 1];
      assert q == init + [c];
      assert LastElement(q) == LastElement(init) + [c];
      SuffixSnoc(init, c, suffix);
      SuffixSnoc(LastElement(init), c, suffix);
      if front != [] {
        assert forall x :: x in front ==> x in suffix;
        LastElementSuffix(init, front);
      }
    } else if q != [] {
      assert suffix[|suffix| - 1] in suffix;
    }
  }

  /** The last element holds no separator. */
  lemma {:induction false} LastElementFree(q: string)
    ensures '/' !in LastElement(q)
    decreases |q|
  {
    if q != [] && q[|q| - 1] != '/' {
      LastElementFree(q[..|q| - 1]);
    }
  }

  /** A base name other than "/" holds no separator. */
  lemma BaseFree(p: string)
    requires Base(p) != "/"
    ensures '/' !in Base(p)
  {
    if p != "" {
      LastElementFree(TrimTrailingSeparators(p));
    }
  }

  /** The text after the last separator is the last element. */
  lemma {:induction false} LastElementAfterSeparator(x: string, y: string)
    requires '/' !in y
    ensures LastElement(x + "/" + y) == y
    decreases |y|
  {
    var s := x + "/" + y;
    if y == [] {
      assert s[|s| - 1] == '/';
    } else {
      var y' := y[..|y| - 1];
      assert s[..|s| - 1] == x + "/" + y';
      assert s[|s| - 1] == y[|y| - 1] && y[|y| - 1] in y;
      assert '/' !in y' by {
        forall i | 0 <= i < |y'| ensures y'[i] != '/' {
          assert y'[i] == y[i];
        }
      }
      LastElementAfterSeparator(x, y');
      assert y == y' + [y[|y| - 1]];
    }
  }

  /** A name written under a directory has that name as its base name and
      that directory as its parent. */
  lemma NameUnderDir(dir: string, name: string)
    requires dir != "" && name != "" && '/' !in name
    ensures Base(dir + "/" + name) == name
    ensures Dir(dir + "/" + name) == dir
  {
    var p := dir + "/" + name;
    assert p[|p| - 1] == name[|name| - 1] && name[|name| - 1] in name;
    assert TrimTrailingSeparators(p) == p;
    LastElementAfterSeparator(dir, name);
    LastIndexOfBefore(dir, name, '/');
    assert p[..|dir|] == dir;
  }

  /** The elements that are not empty, in order. */
  function NonEmpty(elems: seq<string>): (r: seq<string>)
    ensures forall i :: 0 <= i < |r| ==> r[i] != "" && r[i] in elems
    ensures |r| <= |elems|
  {
    if elems == [] then []
    else if elems[0] == "" then NonEmpty(elems[1..])
    else [elems[0]] + NonEmpty(elems[1..])
  }

  /** filepath.Join, for elements that are already clean: the non-empty
      elements joined by '/'; the empty string when all are empty. */
  function JoinPath(elems: seq<string>): string {
    Join(NonEmpty(elems), '/')
  }
}
