/** The parts of Go's `strings` package (and of its byte-wise string
    comparison) that the modelled code relies on, on strings as sequences of
    characters. */
module GoStrings {

  /** strings.HasPrefix */
  predicate HasPrefix(s: string, prefix: string) {
    |prefix| <= |s| && s[..|prefix|] == prefix
  }

  /** strings.HasSuffix */
  predicate HasSuffix(s: string, suffix: string) {
    |suffix| <= |s| && s[|s| - |suffix|..] == suffix
  }

  /** strings.TrimPrefix: removes one leading occurrence of `prefix`, if any. */
  function TrimPrefix(s: string, prefix: string): string
  {
    if HasPrefix(s, prefix) then s[|prefix|..] else s
  }

  /** strings.TrimSuffix: removes one trailing occurrence of `suffix`, if any. */
  function TrimSuffix(s: string, suffix: string): string
  {
    if HasSuffix(s, suffix) then s[..|s| - |suffix|] else s
  }

  /** Trimming a prefix that is present leaves what follows it; an absent
      one changes nothing. */
  lemma TrimPrefixSplits(s: string, prefix: string)
    ensures HasPrefix(s, prefix) ==> prefix + TrimPrefix(s, prefix) == s
    ensures !HasPrefix(s, prefix) ==> TrimPrefix(s, prefix) == s
  {
    if HasPrefix(s, prefix) {
      assert s == s[..|prefix|] + s[|prefix|..];
    }
  }

  /** Trimming a suffix that is present leaves what precedes it; an absent
      one changes nothing. */
  lemma TrimSuffixSplits(s: string, suffix: string)
    ensures HasSuffix(s, suffix) ==> TrimSuffix(s, suffix) + suffix == s
    ensures !HasSuffix(s, suffix) ==> TrimSuffix(s, suffix) == s
  {
    if HasSuffix(s, suffix) {
      assert s == s[..|s| - |suffix|] + s[|s| - |suffix|..];
    }
  }

  /** A string with a character added ends in a non-empty suffix exactly
      when that character ends the suffix and the string ends in the rest. */
  lemma SuffixSnoc(s: string, c: char, suffix: string)
    requires suffix != ""
    ensures HasSuffix(s + [c], suffix) <==>
              HasSuffix(s, suffix[..|suffix| - 1]) && c == suffix[|suffix| - 1]
  {
    var t := s + [c];
    if |suffix| <= |t| {
      assert t[|t| - |suffix|..] == s[|s| - (|suffix| - 1)..] + [c];
    }
  }

  /** Position of the first `c` in `s`, or `|s|` when there is none. */
  function IndexOf(s: string, c: char): (k: nat)
    ensures k <= |s|
    ensures k < |s| ==> s[k] == c
    ensures forall i :: 0 <= i < k ==> s[i] != c
  {
    if s == [] then 0
    else if s[0] == c then 0
    else 1 + IndexOf(s[1..], c)
  }

  /** Position of the last `c` in `s`, or -1 when there is none. */
  function LastIndexOf(s: string, c: char): (k: int)
    ensures -1 <= k < |s|
    ensures 0 <= k ==> s[k] == c
    ensures forall i :: k < i < |s| ==> s[i] != c
  {
    if s == [] then -1
    else if s[|s| - 1] == c then |s| - 1
    else LastIndexOf(s[..|s| - 1], c)
  }

  /** strings.Split with a one-character separator: the pieces between the
      separators, in order; the empty string splits into one empty piece. */
  function Split(s: string, sep: char): (parts: seq<string>)
    ensures |parts| >= 1
    decreases |s|
  {
    var k := IndexOf(s, sep);
    if k == |s| then [s] else [s[..k]] + Split(s[k + 1..], sep)
  }

  /** strings.Join with a one-character separator. */
  function Join(parts: seq<string>, sep: char): string
  {
    if |parts| == 0 then ""
    else if |parts| == 1 then parts[0]
    else parts[0] + [sep] + Join(parts[1..], sep)
  }

  /** No piece of a split holds the separator. */
  lemma {:induction false} SplitPiecesFree(s: string, sep: char)
    ensures forall i :: 0 <= i < |Split(s, sep)| ==> sep !in Split(s, sep)[i]
    decreases |s|
  {
    var k := IndexOf(s, sep);
    if k < |s| {
      SplitPiecesFree(s[k + 1..], sep);
    }
  }

  /** Joining the pieces of a split gives back the string. */
  lemma {:induction false} JoinSplit(s: string, sep: char)
    ensures Join(Split(s, sep), sep) == s
    decreases |s|
  {
    var k := IndexOf(s, sep);
    if k < |s| {
      var a, b := s[..k], s[k + 1..];
      assert s == a + [sep] + b;
      SplitConcat(a, b, sep);
      JoinSplit(b, sep);
      JoinCons(a, Split(b, sep), sep);
    }
  }

  /** Splitting a join of separator-free pieces gives back the pieces. */
  lemma {:induction false} SplitJoin(parts: seq<string>, sep: char)
    requires |parts| >= 1
    requires forall i :: 0 <= i < |parts| ==> sep !in parts[i]
    ensures Split(Join(parts, sep), sep) == parts
  {
    if |parts| > 1 {
      SplitJoin(parts[1..], sep);
      JoinCons(parts[0], parts[1..], sep);
      assert [parts[0]] + parts[1..] == parts;
      SplitConcat(parts[0], Join(parts[1..], sep), sep);
    } else {
      assert sep !in parts[0];
    }
  }

  /** A split has a single piece exactly when the separator does not occur. */
  lemma SplitSingle(s: string, sep: char)
    ensures |Split(s, sep)| == 1 <==> sep !in s
  {
    var k := IndexOf(s, sep);
    if sep in s {
      var i :| 0 <= i < |s| && s[i] == sep;
      assert k <= i;
    }
  }

  /** Splitting a separator-free piece, a separator and a rest gives the
      piece followed by the split of the rest. */
  lemma SplitConcat(a: string, b: string, sep: char)
    requires sep !in a
    ensures Split(a + [sep] + b, sep) == [a] + Split(b, sep)
  {
    var s := a + [sep] + b;
    assert s[|a|] == sep;
    assert IndexOf(s, sep) == |a| by {
      forall i | 0 <= i < |a| ensures s[i] != sep {
        assert s[i] == a[i];
      }
    }
    assert s[..|a|] == a;
    assert s[|a| + 1..] == b;
  }

  /** Joining a piece in front of a non-empty list puts a separator between. */
  lemma JoinCons(x: string, xs: seq<string>, sep: char)
    requires |xs| >= 1
    ensures Join([x] + xs, sep) == x + [sep] + Join(xs, sep)
  {
    assert ([x] + xs)[1..] == xs;
  }

  /** `k` is a position of `s` whose text after it is the last of the
      pieces, and whose text before it is the join of the others. */
  predicate PiecesAroundLast(parts: seq<string>, s: string, k: int, sep: char) {
    && 0 <= k < |s| && |parts| >= 2
    && parts[|parts| - 1] == s[k + 1..] && Join(parts[..|parts| - 1], sep) == s[..k]
  }

  /** When the separator occurs, the last piece of the split is what follows
      its last occurrence, and the other pieces join to what precedes it. */
  lemma SplitLast(s: string, sep: char)
    requires sep in s
    ensures PiecesAroundLast(Split(s, sep), s, LastIndexOf(s, sep), sep)
  {
    var parts := Split(s, sep);
    SplitSingle(s, sep);
    JoinSplit(s, sep);
    SplitPiecesFree(s, sep);
    JoinAtLast(parts, s, sep);
  }

  /** Separator-free pieces joined together: the last one follows the last
      separator, and the others join to what precedes it. */
  lemma JoinAtLast(parts: seq<string>, s: string, sep: char)
    requires |parts| >= 2 && forall i :: 0 <= i < |parts| ==> sep !in parts[i]
    requires Join(parts, sep) == s
    ensures PiecesAroundLast(parts, s, LastIndexOf(s, sep), sep)
  {
    var init, last := parts[..|parts| - 1], parts[|parts| - 1];
    assert parts == init + [last];
    JoinSnoc(init, last, sep);
    var front := Join(init, sep);
    assert s == front + [sep] + last;
    LastIndexOfBefore(front, last, sep);
    assert s[|front| + 1..] == last && s[..|front|] == front;
  }

  /** Joining a list with a piece at the end puts a separator before it. */
  lemma {:induction false} JoinSnoc(xs: seq<string>, y: string, sep: char)
    requires |xs| >= 1
    ensures Join(xs + [y], sep) == Join(xs, sep) + [sep] + y
    decreases |xs|
  {
    if |xs| == 1 {
      assert (xs + [y])[1..] == [y];
    } else {
      JoinSnoc(xs[1..], y, sep);
      assert (xs + [y])[1..] == xs[1..] + [y];
    }
  }

  /** A separator followed only by separator-free text is the last one. */
  lemma {:induction false} LastIndexOfBefore(x: string, y: string, sep: char)
    requires sep !in y
    ensures LastIndexOf(x + [sep] + y, sep) == |x|
    decreases |y|
  {
    var s := x + [sep] + y;
    if y == [] {
      assert s[|s| - 1] == sep;
    } else {
      var y' := y[..|y| - 1];
      assert s[..|s| - 1] == x + [sep] + y';
      assert s[|s| - 1] == y[|y| - 1];
      assert sep !in y' by {
        forall i | 0 <= i < |y'| ensures y'[i] != sep {
          assert y'[i] == y[i];
        }
      }
      LastIndexOfBefore(x, y', sep);
    }
  }

  /** Go's string comparison `a < b`: byte-wise lexicographic order, a proper
      prefix ordered first (on characters; UTF-8 keeps code-point order). */
  predicate Less(a: string, b: string)
    decreases |a|
  {
    if a == [] then b != []
    else if b == [] then false
    else if a[0] == b[0] then Less(a[1..], b[1..])
    else a[0] < b[0]
  }

  lemma LessIrreflexive(a: string)
    ensures !Less(a, a)
  {
  }

  lemma {:induction false} LessTransitive(a: string, b: string, c: string)
    requires Less(a, b) && Less(b, c)
    ensures Less(a, c)
    decreases |a|
  {
    if a != [] && b != [] && c != [] && a[0] == b[0] && b[0] == c[0] {
      LessTransitive(a[1..], b[1..], c[1..]);
    }
  }

  lemma {:induction false} LessTotal(a: string, b: string)
    requires a != b
    ensures Less(a, b) || Less(b, a)
    decreases |a|
  {
    if a != [] && b != [] && a[0] == b[0] {
      assert a[1..] != b[1..] by {
        assert a == [a[0]] + a[1..] && b == [b[0]] + b[1..];
      }
      LessTotal(a[1..], b[1..]);
    }
  }

  lemma {:induction false} LessAsymmetric(a: string, b: string)
    requires Less(a, b)
    ensures !Less(b, a)
    decreases |a|
  {
    if a != [] && b != [] && a[0] == b[0] {
      LessAsymmetric(a[1..], b[1..]);
    }
  }
}
