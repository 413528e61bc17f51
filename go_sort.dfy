/** sort.Strings: sorts a slice of strings in place in increasing order. */
module GoSort {
  import opened GoStrings

  /** No element is smaller than the one before it. */
  ghost predicate AdjacentSorted(s: seq<string>, lo: int, hi: int)
    requires 0 <= lo <= hi <= |s|
  {
    forall k :: lo < k < hi ==> !Less(s[k], s[k - 1])
  }

  /** No element is smaller than any element before it. */
  ghost predicate Sorted(s: seq<string>) {
    forall p, q :: 0 <= p < q < |s| ==> !Less(s[q], s[p])
  }

  /** Every element is strictly smaller than every element after it. */
  ghost predicate StrictlySorted(s: seq<string>) {
    forall p, q :: 0 <= p < q < |s| ==> Less(s[p], s[q])
  }

  /** No element occurs twice. */
  ghost predicate Distinct(s: seq<string>) {
    forall p, q :: 0 <= p < q < |s| ==> s[p] != s[q]
  }

  /** sort.Strings, as an insertion sort: afterwards the array is sorted
      and holds the same elements as before. */
  method SortStrings(a: array<string>)
    modifies a
    ensures Sorted(a[..])
    ensures multiset(a[..]) == multiset(old(a[..]))
  {
    var i := 0;
    while i < a.Length
      invariant 0 <= i <= a.Length
      invariant AdjacentSorted(a[..], 0, i)
      invariant multiset(a[..]) == multiset(old(a[..]))
    {
      Insert(a, i);
      i := i + 1;
    }
    AdjacentToSorted(a[..]);
  }

  /** Moves `a[i]` left into the sorted prefix `a[..i]`. */
  method Insert(a: array<string>, i: int)
    requires 0 <= i < a.Length && AdjacentSorted(a[..], 0, i)
    modifies a
    ensures AdjacentSorted(a[..], 0, i + 1)
    ensures multiset(a[..]) == multiset(old(a[..]))
  {
    var j := i;
    while j > 0 && Less(a[j], a[j - 1])
      invariant 0 <= j <= i
      invariant AdjacentSorted(a[..], 0, j)
      invariant AdjacentSorted(a[..], j + 1, i + 1)
      invariant 0 < j < i ==> !Less(a[j + 1], a[j - 1])
      invariant j < i ==> !Less(a[j + 1], a[j])
      invariant multiset(a[..]) == multiset(old(a[..]))
    {
      LessAsymmetric(a[j], a[j - 1]);
      Swap(a, j - 1, j);
      j := j - 1;
    }
  }

  method Swap(a: array<string>, i: int, j: int)
    requires 0 <= i < j < a.Length
    modifies a
    ensures a[i] == old(a[j]) && a[j] == old(a[i])
    ensures forall k :: 0 <= k < a.Length && k != i && k != j ==> a[k] == old(a[k])
    ensures multiset(a[..]) == multiset(old(a[..]))
  {
    a[i], a[j] := a[j], a[i];
  }

  /** `!Less(b, a)` is transitive. */
  lemma NotLessTransitive(a: string, b: string, c: string)
    requires !Less(b, a) && !Less(c, b)
    ensures !Less(c, a)
  {
    if Less(c, a) {
      if a == b {
      } else {
        LessTotal(a, b);
        LessTransitive(c, a, b);
      }
    }
  }

  lemma {:induction false} AdjacentToSorted(s: seq<string>)
    requires AdjacentSorted(s, 0, |s|)
    ensures Sorted(s)
  {
    if |s| > 1 {
      var t := s[..|s| - 1];
      assert AdjacentSorted(t, 0, |t|);
      AdjacentToSorted(t);
      forall p | 0 <= p < |s| - 1 ensures !Less(s[|s| - 1], s[p]) {
        if p < |s| - 2 {
          assert !Less(t[|t| - 1], t[p]);
          NotLessTransitive(s[p], s[|s| - 2], s[|s| - 1]);
        }
      }
    }
  }

  /** A sorted sequence without repetitions is strictly sorted. */
  lemma SortedDistinct(s: seq<string>)
    requires Sorted(s) && Distinct(s)
    ensures StrictlySorted(s)
  {
    forall p, q | 0 <= p < q < |s| ensures Less(s[p], s[q]) {
      LessTotal(s[p], s[q]);
    }
  }

  lemma {:induction false} DistinctCounts(s: seq<string>, x: string)
    requires Distinct(s)
    ensures multiset(s)[x] <= 1
  {
    if s != [] {
      assert s == [s[0]] + s[1..];
      DistinctCounts(s[1..], x);
      assert s[0] !in s[1..];
    }
  }

  /** An element at two positions is counted at least twice. */
  lemma RepeatCounts(t: seq<string>, p: int, q: int)
    requires 0 <= p < q < |t| && t[p] == t[q]
    ensures multiset(t)[t[p]] >= 2
  {
    assert t == t[..q] + [t[q]] + t[q + 1..];
    assert t[p] in t[..q];
  }

  /** Rearranging the elements of a sequence keeps them distinct. */
  lemma DistinctPermutation(s: seq<string>, t: seq<string>)
    requires Distinct(s) && multiset(s) == multiset(t)
    ensures Distinct(t)
  {
    forall p, q | 0 <= p < q < |t| ensures t[p] != t[q] {
      DistinctCounts(s, t[p]);
      if t[p] == t[q] {
        RepeatCounts(t, p, q);
      }
    }
  }

  /** Two strictly sorted sequences with the same elements are equal: the
      sorted order of a set of strings is unique. */
  lemma {:induction false} StrictlySortedUnique(s: seq<string>, t: seq<string>)
    requires StrictlySorted(s) && StrictlySorted(t)
    requires forall x :: x in s <==> x in t
    ensures s == t
    decreases |s|
  {
    assert s != [] ==> s[0] in s;
    assert t != [] ==> t[0] in t;
    if s != [] && t != [] {
      assert s == [s[0]] + s[1..] && t == [t[0]] + t[1..];
      if s[0] != t[0] {
        var k :| 0 <= k < |s| && s[k] == t[0];
        var m :| 0 <= m < |t| && t[m] == s[0];
        LessAsymmetric(s[0], s[k]);
        assert false;
      }
      forall x | x in s[1..] ensures x in t[1..] {
        var k :| 1 <= k < |s| && s[k] == x;
        assert Less(s[0], s[k]);
        LessIrreflexive(s[0]);
        assert x in t && x != t[0];
      }
      forall x | x in t[1..] ensures x in s[1..] {
        var k :| 1 <= k < |t| && t[k] == x;
        assert Less(t[0], t[k]);
        LessIrreflexive(t[0]);
        assert x in s && x != s[0];
      }
      StrictlySortedUnique(s[1..], t[1..]);
    }
  }
}
