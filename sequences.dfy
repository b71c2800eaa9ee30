/**
 * The list manipulations the controllers perform: the two-pointer reversal used by every
 * listing handler, and the filter that drops an identifier from a back-reference list.
 */
module Sequences {

  /** `s` read from its last element to its first. */
  function Reverse<T>(s: seq<T>): (r: seq<T>)
    ensures |r| == |s|
  {
    if |s| == 0 then [] else [s[|s| - 1]] + Reverse(s[..|s| - 1])
  }

  lemma {:induction false} ReverseAt<T>(s: seq<T>, i: int)
    requires 0 <= i < |s|
    ensures Reverse(s)[i] == s[|s| - 1 - i]
  {
    if i > 0 {
      ReverseAt(s[..|s| - 1], i - 1);
    }
  }

  /** Reversing twice gives back the stored order. */
  lemma ReverseReverse<T>(s: seq<T>)
    ensures Reverse(Reverse(s)) == s
  {
    forall i | 0 <= i < |s|
      ensures Reverse(Reverse(s))[i] == s[i]
    {
      ReverseAt(Reverse(s), i);
      ReverseAt(s, |s| - 1 - i);
    }
  }

  /** A document created last is listed first: creating A, B, C lists C, B, A. */
  lemma {:induction false} ReverseAppend<T>(s: seq<T>, x: T)
    ensures Reverse(s + [x]) == [x] + Reverse(s)
  {
    assert (s + [x])[..|s|] == s;
  }

  /** Go's `for i, j := 0, len(a)-1; i < j; i, j = i+1, j-1 { a[i], a[j] = a[j], a[i] }`. */
  method ReverseInPlace<T>(a: array<T>)
    modifies a
    ensures a[..] == Reverse(old(a[..]))
  {
    var i, j := 0, a.Length - 1;
    while i < j
      invariant 0 <= i <= a.Length && j == a.Length - 1 - i
      invariant i <= j + 1
      invariant forall k :: 0 <= k < i ==> a[k] == old(a[a.Length - 1 - k]) && a[a.Length - 1 - k] == old(a[k])
      invariant forall k :: i <= k <= j ==> a[k] == old(a[k])
    {
      a[i], a[j] := a[j], a[i];
      i, j := i + 1, j - 1;
    }
    forall k | 0 <= k < a.Length
      ensures a[k] == Reverse(old(a[..]))[k]
    {
      ReverseAt(old(a[..]), k);
    }
  }

  /** `s` with every occurrence of `x` dropped, the rest in their original order. */
  function RemoveAll<T(==)>(s: seq<T>, x: T): (r: seq<T>)
    ensures |r| <= |s|
    ensures forall i :: 0 <= i < |r| ==> r[i] in s && r[i] != x
  {
    if |s| == 0 then []
    else RemoveAll(s[..|s| - 1], x) + (if s[|s| - 1] == x then [] else [s[|s| - 1]])
  }

  /** Filtering distributes over concatenation, so relative order is kept. */
  lemma {:induction false} RemoveAllConcat<T>(a: seq<T>, b: seq<T>, x: T)
    ensures RemoveAll(a + b, x) == RemoveAll(a, x) + RemoveAll(b, x)
  {
    if |b| > 0 {
      assert (a + b)[..|a + b| - 1] == a + b[..|b| - 1];
      RemoveAllConcat(a, b[..|b| - 1], x);
    } else {
      assert a + b == a;
    }
  }

  lemma RemoveAllSnoc<T>(init: seq<T>, last: T, x: T)
    ensures RemoveAll(init + [last], x) == RemoveAll(init, x) + (if last == x then [] else [last])
  {
    assert (init + [last])[..|init|] == init;
  }

  /** Every occurrence of `x` is gone and every other element keeps its multiplicity. */
  lemma {:induction false} RemoveAllCounts<T>(s: seq<T>, x: T)
    ensures multiset(RemoveAll(s, x)) == multiset(s)[x := 0]
  {
    if |s| > 0 {
      var init, last := s[..|s| - 1], s[|s| - 1];
      assert s == init + [last];
      RemoveAllSnoc(init, last, x);
      RemoveAllCounts(init, x);
      var kept := RemoveAll(init, x);
      if last == x {
        assert multiset(s)[x := 0] == multiset(init)[x := 0] by {
          assert multiset(s) == multiset(init) + multiset{x};
        }
      } else {
        assert multiset(kept + [last]) == multiset(kept) + multiset{last};
        assert multiset(s)[x := 0] == multiset(init)[x := 0] + multiset{last} by {
          assert multiset(s) == multiset(init) + multiset{last};
        }
      }
    }
  }

  /** Dropping `x` shortens `s` by the number of occurrences of `x`. */
  lemma {:induction false} RemoveAllLength<T>(s: seq<T>, x: T)
    ensures |RemoveAll(s, x)| + multiset(s)[x] == |s|
  {
    if |s| > 0 {
      RemoveAllLength(s[..|s| - 1], x);
      assert s == s[..|s| - 1] + [s[|s| - 1]];
    }
  }

  /** Nothing is dropped when `x` does not occur. */
  lemma {:induction false} RemoveAllAbsent<T>(s: seq<T>, x: T)
    requires x !in s
    ensures RemoveAll(s, x) == s
  {
    if |s| > 0 {
      RemoveAllAbsent(s[..|s| - 1], x);
    }
  }

  /** The set of the elements of `s` (a Go map used as a set). */
  function Elements(s: seq<string>): (r: set<string>)
    ensures forall x :: x in r <==> x in s
  {
    set k | 0 <= k < |s| :: s[k]
  }

  predicate NoDuplicates<T(==)>(s: seq<T>) {
    forall i, j :: 0 <= i < j < |s| ==> s[i] != s[j]
  }
}
