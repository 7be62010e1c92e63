/** Facts about sequences without repeated elements, which is how the model
    represents the Swift code's `Set`s and its duplicate-free domain lists. */
module Sequences {

  predicate NoDuplicates<T(==)>(s: seq<T>) {
    forall i, j | 0 <= i < j < |s| :: s[i] != s[j]
  }

  lemma NoDuplicatesCons<T>(x: T, s: seq<T>)
    ensures NoDuplicates([x] + s) <==> x !in s && NoDuplicates(s)
  {
    if NoDuplicates([x] + s) {
      forall i, j | 0 <= i < j < |s|
        ensures s[i] != s[j]
      {
        assert s[i] == ([x] + s)[i + 1];
        assert s[j] == ([x] + s)[j + 1];
      }
      forall k | 0 <= k < |s|
        ensures s[k] != x
      {
        assert ([x] + s)[0] != ([x] + s)[k + 1];
      }
    }
    if x !in s && NoDuplicates(s) {
      forall i, j | 0 <= i < j < |[x] + s|
        ensures ([x] + s)[i] != ([x] + s)[j]
      {
        if i > 0 {
          assert ([x] + s)[i] == s[i - 1];
        }
        assert ([x] + s)[j] == s[j - 1];
      }
    }
  }

  lemma NoDuplicatesTail<T>(s: seq<T>)
    requires |s| > 0 && NoDuplicates(s)
    ensures NoDuplicates(s[1..]) && s[0] !in s[1..]
  {
    assert s == [s[0]] + s[1..];
    NoDuplicatesCons(s[0], s[1..]);
  }

  lemma NoDuplicatesConcat<T>(a: seq<T>, b: seq<T>)
    requires NoDuplicates(a) && NoDuplicates(b)
    requires forall x | x in a :: x !in b
    ensures NoDuplicates(a + b)
  {
    forall i, j | 0 <= i < j < |a + b|
      ensures (a + b)[i] != (a + b)[j]
    {
      if j >= |a| && i < |a| {
        assert (a + b)[i] in a;
        assert (a + b)[j] in b;
      }
    }
  }

  lemma NoDuplicatesSlice<T>(s: seq<T>, lo: nat, hi: nat)
    requires lo <= hi <= |s|
    requires NoDuplicates(s)
    ensures NoDuplicates(s[lo..hi])
  {
    forall i, j | 0 <= i < j < hi - lo
      ensures s[lo..hi][i] != s[lo..hi][j]
    {
      assert s[lo..hi][i] == s[lo + i];
      assert s[lo..hi][j] == s[lo + j];
    }
  }

  /** The elements of a sequence, as a set. */
  function Elements<T>(s: seq<T>): set<T> {
    set x | x in s
  }

  /** A duplicate-free sequence has as many elements as its set of elements. */
  lemma {:induction false} DistinctLength<T>(s: seq<T>)
    requires NoDuplicates(s)
    ensures |Elements(s)| == |s|
  {
    if |s| > 0 {
      NoDuplicatesTail(s);
      DistinctLength(s[1..]);
      assert Elements(s) == {s[0]} + Elements(s[1..]);
    } else {
      assert Elements(s) == {};
    }
  }

  /** Two duplicate-free sequences of the same length, one of whose elements
      all occur in the other, hold the same elements. */
  lemma SameLengthSubsetIsSameSet<T>(a: seq<T>, b: seq<T>)
    requires NoDuplicates(a) && NoDuplicates(b)
    requires |a| == |b|
    requires forall x | x in a :: x in b
    ensures forall x :: x in a <==> x in b
  {
    DistinctLength(a);
    DistinctLength(b);
    var A, B := Elements(a), Elements(b);
    assert A <= B;
    assert |B - A| == |B| - |A| by {
      assert B == A + (B - A);
      assert A * (B - A) == {};
    }
    assert B - A == {};
    forall x | x in b
      ensures x in a
    {
      assert x in B;
    }
  }

  /** A sequence has at least as many positions as distinct elements. */
  lemma {:induction false} ElementsBound<T>(s: seq<T>)
    ensures |Elements(s)| <= |s|
  {
    if |s| > 0 {
      ElementsBound(s[1..]);
      assert Elements(s) == {s[0]} + Elements(s[1..]);
    } else {
      assert Elements(s) == {};
    }
  }

  /** A duplicate-free sequence all of whose elements occur in another is no
      longer than it. */
  lemma SubsetLength<T>(a: seq<T>, b: seq<T>)
    requires NoDuplicates(a)
    requires forall x | x in a :: x in b
    ensures |a| <= |b|
  {
    DistinctLength(a);
    ElementsBound(b);
    var A, B := Elements(a), Elements(b);
    assert B == A + (B - A);
    assert A * (B - A) == {};
  }

  /** The distinct elements of a sequence, each at its last position (the
      model's `Set(...)`; the source leaves the order of a set unspecified). */
  function Dedup<T(==,!new)>(s: seq<T>): (r: seq<T>)
    ensures NoDuplicates(r)
    ensures forall x :: x in r <==> x in s
    ensures |r| <= |s|
  {
    if s == [] then []
    else if s[0] in s[1..] then Dedup(s[1..])
    else
      NoDuplicatesCons(s[0], Dedup(s[1..]));
      [s[0]] + Dedup(s[1..])
  }

  /** A sequence without repeats is its own `Dedup`. */
  lemma {:induction false} DedupDistinct<T(!new)>(s: seq<T>)
    requires NoDuplicates(s)
    ensures Dedup(s) == s
  {
    if s != [] {
      NoDuplicatesTail(s);
      DedupDistinct(s[1..]);
      assert s == [s[0]] + s[1..];
    }
  }

  /** `a` is `b` with some elements left out, the rest in order. */
  predicate IsSubsequence<T(==)>(a: seq<T>, b: seq<T>)
    decreases |b|
  {
    a == [] || (b != [] && if a[0] == b[0] then IsSubsequence(a[1..], b[1..]) else IsSubsequence(a, b[1..]))
  }

  /** A subsequence of the tail is one of the whole sequence. */
  lemma {:induction false} SubsequenceSkip<T>(a: seq<T>, s: seq<T>)
    requires s != [] && IsSubsequence(a, s[1..])
    ensures IsSubsequence(a, s)
    decreases |s|, 0
  {
    if a != [] && a[0] == s[0] {
      SubsequenceDrop(a, s[1..]);
    }
  }

  /** Leaving out the first element keeps a subsequence. */
  lemma {:induction false} SubsequenceDrop<T>(a: seq<T>, s: seq<T>)
    requires a != [] && IsSubsequence(a, s)
    ensures IsSubsequence(a[1..], s)
    decreases |s|, 1
  {
    if a[0] == s[0] {
      SubsequenceSkip(a[1..], s);
    } else {
      SubsequenceDrop(a, s[1..]);
      SubsequenceSkip(a[1..], s);
    }
  }

  /** The shortest prefix of `s` holding all of `p`: its last element (if
      any) lies in `p`. */
  lemma {:induction false} ShortestCover<T>(s: seq<T>, p: set<T>) returns (len: nat)
    requires p <= Elements(s)
    ensures len <= |s| && p <= Elements(s[..len])
    ensures len == 0 || s[len - 1] in p
  {
    if |s| == 0 {
      len := 0;
    } else if p <= Elements(s[..|s| - 1]) {
      len := ShortestCover(s[..|s| - 1], p);
      assert s[..|s| - 1][..len] == s[..len];
    } else {
      len := |s|;
      assert s[..len] == s;
      var x :| x in p && x !in Elements(s[..|s| - 1]);
      assert s == s[..|s| - 1] + [s[|s| - 1]];
    }
  }
}
