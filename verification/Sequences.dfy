/** Lists without repetition, the sets of their elements, and stable sorting. */
module Sequences {

  function Elements<T>(s: seq<T>): set<T> {
    set x | x in s
  }

  predicate Distinct<T(==)>(s: seq<T>) {
    forall i, j | 0 <= i < j < |s| :: s[i] != s[j]
  }

  lemma ConcatAssociative<T>(a: seq<T>, b: seq<T>, c: seq<T>)
    ensures a + (b + c) == a + b + c
  {
  }

  lemma {:induction false} ElementsSize<T>(s: seq<T>)
    ensures |Elements(s)| <= |s|
    ensures Distinct(s) ==> |Elements(s)| == |s|
  {
    if s != [] {
      var rest := s[..|s| - 1];
      ElementsSize(rest);
      assert s == rest + [s[|s| - 1]];
      assert Elements(s) == Elements(rest) + {s[|s| - 1]};
    }
  }

  lemma SubsetSize<T>(a: set<T>, b: set<T>)
    requires a <= b
    ensures |a| <= |b|
  {
    assert b == a + (b - a);
  }

  // ------------------------------------------------------------------ stable sorting

  function InsertBy<T>(x: T, s: seq<T>, le: (T, T) -> bool): seq<T> {
    if s == [] || !le(s[0], x) then [x] + s else [s[0]] + InsertBy(x, s[1..], le)
  }

  /** `sort_by`: stable. */
  function SortBy<T>(s: seq<T>, le: (T, T) -> bool): seq<T> {
    if s == [] then [] else InsertBy(s[|s| - 1], SortBy(s[..|s| - 1], le), le)
  }

  ghost predicate Sorted<T>(s: seq<T>, le: (T, T) -> bool) {
    forall i, j | 0 <= i < j < |s| :: le(s[i], s[j])
  }

  ghost predicate TotalOrder<T(!new)>(le: (T, T) -> bool) {
    && (forall a, b :: le(a, b) || le(b, a))
    && (forall a, b, c :: le(a, b) && le(b, c) ==> le(a, c))
  }

  lemma {:induction false} InsertPermutes<T>(x: T, s: seq<T>, le: (T, T) -> bool)
    ensures multiset(InsertBy(x, s, le)) == multiset(s) + multiset{x}
  {
    if s != [] && le(s[0], x) {
      InsertPermutes(x, s[1..], le);
      assert s == [s[0]] + s[1..];
    }
  }

  lemma {:induction false} InsertBounded<T>(x: T, s: seq<T>, le: (T, T) -> bool, low: T)
    requires le(low, x) && forall i | 0 <= i < |s| :: le(low, s[i])
    ensures forall i | 0 <= i < |InsertBy(x, s, le)| :: le(low, InsertBy(x, s, le)[i])
  {
    if s != [] && le(s[0], x) {
      InsertBounded(x, s[1..], le, low);
    }
  }

  lemma {:induction false} InsertSorts<T(!new)>(x: T, s: seq<T>, le: (T, T) -> bool)
    requires TotalOrder(le) && Sorted(s, le)
    ensures Sorted(InsertBy(x, s, le), le)
  {
    if s != [] && le(s[0], x) {
      InsertSorts(x, s[1..], le);
      InsertBounded(x, s[1..], le, s[0]);
    } else if s != [] {
      assert le(x, s[0]);
    }
  }

  lemma {:induction false} SortKeeps<T(!new)>(s: seq<T>, le: (T, T) -> bool)
    requires TotalOrder(le)
    ensures Sorted(SortBy(s, le), le)
    ensures multiset(SortBy(s, le)) == multiset(s)
  {
    if s != [] {
      var n := |s| - 1;
      SortKeeps(s[..n], le);
      InsertSorts(s[n], SortBy(s[..n], le), le);
      InsertPermutes(s[n], SortBy(s[..n], le), le);
      assert s == s[..n] + [s[n]];
    }
  }

  lemma {:induction false} InsertAtEnd<T>(x: T, s: seq<T>, le: (T, T) -> bool)
    requires forall i | 0 <= i < |s| :: le(s[i], x)
    ensures InsertBy(x, s, le) == s + [x]
  {
    if s != [] {
      InsertAtEnd(x, s[1..], le);
      assert s == [s[0]] + s[1..];
    }
  }

  /** A sorted list comes back as it was. */
  lemma {:induction false} SortedIsFixed<T>(s: seq<T>, le: (T, T) -> bool)
    requires Sorted(s, le)
    ensures SortBy(s, le) == s
  {
    if s != [] {
      var n := |s| - 1;
      SortedIsFixed(s[..n], le);
      InsertAtEnd(s[n], s[..n], le);
      assert s == s[..n] + [s[n]];
    }
  }

  // ------------------------------------------------------------------ permutations

  /** Keys that differ pairwise still do after a permutation. */
  lemma DistinctKeysPermute<T>(s: seq<T>, t: seq<T>, key: T -> nat)
    requires multiset(s) == multiset(t)
    requires forall i, j | 0 <= i < j < |t| :: key(t[i]) != key(t[j])
    ensures forall i, j | 0 <= i < j < |s| :: key(s[i]) != key(s[j])
  {
    forall i, j | 0 <= i < j < |s| ensures key(s[i]) != key(s[j]) {
      if key(s[i]) == key(s[j]) {
        assert s[i] in multiset(t) && s[j] in multiset(t);
        var a :| 0 <= a < |t| && t[a] == s[i];
        var b :| 0 <= b < |t| && t[b] == s[j];
        assert a == b;
        TwiceMeansTwo(s, i, j);
        OnceMeansOne(t, a);
      }
    }
  }

  lemma TwiceMeansTwo<T>(s: seq<T>, i: nat, j: nat)
    requires i < j < |s| && s[i] == s[j]
    ensures multiset(s)[s[i]] >= 2
  {
    assert s == s[..j] + [s[j]] + s[j + 1..];
    assert s[i] in s[..j];
  }

  lemma OnceMeansOne<T>(s: seq<T>, a: nat)
    requires a < |s| && forall i | 0 <= i < |s| && i != a :: s[i] != s[a]
    ensures multiset(s)[s[a]] == 1
  {
    assert s == s[..a] + [s[a]] + s[a + 1..];
    assert s[a] !in s[..a] && s[a] !in s[a + 1..];
  }
}
