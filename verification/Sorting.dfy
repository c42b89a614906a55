/** Array.prototype.sort with a comparator, and why a sorted list of distinct keys is a canonical form. */
module Sorting {

  ghost predicate StrictWeakOrder<T(!new)>(less: (T, T) -> bool) {
    && (forall x :: !less(x, x))
    && (forall x, y, z :: less(x, y) && less(y, z) ==> less(x, z))
    && (forall x, y, z :: !less(x, y) && !less(y, z) ==> !less(x, z))
  }

  ghost predicate Sorted<T>(less: (T, T) -> bool, s: seq<T>) {
    forall i, j :: 0 <= i < j < |s| ==> !less(s[j], s[i])
  }

  ghost predicate StrictlySorted<T>(less: (T, T) -> bool, s: seq<T>) {
    forall i, j :: 0 <= i < j < |s| ==> less(s[i], s[j])
  }

  /** No two positions compare equal: what a uniqueness check on the sort key establishes. */
  ghost predicate Distinguished<T>(less: (T, T) -> bool, s: seq<T>) {
    forall i, j :: 0 <= i < j < |s| ==> less(s[i], s[j]) || less(s[j], s[i])
  }

  function Insert<T>(less: (T, T) -> bool, x: T, s: seq<T>): seq<T> {
    if s == [] then [x]
    else if less(x, s[0]) then [x] + s
    else [s[0]] + Insert(less, x, s[1..])
  }

  /** A stable sort. */
  function Sort<T>(less: (T, T) -> bool, s: seq<T>): seq<T> {
    if s == [] then [] else Insert(less, s[|s| - 1], Sort(less, s[..|s| - 1]))
  }

  lemma {:induction false} InsertPermutes<T>(less: (T, T) -> bool, x: T, s: seq<T>)
    ensures multiset(Insert(less, x, s)) == multiset(s) + multiset{x}
  {
    if s != [] && !less(x, s[0]) {
      InsertPermutes(less, x, s[1..]);
      assert s == [s[0]] + s[1..];
    }
  }

  lemma {:induction false} SortPermutes<T>(less: (T, T) -> bool, s: seq<T>)
    ensures multiset(Sort(less, s)) == multiset(s)
  {
    if s != [] {
      SortPermutes(less, s[..|s| - 1]);
      InsertPermutes(less, s[|s| - 1], Sort(less, s[..|s| - 1]));
      assert s == s[..|s| - 1] + [s[|s| - 1]];
    }
  }

  lemma MultisetMember<T>(a: seq<T>, b: seq<T>, x: T)
    requires multiset(a) == multiset(b)
    ensures x in a <==> x in b
  {
    assert x in a <==> x in multiset(a);
    assert x in b <==> x in multiset(b);
  }

  lemma {:induction false} InsertSorted<T(!new)>(less: (T, T) -> bool, x: T, s: seq<T>)
    requires StrictWeakOrder(less) && Sorted(less, s)
    ensures Sorted(less, Insert(less, x, s))
  {
    var r := Insert(less, x, s);
    if s == [] {
    } else if less(x, s[0]) {
      assert !less(s[0], x);
      forall j | 0 <= j < |s| ensures !less(s[j], x) {
        assert j == 0 || !less(s[j], s[0]);
      }
    } else {
      var rest := Insert(less, x, s[1..]);
      InsertSorted(less, x, s[1..]);
      InsertPermutes(less, x, s[1..]);
      forall j | 0 <= j < |rest| ensures !less(rest[j], s[0]) {
        assert rest[j] in multiset(rest);
        assert rest[j] == x || rest[j] in s[1..];
      }
    }
  }

  lemma {:induction false} SortSorts<T(!new)>(less: (T, T) -> bool, s: seq<T>)
    requires StrictWeakOrder(less)
    ensures Sorted(less, Sort(less, s))
  {
    if s != [] {
      SortSorts(less, s[..|s| - 1]);
      InsertSorted(less, s[|s| - 1], Sort(less, s[..|s| - 1]));
    }
  }

  /** Distinguished is a property of the multiset, so it survives permutation. */
  lemma DistinguishedPermutes<T(!new)>(less: (T, T) -> bool, a: seq<T>, b: seq<T>)
    requires StrictWeakOrder(less) && Distinguished(less, a) && multiset(a) == multiset(b)
    ensures Distinguished(less, b)
  {
    forall i, j | 0 <= i < j < |b| ensures less(b[i], b[j]) || less(b[j], b[i]) {
      var x, y := b[i], b[j];
      MultisetMember(a, b, x);
      MultisetMember(a, b, y);
      if x == y {
        TwoOccurrences(b, i, j);
        var p, q := OccurrencesOf(a, x);
        assert false;
      } else {
        var p :| 0 <= p < |a| && a[p] == x;
        var q :| 0 <= q < |a| && a[q] == y;
        assert p != q;
        assert p < q || q < p;
      }
    }
  }

  lemma TwoOccurrences<T>(s: seq<T>, i: nat, j: nat)
    requires i < j < |s| && s[i] == s[j]
    ensures multiset(s)[s[i]] >= 2
  {
    assert s == s[..j] + [s[j]] + s[j + 1..];
    assert s[i] in s[..j];
    assert multiset(s) == multiset(s[..j]) + multiset{s[j]} + multiset(s[j + 1..]);
    assert s[i] in multiset(s[..j]);
  }

  lemma OccurrencesOf<T>(s: seq<T>, x: T) returns (i: nat, j: nat)
    requires multiset(s)[x] >= 2
    ensures i < j < |s| && s[i] == s[j] == x
  {
    assert x in multiset(s);
    j :| 0 <= j < |s| && s[j] == x;
    assert s == s[..j] + [s[j]] + s[j + 1..];
    assert multiset(s) == multiset(s[..j]) + multiset{x} + multiset(s[j + 1..]);
    if x in multiset(s[..j]) {
      i :| 0 <= i < j && s[..j][i] == x;
    } else {
      assert x in multiset(s[j + 1..]);
      var k :| 0 <= k < |s[j + 1..]| && s[j + 1..][k] == x;
      i := j;
      j := j + 1 + k;
    }
  }

  lemma SortedStrictly<T>(less: (T, T) -> bool, s: seq<T>)
    requires Sorted(less, s) && Distinguished(less, s)
    ensures StrictlySorted(less, s)
  {
  }

  lemma SameLeast<T(!new)>(less: (T, T) -> bool, a: seq<T>, b: seq<T>)
    requires StrictWeakOrder(less) && a != [] && b != []
    requires StrictlySorted(less, a) && StrictlySorted(less, b) && multiset(a) == multiset(b)
    ensures a[0] == b[0]
  {
    var x, y := a[0], b[0];
    MultisetMember(a, b, x);
    MultisetMember(a, b, y);
    var j :| 0 <= j < |b| && b[j] == x;
    var i :| 0 <= i < |a| && a[i] == y;
    assert j == 0 || less(y, x);
    assert i == 0 || less(x, y);
  }

  /** Two strictly sorted arrangements of the same elements are the same list. */
  lemma {:induction false} SortedUnique<T(!new)>(less: (T, T) -> bool, a: seq<T>, b: seq<T>)
    requires StrictWeakOrder(less)
    requires StrictlySorted(less, a) && StrictlySorted(less, b) && multiset(a) == multiset(b)
    ensures a == b
  {
    assert |a| == |multiset(a)| == |multiset(b)| == |b|;
    if a != [] {
      SameLeast(less, a, b);
      assert a == [a[0]] + a[1..] && b == [b[0]] + b[1..];
      assert multiset(a[1..]) == multiset(a) - multiset{a[0]};
      assert multiset(b[1..]) == multiset(b) - multiset{b[0]};
      SortedUnique(less, a[1..], b[1..]);
    }
  }

  /** Sorting a list with distinct keys gives a strictly sorted list. */
  lemma SortStrictly<T(!new)>(less: (T, T) -> bool, s: seq<T>)
    requires StrictWeakOrder(less) && Distinguished(less, s)
    ensures StrictlySorted(less, Sort(less, s))
  {
    SortPermutes(less, s);
    SortSorts(less, s);
    DistinguishedPermutes(less, s, Sort(less, s));
    SortedStrictly(less, Sort(less, s));
  }

  /** The sort forgets the input order. */
  lemma SortForgetsOrder<T(!new)>(less: (T, T) -> bool, s: seq<T>, t: seq<T>)
    requires StrictWeakOrder(less) && Distinguished(less, s) && multiset(s) == multiset(t)
    ensures Sort(less, s) == Sort(less, t)
  {
    DistinguishedPermutes(less, s, t);
    SortStrictly(less, s);
    SortStrictly(less, t);
    SortPermutes(less, s);
    SortPermutes(less, t);
    SortedUnique(less, Sort(less, s), Sort(less, t));
  }

  /** A list that is already strictly sorted is left alone. */
  lemma SortKeepsSorted<T(!new)>(less: (T, T) -> bool, s: seq<T>)
    requires StrictWeakOrder(less) && StrictlySorted(less, s)
    ensures Sort(less, s) == s
  {
    SortStrictly(less, s);
    SortPermutes(less, s);
    SortedUnique(less, Sort(less, s), s);
  }

  /** If either of two permutations has distinct keys, both sort to the same list. */
  lemma SortCanonical<T(!new)>(less: (T, T) -> bool, s: seq<T>, t: seq<T>)
    requires StrictWeakOrder(less) && multiset(s) == multiset(t)
    requires Distinguished(less, Sort(less, s)) || Distinguished(less, Sort(less, t))
    ensures Sort(less, s) == Sort(less, t)
  {
    SortPermutes(less, s);
    SortPermutes(less, t);
    if Distinguished(less, Sort(less, s)) {
      DistinguishedPermutes(less, Sort(less, s), s);
      SortForgetsOrder(less, s, t);
    } else {
      DistinguishedPermutes(less, Sort(less, t), t);
      SortForgetsOrder(less, t, s);
    }
  }

  /** Sorting a sorted list with distinct keys again changes nothing. */
  lemma SortIdempotent<T(!new)>(less: (T, T) -> bool, s: seq<T>)
    requires StrictWeakOrder(less) && Distinguished(less, Sort(less, s))
    ensures StrictlySorted(less, Sort(less, s))
    ensures Sort(less, Sort(less, s)) == Sort(less, s)
  {
    SortSorts(less, s);
    SortedStrictly(less, Sort(less, s));
    SortKeepsSorted(less, Sort(less, s));
  }

  lemma SameMembers<T>(a: seq<T>, b: seq<T>)
    requires multiset(a) == multiset(b)
    ensures |a| == |b|
    ensures forall x :: x in a <==> x in b
  {
    assert |a| == |multiset(a)| == |multiset(b)| == |b|;
    forall x ensures x in a <==> x in b {
      MultisetMember(a, b, x);
    }
  }

  /** A strictly sorted list is determined by its set of members. */
  lemma {:induction false} SortedBySet<T(!new)>(less: (T, T) -> bool, a: seq<T>, b: seq<T>)
    requires StrictWeakOrder(less) && StrictlySorted(less, a) && StrictlySorted(less, b)
    requires forall x :: x in a <==> x in b
    ensures a == b
  {
    assert b == [] || b[0] in b;
    if a != [] {
      assert a[0] in a && a[0] in b;
      assert b[0] in b;
      SameLeastBySet(less, a, b);
      TailMembers(less, a);
      TailMembers(less, b);
      SortedBySet(less, a[1..], b[1..]);
    }
  }

  lemma TailMembers<T(!new)>(less: (T, T) -> bool, a: seq<T>)
    requires StrictWeakOrder(less) && StrictlySorted(less, a) && a != []
    ensures forall x :: x in a[1..] <==> x in a && x != a[0]
  {
    forall i | 0 < i < |a| ensures a[i] != a[0] {
      assert less(a[0], a[i]);
    }
    forall x | x in a && x != a[0] ensures x in a[1..] {
      var i :| 0 <= i < |a| && a[i] == x;
      assert a[1..][i - 1] == x;
    }
  }

  lemma SameLeastBySet<T(!new)>(less: (T, T) -> bool, a: seq<T>, b: seq<T>)
    requires StrictWeakOrder(less) && StrictlySorted(less, a) && StrictlySorted(less, b)
    requires a != [] && b != [] && a[0] in b && b[0] in a
    ensures a[0] == b[0]
  {
    var x, y := a[0], b[0];
    var j :| 0 <= j < |b| && b[j] == x;
    var i :| 0 <= i < |a| && a[i] == y;
    assert j == 0 || less(y, x);
    assert i == 0 || less(x, y);
  }
}
