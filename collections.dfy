/** Sequence operations the survey pipeline is built from: order-preserving
    filtering (`Array.prototype.filter`), de-duplication in first-occurrence
    order (`Array.from(new Set(xs))`) and ascending numeric sort
    (`xs.sort((a, b) => a - b)`). */
module Collections {

  /** The elements of `s` that satisfy `p`, in their original order. */
  function Filter<T(!new)>(p: T -> bool, s: seq<T>): (r: seq<T>)
    ensures |r| <= |s|
    ensures forall x :: x in r <==> x in s && p(x)
  {
    if s == [] then []
    else (if p(s[0]) then [s[0]] else []) + Filter(p, s[1..])
  }

  /** Filtering distributes over concatenation. */
  lemma {:induction false} FilterConcat<T(!new)>(p: T -> bool, a: seq<T>, b: seq<T>)
    ensures Filter(p, a + b) == Filter(p, a) + Filter(p, b)
  {
    if a == [] {
      assert a + b == b;
    } else {
      assert (a + b)[0] == a[0];
      assert (a + b)[1..] == a[1..] + b;
      FilterConcat(p, a[1..], b);
    }
  }

  /** Filtering keeps every copy of an element that passes the test and no
      copy of one that fails it. */
  lemma {:induction false} FilterCounts<T(!new)>(p: T -> bool, s: seq<T>)
    ensures forall x :: multiset(Filter(p, s))[x] == if p(x) then multiset(s)[x] else 0
  {
    if s != [] {
      FilterCounts(p, s[1..]);
      assert s == [s[0]] + s[1..];
    }
  }

  /** Filtering keeps the input order: what a prefix of the input keeps is
      a prefix of what the whole input keeps. */
  lemma FilterPrefix<T(!new)>(p: T -> bool, s: seq<T>, i: nat)
    requires i <= |s|
    ensures Filter(p, s[..i]) <= Filter(p, s)
  {
    assert s == s[..i] + s[i..];
    FilterConcat(p, s[..i], s[i..]);
  }

  /** Filtering twice is filtering once with both tests. */
  lemma {:induction false} FilterTwice<T(!new)>(p: T -> bool, q: T -> bool, both: T -> bool, s: seq<T>)
    requires forall x :: x in s ==> (both(x) <==> p(x) && q(x))
    ensures Filter(q, Filter(p, s)) == Filter(both, s)
  {
    if s != [] {
      FilterTwice(p, q, both, s[1..]);
      FilterConcat(q, if p(s[0]) then [s[0]] else [], Filter(p, s[1..]));
    }
  }

  /** Two tests that agree on every element of `s` keep the same elements. */
  lemma {:induction false} FilterCongruent<T(!new)>(p: T -> bool, q: T -> bool, s: seq<T>)
    requires forall x :: x in s ==> p(x) == q(x)
    ensures Filter(p, s) == Filter(q, s)
  {
    if s != [] {
      FilterCongruent(p, q, s[1..]);
    }
  }

  /** A test that every element passes keeps the whole sequence. */
  lemma {:induction false} FilterKeepsAll<T(!new)>(p: T -> bool, s: seq<T>)
    requires forall x :: x in s ==> p(x)
    ensures Filter(p, s) == s
  {
    if s != [] {
      FilterKeepsAll(p, s[1..]);
    }
  }

  /** A test that no element passes keeps nothing. */
  lemma {:induction false} FilterKeepsNone<T(!new)>(p: T -> bool, s: seq<T>)
    requires forall x :: x in s ==> !p(x)
    ensures Filter(p, s) == []
  {
    if s != [] {
      FilterKeepsNone(p, s[1..]);
    }
  }

  /** When `both` is the disjoint union of `p` and `q` on `s`, the number of
      elements it keeps is the sum of the numbers `p` and `q` keep. */
  lemma {:induction false} FilterCountSplit<T(!new)>(p: T -> bool, q: T -> bool, both: T -> bool, s: seq<T>)
    requires forall x :: x in s ==> (both(x) <==> p(x) || q(x))
    requires forall x :: x in s ==> !(p(x) && q(x))
    ensures |Filter(both, s)| == |Filter(p, s)| + |Filter(q, s)|
  {
    if s != [] {
      FilterCountSplit(p, q, both, s[1..]);
    }
  }

  /** Tests that agree position by position keep equally many elements. */
  lemma {:induction false} FilterCountPointwise<T(!new), U(!new)>(p: T -> bool, q: U -> bool, a: seq<T>, b: seq<U>)
    requires |a| == |b|
    requires forall k :: 0 <= k < |a| ==> p(a[k]) == q(b[k])
    ensures |Filter(p, a)| == |Filter(q, b)|
  {
    if a != [] {
      FilterCountPointwise(p, q, a[1..], b[1..]);
    }
  }

  predicate NoDups<T(==)>(s: seq<T>)
  {
    forall i, j :: 0 <= i < j < |s| ==> s[i] != s[j]
  }

  /** The distinct elements of `s`, each where it first occurs: an element
      is appended the first time it is met, as a JavaScript `Set` does. */
  function Dedup<T(==,!new)>(s: seq<T>): (r: seq<T>)
    ensures NoDups(r)
    ensures forall x :: x in r <==> x in s
    ensures |r| <= |s|
  {
    if s == [] then []
    else
      var init := s[..|s| - 1];
      var d := Dedup(init);
      assert s == init + [s[|s| - 1]];
      if s[|s| - 1] in d then d else d + [s[|s| - 1]]
  }

  /** The position of the first occurrence of `x` in `s`. */
  function FirstIndex<T(==)>(s: seq<T>, x: T): (i: nat)
    requires x in s
    ensures i < |s| && s[i] == x && x !in s[..i]
  {
    if s[0] == x then 0
    else
      var j := FirstIndex(s[1..], x);
      assert s[..j + 1] == [s[0]] + s[1..][..j];
      j + 1
  }

  lemma FirstIndexUnique<T>(s: seq<T>, x: T, i: nat)
    requires i < |s| && s[i] == x && x !in s[..i]
    ensures FirstIndex(s, x) == i
  {
    var k := FirstIndex(s, x);
    assert forall j :: 0 <= j < i ==> s[..i][j] == s[j];
    assert forall j :: 0 <= j < k ==> s[..k][j] == s[j];
  }

  /** Where an element first occurs in `s` does not depend on what follows. */
  lemma FirstIndexInPrefix<T>(s: seq<T>, m: nat, x: T)
    requires m <= |s| && x in s[..m]
    ensures FirstIndex(s, x) == FirstIndex(s[..m], x)
  {
    var k := FirstIndex(s[..m], x);
    assert s[..m][..k] == s[..k];
    FirstIndexUnique(s, x, k);
  }

  /** `Dedup` lists the distinct elements in the order of their first
      occurrence in the input. */
  lemma {:induction false} DedupFirstOccurrenceOrder<T(!new)>(s: seq<T>)
    ensures forall i, j :: 0 <= i < j < |Dedup(s)| ==>
              FirstIndex(s, Dedup(s)[i]) < FirstIndex(s, Dedup(s)[j])
  {
    if s != [] {
      var n := |s|;
      var init := s[..n - 1];
      var d := Dedup(init);
      assert s == init + [s[n - 1]];
      DedupFirstOccurrenceOrder(init);
      forall k | 0 <= k < |d|
        ensures FirstIndex(s, d[k]) == FirstIndex(init, d[k]) < n - 1
      {
        FirstIndexInPrefix(s, n - 1, d[k]);
      }
      if s[n - 1] !in d {
        assert s[..n - 1] == init;
        FirstIndexUnique(s, s[n - 1], n - 1);
      }
    }
  }

  predicate Ascending(s: seq<real>)
  {
    forall i, j :: 0 <= i < j < |s| ==> s[i] <= s[j]
  }

  predicate StrictlyAscending(s: seq<real>)
  {
    forall i, j :: 0 <= i < j < |s| ==> s[i] < s[j]
  }

  /** Puts `x` into the sequence `s` before the first element not below it. */
  function Insert(x: real, s: seq<real>): (r: seq<real>)
    ensures multiset(r) == multiset(s) + multiset{x}
  {
    if s == [] || x <= s[0] then [x] + s
    else
      assert s == [s[0]] + s[1..];
      [s[0]] + Insert(x, s[1..])
  }

  lemma {:induction false} InsertMembers(x: real, s: seq<real>)
    ensures forall y :: y in Insert(x, s) <==> y == x || y in s
  {
    if s != [] && !(x <= s[0]) {
      InsertMembers(x, s[1..]);
      assert s == [s[0]] + s[1..];
    }
  }

  /** Inserting into an ascending sequence keeps it ascending. */
  lemma {:induction false} InsertAscending(x: real, s: seq<real>)
    requires Ascending(s)
    ensures Ascending(Insert(x, s))
  {
    if s != [] && !(x <= s[0]) {
      var t := Insert(x, s[1..]);
      var r := [s[0]] + t;
      assert Ascending(s[1..]) by {
        assert forall k :: 0 <= k < |s| - 1 ==> s[1..][k] == s[k + 1];
      }
      InsertAscending(x, s[1..]);
      InsertMembers(x, s[1..]);
      forall y | y in t
        ensures s[0] <= y
      {
        if y != x {
          var k :| 0 <= k < |s[1..]| && s[1..][k] == y;
          assert s[k + 1] == y;
        }
      }
      forall i, j | 0 <= i < j < |r|
        ensures r[i] <= r[j]
      {
        assert r[j] == t[j - 1];
        if i == 0 {
          assert t[j - 1] in t;
        } else {
          assert r[i] == t[i - 1];
        }
      }
    }
  }

  /** The elements of `s` in ascending numeric order (insertion sort). */
  function Sort(s: seq<real>): (r: seq<real>)
    ensures multiset(r) == multiset(s)
  {
    if s == [] then []
    else
      assert s == [s[0]] + s[1..];
      Insert(s[0], Sort(s[1..]))
  }

  lemma {:induction false} SortAscending(s: seq<real>)
    ensures Ascending(Sort(s))
  {
    if s != [] {
      SortAscending(s[1..]);
      InsertAscending(s[0], Sort(s[1..]));
    }
  }

  lemma NoDupsTail<T>(s: seq<T>)
    requires s != [] && NoDups(s)
    ensures s[0] !in s[1..] && NoDups(s[1..])
  {
    assert forall j :: 0 <= j < |s| - 1 ==> s[1..][j] == s[j + 1];
  }

  lemma {:induction false} InsertFresh(x: real, s: seq<real>)
    requires NoDups(s) && x !in s
    ensures NoDups(Insert(x, s))
  {
    if s != [] && !(x <= s[0]) {
      NoDupsTail(s);
      InsertFresh(x, s[1..]);
      InsertMembers(x, s[1..]);
      var t := Insert(x, s[1..]);
      var r := [s[0]] + t;
      forall i, j | 0 <= i < j < |r|
        ensures r[i] != r[j]
      {
        assert r[j] == t[j - 1];
        if i == 0 {
          assert t[j - 1] in t;
        } else {
          assert r[i] == t[i - 1];
        }
      }
    }
  }

  /** Sorting a sequence without repetitions gives a strictly ascending one. */
  lemma {:induction false} SortDistinct(s: seq<real>)
    requires NoDups(s)
    ensures StrictlyAscending(Sort(s))
    ensures forall x :: x in Sort(s) <==> x in s
  {
    if s != [] {
      NoDupsTail(s);
      SortDistinct(s[1..]);
      InsertFresh(s[0], Sort(s[1..]));
      InsertMembers(s[0], Sort(s[1..]));
    }
    SortAscending(s);
    forall x ensures x in Sort(s) <==> x in s {
      assert x in Sort(s) <==> x in multiset(Sort(s));
    }
  }
}
