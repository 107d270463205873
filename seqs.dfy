/** Generic sequence helpers used throughout the job-matching model. */
module Seqs {

  datatype Option<T> = None | Some(value: T)

  /** The elements of `s` that satisfy `p`, in their original order
      (a Python list comprehension with an `if` clause). */
  function Filter<T>(p: T -> bool, s: seq<T>): (r: seq<T>)
    ensures |r| <= |s|
  {
    if s == [] then []
    else Filter(p, s[..|s| - 1]) + (if p(s[|s| - 1]) then [s[|s| - 1]] else [])
  }

  /** The multiset of a non-empty sequence: its front, and its last element. */
  lemma MultisetSnoc<T>(s: seq<T>)
    requires s != []
    ensures multiset(s) == multiset(s[..|s| - 1]) + multiset{s[|s| - 1]}
  {
    assert s == s[..|s| - 1] + [s[|s| - 1]];
  }

  /** Filtering a non-empty sequence: its front, then its last element. */
  lemma FilterSnoc<T>(p: T -> bool, s: seq<T>)
    requires s != []
    ensures Filter(p, s) == Filter(p, s[..|s| - 1]) + Filter(p, [s[|s| - 1]])
  {
    assert s == s[..|s| - 1] + [s[|s| - 1]];
    FilterAppend(p, s[..|s| - 1], [s[|s| - 1]]);
  }

  /** Filtering a suffix, cut in two. */
  lemma FilterAt<T>(p: T -> bool, s: seq<T>, i: nat, j: nat)
    requires i <= j <= |s|
    ensures Filter(p, s[i..]) == Filter(p, s[i..j]) + Filter(p, s[j..])
  {
    assert s[i..] == s[i..j] + s[j..];
    FilterAppend(p, s[i..j], s[j..]);
  }

  /** Slices of a suffix are slices of the whole. */
  lemma SliceOfSuffix<T>(s: seq<T>, i: nat, n: nat)
    requires i + n <= |s|
    ensures s[i..][..n] == s[i..i + n] && s[i..][n..] == s[i + n..]
  {
  }

  /** What a filter keeps are entries of the input that pass the test, and every
      entry that passes is kept. */
  lemma {:induction false} FilterMembers<T>(p: T -> bool, s: seq<T>)
    ensures forall k :: 0 <= k < |Filter(p, s)| ==> Filter(p, s)[k] in s && p(Filter(p, s)[k])
    ensures forall k :: 0 <= k < |s| && p(s[k]) ==> s[k] in Filter(p, s)
  {
    if s != [] {
      var s' := s[..|s| - 1];
      var last := s[|s| - 1];
      var r', r := Filter(p, s'), Filter(p, s);
      FilterMembers(p, s');
      assert r == r' + (if p(last) then [last] else []);
      forall k | 0 <= k < |r| ensures r[k] in s && p(r[k]) {
        if k < |r'| {
          assert r[k] == r'[k];
          assert r'[k] in s';
        }
      }
      forall k | 0 <= k < |s| && p(s[k]) ensures s[k] in r {
        if k < |s'| {
          assert s[k] == s'[k];
          assert s'[k] in r';
        } else {
          assert r[|r| - 1] == last;
        }
      }
    }
  }

  /** Filtering distributes over concatenation. */
  lemma {:induction false} FilterAppend<T>(p: T -> bool, a: seq<T>, b: seq<T>)
    ensures Filter(p, a + b) == Filter(p, a) + Filter(p, b)
  {
    if b == [] {
      assert a + b == a;
    } else {
      var b' := b[..|b| - 1];
      assert (a + b)[..|a + b| - 1] == a + b';
      assert (a + b)[|a + b| - 1] == b[|b| - 1];
      FilterAppend(p, a, b');
    }
  }

  lemma FilterSingleton<T>(p: T -> bool, y: T)
    ensures Filter(p, [y]) == if p(y) then [y] else []
  {
    assert [y][..0] == [];
  }

  /** Nothing passes, nothing is kept. */
  lemma {:induction false} FilterNone<T>(p: T -> bool, s: seq<T>)
    requires forall x :: x in s ==> !p(x)
    ensures Filter(p, s) == []
  {
    if s != [] {
      FilterNone(p, s[..|s| - 1]);
    }
  }

  /** Filtering keeps the multiset of the kept elements; in particular it never duplicates one. */
  lemma {:induction false} FilterMultiset<T>(p: T -> bool, s: seq<T>, x: T)
    ensures multiset(Filter(p, s))[x] == if p(x) then multiset(s)[x] else 0
  {
    if s != [] {
      var s' := s[..|s| - 1];
      assert s == s' + [s[|s| - 1]];
      FilterMultiset(p, s', x);
    }
  }

  predicate Distinct<T(==)>(s: seq<T>) {
    forall i, j :: 0 <= i < j < |s| ==> s[i] != s[j]
  }

  /** No entry at an index in `[lo, hi)` repeats later in `s`. */
  predicate UniqueFrom<T(==)>(s: seq<T>, lo: nat, hi: nat) {
    forall i, j :: lo <= i < hi && i < j < |s| ==> s[i] != s[j]
  }

  lemma UniqueFromJoin<T>(s: seq<T>, a: nat, b: nat, c: nat)
    requires UniqueFrom(s, a, b) && UniqueFrom(s, b, c)
    ensures UniqueFrom(s, a, c)
  {
  }

  lemma UniqueFromAll<T>(s: seq<T>)
    requires UniqueFrom(s, 0, |s|)
    ensures Distinct(s)
  {
  }

  /** A filter of a duplicate-free sequence is duplicate-free. */
  lemma {:induction false} FilterDistinct<T>(p: T -> bool, s: seq<T>)
    requires Distinct(s)
    ensures Distinct(Filter(p, s))
  {
    if s != [] {
      var s' := s[..|s| - 1];
      assert s == s' + [s[|s| - 1]];
      assert s[|s| - 1] !in s';
      FilterDistinct(p, s');
      FilterMembers(p, s');
    }
  }

  /** The set of elements of a sequence has at most as many members as the sequence has entries. */
  lemma {:induction false} SetOfSeqCard<T>(s: seq<T>)
    ensures |set x | x in s| <= |s|
    ensures Distinct(s) ==> |set x | x in s| == |s|
  {
    if s != [] {
      var s' := s[..|s| - 1];
      var last := s[|s| - 1];
      assert s == s' + [last];
      assert (set x | x in s) == (set x | x in s') + {last};
      SetOfSeqCard(s');
      if Distinct(s) {
        assert Distinct(s');
        assert last !in (set x | x in s');
      }
    }
  }

  /** A subset is no larger than its superset. */
  lemma {:induction false} SubsetCard<T>(a: set<T>, b: set<T>)
    requires a <= b
    ensures |a| <= |b|
    decreases a
  {
    if a != {} {
      var x :| x in a;
      SubsetCard(a - {x}, b - {x});
    }
  }

  function Sum(s: seq<int>): int {
    if s == [] then 0 else Sum(s[..|s| - 1]) + s[|s| - 1]
  }

  function Min(s: seq<int>): (m: int)
    requires s != []
    ensures m in s && forall k :: 0 <= k < |s| ==> m <= s[k]
  {
    if |s| == 1 then s[0]
    else
      var m' := Min(s[..|s| - 1]);
      assert s == s[..|s| - 1] + [s[|s| - 1]];
      if s[|s| - 1] < m' then s[|s| - 1] else m'
  }

  function Max(s: seq<int>): (m: int)
    requires s != []
    ensures m in s && forall k :: 0 <= k < |s| ==> s[k] <= m
  {
    if |s| == 1 then s[0]
    else
      var m' := Max(s[..|s| - 1]);
      assert s == s[..|s| - 1] + [s[|s| - 1]];
      if s[|s| - 1] > m' then s[|s| - 1] else m'
  }

  /** A sum lies between |s| times the least and |s| times the greatest entry. */
  lemma {:induction false} SumBounds(s: seq<int>, lo: int, hi: int)
    requires forall k :: 0 <= k < |s| ==> lo <= s[k] <= hi
    ensures |s| * lo <= Sum(s) <= |s| * hi
  {
    if s != [] {
      SumBounds(s[..|s| - 1], lo, hi);
    }
  }

  /** A slice that reads `a + b` reads `a` and then `b`. */
  lemma SliceHalves<T>(s: seq<T>, i: nat, a: seq<T>, b: seq<T>)
    requires i + |a| + |b| <= |s| && s[i..i + |a| + |b|] == a + b
    ensures s[i..i + |a|] == a && s[i + |a|..i + |a| + |b|] == b
  {
    assert forall k :: 0 <= k < |a| ==> s[i..i + |a|][k] == s[i..i + |a| + |b|][k] == a[k];
    assert forall k :: 0 <= k < |b| ==> s[i + |a|..i + |a| + |b|][k] == s[i..i + |a| + |b|][|a| + k] == b[k];
  }

  /** Where the five parts of `a + b + c + d + e` sit. */
  lemma ConcatParts<T>(s: seq<T>, a: seq<T>, b: seq<T>, c: seq<T>, d: seq<T>, e: seq<T>)
    requires s == a + b + c + d + e
    ensures var i, j, k, l := |a|, |a| + |b|, |a| + |b| + |c|, |a| + |b| + |c| + |d|;
      |s| == l + |e| && s[..i] == a && s[i..j] == b && s[j..k] == c && s[k..l] == d && s[l..|s|] == e
  {
    var i, j, k, l := |a|, |a| + |b|, |a| + |b| + |c|, |a| + |b| + |c| + |d|;
    assert s[..i] == a;
    assert s[i..j] == b;
    assert s[j..k] == c;
    assert s[k..l] == d;
    assert s[l..|s|] == e;
  }
}
