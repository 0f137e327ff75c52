/** Sorting with a comparison function. Callers rely on the contract alone, which any
    sorting algorithm, stable or not, satisfies. */
module Sorting {
  ghost predicate WeakOrder<T(!new)>(less: (T, T) -> bool) {
    && (forall x, y :: less(x, y) ==> !less(y, x))
    && (forall x, y, z :: !less(y, x) && !less(z, y) ==> !less(z, x))
  }

  ghost predicate Sorted<T>(s: seq<T>, less: (T, T) -> bool) {
    forall i, j :: 0 <= i < j < |s| ==> !less(s[j], s[i])
  }

  method SortBy<T(!new)>(s: seq<T>, less: (T, T) -> bool) returns (sorted: seq<T>)
    requires WeakOrder(less)
    ensures multiset(sorted) == multiset(s)
    ensures Sorted(sorted, less)
  {
    sorted := [];
    for n := 0 to |s|
      invariant multiset(sorted) == multiset(s[..n])
      invariant Sorted(sorted, less)
    {
      sorted := Insert(sorted, s[n], less);
      assert s[..n + 1] == s[..n] + [s[n]];
    }
    assert s[..|s|] == s;
  }

  method Insert<T(!new)>(s: seq<T>, x: T, less: (T, T) -> bool) returns (inserted: seq<T>)
    requires WeakOrder(less) && Sorted(s, less)
    ensures multiset(inserted) == multiset(s) + multiset{x}
    ensures Sorted(inserted, less)
  {
    var n := |s|;
    while n > 0 && less(x, s[n - 1])
      invariant 0 <= n <= |s|
      invariant forall j :: n <= j < |s| ==> less(x, s[j])
    {
      n := n - 1;
    }
    InsertKeepsOrder(s, n, x, less);
    inserted := s[..n] + [x] + s[n..];
    assert s == s[..n] + s[n..];
  }

  lemma InsertKeepsOrder<T(!new)>(s: seq<T>, n: nat, x: T, less: (T, T) -> bool)
    requires WeakOrder(less) && Sorted(s, less) && n <= |s|
    requires n == 0 || !less(x, s[n - 1])
    requires forall j :: n <= j < |s| ==> less(x, s[j])
    ensures Sorted(s[..n] + [x] + s[n..], less)
  {
    var r := s[..n] + [x] + s[n..];
    forall i, j | 0 <= i < j < |r| ensures !less(r[j], r[i]) {
      if j < n {
        assert r[i] == s[i] && r[j] == s[j];
      } else if j == n {
        assert r[i] == s[i] && r[j] == x;
        assert i == n - 1 || !less(s[n - 1], s[i]);
      } else if i < n {
        assert r[i] == s[i] && r[j] == s[j - 1];
      } else if i == n {
        assert r[i] == x && r[j] == s[j - 1];
      } else {
        assert r[i] == s[i - 1] && r[j] == s[j - 1];
      }
    }
  }

  lemma {:induction false} DistinctPermutation<T>(s: seq<T>, t: seq<T>)
    requires multiset(s) == multiset(t)
    requires forall i, j :: 0 <= i < j < |s| ==> s[i] != s[j]
    ensures forall i, j :: 0 <= i < j < |t| ==> t[i] != t[j]
  {
    forall i, j | 0 <= i < j < |t| ensures t[i] != t[j] {
      TwoCopies(t, i, j);
      Multiplicity(s, t[i]);
    }
  }

  lemma TwoCopies<T>(t: seq<T>, i: nat, j: nat)
    requires i < j < |t|
    ensures t[i] == t[j] ==> multiset(t)[t[i]] >= 2
  {
    assert t == t[..i] + [t[i]] + t[i + 1..j] + [t[j]] + t[j + 1..];
  }

  lemma {:induction false} Multiplicity<T>(s: seq<T>, x: T)
    requires forall i, j :: 0 <= i < j < |s| ==> s[i] != s[j]
    ensures multiset(s)[x] <= 1
  {
    if s != [] {
      assert s == [s[0]] + s[1..];
      Multiplicity(s[1..], x);
      assert s[0] !in s[1..];
      assert s[0] !in multiset(s[1..]);
    }
  }

  lemma SortedMembers<T>(s: seq<T>, t: seq<T>)
    requires multiset(s) == multiset(t)
    ensures |s| == |t|
    ensures forall x :: x in s <==> x in t
  {
    assert |multiset(s)| == |s| && |multiset(t)| == |t|;
    forall x ensures x in s <==> x in t {
      assert x in multiset(s) <==> x in s;
      assert x in multiset(t) <==> x in t;
    }
  }
}
