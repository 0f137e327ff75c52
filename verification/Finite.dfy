/** Counting facts about finite sets and multisets. */
module Finite {
  ghost function Pick<T>(s: set<T>): (x: T)
    requires s != {}
    ensures x in s
  {
    var x :| x in s;
    x
  }

  /** The first `n` elements of a sequence as a multiset. */
  ghost function Bag<T>(s: seq<T>, n: nat): multiset<T>
    requires n <= |s|
  {
    if n == 0 then multiset{} else Bag(s, n - 1) + multiset{s[n - 1]}
  }

  lemma {:induction false} BagOfPrefix<T>(s: seq<T>, n: nat)
    requires n <= |s|
    ensures Bag(s, n) == multiset(s[..n])
  {
    if n > 0 {
      BagOfPrefix(s, n - 1);
      assert s[..n] == s[..n - 1] + [s[n - 1]];
    }
  }

  lemma NextBag<T>(s: seq<T>, n: nat)
    requires n < |s|
    ensures Bag(s, n + 1) == Bag(s, n) + multiset{s[n]}
    ensures Bag(s, 0) == multiset{}
  {
  }

  lemma WholeBag<T>(s: seq<T>)
    ensures Bag(s, |s|) == multiset(s)
  {
    BagOfPrefix(s, |s|);
    assert s[..|s|] == s;
  }

  lemma FirstIsMember<T>(s: seq<T>)
    ensures s == [] || s[0] in s
  {
  }

  lemma NoMembers<T>(s: seq<T>)
    requires forall x :: x !in s
    ensures s == []
  {
    FirstIsMember(s);
  }

  lemma SubsetSize<T>(small: set<T>, big: set<T>)
    requires small <= big
    ensures |small| <= |big|
  {
    assert big == small + (big - small);
  }

  lemma SizeWith<T>(s: set<T>, x: T)
    ensures |s + {x}| == |s| + (if x in s then 0 else 1)
    ensures s + {} == s
  {
    if x in s {
      assert s + {x} == s;
    }
  }

  /** An injective sequence maps a set of indices to a set of the same size. */
  lemma {:induction false} InjectiveImage<T>(s: seq<T>, indices: set<int>)
    requires forall i :: i in indices ==> 0 <= i < |s|
    requires forall i, j :: i in indices && j in indices && i != j ==> s[i] != s[j]
    ensures |set i | i in indices :: s[i]| == |indices|
  {
    if indices != {} {
      var i := Pick(indices);
      InjectiveImage(s, indices - {i});
      assert (set j | j in indices :: s[j]) == (set j | j in indices - {i} :: s[j]) + {s[i]};
    }
  }

  function MapSeq<T, U>(f: T -> U, s: seq<T>): (r: seq<U>)
    ensures |r| == |s| && forall i :: 0 <= i < |s| ==> r[i] == f(s[i])
  {
    seq(|s|, i requires 0 <= i < |s| => f(s[i]))
  }

  lemma MapSeqAppend<T, U>(f: T -> U, s: seq<T>, t: seq<T>)
    ensures MapSeq(f, s + t) == MapSeq(f, s) + MapSeq(f, t)
  {
  }

  /** Mapping keeps inclusion of multisets. */
  lemma {:induction false} MapSubmultiset<T, U>(f: T -> U, s: seq<T>, t: seq<T>)
    requires multiset(s) <= multiset(t)
    ensures multiset(MapSeq(f, s)) <= multiset(MapSeq(f, t))
  {
    if s != [] {
      assert s == [s[0]] + s[1..];
      assert s[0] in multiset(t);
      var k :| 0 <= k < |t| && t[k] == s[0];
      var rest := t[..k] + t[k + 1..];
      assert t == t[..k] + [t[k]] + t[k + 1..];
      assert multiset(t) == multiset(rest) + multiset{s[0]};
      assert multiset(s) == multiset{s[0]} + multiset(s[1..]);
      forall x ensures multiset(s[1..])[x] <= multiset(rest)[x] {
        assert multiset(s)[x] <= multiset(t)[x];
      }
      MapSubmultiset(f, s[1..], rest);
      MapSeqAppend(f, [s[0]], s[1..]);
      MapSeqAppend(f, t[..k] + [t[k]], t[k + 1..]);
      MapSeqAppend(f, t[..k], [t[k]]);
      MapSeqAppend(f, t[..k], t[k + 1..]);
    }
  }

  // ----- Counting the elements with a property

  function CountIf<T>(s: seq<T>, p: T -> bool): (n: nat)
    ensures n <= |s|
  {
    if s == [] then 0 else (if p(s[0]) then 1 else 0) + CountIf(s[1..], p)
  }

  lemma {:induction false} CountIfAppend<T>(s: seq<T>, t: seq<T>, p: T -> bool)
    ensures CountIf(s + t, p) == CountIf(s, p) + CountIf(t, p)
  {
    if s == [] {
      assert s + t == t;
    } else {
      assert (s + t)[1..] == s[1..] + t;
      CountIfAppend(s[1..], t, p);
    }
  }

  lemma CountIfWithout<T>(s: seq<T>, k: nat, p: T -> bool)
    requires k < |s|
    ensures CountIf(s, p) == CountIf(s[..k] + s[k + 1..], p) + (if p(s[k]) then 1 else 0)
  {
    var before, after := s[..k], s[k + 1..];
    assert s == before + s[k..];
    assert s[k..][0] == s[k] && s[k..][1..] == after;
    CountIfAppend(before, s[k..], p);
    CountIfAppend(before, after, p);
  }

  lemma BagWithout<T>(s: seq<T>, k: nat)
    requires k < |s|
    ensures multiset(s[..k] + s[k + 1..]) == multiset(s) - multiset{s[k]}
  {
    assert s == s[..k] + [s[k]] + s[k + 1..];
  }

  lemma TakeOne<T>(s: seq<T>, t: seq<T>) returns (k: nat)
    requires multiset(s) == multiset(t) && s != []
    ensures k < |t| && t[k] == s[0]
    ensures multiset(s[1..]) == multiset(t[..k] + t[k + 1..])
  {
    assert s[0] in multiset(s) && s[0] in multiset(t);
    k :| 0 <= k < |t| && t[k] == s[0];
    BagWithout(t, k);
    BagTail(s);
  }

  lemma BagTail<T>(s: seq<T>)
    requires s != []
    ensures multiset(s[1..]) == multiset(s) - multiset{s[0]}
  {
    assert s == [s[0]] + s[1..];
  }

  lemma {:induction false} CountIfPermuted<T>(s: seq<T>, t: seq<T>, p: T -> bool)
    requires multiset(s) == multiset(t)
    ensures CountIf(s, p) == CountIf(t, p)
  {
    if s == [] {
      assert |multiset(t)| == |t|;
    } else {
      var k := TakeOne(s, t);
      var rest := t[..k] + t[k + 1..];
      CountIfWithout(t, k, p);
      CountIfPermuted(s[1..], rest, p);
    }
  }

  lemma {:induction false} CountIfAll<T>(s: seq<T>, p: T -> bool, all: bool)
    requires forall i :: 0 <= i < |s| ==> p(s[i]) == all
    ensures CountIf(s, p) == if all then |s| else 0
  {
    if s != [] {
      CountIfAll(s[1..], p, all);
    }
  }

  lemma {:induction false} CountIfSame<T>(s: seq<T>, t: seq<T>, p: T -> bool)
    requires |s| == |t| && forall i :: 0 <= i < |s| ==> p(s[i]) == p(t[i])
    ensures CountIf(s, p) == CountIf(t, p)
  {
    if s != [] {
      CountIfSame(s[1..], t[1..], p);
    }
  }

  lemma {:induction false} CountIfNone<T>(s: seq<T>, p: T -> bool)
    requires forall i :: 0 <= i < |s| ==> !p(s[i])
    ensures CountIf(s, p) == 0
  {
    if s != [] {
      CountIfNone(s[1..], p);
    }
  }

  lemma {:induction false} CountIfAtMostOne<T>(s: seq<T>, p: T -> bool)
    requires forall i, j :: 0 <= i < j < |s| ==> !(p(s[i]) && p(s[j]))
    ensures CountIf(s, p) <= 1
  {
    if s != [] {
      if p(s[0]) {
        CountIfNone(s[1..], p);
      } else {
        CountIfAtMostOne(s[1..], p);
      }
    }
  }
}
