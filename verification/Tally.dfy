/** Counting three kinds of keyed items in one map. */
module Tally {
  datatype Counts = Counts(labels: nat, predictions: nat, matches: nat)

  /** `byType` counts the keys of three multisets, and has an entry for each key they hold. */
  ghost predicate Tallied<K(!new)>(byType: map<K, Counts>, labels: multiset<K>, predictions: multiset<K>, matches: multiset<K>) {
    && (forall k :: k in byType ==> byType[k] == Counts(labels[k], predictions[k], matches[k]))
    && (forall k :: k in labels || k in predictions || k in matches ==> k in byType)
  }

  function EnsureKey<K(!new)>(byType: map<K, Counts>, key: K): map<K, Counts> {
    if key in byType then byType else byType[key := Counts(0, 0, 0)]
  }

  function CountLabel<K(!new)>(byType: map<K, Counts>, key: K): map<K, Counts> {
    var b := EnsureKey(byType, key);
    b[key := b[key].(labels := b[key].labels + 1)]
  }

  function CountPrediction<K(!new)>(byType: map<K, Counts>, key: K): map<K, Counts> {
    var b := EnsureKey(byType, key);
    b[key := b[key].(predictions := b[key].predictions + 1)]
  }

  function CountMatch<K(!new)>(byType: map<K, Counts>, key: K): map<K, Counts> {
    var b := EnsureKey(byType, key);
    b[key := b[key].(matches := b[key].matches + 1)]
  }

  lemma TallyEnsured<K(!new)>(byType: map<K, Counts>, key: K, ls: multiset<K>, ps: multiset<K>, ms: multiset<K>)
    requires Tallied(byType, ls, ps, ms)
    ensures Tallied(EnsureKey(byType, key), ls, ps, ms)
  {
  }

  lemma TallyLabel<K(!new)>(byType: map<K, Counts>, key: K, ls: multiset<K>, ps: multiset<K>, ms: multiset<K>)
    requires Tallied(byType, ls, ps, ms)
    ensures Tallied(CountLabel(byType, key), ls + multiset{key}, ps, ms)
  {
    TallyEnsured(byType, key, ls, ps, ms);
  }

  lemma TallyPrediction<K(!new)>(byType: map<K, Counts>, key: K, ls: multiset<K>, ps: multiset<K>, ms: multiset<K>)
    requires Tallied(byType, ls, ps, ms)
    ensures Tallied(CountPrediction(byType, key), ls, ps + multiset{key}, ms)
  {
    TallyEnsured(byType, key, ls, ps, ms);
  }

  lemma TallyMatch<K(!new)>(byType: map<K, Counts>, key: K, ls: multiset<K>, ps: multiset<K>, ms: multiset<K>)
    requires Tallied(byType, ls, ps, ms)
    ensures Tallied(CountMatch(byType, key), ls, ps, ms + multiset{key})
  {
    TallyEnsured(byType, key, ls, ps, ms);
  }

  lemma CountingKeys<K(!new)>(byType: map<K, Counts>, key: K)
    ensures EnsureKey(byType, key).Keys == byType.Keys + {key}
    ensures CountLabel(byType, key).Keys == byType.Keys + {key}
    ensures CountPrediction(byType, key).Keys == byType.Keys + {key}
    ensures CountMatch(byType, key).Keys == byType.Keys + {key}
  {
  }

  lemma EmptyTally<K(!new)>()
    ensures Tallied<K>(map[], multiset{}, multiset{}, multiset{})
  {
  }

  /** What a tally of three sequences says about its key set. */
  lemma TallyCovers<K(!new)>(byType: map<K, Counts>, keys: seq<K>, ls: seq<K>, ps: seq<K>, ms: seq<K>)
    requires Tallied(byType, multiset(ls), multiset(ps), multiset(ms))
    requires forall k :: k in byType ==> k in keys
    ensures forall k :: k in ls || k in ps || k in ms ==> k in byType
    ensures forall k :: k in ls || k in ps || k in ms ==> exists i :: 0 <= i < |keys| && keys[i] == k
  {
    forall k | k in ls || k in ps || k in ms ensures k in byType {
      assert k in multiset(ls) || k in multiset(ps) || k in multiset(ms);
    }
  }

  /** How many entries of `s` are among the first `n` of `kinds`. */
  ghost function Occurrences<K(!new)>(s: seq<K>, kinds: seq<K>, n: nat): nat
    requires n <= |kinds|
  {
    if n == 0 then 0 else Occurrences(s, kinds, n - 1) + multiset(s)[kinds[n - 1]]
  }

  lemma {:induction false} EveryKeyCounted<K(!new)>(s: seq<K>, kinds: seq<K>)
    requires forall i, j :: 0 <= i < j < |kinds| ==> kinds[i] != kinds[j]
    requires forall k :: k in s ==> k in kinds
    ensures Occurrences(s, kinds, |kinds|) == |s|
  {
    if s == [] {
      NoOccurrences(kinds, |kinds|);
    } else {
      EveryKeyCounted(s[1..], kinds);
      assert s == [s[0]] + s[1..];
      OneMoreOccurrence(s, kinds, |kinds|);
      assert s[0] in kinds && kinds[..|kinds|] == kinds;
    }
  }

  lemma {:induction false} NoOccurrences<K(!new)>(kinds: seq<K>, n: nat)
    requires n <= |kinds|
    ensures Occurrences<K>([], kinds, n) == 0
  {
    if n > 0 {
      NoOccurrences(kinds, n - 1);
    }
  }

  lemma {:induction false} OneMoreOccurrence<K(!new)>(s: seq<K>, kinds: seq<K>, n: nat)
    requires s != [] && n <= |kinds|
    requires forall i, j :: 0 <= i < j < |kinds| ==> kinds[i] != kinds[j]
    ensures Occurrences(s, kinds, n) == Occurrences(s[1..], kinds, n) + (if s[0] in kinds[..n] then 1 else 0)
  {
    if n > 0 {
      OneMoreOccurrence(s, kinds, n - 1);
      assert s == [s[0]] + s[1..];
      assert multiset(s)[kinds[n - 1]] == multiset(s[1..])[kinds[n - 1]] + (if kinds[n - 1] == s[0] then 1 else 0);
      assert kinds[..n] == kinds[..n - 1] + [kinds[n - 1]];
      assert kinds[n - 1] !in kinds[..n - 1];
    }
  }

  /** The keys of a map, in some order. */
  method ListKeys<K(!new)>(entries: map<K, Counts>) returns (keys: seq<K>)
    ensures forall k :: k in keys <==> k in entries
    ensures forall i, j :: 0 <= i < j < |keys| ==> keys[i] != keys[j]
  {
    var remaining := entries.Keys;
    keys := [];
    while remaining != {}
      invariant remaining <= entries.Keys
      invariant forall k :: k in keys <==> k in entries.Keys - remaining
      invariant forall i, j :: 0 <= i < j < |keys| ==> keys[i] != keys[j]
      decreases remaining
    {
      var k :| k in remaining;
      remaining := remaining - {k};
      assert k !in keys;
      keys := keys + [k];
    }
  }
}
