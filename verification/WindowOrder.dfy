/** Arranging review windows: by start, then by score, numbered in that order. */
module WindowOrder {
  import opened Finite
  import opened Sorting
  import opened Windows

  predicate StartsFirst(a: Window, b: Window) {
    if a.start == b.start then a.score > b.score else a.start < b.start
  }

  lemma StartsFirstIsWeakOrder()
    ensures WeakOrder(StartsFirst)
  {
  }

  function Numbered(order: seq<Window>): (numbered: seq<Window>)
    ensures |numbered| == |order|
    ensures forall i :: 0 <= i < |order| ==> numbered[i] == order[i].(id := WindowId(order[i].kind, i + 1))
  {
    seq(|order|, i requires 0 <= i < |order| => order[i].(id := WindowId(order[i].kind, i + 1)))
  }

  /** `order` holds the windows of `windows`, by start and then by falling score. */
  ghost predicate InOrder(order: seq<Window>, windows: seq<Window>) {
    multiset(order) == multiset(windows) && Sorted(order, StartsFirst)
  }

  ghost predicate Arranged(result: seq<Window>, windows: seq<Window>) {
    exists order :: InOrder(order, windows) && result == Numbered(order)
  }

  method SortReviewWindows(windows: array<Window>)
    modifies windows
    ensures Arranged(windows[..], old(windows[..]))
  {
    StartsFirstIsWeakOrder();
    var sorted := SortBy(windows[..], StartsFirst);
    assert InOrder(sorted, old(windows[..]));
    SortedMembers(sorted, windows[..]);
    hide *;
    for index := 0 to windows.Length
      invariant forall i :: 0 <= i < index ==> windows[i] == sorted[i].(id := WindowId(sorted[i].kind, i + 1))
    {
      windows[index] := sorted[index].(id := WindowId(sorted[index].kind, index + 1));
    }
    IsArranged(windows[..], sorted, old(windows[..]));
  }

  method ArrangeAll(windows: seq<Window>) returns (result: seq<Window>)
    ensures Arranged(result, windows)
  {
    hide Arranged;
    var a := new Window[|windows|](i requires 0 <= i < |windows| => windows[i]);
    assert a[..] == windows;
    SortReviewWindows(a);
    result := a[..];
  }

  lemma IsArranged(result: seq<Window>, order: seq<Window>, windows: seq<Window>)
    requires InOrder(order, windows) && |result| == |order|
    requires forall i :: 0 <= i < |order| ==> result[i] == order[i].(id := WindowId(order[i].kind, i + 1))
    ensures Arranged(result, windows)
  {
    assert result == Numbered(order);
  }

  /** Windows that are the same but for their IDs. */
  predicate SameButId(a: Window, b: Window) {
    a.(id := b.id) == b
  }

  /** What arranging gives: the windows ordered by start, with distinct IDs. */
  lemma ArrangedWindows(result: seq<Window>, windows: seq<Window>)
    requires Arranged(result, windows)
    ensures |result| == |windows|
    ensures forall i, j :: 0 <= i < j < |result| ==> result[i].start <= result[j].start && result[i].id != result[j].id
    ensures forall i, j :: 0 <= i < j < |result| && result[i].start == result[j].start ==> result[i].score >= result[j].score
    ensures forall i :: 0 <= i < |result| ==> result[i].id == WindowId(result[i].kind, i + 1)
  {
    var order: seq<Window> :| InOrder(order, windows) && result == Numbered(order);
    SortedMembers(order, windows);
    hide InOrder;
    forall i, j | 0 <= i < j < |result|
      ensures result[i].start <= result[j].start && result[i].id != result[j].id
      ensures result[i].start == result[j].start ==> result[i].score >= result[j].score
    {
      OrderedPair(order, windows, i, j);
    }
  }

  /** Every window is among the arranged ones. */
  lemma ArrangedFinds(result: seq<Window>, windows: seq<Window>, i: nat) returns (j: nat)
    requires Arranged(result, windows) && i < |windows|
    ensures j < |result| && SameButId(result[j], windows[i])
  {
    var order: seq<Window> :| InOrder(order, windows) && result == Numbered(order);
    SortedMembers(order, windows);
    assert windows[i] in order;
    j :| 0 <= j < |order| && order[j] == windows[i];
  }

  /** And every arranged one is a window. */
  lemma ArrangedComesFrom(result: seq<Window>, windows: seq<Window>, j: nat) returns (i: nat)
    requires Arranged(result, windows) && j < |result|
    ensures i < |windows| && SameButId(result[j], windows[i])
  {
    var order: seq<Window> :| InOrder(order, windows) && result == Numbered(order);
    SortedMembers(order, windows);
    assert order[j] in windows;
    i :| 0 <= i < |windows| && windows[i] == order[j];
  }

  /** Arranging changes nothing in a window but its ID, and loses none. */
  lemma ArrangedMembers(result: seq<Window>, windows: seq<Window>, p: Window -> bool)
    requires Arranged(result, windows)
    requires forall a, b :: SameButId(a, b) ==> p(a) == p(b)
    ensures CountIf(result, p) == CountIf(windows, p)
    ensures (forall i :: 0 <= i < |windows| ==> p(windows[i])) ==> forall i :: 0 <= i < |result| ==> p(result[i])
  {
    var order: seq<Window> :| InOrder(order, windows) && result == Numbered(order);
    CountIfPermuted(order, windows, p);
    SortedMembers(order, windows);
    forall i | 0 <= i < |order| ensures p(result[i]) == p(order[i]) && order[i] in windows {
      assert SameButId(result[i], order[i]);
    }
    CountIfSame(result, order, p);
  }

  lemma OrderedPair(order: seq<Window>, windows: seq<Window>, i: int, j: int)
    requires InOrder(order, windows) && 0 <= i < j < |order|
    ensures order[i].start <= order[j].start
    ensures order[i].start == order[j].start ==> order[i].score >= order[j].score
  {
    assert !StartsFirst(order[j], order[i]);
  }

  /** A relation that does not look at IDs. */
  ghost predicate IgnoresIds(rel: (Window, Window) -> bool) {
    forall a, b, c, d :: SameButId(a, c) && SameButId(b, d) ==> rel(a, b) == rel(c, d)
  }

  ghost predicate Symmetric(rel: (Window, Window) -> bool) {
    forall a, b :: rel(a, b) ==> rel(b, a)
  }

  ghost predicate Pairwise(windows: seq<Window>, rel: (Window, Window) -> bool) {
    && Symmetric(rel)
    && (forall i, j :: 0 <= i < j < |windows| ==> rel(windows[i], windows[j]))
    && (forall i :: 0 <= i < |windows| ==> !rel(windows[i], windows[i]))
  }

  /** What holds between any two windows still holds once they are arranged. */
  lemma ArrangedPairwise(result: seq<Window>, windows: seq<Window>, rel: (Window, Window) -> bool)
    requires Arranged(result, windows) && Pairwise(windows, rel) && IgnoresIds(rel)
    ensures Pairwise(result, rel)
  {
    var order: seq<Window> :| InOrder(order, windows) && result == Numbered(order);
    assert multiset(order) == multiset(windows);
    hide *;
    PermutedPairwise(order, windows, rel);
    NumberedPairwise(order, rel);
  }

  lemma NumberedPairwise(order: seq<Window>, rel: (Window, Window) -> bool)
    requires Pairwise(order, rel) && IgnoresIds(rel)
    ensures Pairwise(Numbered(order), rel)
  {
    var result := Numbered(order);
    forall i, j | 0 <= i < |order| && 0 <= j < |order| ensures rel(result[i], result[j]) == rel(order[i], order[j]) {
      SameRelation(rel, result[i], order[i], result[j], order[j]);
    }
    hide IgnoresIds;
    hide Symmetric;
    hide Numbered;
  }

  lemma SameRelation(rel: (Window, Window) -> bool, a: Window, b: Window, c: Window, d: Window)
    requires IgnoresIds(rel) && SameButId(a, b) && SameButId(c, d)
    ensures rel(a, c) == rel(b, d)
  {
  }

  lemma PermutedPairwise(order: seq<Window>, windows: seq<Window>, rel: (Window, Window) -> bool)
    requires multiset(order) == multiset(windows) && Pairwise(windows, rel)
    ensures Pairwise(order, rel)
  {
    hide Symmetric;
    RelatedAreDistinct(windows, rel);
    SortedMembers(order, windows);
    DistinctPermutation(windows, order);
    forall i, j | 0 <= i < j < |order| ensures rel(order[i], order[j]) {
      RelatedMembers(windows, rel, order[i], order[j]);
    }
    forall i | 0 <= i < |order| ensures !rel(order[i], order[i]) {
      assert order[i] in windows;
    }
  }

  lemma RelatedAreDistinct(windows: seq<Window>, rel: (Window, Window) -> bool)
    requires Pairwise(windows, rel)
    ensures forall i, j :: 0 <= i < j < |windows| ==> windows[i] != windows[j]
  {
    hide Symmetric;
    forall i, j | 0 <= i < j < |windows| ensures windows[i] != windows[j] {
      assert rel(windows[i], windows[j]);
    }
  }

  lemma RelatedMembers(windows: seq<Window>, rel: (Window, Window) -> bool, a: Window, b: Window)
    requires Pairwise(windows, rel) && a in windows && b in windows && a != b
    ensures rel(a, b)
  {
    var p :| 0 <= p < |windows| && windows[p] == a;
    var q :| 0 <= q < |windows| && windows[q] == b;
    assert p < q ==> rel(windows[p], windows[q]);
    assert q < p ==> rel(windows[q], windows[p]);
  }
}
