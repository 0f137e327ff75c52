/** The token distance used by the OCR text matcher: a two-row dynamic program
    proved against the recursive Levenshtein distance, which is in turn proved
    to be the length of a shortest script of single-character edits. */
module EditDistance {
  import opened Wrappers

  function Min(x: nat, y: nat): nat {
    if x < y then x else y
  }

  function Cost(x: char, y: char): nat {
    if x != y then 1 else 0
  }

  /** The Levenshtein recursion on the last characters. */
  function Distance(left: string, right: string): nat
    decreases |left| + |right|
  {
    if left == "" then |right|
    else if right == "" then |left|
    else
      var l, r := left[..|left| - 1], right[..|right| - 1];
      Min(Distance(left, r) + 1,
          Min(Distance(l, right) + 1,
              Distance(l, r) + Cost(left[|left| - 1], right[|right| - 1])))
  }

  method EditDistance(left: string, right: string) returns (distance: nat)
    ensures distance == Distance(left, right)
  {
    DistanceToEmpty(left, right);
    hide Distance;
    var previous := new nat[|right| + 1];
    for index := 0 to |right| + 1
      invariant forall j :: 0 <= j < index ==> previous[j] == j
    {
      previous[index] := index;
    }
    for i := 0 to |left|
      invariant previous.Length == |right| + 1
      invariant forall j :: 0 <= j <= |right| ==> previous[j] == Distance(left[..i], right[..j])
    {
      var current := new nat[|right| + 1];
      current[0] := i + 1;
      for j := 0 to |right|
        invariant forall k :: 0 <= k <= |right| ==> previous[k] == Distance(left[..i], right[..k])
        invariant forall k :: 0 <= k <= j ==> current[k] == Distance(left[..i + 1], right[..k])
      {
        var cost := 0;
        if left[i] != right[j] {
          cost := 1;
        }
        DistanceAt(left, right, i, j);
        current[j + 1] := Min(current[j] + 1, Min(previous[j + 1] + 1, previous[j] + cost));
      }
      previous := current;
    }
    distance := previous[|right|];
    assert left[..|left|] == left && right[..|right|] == right;
  }

  lemma DistanceToEmpty(left: string, right: string)
    ensures forall i :: 0 <= i <= |left| ==> Distance(left[..i], right[..0]) == i
    ensures forall j :: 0 <= j <= |right| ==> Distance(left[..0], right[..j]) == j
  {
  }

  lemma DistanceAt(left: string, right: string, i: nat, j: nat)
    requires i < |left| && j < |right|
    ensures Distance(left[..i + 1], right[..j + 1]) ==
            Min(Distance(left[..i + 1], right[..j]) + 1,
                Min(Distance(left[..i], right[..j + 1]) + 1,
                    Distance(left[..i], right[..j]) + Cost(left[i], right[j])))
  {
    assert left[..i + 1][..i] == left[..i];
    assert right[..j + 1][..j] == right[..j];
  }

  // ----- The distance is a metric

  lemma {:induction false} Symmetric(a: string, b: string)
    ensures Distance(a, b) == Distance(b, a)
    decreases |a| + |b|
  {
    if a != "" && b != "" {
      var a', b' := a[..|a| - 1], b[..|b| - 1];
      Symmetric(a', b);
      Symmetric(a, b');
      Symmetric(a', b');
    }
  }

  lemma {:induction false} ZeroIffEqual(a: string, b: string)
    ensures Distance(a, b) == 0 <==> a == b
    decreases |a| + |b|
  {
    if a != "" && b != "" {
      var a', b' := a[..|a| - 1], b[..|b| - 1];
      ZeroIffEqual(a', b');
      assert a == a' + [a[|a| - 1]] && b == b' + [b[|b| - 1]];
    }
  }

  /** Dropping the last character of either side changes the distance by at most one. */
  lemma StepBounds(a: string, b: string)
    ensures a != "" ==> Distance(a, b) <= Distance(a[..|a| - 1], b) + 1
    ensures b != "" ==> Distance(a, b) <= Distance(a, b[..|b| - 1]) + 1
    ensures a != "" && b != "" ==>
      Distance(a, b) <= Distance(a[..|a| - 1], b[..|b| - 1]) + Cost(a[|a| - 1], b[|b| - 1])
  {
  }

  lemma {:induction false} Triangle(a: string, b: string, c: string)
    ensures Distance(a, c) <= Distance(a, b) + Distance(b, c)
    decreases |a| + |b| + |c|
  {
    StepBounds(a, c);
    if b == "" {
      LengthBound(a, c);
    } else if a == "" {
      LengthDifference(b, c);
    } else if c == "" {
      LengthDifference(b, a);
      Symmetric(a, b);
    } else {
      var a', b', c' := a[..|a| - 1], b[..|b| - 1], c[..|c| - 1];
      Triangle(a', b, c);
      Triangle(a, b, c');
      Triangle(a, b', c);
      Triangle(a, b', c');
      Triangle(a', b', c);
      Triangle(a', b', c');
    }
  }

  lemma {:induction false} LengthBound(a: string, c: string)
    ensures Distance(a, c) <= |a| + |c|
    decreases |a| + |c|
  {
    if a != "" && c != "" {
      LengthBound(a, c[..|c| - 1]);
    }
  }

  lemma {:induction false} LengthDifference(b: string, c: string)
    ensures |c| <= |b| + Distance(b, c)
    decreases |b| + |c|
  {
    if b != "" && c != "" {
      var b', c' := b[..|b| - 1], c[..|c| - 1];
      LengthDifference(b', c);
      LengthDifference(b, c');
      LengthDifference(b', c');
    }
  }

  // ----- The distance is the length of a shortest edit script

  datatype Edit = Insert(at: nat, c: char) | Delete(at: nat) | Substitute(at: nat, c: char)

  function Apply(edit: Edit, s: string): Option<string> {
    match edit
    case Insert(at, c) => if at <= |s| then Some(s[..at] + [c] + s[at..]) else None
    case Delete(at) => if at < |s| then Some(s[..at] + s[at + 1..]) else None
    case Substitute(at, c) => if at < |s| then Some(s[at := c]) else None
  }

  function Run(script: seq<Edit>, s: string): Option<string> {
    if script == [] then Some(s)
    else
      match Apply(script[0], s)
      case None => None
      case Some(t) => Run(script[1..], t)
  }

  lemma {:induction false} RunAppend(script: seq<Edit>, last: Edit, a: string, b: string)
    requires Run(script, a) == Some(b)
    ensures Run(script + [last], a) == Apply(last, b)
  {
    if script == [] {
      assert (script + [last])[1..] == [];
    } else {
      RunAppend(script[1..], last, Apply(script[0], a).value, b);
      assert (script + [last])[1..] == script[1..] + [last];
    }
  }

  /** A script that rewrites a prefix leaves any suffix alone. */
  lemma {:induction false} RunWithSuffix(script: seq<Edit>, a: string, b: string, suffix: string)
    requires Run(script, a) == Some(b)
    ensures Run(script, a + suffix) == Some(b + suffix)
  {
    if script != [] {
      var t := Apply(script[0], a).value;
      assert Apply(script[0], a + suffix).value == t + suffix;
      RunWithSuffix(script[1..], t, b, suffix);
    }
  }

  lemma InsertLast(script: seq<Edit>, a: string, b: string, y: char)
    requires Run(script, a) == Some(b)
    ensures Run(script + [Insert(|b|, y)], a) == Some(b + [y])
  {
    RunAppend(script, Insert(|b|, y), a, b);
    assert b[..|b|] + [y] + b[|b|..] == b + [y];
  }

  lemma DeleteLast(script: seq<Edit>, a: string, b: string, x: char)
    requires Run(script, a) == Some(b)
    ensures Run(script + [Delete(|b|)], a + [x]) == Some(b)
  {
    RunWithSuffix(script, a, b, [x]);
    RunAppend(script, Delete(|b|), a + [x], b + [x]);
    assert (b + [x])[..|b|] + (b + [x])[|b| + 1..] == b;
  }

  lemma SubstituteLast(script: seq<Edit>, a: string, b: string, x: char, y: char)
    requires Run(script, a) == Some(b)
    ensures Run(script, a + [x]) == Some(b + [x])
    ensures Run(script + [Substitute(|b|, y)], a + [x]) == Some(b + [y])
  {
    RunWithSuffix(script, a, b, [x]);
    RunAppend(script, Substitute(|b|, y), a + [x], b + [x]);
    assert (b + [x])[|b| := y] == b + [y];
  }

  lemma LastStep(a: string, b: string)
    requires a != "" || b != ""
    ensures || (b != "" && Distance(a, b) == Distance(a, b[..|b| - 1]) + 1)
            || (a != "" && Distance(a, b) == Distance(a[..|a| - 1], b) + 1)
            || (a != "" && b != "" &&
                Distance(a, b) == Distance(a[..|a| - 1], b[..|b| - 1]) + Cost(a[|a| - 1], b[|b| - 1]))
  {
  }

  lemma CostOf(x: char, y: char)
    ensures Cost(x, y) == if x == y then 0 else 1
  {
  }

  lemma EmptyScript()
    ensures Run([], "") == Some("") && Distance("", "") == 0
  {
  }

  lemma {:induction false} OptimalScript(a: string, b: string) returns (script: seq<Edit>)
    ensures Run(script, a) == Some(b) && |script| == Distance(a, b)
    decreases |a| + |b|
  {
    hide *;
    if a == "" && b == "" {
      EmptyScript();
      return [];
    }
    LastStep(a, b);
    if b != "" && Distance(a, b) == Distance(a, b[..|b| - 1]) + 1 {
      var b', y := b[..|b| - 1], b[|b| - 1];
      var prefix := OptimalScript(a, b');
      InsertLast(prefix, a, b', y);
      assert b == b' + [y];
      script := prefix + [Insert(|b'|, y)];
    } else if a != "" && Distance(a, b) == Distance(a[..|a| - 1], b) + 1 {
      var a', x := a[..|a| - 1], a[|a| - 1];
      var prefix := OptimalScript(a', b);
      DeleteLast(prefix, a', b, x);
      assert a == a' + [x];
      script := prefix + [Delete(|b|)];
    } else {
      var a', b' := a[..|a| - 1], b[..|b| - 1];
      var x, y := a[|a| - 1], b[|b| - 1];
      var prefix := OptimalScript(a', b');
      CostOf(x, y);
      SubstituteLast(prefix, a', b', x, y);
      assert a == a' + [x] && b == b' + [y];
      script := if x == y then prefix else prefix + [Substitute(|b'|, y)];
    }
  }

  lemma {:induction false} CommonSuffix(a: string, b: string, suffix: string)
    ensures Distance(a + suffix, b + suffix) <= Distance(a, b)
    decreases |suffix|
  {
    if suffix == "" {
      assert a + suffix == a && b + suffix == b;
    } else {
      var c := suffix[0];
      StepBounds(a + [c], b + [c]);
      assert (a + [c])[..|a|] == a && (b + [c])[..|b|] == b;
      CommonSuffix(a + [c], b + [c], suffix[1..]);
      assert a + suffix == a + [c] + suffix[1..] && b + suffix == b + [c] + suffix[1..];
    }
  }

  /** Exchanging at most one character for at most one other costs at most one. */
  lemma LocalChange(p: string, x: string, y: string, q: string)
    requires |x| <= 1 && |y| <= 1
    ensures Distance(p + x + q, p + y + q) <= 1
  {
    ZeroIffEqual(p, p);
    StepBounds(p + x, p + y);
    assert x != "" ==> (p + x)[..|p + x| - 1] == p;
    assert y != "" ==> (p + y)[..|p + y| - 1] == p;
    assert x == "" ==> p + x == p;
    assert y == "" ==> p + y == p;
    CommonSuffix(p + x, p + y, q);
  }

  lemma OneEditCostsAtMostOne(edit: Edit, s: string)
    requires Apply(edit, s).Some?
    ensures Distance(s, Apply(edit, s).value) <= 1
  {
    var p, q := s[..edit.at], s[edit.at..];
    match edit
    case Insert(_, c) =>
      assert s == p + "" + q;
      LocalChange(p, "", [c], q);
    case Delete(_) =>
      assert s == p + [s[edit.at]] + q[1..];
      assert Apply(edit, s).value == p + "" + q[1..];
      LocalChange(p, [s[edit.at]], "", q[1..]);
    case Substitute(_, c) =>
      assert s == p + [s[edit.at]] + q[1..];
      assert Apply(edit, s).value == p + [c] + q[1..];
      LocalChange(p, [s[edit.at]], [c], q[1..]);
  }

  lemma {:induction false} NoShorterScript(script: seq<Edit>, a: string, b: string)
    requires Run(script, a) == Some(b)
    ensures Distance(a, b) <= |script|
  {
    if script == [] {
      ZeroIffEqual(a, b);
    } else {
      var t := Apply(script[0], a).value;
      OneEditCostsAtMostOne(script[0], a);
      NoShorterScript(script[1..], t, b);
      Triangle(a, t, b);
    }
  }

  /** The distance is at most `k` exactly when some script of at most `k` edits turns
      `a` into `b`. */
  lemma DistanceIsShortestScript(a: string, b: string, k: nat)
    ensures Distance(a, b) <= k <==> exists script :: |script| <= k && Run(script, a) == Some(b)
  {
    if Distance(a, b) <= k {
      var script := OptimalScript(a, b);
      assert |script| <= k && Run(script, a) == Some(b);
    } else if script :| |script| <= k && Run(script, a) == Some(b) {
      NoShorterScript(script, a, b);
    }
  }
}
