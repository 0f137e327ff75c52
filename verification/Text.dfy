/** The string helpers the models share. Case mapping covers ASCII letters. */
module Text {
  /** White space as Go's `unicode.IsSpace` defines it. */
  predicate IsSpace(c: char) {
    '\t' <= c <= '\r' || c == ' ' || c == '\U{85}' || c == '\U{A0}' || c == '\U{1680}' ||
    '\U{2000}' <= c <= '\U{200A}' || c == '\U{2028}' || c == '\U{2029}' || c == '\U{202F}' ||
    c == '\U{205F}' || c == '\U{3000}'
  }

  function TrimLeft(s: string): string {
    if s != "" && IsSpace(s[0]) then TrimLeft(s[1..]) else s
  }

  function TrimRight(s: string): string {
    if s != "" && IsSpace(s[|s| - 1]) then TrimRight(s[..|s| - 1]) else s
  }

  function Trim(s: string): string {
    TrimRight(TrimLeft(s))
  }

  function LowerChar(c: char): char {
    if 'A' <= c <= 'Z' then c - 'A' + 'a' else c
  }

  function Lower(s: string): string {
    seq(|s|, i requires 0 <= i < |s| => LowerChar(s[i]))
  }

  function Replace(s: string, from: char, to: char): string {
    seq(|s|, i requires 0 <= i < |s| => if s[i] == from then to else s[i])
  }

  // ----- What the helpers do

  /** The code points that count as white space. */
  lemma SpacesAre(c: char)
    ensures IsSpace(c) <==>
            var n := c as int;
            9 <= n <= 13 || n in {32, 133, 160, 5760, 8232, 8233, 8239, 8287, 12288} || 8192 <= n <= 8202
  {
  }

  ghost predicate AllSpaces(s: string) {
    forall i :: 0 <= i < |s| ==> IsSpace(s[i])
  }

  /** No space at either end. */
  predicate Trimmed(s: string) {
    s == "" || (!IsSpace(s[0]) && !IsSpace(s[|s| - 1]))
  }

  lemma {:induction false} TrimLeftLaw(s: string)
    ensures var t := TrimLeft(s);
            |t| <= |s| && t == s[|s| - |t|..] && AllSpaces(s[..|s| - |t|]) && (t == "" || !IsSpace(t[0]))
  {
    hide IsSpace;
    if s != "" && IsSpace(s[0]) {
      TrimLeftLaw(s[1..]);
      var t := TrimLeft(s);
      assert s[1..][|s| - 1 - |t|..] == s[|s| - |t|..];
      assert s[..|s| - |t|] == [s[0]] + s[1..][..|s| - 1 - |t|];
    } else {
      assert s[..0] == "";
    }
  }

  lemma {:induction false} TrimRightLaw(s: string)
    ensures var t := TrimRight(s);
            |t| <= |s| && t == s[..|t|] && AllSpaces(s[|t|..]) && (t == "" || !IsSpace(t[|t| - 1]))
  {
    hide IsSpace;
    if s != "" && IsSpace(s[|s| - 1]) {
      TrimRightLaw(s[..|s| - 1]);
      var t := TrimRight(s);
      assert s[..|s| - 1][..|t|] == s[..|t|];
      assert s[|t|..] == s[..|s| - 1][|t|..] + [s[|s| - 1]];
    } else {
      assert s[|s|..] == "";
    }
  }

  /** Trimming takes the spaces off both ends and nothing else. */
  lemma TrimLaw(s: string) returns (before: string, after: string)
    ensures s == before + Trim(s) + after && AllSpaces(before) && AllSpaces(after) && Trimmed(Trim(s))
  {
    hide IsSpace;
    hide TrimLeft;
    hide TrimRight;
    TrimLeftLaw(s);
    var left := TrimLeft(s);
    TrimRightLaw(left);
    before, after := s[..|s| - |left|], left[|Trim(s)|..];
    assert s == before + left && left == Trim(s) + after;
  }

  lemma {:induction false} TrimLeftOf(before: string, s: string)
    requires AllSpaces(before) && (s == "" || !IsSpace(s[0]))
    ensures TrimLeft(before + s) == s
  {
    hide IsSpace;
    if before == "" {
      assert before + s == s;
    } else {
      assert (before + s)[1..] == before[1..] + s;
      TrimLeftOf(before[1..], s);
    }
  }

  lemma {:induction false} TrimRightOf(s: string, after: string)
    requires AllSpaces(after) && (s == "" || !IsSpace(s[|s| - 1]))
    ensures TrimRight(s + after) == s
    decreases |after|
  {
    hide IsSpace;
    if after == "" {
      assert s + after == s;
    } else {
      var n := |after| - 1;
      assert (s + after)[..|s + after| - 1] == s + after[..n];
      assert (s + after)[|s + after| - 1] == after[n];
      TrimRightOf(s, after[..n]);
    }
  }

  /** Whatever spaces surround a trimmed text, trimming gives it back. */
  lemma TrimOf(before: string, s: string, after: string)
    requires AllSpaces(before) && AllSpaces(after) && Trimmed(s)
    ensures Trim(before + s + after) == s
  {
    hide IsSpace;
    hide TrimLeft;
    hide TrimRight;
    if s == "" {
      assert before + s + after == (before + after) + "";
      TrimLeftOf(before + after, "");
      TrimRightOf("", "");
      assert "" + "" == "";
    } else {
      assert before + s + after == before + (s + after);
      TrimLeftOf(before, s + after);
      TrimRightOf(s, after);
    }
  }

  lemma TrimTrimmed(s: string)
    requires Trimmed(s)
    ensures Trim(s) == s
  {
    assert "" + s + "" == s;
    TrimOf("", s, "");
  }

  /** The letters are the same but for the case of ASCII letters. */
  predicate SameLetter(c: char, d: char) {
    c == d || ('A' <= c <= 'Z' && d as int == c as int + 32) || ('A' <= d <= 'Z' && c as int == d as int + 32)
  }

  ghost predicate SameLetters(s: string, t: string) {
    |s| == |t| && forall i :: 0 <= i < |s| ==> SameLetter(s[i], t[i])
  }

  /** Texts are equal in lower case exactly when they differ in case alone. */
  lemma LowerLaw(s: string, t: string)
    ensures Lower(s) == Lower(t) <==> SameLetters(s, t)
    ensures SameLetters(s, Lower(s)) && Lower(Lower(s)) == Lower(s)
    ensures forall i :: 0 <= i < |s| ==> !('A' <= Lower(s)[i] <= 'Z')
  {
    if Lower(s) == Lower(t) {
      forall i | 0 <= i < |s| ensures SameLetter(s[i], t[i]) {
        assert Lower(s)[i] == LowerChar(s[i]) && Lower(t)[i] == LowerChar(t[i]);
      }
    }
  }

  lemma CaseKeepsSpaces(c: char)
    ensures IsSpace(LowerChar(c)) <==> IsSpace(c)
  {
  }

  /** Trimming and lowering can be done in either order. */
  lemma LowerOfTrim(s: string)
    ensures Trim(Lower(s)) == Lower(Trim(s))
  {
    var before, after := TrimLaw(s);
    hide IsSpace;
    forall c ensures IsSpace(LowerChar(c)) <==> IsSpace(c) {
      CaseKeepsSpaces(c);
    }
    hide LowerChar;
    assert Lower(s) == Lower(before) + Lower(Trim(s)) + Lower(after);
    TrimOf(Lower(before), Lower(Trim(s)), Lower(after));
  }

  /** Replacing puts one character in the place of every other. */
  lemma ReplaceLaw(s: string, from: char, to: char)
    ensures |Replace(s, from, to)| == |s|
    ensures forall i :: 0 <= i < |s| ==> Replace(s, from, to)[i] == if s[i] == from then to else s[i]
  {
  }

  /** Byte-wise lexicographic order. */
  predicate Less(s: string, t: string) {
    if t == "" then false
    else if s == "" then true
    else s[0] < t[0] || (s[0] == t[0] && Less(s[1..], t[1..]))
  }

  /** The first character that differs decides, and a prefix comes first. */
  lemma {:induction false} LessMeans(s: string, t: string)
    ensures Less(s, t) <==> (|s| < |t| && s == t[..|s|]) || exists i :: FirstLower(s, t, i)
  {
    if s != "" && t != "" && s[0] == t[0] {
      LessMeans(s[1..], t[1..]);
      assert s == [s[0]] + s[1..] && t == [t[0]] + t[1..];
      assert |s| < |t| ==> t[..|s|] == [t[0]] + t[1..][..|s| - 1];
      forall i | FirstLower(s, t, i) ensures FirstLower(s[1..], t[1..], i - 1) {
      }
      forall i | FirstLower(s[1..], t[1..], i) ensures FirstLower(s, t, i + 1) {
      }
    } else if Less(s, t) && s != "" {
      assert FirstLower(s, t, 0);
    }
  }

  /** The texts agree before position `i`, where the first has the lower character. */
  ghost predicate FirstLower(s: string, t: string, i: int) {
    0 <= i < |s| && i < |t| && (forall k :: 0 <= k < i ==> s[k] == t[k]) && s[i] < t[i]
  }

  lemma {:induction false} LessIsTotal(s: string, t: string)
    ensures !Less(s, s)
    ensures Less(s, t) ==> !Less(t, s)
    ensures !Less(s, t) && !Less(t, s) ==> s == t
  {
    if s != "" {
      LessIsTotal(s[1..], s[1..]);
      if t != "" {
        LessIsTotal(s[1..], t[1..]);
        assert s == [s[0]] + s[1..] && t == [t[0]] + t[1..];
      }
    }
  }

  lemma {:induction false} LessIsTransitive(s: string, t: string, u: string)
    requires Less(s, t) && Less(t, u)
    ensures Less(s, u)
  {
    if s != "" && s[0] == t[0] && t[0] == u[0] {
      LessIsTransitive(s[1..], t[1..], u[1..]);
    }
  }

  lemma {:induction false} NotLessChains(s: string, t: string, u: string)
    requires !Less(t, s) && !Less(u, t)
    ensures !Less(u, s)
  {
    if s != "" && t != "" && u != "" && s[0] == t[0] && t[0] == u[0] {
      NotLessChains(s[1..], t[1..], u[1..]);
    }
  }
}
