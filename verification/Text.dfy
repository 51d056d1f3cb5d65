// Text helpers, for texts of ASCII characters.

module Text {
  /** White space as Go's strings.TrimSpace sees it. */
  predicate GoSpace(c: char) {
    c == ' ' || '\t' <= c <= '\r'
  }

  /** White space as Python's str.strip sees it: the four separators count as well. */
  predicate PythonSpace(c: char) {
    GoSpace(c) || Separator(c)
  }

  predicate Separator(c: char) {
    28 as char <= c <= 31 as char
  }

  function TrimLeft(s: string, space: char -> bool): string {
    if s != [] && space(s[0]) then TrimLeft(s[1..], space) else s
  }

  function TrimRight(s: string, space: char -> bool): string {
    if s != [] && space(s[|s| - 1]) then TrimRight(s[..|s| - 1], space) else s
  }

  function Trim(s: string, space: char -> bool): string {
    TrimRight(TrimLeft(s, space), space)
  }

  function TrimSpace(s: string): string {
    Trim(s, c => GoSpace(c))
  }

  function LowerChar(c: char): char {
    if 'A' <= c <= 'Z' then c + 32 as char else c
  }

  function Lower(s: string): (r: string)
    ensures |r| == |s|
    ensures forall i :: 0 <= i < |s| ==> r[i] == LowerChar(s[i])
  {
    if s == [] then [] else [LowerChar(s[0])] + Lower(s[1..])
  }

  /** The same text but for the case of its letters. */
  predicate SameButCase(a: string, b: string) {
    |a| == |b| && forall i :: 0 <= i < |a| ==> SameLetter(a[i], b[i])
  }

  predicate SameLetter(x: char, y: char) {
    || x == y
    || ('a' <= x <= 'z' && x as int == y as int + 32)
    || ('a' <= y <= 'z' && y as int == x as int + 32)
  }

  /** Lower case is the same exactly for texts that differ in case alone. */
  lemma FoldIff(a: string, b: string)
    ensures Lower(a) == Lower(b) <==> SameButCase(a, b)
  {
    if SameButCase(a, b) {
      forall i | 0 <= i < |a|
        ensures Lower(a)[i] == Lower(b)[i]
      {
        assert SameLetter(a[i], b[i]);
      }
    }
    if Lower(a) == Lower(b) {
      forall i | 0 <= i < |a|
        ensures SameLetter(a[i], b[i])
      {
        assert LowerChar(a[i]) == Lower(a)[i] == Lower(b)[i] == LowerChar(b[i]);
      }
    }
  }

  /** What trimming removes is white space on both sides, and what it keeps has none at its ends. */
  lemma {:induction false} TrimSplits(s: string, space: char -> bool) returns (before: string, after: string)
    ensures s == before + Trim(s, space) + after
    ensures (forall c <- before :: space(c)) && (forall c <- after :: space(c))
  {
    before := TrimLeftSplits(s, space);
    after := TrimRightSplits(TrimLeft(s, space), space);
  }

  /** What trimming keeps neither starts nor ends with white space. */
  lemma {:induction false} TrimmedEnds(s: string, space: char -> bool)
    ensures var t := Trim(s, space); t != "" ==> !space(t[0]) && !space(t[|t| - 1])
  {
    TrimLeftEnds(s, space);
    TrimRightEnds(TrimLeft(s, space), space);
  }

  lemma {:induction false} TrimLeftEnds(s: string, space: char -> bool)
    ensures var t := TrimLeft(s, space); t != "" ==> !space(t[0])
  {
    if s != "" && space(s[0]) {
      TrimLeftEnds(s[1..], space);
    }
  }

  lemma {:induction false} TrimRightEnds(s: string, space: char -> bool)
    ensures var t := TrimRight(s, space); t <= s && (t != "" ==> !space(t[|t| - 1]))
  {
    if s != "" && space(s[|s| - 1]) {
      TrimRightEnds(s[..|s| - 1], space);
    }
  }

  lemma {:induction false} TrimLeftSplits(s: string, space: char -> bool) returns (before: string)
    ensures s == before + TrimLeft(s, space)
    ensures forall c <- before :: space(c)
  {
    if s != [] && space(s[0]) {
      var more := TrimLeftSplits(s[1..], space);
      before := [s[0]] + more;
    } else {
      before := [];
    }
  }

  lemma {:induction false} TrimRightSplits(s: string, space: char -> bool) returns (after: string)
    ensures s == TrimRight(s, space) + after
    ensures forall c <- after :: space(c)
  {
    if s != [] && space(s[|s| - 1]) {
      var more := TrimRightSplits(s[..|s| - 1], space);
      after := more + [s[|s| - 1]];
    } else {
      after := [];
    }
  }

  /** Nothing but white space, tab to carriage return and space. */
  predicate Blank(s: string) {
    forall c <- s :: c as int == 32 || 9 <= c as int <= 13
  }

  /** Nothing is left of a blank text. */
  lemma BlankIff(s: string)
    ensures TrimSpace(s) == "" <==> Blank(s)
  {
    var before, after := TrimSplits(s, c => GoSpace(c));
    TrimmedEnds(s, c => GoSpace(c));
    if TrimSpace(s) != "" {
      assert TrimSpace(s)[0] == s[|before|] && s[|before|] in s;
    }
  }

  lemma {:induction false} TrimLeftDropsPadding(before: string, s: string, space: char -> bool)
    requires forall c <- before :: space(c)
    requires s != [] && !space(s[0])
    ensures TrimLeft(before + s, space) == s
  {
    if before == [] {
      assert before + s == s;
    } else {
      assert (before + s)[1..] == before[1..] + s;
      TrimLeftDropsPadding(before[1..], s, space);
    }
  }

  lemma {:induction false} TrimRightDropsPadding(s: string, after: string, space: char -> bool)
    requires forall c <- after :: space(c)
    requires s != [] && !space(s[|s| - 1])
    ensures TrimRight(s + after, space) == s
  {
    if after == [] {
      assert s + after == s;
    } else {
      assert (s + after)[..|s + after| - 1] == s + after[..|after| - 1];
      TrimRightDropsPadding(s, after[..|after| - 1], space);
    }
  }

  /** Padding around a text that neither starts nor ends with white space is trimmed away exactly. */
  lemma TrimDropsPadding(before: string, s: string, after: string, space: char -> bool)
    requires (forall c <- before :: space(c)) && (forall c <- after :: space(c))
    requires s != [] && !space(s[0]) && !space(s[|s| - 1])
    ensures Trim(before + s + after, space) == s
  {
    assert before + s + after == before + (s + after);
    TrimLeftDropsPadding(before, s + after, space);
    TrimRightDropsPadding(s, after, space);
  }

  lemma {:induction false} TrimAgrees(s: string, p: char -> bool, q: char -> bool)
    requires forall c <- s :: p(c) == q(c)
    ensures Trim(s, p) == Trim(s, q)
  {
    TrimLeftAgrees(s, p, q);
    var before := TrimLeftSplits(s, p);
    assert forall c <- TrimLeft(s, p) :: c in s;
    TrimRightAgrees(TrimLeft(s, p), p, q);
  }

  lemma {:induction false} TrimLeftAgrees(s: string, p: char -> bool, q: char -> bool)
    requires forall c <- s :: p(c) == q(c)
    ensures TrimLeft(s, p) == TrimLeft(s, q)
  {
    if s != [] {
      TrimLeftAgrees(s[1..], p, q);
    }
  }

  lemma {:induction false} TrimRightAgrees(s: string, p: char -> bool, q: char -> bool)
    requires forall c <- s :: p(c) == q(c)
    ensures TrimRight(s, p) == TrimRight(s, q)
  {
    if s != [] {
      TrimRightAgrees(s[..|s| - 1], p, q);
    }
  }

  // ------------------------------------------------------ texts around a mark

  lemma MarkInside(mark: char, a: string, x: string, b: string, y: string)
    requires a + [mark] + x == b + [mark] + y && |a| < |b|
    ensures mark in x
  {
    assert (a + [mark] + x)[|b|] == (b + [mark] + y)[|b|];
    assert x[|b| - |a| - 1] == mark;
  }

  /** A text is split at its last mark in one way. */
  lemma SplitAtLast(mark: char, a: string, x: string, b: string, y: string)
    requires a + [mark] + x == b + [mark] + y && mark !in x && mark !in y
    ensures a == b && x == y
  {
    if |a| < |b| {
      MarkInside(mark, a, x, b, y);
    } else if |b| < |a| {
      MarkInside(mark, b, y, a, x);
    } else {
      var s := a + [mark] + x;
      assert s[..|a|] == a && s[..|b|] == b && s[|a| + 1..] == x && s[|b| + 1..] == y;
    }
  }
}
