// How internal/cli/cli.go compares the names and ids of speakers: what spelling matters, and what does not.

module SpeakerSpelling {
  import opened Common
  import opened Text
  import opened Speakers
  import opened SpeakerTargets

  // ---------- The words of a text ----------

  /** What stands between words: white space, hyphens, underscores and dots. */
  predicate Between(c: char) {
    c as int == 32 || 9 <= c as int <= 13 || c == '-' || c == '_' || c == '.'
  }

  predicate Gap(s: string) {
    forall c <- s :: Between(c)
  }

  predicate Solid(w: string) {
    w != "" && forall c <- w :: !Between(c)
  }

  /** The words in turn, with a gap before each and one at the end. */
  function Strung(words: seq<string>, gaps: seq<string>): string
    requires |gaps| == |words| + 1
  {
    if words == [] then gaps[0] else gaps[0] + words[0] + Strung(words[1..], gaps[1..])
  }

  /** Words can be told apart: none holds a gap, and no gap between two is empty. */
  predicate Apart(words: seq<string>, gaps: seq<string>) {
    && |gaps| == |words| + 1
    && (forall i :: 0 <= i < |gaps| ==> Gap(gaps[i])) && (forall i :: 0 < i < |words| ==> gaps[i] != "")
    && forall i :: 0 <= i < |words| ==> Solid(words[i])
  }

  predicate StrungOf(text: string, words: seq<string>, gaps: seq<string>) {
    Apart(words, gaps) && text == Strung(words, gaps)
  }

  /** The same words in the same order but for case, whatever stands between them. */
  ghost predicate Alike(a: string, b: string) {
    exists words, gaps, others, spaces ::
      && StrungOf(a, words, gaps) && StrungOf(b, others, spaces)
      && |words| == |others| && forall i :: 0 <= i < |words| ==> SameButCase(words[i], others[i])
  }

  lemma StrungAfterGap(c: char, words: seq<string>, gaps: seq<string>)
    requires |gaps| == |words| + 1
    ensures Strung(words, [[c] + gaps[0]] + gaps[1..]) == [c] + Strung(words, gaps)
  {
    var more := [[c] + gaps[0]] + gaps[1..];
    assert more[1..] == gaps[1..];
  }

  lemma StrungAfterNoGap(words: seq<string>, gaps: seq<string>)
    requires |gaps| == |words| + 1 && words != [] && gaps[0] == ""
    ensures Strung(words, gaps) == words[0] + Strung(words[1..], gaps[1..])
  {
    assert gaps[0] + words[0] == words[0];
  }

  lemma StrungAfterLetter(c: char, words: seq<string>, more: seq<string>, gaps: seq<string>)
    requires |gaps| == |words| + 1 && words != [] && gaps[0] == ""
    requires more == [[c] + words[0]] + words[1..]
    ensures Strung(more, gaps) == [c] + Strung(words, gaps)
  {
    StrungAfterNoGap(words, gaps);
    StrungAfterNoGap(more, gaps);
    assert more[1..] == words[1..];
    Regroup([c], words[0], Strung(words[1..], gaps[1..]));
  }

  lemma StrungAfterNewWord(c: char, words: seq<string>, gaps: seq<string>)
    requires |gaps| == |words| + 1
    ensures Strung([[c]] + words, [""] + gaps) == [c] + Strung(words, gaps)
  {
    assert ([[c]] + words)[1..] == words && ([""] + gaps)[1..] == gaps;
  }

  /** Every text is words with gaps around them. */
  lemma {:induction false} EveryTextIsStrung(text: string) returns (words: seq<string>, gaps: seq<string>)
    ensures StrungOf(text, words, gaps)
  {
    if text == "" {
      words, gaps := [], [""];
    } else {
      var c := text[0];
      words, gaps := EveryTextIsStrung(text[1..]);
      if Between(c) {
        StrungAfterGap(c, words, gaps);
        gaps := [[c] + gaps[0]] + gaps[1..];
      } else if gaps[0] == "" && words != [] {
        var more := [[c] + words[0]] + words[1..];
        StrungAfterLetter(c, words, more, gaps);
        words := more;
      } else {
        StrungAfterNewWord(c, words, gaps);
        words, gaps := [[c]] + words, [""] + gaps;
      }
      assert text == [c] + text[1..];
    }
  }

  // ---------- Normal forms ----------

  function Lowers(words: seq<string>): (r: seq<string>)
    ensures |r| == |words| && forall i :: 0 <= i < |r| ==> r[i] == Lower(words[i])
  {
    seq(|words|, i requires 0 <= i < |words| => Lower(words[i]))
  }

  function Flat(s: string): (r: string)
    ensures |r| == |s| && forall i :: 0 <= i < |s| ==> r[i] == SpacedChar(LowerChar(s[i]))
  {
    Spaced(Lower(s))
  }

  lemma FlatOfParts(a: string, b: string)
    ensures Flat(a + b) == Flat(a) + Flat(b)
  {
  }

  lemma {:induction false} WhiteInFront(w: string, s: string)
    requires Blank(w)
    ensures Words(w + s) == Words(s)
  {
    if w == "" {
      assert w + s == s;
    } else {
      assert (w + s)[1..] == w[1..] + s && w[0] in w && forall c <- w[1..] :: c in w;
      WhiteInFront(w[1..], s);
    }
  }

  lemma {:induction false} WhiteBehind(s: string, w: string)
    requires Blank(w)
    ensures Words(s + w) == Words(s)
    decreases |s|
  {
    if s == "" {
      assert s + w == w + "";
      WhiteInFront(w, "");
    } else if GoSpace(s[0]) {
      assert (s + w)[1..] == s[1..] + w;
      WhiteBehind(s[1..], w);
    } else {
      var word, more := s[..WordEnd(s)], s[WordEnd(s)..];
      assert s + w == word + (more + w) && s == word + more;
      assert w != "" ==> w[0] in w;
      WordInFront(word, more);
      WordInFront(word, more + w);
      WhiteBehind(more, w);
    }
  }

  lemma SpacedOfParts(a: string, b: string, c: string)
    ensures Spaced(a + b + c) == Spaced(a) + (Spaced(b) + Spaced(c))
  {
  }

  lemma PaddingIsNoWord(s: string)
    ensures Words(Spaced(TrimSpace(s))) == Words(Spaced(s))
  {
    var before, after := TrimSplits(s, c => GoSpace(c));
    var t := TrimSpace(s);
    SpacedWhite(before);
    SpacedWhite(after);
    SpacedOfParts(before, t, after);
    WhiteInFront(Spaced(before), Spaced(t) + Spaced(after));
    WhiteBehind(Spaced(t), Spaced(after));
  }

  lemma SpacedWhite(s: string)
    requires forall c <- s :: GoSpace(c)
    ensures Blank(Spaced(s))
  {
    forall i | 0 <= i < |s|
      ensures GoSpace(Spaced(s)[i])
    {
      assert s[i] in s;
    }
  }

  lemma FlatGap(g: string)
    requires Gap(g)
    ensures Blank(Flat(g))
  {
    forall i | 0 <= i < |g|
      ensures GoSpace(Flat(g)[i])
    {
      assert g[i] in g;
    }
  }

  lemma FlatWord(w: string)
    requires Solid(w)
    ensures Flat(w) == Lower(w) && PlainWord(Lower(w))
  {
    forall i | 0 <= i < |w|
      ensures Flat(w)[i] == Lower(w)[i] && !GoSpace(Lower(w)[i])
    {
      assert w[i] in w;
    }
  }

  lemma FirstWord(gap: string, w: string, rest: string)
    requires Gap(gap) && Solid(w) && (rest == "" || GoSpace(Flat(rest)[0]))
    ensures Words(Flat(gap + w + rest)) == [Lower(w)] + Words(Flat(rest))
  {
    FlatGap(gap);
    FlatWord(w);
    assert gap + w + rest == gap + (w + rest);
    FlatOfParts(gap, w + rest);
    FlatOfParts(w, rest);
    WhiteInFront(Flat(gap), Flat(w) + Flat(rest));
    WordInFront(Lower(w), Flat(rest));
  }

  lemma {:induction false} WordsOfStrung(words: seq<string>, gaps: seq<string>)
    requires Apart(words, gaps)
    ensures Words(Flat(Strung(words, gaps))) == Lowers(words)
    decreases |words|
  {
    if words == [] {
      FlatGap(gaps[0]);
      assert Flat(gaps[0]) == Flat(gaps[0]) + "";
      WhiteInFront(Flat(gaps[0]), "");
    } else {
      WordsOfStrung(words[1..], gaps[1..]);
      RestStartsBlank(words[1..], gaps[1..]);
      FirstWord(gaps[0], words[0], Strung(words[1..], gaps[1..]));
      assert Lowers(words) == [Lower(words[0])] + Lowers(words[1..]);
    }
  }

  lemma RestStartsBlank(words: seq<string>, gaps: seq<string>)
    requires |gaps| == |words| + 1 && (words != [] ==> gaps[0] != "") && Gap(gaps[0])
    ensures var rest := Flat(Strung(words, gaps)); rest == "" || GoSpace(rest[0])
  {
    if gaps[0] != "" {
      assert gaps[0][0] in gaps[0] && Strung(words, gaps)[0] == gaps[0][0];
    }
  }

  lemma NormalizedIsJoined(text: string, words: seq<string>, gaps: seq<string>)
    requires StrungOf(text, words, gaps)
    ensures Normalize(text) == Join(Lowers(words))
    ensures Words(Normalize(text)) == Lowers(words)
  {
    PaddingIsNoWord(Lower(text));
    WordsOfStrung(words, gaps);
    forall w | w in Lowers(words)
      ensures PlainWord(w)
    {
      var i :| 0 <= i < |words| && Lowers(words)[i] == w;
      FlatWord(words[i]);
    }
    WordsOfJoined(Lowers(words));
  }

  /** Case and what stands between words is all that normalising takes away. */
  lemma NormalizedAlikeIff(a: string, b: string)
    ensures Normalize(a) == Normalize(b) <==> Alike(a, b)
  {
    forall words, gaps, others, spaces |
      StrungOf(a, words, gaps) && StrungOf(b, others, spaces)
      && |words| == |others| && forall i :: 0 <= i < |words| ==> SameButCase(words[i], others[i])
      ensures Normalize(a) == Normalize(b)
    {
      NormalizedIsJoined(a, words, gaps);
      NormalizedIsJoined(b, others, spaces);
      forall i | 0 <= i < |words|
        ensures Lowers(words)[i] == Lowers(others)[i]
      {
        FoldIff(words[i], others[i]);
      }
      assert Lowers(words) == Lowers(others);
    }
    if Normalize(a) == Normalize(b) {
      var words, gaps := EveryTextIsStrung(a);
      var others, spaces := EveryTextIsStrung(b);
      NormalizedIsJoined(a, words, gaps);
      NormalizedIsJoined(b, others, spaces);
      forall i | 0 <= i < |words|
        ensures SameButCase(words[i], others[i])
      {
        FoldIff(words[i], others[i]);
      }
    }
  }

  // ---------- What a name matches ----------

  ghost predicate Inside(part: string, s: string) {
    exists before, after :: s == before + part + after
  }

  lemma ContainsIff(s: string, part: string)
    ensures Contains(s, part) <==> Inside(part, s)
  {
    if Contains(s, part) {
      var i :| 0 <= i <= |s| && part <= s[i..];
      assert s == s[..i] + part + s[i + |part|..];
    }
    if before, after :| s == before + part + after {
      assert part <= s[|before|..];
    }
  }

  /** A part names an entry exactly by its name or its id, and within its name by a stretch of that. */
  lemma MatchesIff(t: Target, part: string)
    ensures Matches(t, Normalize(part), Exactly) <==> Alike(t.name, part) || Alike(t.id, part)
    ensures Matches(t, Normalize(part), Within) <==> Inside(Normalize(part), Normalize(t.name))
  {
    NormalizedAlikeIff(t.name, part);
    NormalizedAlikeIff(t.id, part);
    ContainsIff(Normalize(t.name), Normalize(part));
  }

  lemma StrungOfTwo(w: string, v: string)
    requires Solid(w) && Solid(v)
    ensures StrungOf(w + " " + v, [w, v], ["", " ", ""])
  {
    var words, gaps := [w, v], ["", " ", ""];
    assert words[1..] == [v] && words[1..][1..] == [];
    assert gaps[1..] == [" ", ""] && gaps[1..][1..] == [""];
    assert Strung([v], [" ", ""]) == " " + v + "" == " " + v;
    assert Strung(words, gaps) == "" + w + (" " + v) == w + " " + v;
  }

  predicate SmallLetters(w: string) {
    w != "" && forall i :: 0 <= i < |w| ==> 'a' <= w[i] <= 'z'
  }

  lemma SmallWord(w: string)
    requires SmallLetters(w)
    ensures Solid(w) && Lower(w) == w
  {
  }

  lemma TwoWordsAreNormal(w: string, v: string)
    requires SmallLetters(w) && SmallLetters(v)
    ensures Normalize(w + " " + v) == w + " " + v
  {
    SmallWord(w);
    SmallWord(v);
    StrungOfTwo(w, v);
    NormalizedIsJoined(w + " " + v, [w, v], ["", " ", ""]);
    assert Lowers([w, v]) == [w, v];
    assert [w, v][1..] == [v];
  }

  lemma TwoWordsAreAll()
    ensures "speaker" + " " + "all" == "speaker all"
  {
  }

  lemma AllIsNormal()
    ensures Normalize("speaker all") == "speaker all"
  {
    TwoWordsAreAll();
    TwoWordsAreNormal("speaker", "all");
  }

  /** Everyone is asked for by the two words, in any spelling. */
  lemma AllIff(part: string)
    ensures Normalize(part) == ALL <==> Alike(part, "speaker all")
  {
    AllIsNormal();
    NormalizedAlikeIff(part, "speaker all");
  }

  /**
   * Two entries count as one speaker exactly when their trimmed ids are the same, or, when neither has one, their
   * names are alike and their kinds the same; an id never stands for a name unless it spells out name, bar and kind.
   */
  lemma OneSpeakerIff(a: Target, b: Target)
    requires '|' !in a.kind && '|' !in b.kind
    ensures Key(a) == Key(b)
            <==> if TrimSpace(a.id) != "" && TrimSpace(b.id) != "" then TrimSpace(a.id) == TrimSpace(b.id)
                 else if TrimSpace(a.id) == "" && TrimSpace(b.id) == "" then Alike(a.name, b.name) && a.kind == b.kind
                 else if TrimSpace(a.id) != "" then TrimSpace(a.id) == Normalize(b.name) + "|" + b.kind
                 else TrimSpace(b.id) == Normalize(a.name) + "|" + a.kind
  {
    NormalizedAlikeIff(a.name, b.name);
    if Normalize(a.name) + "|" + a.kind == Normalize(b.name) + "|" + b.kind {
      SplitAtLast('|', Normalize(a.name), a.kind, Normalize(b.name), b.kind);
    }
  }

  // ---------- The parts of a request ----------

  /** A part of a request: a name without commas, perhaps blank, and the white space around it. */
  datatype Piece = Piece(before: string, name: string, after: string)

  function Padded(p: Piece): string {
    p.before + p.name + p.after
  }

  /** The name has no white space at its ends and no comma. */
  predicate Clean(p: Piece) {
    && Blank(p.before) && Blank(p.after) && ',' !in p.name
    && (p.name != "" ==> !GoSpace(p.name[0]) && !GoSpace(p.name[|p.name| - 1]))
  }

  function Texts(ps: seq<Piece>): (r: seq<string>)
    ensures |r| == |ps| && forall i :: 0 <= i < |r| ==> r[i] == Padded(ps[i])
  {
    seq(|ps|, i requires 0 <= i < |ps| => Padded(ps[i]))
  }

  /** The names that are not blank, in order. */
  function Names(ps: seq<Piece>): seq<string> {
    if ps == [] then []
    else Names(ps[..|ps| - 1]) + if ps[|ps| - 1].name == "" then [] else [ps[|ps| - 1].name]
  }

  lemma {:induction false} SplitOfOne(part: string)
    requires ',' !in part
    ensures Split(part) == [part]
  {
    if part != "" {
      SplitOfOne(part[1..]);
      assert [part[0]] + part[1..] == part;
    }
  }

  lemma {:induction false} SplitAtFirst(part: string, rest: string)
    requires ',' !in part
    ensures Split(part + "," + rest) == [part] + Split(rest)
  {
    var s := part + "," + rest;
    if part == "" {
      assert s[1..] == rest;
    } else {
      assert s[1..] == part[1..] + "," + rest;
      SplitAtFirst(part[1..], rest);
      assert [part[0]] + part[1..] == part;
    }
  }

  lemma {:induction false} SplitUnsplits(parts: seq<string>)
    requires parts != [] && forall i :: 0 <= i < |parts| ==> ',' !in parts[i]
    ensures Split(Unsplit(parts)) == parts
  {
    if |parts| == 1 {
      SplitOfOne(parts[0]);
    } else {
      SplitUnsplits(parts[1..]);
      SplitAtFirst(parts[0], Unsplit(parts[1..]));
    }
  }

  lemma CleanIsTrimmed(p: Piece)
    requires Clean(p)
    ensures TrimSpace(Padded(p)) == p.name && ',' !in Padded(p)
  {
    if p.name != "" {
      TrimDropsPadding(p.before, p.name, p.after, c => GoSpace(c));
    } else {
      BlankIff(Padded(p));
    }
  }

  lemma {:induction false} TrimmedIsNames(ps: seq<Piece>)
    requires forall i :: 0 <= i < |ps| ==> Clean(ps[i])
    ensures Trimmed(Texts(ps)) == Names(ps)
  {
    if ps != [] {
      var n := |ps| - 1;
      TrimmedIsNames(ps[..n]);
      CleanIsTrimmed(ps[n]);
      assert Texts(ps)[..n] == Texts(ps[..n]);
    }
  }

  /** Names strung together by commas and white space are the parts of the request, in order. */
  lemma NamesReadBack(ps: seq<Piece>)
    requires ps != [] && Names(ps) != [] && forall i :: 0 <= i < |ps| ==> Clean(ps[i])
    ensures Queries(Unsplit(Texts(ps))) == Names(ps)
  {
    forall i | 0 <= i < |ps|
      ensures ',' !in Texts(ps)[i]
    {
      CleanIsTrimmed(ps[i]);
    }
    SplitUnsplits(Texts(ps));
    TrimmedIsNames(ps);
  }
}
