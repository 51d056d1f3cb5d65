// internal/cli/cli.go: which speakers a request names.

module Speakers {
  import opened Common
  import opened Text

  datatype Target = Target(id: string, name: string, kind: string)

  datatype ResolveError = NotNamed | Ambiguous(part: string) | NoMatch(part: string) | NoSpeakers

  const ALL := "speaker all"

  // ---------- Spelling ----------

  function SpacedChar(c: char): char {
    if c == '-' || c == '_' || c == '.' then ' ' else c
  }

  function Spaced(s: string): (r: string)
    ensures |r| == |s| && forall i :: 0 <= i < |s| ==> r[i] == SpacedChar(s[i])
  {
    if s == [] then [] else [SpacedChar(s[0])] + Spaced(s[1..])
  }

  function WordEnd(s: string): (n: nat)
    ensures n <= |s| && forall i :: 0 <= i < n ==> !GoSpace(s[i])
    ensures n < |s| ==> GoSpace(s[n])
  {
    if s == [] || GoSpace(s[0]) then 0 else 1 + WordEnd(s[1..])
  }

  function Words(s: string): seq<string>
    decreases |s|
  {
    if s == [] then []
    else if GoSpace(s[0]) then Words(s[1..])
    else [s[..WordEnd(s)]] + Words(s[WordEnd(s)..])
  }

  function Join(words: seq<string>): string {
    if words == [] then ""
    else if |words| == 1 then words[0]
    else words[0] + " " + Join(words[1..])
  }

  function Normalize(value: string): string {
    Join(Words(Spaced(TrimSpace(Lower(value)))))
  }

  predicate PlainWord(w: string) {
    w != [] && forall c <- w :: !GoSpace(c)
  }

  lemma {:induction false} WordsArePlain(s: string)
    ensures forall w <- Words(s) :: PlainWord(w) && forall c <- w :: c in s
    decreases |s|
  {
    if s == [] {
    } else if GoSpace(s[0]) {
      WordsArePlain(s[1..]);
    } else {
      WordsArePlain(s[WordEnd(s)..]);
      assert forall c <- s[..WordEnd(s)] :: c in s;
    }
  }

  lemma WordInFront(w: string, more: string)
    requires PlainWord(w) && (more == [] || GoSpace(more[0]))
    ensures Words(w + more) == [w] + Words(more)
  {
    forall i | 0 <= i < |w|
      ensures !GoSpace((w + more)[i])
    {
      assert w[i] in w;
    }
    assert more != [] ==> (w + more)[|w|] == more[0];
    assert WordEnd(w + more) == |w|;
    assert (w + more)[..|w|] == w && (w + more)[|w|..] == more;
  }

  lemma {:induction false} WordsOfJoined(words: seq<string>)
    requires forall w <- words :: PlainWord(w)
    ensures Words(Join(words)) == words
  {
    if words == [] {
    } else if |words| == 1 {
      WordInFront(words[0], "");
      assert words[0] + "" == words[0];
    } else {
      WordsOfJoined(words[1..]);
      var more := " " + Join(words[1..]);
      WordInFront(words[0], more);
      assert more[1..] == Join(words[1..]);
      assert words[0] + " " + Join(words[1..]) == words[0] + more;
    }
  }

  lemma {:induction false} JoinedEnds(words: seq<string>)
    requires words != [] && forall w <- words :: PlainWord(w)
    ensures var s := Join(words);
            && s != [] && !GoSpace(s[0]) && !GoSpace(s[|s| - 1])
            && forall c <- s :: c == ' ' || exists w <- words :: c in w
  {
    if |words| > 1 {
      JoinedEnds(words[1..]);
    }
    assert PlainWord(words[0]) && words[0] in words;
  }

  /** No upper case and no separator. */
  predicate Settled(s: string) {
    forall i :: 0 <= i < |s| ==> LowerChar(s[i]) == s[i] && SpacedChar(s[i]) == s[i]
  }

  lemma CharSettles(c: char)
    ensures var d := SpacedChar(LowerChar(c)); LowerChar(d) == d && SpacedChar(d) == d
  {
  }

  lemma TextSettles(value: string)
    ensures Settled(Spaced(TrimSpace(Lower(value))))
  {
    var lower, trimmed := Lower(value), TrimSpace(Lower(value));
    var before, after := TrimSplits(lower, c => GoSpace(c));
    var text := Spaced(trimmed);
    forall i | 0 <= i < |text|
      ensures LowerChar(text[i]) == text[i] && SpacedChar(text[i]) == text[i]
    {
      assert trimmed[i] == (before + trimmed + after)[|before| + i];
      CharSettles(value[|before| + i]);
    }
  }

  lemma SettledStays(s: string)
    requires Settled(s)
    requires s != [] && !GoSpace(s[0]) && !GoSpace(s[|s| - 1])
    ensures Spaced(TrimSpace(Lower(s))) == s
  {
  }

  lemma JoinedIsSettled(words: seq<string>, text: string)
    requires Settled(text) && words != []
    requires forall w <- words :: PlainWord(w) && forall c <- w :: c in text
    ensures Settled(Join(words))
  {
    JoinedEnds(words);
    var s := Join(words);
    forall i | 0 <= i < |s|
      ensures LowerChar(s[i]) == s[i] && SpacedChar(s[i]) == s[i]
    {
      if s[i] != ' ' {
        assert s[i] in s;
        var w :| w in words && s[i] in w;
        assert s[i] in text;
      }
    }
  }

  /** Case, padding and separators are gone after one pass: spelling a name as it is normalised changes nothing. */
  lemma NormalizeIsIdempotent(value: string)
    ensures Normalize(Normalize(value)) == Normalize(value)
  {
    var text := Spaced(TrimSpace(Lower(value)));
    var words := Words(text);
    WordsArePlain(text);
    if words != [] {
      TextSettles(value);
      JoinedIsSettled(words, text);
      JoinedEnds(words);
      SettledStays(Join(words));
      WordsOfJoined(words);
    }
  }

  // ---------- The parts of a request ----------

  /** The pieces of `s` between commas. */
  function Split(s: string): (parts: seq<string>)
    ensures parts != []
  {
    if s == [] then [""]
    else if s[0] == ',' then [""] + Split(s[1..])
    else
      var rest := Split(s[1..]);
      [[s[0]] + rest[0]] + rest[1..]
  }

  function Unsplit(parts: seq<string>): string
    requires parts != []
  {
    if |parts| == 1 then parts[0] else parts[0] + "," + Unsplit(parts[1..])
  }

  lemma {:induction false} SplitsAtCommas(s: string)
    ensures Unsplit(Split(s)) == s && forall part <- Split(s) :: ',' !in part
  {
    if s != [] {
      SplitsAtCommas(s[1..]);
      var rest := Split(s[1..]);
      if s[0] == ',' {
        assert ([""] + rest)[1..] == rest;
      } else {
        var parts := Split(s);
        assert parts[1..] == rest[1..];
        assert rest[0] in rest;
        if |rest| > 1 {
          assert [s[0]] + rest[0] + "," + Unsplit(rest[1..]) == [s[0]] + (rest[0] + "," + Unsplit(rest[1..]));
        }
      }
    }
  }

  function Trimmed(parts: seq<string>): seq<string> {
    if parts == [] then []
    else
      var front := Trimmed(parts[..|parts| - 1]);
      var last := TrimSpace(parts[|parts| - 1]);
      if last == "" then front else front + [last]
  }

  /** What a request asks for, part by part; one of nothing but commas is a single part. */
  function Queries(query: string): seq<string> {
    var values := Trimmed(Split(query));
    if values == [] && TrimSpace(query) != "" then [TrimSpace(query)] else values
  }

  method SplitSpeakerQueries(query: string) returns (values: seq<string>)
    ensures values == Queries(query)
  {
    var parts := Split(query);
    values := [];
    for i := 0 to |parts|
      invariant values == Trimmed(parts[..i])
    {
      assert parts[..i + 1][..i] == parts[..i];
      var part := TrimSpace(parts[i]);
      if part != "" {
        values := values + [part];
      }
    }
    assert parts[..|parts|] == parts;
    if |values| == 0 && TrimSpace(query) != "" {
      values := values + [TrimSpace(query)];
    }
  }

  // ---------- One entry for each speaker ----------

  function Key(t: Target): string {
    if TrimSpace(t.id) != "" then TrimSpace(t.id) else Normalize(t.name) + "|" + t.kind
  }

  ghost function Deduped<T>(entries: seq<T>, key: T -> string): seq<T> {
    if entries == [] then []
    else
      var front, last := entries[..|entries| - 1], entries[|entries| - 1];
      if exists e <- front :: key(e) == key(last) then Deduped(front, key) else Deduped(front, key) + [last]
  }

  lemma OneMoreEntry<T>(s: seq<T>, key: T -> string, i: nat)
    requires i < |s|
    ensures (set e | e in s[..i + 1] :: key(e)) == (set e | e in s[..i] :: key(e)) + {key(s[i])}
    ensures Deduped(s[..i + 1], key) ==
            if key(s[i]) in (set e | e in s[..i] :: key(e)) then Deduped(s[..i], key)
            else Deduped(s[..i], key) + [s[i]]
  {
    assert s[..i + 1] == s[..i] + [s[i]];
    assert s[..i + 1][..i] == s[..i];
  }

  method DedupeBy<T>(entries: seq<T>, key: T -> string) returns (deduped: seq<T>)
    ensures deduped == Deduped(entries, key)
  {
    var seen: set<string> := {};
    deduped := [];
    for i := 0 to |entries|
      invariant seen == set e | e in entries[..i] :: key(e)
      invariant deduped == Deduped(entries[..i], key)
    {
      OneMoreEntry(entries, key, i);
      if key(entries[i]) !in seen {
        seen := seen + {key(entries[i])};
        deduped := deduped + [entries[i]];
      }
    }
    assert entries[..|entries|] == entries;
  }

  method DedupeSpeakerTargets(entries: seq<Target>) returns (deduped: seq<Target>)
    ensures deduped == Deduped(entries, Key)
  {
    deduped := DedupeBy(entries, Key);
  }

  ghost predicate Increasing(places: seq<nat>) {
    forall i, j :: 0 <= i < j < |places| ==> places[i] < places[j]
  }

  ghost predicate HasKey<T>(entries: seq<T>, key: T -> string, text: string) {
    exists k :: 0 <= k < |entries| && key(entries[k]) == text
  }

  /** `kept` is the first entry of every key, in the order of `entries`; `places` says where. */
  ghost predicate FirstOfEach<T>(entries: seq<T>, key: T -> string, kept: seq<T>, places: seq<nat>) {
    && Increasing(places) && |places| == |kept|
    && (forall k :: 0 <= k < |places| ==> places[k] < |entries| && kept[k] == entries[places[k]])
    && (forall k, j :: 0 <= k < |places| && 0 <= j < places[k] ==> key(entries[j]) != key(kept[k]))
    && (forall e {:trigger HasKey(kept, key, key(e))} :: e in entries ==> HasKey(kept, key, key(e)))
  }

  lemma KnownKeyAddsNothing<T>(front: seq<T>, key: T -> string, last: T, kept: seq<T>, places: seq<nat>)
    requires FirstOfEach(front, key, kept, places)
    requires exists e <- front :: key(e) == key(last)
    ensures FirstOfEach(front + [last], key, kept, places)
  {
  }

  lemma NewKeyIsAdded<T>(front: seq<T>, key: T -> string, last: T, kept: seq<T>, places: seq<nat>)
    requires FirstOfEach(front, key, kept, places)
    requires forall e <- front :: key(e) != key(last)
    ensures FirstOfEach(front + [last], key, kept + [last], places + [|front|])
  {
    var more := kept + [last];
    forall e | e in front + [last]
      ensures HasKey(more, key, key(e))
    {
      if e in front {
        assert HasKey(kept, key, key(e));
        var k :| 0 <= k < |kept| && key(kept[k]) == key(e);
        assert more[k] == kept[k];
      } else {
        assert more[|kept|] == last;
      }
    }
  }

  lemma {:induction false} DedupedKeepsTheFirst<T>(entries: seq<T>, key: T -> string) returns (places: seq<nat>)
    ensures FirstOfEach(entries, key, Deduped(entries, key), places)
  {
    if entries == [] {
      places := [];
    } else {
      var front, last := entries[..|entries| - 1], entries[|entries| - 1];
      assert entries == front + [last];
      places := DedupedKeepsTheFirst(front, key);
      if exists e <- front :: key(e) == key(last) {
        KnownKeyAddsNothing(front, key, last, Deduped(front, key), places);
        assert Deduped(entries, key) == Deduped(front, key);
      } else {
        NewKeyIsAdded(front, key, last, Deduped(front, key), places);
        assert Deduped(entries, key) == Deduped(front, key) + [last];
        places := places + [|front|];
      }
    }
  }

  lemma KeysAreDistinct<T>(entries: seq<T>, key: T -> string, i: nat, j: nat)
    requires i < j < |Deduped(entries, key)|
    ensures key(Deduped(entries, key)[i]) != key(Deduped(entries, key)[j])
  {
    var places := DedupedKeepsTheFirst(entries, key);
    assert places[i] < places[j];
  }
}
