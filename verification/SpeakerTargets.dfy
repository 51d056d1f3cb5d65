// internal/cli/cli.go: resolveSpeakerTargets, the speakers that a request is carried out on.

module SpeakerTargets {
  import opened Common
  import opened Text
  import opened Speakers

  datatype How = Exactly | Within

  predicate Contains(s: string, part: string) {
    exists i | 0 <= i <= |s| :: part <= s[i..]
  }

  predicate Matches(t: Target, normalized: string, how: How) {
    match how {
      case Exactly => Normalize(t.name) == normalized || Normalize(t.id) == normalized
      case Within => Contains(Normalize(t.name), normalized)
    }
  }

  function Matcher(normalized: string, how: How): Target -> bool {
    (t: Target) => Matches(t, normalized, how)
  }

  function Filter<T>(s: seq<T>, p: T -> bool): seq<T> {
    if s == [] then []
    else
      var front, last := Filter(s[..|s| - 1], p), s[|s| - 1];
      if p(last) then front + [last] else front
  }

  function Matching(entries: seq<Target>, normalized: string, how: How): seq<Target> {
    Filter(entries, Matcher(normalized, how))
  }

  /** What one part of a request stands for. */
  function Part(entries: seq<Target>, part: string): Result<seq<Target>, ResolveError> {
    var normalized := Normalize(part);
    var exact := Matching(entries, normalized, Exactly);
    var partial := Matching(entries, normalized, Within);
    if normalized == ALL then Ok(entries)
    else if |exact| == 1 then Ok(exact)
    else if |exact| > 1 then Err(Ambiguous(part))
    else if |partial| == 1 then Ok(partial)
    else if |partial| > 1 then Err(Ambiguous(part))
    else Err(NoMatch(part))
  }

  function Parts(entries: seq<Target>, queries: seq<string>): Result<seq<Target>, ResolveError> {
    if queries == [] then Ok([])
    else
      match Parts(entries, queries[..|queries| - 1]) {
        case Err(error) => Err(error)
        case Ok(front) =>
          match Part(entries, queries[|queries| - 1]) {
            case Err(error) => Err(error)
            case Ok(more) => Ok(front + more)
          }
      }
  }

  ghost function Resolved(entries: seq<Target>, query: string): Result<seq<Target>, ResolveError> {
    if TrimSpace(query) == "" then
      if |entries| == 1 then Ok(entries) else Err(NotNamed)
    else
      match Parts(entries, Queries(TrimSpace(query))) {
        case Err(error) => Err(error)
        case Ok(all) => if Deduped(all, Key) == [] then Err(NoSpeakers) else Ok(Deduped(all, Key))
      }
  }

  method CollectMatches(entries: seq<Target>, normalized: string, how: How) returns (found: seq<Target>)
    ensures found == Matching(entries, normalized, how)
  {
    found := [];
    for i := 0 to |entries|
      invariant found == Matching(entries[..i], normalized, how)
    {
      assert entries[..i + 1][..i] == entries[..i];
      if Matches(entries[i], normalized, how) {
        found := found + [entries[i]];
      }
    }
    assert entries[..|entries|] == entries;
  }

  method ResolvePart(entries: seq<Target>, part: string) returns (r: Result<seq<Target>, ResolveError>)
    ensures r == Part(entries, part)
  {
    var normalized := Normalize(part);
    if normalized == ALL {
      return Ok(entries);
    }
    var exact := CollectMatches(entries, normalized, Exactly);
    if |exact| == 1 {
      assert exact == [exact[0]];
      return Ok([exact[0]]);
    }
    if |exact| > 1 {
      return Err(Ambiguous(part));
    }
    var partial := CollectMatches(entries, normalized, Within);
    if |partial| == 1 {
      assert partial == [partial[0]];
      return Ok([partial[0]]);
    }
    if |partial| > 1 {
      return Err(Ambiguous(part));
    }
    return Err(NoMatch(part));
  }

  method ResolveParts(entries: seq<Target>, queries: seq<string>) returns (r: Result<seq<Target>, ResolveError>)
    ensures r == Parts(entries, queries)
  {
    var resolved := [];
    for i := 0 to |queries|
      invariant Parts(entries, queries[..i]) == Ok(resolved)
    {
      PartsStep(entries, queries, i);
      var more := ResolvePart(entries, queries[i]);
      if more.Err? {
        return Err(more.error);
      }
      resolved := resolved + more.value;
    }
    assert queries[..|queries|] == queries;
    return Ok(resolved);
  }

  method ResolveSpeakerTargets(entries: seq<Target>, request: string)
    returns (r: Result<seq<Target>, ResolveError>)
    ensures r == Resolved(entries, request)
  {
    var query := TrimSpace(request);
    if query == "" {
      if |entries| == 1 {
        assert entries == [entries[0]];
        return Ok([entries[0]]);
      }
      return Err(NotNamed);
    }
    var queries := SplitSpeakerQueries(query);
    if |queries| == 1 && Normalize(queries[0]) == ALL {
      AllAlone(entries, queries);
      if |entries| == 0 {
        return Err(NoSpeakers);
      }
      DedupedIsEmptyIff(entries, Key);
      var everyone := DedupeSpeakerTargets(entries);
      return Ok(everyone);
    }
    var all := ResolveParts(entries, queries);
    if all.Err? {
      return Err(all.error);
    }
    var resolved := DedupeSpeakerTargets(all.value);
    if |resolved| == 0 {
      return Err(NoSpeakers);
    }
    return Ok(resolved);
  }

  lemma AllAlone(entries: seq<Target>, queries: seq<string>)
    requires |queries| == 1 && Normalize(queries[0]) == ALL
    ensures Parts(entries, queries) == Ok(entries)
  {
    assert queries[..0] == [];
    assert Parts(entries, queries[..0]) == Ok([]);
    assert [] + entries == entries;
  }

  lemma DedupedIsEmptyIff<T>(entries: seq<T>, key: T -> string)
    ensures Deduped(entries, key) == [] <==> entries == []
  {
  }

  /** The next part decides alone whether the parts up to it are refused, and for all the parts if it is. */
  lemma PartsStep(entries: seq<Target>, queries: seq<string>, i: nat)
    requires i < |queries| && Parts(entries, queries[..i]).Ok?
    ensures Parts(entries, queries[..i + 1]) ==
            match Part(entries, queries[i]) {
              case Err(error) => Err(error)
              case Ok(more) => Ok(Parts(entries, queries[..i]).value + more)
            }
    ensures Part(entries, queries[i]).Err? ==> Parts(entries, queries) == Err(Part(entries, queries[i]).error)
  {
    assert queries[..i + 1][..i] == queries[..i];
    if Part(entries, queries[i]).Err? {
      PartsStayRefused(entries, queries, i + 1);
    }
  }

  lemma {:induction false} PartsStayRefused(entries: seq<Target>, queries: seq<string>, i: nat)
    requires i <= |queries| && Parts(entries, queries[..i]).Err?
    ensures Parts(entries, queries) == Parts(entries, queries[..i])
  {
    if i == |queries| {
      assert queries[..i] == queries;
    } else {
      var front := queries[..|queries| - 1];
      assert front[..i] == queries[..i];
      PartsStayRefused(entries, front, i);
    }
  }

  // ---------- What a request means ----------

  /** `t` is the one element that satisfies `p`. */
  ghost predicate Only<T>(s: seq<T>, p: T -> bool, t: T) {
    exists i :: 0 <= i < |s| && s[i] == t && p(s[i]) && forall j :: 0 <= j < |s| && j != i ==> !p(s[j])
  }

  ghost predicate Nowhere<T>(s: seq<T>, p: T -> bool) {
    forall j :: 0 <= j < |s| ==> !p(s[j])
  }

  ghost predicate Twice<T>(s: seq<T>, p: T -> bool) {
    exists i, j :: 0 <= i < j < |s| && p(s[i]) && p(s[j])
  }

  lemma {:induction false} FilterFindsNone<T>(s: seq<T>, p: T -> bool)
    ensures Filter(s, p) == [] <==> Nowhere(s, p)
  {
    if s != [] {
      FilterFindsNone(s[..|s| - 1], p);
    }
  }

  lemma {:induction false} FilterFindsOne<T>(s: seq<T>, p: T -> bool, t: T)
    ensures Filter(s, p) == [t] <==> Only(s, p, t)
  {
    if s != [] {
      var n := |s| - 1;
      FilterFindsNone(s[..n], p);
      FilterFindsOne(s[..n], p, t);
      assert (Filter(s[..n], p) + [s[n]] == [t]) == (Filter(s[..n], p) == [] && s[n] == t) by {
        assert Filter(s[..n], p) == [] ==> Filter(s[..n], p) + [s[n]] == [s[n]];
        assert |Filter(s[..n], p) + [s[n]]| == |Filter(s[..n], p)| + 1;
        assert (Filter(s[..n], p) + [s[n]])[|Filter(s[..n], p)|] == s[n];
      }
      assert p(s[n]) ==> (Only(s, p, t) <==> t == s[n] && Nowhere(s[..n], p));
      assert !p(s[n]) ==> (Only(s, p, t) <==> Only(s[..n], p, t));
    }
  }

  lemma {:induction false} FilterFindsSeveral<T>(s: seq<T>, p: T -> bool)
    ensures |Filter(s, p)| > 1 <==> Twice(s, p)
  {
    if s != [] {
      var n := |s| - 1;
      FilterFindsNone(s[..n], p);
      FilterFindsSeveral(s[..n], p);
    }
  }

  ghost predicate OnlyMatch(entries: seq<Target>, normalized: string, how: How, t: Target) {
    Only(entries, Matcher(normalized, how), t)
  }

  ghost predicate NoneMatches(entries: seq<Target>, normalized: string, how: How) {
    Nowhere(entries, Matcher(normalized, how))
  }

  ghost predicate SeveralMatch(entries: seq<Target>, normalized: string, how: How) {
    Twice(entries, Matcher(normalized, how))
  }

  lemma CountsOfMatching(entries: seq<Target>, normalized: string, how: How)
    ensures Matching(entries, normalized, how) == [] <==> NoneMatches(entries, normalized, how)
    ensures forall t :: Matching(entries, normalized, how) == [t] <==> OnlyMatch(entries, normalized, how, t)
    ensures |Matching(entries, normalized, how)| > 1 <==> SeveralMatch(entries, normalized, how)
  {
    var p := Matcher(normalized, how);
    FilterFindsNone(entries, p);
    FilterFindsSeveral(entries, p);
    forall t
      ensures Filter(entries, p) == [t] <==> Only(entries, p, t)
    {
      FilterFindsOne(entries, p, t);
    }
  }

  /** `got` is what `part` stands for: everyone, its one exact match, or without any its one match within a name. */
  ghost predicate Share(entries: seq<Target>, part: string, got: seq<Target>) {
    var n := Normalize(part);
    if n == ALL then got == entries
    else
      && |got| == 1
      && (|| OnlyMatch(entries, n, Exactly, got[0])
          || (NoneMatches(entries, n, Exactly) && OnlyMatch(entries, n, Within, got[0])))
  }

  lemma PartIsItsShare(entries: seq<Target>, part: string, got: seq<Target>)
    ensures Part(entries, part) == Ok(got) <==> Share(entries, part, got)
  {
    var n := Normalize(part);
    CountsOfMatching(entries, n, Exactly);
    CountsOfMatching(entries, n, Within);
    if |got| == 1 {
      assert got == [got[0]];
    }
  }

  /** A part is refused as ambiguous or as unknown exactly for the number of entries that match it. */
  lemma PartIsRefusedIff(entries: seq<Target>, part: string)
    ensures var n := Normalize(part);
            var exact, within := SeveralMatch(entries, n, Exactly), SeveralMatch(entries, n, Within);
            && (Part(entries, part) == Err(Ambiguous(part)) <==>
                n != ALL && (exact || (NoneMatches(entries, n, Exactly) && within)))
            && (Part(entries, part) == Err(NoMatch(part)) <==>
                n != ALL && NoneMatches(entries, n, Exactly) && NoneMatches(entries, n, Within))
  {
    var n := Normalize(part);
    CountsOfMatching(entries, n, Exactly);
    CountsOfMatching(entries, n, Within);
  }

  function Concat(shares: seq<seq<Target>>): seq<Target> {
    if shares == [] then [] else Concat(shares[..|shares| - 1]) + shares[|shares| - 1]
  }

  ghost predicate Shares(entries: seq<Target>, queries: seq<string>, shares: seq<seq<Target>>) {
    |shares| == |queries| && forall k :: 0 <= k < |shares| ==> Share(entries, queries[k], shares[k])
  }

  lemma OneMoreShare(entries: seq<Target>, queries: seq<string>, front: seq<seq<Target>>, got: seq<Target>)
    returns (shares: seq<seq<Target>>)
    requires queries != [] && Shares(entries, queries[..|queries| - 1], front)
    requires Share(entries, queries[|queries| - 1], got)
    ensures Shares(entries, queries, shares) && Concat(shares) == Concat(front) + got
  {
    shares := front + [got];
    assert shares[..|front|] == front;
    forall k | 0 <= k < |shares|
      ensures Share(entries, queries[k], shares[k])
    {
      if k < |front| {
        assert Share(entries, queries[..|queries| - 1][k], front[k]);
      }
    }
  }

  lemma {:induction false} SharesOfParts(entries: seq<Target>, queries: seq<string>) returns (shares: seq<seq<Target>>)
    requires Parts(entries, queries).Ok?
    ensures Shares(entries, queries, shares) && Concat(shares) == Parts(entries, queries).value
  {
    shares := [];
    if queries != [] {
      var n := |queries| - 1;
      var front := SharesOfParts(entries, queries[..n]);
      var got := Part(entries, queries[n]).value;
      PartIsItsShare(entries, queries[n], got);
      shares := OneMoreShare(entries, queries, front, got);
    }
  }

  lemma {:induction false} PartsOfShares(entries: seq<Target>, queries: seq<string>, shares: seq<seq<Target>>)
    requires Shares(entries, queries, shares)
    ensures Parts(entries, queries) == Ok(Concat(shares))
  {
    if queries != [] {
      var n := |queries| - 1;
      PartsOfShares(entries, queries[..n], shares[..n]);
      PartIsItsShare(entries, queries[n], shares[n]);
    }
  }

  /** Each part of the request has its share, and the targets are the first of each key among the shares in order. */
  ghost predicate Asked(entries: seq<Target>, query: string, targets: seq<Target>, shares: seq<seq<Target>>) {
    && Shares(entries, Queries(query), shares)
    && targets == Deduped(Concat(shares), Key)
  }

  /** Resolution is never arbitrary: exactly these targets are returned, and never none. */
  lemma ResolvedExactlyWhenAsked(entries: seq<Target>, request: string, targets: seq<Target>)
    ensures Resolved(entries, request) == Ok(targets) <==>
            && targets != []
            && if TrimSpace(request) == "" then |entries| == 1 && targets == entries
               else exists shares :: Asked(entries, TrimSpace(request), targets, shares)
  {
    var query := TrimSpace(request);
    if query != "" {
      if Parts(entries, Queries(query)).Ok? {
        var shares := SharesOfParts(entries, Queries(query));
        assert Asked(entries, query, Deduped(Concat(shares), Key), shares);
      }
      forall shares | Asked(entries, query, targets, shares)
        ensures Parts(entries, Queries(query)) == Ok(Concat(shares))
      {
        PartsOfShares(entries, Queries(query), shares);
      }
    }
  }

  predicate Accepted(entries: seq<Target>, queries: seq<string>, n: nat)
    requires n <= |queries|
  {
    forall j :: 0 <= j < n ==> Part(entries, queries[j]).Ok?
  }

  /** Some part is refused for `e`, and none before it is refused. */
  ghost predicate FirstRefusal(entries: seq<Target>, queries: seq<string>, e: ResolveError) {
    exists k: nat :: k < |queries| && RefusedAt(entries, queries, k, e)
  }

  predicate RefusedAt(entries: seq<Target>, queries: seq<string>, k: nat, e: ResolveError)
    requires k < |queries|
  {
    Accepted(entries, queries, k) && Part(entries, queries[k]) == Err(e)
  }

  lemma RefusalInFront(entries: seq<Target>, queries: seq<string>, e: ResolveError)
    requires queries != []
    ensures var n := |queries| - 1;
            && (Accepted(entries, queries, n) <==> Accepted(entries, queries[..n], n))
            && (FirstRefusal(entries, queries, e)
                <==> FirstRefusal(entries, queries[..n], e) || RefusedAt(entries, queries, n, e))
  {
    var n, front := |queries| - 1, queries[..|queries| - 1];
    forall k: nat | k < n
      ensures RefusedAt(entries, queries, k, e) <==> RefusedAt(entries, front, k, e)
    {
      assert forall j :: 0 <= j < k ==> front[j] == queries[j];
    }
    if k: nat :| k < |queries| && RefusedAt(entries, queries, k, e) {
      assert k < n ==> RefusedAt(entries, front, k, e);
    }
  }

  lemma {:induction false} PartsAreRefusedIff(entries: seq<Target>, queries: seq<string>, e: ResolveError)
    ensures Parts(entries, queries) == Err(e) <==> FirstRefusal(entries, queries, e)
    ensures Parts(entries, queries).Ok? <==> Accepted(entries, queries, |queries|)
  {
    if queries != [] {
      PartsAreRefusedIff(entries, queries[..|queries| - 1], e);
      RefusalInFront(entries, queries, e);
    }
  }

  /**
   * A request is refused for naming no speaker where there is not just one, for the first of its parts that is
   * refused, or for asking everyone where there is nobody.
   */
  lemma ResolvedIsRefusedFor(entries: seq<Target>, request: string, e: ResolveError)
    ensures var queries := Queries(TrimSpace(request));
            Resolved(entries, request) == Err(e) <==>
            if TrimSpace(request) == "" then |entries| != 1 && e == NotNamed
            else || FirstRefusal(entries, queries, e)
                 || (e == NoSpeakers && exists shares :: Shares(entries, queries, shares) && Concat(shares) == [])
  {
    var queries := Queries(TrimSpace(request));
    PartsAreRefusedIff(entries, queries, e);
    if Parts(entries, queries).Ok? {
      var shares := SharesOfParts(entries, queries);
      DedupedIsEmptyIff(Concat(shares), Key);
    }
    forall shares | Shares(entries, queries, shares)
      ensures Parts(entries, queries) == Ok(Concat(shares))
    {
      PartsOfShares(entries, queries, shares);
    }
  }
}
