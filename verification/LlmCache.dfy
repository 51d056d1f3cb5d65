// internal/llm/cache.go: a cache with a time to live and a capacity, kept in one list and saved as one file.

module LlmCache {
  import opened Common

  datatype Entry = Entry(key: string, value: string, createdAt: nat)

  datatype Limits = Limits(ttl: int, maxEntries: nat)

  // -------------------------------------------------------- the operations

  function Without(es: seq<Entry>, key: string): seq<Entry> {
    if es == [] then []
    else if es[0].key == key then Without(es[1..], key)
    else [es[0]] + Without(es[1..], key)
  }

  predicate Expired(e: Entry, now: int, ttl: int) {
    ttl > 0 && now - e.createdAt > ttl
  }

  function Fresh(es: seq<Entry>, now: int, ttl: int): seq<Entry> {
    if es == [] then []
    else if Expired(es[0], now, ttl) then Fresh(es[1..], now, ttl)
    else [es[0]] + Fresh(es[1..], now, ttl)
  }

  function Find(es: seq<Entry>, key: string): Option<string> {
    if es == [] then None
    else if es[0].key == key then Some(es[0].value)
    else Find(es[1..], key)
  }

  function Take(es: seq<Entry>, max: nat): seq<Entry> {
    if |es| <= max then es else es[..max]
  }

  /** A put into a list that is newest first, by an entry newer than all of it. */
  function PutInto(es: seq<Entry>, p: Entry, l: Limits): seq<Entry> {
    Take([p] + Without(Fresh(es, p.createdAt, l.ttl), p.key), l.maxEntries)
  }

  predicate NewestFirst(es: seq<Entry>) {
    forall i, j :: 0 <= i < j < |es| ==> es[i].createdAt > es[j].createdAt
  }

  ghost predicate NoneOlderFirst(es: seq<Entry>) {
    forall i, j :: 0 <= i < j < |es| ==> es[i].createdAt >= es[j].createdAt
  }

  ghost predicate SortedWith(es: seq<Entry>, p: Entry, sorted: seq<Entry>) {
    multiset(sorted) == multiset(es) + multiset{p} && NoneOlderFirst(sorted)
  }

  /** What a put leaves, at any time: a front part of the young entries of other keys and the new one, newest first. */
  ghost predicate PutSomehow(es: seq<Entry>, p: Entry, l: Limits, after: seq<Entry>) {
    exists sorted ::
      SortedWith(Without(Fresh(es, p.createdAt, l.ttl), p.key), p, sorted) && after == Take(sorted, l.maxEntries)
  }

  predicate OlderThan(es: seq<Entry>, now: int) {
    forall e <- es :: e.createdAt < now
  }

  // ------------------------------------------------ the process and its file

  /** The memory of the running process and the file, which outlives it. */
  datatype World = World(loaded: bool, entries: seq<Entry>, file: File<seq<Entry>>)

  /** The list in memory once the file has been read, which happens at most once in a process. */
  function Current(w: World): seq<Entry> {
    if !w.loaded && w.file.Holds? then w.file.value else w.entries
  }

  predicate LoadFails(w: World) {
    !w.loaded && !w.file.Holds? && !w.file.Missing?
  }

  datatype Op = Put(entry: Entry, write: Write) | Get(key: string, at: nat) | Restart

  function Step(w: World, op: Op, l: Limits): World {
    match op
    case Restart => World(false, [], w.file)
    case Get(_, at) =>
      if LoadFails(w) then w.(loaded := true) else World(true, Fresh(Current(w), at, l.ttl), w.file)
    case Put(entry, write) =>
      if LoadFails(w) then w.(loaded := true)
      else
        var es := PutInto(Current(w), entry, l);
        World(true, es, Written(w.file, es, write))
  }

  function GetAnswer(w: World, key: string, at: nat, l: Limits): Option<string> {
    Find(Fresh(Current(w), at, l.ttl), key)
  }

  class Disk {
    var file: File<seq<Entry>>

    constructor ()
      ensures file == Missing
    {
      file := Missing;
    }
  }

  class DiskCache {
    const disk: Disk
    const limits: Limits
    var loaded: bool
    var entries: seq<Entry>

    ghost function State(): World
      reads this, disk
    {
      World(loaded, entries, disk.file)
    }

    /** Starting the program: nothing is read yet. */
    constructor (disk: Disk, limits: Limits)
      ensures this.disk == disk && this.limits == limits
      ensures State() == World(false, [], disk.file)
    {
      this.disk, this.limits := disk, limits;
      loaded, entries := false, [];
    }

    method Load() returns (ok: bool)
      modifies this
      ensures loaded && entries == old(Current(State()))
      ensures ok == !old(LoadFails(State()))
    {
      if loaded {
        return true;
      }
      loaded := true;
      match disk.file {
        case Missing => return true;
        case Holds(es) =>
          entries := es;
          return true;
        case _ => return false;
      }
    }

    method PruneExpired(now: int)
      modifies this`entries
      ensures entries == Fresh(old(entries), now, limits.ttl)
    {
      if limits.ttl <= 0 {
        NothingExpires(entries, now, limits.ttl);
        return;
      }
      var all, filtered, i := entries, [], 0;
      while i < |all|
        invariant i <= |all| && entries == all
        invariant filtered + Fresh(all[i..], now, limits.ttl) == Fresh(all, now, limits.ttl)
      {
        if now - all[i].createdAt <= limits.ttl {
          filtered := filtered + [all[i]];
        }
        i := i + 1;
      }
      entries := filtered;
    }

    method Get(key: string, now: nat) returns (ok: bool, found: Option<string>)
      modifies this
      ensures State() == Step(old(State()), Op.Get(key, now), limits)
      ensures ok == !old(LoadFails(State()))
      ensures found == if ok then old(GetAnswer(State(), key, now, limits)) else None
    {
      ok := Load();
      if !ok {
        return false, None;
      }
      PruneExpired(now);
      var i := 0;
      while i < |entries|
        invariant i <= |entries|
        invariant Find(entries[i..], key) == Find(entries, key)
      {
        if entries[i].key == key {
          return true, Some(entries[i].value);
        }
        i := i + 1;
      }
      return true, None;
    }

    /**
     * The sort leaves open how entries of one instant stand to each other. When the entries of the list are older
     * than the new one, and no two were put at one instant, the outcome is the one of `Step`.
     */
    method Put(key: string, value: string, now: nat, write: Write) returns (ok: bool)
      modifies this, disk
      ensures ok == (write == Done && !old(LoadFails(State())))
      ensures old(LoadFails(State())) ==> State() == old(State().(loaded := true))
      ensures !old(LoadFails(State())) ==>
                && State() == World(true, entries, Written(old(disk.file), entries, write))
                && PutSomehow(old(Current(State())), Entry(key, value, now), limits, entries)
      ensures old(NewestFirst(Current(State())) && OlderThan(Current(State()), now)) ==>
                State() == Step(old(State()), Op.Put(Entry(key, value, now), write), limits)
    {
      ok := Load();
      if !ok {
        return false;
      }
      PruneExpired(now);
      FreshKeepsOrder(old(Current(State())), now, limits.ttl);
      WithoutKeepsOrder(entries, key);
      var filtered := RemoveKey(entries, key);
      var sorted := AppendAndSort(filtered, Entry(key, value, now));
      entries := sorted;
      if |entries| > limits.maxEntries {
        entries := entries[..limits.maxEntries];
      }
      disk.file := Written(disk.file, entries, write);
      return write == Done;
    }
  }

  method RemoveKey(es: seq<Entry>, key: string) returns (filtered: seq<Entry>)
    ensures filtered == Without(es, key)
  {
    filtered := [];
    var i := 0;
    while i < |es|
      invariant i <= |es|
      invariant filtered + Without(es[i..], key) == Without(es, key)
    {
      if es[i].key != key {
        filtered := filtered + [es[i]];
      }
      i := i + 1;
    }
  }

  method AppendAndSort(filtered: seq<Entry>, p: Entry) returns (es: seq<Entry>)
    ensures SortedWith(filtered, p, es)
    ensures NewestFirst(filtered) && OlderThan(filtered, p.createdAt) ==> es == [p] + filtered
  {
    es := SortNewestFirst(filtered + [p]);
    if NewestFirst(filtered) && OlderThan(filtered, p.createdAt) {
      SortedListIsUnique([p] + filtered, es);
    }
  }

  /** The library sort: some permutation without an older entry before a newer one. */
  method SortNewestFirst(es: seq<Entry>) returns (sorted: seq<Entry>)
    ensures multiset(sorted) == multiset(es)
    ensures NoneOlderFirst(sorted)
  {
    sorted := [];
    var i := 0;
    while i < |es|
      invariant i <= |es|
      invariant multiset(sorted) == multiset(es[..i])
      invariant NoneOlderFirst(sorted)
    {
      sorted := InsertByTime(sorted, es[i]);
      assert es[..i + 1] == es[..i] + [es[i]];
      i := i + 1;
    }
    assert es[..i] == es;
  }

  method InsertByTime(sorted: seq<Entry>, e: Entry) returns (r: seq<Entry>)
    requires NoneOlderFirst(sorted)
    ensures NoneOlderFirst(r)
    ensures multiset(r) == multiset(sorted) + multiset{e}
  {
    var k := 0;
    while k < |sorted| && sorted[k].createdAt >= e.createdAt
      invariant k <= |sorted|
      invariant forall j :: 0 <= j < k ==> sorted[j].createdAt >= e.createdAt
    {
      k := k + 1;
    }
    var front, back := sorted[..k], sorted[k..];
    assert sorted == front + back;
    r := front + [e] + back;
    InsertedInOrder(front, e, back);
  }

  lemma InsertedInOrder(front: seq<Entry>, e: Entry, back: seq<Entry>)
    requires NoneOlderFirst(front + back)
    requires forall x <- front :: x.createdAt >= e.createdAt
    requires back != [] ==> e.createdAt >= back[0].createdAt
    ensures NoneOlderFirst(front + [e] + back)
  {
    var was, all, k := front + back, front + [e] + back, |front|;
    forall i, j | 0 <= i < j < |all| ensures all[i].createdAt >= all[j].createdAt {
      assert all[i] == if i < k then was[i] else if i == k then e else was[i - 1];
      assert all[j] == if j < k then was[j] else if j == k then e else was[j - 1];
      assert j > k ==> was[k] == back[0] && was[k].createdAt >= was[j - 1].createdAt;
      assert i < k ==> was[i] in front;
    }
  }

  // --------------------------------------------------- lemmas on one list

  lemma {:induction false} NothingExpires(es: seq<Entry>, now: int, ttl: int)
    requires forall e <- es :: !Expired(e, now, ttl)
    ensures Fresh(es, now, ttl) == es
  {
    if es != [] {
      NothingExpires(es[1..], now, ttl);
    }
  }

  lemma {:induction false} FreshKeepsOrder(es: seq<Entry>, now: int, ttl: int)
    ensures forall e <- Fresh(es, now, ttl) :: e in es
    ensures NewestFirst(es) ==> NewestFirst(Fresh(es, now, ttl))
  {
    if es != [] {
      FreshKeepsOrder(es[1..], now, ttl);
      assert NewestFirst(es) ==> OlderThan(es[1..], es[0].createdAt);
    }
  }

  lemma {:induction false} WithoutKeepsOrder(es: seq<Entry>, key: string)
    ensures forall e <- Without(es, key) :: e in es
    ensures NewestFirst(es) ==> NewestFirst(Without(es, key))
  {
    if es != [] {
      WithoutKeepsOrder(es[1..], key);
      assert NewestFirst(es) ==> OlderThan(es[1..], es[0].createdAt);
    }
  }

  lemma NewestIsTheHead(a: seq<Entry>, b: seq<Entry>)
    requires NewestFirst(a) && multiset(a) == multiset(b) && NoneOlderFirst(b)
    requires a != [] && b != []
    ensures a[0] == b[0]
  {
    assert a[0] in multiset(b) && b[0] in multiset(a);
  }

  lemma TailsHoldTheSame(a: seq<Entry>, b: seq<Entry>)
    requires a != [] && b != [] && a[0] == b[0] && multiset(a) == multiset(b)
    ensures multiset(a[1..]) == multiset(b[1..])
  {
    assert a == [a[0]] + a[1..] && b == [b[0]] + b[1..];
    assert multiset(a[1..]) == multiset(a) - multiset{a[0]};
    assert multiset(b[1..]) == multiset(b) - multiset{b[0]};
  }

  /** With no two times equal, sorting has only one possible outcome. */
  lemma {:induction false} SortedListIsUnique(a: seq<Entry>, b: seq<Entry>)
    requires NewestFirst(a) && multiset(a) == multiset(b)
    requires NoneOlderFirst(b)
    ensures a == b
  {
    assert |a| == |multiset(a)| == |multiset(b)| == |b|;
    if a != [] {
      NewestIsTheHead(a, b);
      TailsHoldTheSame(a, b);
      SortedListIsUnique(a[1..], b[1..]);
      assert a == [a[0]] + a[1..] && b == [b[0]] + b[1..];
    }
  }
}
