// The disk cache of LlmCache, seen from outside: every answer can be read off a plain log of the puts.

module LlmCacheLog {
  import opened Common
  import opened LlmCache

  // ----------------------------------------------------- the log as reference

  /** Put times strictly increase along the log. */
  predicate Increasing(log: seq<Entry>) {
    forall i, j :: 0 <= i < j < |log| ==> log[i].createdAt < log[j].createdAt
  }

  function LastPut(log: seq<Entry>, key: string): (r: Option<nat>)
    ensures r.Some? ==> r.value < |log| && log[r.value].key == key
                        && forall j :: r.value < j < |log| ==> log[j].key != key
    ensures r.None? ==> forall j :: 0 <= j < |log| ==> log[j].key != key
  {
    if log == [] then None
    else if log[|log| - 1].key == key then Some(|log| - 1)
    else LastPut(log[..|log| - 1], key)
  }

  function KeysAfter(log: seq<Entry>, i: nat): set<string> {
    set j | i < j < |log| :: log[j].key
  }

  /** The latest put of the key, while it is young enough and fewer than maxEntries other keys were put since. */
  function Answer(log: seq<Entry>, key: string, now: int, l: Limits): Option<string> {
    var last := LastPut(log, key);
    if last.Some? && (l.ttl <= 0 || now - log[last.value].createdAt <= l.ttl)
       && |KeysAfter(log, last.value)| < l.maxEntries
    then Some(log[last.value].value) else None
  }

  // ------------------------------------------- the latest entry of every key

  function Latest(log: seq<Entry>): seq<Entry> {
    if log == [] then []
    else
      var p := log[|log| - 1];
      [p] + Without(Latest(log[..|log| - 1]), p.key)
  }

  predicate DistinctKeys(es: seq<Entry>) {
    forall i, j :: 0 <= i < j < |es| ==> es[i].key != es[j].key
  }

  function RemoveAt(es: seq<Entry>, q: nat): (r: seq<Entry>)
    ensures |r| == if q < |es| then |es| - 1 else |es|
    ensures forall i :: 0 <= i < |r| && i < q ==> r[i] == es[i]
    ensures forall i :: q <= i < |r| && q < |es| ==> r[i] == es[i + 1]
  {
    if q < |es| then es[..q] + es[q + 1..] else es
  }

  /** Where the key stands in a list, or the length of the list when it is not there. */
  predicate KeyAt(es: seq<Entry>, key: string, q: nat) {
    && q <= |es|
    && (q < |es| ==> es[q].key == key)
    && forall i :: 0 <= i < |es| && i != q ==> es[i].key != key
  }

  /** With distinct keys, removing one key removes at most one entry and shifts the rest. */
  lemma {:induction false} WithoutRemovesOne(es: seq<Entry>, key: string) returns (q: nat)
    requires DistinctKeys(es)
    ensures KeyAt(es, key, q) && Without(es, key) == RemoveAt(es, q)
  {
    if es == [] {
      q := 0;
    } else {
      var r := WithoutRemovesOne(es[1..], key);
      assert forall i :: 0 < i < |es| ==> es[i] == es[1..][i - 1];
      if es[0].key == key {
        q := 0;
        WithoutAbsentKey(es[1..], key);
      } else {
        q := r + 1;
        assert RemoveAt(es, q) == [es[0]] + RemoveAt(es[1..], r);
      }
    }
  }

  lemma {:induction false} WithoutAbsentKey(es: seq<Entry>, key: string)
    requires forall e <- es :: e.key != key
    ensures Without(es, key) == es
  {
    if es != [] {
      WithoutAbsentKey(es[1..], key);
    }
  }

  lemma PutInFront(p: Entry, rest: seq<Entry>)
    requires NewestFirst(rest) && DistinctKeys(rest)
    requires forall e <- rest :: e.createdAt < p.createdAt && e.key != p.key
    ensures NewestFirst([p] + rest) && DistinctKeys([p] + rest)
  {
  }

  lemma {:induction false} LatestIsNewestFirst(log: seq<Entry>)
    requires Increasing(log)
    ensures NewestFirst(Latest(log)) && DistinctKeys(Latest(log))
    ensures forall e <- Latest(log) :: e in log
  {
    if log != [] {
      var before, p := log[..|log| - 1], log[|log| - 1];
      LatestIsNewestFirst(before);
      WithoutKeepsOrder(Latest(before), p.key);
      WithoutKeepsKeys(Latest(before), p.key);
      OlderPuts(log);
      PutInFront(p, Without(Latest(before), p.key));
    }
  }

  lemma OlderPuts(log: seq<Entry>)
    requires Increasing(log) && log != []
    ensures Increasing(log[..|log| - 1])
    ensures forall e <- log[..|log| - 1] :: e in log && e.createdAt < log[|log| - 1].createdAt
  {
  }

  lemma {:induction false} WithoutKeepsKeys(es: seq<Entry>, key: string)
    ensures forall e <- Without(es, key) :: e.key != key && e in es
    ensures DistinctKeys(es) ==> DistinctKeys(Without(es, key))
  {
    if es != [] {
      WithoutKeepsKeys(es[1..], key);
      assert DistinctKeys(es) ==> forall e <- es[1..] :: e.key != es[0].key;
    }
  }

  function Keys(es: seq<Entry>): set<string> {
    set e <- es :: e.key
  }

  lemma {:induction false} DistinctKeysAreCounted(es: seq<Entry>)
    requires DistinctKeys(es)
    ensures |Keys(es)| == |es|
  {
    if es != [] {
      var before, last := es[..|es| - 1], es[|es| - 1];
      DistinctKeysAreCounted(before);
      assert forall e <- before :: e.key != last.key;
      assert es == before + [last];
      assert Keys(es) == Keys(before) + {last.key};
    }
  }

  /** Putting another key in front adds that key, and nothing else, to those before an entry. */
  lemma PositionAfterPut(older: seq<Entry>, q: nat, p: Entry) returns (c: nat)
    requires DistinctKeys(older) && q < |older| && older[q].key != p.key
    ensures var full := [p] + Without(older, p.key);
            c < |full| && full[c] == older[q] && Keys(full[..c]) == Keys(older[..q]) + {p.key}
  {
    var k := WithoutRemovesOne(older, p.key);
    c := if k < q then q else q + 1;
    FrontOfRemoved(older, k, q);
    var full := [p] + RemoveAt(older, k);
    assert full[..c] == [p] + RemoveAt(older, k)[..c - 1];
    KeysOfParts(full[..c], older[..q], p, k);
  }

  lemma FrontOfRemoved(es: seq<Entry>, k: nat, q: nat)
    requires k <= |es| && q < |es| && q != k
    ensures var c := if k < q then q - 1 else q;
            c < |RemoveAt(es, k)| && RemoveAt(es, k)[c] == es[q] && RemoveAt(es, k)[..c] == RemoveAt(es[..q], k)
  {
  }

  lemma KeysOfParts(front: seq<Entry>, older: seq<Entry>, p: Entry, k: nat)
    requires front == [p] + RemoveAt(older, k)
    requires k < |older| ==> older[k].key == p.key
    ensures Keys(front) == Keys(older) + {p.key}
  {
  }

  lemma KeysAfterOneMore(log: seq<Entry>, j: nat)
    requires j < |log| - 1
    ensures KeysAfter(log, j) == KeysAfter(log[..|log| - 1], j) + {log[|log| - 1].key}
  {
  }

  /** The entry of a key's last put stands behind exactly the keys put later. */
  lemma {:induction false} PositionOfLastPut(log: seq<Entry>, key: string) returns (c: nat)
    requires Increasing(log) && LastPut(log, key).Some?
    ensures c < |Latest(log)| && Latest(log)[c] == log[LastPut(log, key).value]
    ensures Keys(Latest(log)[..c]) == KeysAfter(log, LastPut(log, key).value)
  {
    var before, p := log[..|log| - 1], log[|log| - 1];
    var j := LastPut(log, key).value;
    if p.key == key {
      c := 0;
    } else {
      OlderPuts(log);
      LatestIsNewestFirst(before);
      var q := PositionOfLastPut(before, key);
      c := PositionAfterPut(Latest(before), q, p);
      KeysAfterOneMore(log, j);
    }
  }

  lemma {:induction false} LatestOnlyHasPuts(log: seq<Entry>, key: string)
    requires forall e <- log :: e.key != key
    ensures forall e <- Latest(log) :: e.key != key
  {
    if log != [] {
      LatestOnlyHasPuts(log[..|log| - 1], key);
      WithoutKeepsKeys(Latest(log[..|log| - 1]), log[|log| - 1].key);
    }
  }

  // ------------------------------------------ what the list may have dropped

  /** The list is a front part of the latest entries; all it lacks is over capacity or expired for good. */
  predicate Agrees(es: seq<Entry>, log: seq<Entry>, now: int, l: Limits) {
    var latest := Latest(log);
    && |es| <= |latest| && |es| <= l.maxEntries
    && es == latest[..|es|]
    && forall i :: |es| <= i < |latest| ==> i >= l.maxEntries || Expired(latest[i], now, l.ttl)
  }

  /** Pruning a list that is newest first cuts off its tail. */
  lemma {:induction false} FreshIsAPrefix(es: seq<Entry>, now: int, ttl: int) returns (n: nat)
    requires NewestFirst(es)
    ensures n <= |es| && Fresh(es, now, ttl) == es[..n]
    ensures forall i :: 0 <= i < n ==> !Expired(es[i], now, ttl)
    ensures forall i :: n <= i < |es| ==> Expired(es[i], now, ttl)
  {
    if es == [] {
      n := 0;
    } else if Expired(es[0], now, ttl) {
      n := 0;
      assert forall e <- es[1..] :: e.createdAt < es[0].createdAt;
      EverythingExpires(es, now, ttl);
    } else {
      var m := FreshIsAPrefix(es[1..], now, ttl);
      n := m + 1;
      assert es[..n] == [es[0]] + es[1..][..m];
    }
  }

  lemma {:induction false} EverythingExpires(es: seq<Entry>, now: int, ttl: int)
    requires forall e <- es :: Expired(e, now, ttl)
    ensures Fresh(es, now, ttl) == []
  {
    if es != [] {
      EverythingExpires(es[1..], now, ttl);
    }
  }

  lemma PruningAgrees(es: seq<Entry>, log: seq<Entry>, since: int, now: int, l: Limits)
    requires Increasing(log) && Agrees(es, log, since, l) && since <= now
    ensures Agrees(Fresh(es, now, l.ttl), log, now, l)
    ensures forall e <- Fresh(es, now, l.ttl) :: !Expired(e, now, l.ttl)
  {
    LatestIsNewestFirst(log);
    var n := FreshIsAPrefix(es, now, l.ttl);
    assert forall i :: n <= i < |es| ==> es[i] == Latest(log)[i];
    assert es[..n] == Latest(log)[..n];
  }

  /** Insert, dedupe and truncate on the list is the same on the full list of latest entries. */
  lemma PuttingAgrees(es: seq<Entry>, log: seq<Entry>, since: int, p: Entry, l: Limits)
    requires Increasing(log + [p]) && Agrees(es, log, since, l) && since <= p.createdAt
    ensures Agrees(PutInto(es, p, l), log + [p], p.createdAt, l)
  {
    var latest, young := Latest(log), Fresh(es, p.createdAt, l.ttl);
    assert (log + [p])[..|log|] == log;
    OlderPuts(log + [p]);
    PruningAgrees(es, log, since, p.createdAt, l);
    LatestIsNewestFirst(log);
    assert Latest(log + [p]) == [p] + Without(latest, p.key);
    var q := InsertingIntoAPrefix(young, latest, p, l.maxEntries);
    DroppedStaysDropped(latest, |young|, q, p, |PutInto(es, p, l)|, l);
  }

  /** What the pruned list lacks stays over capacity or expired in its new place. */
  lemma DroppedStaysDropped(latest: seq<Entry>, kept: nat, q: nat, p: Entry, length: nat, l: Limits)
    requires forall i :: kept <= i < |latest| ==> i >= l.maxEntries || Expired(latest[i], p.createdAt, l.ttl)
    requires length == l.maxEntries || length == if q < kept then kept else kept + 1
    ensures var full := [p] + RemoveAt(latest, q);
            forall i :: length <= i < |full| ==> i >= l.maxEntries || Expired(full[i], p.createdAt, l.ttl)
  {
  }

  /** The list after a put is a front part of the full list after that put, and loses nothing but by truncation. */
  lemma InsertingIntoAPrefix(young: seq<Entry>, latest: seq<Entry>, p: Entry, max: nat) returns (q: nat)
    requires DistinctKeys(latest) && |young| <= |latest| && young == latest[..|young|]
    ensures KeyAt(latest, p.key, q)
    ensures var full, r := [p] + Without(latest, p.key), Take([p] + Without(young, p.key), max);
            && full == [p] + RemoveAt(latest, q)
            && |r| <= |full| && |r| <= max && r == full[..|r|]
            && (|r| == max || |r| == if q < |young| then |young| else |young| + 1)
  {
    q := WithoutRemovesOne(latest, p.key);
    var k := WithoutRemovesOne(young, p.key);
    assert q < |young| ==> young[q].key == p.key;
    assert k < |young| ==> latest[k].key == p.key;
    FrontOfRemovedPrefix(latest, |young|, q);
    assert RemoveAt(young, k) == RemoveAt(young, q);
  }

  lemma FrontOfRemovedPrefix(es: seq<Entry>, n: nat, q: nat)
    requires n <= |es|
    ensures RemoveAt(es[..n], q) <= RemoveAt(es, q)
  {
  }

  lemma {:induction false} FindInDistinct(es: seq<Entry>, key: string)
    requires DistinctKeys(es)
    ensures (forall e <- es :: e.key != key) ==> Find(es, key) == None
    ensures forall i :: 0 <= i < |es| && es[i].key == key ==> Find(es, key) == Some(es[i].value)
  {
    if es != [] {
      FindInDistinct(es[1..], key);
      assert forall i :: 0 < i < |es| ==> es[i] == es[1..][i - 1];
    }
  }

  /** A list that agrees with the log and was just pruned answers like the log. */
  lemma FindAnswers(es: seq<Entry>, log: seq<Entry>, key: string, now: int, l: Limits)
    requires Increasing(log) && Agrees(es, log, now, l)
    requires forall e <- es :: !Expired(e, now, l.ttl)
    ensures Find(es, key) == Answer(log, key, now, l)
  {
    var latest := Latest(log);
    LatestIsNewestFirst(log);
    assert DistinctKeys(es);
    FindInDistinct(es, key);
    if LastPut(log, key).None? {
      LatestOnlyHasPuts(log, key);
      assert forall e <- es :: e in latest;
    } else {
      var c := PositionOfLastPut(log, key);
      DistinctKeysAreCounted(latest[..c]);
      assert c == |KeysAfter(log, LastPut(log, key).value)|;
      if c < |es| {
        assert es[c] == latest[c];
      } else {
        assert forall i :: 0 <= i < |es| ==> es[i] == latest[i] && latest[i].key != latest[c].key;
      }
    }
  }

  // ---------------------------------------------------------- whole runs

  /**
   * The puts the process knows of, and those the file holds; None when the file does not parse.
   * `loaded`: the process has read the file, or has tried to.
   */
  datatype Logs = Logs(live: seq<Entry>, saved: Option<seq<Entry>>, loaded: bool)

  function LogOf(saved: Option<seq<Entry>>): seq<Entry> {
    if saved.Some? then saved.value else []
  }

  function SavedLog(saved: Option<seq<Entry>>, live: seq<Entry>, write: Write): Option<seq<Entry>> {
    match write
    case Done => Some(live)
    case Refused => saved
    case Emptied => None
    case Torn => None
  }

  /** The first access to a file that does not parse fails, and a put that fails so is not recorded. */
  function StepLogs(logs: Logs, op: Op): Logs {
    match op
    case Restart => Logs(LogOf(logs.saved), logs.saved, false)
    case Get(_, _) => logs.(loaded := true)
    case Put(entry, write) =>
      if !logs.loaded && logs.saved.None? then logs.(loaded := true)
      else
        var live := logs.live + [entry];
        Logs(live, SavedLog(logs.saved, live, write), true)
  }

  function Run(ops: seq<Op>, l: Limits): World {
    if ops == [] then World(false, [], Missing) else Step(Run(ops[..|ops| - 1], l), ops[|ops| - 1], l)
  }

  function RunLogs(ops: seq<Op>): Logs {
    if ops == [] then Logs([], Some([]), false) else StepLogs(RunLogs(ops[..|ops| - 1]), ops[|ops| - 1])
  }

  function Puts(ops: seq<Op>): seq<Entry> {
    if ops == [] then []
    else
      var op := ops[|ops| - 1];
      Puts(ops[..|ops| - 1]) + if op.Put? then [op.entry] else []
  }

  function Clock(ops: seq<Op>): nat {
    if ops == [] then 0
    else
      match ops[|ops| - 1]
      case Get(_, at) => at
      case Put(entry, _) => entry.createdAt
      case Restart => Clock(ops[..|ops| - 1])
  }

  /** Time never runs backwards, and no two puts happen at the same instant. */
  predicate Timed(ops: seq<Op>) {
    && Increasing(Puts(ops))
    && ClockAscends(ops)
  }

  predicate ClockAscends(ops: seq<Op>) {
    ops != [] ==> ClockAscends(ops[..|ops| - 1]) && Clock(ops[..|ops| - 1]) <= Clock(ops)
  }

  lemma IncreasingPrefix(log: seq<Entry>, more: seq<Entry>)
    requires Increasing(log + more)
    ensures Increasing(log)
  {
    assert forall i :: 0 <= i < |log| ==> (log + more)[i] == log[i];
  }

  lemma TimedPrefix(ops: seq<Op>)
    requires Timed(ops) && ops != []
    ensures Timed(ops[..|ops| - 1]) && Clock(ops[..|ops| - 1]) <= Clock(ops)
  {
    var before, op := ops[..|ops| - 1], ops[|ops| - 1];
    IncreasingPrefix(Puts(before), if op.Put? then [op.entry] else []);
  }

  predicate Within(log: seq<Entry>, puts: seq<Entry>) {
    Increasing(log) && forall e <- log :: e in puts
  }

  /** The file holds its log, or is damaged. */
  predicate FileAgrees(file: File<seq<Entry>>, saved: Option<seq<Entry>>, now: nat, l: Limits) {
    match file
    case Missing => saved == Some([])
    case Holds(es) => saved.Some? && Agrees(es, saved.value, now, l)
    case _ => saved.None?
  }

  /** What every reachable state keeps. */
  predicate Inv(w: World, logs: Logs, now: nat, l: Limits) {
    && w.loaded == logs.loaded
    && (w.loaded ==> Agrees(w.entries, logs.live, now, l))
    && (!w.loaded ==> w.entries == [] && logs.live == LogOf(logs.saved))
    && FileAgrees(w.file, logs.saved, now, l)
  }

  lemma CurrentAgrees(w: World, logs: Logs, now: nat, l: Limits)
    requires Inv(w, logs, now, l)
    ensures Agrees(Current(w), logs.live, now, l)
  {
  }

  lemma FileAgreesLater(file: File<seq<Entry>>, saved: Option<seq<Entry>>, now: nat, later: nat, l: Limits)
    requires FileAgrees(file, saved, now, l) && now <= later
    ensures FileAgrees(file, saved, later, l)
  {
  }

  lemma GetKeepsInv(w: World, logs: Logs, key: string, since: nat, at: nat, l: Limits)
    requires Inv(w, logs, since, l) && Increasing(logs.live) && since <= at
    ensures Inv(Step(w, Get(key, at), l), StepLogs(logs, Get(key, at)), at, l)
  {
    CurrentAgrees(w, logs, since, l);
    PruningAgrees(Current(w), logs.live, since, at, l);
    FileAgreesLater(w.file, logs.saved, since, at, l);
  }

  lemma PutKeepsInv(w: World, logs: Logs, p: Entry, write: Write, since: nat, l: Limits)
    requires Inv(w, logs, since, l) && Increasing(logs.live + [p]) && since <= p.createdAt
    ensures Inv(Step(w, Put(p, write), l), StepLogs(logs, Put(p, write)), p.createdAt, l)
  {
    FileAgreesLater(w.file, logs.saved, since, p.createdAt, l);
    CurrentAgrees(w, logs, since, l);
    if LoadFails(w) {
      assert StepLogs(logs, Put(p, write)) == logs.(loaded := true);
      EmptyAgrees(p.createdAt, l);
    } else {
      PuttingAgrees(Current(w), logs.live, since, p, l);
      WritingAgrees(w.file, logs.saved, PutInto(Current(w), p, l), logs.live + [p], write, p.createdAt, l);
    }
  }

  lemma EmptyAgrees(now: nat, l: Limits)
    ensures Agrees([], [], now, l)
  {
  }

  lemma WritingAgrees(file: File<seq<Entry>>, saved: Option<seq<Entry>>, es: seq<Entry>, live: seq<Entry>,
                      write: Write, now: nat, l: Limits)
    requires FileAgrees(file, saved, now, l) && Agrees(es, live, now, l)
    ensures FileAgrees(Written(file, es, write), SavedLog(saved, live, write), now, l)
  {
  }

  predicate LogsWithin(logs: Logs, puts: seq<Entry>) {
    Within(logs.live, puts) && Within(LogOf(logs.saved), puts)
  }

  lemma StepKeepsWithin(logs: Logs, op: Op, puts: seq<Entry>)
    requires LogsWithin(logs, puts) && (op.Put? ==> Increasing(puts + [op.entry]))
    ensures LogsWithin(StepLogs(logs, op), puts + if op.Put? then [op.entry] else [])
  {
    if op.Put? {
      LogGrows(logs.live, puts, op.entry);
    } else {
      assert puts + [] == puts;
    }
  }

  lemma {:induction false} RunKeepsInv(ops: seq<Op>, l: Limits)
    requires Timed(ops)
    ensures Inv(Run(ops, l), RunLogs(ops), Clock(ops), l)
    ensures LogsWithin(RunLogs(ops), Puts(ops))
  {
    if ops != [] {
      var before, op := ops[..|ops| - 1], ops[|ops| - 1];
      TimedPrefix(ops);
      RunKeepsInv(before, l);
      StepKeepsWithin(RunLogs(before), op, Puts(before));
      match op
      case Restart =>
      case Get(key, at) =>
        GetKeepsInv(Run(before, l), RunLogs(before), key, Clock(before), at, l);
      case Put(p, write) =>
        LogGrows(RunLogs(before).live, Puts(before), p);
        PutKeepsInv(Run(before, l), RunLogs(before), p, write, Clock(before), l);
    }
  }

  lemma LogGrows(log: seq<Entry>, puts: seq<Entry>, p: Entry)
    requires Within(log, puts) && Increasing(puts + [p])
    ensures Within(log + [p], puts + [p])
  {
    forall e | e in puts ensures e.createdAt < p.createdAt {
      var i :| 0 <= i < |puts| && puts[i] == e;
      assert (puts + [p])[i] == e && (puts + [p])[|puts|] == p;
    }
  }

  /** In every reachable state, every get answers what the log of puts says,
    * or is the one that finds the file broken. */
  lemma GetAgreesWithLog(ops: seq<Op>, key: string, now: nat, l: Limits)
    requires Timed(ops) && Clock(ops) <= now
    ensures LoadFails(Run(ops, l)) <==> !RunLogs(ops).loaded && RunLogs(ops).saved.None?
    ensures GetAnswer(Run(ops, l), key, now, l) == Answer(RunLogs(ops).live, key, now, l)
  {
    var w, log := Run(ops, l), RunLogs(ops).live;
    RunKeepsInv(ops, l);
    CurrentAgrees(w, RunLogs(ops), Clock(ops), l);
    PruningAgrees(Current(w), log, Clock(ops), now, l);
    FindAnswers(Fresh(Current(w), now, l.ttl), log, key, now, l);
  }

  /** A put never meets its own precondition as an obstacle: the list it finds is newest first and older. */
  lemma PutIsAlwaysReady(ops: seq<Op>, p: Entry, write: Write, l: Limits)
    requires Timed(ops + [Put(p, write)])
    ensures NewestFirst(Current(Run(ops, l))) && OlderThan(Current(Run(ops, l)), p.createdAt)
  {
    var all := ops + [Put(p, write)];
    assert all[..|all| - 1] == ops;
    TimedPrefix(all);
    RunKeepsInv(ops, l);
    var log := RunLogs(ops).live;
    CurrentAgrees(Run(ops, l), RunLogs(ops), Clock(ops), l);
    LatestIsNewestFirst(log);
    LogGrows(log, Puts(ops), p);
    forall e | e in log ensures e.createdAt < p.createdAt {
      var i :| 0 <= i < |log| && log[i] == e;
      assert (log + [p])[i] == e && (log + [p])[|log|] == p;
    }
  }

  predicate AllSaved(ops: seq<Op>) {
    forall op <- ops :: op.Put? ==> op.write == Done
  }

  lemma {:induction false} SavedLogIsEveryPut(ops: seq<Op>)
    requires AllSaved(ops)
    ensures RunLogs(ops).live == Puts(ops) && RunLogs(ops).saved == Some(Puts(ops))
  {
    if ops != [] {
      SavedLogIsEveryPut(ops[..|ops| - 1]);
    }
  }

  /** When every save succeeds only the puts matter: restarts and gets in between leave no trace. */
  lemma RestartsAreInvisible(ops: seq<Op>, others: seq<Op>, key: string, now: nat, l: Limits)
    requires Timed(ops) && AllSaved(ops) && Clock(ops) <= now
    requires Timed(others) && AllSaved(others) && Clock(others) <= now
    requires Puts(ops) == Puts(others)
    ensures GetAnswer(Run(ops, l), key, now, l) == GetAnswer(Run(others, l), key, now, l)
  {
    SavedLogIsEveryPut(ops);
    SavedLogIsEveryPut(others);
    GetAgreesWithLog(ops, key, now, l);
    GetAgreesWithLog(others, key, now, l);
  }

  /**
   * A write that leaves the file damaged is not noticed by the process that made it. The next process fails once:
   * at its first access, a put included, whatever happens before; from then on its log starts empty.
   */
  lemma DamagedFileFailsOnce(ops: seq<Op>, p: Entry, write: Write, first: Op, l: Limits)
    requires Timed(ops + [Put(p, write), Restart, first]) && !LoadFails(Run(ops, l))
    requires write == Emptied || write == Torn
    requires !first.Restart?
    ensures var put := ops + [Put(p, write)];
            && !LoadFails(Run(put, l)) && RunLogs(put).live == RunLogs(ops).live + [p]
            && LoadFails(Run(put + [Restart], l))
            && !LoadFails(Run(put + [Restart, first], l))
            && RunLogs(put + [Restart, first]).live == []
            && Run(put + [Restart, first], l).file == Run(put, l).file
  {
    var put := ops + [Put(p, write)];
    var all := ops + [Put(p, write), Restart, first];
    assert all[..|all| - 1] == put + [Restart] && all == put + [Restart, first];
    assert (put + [Restart])[..|put|] == put && put[..|ops|] == ops;
    TimedPrefix(all);
    TimedPrefix(put + [Restart]);
    TimedPrefix(put);
    RunKeepsInv(ops, l);
  }
}
