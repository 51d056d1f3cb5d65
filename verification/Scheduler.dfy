// internal/cli/cli.go, runScheduledSpecs and autoTimeMatches: running automation specs at their minute.

module Scheduler {
  import opened Common

  const MINUTES_A_DAY: nat := 1440

  /** A local date, counted in days, and a minute of that day. */
  datatype LocalMinute = LocalMinute(day: int, minute: nat)

  /** A time that did not parse is None; so is a sun event that has no time on this day. */
  datatype Trigger = TimeOfDay(at: Option<nat>) | SunEvent(today: Option<LocalMinute>) | NotTimed

  /** Printed as id@date'T'hour:minute, which determines all three parts. */
  datatype RunKey = RunKey(id: string, at: LocalMinute)

  datatype Spec = Spec(id: string, active: bool, trigger: Trigger)

  /** The key under which the spec is due in this local minute. */
  function TimeMatches(spec: Spec, now: LocalMinute): Option<RunKey> {
    match spec.trigger
    case TimeOfDay(at) =>
      if at == Some(now.minute) then Some(RunKey(spec.id, now)) else None
    case SunEvent(today) =>
      if today == Some(now) then Some(RunKey(spec.id, today.value)) else None
    case NotTimed => None
  }

  function Due(spec: Spec, now: LocalMinute): Option<RunKey> {
    if spec.active then TimeMatches(spec, now) else None
  }

  // ---------------------------------------------------------------- one pass

  /** One execution of a script: its run key, and whether it succeeded. */
  datatype Attempt = Attempt(key: RunKey, ok: bool)

  /** What the outside does in one pass: local time, script and output success of every spec. */
  datatype Pass = Pass(specs: seq<Spec>, local: map<string, LocalMinute>, fails: set<string>, outputFails: set<string>)

  datatype PassResult = PassResult(lastRuns: map<string, RunKey>, attempts: seq<Attempt>)

  predicate Complete(p: Pass) {
    forall s <- p.specs :: s.id in p.local
  }

  /** The key to execute now, if the spec is due and its last success was under another key. */
  function ToRun(lastRuns: map<string, RunKey>, s: Spec, now: LocalMinute): Option<RunKey> {
    var due := Due(s, now);
    if due.Some? && s.id in lastRuns && lastRuns[s.id] == due.value then None else due
  }

  function RunPass(lastRuns: map<string, RunKey>, p: Pass): PassResult
    requires Complete(p)
    decreases |p.specs|
  {
    if p.specs == [] then PassResult(lastRuns, [])
    else
      var s := p.specs[0];
      var run := ToRun(lastRuns, s, p.local[s.id]);
      var rest := p.(specs := p.specs[1..]);
      if run.None? then RunPass(lastRuns, rest)
      else if s.id in p.fails then
        var later := RunPass(lastRuns, rest);
        later.(attempts := [Attempt(run.value, false)] + later.attempts)
      else if s.id in p.outputFails then
        PassResult(lastRuns[s.id := run.value], [Attempt(run.value, true)])
      else
        var later := RunPass(lastRuns[s.id := run.value], rest);
        later.(attempts := [Attempt(run.value, true)] + later.attempts)
  }

  /** What is left of a pass from its spec `i` on. */
  function From(p: Pass, i: nat): Pass
    requires i <= |p.specs|
  {
    p.(specs := p.specs[i..])
  }

  /** A pass that has come to spec `i` with these attempts behind it. */
  function Ahead(lastRuns: map<string, RunKey>, p: Pass, i: nat, attempts: seq<Attempt>): PassResult
    requires i <= |p.specs| && Complete(p)
  {
    var later := RunPass(lastRuns, From(p, i));
    PassResult(later.lastRuns, attempts + later.attempts)
  }

  lemma PassGoesOn(lastRuns: map<string, RunKey>, p: Pass, i: nat, attempts: seq<Attempt>)
    requires Complete(p) && i < |p.specs|
    ensures var s := p.specs[i];
            var run := ToRun(lastRuns, s, p.local[s.id]);
            Ahead(lastRuns, p, i, attempts) ==
            if run.None? then Ahead(lastRuns, p, i + 1, attempts)
            else if s.id in p.fails then Ahead(lastRuns, p, i + 1, attempts + [Attempt(run.value, false)])
            else
              var more := attempts + [Attempt(run.value, true)];
              if s.id in p.outputFails then PassResult(lastRuns[s.id := run.value], more)
              else Ahead(lastRuns[s.id := run.value], p, i + 1, more)
  {
    assert p.specs[i..][1..] == p.specs[i + 1..];
  }

  class SpecScheduler {
    var lastRuns: map<string, RunKey>

    constructor ()
      ensures lastRuns == map[]
    {
      lastRuns := map[];
    }

    method RunScheduledSpecs(p: Pass) returns (attempts: seq<Attempt>)
      requires Complete(p)
      modifies this
      ensures PassResult(lastRuns, attempts) == RunPass(old(lastRuns), p)
    {
      attempts := [];
      var i := 0;
      while i < |p.specs|
        invariant i <= |p.specs|
        invariant Ahead(lastRuns, p, i, attempts) == RunPass(old(lastRuns), p)
      {
        var s := p.specs[i];
        PassGoesOn(lastRuns, p, i, attempts);
        i := i + 1;
        var due := Due(s, p.local[s.id]);
        if due.None? {
          continue;
        }
        if s.id in lastRuns && lastRuns[s.id] == due.value {
          continue;
        }
        if s.id in p.fails {
          attempts := attempts + [Attempt(due.value, false)];
          continue;
        }
        attempts := attempts + [Attempt(due.value, true)];
        lastRuns := lastRuns[s.id := due.value];
        if s.id in p.outputFails {
          return;
        }
      }
    }
  }

  // -------------------------------------------------- one spec, many passes

  predicate DistinctIds(specs: seq<Spec>) {
    forall i, j :: 0 <= i < j < |specs| ==> specs[i].id != specs[j].id
  }

  function Of(id: string, attempts: seq<Attempt>): seq<Attempt> {
    if attempts == [] then []
    else (if attempts[0].key.id == id then [attempts[0]] else []) + Of(id, attempts[1..])
  }

  /** What one spec gets out of a pass that comes to it. */
  function AttemptOf(lastRuns: map<string, RunKey>, s: Spec, p: Pass): seq<Attempt>
    requires s.id in p.local
  {
    var run := ToRun(lastRuns, s, p.local[s.id]);
    if run.None? then [] else [Attempt(run.value, s.id !in p.fails)]
  }

  function Lookup(lastRuns: map<string, RunKey>, id: string): Option<RunKey> {
    if id in lastRuns then Some(lastRuns[id]) else None
  }

  lemma {:induction false} AbsentSpecIsUntouched(lastRuns: map<string, RunKey>, p: Pass, id: string)
    requires Complete(p) && forall s <- p.specs :: s.id != id
    ensures Of(id, RunPass(lastRuns, p).attempts) == []
    ensures Lookup(RunPass(lastRuns, p).lastRuns, id) == Lookup(lastRuns, id)
    decreases |p.specs|
  {
    if p.specs != [] {
      var s, rest := p.specs[0], p.(specs := p.specs[1..]);
      var run := ToRun(lastRuns, s, p.local[s.id]);
      AbsentSpecIsUntouched(if run.Some? && s.id !in p.fails then lastRuns[s.id := run.value] else lastRuns, rest, id);
    }
  }

  function AfterSpec(lastRuns: map<string, RunKey>, s: Spec, p: Pass): map<string, RunKey>
    requires s.id in p.local
  {
    var run := ToRun(lastRuns, s, p.local[s.id]);
    if run.Some? && s.id !in p.fails then lastRuns[s.id := run.value] else lastRuns
  }

  /** This spec succeeds and its output fails, which ends the pass. */
  predicate Cuts(lastRuns: map<string, RunKey>, s: Spec, p: Pass)
    requires s.id in p.local
  {
    ToRun(lastRuns, s, p.local[s.id]).Some? && s.id !in p.fails && s.id in p.outputFails
  }

  /** The pass comes to this spec: none before it cuts the pass short. */
  predicate Reached(lastRuns: map<string, RunKey>, p: Pass, t: Spec)
    requires Complete(p)
    decreases |p.specs|
  {
    p.specs != [] &&
    var s, rest := p.specs[0], p.(specs := p.specs[1..]);
    s == t || (!Cuts(lastRuns, s, p) && Reached(AfterSpec(lastRuns, s, p), rest, t))
  }

  lemma FirstSpecThenTheRest(lastRuns: map<string, RunKey>, p: Pass)
    requires Complete(p) && p.specs != [] && !Cuts(lastRuns, p.specs[0], p)
    ensures var s, rest := p.specs[0], p.(specs := p.specs[1..]);
            && Complete(rest)
            && var later := RunPass(AfterSpec(lastRuns, s, p), rest);
            && RunPass(lastRuns, p) == PassResult(later.lastRuns, AttemptOf(lastRuns, s, p) + later.attempts)
            && forall id ::
                 Of(id, AttemptOf(lastRuns, s, p) + later.attempts)
                 == (if id == s.id then AttemptOf(lastRuns, s, p) else []) + Of(id, later.attempts)
  {
    var s, rest := p.specs[0], p.(specs := p.specs[1..]);
    var one, later := AttemptOf(lastRuns, s, p), RunPass(AfterSpec(lastRuns, s, p), rest);
    assert one == [] ==> one + later.attempts == later.attempts;
    assert one != [] ==> (one + later.attempts)[1..] == later.attempts;
  }

  lemma CutAtTheFirst(lastRuns: map<string, RunKey>, p: Pass, id: string)
    requires Complete(p) && p.specs != [] && Cuts(lastRuns, p.specs[0], p)
    ensures var s := p.specs[0];
            && RunPass(lastRuns, p).lastRuns == AfterSpec(lastRuns, s, p)
            && Of(id, RunPass(lastRuns, p).attempts) == if id == s.id then AttemptOf(lastRuns, s, p) else []
  {
  }

  /** Specs do not disturb each other: each one a pass comes to is run as if it were alone in the store. */
  lemma {:induction false} SpecsAreIndependent(lastRuns: map<string, RunKey>, p: Pass, t: Spec)
    requires Complete(p) && DistinctIds(p.specs) && t in p.specs
    ensures Of(t.id, RunPass(lastRuns, p).attempts)
            == if Reached(lastRuns, p, t) then AttemptOf(lastRuns, t, p) else []
    ensures Lookup(RunPass(lastRuns, p).lastRuns, t.id)
            == Lookup(if Reached(lastRuns, p, t) then AfterSpec(lastRuns, t, p) else lastRuns, t.id)
    decreases |p.specs|
  {
    var s, rest := p.specs[0], p.(specs := p.specs[1..]);
    if Cuts(lastRuns, s, p) {
      CutAtTheFirst(lastRuns, p, t.id);
    } else {
      FirstSpecThenTheRest(lastRuns, p);
      if s == t {
        AbsentSpecIsUntouched(AfterSpec(lastRuns, s, p), rest, t.id);
      } else {
        SpecsAreIndependent(AfterSpec(lastRuns, s, p), rest, t);
        KeyOfItsOwn(lastRuns, s, p, t, rest);
      }
    }
  }

  /** Running another spec changes nothing for this one. */
  lemma KeyOfItsOwn(lastRuns: map<string, RunKey>, s: Spec, p: Pass, t: Spec, rest: Pass)
    requires s.id in p.local && t.id in p.local && s.id != t.id
    requires rest.local == p.local && rest.fails == p.fails
    ensures var after := AfterSpec(lastRuns, s, p);
            && AttemptOf(after, t, rest) == AttemptOf(lastRuns, t, p)
            && Lookup(AfterSpec(after, t, rest), t.id) == Lookup(AfterSpec(lastRuns, t, p), t.id)
            && Lookup(after, t.id) == Lookup(lastRuns, t.id)
  {
  }

  /** An active spec whose time is this minute, and which has not run under this minute before. */
  predicate IsNext(lastRuns: map<string, RunKey>, s: Spec, now: LocalMinute) {
    && s.active
    && ((s.trigger.TimeOfDay? && s.trigger.at == Some(now.minute))
        || (s.trigger.SunEvent? && s.trigger.today == Some(now)))
    && !(s.id in lastRuns && lastRuns[s.id] == RunKey(s.id, now))
  }

  /** Some spec before place `k` of the store runs with success and has an output that fails. */
  ghost predicate Stopped(lastRuns: map<string, RunKey>, p: Pass, k: nat)
    requires Complete(p) && k <= |p.specs|
  {
    exists j :: 0 <= j < k && IsNext(lastRuns, p.specs[j], p.local[p.specs[j].id])
                && p.specs[j].id !in p.fails && p.specs[j].id in p.outputFails
  }

  lemma NextIsToRun(lastRuns: map<string, RunKey>, s: Spec, now: LocalMinute)
    ensures ToRun(lastRuns, s, now) == if IsNext(lastRuns, s, now) then Some(RunKey(s.id, now)) else None
  {
  }

  /** Other specs do not matter to whether a spec is next. */
  lemma NextAfterOther(lastRuns: map<string, RunKey>, s: Spec, p: Pass, t: Spec, now: LocalMinute)
    requires s.id in p.local && s.id != t.id
    ensures IsNext(AfterSpec(lastRuns, s, p), t, now) == IsNext(lastRuns, t, now)
  {
  }

  lemma StoppedFromFirst(lastRuns: map<string, RunKey>, p: Pass, k: nat)
    requires Complete(p) && DistinctIds(p.specs) && 0 < k <= |p.specs|
    ensures var s, rest := p.specs[0], p.(specs := p.specs[1..]);
            Stopped(lastRuns, p, k) <==> Cuts(lastRuns, s, p) || Stopped(AfterSpec(lastRuns, s, p), rest, k - 1)
  {
    var s, rest := p.specs[0], p.(specs := p.specs[1..]);
    NextIsToRun(lastRuns, s, p.local[s.id]);
    forall j | 0 < j < k
      ensures rest.specs[j - 1] == p.specs[j]
      ensures IsNext(AfterSpec(lastRuns, s, p), p.specs[j], p.local[p.specs[j].id])
              == IsNext(lastRuns, p.specs[j], p.local[p.specs[j].id])
    {
      NextAfterOther(lastRuns, s, p, p.specs[j], p.local[p.specs[j].id]);
    }
    if Stopped(AfterSpec(lastRuns, s, p), rest, k - 1) {
      var j :| 0 <= j < k - 1 && IsNext(AfterSpec(lastRuns, s, p), rest.specs[j], p.local[rest.specs[j].id])
               && rest.specs[j].id !in p.fails && rest.specs[j].id in p.outputFails;
      assert rest.specs[j] == p.specs[j + 1];
    }
  }

  lemma {:induction false} ReachedUnlessStopped(lastRuns: map<string, RunKey>, p: Pass, k: nat)
    requires Complete(p) && DistinctIds(p.specs) && k < |p.specs|
    ensures Reached(lastRuns, p, p.specs[k]) <==> !Stopped(lastRuns, p, k)
    decreases k
  {
    if k > 0 {
      var s, rest := p.specs[0], p.(specs := p.specs[1..]);
      StoppedFromFirst(lastRuns, p, k);
      assert rest.specs[k - 1] == p.specs[k];
      ReachedUnlessStopped(AfterSpec(lastRuns, s, p), rest, k - 1);
    }
  }

  /**
   * What one pass does with the spec at place `k`, told by its own fields: it is executed once, under its id and the
   * local minute, when it is next and the pass is not stopped before it, and otherwise it is left alone.
   */
  lemma PassRunsExactly(lastRuns: map<string, RunKey>, p: Pass, k: nat)
    requires Complete(p) && DistinctIds(p.specs) && k < |p.specs|
    ensures var s, now, r := p.specs[k], p.local[p.specs[k].id], RunPass(lastRuns, p);
            if IsNext(lastRuns, s, now) && !Stopped(lastRuns, p, k) then
              && Of(s.id, r.attempts) == [Attempt(RunKey(s.id, now), s.id !in p.fails)]
              && Lookup(r.lastRuns, s.id) == if s.id in p.fails then Lookup(lastRuns, s.id) else Some(RunKey(s.id, now))
            else
              Of(s.id, r.attempts) == [] && Lookup(r.lastRuns, s.id) == Lookup(lastRuns, s.id)
  {
    SpecsAreIndependent(lastRuns, p, p.specs[k]);
    ReachedUnlessStopped(lastRuns, p, k);
    NextIsToRun(lastRuns, p.specs[k], p.local[p.specs[k].id]);
  }

  /** One pass as a single spec sees it: the key it is due under, and whether its script would succeed. */
  datatype Visit = Visit(due: Option<int>, ok: bool)

  /** Run keys of one spec, as local minutes counted from day 0. */
  function Absolute(m: LocalMinute): int {
    m.day * MINUTES_A_DAY + m.minute
  }

  predicate Runs(v: Visit, last: Option<int>) {
    v.due.Some? && last != v.due
  }

  /** The key of the last success before visit `n`. */
  function LastSuccess(visits: seq<Visit>, n: nat): Option<int>
    requires n <= |visits|
  {
    if n == 0 then None
    else
      var last := LastSuccess(visits, n - 1);
      if Runs(visits[n - 1], last) && visits[n - 1].ok then visits[n - 1].due else last
  }

  /** The script is executed in this visit. */
  predicate Attempted(visits: seq<Visit>, n: nat)
    requires n < |visits|
  {
    Runs(visits[n], LastSuccess(visits, n))
  }

  predicate Succeeds(visits: seq<Visit>, n: nat)
    requires n < |visits|
  {
    Attempted(visits, n) && visits[n].ok
  }

  /** The keys under which the spec is due never go back. */
  predicate KeysNeverGoBack(visits: seq<Visit>) {
    forall i, j :: 0 <= i < j < |visits| && visits[i].due.Some? && visits[j].due.Some? ==>
      visits[i].due.value <= visits[j].due.value
  }

  /** The visit of the last success before visit `n`, or `n` when there is none. */
  lemma {:induction false} LastSuccessIsTheLast(visits: seq<Visit>, n: nat) returns (last: nat)
    requires n <= |visits|
    ensures last <= n && (last == n <==> LastSuccess(visits, n).None?)
    ensures last < n ==> Succeeds(visits, last) && visits[last].due == LastSuccess(visits, n)
                         && forall j :: last < j < n ==> !Succeeds(visits, j)
    ensures last == n ==> forall j :: 0 <= j < n ==> !Succeeds(visits, j)
  {
    if n == 0 {
      last := 0;
    } else {
      last := LastSuccessIsTheLast(visits, n - 1);
      if Succeeds(visits, n - 1) {
        last := n - 1;
      } else if last == n - 1 {
        last := n;
      }
    }
  }

  /** A due spec is executed exactly when its key has not succeeded yet: failures are retried, successes are not. */
  lemma AttemptedIffNotYetDone(visits: seq<Visit>, n: nat)
    requires KeysNeverGoBack(visits) && n < |visits|
    ensures Attempted(visits, n)
            <==> visits[n].due.Some?
                 && forall i :: 0 <= i < n && visits[i].due == visits[n].due ==> !Succeeds(visits, i)
  {
    var last := LastSuccessIsTheLast(visits, n);
  }

  /** At most one success per run key. */
  lemma OneSuccessPerKey(visits: seq<Visit>, i: nat, j: nat)
    requires KeysNeverGoBack(visits) && i < j < |visits|
    requires Succeeds(visits, i) && Succeeds(visits, j)
    ensures visits[i].due.Some? && visits[j].due.Some? && visits[i].due.value < visits[j].due.value
  {
    AttemptedIffNotYetDone(visits, j);
  }

  /** The success of one key, at one visit and no other. */
  ghost predicate SucceedsOnce(visits: seq<Visit>, key: int) {
    exists n ::
      && 0 <= n < |visits| && Succeeds(visits, n) && visits[n].due == Some(key)
      && forall i :: 0 <= i < |visits| && i != n ==> !(Succeeds(visits, i) && visits[i].due == Some(key))
  }

  ghost predicate NeverSucceeds(visits: seq<Visit>, key: int) {
    forall n :: 0 <= n < |visits| ==> !(Succeeds(visits, n) && visits[n].due == Some(key))
  }

  /** A key that is due at some visit with a working script succeeds exactly once. */
  lemma DueKeySucceedsOnce(visits: seq<Visit>, n: nat)
    requires KeysNeverGoBack(visits) && n < |visits| && visits[n].due.Some? && visits[n].ok
    ensures SucceedsOnce(visits, visits[n].due.value)
  {
    AttemptedIffNotYetDone(visits, n);
    var first := n;
    if !Succeeds(visits, n) {
      first :| 0 <= first < n && visits[first].due == visits[n].due && Succeeds(visits, first);
    }
    forall i: nat | i < |visits| && i != first && visits[i].due == visits[n].due ensures !Succeeds(visits, i) {
      if Succeeds(visits, i) {
        OneSuccessPerKey(visits, if i < first then i else first, if i < first then first else i);
      }
    }
  }

  /** The spec is due in this visit and its script works. */
  predicate Ready(visits: seq<Visit>, n: nat)
    requires n < |visits|
  {
    visits[n].due.Some? && visits[n].ok
  }

  /** A key comes back: the spec is ready under it, then under another one, then under it again. */
  ghost predicate ComesBack(visits: seq<Visit>, i: nat, j: nat, k: nat) {
    && i < j < k < |visits| && Ready(visits, i) && Ready(visits, j) && Ready(visits, k)
    && visits[i].due == visits[k].due != visits[j].due
  }

  /** The same key succeeds in two visits. */
  ghost predicate Repeats(visits: seq<Visit>, i: nat, k: nat) {
    i < k < |visits| && Succeeds(visits, i) && Succeeds(visits, k) && visits[i].due == visits[k].due
  }

  /** After a visit that is ready, the key of that visit is the one remembered. */
  lemma ReadyIsRemembered(visits: seq<Visit>, n: nat)
    requires n < |visits| && Ready(visits, n)
    ensures LastSuccess(visits, n + 1) == visits[n].due
  {
  }

  lemma ComingBackRepeats(visits: seq<Visit>, i: nat, j: nat, k: nat) returns (first: nat, second: nat)
    requires ComesBack(visits, i, j, k)
    ensures Repeats(visits, first, second)
  {
    ReadyIsRemembered(visits, i);
    ReadyIsRemembered(visits, j);
    ReadyIsRemembered(visits, k);
    first := LastSuccessIsTheLast(visits, i + 1);
    var between := LastSuccessIsTheLast(visits, j + 1);
    second := LastSuccessIsTheLast(visits, k + 1);
    assert second < |visits| && Succeeds(visits, second);
    assert between != second;
  }

  lemma RepeatingComesBack(visits: seq<Visit>, i: nat, k: nat) returns (j: nat)
    requires Repeats(visits, i, k)
    ensures ComesBack(visits, i, j, k)
  {
    j := LastSuccessIsTheLast(visits, k);
  }

  /** Some key succeeds twice if and only if a key under which the spec is ready comes back after another one. */
  lemma KeyRepeatsIffItComesBack(visits: seq<Visit>)
    ensures (exists i, k :: Repeats(visits, i, k)) <==> (exists i, j, k :: ComesBack(visits, i, j, k))
  {
    if i, j, k :| ComesBack(visits, i, j, k) {
      var first, second := ComingBackRepeats(visits, i, j, k);
    }
    if i, k :| Repeats(visits, i, k) {
      var j := RepeatingComesBack(visits, i, k);
    }
  }

  // ------------------------------------------- passes over the whole store

  function RunPasses(passes: seq<Pass>): map<string, RunKey>
    requires forall p <- passes :: Complete(p)
  {
    if passes == [] then map[]
    else RunPass(RunPasses(passes[..|passes| - 1]), passes[|passes| - 1]).lastRuns
  }

  /** Nothing is due for a spec that the pass does not come to. */
  function VisitOf(lastRuns: map<string, RunKey>, p: Pass, s: Spec): Visit
    requires Complete(p) && s in p.specs
  {
    var due := Due(s, p.local[s.id]);
    if !Reached(lastRuns, p, s) then Visit(None, false)
    else Visit(if due.Some? then Some(Absolute(due.value.at)) else None, s.id !in p.fails)
  }

  /** The spec with this id in every pass; its trigger may be edited in between. */
  predicate Follows(passes: seq<Pass>, specs: seq<Spec>, id: string) {
    && |specs| == |passes|
    && (forall p <- passes :: Complete(p) && DistinctIds(p.specs))
    && forall n :: 0 <= n < |passes| ==>
         && specs[n] in passes[n].specs && specs[n].id == id
         && passes[n].local[id].minute < MINUTES_A_DAY
  }

  function VisitsOf(passes: seq<Pass>, specs: seq<Spec>, id: string): (visits: seq<Visit>)
    requires Follows(passes, specs, id)
    ensures |visits| == |passes|
  {
    seq(|passes|, n requires 0 <= n < |passes| => VisitOf(RunPasses(passes[..n]), passes[n], specs[n]))
  }

  predicate Remembers(last: Option<RunKey>, success: Option<int>, id: string) {
    && last.Some? == success.Some?
    && (last.Some? ==> last.value.id == id && last.value.at.minute < MINUTES_A_DAY
                       && Absolute(last.value.at) == success.value)
  }

  /** One pass over the store is, for one spec, one visit. */
  lemma PassIsAVisit(lastRuns: map<string, RunKey>, p: Pass, s: Spec, last: Option<int>)
    requires Complete(p) && DistinctIds(p.specs) && s in p.specs
    requires p.local[s.id].minute < MINUTES_A_DAY && Remembers(Lookup(lastRuns, s.id), last, s.id)
    ensures var r, v := RunPass(lastRuns, p), VisitOf(lastRuns, p, s);
            var attempts := Of(s.id, r.attempts);
            && (attempts != [] <==> v.due.Some? && last != v.due)
            && (attempts != [] ==> attempts[0].ok == v.ok)
            && Remembers(Lookup(r.lastRuns, s.id), if v.due.Some? && last != v.due && v.ok then v.due else last, s.id)
  {
    SpecsAreIndependent(lastRuns, p, s);
    var due := Due(s, p.local[s.id]);
    if due.Some? && last.Some? {
      AbsoluteIsInjective(lastRuns[s.id].at, due.value.at);
    }
  }

  lemma AbsoluteIsInjective(a: LocalMinute, b: LocalMinute)
    requires a.minute < MINUTES_A_DAY && b.minute < MINUTES_A_DAY
    ensures Absolute(a) == Absolute(b) <==> a == b
  {
  }

  lemma {:induction false} PassesRememberSuccess(passes: seq<Pass>, specs: seq<Spec>, id: string, n: nat)
    requires Follows(passes, specs, id) && n <= |passes|
    ensures Remembers(Lookup(RunPasses(passes[..n]), id), LastSuccess(VisitsOf(passes, specs, id), n), id)
  {
    var visits := VisitsOf(passes, specs, id);
    if n > 0 {
      PassesRememberSuccess(passes, specs, id, n - 1);
      assert passes[..n][..n - 1] == passes[..n - 1];
      PassIsAVisit(RunPasses(passes[..n - 1]), passes[n - 1], specs[n - 1], LastSuccess(visits, n - 1));
    }
  }

  /** The scheduler does for one spec, among all others, what the visits of that spec say. */
  lemma PassesAreVisits(passes: seq<Pass>, specs: seq<Spec>, id: string, n: nat)
    requires Follows(passes, specs, id) && n < |passes|
    ensures var attempts := Of(id, RunPass(RunPasses(passes[..n]), passes[n]).attempts);
            && (attempts != [] <==> Attempted(VisitsOf(passes, specs, id), n))
            && (attempts != [] && attempts[0].ok <==> Succeeds(VisitsOf(passes, specs, id), n))
  {
    PassesRememberSuccess(passes, specs, id, n);
    PassIsAVisit(RunPasses(passes[..n]), passes[n], specs[n], LastSuccess(VisitsOf(passes, specs, id), n));
  }

  // ------------------------------------------------------- a fixed daily time

  /** Nanoseconds of the local clock in one minute. */
  const MINUTE: int := 60_000_000_000

  function LocalOf(t: int): LocalMinute {
    var m := t / MINUTE;
    LocalMinute(m / MINUTES_A_DAY, m % MINUTES_A_DAY)
  }

  /** The passes at these local instants, seen by an active spec with a time of day; `ok` is the script's luck. */
  function Visits(id: string, at: nat, times: seq<int>, ok: seq<bool>): (visits: seq<Visit>)
    requires |ok| == |times|
    ensures |visits| == |times|
  {
    seq(|times|, i requires 0 <= i < |times| =>
      var due := Due(Spec(id, true, TimeOfDay(Some(at))), LocalOf(times[i]));
      Visit(if due.Some? then Some(Absolute(due.value.at)) else None, ok[i]))
  }

  /** The local date never goes back; the time of day may, as at the end of summer time. */
  predicate DatesNeverGoBack(times: seq<int>) {
    forall i, j :: 0 <= i < j < |times| ==> LocalOf(times[i]).day <= LocalOf(times[j]).day
  }

  lemma DueWithinTheMinute(id: string, at: nat, times: seq<int>, ok: seq<bool>, n: nat, day: int)
    requires |ok| == |times| && n < |times| && at < MINUTES_A_DAY
    requires var key := day * MINUTES_A_DAY + at; key * MINUTE <= times[n] < key * MINUTE + MINUTE
    ensures Visits(id, at, times, ok)[n] == Visit(Some(day * MINUTES_A_DAY + at), ok[n])
  {
  }

  lemma VisitsOfClock(id: string, at: nat, times: seq<int>, ok: seq<bool>)
    requires |ok| == |times| && at < MINUTES_A_DAY && DatesNeverGoBack(times)
    ensures KeysNeverGoBack(Visits(id, at, times, ok))
  {
  }

  /** With passes at most a minute apart, the first pass at or after an instant lies in the minute that starts there. */
  lemma {:induction false} SomePassFallsIn(times: seq<int>, start: int) returns (n: nat)
    requires times != [] && times[0] <= start <= times[|times| - 1]
    requires forall i :: 0 < i < |times| ==> times[i] - times[i - 1] <= MINUTE
    ensures n < |times| && start <= times[n] < start + MINUTE
  {
    n := |times| - 1;
    while n > 0 && times[n - 1] >= start
      invariant n < |times| && start <= times[n]
    {
      n := n - 1;
    }
  }

  /** The local instant at which a minute of a day starts. */
  function Instant(day: int, at: nat): int {
    (day * MINUTES_A_DAY + at) * MINUTE
  }

  /** The local instant `t`, in nanoseconds, lies in this minute of this day. */
  predicate IsIn(t: int, day: int, at: nat) {
    (day * 1440 + at) * 60_000_000_000 <= t < (day * 1440 + at + 1) * 60_000_000_000
  }

  /** Some pass falls into this minute of this day. */
  ghost predicate Met(times: seq<int>, day: int, at: nat) {
    exists n :: 0 <= n < |times| && IsIn(times[n], day, at)
  }

  lemma OnlyDueWithinTheMinute(id: string, at: nat, times: seq<int>, ok: seq<bool>, n: nat, day: int)
    requires |ok| == |times| && n < |times| && at < MINUTES_A_DAY
    requires Visits(id, at, times, ok)[n].due == Some(day * MINUTES_A_DAY + at)
    ensures IsIn(times[n], day, at)
  {
  }

  lemma MetFiresOnce(id: string, at: nat, times: seq<int>, ok: seq<bool>, n: nat, day: int)
    requires |ok| == |times| && n < |times| && ok[n] && at < MINUTES_A_DAY && DatesNeverGoBack(times)
    requires IsIn(times[n], day, at)
    ensures SucceedsOnce(Visits(id, at, times, ok), day * MINUTES_A_DAY + at)
  {
    VisitsOfClock(id, at, times, ok);
    DueWithinTheMinute(id, at, times, ok, n, day);
    DueKeySucceedsOnce(Visits(id, at, times, ok), n);
  }

  lemma UnmetNeverFires(id: string, at: nat, times: seq<int>, ok: seq<bool>, day: int)
    requires |ok| == |times| && at < MINUTES_A_DAY && !Met(times, day, at)
    ensures NeverSucceeds(Visits(id, at, times, ok), day * MINUTES_A_DAY + at)
  {
    var visits, key := Visits(id, at, times, ok), day * MINUTES_A_DAY + at;
    forall n: nat | n < |visits| ensures visits[n].due != Some(key) {
      if visits[n].due == Some(key) {
        OnlyDueWithinTheMinute(id, at, times, ok, n, day);
      }
    }
  }

  /** In every pass the store holds this active spec with this time of day, and its local clock shows `times`. */
  ghost predicate Clocked(passes: seq<Pass>, specs: seq<Spec>, id: string, at: nat, times: seq<int>) {
    && Follows(passes, specs, id) && |times| == |passes|
    && forall n :: 0 <= n < |passes| ==>
         specs[n] == Spec(id, true, TimeOfDay(Some(at))) && passes[n].local[id] == LocalOf(times[n])
  }

  lemma {:induction false} ReachedUnlessOutputFails(lastRuns: map<string, RunKey>, p: Pass, t: Spec)
    requires Complete(p) && t in p.specs && p.outputFails == {}
    ensures Reached(lastRuns, p, t)
    decreases |p.specs|
  {
    if p.specs[0] != t {
      ReachedUnlessOutputFails(AfterSpec(lastRuns, p.specs[0], p), p.(specs := p.specs[1..]), t);
    }
  }

  lemma ClockedVisits(passes: seq<Pass>, specs: seq<Spec>, id: string, at: nat, times: seq<int>)
    requires Clocked(passes, specs, id, at, times)
    requires forall p <- passes :: id !in p.fails && p.outputFails == {}
    ensures VisitsOf(passes, specs, id) == Visits(id, at, times, seq(|times|, i => true))
  {
    forall n | 0 <= n < |passes|
      ensures VisitsOf(passes, specs, id)[n] == Visits(id, at, times, seq(|times|, i => true))[n]
    {
      ReachedUnlessOutputFails(RunPasses(passes[..n]), passes[n], specs[n]);
    }
  }

  /** Dates that never go back keep the keys of a daily time in order, whatever fails on the way. */
  lemma DatesKeepKeysInOrder(passes: seq<Pass>, specs: seq<Spec>, id: string, at: nat, times: seq<int>)
    requires Clocked(passes, specs, id, at, times) && at < MINUTES_A_DAY && DatesNeverGoBack(times)
    ensures KeysNeverGoBack(VisitsOf(passes, specs, id))
  {
    var visits := VisitsOf(passes, specs, id);
    forall n | 0 <= n < |visits| && visits[n].due.Some?
      ensures visits[n].due.value == LocalOf(times[n]).day * MINUTES_A_DAY + at
    {
      assert visits[n] == VisitOf(RunPasses(passes[..n]), passes[n], specs[n]);
    }
  }

  /**
   * With dates that do not go back, a script that succeeds and output that works, whatever the other specs do: a
   * minute gets exactly one success when some pass falls into it, and none otherwise.
   */
  lemma MinuteFiresIffMet(passes: seq<Pass>, specs: seq<Spec>, id: string, at: nat, times: seq<int>, day: int)
    requires Clocked(passes, specs, id, at, times) && at < MINUTES_A_DAY && DatesNeverGoBack(times)
    requires forall p <- passes :: id !in p.fails && p.outputFails == {}
    ensures var visits, key := VisitsOf(passes, specs, id), day * MINUTES_A_DAY + at;
            if Met(times, day, at) then SucceedsOnce(visits, key) else NeverSucceeds(visits, key)
  {
    var ok := seq(|times|, i => true);
    ClockedVisits(passes, specs, id, at, times);
    if Met(times, day, at) {
      var n :| 0 <= n < |times| && IsIn(times[n], day, at);
      MetFiresOnce(id, at, times, ok, n, day);
    } else {
      UnmetNeverFires(id, at, times, ok, day);
    }
  }

  /** Passes a minute apart at most meet every minute they reach: each gets exactly one success. */
  lemma EveryMinuteFiresOnce(passes: seq<Pass>, specs: seq<Spec>, id: string, at: nat, times: seq<int>, day: int)
    requires Clocked(passes, specs, id, at, times) && passes != []
    requires at < MINUTES_A_DAY && DatesNeverGoBack(times)
    requires forall i :: 0 < i < |times| ==> times[i] - times[i - 1] <= MINUTE
    requires forall p <- passes :: id !in p.fails && p.outputFails == {}
    requires times[0] <= Instant(day, at) <= times[|times| - 1]
    ensures SucceedsOnce(VisitsOf(passes, specs, id), day * MINUTES_A_DAY + at)
  {
    var n := SomePassFallsIn(times, Instant(day, at));
    MinuteFiresIffMet(passes, specs, id, at, times, day);
  }

  // ------------------------------------------------------------ a sun event

  /** In every pass the store holds this active spec with a sun event, whose time on each date is `event`. */
  ghost predicate SunClocked(passes: seq<Pass>, specs: seq<Spec>, id: string, event: int -> Option<LocalMinute>,
                             times: seq<int>)
  {
    && Follows(passes, specs, id) && |times| == |passes|
    && forall n :: 0 <= n < |passes| ==>
         && specs[n] == Spec(id, true, SunEvent(event(LocalOf(times[n]).day)))
         && passes[n].local[id] == LocalOf(times[n])
  }

  /** The event of the date of this minute is in this minute, and some pass falls into it. */
  ghost predicate SunMet(times: seq<int>, event: int -> Option<LocalMinute>, m: LocalMinute) {
    event(m.day) == Some(m) && exists n :: 0 <= n < |times| && LocalOf(times[n]) == m
  }

  lemma SunVisit(passes: seq<Pass>, specs: seq<Spec>, id: string, event: int -> Option<LocalMinute>, times: seq<int>,
                 n: nat)
    requires SunClocked(passes, specs, id, event, times) && n < |passes|
    requires id !in passes[n].fails && passes[n].outputFails == {}
    ensures var now := LocalOf(times[n]);
            VisitsOf(passes, specs, id)[n]
            == Visit(if event(now.day) == Some(now) then Some(Absolute(now)) else None, true)
  {
    ReachedUnlessOutputFails(RunPasses(passes[..n]), passes[n], specs[n]);
  }

  lemma LaterDateLaterKey(a: LocalMinute, b: LocalMinute)
    requires a.minute < MINUTES_A_DAY && b.minute < MINUTES_A_DAY && a.day < b.day
    ensures Absolute(a) < Absolute(b)
  {
  }

  lemma SunKeysNeverGoBack(visits: seq<Visit>, event: int -> Option<LocalMinute>, times: seq<int>)
    requires |visits| == |times| && DatesNeverGoBack(times)
    requires forall n :: 0 <= n < |times| && visits[n].due.Some? ==>
               var now := LocalOf(times[n]); event(now.day) == Some(now) && visits[n].due == Some(Absolute(now))
    ensures KeysNeverGoBack(visits)
  {
    forall i, j | 0 <= i < j < |visits| && visits[i].due.Some? && visits[j].due.Some?
      ensures visits[i].due.value <= visits[j].due.value
    {
      var a, b := LocalOf(times[i]), LocalOf(times[j]);
      if a.day < b.day {
        LaterDateLaterKey(a, b);
      } else {
        assert a.day == b.day && event(a.day) == Some(a) && event(b.day) == Some(b);
      }
    }
  }

  /**
   * With dates that do not go back, a script that succeeds and output that works: a minute gets exactly one success
   * when the sun event of its date is in it and some pass falls into it, and none otherwise.
   */
  lemma SunFiresIffMet(passes: seq<Pass>, specs: seq<Spec>, id: string, event: int -> Option<LocalMinute>,
                       times: seq<int>, m: LocalMinute)
    requires SunClocked(passes, specs, id, event, times) && DatesNeverGoBack(times) && m.minute < MINUTES_A_DAY
    requires forall p <- passes :: id !in p.fails && p.outputFails == {}
    ensures var visits := VisitsOf(passes, specs, id);
            if SunMet(times, event, m) then SucceedsOnce(visits, Absolute(m)) else NeverSucceeds(visits, Absolute(m))
  {
    var visits := VisitsOf(passes, specs, id);
    forall n | 0 <= n < |passes|
      ensures var now := LocalOf(times[n]);
              visits[n] == Visit(if event(now.day) == Some(now) then Some(Absolute(now)) else None, true)
    {
      assert passes[n] in passes;
      SunVisit(passes, specs, id, event, times, n);
    }
    SunKeysNeverGoBack(visits, event, times);
    if SunMet(times, event, m) {
      var n :| 0 <= n < |times| && LocalOf(times[n]) == m;
      DueKeySucceedsOnce(visits, n);
    } else {
      forall n: nat | n < |visits|
        ensures visits[n].due != Some(Absolute(m))
      {
        AbsoluteIsInjective(LocalOf(times[n]), m);
      }
    }
  }

  // -------------------------------------------------------- clocks set back

  /** The only spec of a store, at passes at these local instants, when everything works. */
  function PassesAt(spec: Spec, times: seq<int>): seq<Pass> {
    seq(|times|, n requires 0 <= n < |times| => Pass([spec], map[spec.id := LocalOf(times[n])], {}, {}))
  }

  function Same<T>(x: T, n: nat): seq<T> {
    seq(n, i => x)
  }

  lemma PassesAtAreClocked(id: string, at: nat, times: seq<int>)
    ensures var spec := Spec(id, true, TimeOfDay(Some(at)));
            var passes, specs := PassesAt(spec, times), Same(spec, |times|);
            Clocked(passes, specs, id, at, times) && forall p <- passes :: p.fails == {} && p.outputFails == {}
  {
    var spec := Spec(id, true, TimeOfDay(Some(at)));
    forall p | p in PassesAt(spec, times)
      ensures Complete(p) && DistinctIds(p.specs)
    {
    }
  }

  lemma ThereAndBack(visits: seq<Visit>)
    requires |visits| == 3 && ComesBack(visits, 0, 1, 2)
    ensures Repeats(visits, 0, 2)
  {
    assert LastSuccess(visits, 0) == None;
    ReadyIsRemembered(visits, 0);
    ReadyIsRemembered(visits, 1);
  }

  lemma VisitsThereAndBack(id: string, at: nat, times: seq<int>, day: int, later: int)
    requires at < MINUTES_A_DAY && day != later
    requires times == [Instant(day, at), Instant(later, at), Instant(day, at)]
    ensures Repeats(Visits(id, at, times, seq(|times|, i => true)), 0, 2)
  {
    var ok := seq(|times|, i => true);
    DueWithinTheMinute(id, at, times, ok, 0, day);
    DueWithinTheMinute(id, at, times, ok, 1, later);
    DueWithinTheMinute(id, at, times, ok, 2, day);
    ThereAndBack(Visits(id, at, times, ok));
  }

  /** A clock that is set back repeats: the run of one day, then of another day, then of the first day again. */
  lemma GoingBackRepeats(id: string, at: nat, day: int, later: int)
    requires at < MINUTES_A_DAY && day != later
    ensures var spec := Spec(id, true, TimeOfDay(Some(at)));
            var times := [Instant(day, at), Instant(later, at), Instant(day, at)];
            && Clocked(PassesAt(spec, times), Same(spec, 3), id, at, times)
            && Repeats(VisitsOf(PassesAt(spec, times), Same(spec, 3), id), 0, 2)
  {
    var spec := Spec(id, true, TimeOfDay(Some(at)));
    var times := [Instant(day, at), Instant(later, at), Instant(day, at)];
    PassesAtAreClocked(id, at, times);
    ClockedVisits(PassesAt(spec, times), Same(spec, 3), id, at, times);
    VisitsThereAndBack(id, at, times, day, later);
  }
}
