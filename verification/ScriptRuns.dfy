// Script runs under every interleaving of the script, the host and the two pipes between them.

module ScriptRuns {
  import opened Common
  import opened ScriptHost

  /** A permission a guard gave: for which key, at which recorded instant, for how many seconds. */
  datatype Grant = Grant(key: string, at: int, seconds: real)

  /** What travels from the host to the script. */
  datatype Pipe = Pipe(
    closed: bool,                          // the script has stopped reading responses
    answered: map<nat, Result<Value, string>>,
    waiting: seq<Response>,                // written by the host, not yet read by the script
    lost: set<nat>)                        // requests answered after the script was gone

  /** The run goes on, or the host has given up on it; `write` is what became of a store write that made it. */
  datatype End = Running | GaveUp(write: Write)

  datatype World = World(
    now: int,                              // the instant the run was started with, which the script sees all along
    base: Option<map<string, Value>>,      // the store as the run found it
    origin: map<string, Value>,            // what the store held before the grants of `earlier`
    earlier: seq<Grant>,                   // grants of finished runs that the store still holds
    script: Script,
    printed: seq<Message>,                 // all the script printed in this run
    handled: nat,                          // how many of those the host has dealt with
    file: File<map<string, Value>>,        // the store
    end: End,
    pipe: Pipe)

  datatype Step =
    | Calls(call: Call)
    | Reads
    | Closes
    | Handles(verdict: Verdict)
    | NextRun(now: int)

  function Started(now: int, file: File<map<string, Value>>, origin: map<string, Value>, earlier: seq<Grant>): World {
    var base := ReadStore(file);
    World(now, base, origin, earlier, Script(base, 0, {}, map[]), [], 0, file, Running, Pipe(false, map[], [], {}))
  }

  function FirstRun(now: int, file: File<map<string, Value>>): World {
    Started(now, file, if ReadStore(file).Some? then ReadStore(file).value else map[], [])
  }

  /** Runs do not overlap and the recorded clock does not go back. */
  predicate Possible(w: World, s: Step) {
    match s
    case Calls(_) => true
    case Reads => w.pipe.waiting != [] && !w.pipe.closed
    case Closes => !w.pipe.closed
    case Handles(verdict) => CanHandle(w, verdict)
    case NextRun(now) => w.now <= now && (w.end.GaveUp? || w.handled == |w.printed|)
  }

  function Called(w: World, call: Call): World {
    var (script, lines) := AfterCall(w.script, call, w.now);
    w.(script := script, printed := w.printed + lines)
  }

  function HasRead(w: World): World
    requires w.pipe.waiting != []
  {
    w.(script := AfterResponse(w.script, w.pipe.waiting[0]), pipe := w.pipe.(waiting := w.pipe.waiting[1..]))
  }

  predicate CanHandle(w: World, verdict: Verdict) {
    w.end == Running && w.handled < |w.printed| && Fits(w.printed[w.handled], verdict)
  }

  /** A response is written; nobody reads it when the script has closed its end. */
  function Send(p: Pipe, r: Response, answer: Result<Value, string>): Pipe {
    var known := p.(answered := p.answered[r.id := answer]);
    if p.closed then known.(lost := p.lost + {r.id}) else known.(waiting := p.waiting + [r])
  }

  /** What a message that fails has done to the store. */
  function WriteThatFailed(w: World, verdict: Verdict): Write
    requires CanHandle(w, verdict)
  {
    if verdict.Saves? && ReadStore(w.file).Some? then verdict.write else Refused
  }

  function HasHandled(w: World, verdict: Verdict): World
    requires CanHandle(w, verdict)
  {
    var h := Handle(w.file, w.printed[w.handled], verdict);
    if !h.ok then w.(end := GaveUp(WriteThatFailed(w, verdict)), file := h.file)
    else
      w.(handled := w.handled + 1, file := h.file,
         pipe := if h.response.Some? then Send(w.pipe, h.response.value, verdict.answer) else w.pipe)
  }

  /** The grants the store still holds when the run is over: none when its last write left the file empty. */
  function Remembered(w: World): seq<Grant>
    requires w.handled <= |w.printed|
  {
    if w.end == GaveUp(Emptied) then [] else w.earlier + Grants(w.printed[..w.handled], w.now)
  }

  /** What the store held before those grants: nothing once it was emptied. */
  function Origin(w: World): map<string, Value> {
    if w.end == GaveUp(Emptied) then map[] else w.origin
  }

  /** The next run starts from the store as it is; what was not handled is gone. */
  function Restarted(w: World, now: int): World
    requires w.handled <= |w.printed|
  {
    Started(now, w.file, Origin(w), Remembered(w))
  }

  function Next(w: World, s: Step): World
    requires Possible(w, s) && w.handled <= |w.printed|
  {
    match s
    case Calls(call) => Called(w, call)
    case Reads => HasRead(w)
    case Closes => w.(pipe := w.pipe.(closed := true))
    case Handles(verdict) => HasHandled(w, verdict)
    case NextRun(now) => Restarted(w, now)
  }

  predicate IsRun(w: World, steps: seq<Step>, last: World)
    decreases |steps|
  {
    w.handled <= |w.printed| &&
    if steps == [] then last == w else Possible(w, steps[0]) && IsRun(Next(w, steps[0]), steps[1..], last)
  }

  // ------------------------------------------------- the two copies of the state

  lemma {:induction false} ReplayInParts(store: map<string, Value>, a: seq<Message>, b: seq<Message>)
    ensures Replay(store, a + b) == Replay(Replay(store, a), b)
  {
    if b == [] {
      assert a + b == a;
    } else {
      assert (a + b)[..|a + b| - 1] == a + b[..|b| - 1];
      ReplayInParts(store, a, b[..|b| - 1]);
    }
  }

  predicate NoOperations(ms: seq<Message>) {
    forall m <- ms :: !m.State?
  }

  /** What a call does to the copy of the script is what replaying its line does; on a null state it prints nothing. */
  lemma CallIsReplayed(s: Script, c: Call, now: int)
    ensures var (after, lines) := AfterCall(s, c, now);
            && |lines| <= 1
            && (s.state.None? ==> after.state.None? && NoOperations(lines))
            && (s.state.Some? ==> after.state == Some(Replay(s.state.value, lines)))
  {
    var (_, lines) := AfterCall(s, c, now);
    assert lines != [] ==> lines[..0] == [];
  }

  /** The state of the script is what it printed, replayed on what it was given. */
  predicate CopyInv(w: World) {
    match w.base
    case None => w.script.state.None? && NoOperations(w.printed)
    case Some(base) => w.script.state == Some(Replay(base, w.printed))
  }

  /** The store has followed as far as the host has come, unless a write that failed has damaged the file. */
  predicate FileInv(w: World) {
    && w.handled <= |w.printed|
    && match w.end
       case GaveUp(Torn) => w.file.Malformed?
       case GaveUp(Emptied) => w.file.Empty?
       case GaveUp(Done) => false
       case _ => ReadStore(w.file) == if w.base.None? then None else Some(Replay(w.base.value, w.printed[..w.handled]))
  }

  predicate CopiesInv(w: World) {
    CopyInv(w) && FileInv(w)
  }

  lemma CallKeepsCopies(w: World, call: Call)
    requires CopiesInv(w)
    ensures CopiesInv(Called(w, call))
  {
    var (_, lines) := AfterCall(w.script, call, w.now);
    CallIsReplayed(w.script, call, w.now);
    if w.base.Some? {
      ReplayInParts(w.base.value, w.printed, lines);
    }
    assert (w.printed + lines)[..w.handled] == w.printed[..w.handled];
  }

  lemma HandleKeepsCopies(w: World, verdict: Verdict)
    requires CopiesInv(w) && CanHandle(w, verdict)
    ensures CopiesInv(HasHandled(w, verdict))
  {
    assert w.printed[..w.handled + 1][..w.handled] == w.printed[..w.handled];
    assert w.printed[w.handled] in w.printed;
  }

  lemma CopiesStep(w: World, s: Step)
    requires CopiesInv(w) && Possible(w, s)
    ensures CopiesInv(Next(w, s))
  {
    match s
    case Calls(call) => CallKeepsCopies(w, call);
    case Handles(verdict) => HandleKeepsCopies(w, verdict);
    case NextRun(_) =>
    case Reads =>
    case Closes =>
  }

  lemma {:induction false} CopiesRun(w: World, steps: seq<Step>, last: World)
    requires CopiesInv(w) && IsRun(w, steps, last)
    ensures CopiesInv(last)
    decreases |steps|
  {
    if steps != [] {
      CopiesStep(w, steps[0]);
      CopiesRun(Next(w, steps[0]), steps[1..], last);
    }
  }

  /**
   * The copy of the script is all it printed, the store a front part of that, as far as the host has come; drained,
   * the two are equal. The store is no front part exactly when the run was given up for a write that tore the file,
   * or emptied it while there was something in it.
   */
  lemma StoreFollowsScript(now: int, file: File<map<string, Value>>, steps: seq<Step>, w: World)
    requires IsRun(FirstRun(now, file), steps, w) && w.base.Some?
    ensures w.handled <= |w.printed| && w.script.state == Some(Replay(w.base.value, w.printed))
    ensures var front := Replay(w.base.value, w.printed[..w.handled]);
            ReadStore(w.file) == Some(front) <==> w.end != GaveUp(Torn) && (w.end == GaveUp(Emptied) ==> front == map[])
    ensures w.end == Running && w.handled == |w.printed| ==> ReadStore(w.file) == w.script.state
  {
    CopiesRun(FirstRun(now, file), steps, w);
    assert w.printed[..|w.printed|] == w.printed;
  }

  /** A torn store stays torn: no later run can read it, so none has a state, and none writes it. */
  lemma {:induction false} TornStoreStaysTorn(w: World, steps: seq<Step>, last: World)
    requires CopiesInv(w) && ReadStore(w.file).None? && IsRun(w, steps, last)
    ensures last.file == w.file
    ensures w.base.None? ==> last.base.None? && last.script.state.None?
    decreases |steps|
  {
    if steps != [] {
      CopiesStep(w, steps[0]);
      TornStoreStaysTorn(Next(w, steps[0]), steps[1..], last);
    }
  }

  // ------------------------------------------------------ the calls of a run

  /** The calls of the run that these steps end in, after `calls` of the one they start in. */
  function CallsAfter(calls: seq<Call>, steps: seq<Step>): seq<Call>
    decreases |steps|
  {
    if steps == [] then calls
    else
      match steps[0]
      case Calls(call) => CallsAfter(calls + [call], steps[1..])
      case NextRun(_) => CallsAfter([], steps[1..])
      case _ => CallsAfter(calls, steps[1..])
  }

  /** What a call makes of a store: a value set, a key deleted, or the instant, under a guard that is old enough. */
  function Does(store: map<string, Value>, c: Call, now: int): map<string, Value> {
    match c
    case Set(key, value) => store[key := value]
    case Delete(key) => store - {key}
    case GuardFor(key, seconds) =>
      if key in store && store[key].date.Some? && (now - store[key].date.value) as real / 1000.0 < seconds
      then store else store[key := Value("instant", Some(now))]
    case _ => store
  }

  function Kept(store: map<string, Value>, calls: seq<Call>, now: int): map<string, Value> {
    if calls == [] then store
    else Does(Kept(store, calls[..|calls| - 1], now), calls[|calls| - 1], now)
  }

  /** The copy is what the calls make of the store the run found, and every front of the lines what a front does. */
  ghost predicate KeepsCalls(w: World, calls: seq<Call>) {
    w.base.Some? ==>
      && w.script.state == Some(Kept(w.base.value, calls, w.now))
      && forall h :: 0 <= h <= |w.printed| ==> FrontOfCalls(w.base.value, w.printed[..h], calls, w.now)
  }

  ghost predicate FrontOfCalls(base: map<string, Value>, lines: seq<Message>, calls: seq<Call>, now: int) {
    exists n :: 0 <= n <= |calls| && Replay(base, lines) == Kept(base, calls[..n], now)
  }

  function Asks(calls: seq<Call>): nat {
    if calls == [] then 0 else Asks(calls[..|calls| - 1]) + if calls[|calls| - 1].Ask? then 1 else 0
  }

  /** The line of a call: requests are numbered, and a state call that is refused or has no state prints nothing. */
  function LineOf(store: Option<map<string, Value>>, c: Call, asked: nat, now: int): seq<Message> {
    match c
    case Ask(query) => [Request(asked + 1, query)]
    case Print(text) => [Other(text)]
    case Set(key, value) => if store.None? then [] else [State(SetKey(key, value), Plain)]
    case Delete(key) => if store.None? then [] else [State(DeleteKey(key), Plain)]
    case GuardFor(key, seconds) =>
      if store.None? then []
      else if key in store.value && store.value[key].date.Some?
              && (now - store.value[key].date.value) as real / 1000.0 < seconds then []
      else [State(SetKey(key, Value("instant", Some(now))), Guard(seconds))]
  }

  function KeptOf(base: Option<map<string, Value>>, calls: seq<Call>, now: int): Option<map<string, Value>> {
    if base.None? then None else Some(Kept(base.value, calls, now))
  }

  /** All the lines of these calls, in order. */
  function LinesOf(base: Option<map<string, Value>>, calls: seq<Call>, now: int): seq<Message> {
    if calls == [] then []
    else
      var before, c := calls[..|calls| - 1], calls[|calls| - 1];
      LinesOf(base, before, now) + LineOf(KeptOf(base, before, now), c, Asks(before), now)
  }

  /** The script has printed the lines of its calls. */
  predicate PrintsCalls(w: World, calls: seq<Call>) {
    && w.printed == LinesOf(w.base, calls, w.now)
    && w.script.requestSeq == Asks(calls)
    && w.script.state == KeptOf(w.base, calls, w.now)
  }

  lemma CallIsPrinted(w: World, calls: seq<Call>, c: Call)
    requires PrintsCalls(w, calls)
    ensures PrintsCalls(Called(w, c), calls + [c])
  {
    assert (calls + [c])[..|calls|] == calls;
    if w.base.Some? {
      KeptOneMore(w.base.value, calls, c, w.now);
    }
    assert AfterCall(w.script, c, w.now).1 == LineOf(w.script.state, c, w.script.requestSeq, w.now);
  }

  lemma {:induction false} RunPrintsCalls(w: World, calls: seq<Call>, steps: seq<Step>, last: World)
    requires PrintsCalls(w, calls) && IsRun(w, steps, last)
    ensures PrintsCalls(last, CallsAfter(calls, steps))
    decreases |steps|
  {
    if steps != [] {
      var next := Next(w, steps[0]);
      match steps[0] {
        case Calls(call) =>
          CallIsPrinted(w, calls, call);
          RunPrintsCalls(next, calls + [call], steps[1..], last);
        case NextRun(_) =>
          RunPrintsCalls(next, [], steps[1..], last);
        case _ =>
          RunPrintsCalls(next, calls, steps[1..], last);
      }
    }
  }

  /** What the script printed in its run is what it called, line by line, with or without a state. */
  lemma LinesAreWhatWasCalled(now: int, file: File<map<string, Value>>, steps: seq<Step>, w: World)
    requires IsRun(FirstRun(now, file), steps, w)
    ensures w.printed == LinesOf(w.base, CallsAfter([], steps), w.now)
  {
    RunPrintsCalls(FirstRun(now, file), [], steps, w);
  }

  lemma KeptOneMore(store: map<string, Value>, calls: seq<Call>, c: Call, now: int)
    ensures Kept(store, calls + [c], now) == Does(Kept(store, calls, now), c, now)
  {
    assert (calls + [c])[..|calls|] == calls;
  }

  lemma FrontStays(base: map<string, Value>, lines: seq<Message>, calls: seq<Call>, c: Call, now: int)
    requires FrontOfCalls(base, lines, calls, now)
    ensures FrontOfCalls(base, lines, calls + [c], now)
  {
    var n :| 0 <= n <= |calls| && Replay(base, lines) == Kept(base, calls[..n], now);
    assert (calls + [c])[..n] == calls[..n];
  }

  /** A new line, if any, ends where all the calls have got. */
  lemma FrontsOfMore(base: map<string, Value>, printed: seq<Message>, lines: seq<Message>, calls: seq<Call>, c: Call,
                     now: int)
    requires |lines| <= 1
    requires forall h :: 0 <= h <= |printed| ==> FrontOfCalls(base, printed[..h], calls, now)
    requires Replay(base, printed + lines) == Kept(base, calls + [c], now)
    ensures forall h :: 0 <= h <= |printed + lines| ==> FrontOfCalls(base, (printed + lines)[..h], calls + [c], now)
  {
    var all := printed + lines;
    forall h | 0 <= h <= |all|
      ensures FrontOfCalls(base, all[..h], calls + [c], now)
    {
      if h <= |printed| {
        assert all[..h] == printed[..h];
        FrontStays(base, printed[..h], calls, c, now);
      } else {
        assert all[..h] == all && (calls + [c])[..|calls| + 1] == calls + [c];
      }
    }
  }

  lemma CallIsKept(w: World, calls: seq<Call>, c: Call)
    requires KeepsCalls(w, calls) && CopiesInv(w)
    ensures KeepsCalls(Called(w, c), calls + [c])
  {
    if w.base.Some? {
      var (_, lines) := AfterCall(w.script, c, w.now);
      KeptOneMore(w.base.value, calls, c, w.now);
      CallDoes(w.script, c, w.now);
      CallKeepsCopies(w, c);
      FrontsOfMore(w.base.value, w.printed, lines, calls, c, w.now);
    }
  }

  lemma CallDoes(s: Script, c: Call, now: int)
    requires s.state.Some?
    ensures var (after, lines) := AfterCall(s, c, now);
            |lines| <= 1 && after.state == Some(Does(s.state.value, c, now))
  {
  }

  lemma StartKeepsCalls(w: World)
    requires w.printed == [] && w.script.state == w.base
    ensures KeepsCalls(w, [])
  {
    if w.base.Some? {
      assert w.printed[..0] == [] && var none: seq<Call> := []; none[..0] == [];
      assert Replay(w.base.value, []) == Kept(w.base.value, [], w.now);
    }
  }

  lemma {:induction false} RunKeepsCalls(w: World, calls: seq<Call>, steps: seq<Step>, last: World)
    requires KeepsCalls(w, calls) && CopiesInv(w) && IsRun(w, steps, last)
    ensures KeepsCalls(last, CallsAfter(calls, steps)) && CopiesInv(last)
    decreases |steps|
  {
    if steps != [] {
      CopiesStep(w, steps[0]);
      var next := Next(w, steps[0]);
      match steps[0] {
        case Calls(call) =>
          CallIsKept(w, calls, call);
          RunKeepsCalls(next, calls + [call], steps[1..], last);
        case NextRun(_) =>
          StartKeepsCalls(next);
          RunKeepsCalls(next, [], steps[1..], last);
        case _ =>
          RunKeepsCalls(next, calls, steps[1..], last);
      }
    }
  }

  /**
   * In every reachable state the copy of the script is what the calls of its run make of the store the run found.
   * The store, unless a write has damaged the file, is what a front part of them makes of it; drained, all of them.
   */
  lemma StateIsWhatWasCalled(now: int, file: File<map<string, Value>>, steps: seq<Step>, w: World)
    requires IsRun(FirstRun(now, file), steps, w) && w.base.Some?
    ensures w.handled <= |w.printed|
    ensures var calls := CallsAfter([], steps);
            && w.script.state == Some(Kept(w.base.value, calls, w.now))
            && (w.end == Running || w.end == GaveUp(Refused) ==>
                  exists n :: 0 <= n <= |calls| && ReadStore(w.file) == Some(Kept(w.base.value, calls[..n], w.now)))
            && (w.end == Running && w.handled == |w.printed| ==>
                  ReadStore(w.file) == Some(Kept(w.base.value, calls, w.now)))
  {
    StartKeepsCalls(FirstRun(now, file));
    RunKeepsCalls(FirstRun(now, file), [], steps, w);
    StoreFollowsScript(now, file, steps, w);
    assert FrontOfCalls(w.base.value, w.printed[..w.handled], CallsAfter([], steps), w.now);
  }

  // --------------------------------------------------------- requests and answers

  function RequestIds(ms: seq<Message>): set<nat> {
    set m <- ms | m.Request? :: m.id
  }

  function Ids(rs: seq<Response>): set<nat> {
    set r <- rs :: r.id
  }

  predicate DistinctRequests(ms: seq<Message>) {
    forall i, j :: 0 <= i < j < |ms| && ms[i].Request? && ms[j].Request? ==> ms[i].id != ms[j].id
  }

  predicate DistinctIds(rs: seq<Response>) {
    forall i, j :: 0 <= i < j < |rs| ==> rs[i].id != rs[j].id
  }

  /** The script has asked each id once, the latest one last, and each is pending or settled. */
  predicate Issued(s: Script, printed: seq<Message>) {
    && DistinctRequests(printed)
    && (forall id <- RequestIds(printed) :: id <= s.requestSeq)
    && s.pending + s.settled.Keys == RequestIds(printed)
    && s.pending !! s.settled.Keys
  }

  /** Every answered request is in exactly one place: settled, in the pipe, or lost with the script gone. */
  predicate Placed(pending: set<nat>, settled: set<nat>, p: Pipe) {
    && p.answered.Keys == settled + Ids(p.waiting) + p.lost
    && Ids(p.waiting) + p.lost <= pending
    && Ids(p.waiting) !! p.lost
    && DistinctIds(p.waiting)
    && (p.lost != {} ==> p.closed)
  }

  /** Nothing is altered on the way. */
  predicate Truthful(settled: map<nat, Settlement>, p: Pipe) {
    && (forall r <- p.waiting :: r.id in p.answered && r == Wire(r.id, p.answered[r.id]))
    && (forall id <- settled :: id in p.answered && settled[id] == Settle(Wire(id, p.answered[id])))
  }

  predicate PipeInv(s: Script, p: Pipe) {
    Placed(s.pending, s.settled.Keys, p) && Truthful(s.settled, p)
  }

  predicate RequestsInv(w: World) {
    && w.handled <= |w.printed|
    && Issued(w.script, w.printed)
    && w.pipe.answered.Keys == RequestIds(w.printed[..w.handled])
    && PipeInv(w.script, w.pipe)
  }

  lemma IdsOfOneMore(ms: seq<Message>, m: Message)
    ensures RequestIds(ms + [m]) == RequestIds(ms) + if m.Request? then {m.id} else {}
  {
  }

  lemma CallIssues(s: Script, printed: seq<Message>, c: Call, now: int)
    requires Issued(s, printed)
    ensures var (after, lines) := AfterCall(s, c, now);
            Issued(after, printed + lines) && after.settled == s.settled && s.pending <= after.pending
  {
    var (after, lines) := AfterCall(s, c, now);
    if lines == [] {
      assert printed + lines == printed;
    } else {
      var m := lines[0];
      assert lines == [m];
      IdsOfOneMore(printed, m);
      forall i | 0 <= i < |printed| && printed[i].Request? ensures printed[i].id <= s.requestSeq {
        assert printed[i].id in RequestIds(printed);
      }
    }
  }

  lemma IdsOfOneMoreResponse(rs: seq<Response>, r: Response)
    requires DistinctIds(rs) && r.id !in Ids(rs)
    ensures Ids(rs + [r]) == Ids(rs) + {r.id} && DistinctIds(rs + [r])
  {
  }

  /** An answer is put into the pipe, or lost. */
  lemma SendKeepsPlaces(pending: set<nat>, settled: set<nat>, p: Pipe, r: Response, answer: Result<Value, string>)
    requires Placed(pending, settled, p) && r.id in pending && r.id !in p.answered
    ensures Placed(pending, settled, Send(p, r, answer))
  {
    IdsOfOneMoreResponse(p.waiting, r);
    assert Send(p, r, answer).answered.Keys == p.answered.Keys + {r.id};
  }

  lemma SendIsTruthful(settled: map<nat, Settlement>, p: Pipe, id: nat, answer: Result<Value, string>)
    requires Truthful(settled, p) && id !in p.answered
    ensures Truthful(settled, Send(p, Wire(id, answer), answer))
  {
  }

  /** The first response moves from the pipe to its own request. */
  lemma ReadKeepsPlaces(pending: set<nat>, settled: set<nat>, p: Pipe)
    requires Placed(pending, settled, p) && p.waiting != []
    ensures p.waiting[0].id in pending
    ensures Placed(pending - {p.waiting[0].id}, settled + {p.waiting[0].id}, p.(waiting := p.waiting[1..]))
  {
  }

  lemma ReadIsTruthful(settled: map<nat, Settlement>, p: Pipe)
    requires Truthful(settled, p) && p.waiting != []
    ensures var r := p.waiting[0]; Truthful(settled[r.id := Settle(r)], p.(waiting := p.waiting[1..]))
  {
  }

  /** The next message to handle, when it is a request, was asked, and was not answered before. */
  lemma NextRequestIsNew(printed: seq<Message>, n: nat)
    requires DistinctRequests(printed) && n < |printed|
    ensures printed[..n + 1] == printed[..n] + [printed[n]]
    ensures printed[n].Request? ==> printed[n].id in RequestIds(printed) && printed[n].id !in RequestIds(printed[..n])
  {
  }

  lemma CallKeepsRequests(w: World, call: Call)
    requires RequestsInv(w)
    ensures RequestsInv(Called(w, call))
  {
    var (_, lines) := AfterCall(w.script, call, w.now);
    CallIssues(w.script, w.printed, call, w.now);
    assert (w.printed + lines)[..w.handled] == w.printed[..w.handled];
  }

  lemma ReadKeepsRequests(w: World)
    requires RequestsInv(w) && w.pipe.waiting != []
    ensures RequestsInv(HasRead(w))
  {
    ReadKeepsPlaces(w.script.pending, w.script.settled.Keys, w.pipe);
    ReadIsTruthful(w.script.settled, w.pipe);
    assert HasRead(w).script.settled.Keys == w.script.settled.Keys + {w.pipe.waiting[0].id};
  }

  lemma HandleKeepsRequests(w: World, verdict: Verdict)
    requires RequestsInv(w) && CanHandle(w, verdict)
    ensures RequestsInv(HasHandled(w, verdict))
  {
    var m := w.printed[w.handled];
    NextRequestIsNew(w.printed, w.handled);
    IdsOfOneMore(w.printed[..w.handled], m);
    if m.Request? && verdict.Answers? {
      SendKeepsPlaces(w.script.pending, w.script.settled.Keys, w.pipe, Wire(m.id, verdict.answer), verdict.answer);
      SendIsTruthful(w.script.settled, w.pipe, m.id, verdict.answer);
      assert HasHandled(w, verdict).pipe.answered.Keys == w.pipe.answered.Keys + {m.id};
    }
  }

  lemma RequestsStep(w: World, s: Step)
    requires RequestsInv(w) && Possible(w, s)
    ensures RequestsInv(Next(w, s))
  {
    match s
    case Calls(call) => CallKeepsRequests(w, call);
    case Reads => ReadKeepsRequests(w);
    case Closes =>
    case Handles(verdict) => HandleKeepsRequests(w, verdict);
    case NextRun(now) =>
  }

  lemma {:induction false} RequestsRun(w: World, steps: seq<Step>, last: World)
    requires RequestsInv(w) && IsRun(w, steps, last)
    ensures RequestsInv(last)
    decreases |steps|
  {
    if steps != [] {
      RequestsStep(w, steps[0]);
      RequestsRun(Next(w, steps[0]), steps[1..], last);
    }
  }

  /** Request ids never repeat, and pending is what was asked and is not settled. */
  lemma PendingIsUnsettled(now: int, file: File<map<string, Value>>, steps: seq<Step>, w: World)
    requires IsRun(FirstRun(now, file), steps, w)
    ensures DistinctRequests(w.printed)
    ensures w.script.pending == RequestIds(w.printed) - w.script.settled.Keys
  {
    RequestsRun(FirstRun(now, file), steps, w);
  }

  /** Every request the host dealt with is settled by its own answer or still on its way, unless the script was gone. */
  lemma AnswersReachTheirRequest(now: int, file: File<map<string, Value>>, steps: seq<Step>, w: World, id: nat)
    requires IsRun(FirstRun(now, file), steps, w) && w.handled <= |w.printed|
    requires id in RequestIds(w.printed[..w.handled])
    ensures id in w.pipe.answered
            && (id in w.script.settled || id in Ids(w.pipe.waiting) || (w.pipe.closed && id in w.pipe.lost))
    ensures id in w.script.settled ==> id !in Ids(w.pipe.waiting) + w.pipe.lost
    ensures id in w.script.settled ==>
              match w.pipe.answered[id]
              case Ok(value) => w.script.settled[id] == Resolved(value)
              case Err(error) => w.script.settled[id] == Rejected(error) <==> error != ""
  {
    RequestsRun(FirstRun(now, file), steps, w);
  }

  // ------------------------------------------------------ guards across runs

  function GrantOf(m: Message, now: int): seq<Grant> {
    if m.State? && m.op.SetKey? && m.source.Guard? then [Grant(m.op.key, now, m.source.seconds)] else []
  }

  /** The grants among these messages, in order. */
  function Grants(ms: seq<Message>, now: int): seq<Grant> {
    if ms == [] then [] else Grants(ms[..|ms| - 1], now) + GrantOf(ms[|ms| - 1], now)
  }

  function For(key: string, gs: seq<Grant>): seq<Grant> {
    if gs == [] then []
    else For(key, gs[..|gs| - 1]) + if gs[|gs| - 1].key == key then [gs[|gs| - 1]] else []
  }

  /** Only guards write this key, and they write the instant of the run. */
  predicate OnlyGuarded(key: string, m: Message, now: int) {
    m.State? && m.op.key == key ==> m.op == SetKey(key, Stamp(now)) && m.source.Guard?
  }

  predicate GuardsOnly(key: string, c: Call) {
    !(c.Set? && c.key == key) && !(c.Delete? && c.key == key)
  }

  predicate NoOtherWrites(key: string, steps: seq<Step>) {
    forall s <- steps :: s.Calls? ==> GuardsOnly(key, s.call)
  }

  /** Each grant comes at least its own seconds after the one before. */
  predicate Spaced(gs: seq<Grant>) {
    forall i :: 0 < i < |gs| ==> gs[i - 1].at <= gs[i].at && (gs[i].at - gs[i - 1].at) as real / 1000.0 >= gs[i].seconds
  }

  predicate SpacedUntil(gs: seq<Grant>, now: int) {
    Spaced(gs) && forall g <- gs :: g.at <= now
  }

  /** The key holds the instant of the latest of these grants or, when there is none, what it held at the origin. */
  predicate Holds(store: map<string, Value>, key: string, origin: map<string, Value>, gs: seq<Grant>) {
    if gs != [] then key in store && store[key] == Stamp(gs[|gs| - 1].at)
    else (key in store <==> key in origin) && (key in store ==> store[key] == origin[key])
  }

  function KeyGrants(key: string, ms: seq<Message>, now: int): seq<Grant> {
    For(key, Grants(ms, now))
  }

  /** The grants of a key that reached the store, in all runs so far. */
  function Durable(w: World, key: string): seq<Grant>
    requires w.handled <= |w.printed|
  {
    For(key, w.earlier) + KeyGrants(key, w.printed[..w.handled], w.now)
  }

  /** Those, and the ones of the current run that are still on their way to the store. */
  function Granted(w: World, key: string): seq<Grant> {
    For(key, w.earlier) + KeyGrants(key, w.printed, w.now)
  }

  /** A store that was not damaged holds the grants that reached it. */
  predicate FileHolds(end: End, file: File<map<string, Value>>, key: string, origin: map<string, Value>,
                      gs: seq<Grant>) {
    match end
    case GaveUp(Torn) => ReadStore(file).None?
    case GaveUp(Emptied) => ReadStore(file) == Some(map[])
    case GaveUp(Done) => false
    case _ => ReadStore(file).Some? ==> Holds(ReadStore(file).value, key, origin, gs)
  }

  predicate GuardInv(w: World, key: string) {
    && w.handled <= |w.printed|
    && (forall m <- w.printed :: OnlyGuarded(key, m, w.now))
    && SpacedUntil(Granted(w, key), w.now)
    && (w.script.state.Some? ==> Holds(w.script.state.value, key, w.origin, Granted(w, key)))
    && FileHolds(w.end, w.file, key, w.origin, Durable(w, key))
  }

  lemma {:induction false} ForInParts(key: string, a: seq<Grant>, b: seq<Grant>)
    ensures For(key, a + b) == For(key, a) + For(key, b)
  {
    if b == [] {
      assert a + b == a;
    } else {
      assert (a + b)[..|a + b| - 1] == a + b[..|b| - 1];
      ForInParts(key, a, b[..|b| - 1]);
    }
  }

  lemma {:induction false} GrantsInParts(a: seq<Message>, b: seq<Message>, now: int)
    ensures Grants(a + b, now) == Grants(a, now) + Grants(b, now)
  {
    if b == [] {
      assert a + b == a;
    } else {
      assert (a + b)[..|a + b| - 1] == a + b[..|b| - 1];
      GrantsInParts(a, b[..|b| - 1], now);
    }
  }

  lemma KeyGrantsInParts(key: string, a: seq<Message>, b: seq<Message>, now: int)
    ensures KeyGrants(key, a + b, now) == KeyGrants(key, a, now) + KeyGrants(key, b, now)
  {
    GrantsInParts(a, b, now);
    ForInParts(key, Grants(a, now), Grants(b, now));
  }

  lemma ForOfOne(key: string, g: Grant)
    ensures For(key, [g]) == if g.key == key then [g] else []
  {
    assert [g][..0] == [];
  }

  lemma GrantsOfOne(m: Message, now: int)
    ensures Grants([m], now) == GrantOf(m, now)
  {
    assert [m][..0] == [];
    assert [] + GrantOf(m, now) == GrantOf(m, now);
  }

  lemma KeyGrantsOfOne(key: string, m: Message, now: int)
    ensures KeyGrants(key, [m], now)
            == if GrantOf(m, now) != [] && m.op.key == key then GrantOf(m, now) else []
  {
    GrantsOfOne(m, now);
    if GrantOf(m, now) != [] {
      ForOfOne(key, GrantOf(m, now)[0]);
    }
  }

  /** One message keeps what the store holds about the key. */
  lemma MessageKeepsHolds(store: map<string, Value>, key: string, origin: map<string, Value>, gs: seq<Grant>,
                          m: Message, now: int)
    requires Holds(store, key, origin, gs) && OnlyGuarded(key, m, now)
    ensures Holds(if m.State? then Apply(store, m.op) else store, key, origin, gs + KeyGrants(key, [m], now))
  {
    KeyGrantsOfOne(key, m, now);
    var more := KeyGrants(key, [m], now);
    if more == [] {
      assert gs + more == gs;
    } else {
      assert more == [Grant(key, now, m.source.seconds)];
    }
  }

  /** The state after the line a call printed, if it printed any. */
  function AfterLines(state: map<string, Value>, lines: seq<Message>): map<string, Value> {
    if lines != [] && lines[0].State? then Apply(state, lines[0].op) else state
  }

  /** What a call prints about a key that only guards write: nothing, or a grant that was not refused. */
  lemma CallGrants(s: Script, c: Call, now: int, key: string)
    requires GuardsOnly(key, c)
    ensures var (after, lines) := AfterCall(s, c, now);
            && (forall m <- lines :: OnlyGuarded(key, m, now))
            && |lines| <= 1
            && after.state == (if s.state.None? then None else Some(AfterLines(s.state.value, lines)))
            && (KeyGrants(key, lines, now) != [] ==>
                  c.GuardFor? && c.key == key && s.state.Some? && !TooSoon(s.state.value, key, c.seconds, now)
                  && KeyGrants(key, lines, now) == [Grant(key, now, c.seconds)])
  {
    var (after, lines) := AfterCall(s, c, now);
    if lines != [] {
      assert lines == [lines[0]];
      KeyGrantsOfOne(key, lines[0], now);
    }
  }

  lemma CallKeepsGuards(w: World, key: string, call: Call)
    requires GuardInv(w, key) && GuardsOnly(key, call)
    ensures GuardInv(Called(w, call), key)
  {
    var (script, lines) := AfterCall(w.script, call, w.now);
    CallGrants(w.script, call, w.now, key);
    GrantsStaySpaced(Granted(w, key), w.script.state, key, w.origin, call, w.now, KeyGrants(key, lines, w.now));
    LinesKeepGuards(w, key, script, lines);
  }

  lemma GrantsOfMoreLines(w: World, key: string, script: Script, lines: seq<Message>)
    requires w.handled <= |w.printed|
    ensures var next := w.(script := script, printed := w.printed + lines);
            && Granted(next, key) == Granted(w, key) + KeyGrants(key, lines, w.now)
            && Durable(next, key) == Durable(w, key)
  {
    KeyGrantsInParts(key, w.printed, lines, w.now);
    Regroup(For(key, w.earlier), KeyGrants(key, w.printed, w.now), KeyGrants(key, lines, w.now));
    assert (w.printed + lines)[..w.handled] == w.printed[..w.handled];
  }

  lemma LinesKeepGuards(w: World, key: string, script: Script, lines: seq<Message>)
    requires GuardInv(w, key) && |lines| <= 1 && forall m <- lines :: OnlyGuarded(key, m, w.now)
    requires script.state == if w.script.state.None? then None else Some(AfterLines(w.script.state.value, lines))
    requires SpacedUntil(Granted(w, key) + KeyGrants(key, lines, w.now), w.now)
    ensures GuardInv(w.(script := script, printed := w.printed + lines), key)
  {
    GrantsOfMoreLines(w, key, script, lines);
    if w.script.state.Some? {
      LinesKeepHolds(w.script.state.value, key, w.origin, Granted(w, key), lines, w.now);
    }
  }

  lemma LinesKeepHolds(store: map<string, Value>, key: string, origin: map<string, Value>, gs: seq<Grant>,
                       lines: seq<Message>, now: int)
    requires Holds(store, key, origin, gs) && |lines| <= 1 && forall m <- lines :: OnlyGuarded(key, m, now)
    ensures Holds(AfterLines(store, lines), key, origin, gs + KeyGrants(key, lines, now))
  {
    if lines != [] {
      assert lines == [lines[0]];
      MessageKeepsHolds(store, key, origin, gs, lines[0], now);
    } else {
      assert gs + KeyGrants(key, lines, now) == gs;
    }
  }

  lemma GrantsStaySpaced(gs: seq<Grant>, state: Option<map<string, Value>>, key: string, origin: map<string, Value>,
                         c: Call, now: int, more: seq<Grant>)
    requires SpacedUntil(gs, now) && (state.Some? ==> Holds(state.value, key, origin, gs))
    requires more != [] ==>
               c.GuardFor? && more == [Grant(key, now, c.seconds)]
               && state.Some? && !TooSoon(state.value, key, c.seconds, now)
    ensures SpacedUntil(gs + more, now)
  {
    if more == [] {
      assert gs + more == gs;
    } else if gs != [] {
      assert gs[|gs| - 1] in gs;
    }
  }

  lemma HandledGrants(w: World, key: string, verdict: Verdict)
    requires CanHandle(w, verdict)
    ensures var next := HasHandled(w, verdict);
            && Granted(next, key) == Granted(w, key)
            && Durable(next, key) == if next.end == Running
                                     then Durable(w, key) + KeyGrants(key, [w.printed[w.handled]], w.now)
                                     else Durable(w, key)
  {
    DurableOfOneMore(w, key);
    assert HasHandled(w, verdict).end == Running ==> HasHandled(w, verdict).handled == w.handled + 1;
  }

  lemma HandledHolds(w: World, verdict: Verdict, key: string, gs: seq<Grant>, more: seq<Grant>)
    requires CanHandle(w, verdict) && FileHolds(Running, w.file, key, w.origin, gs)
    requires OnlyGuarded(key, w.printed[w.handled], w.now) && more == KeyGrants(key, [w.printed[w.handled]], w.now)
    ensures var next := HasHandled(w, verdict);
            FileHolds(next.end, next.file, key, w.origin, if next.end == Running then gs + more else gs)
  {
    var m := w.printed[w.handled];
    if Handle(w.file, m, verdict).ok {
      HandledOne(w.file, m, verdict);
      if ReadStore(w.file).Some? {
        MessageKeepsHolds(ReadStore(w.file).value, key, w.origin, gs, m, w.now);
      }
    }
  }

  lemma HandleKeepsGuards(w: World, key: string, verdict: Verdict)
    requires GuardInv(w, key) && CanHandle(w, verdict)
    ensures GuardInv(HasHandled(w, verdict), key)
  {
    HandledGrants(w, key, verdict);
    assert w.printed[w.handled] in w.printed;
    HandledHolds(w, verdict, key, Durable(w, key), KeyGrants(key, [w.printed[w.handled]], w.now));
  }

  lemma DurableOfOneMore(w: World, key: string)
    requires w.handled < |w.printed|
    ensures Durable(w.(handled := w.handled + 1), key)
            == Durable(w, key) + KeyGrants(key, [w.printed[w.handled]], w.now)
  {
    var front, m := w.printed[..w.handled], w.printed[w.handled];
    assert w.printed[..w.handled + 1] == front + [m];
    KeyGrantsInParts(key, front, [m], w.now);
    Regroup(For(key, w.earlier), KeyGrants(key, front, w.now), KeyGrants(key, [m], w.now));
  }

  lemma DurableIsAFrontPart(w: World, key: string)
    requires w.handled <= |w.printed|
    ensures Durable(w, key) <= Granted(w, key)
  {
    var front, rest := w.printed[..w.handled], w.printed[w.handled..];
    assert w.printed == front + rest;
    KeyGrantsInParts(key, front, rest, w.now);
    Regroup(For(key, w.earlier), KeyGrants(key, front, w.now), KeyGrants(key, rest, w.now));
  }

  lemma FrontIsSpaced(front: seq<Grant>, gs: seq<Grant>, now: int, later: int)
    requires front <= gs && SpacedUntil(gs, now) && now <= later
    ensures SpacedUntil(front, later)
  {
  }

  /** What the store of the next run holds: the last grant that was kept. */
  lemma KeptIsHeld(w: World, key: string)
    requires GuardInv(w, key) && ReadStore(w.file).Some?
    ensures Holds(ReadStore(w.file).value, key, Origin(w), if w.end == GaveUp(Emptied) then [] else Durable(w, key))
  {
  }

  lemma NextRunKeepsGuards(w: World, key: string, now: int)
    requires GuardInv(w, key) && w.now <= now
    ensures GuardInv(Restarted(w, now), key)
  {
    var kept := if w.end == GaveUp(Emptied) then [] else Durable(w, key);
    RestartedGrants(w, key, now);
    DurableIsAFrontPart(w, key);
    FrontIsSpaced(kept, Granted(w, key), w.now, now);
    if ReadStore(w.file).Some? {
      KeptIsHeld(w, key);
    }
    var next := Restarted(w, now);
    assert Granted(next, key) == kept && Durable(next, key) == kept && next.printed == [];
  }

  lemma ReadKeepsGuards(w: World, key: string)
    requires GuardInv(w, key) && w.pipe.waiting != []
    ensures GuardInv(HasRead(w), key)
  {
  }

  lemma CloseKeepsGuards(w: World, key: string)
    requires GuardInv(w, key)
    ensures GuardInv(w.(pipe := w.pipe.(closed := true)), key)
  {
  }

  lemma GuardStep(w: World, s: Step, key: string)
    requires GuardInv(w, key) && Possible(w, s) && (s.Calls? ==> GuardsOnly(key, s.call))
    ensures GuardInv(Next(w, s), key)
  {
    match s
    case Calls(call) => CallKeepsGuards(w, key, call);
    case Handles(verdict) => HandleKeepsGuards(w, key, verdict);
    case NextRun(now) => NextRunKeepsGuards(w, key, now);
    case Reads => ReadKeepsGuards(w, key);
    case Closes => CloseKeepsGuards(w, key);
  }

  lemma {:induction false} GuardRun(w: World, steps: seq<Step>, last: World, key: string)
    requires GuardInv(w, key) && IsRun(w, steps, last) && NoOtherWrites(key, steps)
    ensures GuardInv(last, key)
    decreases |steps|
  {
    if steps != [] {
      assert steps[0] in steps && forall s <- steps[1..] :: s in steps;
      GuardStep(w, steps[0], key);
      GuardRun(Next(w, steps[0]), steps[1..], last, key);
    }
  }

  /** Of the grants the store still holds and those on their way to it,
    * any two are the seconds of the later one apart. */
  lemma GrantsAreSpaced(now: int, file: File<map<string, Value>>, steps: seq<Step>, w: World,
                        key: string, i: nat, j: nat)
    requires IsRun(FirstRun(now, file), steps, w) && NoOtherWrites(key, steps)
    requires i < j < |Granted(w, key)|
    ensures var gs := Granted(w, key);
            (gs[j].at - gs[i].at) as real / 1000.0 >= gs[j].seconds
    ensures w.handled <= |w.printed| && Durable(w, key) <= Granted(w, key)
  {
    GuardRun(FirstRun(now, file), steps, w, key);
    SpacedApart(Granted(w, key), i, j);
    DurableIsAFrontPart(w, key);
  }

  lemma SpacedApart(gs: seq<Grant>, i: nat, j: nat)
    requires Spaced(gs) && i < j < |gs|
    ensures (gs[j].at - gs[i].at) as real / 1000.0 >= gs[j].seconds
  {
    GrantTimesAscend(gs, i, j - 1);
  }

  lemma {:induction false} GrantTimesAscend(gs: seq<Grant>, i: nat, j: nat)
    requires Spaced(gs) && i <= j < |gs|
    ensures gs[i].at <= gs[j].at
  {
    if i < j {
      GrantTimesAscend(gs, i, j - 1);
    }
  }

  lemma RestartedGrants(w: World, key: string, now: int)
    requires w.handled <= |w.printed|
    ensures Granted(Restarted(w, now), key) == Durable(Restarted(w, now), key)
    ensures Granted(Restarted(w, now), key) == if w.end == GaveUp(Emptied) then [] else Durable(w, key)
  {
    ForInParts(key, w.earlier, Grants(w.printed[..w.handled], w.now));
  }

  /**
   * The guard may be granted after these grants: `seconds` have passed since the last of them or, without any, since
   * the instant the key held at the origin, if it held one.
   */
  predicate OldEnough(gs: seq<Grant>, origin: map<string, Value>, key: string, seconds: real, now: int) {
    if gs != [] then (now - gs[|gs| - 1].at) as real / 1000.0 >= seconds
    else key in origin && origin[key].date.Some? ==> (now - origin[key].date.value) as real / 1000.0 >= seconds
  }

  /** A guard is granted exactly when a state that follows these grants lets it. */
  lemma GuardGrantsIff(w: World, key: string, seconds: real)
    requires GuardInv(w, key)
    ensures var gs, now := Granted(w, key), w.now;
            Granted(Called(w, GuardFor(key, seconds)), key)
            == if w.script.state.Some? && OldEnough(gs, w.origin, key, seconds, now)
               then gs + [Grant(key, now, seconds)] else gs
  {
    if w.script.state.Some? {
      TooSoonUnlessOldEnough(w.script.state.value, key, w.origin, Granted(w, key), seconds, w.now);
    }
    if w.script.state.Some? && !TooSoon(w.script.state.value, key, seconds, w.now) {
      GuardIsGranted(w, key, seconds);
    } else {
      GuardIsRefused(w, key, seconds);
    }
  }

  lemma TooSoonUnlessOldEnough(store: map<string, Value>, key: string, origin: map<string, Value>, gs: seq<Grant>,
                               seconds: real, now: int)
    requires Holds(store, key, origin, gs)
    ensures TooSoon(store, key, seconds, now) <==> !OldEnough(gs, origin, key, seconds, now)
  {
  }

  lemma GuardIsRefused(w: World, key: string, seconds: real)
    requires w.script.state.None? || TooSoon(w.script.state.value, key, seconds, w.now)
    ensures Called(w, GuardFor(key, seconds)) == w
  {
    assert w.printed + [] == w.printed;
  }

  /**
   * In every reachable state a guard is granted if and only if the run has a state and the latest grant that the
   * store held at its start, or that the run has given since, is old enough; a refused guard grants nothing.
   */
  lemma GrantedIffOldEnough(now: int, file: File<map<string, Value>>, steps: seq<Step>, w: World,
                            key: string, seconds: real)
    requires IsRun(FirstRun(now, file), steps, w) && NoOtherWrites(key, steps)
    ensures var gs := Granted(w, key);
            Granted(Called(w, GuardFor(key, seconds)), key)
            == if w.script.state.Some? && OldEnough(gs, w.origin, key, seconds, w.now)
               then gs + [Grant(key, w.now, seconds)] else gs
  {
    GuardRun(FirstRun(now, file), steps, w, key);
    GuardGrantsIff(w, key, seconds);
  }

  /**
   * What a run granted binds the next one only as far as the store kept it: the next run grants the guard if and only
   * if the store can be read and the last grant it kept is old enough, however recent the grants it did not keep.
   */
  lemma NextRunGrantsIff(now: int, file: File<map<string, Value>>, steps: seq<Step>, w: World,
                         key: string, seconds: real, later: int)
    requires IsRun(FirstRun(now, file), steps, w) && NoOtherWrites(key, steps)
    requires w.now <= later && (w.end.GaveUp? || w.handled == |w.printed|)
    ensures w.handled <= |w.printed|
    ensures var kept := if w.end == GaveUp(Emptied) then [] else Durable(w, key);
            && kept <= Granted(w, key)
            && Granted(Called(Restarted(w, later), GuardFor(key, seconds)), key)
               == if ReadStore(w.file).Some? && OldEnough(kept, Origin(w), key, seconds, later)
                  then kept + [Grant(key, later, seconds)] else kept
  {
    GuardRun(FirstRun(now, file), steps, w, key);
    DurableIsAFrontPart(w, key);
    NextRunKeepsGuards(w, key, later);
    RestartedGrants(w, key, later);
    GuardGrantsIff(Restarted(w, later), key, seconds);
  }

  /** The origin is the store that the first run found or, since the file was last emptied, an empty one. */
  lemma {:induction false} OriginIsFound(w: World, steps: seq<Step>, last: World)
    requires IsRun(w, steps, last)
    ensures last.origin == w.origin || last.origin == map[]
    decreases |steps|
  {
    if steps != [] {
      OriginIsFound(Next(w, steps[0]), steps[1..], last);
    }
  }

  lemma RunOfTwo(w: World, one: Step, two: Step, last: World)
    requires w.handled <= |w.printed| && Possible(w, one) && Next(w, one).handled <= |Next(w, one).printed|
    requires Possible(Next(w, one), two) && last == Next(Next(w, one), two) && last.handled <= |last.printed|
    ensures IsRun(w, [one, two], last)
  {
    assert [one, two][1..] == [two] && [two][1..] == [];
    assert IsRun(last, [], last);
    assert IsRun(Next(w, one), [two], last);
  }

  /** From a run that left an empty store, the next run is granted the guard whenever it starts. */
  lemma EmptyStoreGrants(w: World, key: string, seconds: real, later: int) returns (last: World)
    requires w.handled <= |w.printed| && w.end.GaveUp? && ReadStore(w.file) == Some(map[]) && w.now <= later
    ensures IsRun(w, [NextRun(later), Calls(GuardFor(key, seconds))], last)
    ensures last.now == later && KeyGrants(key, last.printed, later) == [Grant(key, later, seconds)]
  {
    var next := Restarted(w, later);
    GuardIsGranted(next, key, seconds);
    last := Called(next, GuardFor(key, seconds));
    RunOfTwo(w, NextRun(later), Calls(GuardFor(key, seconds)), last);
    KeyGrantsOfOne(key, State(SetKey(key, Stamp(later)), Guard(seconds)), later);
    assert [] + last.printed == last.printed;
  }

  /** The first run there is asks for a guard, and its grant meets the store. */
  lemma FirstGrant(key: string, seconds: real, now: int, write: Write) returns (w: World)
    ensures IsRun(FirstRun(now, Missing), [Calls(GuardFor(key, seconds)), Handles(Saves(write))], w)
    ensures w.now == now && w.script.state.Some? && KeyGrants(key, w.printed, now) == [Grant(key, now, seconds)]
    ensures w.handled <= |w.printed| && w.file == Written(Missing, map[key := Stamp(now)], write)
    ensures if write == Done then w.end == Running && w.handled == |w.printed| else w.end == GaveUp(write)
  {
    var first := FirstRun(now, Missing);
    var called := Called(first, GuardFor(key, seconds));
    GuardIsGranted(first, key, seconds);
    assert called.printed == [State(SetKey(key, Stamp(now)), Guard(seconds))];
    w := HasHandled(called, Saves(write));
    RunOfTwo(first, Calls(GuardFor(key, seconds)), Handles(Saves(write)), w);
    KeyGrantsOfOne(key, State(SetKey(key, Stamp(now)), Guard(seconds)), now);
  }

  /** A grant whose write fails, with the file left as it was or emptied, is given again by the next run at once. */
  lemma LostGrantIsGivenAgain(key: string, seconds: real, now: int, later: int, write: Write)
    returns (lost: World, last: World)
    requires now <= later && (write == Refused || write == Emptied)
    ensures IsRun(FirstRun(now, Missing), [Calls(GuardFor(key, seconds)), Handles(Saves(write))], lost)
    ensures KeyGrants(key, lost.printed, now) == [Grant(key, now, seconds)]
    ensures IsRun(lost, [NextRun(later), Calls(GuardFor(key, seconds))], last)
    ensures KeyGrants(key, last.printed, later) == [Grant(key, later, seconds)]
  {
    lost := FirstGrant(key, seconds, now, write);
    last := EmptyStoreGrants(lost, key, seconds, later);
  }

  /** Even a grant that reached the store is given again at once when a later write empties the file. */
  lemma WipedGrantIsGivenAgain(key: string, seconds: real, now: int, later: int, other: string, value: Value)
    returns (kept: World, wiped: World, last: World)
    requires now <= later
    ensures IsRun(FirstRun(now, Missing), [Calls(GuardFor(key, seconds)), Handles(Saves(Done))], kept)
    ensures KeyGrants(key, kept.printed, now) == [Grant(key, now, seconds)]
    ensures kept.handled == |kept.printed| && kept.file == File.Holds(map[key := Stamp(now)])
    ensures IsRun(kept, [Calls(Set(other, value)), Handles(Saves(Emptied))], wiped)
    ensures IsRun(wiped, [NextRun(later), Calls(GuardFor(key, seconds))], last)
    ensures KeyGrants(key, last.printed, later) == [Grant(key, later, seconds)]
  {
    kept := FirstGrant(key, seconds, now, Done);
    wiped := HasHandled(Called(kept, Set(other, value)), Saves(Emptied));
    RunOfTwo(kept, Calls(Set(other, value)), Handles(Saves(Emptied)), wiped);
    last := EmptyStoreGrants(wiped, key, seconds, later);
  }

  lemma GuardIsGranted(w: World, key: string, seconds: real)
    requires w.handled <= |w.printed|
    requires w.script.state.Some? && !TooSoon(w.script.state.value, key, seconds, w.now)
    ensures var granted := Called(w, GuardFor(key, seconds));
            && granted.printed == w.printed + [State(SetKey(key, Stamp(w.now)), Guard(seconds))]
            && Granted(granted, key) == Granted(w, key) + [Grant(key, w.now, seconds)]
  {
    var m := State(SetKey(key, Stamp(w.now)), Guard(seconds));
    var (script, lines) := AfterCall(w.script, GuardFor(key, seconds), w.now);
    GrantsOfMoreLines(w, key, script, [m]);
    KeyGrantsOfOne(key, m, w.now);
  }
}
