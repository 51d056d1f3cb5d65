// internal/cli/cli.go, autoRun: starting automation specs on hub events, over any run and any number of reloads.

module EventRunner {
  /** Instants are nanoseconds of the monotonic clock. */
  const DEBOUNCE_WINDOW: nat := 2_000_000_000

  /** The two maps behind the trigger lock. */
  datatype Maps = Maps(inFlight: set<string>, lastEventRun: map<string, nat>)

  predicate MayStart(m: Maps, spec: string, now: nat) {
    spec !in m.inFlight && (spec in m.lastEventRun ==> now - m.lastEventRun[spec] >= DEBOUNCE_WINDOW)
  }

  function Started(m: Maps, spec: string, now: nat): Maps {
    Maps(m.inFlight + {spec}, m.lastEventRun[spec := now])
  }

  class Runner {
    var inFlight: set<string>
    var lastEventRun: map<string, nat>

    ghost function State(): Maps
      reads this
    {
      Maps(inFlight, lastEventRun)
    }

    constructor ()
      ensures State() == Maps({}, map[])
    {
      inFlight, lastEventRun := {}, map[];
    }

    /** The locked section of the event callback; `start` tells whether a goroutine is launched. */
    method Trigger(spec: string, now: nat) returns (start: bool)
      modifies this
      ensures start == MayStart(old(State()), spec, now)
      ensures State() == if start then Started(old(State()), spec, now) else old(State())
    {
      if spec in inFlight {
        return false;
      }
      if spec in lastEventRun && now - lastEventRun[spec] < DEBOUNCE_WINDOW {
        return false;
      }
      inFlight := inFlight + {spec};
      lastEventRun := lastEventRun[spec := now];
      return true;
    }

    /** The locked section a goroutine runs when it ends, however it ends. */
    method Finish(spec: string)
      modifies this`inFlight
      ensures inFlight == old(inFlight) - {spec}
    {
      inFlight := inFlight - {spec};
    }
  }

  // ------------------------------------------------------------- whole runs

  datatype Start = Start(spec: string, at: nat)

  /** The maps, the goroutines that run, and everything that was ever started. */
  datatype World = World(now: nat, maps: Maps, live: multiset<string>, history: seq<Start>)

  /** A reload replaces the callback and cancels its context; the maps and the goroutines outlive it. */
  datatype Step = Wait(elapsed: nat) | Event(spec: string) | GoroutineEnds(spec: string) | Reload

  const START: World := World(0, Maps({}, map[]), multiset{}, [])

  predicate Possible(w: World, s: Step) {
    s.GoroutineEnds? ==> s.spec in w.live
  }

  function Next(w: World, s: Step): World {
    match s
    case Wait(elapsed) => w.(now := w.now + elapsed)
    case Reload => w
    case GoroutineEnds(spec) =>
      w.(maps := w.maps.(inFlight := w.maps.inFlight - {spec}), live := w.live - multiset{spec})
    case Event(spec) =>
      if MayStart(w.maps, spec, w.now) then
        World(w.now, Started(w.maps, spec, w.now), w.live + multiset{spec}, w.history + [Start(spec, w.now)])
      else w
  }

  predicate IsRun(w: World, steps: seq<Step>, last: World)
    decreases |steps|
  {
    if steps == [] then last == w
    else Possible(w, steps[0]) && IsRun(Next(w, steps[0]), steps[1..], last)
  }

  /** No spec runs twice at once, and the map knows exactly which ones run. */
  ghost predicate InFlightIsLive(w: World) {
    forall spec :: w.live[spec] == if spec in w.maps.inFlight then 1 else 0
  }

  /** Any two starts of one spec are at least 2 s apart. */
  predicate StartsAreSpaced(w: World) {
    forall i, j :: 0 <= i < j < |w.history| && w.history[i].spec == w.history[j].spec ==>
      w.history[j].at - w.history[i].at >= 2_000_000_000
  }

  predicate LastRunIsTheLatest(w: World) {
    && (forall s <- w.history :: s.at <= w.now && s.spec in w.maps.lastEventRun
                                 && s.at <= w.maps.lastEventRun[s.spec])
    && (forall spec <- w.maps.lastEventRun :: Start(spec, w.maps.lastEventRun[spec]) in w.history)
  }

  ghost predicate Inv(w: World) {
    InFlightIsLive(w) && StartsAreSpaced(w) && LastRunIsTheLatest(w)
  }

  lemma StepKeepsInv(w: World, s: Step)
    requires Inv(w) && Possible(w, s)
    ensures Inv(Next(w, s))
  {
    if s.Event? && MayStart(w.maps, s.spec, w.now) {
      StartKeepsHistory(w, s.spec);
    }
  }

  lemma StartKeepsHistory(w: World, spec: string)
    requires Inv(w) && MayStart(w.maps, spec, w.now)
    ensures StartsAreSpaced(Next(w, Event(spec))) && LastRunIsTheLatest(Next(w, Event(spec)))
  {
    var next := Next(w, Event(spec));
    var n := |w.history|;
    assert next.history[n] == Start(spec, w.now);
    forall i | 0 <= i < n && w.history[i].spec == spec ensures w.now - w.history[i].at >= DEBOUNCE_WINDOW {
      assert w.history[i] in w.history;
    }
    forall other | other in next.maps.lastEventRun
      ensures Start(other, next.maps.lastEventRun[other]) in next.history
    {
      if other == spec {
        assert next.history[n] in next.history;
      }
    }
  }

  lemma {:induction false} RunsKeepInv(w: World, steps: seq<Step>, last: World)
    requires Inv(w) && IsRun(w, steps, last)
    ensures Inv(last)
    decreases |steps|
  {
    if steps != [] {
      StepKeepsInv(w, steps[0]);
      RunsKeepInv(Next(w, steps[0]), steps[1..], last);
    }
  }

  /** The safety of the event path, whatever happens in whatever order. */
  lemma EventRunsAreSafe(steps: seq<Step>, w: World)
    requires IsRun(START, steps, w)
    ensures forall spec :: w.live[spec] <= 1 && (w.live[spec] == 1 <==> spec in w.maps.inFlight)
    ensures StartsAreSpaced(w)
  {
    RunsKeepInv(START, steps, w);
  }

  /** An event starts its spec exactly when the spec is not running and every start of it is 2 s old. */
  lemma EventStartsIff(steps: seq<Step>, w: World, spec: string)
    requires IsRun(START, steps, w)
    ensures Next(w, Event(spec)).history == w.history + [Start(spec, w.now)]
            <==> w.live[spec] == 0
                 && forall s <- w.history :: s.spec == spec ==> w.now - s.at >= 2_000_000_000
  {
    RunsKeepInv(START, steps, w);
    assert w.history != w.history + [Start(spec, w.now)];
    if spec in w.maps.lastEventRun {
      assert Start(spec, w.maps.lastEventRun[spec]) in w.history;
    }
  }
}
