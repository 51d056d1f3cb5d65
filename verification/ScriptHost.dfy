// internal/script/javascript.go and the state store of internal/cli/cli.go: the two ends of a script run.

module ScriptHost {
  import opened Common

  /** A JSON value: its text, and the instant in milliseconds that Date.parse finds in it, if any. */
  datatype Value = Value(text: string, date: Option<int>)

  const NULL: Value := Value("null", None)

  datatype StateOp = SetKey(key: string, value: Value) | DeleteKey(key: string)

  /** Who wrote the operation: a plain call, or a guard that was granted for so many seconds. */
  datatype Source = Plain | Guard(seconds: real)

  /** What the script prints for the host, in order. */
  datatype Message =
    | State(op: StateOp, source: Source)
    | Request(id: nat, query: string)
    | Other(text: string)

  datatype Response = Response(id: nat, error: string, value: Value)

  datatype Settlement = Resolved(value: Value) | Rejected(error: string)

  function Apply(store: map<string, Value>, op: StateOp): map<string, Value> {
    match op
    case SetKey(key, value) => store[key := value]
    case DeleteKey(key) => store - {key}
  }

  // ------------------------------------------------------------ the host end

  /** What a file of the store is read as: one of no bytes as an empty store, one that does not parse not at all. */
  function ReadStore(file: File<map<string, Value>>): Option<map<string, Value>> {
    match file
    case Missing => Some(map[])
    case Empty => Some(map[])
    case Holds(store) => Some(store)
    case _ => None
  }

  /** The file after an operation: the whole store is read, changed and written. */
  function Stored(file: File<map<string, Value>>, op: StateOp, write: Write): File<map<string, Value>> {
    var store := ReadStore(file);
    if store.None? then file else Written(file, Apply(store.value, op), write)
  }

  class StateStore {
    var file: File<map<string, Value>>

    constructor (file: File<map<string, Value>>)
      ensures this.file == file
    {
      this.file := file;
    }

    method Set(key: string, value: Value, write: Write) returns (ok: bool)
      modifies this
      ensures ok == (ReadStore(old(file)).Some? && write == Done)
      ensures file == Stored(old(file), SetKey(key, value), write)
    {
      var state := ReadStore(file);
      if state.None? {
        return false;
      }
      var changed := state.value[key := value];
      file := Written(file, changed, write);
      return write == Done;
    }

    method Delete(key: string, write: Write) returns (ok: bool)
      modifies this
      ensures ok == (ReadStore(old(file)).Some? && write == Done)
      ensures file == Stored(old(file), DeleteKey(key), write)
    {
      var state := ReadStore(file);
      if state.None? {
        return false;
      }
      var changed := map k | k in state.value && k != key :: state.value[k];
      assert changed == state.value - {key};
      file := Written(file, changed, write);
      return write == Done;
    }
  }

  /**
   * What happens to one message: a state operation writes the store, a request is answered with a value or an
   * error text. A message fails when its service does, its line is too long, or its answer cannot be written.
   */
  datatype Verdict = Works | Fails | Saves(write: Write) | Answers(answer: Result<Value, string>)

  predicate Fits(m: Message, v: Verdict) {
    match m
    case State(_, _) => v.Saves?
    case Request(_, _) => v.Answers? || v.Fails?
    case Other(_) => v.Works? || v.Fails?
  }

  /** The wire form of an answer; an error goes out without a value. */
  function Wire(id: nat, answer: Result<Value, string>): Response {
    match answer
    case Ok(value) => Response(id, "", value)
    case Err(error) => Response(id, error, NULL)
  }

  datatype Handled = Handled(ok: bool, file: File<map<string, Value>>, response: Option<Response>)

  function Handle(file: File<map<string, Value>>, m: Message, v: Verdict): Handled
    requires Fits(m, v)
  {
    match m
    case Request(id, _) =>
      if v.Answers? then Handled(true, file, Some(Wire(id, v.answer))) else Handled(false, file, None)
    case State(op, _) => Handled(ReadStore(file).Some? && v.write == Done, Stored(file, op, v.write), None)
    case Other(_) => Handled(v.Works?, file, None)
  }

  lemma HandledOne(file: File<map<string, Value>>, m: Message, v: Verdict)
    requires Fits(m, v) && Handle(file, m, v).ok
    ensures var store, next := ReadStore(file), ReadStore(Handle(file, m, v).file);
            next == if store.Some? && m.State? then Some(Apply(store.value, m.op)) else store
  {
  }

  /** The file after messages that were all handled, or None when one of them failed. */
  function Through(file: File<map<string, Value>>, ms: seq<Message>, vs: seq<Verdict>)
    : Option<File<map<string, Value>>>
    requires |vs| == |ms| && forall i :: 0 <= i < |ms| ==> Fits(ms[i], vs[i])
  {
    if ms == [] then Some(file)
    else
      var n := |ms| - 1;
      var before := Through(file, ms[..n], vs[..n]);
      if before.None? || !Handle(before.value, ms[n], vs[n]).ok then None
      else Some(Handle(before.value, ms[n], vs[n]).file)
  }

  class Host {
    const store: StateStore
    var written: seq<Response>

    constructor (store: StateStore)
      ensures this.store == store && written == []
    {
      this.store, written := store, [];
    }

    /** One message; an error ends the run. */
    method HandleMessage(m: Message, v: Verdict) returns (ok: bool)
      requires Fits(m, v)
      modifies this, store
      ensures var h := Handle(old(store.file), m, v);
              && ok == h.ok && store.file == h.file
              && written == old(written) + if h.response.Some? then [h.response.value] else []
    {
      match m {
        case Request(id, _) =>
          if v.Fails? {
            return false;
          }
          written := written + [Wire(id, v.answer)];
          return true;
        case State(op, _) =>
          match op {
            case SetKey(key, value) =>
              ok := store.Set(key, value, v.write);
            case DeleteKey(key) =>
              ok := store.Delete(key, v.write);
          }
        case Other(_) =>
          return v.Works?;
      }
    }

    /** The loop over the lines of the script, until one fails or they end. */
    method Execute(ms: seq<Message>, vs: seq<Verdict>) returns (ok: bool, handled: nat)
      requires |vs| == |ms| && forall i :: 0 <= i < |ms| ==> Fits(ms[i], vs[i])
      modifies this, store
      ensures handled <= |ms| && (ok <==> handled == |ms|)
      ensures var file := Through(old(store.file), ms[..handled], vs[..handled]);
              && file.Some?
              && (ok ==> store.file == file.value)
              && (!ok ==> !Handle(file.value, ms[handled], vs[handled]).ok
                          && store.file == Handle(file.value, ms[handled], vs[handled]).file)
    {
      handled := 0;
      while handled < |ms|
        invariant handled <= |ms|
        invariant Through(old(store.file), ms[..handled], vs[..handled]) == Some(store.file)
      {
        ThroughOneMore(old(store.file), ms, vs, handled);
        ok := HandleMessage(ms[handled], vs[handled]);
        if !ok {
          return false, handled;
        }
        handled := handled + 1;
      }
      return true, handled;
    }
  }

  lemma ThroughOneMore(file: File<map<string, Value>>, ms: seq<Message>, vs: seq<Verdict>, i: nat)
    requires |vs| == |ms| && (forall i :: 0 <= i < |ms| ==> Fits(ms[i], vs[i])) && i < |ms|
    ensures var before := Through(file, ms[..i], vs[..i]);
            Through(file, ms[..i + 1], vs[..i + 1])
            == if before.None? || !Handle(before.value, ms[i], vs[i]).ok then None
               else Some(Handle(before.value, ms[i], vs[i]).file)
  {
    assert ms[..i + 1][..i] == ms[..i] && vs[..i + 1][..i] == vs[..i];
  }

  /** Messages that were all handled leave a readable store with all their operations in it. */
  lemma {:induction false} HandledIsReplayed(file: File<map<string, Value>>, ms: seq<Message>, vs: seq<Verdict>)
    requires |vs| == |ms| && forall i :: 0 <= i < |ms| ==> Fits(ms[i], vs[i])
    requires ReadStore(file).Some? && Through(file, ms, vs).Some?
    ensures ReadStore(Through(file, ms, vs).value) == Some(Replay(ReadStore(file).value, ms))
  {
    if ms != [] {
      HandledIsReplayed(file, ms[..|ms| - 1], vs[..|ms| - 1]);
    }
  }

  /** The store after the state operations among these messages. */
  function Replay(store: map<string, Value>, ms: seq<Message>): map<string, Value> {
    if ms == [] then store
    else
      var before, last := Replay(store, ms[..|ms| - 1]), ms[|ms| - 1];
      if last.State? then Apply(before, last.op) else before
  }

  // ---------------------------------------------------------- the script end

  /** The state is null, here None, when the store could not be read as the run was started. */
  datatype Script = Script(
    state: Option<map<string, Value>>,
    requestSeq: nat,
    pending: set<nat>,
    settled: map<nat, Settlement>)

  datatype Call =
    | Set(key: string, value: Value)
    | Delete(key: string)
    | GuardFor(key: string, seconds: real)
    | Ask(query: string)
    | Print(text: string)

  function Stamp(now: int): Value {
    Value("instant", Some(now))
  }

  /** A guard refuses while its key holds an instant less than `seconds` ago. */
  predicate TooSoon(state: map<string, Value>, key: string, seconds: real, now: int) {
    && key in state && state[key].date.Some?
    && (now - state[key].date.value) as real / 1000.0 < seconds
  }

  /** The operation of a state call, if there is one: a guard that refuses does nothing. */
  function OpOf(state: map<string, Value>, c: Call, now: int): Option<Message> {
    match c
    case Set(key, value) => Some(State(SetKey(key, value), Plain))
    case Delete(key) => Some(State(DeleteKey(key), Plain))
    case GuardFor(key, seconds) =>
      if TooSoon(state, key, seconds, now) then None else Some(State(SetKey(key, Stamp(now)), Guard(seconds)))
    case _ => None
  }

  /** The script after a call, and the line it prints, if any. A state call on a null state throws at once. */
  function AfterCall(s: Script, c: Call, now: int): (Script, seq<Message>) {
    match c
    case Ask(query) =>
      var id := s.requestSeq + 1;
      (s.(requestSeq := id, pending := s.pending + {id}), [Request(id, query)])
    case Print(text) => (s, [Other(text)])
    case _ =>
      if s.state.None? || OpOf(s.state.value, c, now).None? then (s, [])
      else
        var line := OpOf(s.state.value, c, now).value;
        (s.(state := Some(Apply(s.state.value, line.op))), [line])
  }

  /** A call on a state changes the value of its own key as it says, and of no other key. */
  lemma CallChangesItsKey(s: Script, c: Call, now: int, k: string)
    requires s.state.Some?
    ensures var before, after := s.state.value, AfterCall(s, c, now).0.state;
            && after.Some?
            && (c.Set? ==> c.key in after.value && after.value[c.key] == c.value)
            && (c.Delete? ==> c.key !in after.value)
            && (c.GuardFor? ==>
                  c.key in after.value
                  && if c.key in before && before[c.key].date.Some?
                        && (now - before[c.key].date.value) as real / 1000.0 < c.seconds
                     then after.value[c.key] == before[c.key]
                     else after.value[c.key].date == Some(now))
            && (c.Ask? || c.Print? || c.key != k ==>
                  (k in after.value <==> k in before) && (k in before ==> after.value[k] == before[k]))
  {
  }

  /** A promise is rejected with a non-empty error text, and otherwise resolved. */
  function Settle(r: Response): Settlement {
    if r.error != "" then Rejected(r.error) else Resolved(r.value)
  }

  function AfterResponse(s: Script, r: Response): Script {
    if r.id !in s.pending then s
    else s.(pending := s.pending - {r.id}, settled := s.settled[r.id := Settle(r)])
  }

  class ScriptSide {
    var state: Option<map<string, Value>>
    var requestSeq: nat
    var pending: set<nat>
    var settled: map<nat, Settlement>
    var printed: seq<Message>

    ghost function View(): Script
      reads this
    {
      Script(state, requestSeq, pending, settled)
    }

    constructor (state: Option<map<string, Value>>)
      ensures View() == Script(state, 0, {}, map[]) && printed == []
    {
      this.state, requestSeq, pending, settled, printed := state, 0, {}, map[], [];
    }

    /** `thrown`: there is no state to change. */
    method SetState(key: string, value: Value, now: int) returns (thrown: bool)
      modifies this
      ensures thrown == old(state).None?
      ensures (View(), printed) == Grown(old(View()), old(printed), Call.Set(key, value), now)
    {
      if state.None? {
        assert printed + [] == printed;
        return true;
      }
      state := Some(state.value[key := value]);
      printed := printed + [State(SetKey(key, value), Plain)];
      return false;
    }

    method DeleteState(key: string, now: int) returns (thrown: bool)
      modifies this
      ensures thrown == old(state).None?
      ensures (View(), printed) == Grown(old(View()), old(printed), Call.Delete(key), now)
    {
      if state.None? {
        assert printed + [] == printed;
        return true;
      }
      state := Some(map k | k in state.value && k != key :: state.value[k]);
      assert state.value == old(state).value - {key};
      printed := printed + [State(DeleteKey(key), Plain)];
      return false;
    }

    /** debounce and throttle share this text. */
    method GuardOnce(key: string, seconds: real, now: int) returns (thrown: bool, granted: bool)
      modifies this
      ensures thrown == old(state).None?
      ensures granted == (!thrown && !TooSoon(old(state).value, key, seconds, now))
      ensures (View(), printed) == Grown(old(View()), old(printed), GuardFor(key, seconds), now)
    {
      assert printed + [] == printed;
      if state.None? {
        return true, false;
      }
      if key in state.value && state.value[key].date.Some? {
        var previous := state.value[key].date.value;
        if (now - previous) as real / 1000.0 < seconds {
          return false, false;
        }
      }
      state := Some(state.value[key := Stamp(now)]);
      printed := printed + [State(SetKey(key, Stamp(now)), Guard(seconds))];
      return false, true;
    }

    method SendRequest(query: string, now: int) returns (id: nat)
      modifies this
      ensures id == old(requestSeq) + 1
      ensures (View(), printed) == Grown(old(View()), old(printed), Ask(query), now)
    {
      requestSeq := requestSeq + 1;
      id := requestSeq;
      pending := pending + {id};
      printed := printed + [Request(id, query)];
    }

    method OnResponse(r: Response)
      modifies this
      ensures View() == AfterResponse(old(View()), r) && printed == old(printed)
    {
      if r.id !in pending {
        return;
      }
      pending := pending - {r.id};
      settled := settled[r.id := if r.error != "" then Rejected(r.error) else Resolved(r.value)];
    }
  }

  function Grown(s: Script, printed: seq<Message>, c: Call, now: int): (Script, seq<Message>) {
    var (after, lines) := AfterCall(s, c, now);
    (after, printed + lines)
  }
}
