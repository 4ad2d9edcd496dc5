/**
  The exit registry: callbacks registered for program exit, run once, highest
  priority first. A compare-and-swap on the `executed` flag admits one
  execution; it then cancels the context (the Done signal), runs the
  callbacks, and only then closes the channel that Wait blocks on.
 */
module ExitRegistry {
  import opened PriorityList
  import opened CallbackRegistry
  import opened Trace

  /**
    `executed` is the compare-and-swap flag, `cancelled` the context behind
    Done, `completed` the closed state of the channel Wait receives from.
   */
  datatype State = State(reg: Registry, executed: bool, cancelled: bool, completed: bool)

  /** The state at program start. */
  function Start(): State {
    State(Empty(), false, false, false)
  }

  /** The states a sequential program can reach: sorted entries, and the three flags set together. */
  predicate Valid(s: State) {
    && Sorted(s.reg.entries)
    && s.cancelled == s.executed
    && s.completed == s.executed
  }

  /** Wait returns exactly when the completion channel has been closed. */
  predicate WaitMayReturn(s: State) {
    s.completed
  }

  function Lift(s: State, o: Outcome<Registry>): (t: Outcome<State>)
    ensures t.Ok? == o.Ok? && t.state == s.(reg := o.state)
  {
    match o
    case Ok(r) => Ok(s.(reg := r))
    case Panic(r) => Panic(s.(reg := r))
  }

  /**
    Registration with an explicit priority; a bigger value runs earlier. It
    never touches the flags, so a registration after execution is kept but
    never run.
   */
  function OnExitWithPriority(s: State, prio: int, cb: Callback): (o: Outcome<State>)
    ensures o.Panic? <==> cb.Nil?
    ensures o.Panic? ==> o.state == s
    ensures o.state.reg.counter == s.reg.counter
    ensures o.state.executed == s.executed && o.state.cancelled == s.cancelled && o.state.completed == s.completed
    ensures o.Ok? ==> Sorted(o.state.reg.entries)
    ensures o.Ok? ==> multiset(o.state.reg.entries) == multiset(s.reg.entries) + multiset{Entry(prio, cb.id)}
    ensures o.Ok? ==> forall p :: WithPrio(o.state.reg.entries, p)
                                   == WithPrio(s.reg.entries, p) + (if prio == p then [Entry(prio, cb.id)] else [])
    ensures Valid(s) ==> Valid(o.state)
  {
    Lift(s, RegisterWithPriority(s.reg, prio, cb))
  }

  /** Registration with the next default priority: 100, 101, ... from a fresh start. */
  function OnExit(s: State, cb: Callback): (o: Outcome<State>)
    ensures o.Panic? <==> cb.Nil?
    ensures o.state.reg.counter == s.reg.counter + 1
    ensures o.state.executed == s.executed && o.state.cancelled == s.cancelled && o.state.completed == s.completed
    ensures o.Panic? ==> o.state.reg.entries == s.reg.entries
    ensures o.Ok? ==> Sorted(o.state.reg.entries)
    ensures o.Ok? ==> multiset(o.state.reg.entries) == multiset(s.reg.entries) + multiset{Entry(s.reg.counter + 1, cb.id)}
    ensures o.Ok? ==> forall p :: WithPrio(o.state.reg.entries, p)
                                   == WithPrio(s.reg.entries, p) + (if s.reg.counter + 1 == p then [Entry(p, cb.id)] else [])
    ensures Valid(s) ==> Valid(o.state)
  {
    Lift(s, RegisterDefault(s.reg, cb))
  }

  /** The list of registered exit functions, in list order. */
  function GetAllExitFuncs(s: State): (r: seq<Entry>)
    ensures Valid(s) ==> Sorted(r)
    ensures |r| == |s.reg.entries|
    ensures forall i :: 0 <= i < |r| ==> r[i] == s.reg.entries[i]
  {
    s.reg.entries
  }

  /** The effect of one event on the flags: Cancel fires Done, Close completes. */
  function Effect(s: State, e: Event): State {
    match e
    case Cancel => s.(cancelled := true)
    case Close => s.(completed := true)
    case _ => s
  }

  /** The flags after the events of a trace have happened, in order. */
  function Observe(s: State, ev: seq<Event>): (t: State)
    ensures t.reg == s.reg && t.executed == s.executed
    ensures t.cancelled == (s.cancelled || Cancel in ev)
    ensures t.completed == (s.completed || Close in ev)
    decreases |ev|
  {
    if |ev| == 0 then s
    else
      assert ev == ev[..|ev| - 1] + [ev[|ev| - 1]];
      Effect(Observe(s, ev[..|ev| - 1]), ev[|ev| - 1])
  }

  /** The order execute runs the callbacks in: the ascending list read back to front. */
  function ExitOrder(s: State): seq<nat> {
    Ids(Reverse(s.reg.entries))
  }

  /** The events of the one real execution: Done fires, the callbacks run in the given order, the channel closes. */
  function FirstRun(order: seq<nat>): (ev: seq<Event>)
    ensures |ev| == |order| + 2 && ev[0] == Cancel && ev[|ev| - 1] == Close
    ensures forall i :: 0 < i < |ev| - 1 ==> ev[i] == Run(order[i - 1])
    ensures forall i :: 0 <= i < |ev| ==> !ev[i].Terminate?
    ensures RanIds(ev) == order
  {
    var runs := RunEvents(order);
    RanIdsAppend([Cancel] + runs, [Close]);
    RanIdsAppend([Cancel], runs);
    RanIdsOfRuns(order);
    assert RanIds([Cancel]) == [] && RanIds([Close]) == [];
    [Cancel] + runs + [Close]
  }

  /**
    The first call wins the compare-and-swap, cancels the context, runs every
    callback from the back of the list to the front, and closes the
    completion channel. Every later call does nothing.
   */
  function Execute(s: State): (x: Execution<State>)
    ensures x.state.reg == s.reg
    ensures s.executed ==> x == Execution(s, [])
    ensures !s.executed ==> x.state.executed && x.state.cancelled && x.state.completed
    ensures !s.executed ==> RanIds(x.events) == ExitOrder(s)
    ensures !s.executed ==> |x.events| >= 2 && x.events[0] == Cancel && x.events[|x.events| - 1] == Close
    ensures forall i :: 0 < i < |x.events| - 1 ==> x.events[i].Run?
    ensures forall i :: 0 <= i < |x.events| ==> !x.events[i].Terminate?
    ensures Valid(s) ==> Valid(x.state)
  {
    if s.executed then Execution(s, [])
    else
      var ev := FirstRun(ExitOrder(s));
      assert Cancel in ev && Close in ev;
      Execution(Observe(Won(s), ev), ev)
  }

  /** The state right after the compare-and-swap, before any event. */
  function Won(s: State): State {
    s.(executed := true)
  }

  /**
    Done fires before any exit callback runs: at every point of the first
    execution where some callback has already been invoked, the context is
    cancelled.
   */
  lemma DoneBeforeCallbacks(s: State, k: nat)
    requires Valid(s) && !s.executed
    requires k <= |Execute(s).events|
    ensures RanIds(Execute(s).events[..k]) != [] ==> Observe(Won(s), Execute(s).events[..k]).cancelled
  {
    var ev := Execute(s).events;
    if k == 0 {
      assert ev[..k] == [];
    } else {
      assert ev[..k][0] == Cancel;
    }
  }

  /**
    Wait returns only after every exit callback has been invoked: at every
    point of the first execution where the completion channel is closed, the
    whole exit order has already run.
   */
  lemma WaitAfterCallbacks(s: State, k: nat)
    requires Valid(s) && !s.executed
    requires k <= |Execute(s).events|
    ensures WaitMayReturn(Observe(Won(s), Execute(s).events[..k])) ==> RanIds(Execute(s).events[..k]) == ExitOrder(s)
    ensures !WaitMayReturn(Observe(Won(s), Execute(s).events[..k])) ==> k < |Execute(s).events|
  {
    var ev := Execute(s).events;
    if k < |ev| {
      forall i | 0 <= i < k ensures ev[..k][i] != Close {
        assert ev[i] == Cancel || ev[i].Run?;
      }
    } else {
      assert ev[..k] == ev;
    }
  }

  /** n successive calls to Execute, their events concatenated. */
  function ExecuteTimes(s: State, n: nat): Execution<State>
    decreases n
  {
    if n == 0 then Execution(s, [])
    else
      var x := Execute(s);
      var y := ExecuteTimes(x.state, n - 1);
      Execution(y.state, x.events + y.events)
  }

  /** Once the flag is set, any number of further calls change nothing and run nothing. */
  lemma {:induction false} ExecutedIsInert(s: State, n: nat)
    requires s.executed
    ensures ExecuteTimes(s, n) == Execution(s, [])
    decreases n
  {
    if n != 0 {
      ExecutedIsInert(s, n - 1);
      assert Execute(s) == Execution(s, []);
    }
  }

  /** Execute called any number of times, at least once, does exactly what one call does. */
  lemma ExecuteIsOneShot(s: State, n: nat)
    requires n >= 1
    ensures ExecuteTimes(s, n) == Execute(s)
  {
    var x := Execute(s);
    var y := ExecuteTimes(x.state, n - 1);
    assert ExecuteTimes(s, n) == Execution(y.state, x.events + y.events);
    ExecutedIsInert(x.state, n - 1);
    assert y == Execution(x.state, []);
    assert x.events + [] == x.events;
  }

  /** A callback registered after execution is stored but never run. */
  lemma LateRegistrationNeverRuns(s: State, prio: int, id: nat)
    requires Valid(s) && s.executed
    ensures Execute(OnExitWithPriority(s, prio, Fn(id)).state).events == []
    ensures Entry(prio, id) in OnExitWithPriority(s, prio, Fn(id)).state.reg.entries
  {
    var t := OnExitWithPriority(s, prio, Fn(id)).state;
    assert Entry(prio, id) in multiset(t.reg.entries);
  }

  /**
    Exit runs execute to completion and then calls the exit hook with the
    same code; the hook is the last thing that happens.
   */
  function Exit(s: State, code: int): (x: Execution<State>)
    ensures |x.events| >= 1 && x.events[|x.events| - 1] == Terminate(code)
    ensures forall i :: 0 <= i < |x.events| - 1 ==> !x.events[i].Terminate?
    ensures x.state == Execute(s).state && x.state.reg == s.reg
    ensures x.events[..|x.events| - 1] == Execute(s).events
    ensures s.executed ==> x.events == [Terminate(code)]
    ensures !s.executed ==> x.events[0] == Cancel
    ensures Valid(s) ==> Valid(x.state) && WaitMayReturn(x.state)
    ensures !s.executed ==> |x.events| >= 3 && x.events[|x.events| - 2] == Close
    ensures !s.executed ==> RanIds(x.events) == ExitOrder(s)
    ensures s.executed ==> RanIds(x.events) == []
  {
    if s.executed then
      assert Execute(s) == Execution(s, []);
      Execution(s, [Terminate(code)])
    else
      var y := Execute(s);
      assert Valid(s) ==> Valid(y.state) && WaitMayReturn(y.state);
      AppendTerminate(y.events, code);
      Execution(y.state, y.events + [Terminate(code)])
  }

  /**
    Exit order for any run of registrations from program start: higher
    priorities first, and callbacks of equal priority newest first.
   */
  lemma HighestPriorityFirst(calls: seq<Call>)
    requires forall i :: 0 <= i < |calls| ==> calls[i].cb.Fn?
    ensures var order := Reverse(Replay(Empty(), calls).state.entries);
      && (forall i, j :: 0 <= i < j < |order| ==> order[i].prio >= order[j].prio)
      && (forall p :: WithPrio(order, p) == Reverse(WithPrio(Planned(InitialCounter, calls), p)))
  {
    ReplayIsStableSort(Empty(), calls);
    var entries := Replay(Empty(), calls).state.entries;
    var planned := Planned(InitialCounter, calls);
    assert Empty().entries + planned == planned;
    StableSortPermutes(planned);
    ReverseOrder(entries);
    forall p ensures WithPrio(Reverse(entries), p) == Reverse(WithPrio(planned, p)) {
      StableSortStable(planned, p);
    }
  }
}
