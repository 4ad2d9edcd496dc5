/**
  The first version of the exit registry. Registration is the shared
  append-and-stable-sort; Execute is guarded by a compare-and-swap on the
  `exited` flag, walks the list from the last entry to the first, and then
  closes the channel Wait receives from. There is no Done signal.
 */
module ExitLegacy {
  import opened PriorityList
  import opened CallbackRegistry
  import opened Trace

  /** `exited` is the compare-and-swap flag, `closed` the state of the channel Wait receives from. */
  datatype State = State(reg: Registry, exited: bool, closed: bool)

  /** The state at program start. */
  function Start(): State {
    State(Empty(), false, false)
  }

  /** The states a sequential program can reach: sorted entries, and the channel closed exactly when exited. */
  predicate Valid(s: State) {
    Sorted(s.reg.entries) && s.closed == s.exited
  }

  /** Wait returns exactly when the channel has been closed. */
  predicate WaitMayReturn(s: State) {
    s.closed
  }

  function Lift(s: State, o: Outcome<Registry>): (t: Outcome<State>)
    ensures t.Ok? == o.Ok? && t.state == s.(reg := o.state)
  {
    match o
    case Ok(r) => Ok(s.(reg := r))
    case Panic(r) => Panic(s.(reg := r))
  }

  /**
    Registration with an explicit priority: a nil callback panics and
    changes nothing; otherwise the entry joins the list after every entry of
    priority at most its own. The flags are not touched.
   */
  function RegisterWithPriority(s: State, prio: int, cb: Callback): (o: Outcome<State>)
    ensures o.Panic? <==> cb.Nil?
    ensures o.Panic? ==> o.state == s
    ensures o.state.reg.counter == s.reg.counter
    ensures o.state.exited == s.exited && o.state.closed == s.closed
    ensures o.Ok? ==> Sorted(o.state.reg.entries)
    ensures o.Ok? ==> multiset(o.state.reg.entries) == multiset(s.reg.entries) + multiset{Entry(prio, cb.id)}
    ensures o.Ok? ==> forall p :: WithPrio(o.state.reg.entries, p)
                                   == WithPrio(s.reg.entries, p) + (if prio == p then [Entry(prio, cb.id)] else [])
    ensures Valid(s) && cb.Fn? ==> var k := InsertionPoint(s.reg.entries, prio);
      o.state.reg.entries == s.reg.entries[..k] + [Entry(prio, cb.id)] + s.reg.entries[k..]
    ensures Valid(s) ==> Valid(o.state)
  {
    assert Valid(s) && cb.Fn? ==> var k := InsertionPoint(s.reg.entries, prio);
      CallbackRegistry.RegisterWithPriority(s.reg, prio, cb).state.entries
        == s.reg.entries[..k] + [Entry(prio, cb.id)] + s.reg.entries[k..]
    by {
      if Valid(s) && cb.Fn? { RegisterInserts(s.reg, prio, cb.id); }
    }
    Lift(s, CallbackRegistry.RegisterWithPriority(s.reg, prio, cb))
  }

  /** Registration with the next default priority: 100, 101, ... from program start. */
  function Register(s: State, cb: Callback): (o: Outcome<State>)
    ensures o.Panic? <==> cb.Nil?
    ensures o.state.reg.counter == s.reg.counter + 1
    ensures o.state.exited == s.exited && o.state.closed == s.closed
    ensures o.Panic? ==> o.state.reg.entries == s.reg.entries
    ensures o.Ok? ==> Sorted(o.state.reg.entries)
    ensures o.Ok? ==> multiset(o.state.reg.entries) == multiset(s.reg.entries) + multiset{Entry(s.reg.counter + 1, cb.id)}
    ensures o.Ok? ==> forall p :: WithPrio(o.state.reg.entries, p)
                                   == WithPrio(s.reg.entries, p) + (if s.reg.counter + 1 == p then [Entry(p, cb.id)] else [])
    ensures Valid(s) ==> Valid(o.state)
  {
    Lift(s, RegisterDefault(s.reg, cb))
  }

  /** The callback loop of Execute: an index from the last entry down to the first. */
  method RunExits(entries: seq<Entry>) returns (ran: seq<nat>)
    ensures ran == Ids(Reverse(entries))
  {
    ran := [];
    var i := |entries| - 1;
    while i >= 0
      invariant -1 <= i < |entries|
      invariant |ran| == |entries| - 1 - i
      invariant forall j :: 0 <= j < |ran| ==> ran[j] == entries[|entries| - 1 - j].id
    {
      ran := ran + [entries[i].id];
      i := i - 1;
    }
  }

  /** The flags after the events of a trace have happened, in order. */
  function Observe(s: State, ev: seq<Event>): (t: State)
    ensures t.reg == s.reg && t.exited == s.exited
    ensures t.closed == (s.closed || Close in ev)
    decreases |ev|
  {
    if |ev| == 0 then s
    else
      assert ev == ev[..|ev| - 1] + [ev[|ev| - 1]];
      var t := Observe(s, ev[..|ev| - 1]);
      if ev[|ev| - 1] == Close then t.(closed := true) else t
  }

  /** The state right after the compare-and-swap, before any event. */
  function Won(s: State): State {
    s.(exited := true)
  }

  /** The order Execute runs the callbacks in: the ascending list read back to front. */
  function ExitOrder(s: State): seq<nat> {
    Ids(Reverse(s.reg.entries))
  }

  /** The events of the one real execution: the callbacks in the given order, then the channel closes. */
  function FirstRun(order: seq<nat>): (ev: seq<Event>)
    ensures |ev| == |order| + 1 && ev[|ev| - 1] == Close
    ensures forall i :: 0 <= i < |ev| - 1 ==> ev[i] == Run(order[i])
    ensures forall i :: 0 <= i < |ev| ==> !ev[i].Terminate?
    ensures RanIds(ev) == order
  {
    var runs := RunEvents(order);
    RanIdsAppend(runs, [Close]);
    RanIdsOfRuns(order);
    assert RanIds([Close]) == [];
    runs + [Close]
  }

  /**
    The first call wins the compare-and-swap, runs every callback from the
    back of the list to the front, then closes the channel. Every later call
    does nothing.
   */
  function Execute(s: State): (x: Execution<State>)
    ensures x.state.reg == s.reg
    ensures s.exited ==> x == Execution(s, [])
    ensures !s.exited ==> x.state.exited && x.state.closed
    ensures !s.exited ==> RanIds(x.events) == ExitOrder(s)
    ensures !s.exited ==> |x.events| >= 1 && x.events[|x.events| - 1] == Close
    ensures forall i :: 0 <= i < |x.events| - 1 ==> x.events[i].Run?
    ensures forall i :: 0 <= i < |x.events| ==> !x.events[i].Terminate?
    ensures Valid(s) ==> Valid(x.state)
  {
    if s.exited then Execution(s, [])
    else
      var ev := FirstRun(ExitOrder(s));
      assert Close in ev;
      Execution(Observe(Won(s), ev), ev)
  }

  /** n successive calls to Execute, their events concatenated. */
  function ExecuteTimes(s: State, n: nat): Execution<State>
    decreases n
  {
    if n == 0 then Execution(s, [])
    else
      var x := Execute(s);
      var y := ExecuteTimes(x.state, n - 1);
      Execution(y.state, x.events + y.events)
  }

  /** Once the flag is set, any number of further calls change nothing and run nothing. */
  lemma {:induction false} ExitedIsInert(s: State, n: nat)
    requires s.exited
    ensures ExecuteTimes(s, n) == Execution(s, [])
    decreases n
  {
    if n != 0 {
      ExitedIsInert(s, n - 1);
      assert Execute(s) == Execution(s, []);
    }
  }

  /** Execute called any number of times, at least once, does exactly what one call does. */
  lemma ExecuteIsOneShot(s: State, n: nat)
    requires n >= 1
    ensures ExecuteTimes(s, n) == Execute(s)
  {
    var x := Execute(s);
    var y := ExecuteTimes(x.state, n - 1);
    assert ExecuteTimes(s, n) == Execution(y.state, x.events + y.events);
    ExitedIsInert(x.state, n - 1);
    assert y == Execution(x.state, []);
    assert x.events + [] == x.events;
  }

  /**
    Wait returns only after every exit callback has been invoked: at every
    point of the first execution where the channel is closed, the whole exit
    order has already run.
   */
  lemma WaitAfterCallbacks(s: State, k: nat)
    requires Valid(s) && !s.exited
    requires k <= |Execute(s).events|
    ensures WaitMayReturn(Observe(Won(s), Execute(s).events[..k]))
            ==> RanIds(Execute(s).events[..k]) == ExitOrder(s)
    ensures !WaitMayReturn(Observe(Won(s), Execute(s).events[..k])) ==> k < |Execute(s).events|
  {
    var ev := Execute(s).events;
    if k < |ev| {
      forall i | 0 <= i < k ensures ev[..k][i] != Close {
        assert ev[i].Run?;
      }
    } else {
      assert ev[..k] == ev;
    }
  }

  /**
    Exit runs Execute to completion and then calls the exit hook with the
    same code. The delay before the hook is not modelled.
   */
  function Exit(s: State, code: int): (x: Execution<State>)
    ensures |x.events| >= 1 && x.events[|x.events| - 1] == Terminate(code)
    ensures forall i :: 0 <= i < |x.events| - 1 ==> !x.events[i].Terminate?
    ensures x.state == Execute(s).state && x.state.reg == s.reg
    ensures x.events[..|x.events| - 1] == Execute(s).events
    ensures s.exited ==> x.events == [Terminate(code)]
    ensures Valid(s) ==> Valid(x.state) && WaitMayReturn(x.state)
    ensures !s.exited ==> |x.events| >= 2 && x.events[|x.events| - 2] == Close
    ensures !s.exited ==> RanIds(x.events) == ExitOrder(s)
    ensures s.exited ==> RanIds(x.events) == []
  {
    if s.exited then
      assert Execute(s) == Execution(s, []);
      Execution(s, [Terminate(code)])
    else
      var y := Execute(s);
      assert Valid(s) ==> Valid(y.state) && WaitMayReturn(y.state);
      AppendTerminate(y.events, code);
      Execution(y.state, y.events + [Terminate(code)])
  }
}
