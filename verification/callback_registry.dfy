/**
  The registry state both directions share: the sorted entry list and the
  default-priority counter, with registration by explicit and by default
  priority. A nil callback makes registration panic.
 */
module CallbackRegistry {
  import opened PriorityList

  /** The counter starts here and is incremented before use, so the first default priority is 100. */
  const InitialCounter: int := 99

  /** A callback as the registry sees it: nil, or a function named by its id. */
  datatype Callback = Nil | Fn(id: nat)

  datatype Registry = Registry(entries: seq<Entry>, counter: int)

  /**
    The result of a call that may panic. A panic carries the state the call
    leaves behind, which is what a caller that recovers from it observes.
   */
  datatype Outcome<S> = Ok(state: S) | Panic(state: S)

  /** The registry at program start. */
  function Empty(): Registry {
    Registry([], InitialCounter)
  }

  /**
    Registration with an explicit priority: append the entry, then stable
    sort by ascending priority.
   */
  function RegisterWithPriority(r: Registry, prio: int, cb: Callback): (o: Outcome<Registry>)
    ensures o.Panic? <==> cb.Nil?
    ensures o.Panic? ==> o.state == r
    ensures o.state.counter == r.counter
    ensures o.Ok? ==> Sorted(o.state.entries)
    ensures o.Ok? ==> multiset(o.state.entries) == multiset(r.entries) + multiset{Entry(prio, cb.id)}
    ensures o.Ok? ==> forall p :: WithPrio(o.state.entries, p)
                                   == WithPrio(r.entries, p) + (if prio == p then [Entry(prio, cb.id)] else [])
  {
    match cb
    case Nil => Panic(r)
    case Fn(id) =>
      AppendThenSortStable(r.entries, Entry(prio, id));
      StableSortPermutes(r.entries + [Entry(prio, id)]);
      Ok(Registry(StableSort(r.entries + [Entry(prio, id)]), r.counter))
  }

  /**
    Registration with the next default priority. The counter is advanced
    before the callback is checked, so a nil callback still uses up a priority.
   */
  function RegisterDefault(r: Registry, cb: Callback): (o: Outcome<Registry>)
    ensures o.state.counter == r.counter + 1
    ensures o.Panic? <==> cb.Nil?
    ensures o.Panic? ==> o.state == r.(counter := r.counter + 1)
    ensures o.Ok? ==> Sorted(o.state.entries)
    ensures o.Ok? ==> multiset(o.state.entries) == multiset(r.entries) + multiset{Entry(r.counter + 1, cb.id)}
    ensures o.Ok? ==> forall p :: WithPrio(o.state.entries, p)
                                   == WithPrio(r.entries, p) + (if r.counter + 1 == p then [Entry(p, cb.id)] else [])
  {
    RegisterWithPriority(r.(counter := r.counter + 1), r.counter + 1, cb)
  }

  /** On a sorted list, registration inserts the entry after every entry of priority at most its own. */
  lemma RegisterInserts(r: Registry, prio: int, id: nat)
    requires Sorted(r.entries)
    ensures var k := InsertionPoint(r.entries, prio);
      && RegisterWithPriority(r, prio, Fn(id)).state.entries == r.entries[..k] + [Entry(prio, id)] + r.entries[k..]
      && (forall i :: 0 <= i < k ==> r.entries[i].prio <= prio)
      && (forall i :: k <= i < |r.entries| ==> r.entries[i].prio > prio)
  {
    AppendThenSortIsInsert(r.entries, Entry(prio, id));
    InsertPosition(r.entries, Entry(prio, id));
  }

  /** One registration call, as a program makes it. */
  datatype Call = WithPriority(prio: int, cb: Callback) | Default(cb: Callback)

  function Apply(r: Registry, c: Call): Outcome<Registry> {
    match c
    case WithPriority(p, cb) => RegisterWithPriority(r, p, cb)
    case Default(cb) => RegisterDefault(r, cb)
  }

  /** Calls made one after another; the first panic ends the run. */
  function Replay(r: Registry, calls: seq<Call>): Outcome<Registry>
    decreases |calls|
  {
    if |calls| == 0 then Ok(r)
    else
      match Replay(r, calls[..|calls| - 1])
      case Panic(q) => Panic(q)
      case Ok(q) => Apply(q, calls[|calls| - 1])
  }

  /** How many of the calls use the default priority. */
  function Defaults(calls: seq<Call>): (n: nat)
    ensures n <= |calls|
  {
    if |calls| == 0 then 0
    else Defaults(calls[..|calls| - 1]) + (if calls[|calls| - 1].Default? then 1 else 0)
  }

  function IdOf(cb: Callback): nat {
    match cb
    case Nil => 0
    case Fn(id) => id
  }

  /** The priority a call registers with, given the counter value before it. */
  function PriorityOf(c: Call, counter: int): int {
    match c
    case WithPriority(p, _) => p
    case Default(_) => counter + 1
  }

  /** The entry each call registers, in call order, for calls made from a given counter. */
  function Planned(counter: int, calls: seq<Call>): (es: seq<Entry>)
    ensures |es| == |calls|
  {
    if |calls| == 0 then []
    else
      var init, c := calls[..|calls| - 1], calls[|calls| - 1];
      Planned(counter, init) + [Entry(PriorityOf(c, counter + Defaults(init)), IdOf(c.cb))]
  }

  /** A non-nil call registers the entry of its priority and moves the counter only when it uses the default. */
  lemma ApplyRegisters(q: Registry, c: Call)
    requires c.cb.Fn?
    ensures Apply(q, c) == Ok(Registry(StableSort(q.entries + [Entry(PriorityOf(c, q.counter), IdOf(c.cb))]),
                                       q.counter + (if c.Default? then 1 else 0)))
  {
    match c
    case WithPriority(p, cb) =>
      assert PriorityOf(c, q.counter) == p;
    case Default(cb) =>
      assert Apply(q, c) == RegisterWithPriority(q.(counter := q.counter + 1), q.counter + 1, cb);
  }

  /** A run of non-nil registrations succeeds and moves the counter once per default registration. */
  lemma {:induction false} ReplayCounts(r: Registry, calls: seq<Call>)
    requires forall i :: 0 <= i < |calls| ==> calls[i].cb.Fn?
    ensures Replay(r, calls).Ok?
    ensures Replay(r, calls).state.counter == r.counter + Defaults(calls)
    decreases |calls|
  {
    if |calls| != 0 {
      var init, c := calls[..|calls| - 1], calls[|calls| - 1];
      ReplayCounts(r, init);
      ApplyRegisters(Replay(r, init).state, c);
    }
  }

  /**
    After any run of non-nil registrations, the list is the stable sort of the
    entries in registration order, and the counter has moved once per default
    registration.
   */
  lemma {:induction false} ReplayIsStableSort(r: Registry, calls: seq<Call>)
    requires Sorted(r.entries)
    requires forall i :: 0 <= i < |calls| ==> calls[i].cb.Fn?
    ensures Replay(r, calls).Ok?
    ensures Replay(r, calls).state.entries == StableSort(r.entries + Planned(r.counter, calls))
    ensures Replay(r, calls).state.counter == r.counter + Defaults(calls)
    decreases |calls|
  {
    ReplayCounts(r, calls);
    if |calls| == 0 {
      StableSortOfSorted(r.entries);
      assert r.entries + Planned(r.counter, calls) == r.entries;
    } else {
      ReplayIsStableSort(r, calls[..|calls| - 1]);
      ReplayStep(r, calls);
    }
  }

  /** The inductive step of ReplayIsStableSort: one more non-nil call. */
  lemma ReplayStep(r: Registry, calls: seq<Call>)
    requires |calls| > 0 && calls[|calls| - 1].cb.Fn?
    requires Replay(r, calls[..|calls| - 1]).Ok?
    requires Replay(r, calls[..|calls| - 1]).state.entries
             == StableSort(r.entries + Planned(r.counter, calls[..|calls| - 1]))
    requires Replay(r, calls[..|calls| - 1]).state.counter == r.counter + Defaults(calls[..|calls| - 1])
    ensures Replay(r, calls).state.entries == StableSort(r.entries + Planned(r.counter, calls))
  {
    var init, c := calls[..|calls| - 1], calls[|calls| - 1];
    var q := Replay(r, init).state;
    var before := r.entries + Planned(r.counter, init);
    var e := Entry(PriorityOf(c, q.counter), IdOf(c.cb));
    ApplyRegisters(q, c);
    PlannedLast(r.entries, r.counter, calls);
    ResortAppend(before, e);
  }

  lemma PlannedLast(base: seq<Entry>, counter: int, calls: seq<Call>)
    requires |calls| > 0
    ensures var init, c := calls[..|calls| - 1], calls[|calls| - 1];
      base + Planned(counter, calls)
      == (base + Planned(counter, init)) + [Entry(PriorityOf(c, counter + Defaults(init)), IdOf(c.cb))]
  {
  }

  lemma ApplyPanicsOnNil(q: Registry, c: Call)
    ensures Apply(q, c).Panic? <==> c.cb.Nil?
  {
  }

  /** A run of calls panics exactly when one of them registers a nil callback. */
  lemma {:induction false} ReplayPanicsOnNil(r: Registry, calls: seq<Call>)
    ensures Replay(r, calls).Panic? <==> exists i :: 0 <= i < |calls| && calls[i].cb.Nil?
    decreases |calls|
  {
    if |calls| != 0 {
      var init, c := calls[..|calls| - 1], calls[|calls| - 1];
      ReplayPanicsOnNil(r, init);
      assert calls == init + [c];
      if Replay(r, init).Ok? {
        ApplyPanicsOnNil(Replay(r, init).state, c);
      }
      if exists i :: 0 <= i < |init| && init[i].cb.Nil? {
        var i :| 0 <= i < |init| && init[i].cb.Nil?;
        assert calls[i] == init[i];
      }
      if exists i :: 0 <= i < |calls| && calls[i].cb.Nil? {
        var i :| 0 <= i < |calls| && calls[i].cb.Nil?;
        if i < |init| {
          assert init[i] == calls[i];
        }
      }
    }
  }

  /**
    The k-th default registration (counting from 0) gets priority
    counter + 1 + k, whatever explicit registrations come between.
   */
  lemma {:induction false} DefaultPriorities(counter: int, calls: seq<Call>)
    ensures forall i :: 0 <= i < |calls| && calls[i].Default?
              ==> Planned(counter, calls)[i].prio == counter + 1 + Defaults(calls[..i])
    decreases |calls|
  {
    if |calls| != 0 {
      var init := calls[..|calls| - 1];
      DefaultPriorities(counter, init);
      forall i | 0 <= i < |calls| && calls[i].Default?
        ensures Planned(counter, calls)[i].prio == counter + 1 + Defaults(calls[..i])
      {
        if i < |init| {
          assert calls[..i] == init[..i];
          assert calls[i] == init[i];
        } else {
          assert calls[..i] == init;
        }
      }
    }
  }

  lemma {:induction false} DefaultsMonotone(calls: seq<Call>, i: nat, j: nat)
    requires i < j <= |calls|
    requires calls[i].Default?
    ensures Defaults(calls[..i]) < Defaults(calls[..j])
    decreases j
  {
    var prefix := calls[..j];
    assert prefix[..j - 1] == calls[..j - 1];
    if i == j - 1 {
      assert prefix[j - 1].Default?;
    } else {
      DefaultsMonotone(calls, i, j - 1);
    }
  }

  /** Default priorities strictly increase in call order. */
  lemma DefaultsIncrease(counter: int, calls: seq<Call>)
    ensures forall i, j :: 0 <= i < j < |calls| && calls[i].Default? && calls[j].Default?
              ==> Planned(counter, calls)[i].prio < Planned(counter, calls)[j].prio
  {
    DefaultPriorities(counter, calls);
    forall i, j | 0 <= i < j < |calls| && calls[i].Default? && calls[j].Default?
      ensures Planned(counter, calls)[i].prio < Planned(counter, calls)[j].prio
    {
      DefaultsMonotone(calls, i, j);
    }
  }
}
