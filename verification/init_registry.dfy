/**
  The init registry: callbacks registered for program start-up, run in
  ascending priority order, front to back. Init keeps no flag, so every call
  runs every callback again.
 */
module InitRegistry {
  import opened PriorityList
  import opened CallbackRegistry

  /**
    Registration with an explicit priority; a smaller value runs earlier. A
    nil function panics and leaves the registry as it was; otherwise the list
    stays sorted and the new entry goes after the entries of its priority.
   */
  function OnInitWithPriority(r: Registry, prio: int, cb: Callback): (o: Outcome<Registry>)
    ensures o.Panic? <==> cb.Nil?
    ensures o.Panic? ==> o.state == r
    ensures o.state.counter == r.counter
    ensures o.Ok? ==> Sorted(o.state.entries)
    ensures o.Ok? ==> multiset(o.state.entries) == multiset(r.entries) + multiset{Entry(prio, cb.id)}
    ensures o.Ok? ==> forall p :: WithPrio(o.state.entries, p)
                                   == WithPrio(r.entries, p) + (if prio == p then [Entry(prio, cb.id)] else [])
  {
    RegisterWithPriority(r, prio, cb)
  }

  /** Registration with the next default priority: 100, 101, ... from program start. */
  function OnInit(r: Registry, cb: Callback): (o: Outcome<Registry>)
    ensures o.Panic? <==> cb.Nil?
    ensures o.state.counter == r.counter + 1
    ensures o.Panic? ==> o.state == r.(counter := r.counter + 1)
    ensures o.Ok? ==> Sorted(o.state.entries)
    ensures o.Ok? ==> multiset(o.state.entries) == multiset(r.entries) + multiset{Entry(r.counter + 1, cb.id)}
    ensures o.Ok? ==> forall p :: WithPrio(o.state.entries, p)
                                   == WithPrio(r.entries, p) + (if r.counter + 1 == p then [Entry(p, cb.id)] else [])
  {
    RegisterDefault(r, cb)
  }

  /** The registered init functions, copied element by element into a new list. */
  method GetAllInitFuncs(r: Registry) returns (funcs: seq<Entry>)
    ensures |funcs| == |r.entries|
    ensures forall i :: 0 <= i < |funcs| ==> funcs[i] == r.entries[i]
  {
    funcs := [];
    var i := 0;
    while i < |r.entries|
      invariant 0 <= i <= |r.entries|
      invariant funcs == r.entries[..i]
    {
      funcs := funcs + [r.entries[i]];
      i := i + 1;
    }
  }

  /**
    Init: the list length is read once, then every entry is called from the
    front to the back.
   */
  method Init(r: Registry) returns (ran: seq<nat>)
    ensures |ran| == |r.entries|
    ensures forall i :: 0 <= i < |ran| ==> ran[i] == r.entries[i].id
  {
    ran := [];
    var i, n := 0, |r.entries|;
    while i < n
      invariant 0 <= i <= n
      invariant ran == Ids(r.entries[..i])
    {
      ran := ran + [r.entries[i].id];
      i := i + 1;
      assert r.entries[..i] == r.entries[..i - 1] + [r.entries[i - 1]];
    }
    assert r.entries[..n] == r.entries;
  }

  /** The callbacks `k` successive calls of Init invoke, in order. */
  function InitTimes(r: Registry, k: nat): (ran: seq<nat>)
    ensures |ran| == k * |r.entries|
  {
    if k == 0 then [] else InitTimes(r, k - 1) + Ids(r.entries)
  }

  /** The program calls Init k times in a row; the callbacks invoked, in order. */
  method InitRepeatedly(r: Registry, k: nat) returns (ran: seq<nat>)
    ensures ran == InitTimes(r, k)
  {
    ran := [];
    var j := 0;
    while j < k
      invariant 0 <= j <= k
      invariant ran == InitTimes(r, j)
    {
      var once := Init(r);
      assert once == Ids(r.entries);
      ran := ran + once;
      j := j + 1;
    }
  }

  /** With no executed flag, calling Init k times runs each registered callback k times. */
  lemma {:induction false} InitRepeats(r: Registry, k: nat)
    ensures forall id :: multiset(InitTimes(r, k))[id] == k * multiset(Ids(r.entries))[id]
    decreases k
  {
    if k != 0 {
      InitRepeats(r, k - 1);
      var once := multiset(Ids(r.entries));
      assert multiset(InitTimes(r, k)) == multiset(InitTimes(r, k - 1)) + once;
      forall id ensures multiset(InitTimes(r, k))[id] == k * once[id] {
        assert multiset(InitTimes(r, k))[id] == (k - 1) * once[id] + once[id];
      }
    }
  }

  /**
    For any run of registrations from program start, Init runs the callbacks
    in ascending priority order, and callbacks of equal priority in the order
    they were registered.
   */
  lemma LowestPriorityFirst(calls: seq<Call>)
    requires forall i :: 0 <= i < |calls| ==> calls[i].cb.Fn?
    ensures var entries := Replay(Empty(), calls).state.entries;
      && (forall i, j :: 0 <= i < j < |entries| ==> entries[i].prio <= entries[j].prio)
      && (forall p :: WithPrio(entries, p) == WithPrio(Planned(InitialCounter, calls), p))
  {
    ReplayIsStableSort(Empty(), calls);
    var planned := Planned(InitialCounter, calls);
    assert Empty().entries + planned == planned;
    StableSortPermutes(planned);
    forall p ensures WithPrio(StableSort(planned), p) == WithPrio(planned, p) {
      StableSortStable(planned, p);
    }
  }

  /**
    Every default registration from program start gets a priority of at least
    100, so Init runs every callback registered with an explicit priority
    below 100 before all of them.
   */
  lemma ExplicitBelowDefaultsFirst(calls: seq<Call>)
    requires forall i :: 0 <= i < |calls| ==> calls[i].cb.Fn?
    ensures forall k :: 0 <= k < |calls| && calls[k].Default? ==> Planned(InitialCounter, calls)[k].prio >= 100
    ensures var entries := Replay(Empty(), calls).state.entries;
      forall i, j :: 0 <= i < |entries| && 0 <= j < |entries| && entries[i].prio < 100 <= entries[j].prio ==> i < j
  {
    DefaultPriorities(InitialCounter, calls);
    LowestPriorityFirst(calls);
  }
}
