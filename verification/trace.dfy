/**
  What an execution does, observed from outside: the Done signal firing, the
  callbacks it invokes, the completion signal closing, and the process-exit
  hook being called with a status code.
 */
module Trace {

  datatype Event = Cancel | Run(id: nat) | Close | Terminate(code: int)

  /** What one call did: the state `S` it left behind and the events it produced. */
  datatype Execution<S> = Execution(state: S, events: seq<Event>)

  /** One Run event per callback id, in the given order. */
  function RunEvents(ids: seq<nat>): (ev: seq<Event>)
    ensures |ev| == |ids|
    ensures forall i :: 0 <= i < |ids| ==> ev[i] == Run(ids[i])
  {
    seq(|ids|, i requires 0 <= i < |ids| => Run(ids[i]))
  }

  /** The callbacks a trace invokes, in the order it invokes them. */
  function RanIds(ev: seq<Event>): (ids: seq<nat>)
    ensures |ids| <= |ev|
  {
    if |ev| == 0 then []
    else RanIds(ev[..|ev| - 1]) + (if ev[|ev| - 1].Run? then [ev[|ev| - 1].id] else [])
  }

  lemma {:induction false} RanIdsAppend(a: seq<Event>, b: seq<Event>)
    ensures RanIds(a + b) == RanIds(a) + RanIds(b)
    decreases |b|
  {
    if |b| == 0 {
      assert a + b == a;
    } else {
      var init, last := b[..|b| - 1], b[|b| - 1];
      var step := if last.Run? then [last.id] else [];
      RanIdsAppend(a, init);
      assert (a + b)[..|a + b| - 1] == a + init;
      assert (a + b)[|a + b| - 1] == last;
      assert RanIds(a + b) == RanIds(a + init) + step;
      assert RanIds(b) == RanIds(init) + step;
    }
  }

  /** The Run events of a list of ids invoke exactly those ids, in order. */
  lemma {:induction false} RanIdsOfRuns(ids: seq<nat>)
    ensures RanIds(RunEvents(ids)) == ids
    decreases |ids|
  {
    if |ids| != 0 {
      var init := ids[..|ids| - 1];
      RanIdsOfRuns(init);
      assert RunEvents(ids)[..|ids| - 1] == RunEvents(init);
    }
  }

  /**
    Appending the exit hook's event to a trace that has not called it yet:
    the hook is called once, last, and no further callback is invoked.
   */
  lemma AppendTerminate(ev: seq<Event>, code: int)
    requires forall i :: 0 <= i < |ev| ==> !ev[i].Terminate?
    ensures var t := ev + [Terminate(code)];
      && |t| == |ev| + 1 && t[|ev|] == Terminate(code)
      && (forall i :: 0 <= i < |t| - 1 ==> !t[i].Terminate?)
      && (|ev| >= 1 ==> t[|ev| - 1] == ev[|ev| - 1])
      && t[..|ev|] == ev
      && (ev == [] ==> t == [Terminate(code)])
      && RanIds(t) == RanIds(ev)
  {
    assert (ev + [Terminate(code)])[..|ev|] == ev;
    RanIdsAppend(ev, [Terminate(code)]);
    assert RanIds([Terminate(code)]) == [];
  }
}
