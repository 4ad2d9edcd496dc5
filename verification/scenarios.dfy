/**
  The concrete runs the repository's tests and examples describe, replayed in
  the model one registration at a time. The callbacks are left as arbitrary
  ids `a`, `b`, ...: the order comes from the priorities and the order of
  registration alone.
 */
module Scenarios {
  import opened PriorityList
  import opened CallbackRegistry
  import opened Trace
  import ExitRegistry
  import ExitLegacy
  import InitRegistry

  /**
    Insertion into a split list: when the last entry of `a` does not outrank
    `e` and every entry of `b` comes strictly after it, `e` lands between them.
   */
  lemma {:induction false} InsertBetween(a: seq<Entry>, b: seq<Entry>, e: Entry)
    requires |a| == 0 || a[|a| - 1].prio <= e.prio
    requires forall i :: 0 <= i < |b| ==> e.prio < b[i].prio
    ensures Insert(a + b, e) == a + [e] + b
    decreases |b|
  {
    if |b| == 0 {
      assert a + b == a;
    } else {
      var b', x := b[..|b| - 1], b[|b| - 1];
      assert a + b == (a + b') + [x];
      InsertBetween(a, b', e);
      assert (a + b)[..|a + b| - 1] == a + b';
      assert a + [e] + b == (a + [e] + b') + [x];
    }
  }

  /**
    One more non-nil call on a sorted registry reached by replay: the entry is
    inserted into the list, and the counter moves only for a default call.
   */
  lemma Step(calls: seq<Call>, c: Call, s: seq<Entry>, counter: int)
    requires Replay(Empty(), calls) == Ok(Registry(s, counter))
    requires Sorted(s) && c.cb.Fn?
    ensures Replay(Empty(), calls + [c])
            == Ok(Registry(Insert(s, Entry(PriorityOf(c, counter), IdOf(c.cb))), counter + (if c.Default? then 1 else 0)))
    ensures Sorted(Insert(s, Entry(PriorityOf(c, counter), IdOf(c.cb))))
  {
    var e := Entry(PriorityOf(c, counter), IdOf(c.cb));
    assert (calls + [c])[..|calls|] == calls;
    ApplyRegisters(Registry(s, counter), c);
    AppendThenSortIsInsert(s, e);
    InsertSorted(s, e);
  }

  /** The stable sort of a list with one more entry inserts that entry into the sorted list. */
  lemma SortSnoc(s: seq<Entry>, e: Entry)
    ensures StableSort(s + [e]) == Insert(StableSort(s), e)
  {
    assert (s + [e])[..|s|] == s;
  }

  lemma Snoc6<T>(x1: T, x2: T, x3: T, x4: T, x5: T, x6: T)
    ensures [] + [x1] + [x2] + [x3] + [x4] + [x5] + [x6] == [x1, x2, x3, x4, x5, x6]
  {
  }

  lemma Snoc7<T>(x1: T, x2: T, x3: T, x4: T, x5: T, x6: T, x7: T)
    ensures [] + [x1] + [x2] + [x3] + [x4] + [x5] + [x6] + [x7] == [x1, x2, x3, x4, x5, x6, x7]
  {
  }

  /** Inserting, in order, entries of priorities 1, 2, 3, 3, 2, 1. */
  lemma {:induction false} ExitInserts(e1: Entry, e2: Entry, e3: Entry, e4: Entry, e5: Entry, e6: Entry)
    requires e1.prio == 1 && e2.prio == 2 && e3.prio == 3 && e4.prio == 3 && e5.prio == 2 && e6.prio == 1
    ensures Insert(Insert(Insert(Insert(Insert(Insert([], e1), e2), e3), e4), e5), e6) == [e1, e6, e2, e5, e3, e4]
  {
    assert Insert([], e1) == [e1] by {
      InsertBetween([], [], e1);
    }
    assert Insert([e1], e2) == [e1, e2] by {
      InsertBetween([e1], [], e2);
    }
    assert Insert([e1, e2], e3) == [e1, e2, e3] by {
      InsertBetween([e1, e2], [], e3);
    }
    assert Insert([e1, e2, e3], e4) == [e1, e2, e3, e4] by {
      InsertBetween([e1, e2, e3], [], e4);
    }
    assert Insert([e1, e2, e3, e4], e5) == [e1, e2, e5, e3, e4] by {
      assert [e1, e2, e3, e4] == [e1, e2] + [e3, e4];
      InsertBetween([e1, e2], [e3, e4], e5);
    }
    assert Insert([e1, e2, e5, e3, e4], e6) == [e1, e6, e2, e5, e3, e4] by {
      assert [e1, e2, e5, e3, e4] == [e1] + [e2, e5, e3, e4];
      InsertBetween([e1], [e2, e5, e3, e4], e6);
    }
  }

  /** The six registrations of the exit test: priorities 1, 2, 3, 3, 2, 1 for the callbacks a to f. */
  function ExitCalls(a: nat, b: nat, c: nat, d: nat, e: nat, f: nat): seq<Call> {
    [WithPriority(1, Fn(a)), WithPriority(2, Fn(b)), WithPriority(3, Fn(c)),
     WithPriority(3, Fn(d)), WithPriority(2, Fn(e)), WithPriority(1, Fn(f))]
  }

  /** The registry the exit test builds: ascending priority, equal priorities in registration order. */
  lemma ExitCallsList(a: nat, b: nat, c: nat, d: nat, e: nat, f: nat)
    ensures Replay(Empty(), ExitCalls(a, b, c, d, e, f))
            == Ok(Registry([Entry(1, a), Entry(1, f), Entry(2, b), Entry(2, e), Entry(3, c), Entry(3, d)], InitialCounter))
  {
    var n := InitialCounter;
    var c1, c2, c3 := WithPriority(1, Fn(a)), WithPriority(2, Fn(b)), WithPriority(3, Fn(c));
    var c4, c5, c6 := WithPriority(3, Fn(d)), WithPriority(2, Fn(e)), WithPriority(1, Fn(f));
    var e1, e2, e3 := Entry(1, a), Entry(2, b), Entry(3, c);
    var e4, e5, e6 := Entry(3, d), Entry(2, e), Entry(1, f);
    var k0: seq<Call> := [];
    assert Replay(Empty(), k0) == Ok(Registry([], n));
    Step(k0, c1, [], n);
    var s1 := Insert([], e1);
    Step(k0 + [c1], c2, s1, n);
    var s2 := Insert(s1, e2);
    Step(k0 + [c1] + [c2], c3, s2, n);
    var s3 := Insert(s2, e3);
    Step(k0 + [c1] + [c2] + [c3], c4, s3, n);
    var s4 := Insert(s3, e4);
    Step(k0 + [c1] + [c2] + [c3] + [c4], c5, s4, n);
    var s5 := Insert(s4, e5);
    Step(k0 + [c1] + [c2] + [c3] + [c4] + [c5], c6, s5, n);
    Snoc6(c1, c2, c3, c4, c5, c6);
    ExitInserts(e1, e2, e3, e4, e5, e6);
  }

  /** The exit order of the list the exit test builds. */
  lemma ExitTestReversed(es: seq<Entry>, a: nat, b: nat, c: nat, d: nat, e: nat, f: nat)
    requires es == [Entry(1, a), Entry(1, f), Entry(2, b), Entry(2, e), Entry(3, c), Entry(3, d)]
    ensures Ids(Reverse(es)) == [d, c, e, b, f, a]
  {
  }

  /** The list the exit test builds, read back to front. */
  lemma ExitTestList(a: nat, b: nat, c: nat, d: nat, e: nat, f: nat)
    ensures Ids(Reverse(Replay(Empty(), ExitCalls(a, b, c, d, e, f)).state.entries)) == [d, c, e, b, f, a]
  {
    ExitCallsList(a, b, c, d, e, f);
    ExitTestReversed(Replay(Empty(), ExitCalls(a, b, c, d, e, f)).state.entries, a, b, c, d, e, f);
  }

  /**
    The exit test: with callbacks 1 to 6 registered at priorities 1, 2, 3, 3,
    2, 1, one execution runs them as 4, 3, 5, 2, 6, 1.
   */
  lemma ExitTestOrder(a: nat, b: nat, c: nat, d: nat, e: nat, f: nat)
    ensures var s := ExitRegistry.Start().(reg := Replay(Empty(), ExitCalls(a, b, c, d, e, f)).state);
      RanIds(ExitRegistry.Execute(s).events) == [d, c, e, b, f, a]
  {
    ExitTestList(a, b, c, d, e, f);
  }

  /** The same test against the first version of the exit registry: the same order, 4, 3, 5, 2, 6, 1. */
  lemma LegacyExitTestOrder(a: nat, b: nat, c: nat, d: nat, e: nat, f: nat)
    ensures var s := ExitLegacy.Start().(reg := Replay(Empty(), ExitCalls(a, b, c, d, e, f)).state);
      RanIds(ExitLegacy.Execute(s).events) == [d, c, e, b, f, a]
  {
    ExitTestList(a, b, c, d, e, f);
  }

  /** The list of the sort test: priorities 0, 3, 3, 2, 1, 2 for exit1 to exit6. */
  lemma {:induction false} SortTestOrder(a: nat, b: nat, c: nat, d: nat, e: nat, f: nat)
    ensures Ids(StableSort([Entry(0, a), Entry(3, b), Entry(3, c), Entry(2, d), Entry(1, e), Entry(2, f)]))
            == [a, e, d, f, b, c]
  {
    var e1, e2, e3 := Entry(0, a), Entry(3, b), Entry(3, c);
    var e4, e5, e6 := Entry(2, d), Entry(1, e), Entry(2, f);
    var k0: seq<Entry> := [];
    SortSnoc(k0, e1);
    SortSnoc(k0 + [e1], e2);
    SortSnoc(k0 + [e1] + [e2], e3);
    SortSnoc(k0 + [e1] + [e2] + [e3], e4);
    SortSnoc(k0 + [e1] + [e2] + [e3] + [e4], e5);
    SortSnoc(k0 + [e1] + [e2] + [e3] + [e4] + [e5], e6);
    Snoc6(e1, e2, e3, e4, e5, e6);
    SortTestInserts(e1, e2, e3, e4, e5, e6);
    var r := [e1, e5, e4, e6, e2, e3];
    assert Ids(r) == [a, e, d, f, b, c];
  }

  /** Inserting, in order, entries of priorities 0, 3, 3, 2, 1, 2. */
  lemma {:induction false} SortTestInserts(e1: Entry, e2: Entry, e3: Entry, e4: Entry, e5: Entry, e6: Entry)
    requires e1.prio == 0 && e2.prio == 3 && e3.prio == 3 && e4.prio == 2 && e5.prio == 1 && e6.prio == 2
    ensures Insert(Insert(Insert(Insert(Insert(Insert(StableSort([]), e1), e2), e3), e4), e5), e6)
            == [e1, e5, e4, e6, e2, e3]
  {
    assert Insert([], e1) == [e1] by {
      assert StableSort([]) == [];
      InsertBetween([], [], e1);
    }
    assert Insert([e1], e2) == [e1, e2] by {
      InsertBetween([e1], [], e2);
    }
    assert Insert([e1, e2], e3) == [e1, e2, e3] by {
      InsertBetween([e1, e2], [], e3);
    }
    assert Insert([e1, e2, e3], e4) == [e1, e4, e2, e3] by {
      assert [e1, e2, e3] == [e1] + [e2, e3];
      InsertBetween([e1], [e2, e3], e4);
    }
    assert Insert([e1, e4, e2, e3], e5) == [e1, e5, e4, e2, e3] by {
      assert [e1, e4, e2, e3] == [e1] + [e4, e2, e3];
      InsertBetween([e1], [e4, e2, e3], e5);
    }
    assert [e1, e5, e4, e2, e3] == [e1, e5, e4] + [e2, e3];
    InsertBetween([e1, e5, e4], [e2, e3], e6);
  }

  /** Inserting, in order, entries of priorities 100, 101, 20, 10. */
  lemma {:induction false} InitInsertsFirst(e1: Entry, e2: Entry, e3: Entry, e4: Entry)
    requires e1.prio == 100 && e2.prio == 101 && e3.prio == 20 && e4.prio == 10
    ensures Insert(Insert(Insert(Insert([], e1), e2), e3), e4) == [e4, e3, e1, e2]
  {
    assert Insert([], e1) == [e1] by {
      InsertBetween([], [], e1);
    }
    assert Insert([e1], e2) == [e1, e2] by {
      InsertBetween([e1], [], e2);
    }
    assert Insert([e1, e2], e3) == [e3, e1, e2] by {
      assert [e1, e2] == [] + [e1, e2];
      InsertBetween([], [e1, e2], e3);
    }
    assert Insert([e3, e1, e2], e4) == [e4, e3, e1, e2] by {
      assert [e3, e1, e2] == [] + [e3, e1, e2];
      InsertBetween([], [e3, e1, e2], e4);
    }
  }

  /** Inserting, in order, entries of priorities 10, 30, 102 into the list the first four build. */
  lemma {:induction false} InitInsertsLast(e1: Entry, e2: Entry, e3: Entry, e4: Entry, e5: Entry, e6: Entry, e7: Entry)
    requires e1.prio == 100 && e2.prio == 101 && e3.prio == 20 && e4.prio == 10
    requires e5.prio == 10 && e6.prio == 30 && e7.prio == 102
    ensures Insert(Insert(Insert([e4, e3, e1, e2], e5), e6), e7) == [e4, e5, e3, e6, e1, e2, e7]
  {
    assert Insert([e4, e3, e1, e2], e5) == [e4, e5, e3, e1, e2] by {
      assert [e4, e3, e1, e2] == [e4] + [e3, e1, e2];
      InsertBetween([e4], [e3, e1, e2], e5);
    }
    assert Insert([e4, e5, e3, e1, e2], e6) == [e4, e5, e3, e6, e1, e2] by {
      assert [e4, e5, e3, e1, e2] == [e4, e5, e3] + [e1, e2];
      InsertBetween([e4, e5, e3], [e1, e2], e6);
    }
    assert Insert([e4, e5, e3, e6, e1, e2], e7) == [e4, e5, e3, e6, e1, e2, e7] by {
      InsertBetween([e4, e5, e3, e6, e1, e2], [], e7);
    }
  }

  /** Inserting, in order, entries of priorities 100, 101, 20, 10, 10, 30, 102. */
  lemma InitInserts(e1: Entry, e2: Entry, e3: Entry, e4: Entry, e5: Entry, e6: Entry, e7: Entry)
    requires e1.prio == 100 && e2.prio == 101 && e3.prio == 20 && e4.prio == 10
    requires e5.prio == 10 && e6.prio == 30 && e7.prio == 102
    ensures Insert(Insert(Insert(Insert(Insert(Insert(Insert([], e1), e2), e3), e4), e5), e6), e7)
            == [e4, e5, e3, e6, e1, e2, e7]
  {
    InitInsertsFirst(e1, e2, e3, e4);
    InitInsertsLast(e1, e2, e3, e4, e5, e6, e7);
  }

  /** The seven registrations of the init example: default, default, 20, 10, 10, 30, default. */
  function InitCalls(a: nat, b: nat, c: nat, d: nat, e: nat, f: nat, g: nat): seq<Call> {
    [Default(Fn(a)), Default(Fn(b)), WithPriority(20, Fn(c)), WithPriority(10, Fn(d)),
     WithPriority(10, Fn(e)), WithPriority(30, Fn(f)), Default(Fn(g))]
  }

  /** The registry the init example builds; the defaults take priorities 100, 101 and 102. */
  lemma InitCallsList(a: nat, b: nat, c: nat, d: nat, e: nat, f: nat, g: nat)
    ensures Replay(Empty(), InitCalls(a, b, c, d, e, f, g))
            == Ok(Registry([Entry(10, d), Entry(10, e), Entry(20, c), Entry(30, f),
                            Entry(100, a), Entry(101, b), Entry(102, g)], 102))
  {
    var c1, c2, c3, c4 := Default(Fn(a)), Default(Fn(b)), WithPriority(20, Fn(c)), WithPriority(10, Fn(d));
    var c5, c6, c7 := WithPriority(10, Fn(e)), WithPriority(30, Fn(f)), Default(Fn(g));
    var e1, e2, e3, e4 := Entry(100, a), Entry(101, b), Entry(20, c), Entry(10, d);
    var e5, e6, e7 := Entry(10, e), Entry(30, f), Entry(102, g);
    var k0: seq<Call> := [];
    assert Replay(Empty(), k0) == Ok(Registry([], 99));
    Step(k0, c1, [], 99);
    var s1 := Insert([], e1);
    Step(k0 + [c1], c2, s1, 100);
    var s2 := Insert(s1, e2);
    Step(k0 + [c1] + [c2], c3, s2, 101);
    var s3 := Insert(s2, e3);
    Step(k0 + [c1] + [c2] + [c3], c4, s3, 101);
    var s4 := Insert(s3, e4);
    Step(k0 + [c1] + [c2] + [c3] + [c4], c5, s4, 101);
    var s5 := Insert(s4, e5);
    Step(k0 + [c1] + [c2] + [c3] + [c4] + [c5], c6, s5, 101);
    var s6 := Insert(s5, e6);
    Step(k0 + [c1] + [c2] + [c3] + [c4] + [c5] + [c6], c7, s6, 101);
    Snoc7(c1, c2, c3, c4, c5, c6, c7);
    InitInserts(e1, e2, e3, e4, e5, e6, e7);
  }

  /** What Init reports for the list the init example builds. */
  lemma InitExampleIds(es: seq<Entry>, ran: seq<nat>, a: nat, b: nat, c: nat, d: nat, e: nat, f: nat, g: nat)
    requires es == [Entry(10, d), Entry(10, e), Entry(20, c), Entry(30, f), Entry(100, a), Entry(101, b), Entry(102, g)]
    requires |ran| == |es| && forall i :: 0 <= i < |ran| ==> ran[i] == es[i].id
    ensures ran == [d, e, c, f, a, b, g]
  {
    assert ran[0] == d && ran[1] == e && ran[2] == c && ran[3] == f;
    assert ran[4] == a && ran[5] == b && ran[6] == g;
  }

  /**
    The init example: with init1 to init7 registered as default, default, 20,
    10, 10, 30, default, Init runs init4, init5, init3, init6, init1, init2,
    init7.
   */
  method InitExampleOrder(a: nat, b: nat, c: nat, d: nat, e: nat, f: nat, g: nat) returns (ran: seq<nat>)
    ensures ran == [d, e, c, f, a, b, g]
  {
    var r := Replay(Empty(), InitCalls(a, b, c, d, e, f, g)).state;
    InitCallsList(a, b, c, d, e, f, g);
    ran := InitRegistry.Init(r);
    InitExampleIds(r.entries, ran, a, b, c, d, e, f, g);
  }
}
