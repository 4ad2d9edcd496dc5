/**
  The ordered callback list shared by the init and the exit registries.

  A registry keeps its entries sorted by ascending priority. Every
  registration appends one entry and re-sorts the whole list with a STABLE
  sort, so entries of equal priority stay in registration order. The
  callback itself is abstracted to an `id`.
 */
module PriorityList {

  /** One registered callback: its priority and the id standing for the function. */
  datatype Entry = Entry(prio: int, id: nat)

  /** The sort key of both registries: a strictly smaller priority sorts first. */
  predicate Less(a: Entry, b: Entry) {
    a.prio < b.prio
  }

  /** What a (stable or not) sort by `Less` guarantees: no entry is Less than one before it. */
  predicate Sorted(s: seq<Entry>) {
    forall i, j :: 0 <= i < j < |s| ==> !Less(s[j], s[i])
  }

  /** The entries of priority `p`, in list order. Stability means this subsequence is kept. */
  function WithPrio(s: seq<Entry>, p: int): (r: seq<Entry>)
    ensures |r| <= |s|
  {
    if |s| == 0 then []
    else WithPrio(s[..|s| - 1], p) + (if s[|s| - 1].prio == p then [s[|s| - 1]] else [])
  }

  /** The entries picked for priority `p` are entries of the list, of priority `p`. */
  lemma {:induction false} WithPrioMembers(s: seq<Entry>, p: int, e: Entry)
    requires e in WithPrio(s, p)
    ensures e in s && e.prio == p
    decreases |s|
  {
    var init := s[..|s| - 1];
    if e in WithPrio(init, p) {
      WithPrioMembers(init, p, e);
      assert e in init;
      var k :| 0 <= k < |init| && init[k] == e;
      assert s[k] == e;
    } else {
      assert e == s[|s| - 1];
    }
  }

  /** The ids of a list of entries, in list order. */
  function Ids(s: seq<Entry>): (r: seq<nat>)
    ensures |r| == |s|
    ensures forall i :: 0 <= i < |s| ==> r[i] == s[i].id
  {
    seq(|s|, i requires 0 <= i < |s| => s[i].id)
  }

  /** The sequence read from back to front. */
  function Reverse<T>(s: seq<T>): (r: seq<T>)
    ensures |r| == |s|
    ensures forall i :: 0 <= i < |s| ==> r[i] == s[|s| - 1 - i]
  {
    if |s| == 0 then [] else [s[|s| - 1]] + Reverse(s[..|s| - 1])
  }

  lemma WithPrioSnoc(s: seq<Entry>, e: Entry, p: int)
    ensures WithPrio(s + [e], p) == WithPrio(s, p) + (if e.prio == p then [e] else [])
  {
    assert (s + [e])[..|s|] == s;
  }

  lemma {:induction false} WithPrioCons(e: Entry, s: seq<Entry>, p: int)
    ensures WithPrio([e] + s, p) == (if e.prio == p then [e] else []) + WithPrio(s, p)
    decreases |s|
  {
    if |s| == 0 {
      assert [e] + s == [] + [e];
      WithPrioSnoc([], e, p);
    } else {
      var init, last := s[..|s| - 1], s[|s| - 1];
      assert [e] + s == ([e] + init) + [last];
      WithPrioSnoc([e] + init, last, p);
      WithPrioCons(e, init, p);
      WithPrioSnoc(init, last, p);
      assert s == init + [last];
    }
  }

  /**
    Insertion of one entry into a sorted list the way a stable sort places an
    appended element: it moves back past every entry it is Less than and
    stops behind the first entry it is not.
   */
  function Insert(s: seq<Entry>, e: Entry): (r: seq<Entry>)
    ensures |r| == |s| + 1
  {
    if |s| == 0 || !Less(e, s[|s| - 1]) then s + [e]
    else
      assert s == s[..|s| - 1] + [s[|s| - 1]];
      Insert(s[..|s| - 1], e) + [s[|s| - 1]]
  }

  /** Insertion adds exactly the one entry: the result is a permutation of the list with `e` appended. */
  lemma {:induction false} InsertPermutes(s: seq<Entry>, e: Entry)
    ensures multiset(Insert(s, e)) == multiset(s) + multiset{e}
    decreases |s|
  {
    if |s| != 0 && Less(e, s[|s| - 1]) {
      var init, last := s[..|s| - 1], s[|s| - 1];
      InsertPermutes(init, e);
      assert s == init + [last];
    }
  }

  /** Inserting into a sorted list keeps it sorted. */
  lemma {:induction false} InsertSorted(s: seq<Entry>, e: Entry)
    requires Sorted(s)
    ensures Sorted(Insert(s, e))
    decreases |s|
  {
    if |s| == 0 || !Less(e, s[|s| - 1]) {
      var r := s + [e];
      forall i, j | 0 <= i < j < |r| ensures !Less(r[j], r[i]) {
        if j == |s| && i < |s| - 1 {
          assert !Less(s[|s| - 1], s[i]);
        }
      }
    } else {
      var init, last := s[..|s| - 1], s[|s| - 1];
      InsertSorted(init, e);
      InsertPermutes(init, e);
      var q := Insert(init, e);
      var r := q + [last];
      forall i, j | 0 <= i < j < |r| ensures !Less(r[j], r[i]) {
        if j == |q| {
          assert r[i] == q[i];
          assert q[i] in multiset(init) + multiset{e};
          if q[i] != e {
            assert q[i] in init;
            var k :| 0 <= k < |init| && init[k] == q[i];
            assert s[k] == q[i];
          }
        }
      }
    }
  }

  /** Inserting `e` appends it to the entries of its priority and leaves every other priority alone. */
  lemma {:induction false} InsertStable(s: seq<Entry>, e: Entry, p: int)
    ensures WithPrio(Insert(s, e), p) == WithPrio(s, p) + (if e.prio == p then [e] else [])
    decreases |s|
  {
    if |s| == 0 || !Less(e, s[|s| - 1]) {
      WithPrioSnoc(s, e, p);
    } else {
      var init, last := s[..|s| - 1], s[|s| - 1];
      InsertStable(init, e, p);
      WithPrioSnoc(Insert(init, e), last, p);
      WithPrioSnoc(init, last, p);
      assert s == init + [last];
    }
  }

  /** The number of leading entries a new entry of priority `p` goes behind. */
  function InsertionPoint(s: seq<Entry>, p: int): (k: nat)
    ensures k <= |s|
  {
    if |s| == 0 || s[|s| - 1].prio <= p then |s| else InsertionPoint(s[..|s| - 1], p)
  }

  /** Insertion splits the list at the insertion point, whatever the list. */
  lemma {:induction false} InsertAt(s: seq<Entry>, e: Entry)
    ensures var k := InsertionPoint(s, e.prio); Insert(s, e) == s[..k] + [e] + s[k..]
    decreases |s|
  {
    var k := InsertionPoint(s, e.prio);
    if |s| == 0 || s[|s| - 1].prio <= e.prio {
      assert s[..k] == s && s[k..] == [];
    } else {
      var init, last := s[..|s| - 1], s[|s| - 1];
      InsertAt(init, e);
      assert s[..k] == init[..k];
      assert s[k..] == init[k..] + [last];
    }
  }

  /** In a sorted list, the insertion point separates priorities at most `p` from greater ones. */
  lemma {:induction false} InsertionPointSplits(s: seq<Entry>, p: int)
    requires Sorted(s)
    ensures forall i :: 0 <= i < InsertionPoint(s, p) ==> s[i].prio <= p
    ensures forall i :: InsertionPoint(s, p) <= i < |s| ==> s[i].prio > p
    decreases |s|
  {
    var k := InsertionPoint(s, p);
    if |s| == 0 {
    } else if s[|s| - 1].prio <= p {
      forall i | 0 <= i < k ensures s[i].prio <= p {
        if i < |s| - 1 {
          assert !Less(s[|s| - 1], s[i]);
        }
      }
    } else {
      var init := s[..|s| - 1];
      SortedPrefix(s);
      InsertionPointSplits(init, p);
      forall i | 0 <= i < k ensures s[i].prio <= p {
        assert s[i] == init[i];
      }
      forall i | k <= i < |s| ensures s[i].prio > p {
        if i < |s| - 1 {
          assert s[i] == init[i];
        }
      }
    }
  }

  /**
    On a sorted list, insertion puts the new entry right after every entry of
    priority at most its own and before every entry of greater priority.
   */
  lemma {:induction false} InsertPosition(s: seq<Entry>, e: Entry)
    requires Sorted(s)
    ensures var k := InsertionPoint(s, e.prio);
      && Insert(s, e) == s[..k] + [e] + s[k..]
      && (forall i :: 0 <= i < k ==> s[i].prio <= e.prio)
      && (forall i :: k <= i < |s| ==> s[i].prio > e.prio)
  {
    InsertAt(s, e);
    InsertionPointSplits(s, e.prio);
  }

  /**
    Stable sort by `Less`, written as insertion sort. What it guarantees is
    stated by the lemmas below: the result is sorted, a permutation of the
    input, and keeps each priority's entries in input order.
   */
  function StableSort(s: seq<Entry>): (r: seq<Entry>)
    ensures |r| == |s|
  {
    if |s| == 0 then [] else Insert(StableSort(s[..|s| - 1]), s[|s| - 1])
  }

  /** The sort's result is sorted and holds exactly the input's entries. */
  lemma {:induction false} StableSortPermutes(s: seq<Entry>)
    ensures Sorted(StableSort(s))
    ensures multiset(StableSort(s)) == multiset(s)
    decreases |s|
  {
    if |s| != 0 {
      var init, last := s[..|s| - 1], s[|s| - 1];
      StableSortPermutes(init);
      InsertSorted(StableSort(init), last);
      InsertPermutes(StableSort(init), last);
      assert s == init + [last];
    }
  }

  /** Stability: every priority's entries come out of the sort in the order they went in. */
  lemma {:induction false} StableSortStable(s: seq<Entry>, p: int)
    ensures WithPrio(StableSort(s), p) == WithPrio(s, p)
    decreases |s|
  {
    if |s| != 0 {
      var init, last := s[..|s| - 1], s[|s| - 1];
      assert s == init + [last];
      assert StableSort(s) == Insert(StableSort(init), last);
      StableSortStable(init, p);
      InsertStable(StableSort(init), last, p);
      assert WithPrio(s, p) == WithPrio(init, p) + (if last.prio == p then [last] else []);
    }
  }

  /**
    A sorted list is determined by its per-priority subsequences: two sorted
    lists that agree on every priority's entries are equal. Hence every stable
    sort of a list, whatever its algorithm, produces the same result.
   */
  lemma {:induction false} SortedUnique(a: seq<Entry>, b: seq<Entry>)
    requires Sorted(a) && Sorted(b)
    requires forall p :: WithPrio(a, p) == WithPrio(b, p)
    ensures a == b
    decreases |a| + |b|
  {
    if |a| == 0 && |b| == 0 {
      return;
    }
    if |a| == 0 {
      LastWithPrio(b);
      assert false;
    }
    if |b| == 0 {
      LastWithPrio(a);
      assert false;
    }
    var a', b' := a[..|a| - 1], b[..|b| - 1];
    assert a == a' + [a[|a| - 1]];
    assert b == b' + [b[|b| - 1]];
    DropLastAgree(a, b, a', b', a[|a| - 1], b[|b| - 1]);
    SortedPrefix(a);
    SortedPrefix(b);
    SortedUnique(a', b');
    assert a == a' + [a[|a| - 1]];
    assert b == b' + [b[|b| - 1]];
  }

  /** Two sorted lists with the same per-priority entries end in the same entry, and agree without it. */
  lemma DropLastAgree(a: seq<Entry>, b: seq<Entry>, a': seq<Entry>, b': seq<Entry>, x: Entry, y: Entry)
    requires a == a' + [x] && b == b' + [y]
    requires Sorted(a) && Sorted(b)
    requires forall p :: WithPrio(a, p) == WithPrio(b, p)
    ensures x == y
    ensures forall p :: WithPrio(a', p) == WithPrio(b', p)
  {
    assert a' == a[..|a| - 1] && b' == b[..|b| - 1];
    LastWithPrio(a);
    LastWithPrio(b);
    // each last entry occurs in the other list, so the two last priorities are equal
    assert x in WithPrio(b, x.prio);
    WithPrioMembers(b, x.prio, x);
    BoundedByLast(b, x);
    assert y in WithPrio(a, y.prio);
    WithPrioMembers(a, y.prio, y);
    BoundedByLast(a, y);
    var q := x.prio;
    var fa, fb := WithPrio(a', q), WithPrio(b', q);
    assert fa + [x] == fb + [y];
    assert x == (fa + [x])[|fa|] == (fb + [y])[|fb|] == y;
    assert fa == (fa + [x])[..|fa|] == (fb + [y])[..|fb|] == fb;
    forall p ensures WithPrio(a', p) == WithPrio(b', p) {
      if p != q {
        assert WithPrio(a, p) == WithPrio(a', p);
        assert WithPrio(b, p) == WithPrio(b', p);
      }
    }
  }

  lemma LastWithPrio(s: seq<Entry>)
    requires |s| > 0
    ensures WithPrio(s, s[|s| - 1].prio) == WithPrio(s[..|s| - 1], s[|s| - 1].prio) + [s[|s| - 1]]
  {
  }

  lemma BoundedByLast(s: seq<Entry>, x: Entry)
    requires Sorted(s) && x in s
    ensures x.prio <= s[|s| - 1].prio
  {
    var k :| 0 <= k < |s| && s[k] == x;
    if k < |s| - 1 {
      assert !Less(s[|s| - 1], s[k]);
    }
  }

  lemma SortedPrefix(s: seq<Entry>)
    requires Sorted(s) && |s| > 0
    ensures Sorted(s[..|s| - 1])
  {
    var t := s[..|s| - 1];
    forall i, j | 0 <= i < j < |t| ensures !Less(t[j], t[i]) {
      assert t[i] == s[i] && t[j] == s[j];
    }
  }

  /** Sorting an already sorted list changes nothing. */
  lemma {:induction false} StableSortOfSorted(s: seq<Entry>)
    requires Sorted(s)
    ensures StableSort(s) == s
  {
    forall p ensures WithPrio(StableSort(s), p) == WithPrio(s, p) {
      StableSortStable(s, p);
    }
    StableSortPermutes(s);
    SortedUnique(StableSort(s), s);
  }

  /**
    Appending to a sorted list and stable-sorting the result is the same as
    inserting the new entry: the registry's "append, then sort.Stable" step.
   */
  lemma AppendThenSortIsInsert(s: seq<Entry>, e: Entry)
    requires Sorted(s)
    ensures StableSort(s + [e]) == Insert(s, e)
  {
    InsertSorted(s, e);
    StableSortPermutes(s + [e]);
    forall p ensures WithPrio(StableSort(s + [e]), p) == WithPrio(Insert(s, e), p) {
      StableSortStable(s + [e], p);
      WithPrioSnoc(s, e, p);
      InsertStable(s, e, p);
    }
    SortedUnique(StableSort(s + [e]), Insert(s, e));
  }

  /** Appending and sorting adds the new entry after the entries of its priority. */
  lemma AppendThenSortStable(s: seq<Entry>, e: Entry)
    ensures forall p :: WithPrio(StableSort(s + [e]), p) == WithPrio(s, p) + (if e.prio == p then [e] else [])
  {
    forall p ensures WithPrio(StableSort(s + [e]), p) == WithPrio(s, p) + (if e.prio == p then [e] else []) {
      StableSortStable(s + [e], p);
      WithPrioSnoc(s, e, p);
    }
  }

  /** Re-sorting after each append gives the same list as sorting once at the end. */
  lemma ResortAppend(s: seq<Entry>, e: Entry)
    ensures StableSort(StableSort(s) + [e]) == StableSort(s + [e])
  {
    forall p ensures WithPrio(StableSort(StableSort(s) + [e]), p) == WithPrio(StableSort(s + [e]), p) {
      StableSortStable(StableSort(s) + [e], p);
      WithPrioSnoc(StableSort(s), e, p);
      StableSortStable(s, p);
      StableSortStable(s + [e], p);
      WithPrioSnoc(s, e, p);
    }
    StableSortPermutes(StableSort(s) + [e]);
    StableSortPermutes(s + [e]);
    SortedUnique(StableSort(StableSort(s) + [e]), StableSort(s + [e]));
  }

  /**
    Read back to front, a sorted list runs highest priority first, and each
    priority's entries come out newest first.
   */
  lemma ReverseOrder(s: seq<Entry>)
    requires Sorted(s)
    ensures forall i, j :: 0 <= i < j < |s| ==> Reverse(s)[i].prio >= Reverse(s)[j].prio
    ensures forall p :: WithPrio(Reverse(s), p) == Reverse(WithPrio(s, p))
  {
    var r := Reverse(s);
    forall i, j | 0 <= i < j < |s| ensures r[i].prio >= r[j].prio {
      assert !Less(s[|s| - 1 - i], s[|s| - 1 - j]);
    }
    forall p ensures WithPrio(r, p) == Reverse(WithPrio(s, p)) {
      ReverseStable(s, p);
    }
  }

  lemma {:induction false} ReverseStable(s: seq<Entry>, p: int)
    ensures WithPrio(Reverse(s), p) == Reverse(WithPrio(s, p))
    decreases |s|
  {
    if |s| != 0 {
      var init, last := s[..|s| - 1], s[|s| - 1];
      assert Reverse(s) == [last] + Reverse(init);
      WithPrioCons(last, Reverse(init), p);
      ReverseStable(init, p);
      var f := WithPrio(init, p);
      if last.prio == p {
        assert WithPrio(s, p) == f + [last];
        assert (f + [last])[..|f|] == f;
        assert Reverse(f + [last]) == [last] + Reverse(f);
      } else {
        assert WithPrio(s, p) == f;
      }
    }
  }
}
