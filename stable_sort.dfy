// Step two of the merge: the gathered events are sorted by absolute time
// with a stable sort, the key being the absolute time alone. Ties keep the
// order in which the events were gathered.

module StableSort {
  import opened MidiTypes

  /** Absolute times never decrease along `s`. */
  predicate SortedByTime(s: seq<TimedEvent>)
  {
    forall i, j :: 0 <= i < j < |s| ==> s[i].abs <= s[j].abs
  }

  /** The total order (absolute time, track index, position in track). */
  predicate KeyBefore(a: TimedEvent, b: TimedEvent)
  {
    a.abs < b.abs || (a.abs == b.abs && OriginBefore(a, b))
  }

  /** `s` is strictly increasing in the order (absolute time, track, position). */
  predicate KeySorted(s: seq<TimedEvent>)
  {
    forall i, j :: 0 <= i < j < |s| ==> KeyBefore(s[i], s[j])
  }

  /** Key order between neighbours extends to every pair, the order being
      transitive. */
  lemma {:induction false} KeySortedFromNeighbours(s: seq<TimedEvent>)
    requires forall i :: 0 <= i < |s| - 1 ==> KeyBefore(s[i], s[i + 1])
    ensures KeySorted(s)
  {
    if s != [] {
      var init := s[..|s| - 1];
      KeySortedFromNeighbours(init);
      forall i | 0 <= i < |s| - 1
        ensures KeyBefore(s[i], s[|s| - 1])
      {
        if i < |s| - 2 {
          assert KeyBefore(init[i], init[|s| - 2]);
        }
      }
    }
  }

  /** Places `e` after every event of `s` whose time is at most its own. */
  function Insert(s: seq<TimedEvent>, e: TimedEvent): seq<TimedEvent>
  {
    if s == [] || s[|s| - 1].abs <= e.abs then s + [e]
    else Insert(s[..|s| - 1], e) + [s[|s| - 1]]
  }

  /** Stable sort by absolute time (insertion sort). */
  function SortByTime(s: seq<TimedEvent>): seq<TimedEvent>
  {
    if s == [] then []
    else Insert(SortByTime(s[..|s| - 1]), s[|s| - 1])
  }

  /** Inserting adds exactly the one event. */
  lemma {:induction false} InsertPermutation(s: seq<TimedEvent>, e: TimedEvent)
    ensures multiset(Insert(s, e)) == multiset(s) + multiset{e}
  {
    if s != [] && s[|s| - 1].abs > e.abs {
      InsertPermutation(s[..|s| - 1], e);
      assert s == s[..|s| - 1] + [s[|s| - 1]];
    }
  }

  /** The result of the sort is a permutation of its input. */
  lemma {:induction false} SortByTimePermutation(s: seq<TimedEvent>)
    ensures multiset(SortByTime(s)) == multiset(s)
  {
    if s != [] {
      var init, last := s[..|s| - 1], s[|s| - 1];
      var q := SortByTime(init);
      SortByTimePermutation(init);
      InsertPermutation(q, last);
      assert SortByTime(s) == Insert(q, last);
      assert multiset(s) == multiset(init) + multiset{last} by {
        assert s == init + [last];
      }
    }
  }

  /** Inserting into a time-sorted sequence keeps it time-sorted. */
  lemma {:induction false} InsertSorted(s: seq<TimedEvent>, e: TimedEvent)
    requires SortedByTime(s)
    ensures SortedByTime(Insert(s, e))
  {
    if s != [] && s[|s| - 1].abs > e.abs {
      var init, last := s[..|s| - 1], s[|s| - 1];
      InsertSorted(init, e);
      var q := Insert(init, e);
      InsertPermutation(init, e);
      forall i | 0 <= i < |q|
        ensures q[i].abs <= last.abs
      {
        assert q[i] in multiset(q);
        if q[i] != e {
          assert q[i] in init;
        }
      }
    }
  }

  /** The result of the sort is ordered by absolute time. */
  lemma {:induction false} SortByTimeSorted(s: seq<TimedEvent>)
    ensures SortedByTime(SortByTime(s))
  {
    if s != [] {
      SortByTimeSorted(s[..|s| - 1]);
      InsertSorted(SortByTime(s[..|s| - 1]), s[|s| - 1]);
    }
  }

  /** Inserting an event that comes after everything in `s` in concatenation
      order puts it after every event with the same time. */
  lemma {:induction false} InsertKeySorted(s: seq<TimedEvent>, e: TimedEvent)
    requires KeySorted(s)
    requires forall x :: x in s ==> OriginBefore(x, e)
    ensures KeySorted(Insert(s, e))
  {
    if s == [] || s[|s| - 1].abs <= e.abs {
      forall i | 0 <= i < |s|
        ensures KeyBefore(s[i], e)
      {
        assert s[i] in s;
      }
    } else {
      var init, last := s[..|s| - 1], s[|s| - 1];
      forall x | x in init
        ensures OriginBefore(x, e)
      {
        assert x in s;
      }
      InsertKeySorted(init, e);
      var q := Insert(init, e);
      InsertPermutation(init, e);
      forall i | 0 <= i < |q|
        ensures KeyBefore(q[i], last)
      {
        assert q[i] in multiset(q);
        if q[i] != e {
          assert q[i] in init;
        }
      }
    }
  }

  /** Stability: sorting a sequence that is in concatenation order yields the
      order (absolute time, track index, position in track). */
  lemma {:induction false} SortByTimeStable(s: seq<TimedEvent>)
    requires OriginOrdered(s)
    ensures KeySorted(SortByTime(s))
  {
    if s != [] {
      var init, last := s[..|s| - 1], s[|s| - 1];
      SortByTimeStable(init);
      var q := SortByTime(init);
      SortByTimePermutation(init);
      forall x | x in q
        ensures OriginBefore(x, last)
      {
        assert x in multiset(q);
        assert x in init;
      }
      InsertKeySorted(q, last);
    }
  }

  /** Dropping the first element removes exactly that element. */
  lemma MultisetTail(s: seq<TimedEvent>)
    requires s != []
    ensures multiset(s[1..]) == multiset(s) - multiset{s[0]}
  {
    assert s == [s[0]] + s[1..];
  }

  /** Two key-sorted arrangements of the same events start with the same one. */
  lemma KeySortedSameHead(s: seq<TimedEvent>, t: seq<TimedEvent>)
    requires KeySorted(s) && KeySorted(t)
    requires multiset(s) == multiset(t) && s != []
    ensures t != [] && s[0] == t[0]
  {
    assert s[0] in multiset(t);
    var j :| 0 <= j < |t| && t[j] == s[0];
    assert t[0] in multiset(s);
    var k :| 0 <= k < |s| && s[k] == t[0];
    if j != 0 && k != 0 {
      assert false;
    }
  }

  /** There is only one way to arrange a given collection of events in the
      order (absolute time, track index, position in track). */
  lemma {:induction false} KeySortedUnique(s: seq<TimedEvent>, t: seq<TimedEvent>)
    requires KeySorted(s) && KeySorted(t)
    requires multiset(s) == multiset(t)
    ensures s == t
  {
    if s != [] {
      KeySortedSameHead(s, t);
      MultisetTail(s);
      MultisetTail(t);
      KeySortedUnique(s[1..], t[1..]);
      assert s == [s[0]] + s[1..] && t == [t[0]] + t[1..];
    } else {
      assert |t| == |multiset(t)| == 0;
    }
  }

  /** Time-sortedness stated from the back: the prefix without the last event
      is sorted, and the last event is no earlier than the one before it. */
  predicate SortedFromEnd(s: seq<TimedEvent>)
  {
    s == [] || (SortedFromEnd(s[..|s| - 1]) && (|s| == 1 || s[|s| - 2].abs <= s[|s| - 1].abs))
  }

  /** A time-sorted sequence is sorted from the back. */
  lemma {:induction false} SortedToFromEnd(s: seq<TimedEvent>)
    requires SortedByTime(s)
    ensures SortedFromEnd(s)
  {
    if s != [] {
      var init := s[..|s| - 1];
      assert SortedByTime(init) by {
        forall i, j | 0 <= i < j < |init|
          ensures init[i].abs <= init[j].abs
        {
          assert init[i] == s[i] && init[j] == s[j];
        }
      }
      SortedToFromEnd(init);
    }
  }

  /** The sort leaves a sequence sorted from the back unchanged. */
  lemma {:induction false} SortByTimeOfSortedFromEnd(s: seq<TimedEvent>)
    requires SortedFromEnd(s)
    ensures SortByTime(s) == s
  {
    if s != [] {
      SortByTimeOfSortedFromEnd(s[..|s| - 1]);
      assert s == s[..|s| - 1] + [s[|s| - 1]];
    }
  }

  /** Sorting a sequence that is already ordered by time changes nothing. */
  lemma {:induction false} SortByTimeOfSorted(s: seq<TimedEvent>)
    requires SortedByTime(s)
    ensures SortByTime(s) == s
  {
    SortedToFromEnd(s);
    SortByTimeOfSortedFromEnd(s);
  }
}
