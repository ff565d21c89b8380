/**
  The order in which the calendar import (src/index.ts) lists the merged
  events: the comparator it hands to `Array.prototype.sort`, and that sort,
  which the language requires to be stable.
*/
module ImportOrder {
  import opened Wrappers
  import opened Event

  /**
    `a.localeCompare(b)`. The source's order depends on the locale; the model
    takes the lexicographic order on code units, a total order as every
    locale's is, with `-1`, `0` and `1` for before, same and after.
  */
  function CompareText(a: string, b: string): (r: int)
    ensures -1 <= r <= 1
  {
    if a == [] then (if b == [] then 0 else -1)
    else if b == [] then 1
    else if a[0] < b[0] then -1
    else if b[0] < a[0] then 1
    else CompareText(a[1..], b[1..])
  }

  /** Two texts compare as the same exactly when they are equal. */
  lemma {:induction false} CompareTextZero(a: string, b: string)
    ensures CompareText(a, b) == 0 <==> a == b
  {
    if a != [] && b != [] && a[0] == b[0] {
      CompareTextZero(a[1..], b[1..]);
      assert a == [a[0]] + a[1..];
      assert b == [b[0]] + b[1..];
    }
  }

  /** Swapping the texts flips the answer. */
  lemma {:induction false} CompareTextAntisymmetric(a: string, b: string)
    ensures CompareText(b, a) == -CompareText(a, b)
  {
    if a != [] && b != [] && a[0] == b[0] {
      CompareTextAntisymmetric(a[1..], b[1..]);
    }
  }

  /** "Not after" is transitive. */
  lemma {:induction false} CompareTextTransitive(a: string, b: string, c: string)
    requires CompareText(a, b) <= 0 && CompareText(b, c) <= 0
    ensures CompareText(a, c) <= 0
  {
    if a != [] && b != [] && c != [] && a[0] == b[0] == c[0] {
      CompareTextTransitive(a[1..], b[1..], c[1..]);
    }
  }

  /**
    The sort comparator: events with the same start (both without a start
    time included) are ordered by summary, an absent summary counting as
    empty; an event without a start time comes before one with; otherwise the
    earlier start comes first. Negative means `a` goes first.
  */
  function CompareEvents(a: Event, b: Event): (r: int)
    ensures a.start == b.start ==> (r == 0 <==> a.summary == b.summary)
    ensures a.start == b.start ==> (r < 0 <==> CompareText(a.summary, b.summary) < 0)
    ensures a.start.None? && b.start.Some? ==> r < 0
    ensures a.start.Some? && b.start.None? ==> r > 0
    ensures a.start.Some? && b.start.Some? && a.start != b.start ==>
              r != 0 && (r < 0 <==> a.start.value < b.start.value)
  {
    CompareTextZero(a.summary, b.summary);
    if a.start == b.start then CompareText(a.summary, b.summary)
    else if a.start.None? then -1
    else if b.start.None? then 1
    else a.start.value - b.start.value
  }

  /** The comparator cannot tell two events apart exactly when they share start and summary. */
  lemma CompareEventsZero(a: Event, b: Event)
    ensures CompareEvents(a, b) == 0 <==> a.start == b.start && a.summary == b.summary
  {
  }

  /** The comparator is consistent: swapping its arguments flips the sign. */
  lemma CompareEventsAntisymmetric(a: Event, b: Event)
    ensures CompareEvents(a, b) < 0 <==> CompareEvents(b, a) > 0
    ensures CompareEvents(a, b) == 0 <==> CompareEvents(b, a) == 0
  {
    CompareTextAntisymmetric(a.summary, b.summary);
  }

  /** The comparator is consistent: "not after" is transitive. */
  lemma CompareEventsTransitive(a: Event, b: Event, c: Event)
    requires CompareEvents(a, b) <= 0 && CompareEvents(b, c) <= 0
    ensures CompareEvents(a, c) <= 0
  {
    if a.start == b.start == c.start {
      CompareTextTransitive(a.summary, b.summary, c.summary);
    }
  }

  /** Events in comparator order. */
  predicate Sorted(s: seq<Event>) {
    forall i, j :: 0 <= i < j < |s| ==> CompareEvents(s[i], s[j]) <= 0
  }

  /** One step of the stable sort: `x` goes in front of the first event it is not after. */
  function Insert(x: Event, s: seq<Event>): (r: seq<Event>)
    ensures multiset(r) == multiset(s) + multiset{x}
  {
    if s == [] || CompareEvents(x, s[0]) <= 0 then [x] + s
    else
      assert s == [s[0]] + s[1..];
      [s[0]] + Insert(x, s[1..])
  }

  /** `events.sort(compare)`: a stable sort, here by insertion. */
  function SortEvents(s: seq<Event>): (r: seq<Event>)
    ensures multiset(r) == multiset(s)
  {
    if s == [] then []
    else
      assert s == [s[0]] + s[1..];
      Insert(s[0], SortEvents(s[1..]))
  }

  /** An event not after any of a sorted list can go in front of it. */
  lemma SortedCons(h: Event, t: seq<Event>)
    requires Sorted(t) && forall y :: y in t ==> CompareEvents(h, y) <= 0
    ensures Sorted([h] + t)
  {
    forall i, j | 0 <= i < j < |[h] + t| ensures CompareEvents(([h] + t)[i], ([h] + t)[j]) <= 0 {
      if i == 0 {
        assert ([h] + t)[j] == t[j - 1];
      }
    }
  }

  lemma {:induction false} InsertSorted(x: Event, s: seq<Event>)
    requires Sorted(s)
    ensures Sorted(Insert(x, s))
  {
    if s == [] {
    } else if CompareEvents(x, s[0]) <= 0 {
      forall y | y in s ensures CompareEvents(x, y) <= 0 {
        CompareEventsTransitive(x, s[0], y);
      }
      SortedCons(x, s);
    } else {
      var t := Insert(x, s[1..]);
      InsertSorted(x, s[1..]);
      CompareEventsAntisymmetric(x, s[0]);
      forall y | y in t ensures CompareEvents(s[0], y) <= 0 {
        assert y in multiset(t);
      }
      SortedCons(s[0], t);
    }
  }

  /** The sorted events are in comparator order, and are the same events. */
  lemma {:induction false} SortEventsSorted(s: seq<Event>)
    ensures Sorted(SortEvents(s))
    ensures multiset(SortEvents(s)) == multiset(s)
  {
    if s != [] {
      SortEventsSorted(s[1..]);
      InsertSorted(s[0], SortEvents(s[1..]));
    }
  }

  /** The events of `s` the comparator cannot tell from `a`, in their order in `s`. */
  function Ties(s: seq<Event>, a: Event): seq<Event> {
    if s == [] then []
    else (if CompareEvents(s[0], a) == 0 then [s[0]] else []) + Ties(s[1..], a)
  }

  lemma {:induction false} InsertTies(x: Event, s: seq<Event>, a: Event)
    ensures Ties(Insert(x, s), a) == (if CompareEvents(x, a) == 0 then [x] else []) + Ties(s, a)
  {
    if s == [] || CompareEvents(x, s[0]) <= 0 {
      assert ([x] + s)[1..] == s;
    } else {
      var t := Insert(x, s[1..]);
      InsertTies(x, s[1..], a);
      assert ([s[0]] + t)[1..] == t;
    }
  }

  /** The sort is stable: events the comparator cannot tell apart keep their input order. */
  lemma {:induction false} SortEventsStable(s: seq<Event>, a: Event)
    ensures Ties(SortEvents(s), a) == Ties(s, a)
  {
    if s != [] {
      SortEventsStable(s[1..], a);
      InsertTies(s[0], SortEvents(s[1..]), a);
    }
  }
}
