/**
 * The timeslot normaliser and the consecutive-slot finder of the generator
 * (src/utils/timetableGenerator.ts:77-86 and :114-136).
 *
 * The timeslots are sorted by the position of their weekday in `DayOrder`
 * (a weekday that is not listed has position -1), then by start time; the
 * break periods are then dropped, giving the class timeslots that every
 * later scan walks through.
 */
module Timeslots {
  import opened Wrappers
  import opened Sequences
  import opened TimetableTypes

  const DayOrder: seq<string> := ["Monday", "Tuesday", "Wednesday", "Thursday", "Friday", "Saturday", "Sunday"]

  /** `dayOrder.indexOf(day)`: -1 for a weekday name that is not listed. */
  function DayIndex(day: string): (r: int)
    ensures -1 <= r < |DayOrder|
    ensures r == -1 <==> day !in DayOrder
    ensures 0 <= r ==> DayOrder[r] == day
  {
    IndexOf(DayOrder, day)
  }

  /**
   * Ordinal comparison of two strings: negative, zero or positive as `a`
   * sorts before, together with or after `b`. Stands for `localeCompare`
   * on "HH:MM" start times.
   */
  function CompareStrings(a: string, b: string): (r: int)
    ensures -1 <= r <= 1
  {
    if |a| == 0 && |b| == 0 then 0
    else if |a| == 0 then -1
    else if |b| == 0 then 1
    else if a[0] < b[0] then -1
    else if b[0] < a[0] then 1
    else CompareStrings(a[1..], b[1..])
  }

  lemma {:induction false} CompareStringsAntisymmetric(a: string, b: string)
    ensures CompareStrings(b, a) == -CompareStrings(a, b)
  {
    if |a| > 0 && |b| > 0 && a[0] == b[0] {
      CompareStringsAntisymmetric(a[1..], b[1..]);
    }
  }

  lemma {:induction false} CompareStringsZero(a: string, b: string)
    ensures CompareStrings(a, b) == 0 <==> a == b
  {
    if |a| > 0 && |b| > 0 && a[0] == b[0] {
      CompareStringsZero(a[1..], b[1..]);
      assert a == [a[0]] + a[1..] && b == [b[0]] + b[1..];
    }
  }

  lemma {:induction false} CompareStringsTransitive(a: string, b: string, c: string)
    requires CompareStrings(a, b) <= 0 && CompareStrings(b, c) <= 0
    ensures CompareStrings(a, c) <= 0
  {
    if |a| > 0 && |b| > 0 && |c| > 0 && a[0] == b[0] == c[0] {
      CompareStringsTransitive(a[1..], b[1..], c[1..]);
    }
  }

  /** The sort comparator at lines 79-83: weekday position first, then start time. */
  function CompareSlots(a: Timeslot, b: Timeslot): int {
    var dayCompare := DayIndex(a.day) - DayIndex(b.day);
    if dayCompare != 0 then dayCompare else CompareStrings(a.startTime, b.startTime)
  }

  predicate InOrder(a: Timeslot, b: Timeslot) {
    CompareSlots(a, b) <= 0
  }

  lemma InOrderTotal(a: Timeslot, b: Timeslot)
    ensures InOrder(a, b) || InOrder(b, a)
    ensures !InOrder(a, b) ==> CompareSlots(b, a) < 0
  {
    CompareStringsAntisymmetric(a.startTime, b.startTime);
  }

  lemma InOrderTransitive(a: Timeslot, b: Timeslot, c: Timeslot)
    requires InOrder(a, b) && InOrder(b, c)
    ensures InOrder(a, c)
  {
    if DayIndex(a.day) == DayIndex(b.day) == DayIndex(c.day) {
      CompareStringsTransitive(a.startTime, b.startTime, c.startTime);
    }
  }

  /** A weekday missing from `DayOrder` gets position -1 and so sorts before every listed weekday. */
  lemma UnknownDaySortsFirst(a: Timeslot, b: Timeslot)
    requires a.day !in DayOrder && b.day in DayOrder
    ensures CompareSlots(a, b) < 0 && !InOrder(b, a)
  {
  }

  /** The total preorder the sort arranges the timeslots by. */
  lemma InOrderIsTotalPreorder()
    ensures TotalPreorder(InOrder)
  {
    forall a, b ensures InOrder(a, b) || InOrder(b, a) {
      InOrderTotal(a, b);
    }
    forall a, b, c | InOrder(a, b) && InOrder(b, c) ensures InOrder(a, c) {
      InOrderTransitive(a, b, c);
    }
  }

  /** `[...timeslots].sort(comparator)`: a stable sort by `CompareSlots`. */
  function SortTimeslots(timeslots: seq<Timeslot>): (r: seq<Timeslot>)
    ensures multiset(r) == multiset(timeslots)
  {
    SortBy(timeslots, InOrder)
  }

  predicate IsClassSlot(t: Timeslot) {
    !t.isBreak
  }

  /** `classTimeslots`: the sorted timeslots without the break periods. */
  function ClassTimeslots(timeslots: seq<Timeslot>): (r: seq<Timeslot>)
    ensures forall t | t in r :: !t.isBreak && t in timeslots
  {
    var sorted := SortTimeslots(timeslots);
    var r := Filter(sorted, IsClassSlot);
    forall t | t in r ensures t in timeslots {
      assert t in multiset(sorted);
    }
    r
  }

  /**
   * The class timeslots are ordered by (weekday position, start time), hold
   * no break, and hold every non-break input timeslot exactly as often as the
   * input does.
   */
  lemma ClassTimeslotsNormalised(timeslots: seq<Timeslot>)
    ensures SortedBy(ClassTimeslots(timeslots), InOrder)
    ensures forall t | t in ClassTimeslots(timeslots) :: !t.isBreak
    ensures forall t :: multiset(ClassTimeslots(timeslots))[t] == if t.isBreak then 0 else multiset(timeslots)[t]
  {
    InOrderIsTotalPreorder();
    SortBySorted(timeslots, InOrder);
    FilterSorted(SortTimeslots(timeslots), IsClassSlot, InOrder);
    FilterCount(SortTimeslots(timeslots), IsClassSlot);
  }

  lemma InOrderDays(a: Timeslot, b: Timeslot)
    requires InOrder(a, b)
    ensures DayIndex(a.day) <= DayIndex(b.day)
  {
  }

  /** Timeslots of unlisted weekdays come first among the class timeslots. */
  lemma UnknownDaysLead(timeslots: seq<Timeslot>, i: nat, j: nat)
    requires i < j < |ClassTimeslots(timeslots)|
    requires ClassTimeslots(timeslots)[j].day !in DayOrder
    ensures ClassTimeslots(timeslots)[i].day !in DayOrder
  {
    var cts := ClassTimeslots(timeslots);
    ClassTimeslotsNormalised(timeslots);
    InOrderDays(cts[i], cts[j]);
  }

  function SlotId(t: Timeslot): string {
    t.id
  }

  /** No two timeslots share an id (they are primary keys in the database the caller reads). */
  ghost predicate DistinctIds(slots: seq<Timeslot>) {
    DistinctKeys(slots, SlotId)
  }

  /** Distinct input timeslot ids stay distinct among the class timeslots. */
  lemma ClassTimeslotsDistinct(timeslots: seq<Timeslot>)
    requires DistinctIds(timeslots)
    ensures DistinctIds(ClassTimeslots(timeslots))
  {
    SortByDistinct(timeslots, InOrder, SlotId);
    FilterDistinct(SortTimeslots(timeslots), IsClassSlot, SlotId);
  }

  /** All slots on the first slot's day, each ending where the next one starts. */
  predicate IsConsecutiveRun(slots: seq<Timeslot>) {
    && |slots| > 0
    && (forall k | 0 <= k < |slots| :: slots[k].day == slots[0].day)
    && (forall k | 1 <= k < |slots| :: slots[k - 1].endTime == slots[k].startTime)
  }

  /** For a window of two slots, the run condition is "same day, first ends where second starts". */
  lemma ConsecutivePairCondition(classSlots: seq<Timeslot>, i: nat)
    requires i + 2 <= |classSlots|
    ensures IsConsecutiveRun(classSlots[i..i + 2])
        <==> classSlots[i].day == classSlots[i + 1].day && classSlots[i].endTime == classSlots[i + 1].startTime
  {
  }

  /**
   * `findConsecutiveSlots(startIndex, count)`: the window of `count` class
   * timeslots at `startIndex` when it fits and forms a consecutive run,
   * otherwise `null`. The source reads `slots[0]`, so `count` is at least one.
   */
  method FindConsecutiveSlots(classSlots: seq<Timeslot>, startIndex: nat, count: nat) returns (r: Option<seq<Timeslot>>)
    requires count >= 1
    ensures r.Some? <==> startIndex + count <= |classSlots| && IsConsecutiveRun(classSlots[startIndex..startIndex + count])
    ensures r.Some? ==> r.value == classSlots[startIndex..startIndex + count]
  {
    if startIndex + count > |classSlots| {
      return None;
    }
    var slots := classSlots[startIndex..startIndex + count];
    var firstDay := slots[0].day;
    var i := 0;
    while i < |slots|
      invariant 0 <= i <= |slots|
      invariant forall k | 0 <= k < i :: slots[k].day == firstDay
    {
      if slots[i].day != firstDay {
        return None;
      }
      i := i + 1;
    }
    i := 1;
    while i < |slots|
      invariant 1 <= i <= |slots|
      invariant forall k | 1 <= k < i :: slots[k - 1].endTime == slots[k].startTime
    {
      if slots[i - 1].endTime != slots[i].startTime {
        return None;
      }
      i := i + 1;
    }
    return Some(slots);
  }
}
