/** The fixed time catalog of app.js and the integer arithmetic done on
    positions in it: ten boundaries (`ALL_TIMES`), nine bookable one-hour slots
    (`WORK_HOURS`), the half-open coverage and overlap tests, and the hour
    count shown on the leave form. */
module Times {
  import opened Seqs

  /** Every slot boundary of the working day, 08:30 to 17:30 (`ALL_TIMES`). */
  const AllTimes: seq<string> :=
    ["08:30", "09:30", "10:30", "11:30", "12:30",
     "13:30", "14:30", "15:30", "16:30", "17:30"]

  /** The start of every bookable one-hour slot (`WORK_HOURS`). */
  const WorkHours: seq<string> :=
    ["08:30", "09:30", "10:30", "11:30", "12:30",
     "13:30", "14:30", "15:30", "16:30"]

  /** Position of a time string among the boundaries, -1 when it is not one
      (`ALL_TIMES.indexOf`). */
  function BoundaryIndex(t: string): (r: int)
    ensures -1 <= r < |AllTimes|
    ensures r == -1 <==> t !in AllTimes
    ensures 0 <= r ==> AllTimes[r] == t
  {
    IndexOf(AllTimes, t)
  }

  /** Position of a time string among the slot starts, -1 when it is not one
      (`WORK_HOURS.indexOf`). */
  function SlotIndex(t: string): (r: int)
    ensures -1 <= r < |WorkHours|
    ensures r == -1 <==> t !in WorkHours
    ensures 0 <= r ==> WorkHours[r] == t
  {
    IndexOf(WorkHours, t)
  }

  function DigitValue(c: char): int {
    c as int - '0' as int
  }

  /** Minutes after midnight of an "HH:MM" string. */
  function ClockMinutes(t: string): int
    requires |t| == 5
  {
    (DigitValue(t[0]) * 10 + DigitValue(t[1])) * 60 + DigitValue(t[3]) * 10 + DigitValue(t[4])
  }

  /** The boundaries are one hour apart, starting at 08:30. */
  lemma CatalogIsHourly()
    ensures forall i :: 0 <= i < |AllTimes| ==>
      |AllTimes[i]| == 5 && ClockMinutes(AllTimes[i]) == 510 + 60 * i
  {
    forall i | 0 <= i < |AllTimes|
      ensures |AllTimes[i]| == 5 && ClockMinutes(AllTimes[i]) == 510 + 60 * i
    {
      if i == 0 { assert AllTimes[i] == "08:30"; }
      else if i == 1 { assert AllTimes[i] == "09:30"; }
      else if i == 2 { assert AllTimes[i] == "10:30"; }
      else if i == 3 { assert AllTimes[i] == "11:30"; }
      else if i == 4 { assert AllTimes[i] == "12:30"; }
      else if i == 5 { assert AllTimes[i] == "13:30"; }
      else if i == 6 { assert AllTimes[i] == "14:30"; }
      else if i == 7 { assert AllTimes[i] == "15:30"; }
      else if i == 8 { assert AllTimes[i] == "16:30"; }
      else { assert AllTimes[i] == "17:30"; }
    }
  }

  /** The clock time of one boundary. */
  lemma BoundaryMinutes(i: int)
    requires 0 <= i < |AllTimes|
    ensures |AllTimes[i]| == 5 && ClockMinutes(AllTimes[i]) == 510 + 60 * i
  {
    CatalogIsHourly();
  }

  /** The boundaries are strictly increasing in clock time, hence distinct. */
  lemma CatalogIncreasing()
    ensures forall i, j :: 0 <= i < j < |AllTimes| ==>
      ClockMinutes(AllTimes[i]) < ClockMinutes(AllTimes[j])
    ensures forall i, j :: 0 <= i < j < |AllTimes| ==> AllTimes[i] != AllTimes[j]
  {
    CatalogIsHourly();
  }

  /** Looking up a boundary gives back its position. */
  lemma BoundaryIndexRoundTrip(i: int)
    requires 0 <= i < |AllTimes|
    ensures BoundaryIndex(AllTimes[i]) == i
  {
    CatalogIncreasing();
    IndexOfDistinct(AllTimes, i);
  }

  /** The slot starts are the boundaries without the closing 17:30. */
  lemma WorkHoursArePrefix()
    ensures WorkHours == AllTimes[..|AllTimes| - 1]
  {
  }

  /** A slot index is the boundary index of the same string whenever it is a
      slot start at all; this is what lets the queries compare a `WORK_HOURS`
      position with `ALL_TIMES` positions. */
  lemma SlotIndexIsBoundaryIndex(t: string)
    ensures SlotIndex(t) == if BoundaryIndex(t) < |WorkHours| then BoundaryIndex(t) else -1
  {
    WorkHoursArePrefix();
    IndexOfPrefix(AllTimes, |WorkHours|, t);
  }

  /** Half-open coverage: the slot starting at boundary `t` lies in [s, e). */
  predicate Covers(s: int, e: int, t: int) {
    s <= t && t < e
  }

  /** Half-open overlap of [s, e) with [ls, le), as the conflict test writes it. */
  predicate Overlaps(s: int, e: int, ls: int, le: int) {
    !(e <= ls || s >= le)
  }

  lemma OverlapsSymmetric(s: int, e: int, ls: int, le: int)
    ensures Overlaps(s, e, ls, le) == Overlaps(ls, le, s, e)
  {
  }

  /** An interval that ends where another begins does not conflict with it. */
  lemma TouchingNeverOverlaps(s: int, m: int, e: int)
    ensures !Overlaps(s, m, m, e)
    ensures !Overlaps(m, e, s, m)
  {
  }

  /** Two non-empty intervals overlap exactly when some slot lies in both. */
  lemma OverlapsIffSharedSlot(s: int, e: int, ls: int, le: int)
    requires s < e && ls < le
    ensures Overlaps(s, e, ls, le) <==> exists t :: Covers(s, e, t) && Covers(ls, le, t)
  {
    if Overlaps(s, e, ls, le) {
      var t := if s < ls then ls else s;
      assert Covers(s, e, t) && Covers(ls, le, t);
    }
  }

  /** What the leave form shows beside the two time pickers. */
  datatype HoursDisplay = Unchanged | Hours(count: int) | InvalidRange

  /** `updateLeaveHours`: nothing while a picker is empty, the number of
      boundaries between start and end when end is later, and the
      invalid-range message otherwise. */
  function LeaveHours(startTime: string, endTime: string): (d: HoursDisplay)
    ensures d.Unchanged? <==> startTime == [] || endTime == []
    ensures d.Hours? ==> d.count > 0
    ensures d.Hours? && startTime in AllTimes ==> endTime in AllTimes
  {
    if startTime == [] || endTime == [] then Unchanged
    else
      var s := BoundaryIndex(startTime);
      var e := BoundaryIndex(endTime);
      if e > s then Hours(e - s) else InvalidRange
  }

  /** For times from the catalog, the hour count is the clock duration in hours. */
  lemma LeaveHoursIsDuration(startTime: string, endTime: string)
    requires startTime in AllTimes && endTime in AllTimes
    ensures LeaveHours(startTime, endTime).Hours? <==>
      ClockMinutes(startTime) < ClockMinutes(endTime)
    ensures LeaveHours(startTime, endTime).Hours? ==>
      LeaveHours(startTime, endTime).count * 60 == ClockMinutes(endTime) - ClockMinutes(startTime)
  {
    var s := BoundaryIndex(startTime);
    var e := BoundaryIndex(endTime);
    BoundaryMinutes(s);
    BoundaryMinutes(e);
    assert |startTime| == 5 && |endTime| == 5;
    assert LeaveHours(startTime, endTime) == if e > s then Hours(e - s) else InvalidRange;
    assert ClockMinutes(endTime) - ClockMinutes(startTime) == 60 * (e - s);
  }

  /** The slot positions a leave from boundary `s` to boundary `e` occupies
      on the calendar. */
  function SlotsCovered(s: int, e: int): (r: seq<int>)
    ensures forall i :: 0 <= i < |r| ==> 0 <= r[i] < |WorkHours| && Covers(s, e, r[i])
    ensures forall t :: 0 <= t < |WorkHours| && Covers(s, e, t) ==> t in r
  {
    var slots := Range(|WorkHours|);
    var p := t => Covers(s, e, t);
    var r := Filter(slots, p);
    assert forall t :: 0 <= t < |WorkHours| && Covers(s, e, t) ==> slots[t] == t && p(slots[t]) && slots[t] in r;
    r
  }

  lemma {:induction false} CoveredCount(n: nat, s: int, e: int)
    requires 0 <= s <= e
    ensures |Filter(Range(n), t => Covers(s, e, t))| ==
      if n <= s then 0 else if n <= e then n - s else e - s
  {
    if n > 0 {
      CoveredCount(n - 1, s, e);
      assert Range(n) == Range(n - 1) + [n - 1];
      FilterSnoc(Range(n - 1), n - 1, t => Covers(s, e, t));
    }
  }

  /** For catalog times, the hour count is the number of calendar slots the
      leave occupies. */
  lemma LeaveHoursCountsSlots(startTime: string, endTime: string)
    requires startTime in AllTimes && endTime in AllTimes
    requires LeaveHours(startTime, endTime).Hours?
    ensures LeaveHours(startTime, endTime).count ==
      |SlotsCovered(BoundaryIndex(startTime), BoundaryIndex(endTime))|
  {
    CoveredCount(|WorkHours|, BoundaryIndex(startTime), BoundaryIndex(endTime));
  }
}
