/** The interval index: the three store queries of app.js. Each keeps the
    records that match, in store order. */
module Queries {
  import opened Wrappers
  import opened Seqs
  import opened Times
  import opened Roster
  import opened Records

  // ---------------------------------------------------------------- calendar

  /** The calendar cell test: on the date, approved, and covering the slot. */
  predicate OnCalendar(x: LeaveRecord, date: string, time: string) {
    && x.date == date
    && x.status == Approved
    && Covers(BoundaryIndex(x.startTime), BoundaryIndex(x.endTime), SlotIndex(time))
  }

  function CalendarTest(date: string, time: string): LeaveRecord -> bool {
    x => OnCalendar(x, date, time)
  }

  /** `getLeavesByDateAndTime`: the approved leaves shown in the calendar cell
      of `date` and the slot starting at `time`. */
  function LeavesAt(records: seq<LeaveRecord>, date: string, time: string): (r: seq<LeaveRecord>)
    ensures forall x :: x in r ==> x.status == Approved
    ensures forall x :: x in r ==>
      && x in records
      && x.date == date
      && BoundaryIndex(x.startTime) <= SlotIndex(time) < BoundaryIndex(x.endTime)
    ensures forall x ::
      (x in records && x.date == date && x.status == Approved &&
       BoundaryIndex(x.startTime) <= SlotIndex(time) < BoundaryIndex(x.endTime)) ==> x in r
  {
    Filter(records, CalendarTest(date, time))
  }

  /** A new record shows up at the end of a cell exactly when it belongs there. */
  lemma LeavesAtAppend(records: seq<LeaveRecord>, x: LeaveRecord, date: string, time: string)
    ensures LeavesAt(records + [x], date, time) ==
      LeavesAt(records, date, time) + (if OnCalendar(x, date, time) then [x] else [])
  {
    FilterSnoc(records, x, CalendarTest(date, time));
  }

  /** Pending and rejected records never influence the calendar: the query
      over the approved records alone gives the same cell. */
  lemma LeavesAtOnlyApproved(records: seq<LeaveRecord>, date: string, time: string)
    ensures LeavesAt(records, date, time) ==
      LeavesAt(Filter(records, (x: LeaveRecord) => x.status == Approved), date, time)
  {
    var approved := (x: LeaveRecord) => x.status == Approved;
    FilterCompose(records, approved, CalendarTest(date, time), CalendarTest(date, time));
  }

  /** For a slot start, the slot position is a boundary position, so the cell
      test is a comparison of three boundary indices. */
  lemma LeavesAtByBoundary(records: seq<LeaveRecord>, date: string, time: string)
    requires time in WorkHours
    ensures forall x :: x in LeavesAt(records, date, time) <==>
      && x in records
      && x.date == date
      && x.status == Approved
      && Covers(BoundaryIndex(x.startTime), BoundaryIndex(x.endTime), BoundaryIndex(time))
  {
    SlotIndexIsBoundaryIndex(time);
  }

  /** A time that is not a slot start (17:30, say) has an empty cell in a
      well-formed store. */
  lemma LeavesAtOffGridEmpty(records: seq<LeaveRecord>, date: string, time: string)
    requires WellFormedStore(records)
    requires time !in WorkHours
    ensures LeavesAt(records, date, time) == []
  {
    assert SlotIndex(time) == -1;
    FilterNone(records, CalendarTest(date, time));
  }

  // ------------------------------------------------------------- proxy tasks

  /** The proxy-task test: on the date, not rejected, owned by a known
      employee whose proxy is `employeeId`, and covering the slot. */
  predicate IsProxyTask(roster: seq<Employee>, x: LeaveRecord, employeeId: string, date: string, time: string) {
    && x.date == date
    && x.status != Rejected
    && (match FindEmployee(roster, x.employeeId)
        case None => false
        case Some(owner) => owner.proxyId == employeeId)
    && Covers(BoundaryIndex(x.startTime), BoundaryIndex(x.endTime), SlotIndex(time))
  }

  function ProxyTaskTest(roster: seq<Employee>, employeeId: string, date: string, time: string): LeaveRecord -> bool {
    x => IsProxyTask(roster, x, employeeId, date, time)
  }

  /** `getProxyTasks`: the pending or approved leaves that `employeeId`
      covers as proxy in the given slot. */
  function ProxyTasks(roster: seq<Employee>, records: seq<LeaveRecord>, employeeId: string, date: string, time: string)
    : (r: seq<LeaveRecord>)
    ensures forall x :: x in r ==> x.status != Rejected
    ensures forall x :: x in r ==>
      && x in records
      && x.date == date
      && ProxyOf(roster, x.employeeId) == Some(employeeId)
      && BoundaryIndex(x.startTime) <= SlotIndex(time) < BoundaryIndex(x.endTime)
    ensures forall x ::
      (x in records && x.date == date && x.status != Rejected &&
       ProxyOf(roster, x.employeeId) == Some(employeeId) &&
       BoundaryIndex(x.startTime) <= SlotIndex(time) < BoundaryIndex(x.endTime)) ==> x in r
  {
    Filter(records, ProxyTaskTest(roster, employeeId, date, time))
  }

  lemma ProxyTasksAppend(roster: seq<Employee>, records: seq<LeaveRecord>, x: LeaveRecord,
                         employeeId: string, date: string, time: string)
    ensures ProxyTasks(roster, records + [x], employeeId, date, time) ==
      ProxyTasks(roster, records, employeeId, date, time) +
      (if IsProxyTask(roster, x, employeeId, date, time) then [x] else [])
  {
    FilterSnoc(records, x, ProxyTaskTest(roster, employeeId, date, time));
  }

  // ---------------------------------------------------------- proxy conflict

  /** One detected conflict: a leave of the proxy and the proxy's name. */
  datatype Conflict = Conflict(leave: LeaveRecord, proxyName: string)

  /** The conflict check reads the proxy's name off the roster; when the proxy
      is not on it that read fails and the check aborts. */
  datatype ConflictFault = ProxyNameUnavailable

  /** A leave of the proxy on the date that is still live. */
  predicate IsProxyLeave(x: LeaveRecord, proxyId: string, date: string) {
    x.employeeId == proxyId && x.date == date && x.status != Rejected
  }

  /** A live leave of the proxy on the date whose interval overlaps [s, e). */
  predicate ConflictsWith(x: LeaveRecord, proxyId: string, date: string, s: int, e: int) {
    IsProxyLeave(x, proxyId, date) && Overlaps(s, e, BoundaryIndex(x.startTime), BoundaryIndex(x.endTime))
  }

  function ConflictTest(proxyId: string, date: string, s: int, e: int): LeaveRecord -> bool {
    x => ConflictsWith(x, proxyId, date, s, e)
  }

  /** The leaves of a list of conflicts. */
  function LeavesOf(cs: seq<Conflict>): (r: seq<LeaveRecord>)
    ensures |r| == |cs|
    ensures forall i :: 0 <= i < |cs| ==> r[i] == cs[i].leave
  {
    seq(|cs|, i requires 0 <= i < |cs| => cs[i].leave)
  }

  /** Pairs each overlapping leave with the proxy's name. */
  function ReportConflicts(roster: seq<Employee>, proxyId: string, overlapping: seq<LeaveRecord>)
    : (r: Result<seq<Conflict>, ConflictFault>)
    ensures r.Err? <==> overlapping != [] && FindEmployee(roster, proxyId).None?
    ensures r.Ok? ==> LeavesOf(r.value) == overlapping
    ensures r.Ok? ==> forall i :: 0 <= i < |r.value| ==>
      FindEmployee(roster, proxyId).Some? && r.value[i].proxyName == FindEmployee(roster, proxyId).value.name
  {
    if overlapping == [] then Ok([])
    else match FindEmployee(roster, proxyId)
      case None => Err(ProxyNameUnavailable)
      case Some(proxy) =>
        Ok(seq(|overlapping|, i requires 0 <= i < |overlapping| => Conflict(overlapping[i], proxy.name)))
  }

  /** `checkProxyConflict`: the live leaves of the requester's proxy on the
      date that overlap the requested interval, in store order. An unknown
      requester or one without a proxy has no conflicts. */
  function CheckProxyConflict(roster: seq<Employee>, records: seq<LeaveRecord>, employeeId: string,
                              date: string, startTime: string, endTime: string)
    : (r: Result<seq<Conflict>, ConflictFault>)
    ensures ActiveProxy(roster, employeeId).None? ==> r == Ok([])
    ensures r.Ok? ==> forall x :: x in LeavesOf(r.value) ==> x.status != Rejected
    ensures ActiveProxy(roster, employeeId).Some? ==>
      r == ReportConflicts(roster, ActiveProxy(roster, employeeId).value,
        Filter(records, ConflictTest(ActiveProxy(roster, employeeId).value, date,
                                     BoundaryIndex(startTime), BoundaryIndex(endTime))))
    ensures r.Ok? ==> forall x :: x in LeavesOf(r.value) ==>
      && ActiveProxy(roster, employeeId).Some?
      && x in records
      && x.employeeId == ActiveProxy(roster, employeeId).value
      && x.date == date
      && Overlaps(BoundaryIndex(startTime), BoundaryIndex(endTime),
                  BoundaryIndex(x.startTime), BoundaryIndex(x.endTime))
    ensures r.Ok? && ActiveProxy(roster, employeeId).Some? ==> forall x ::
      && x in records
      && x.employeeId == ActiveProxy(roster, employeeId).value
      && x.date == date
      && x.status != Rejected
      && Overlaps(BoundaryIndex(startTime), BoundaryIndex(endTime),
                  BoundaryIndex(x.startTime), BoundaryIndex(x.endTime))
      ==> x in LeavesOf(r.value)
  {
    match ActiveProxy(roster, employeeId)
    case None => Ok([])
    case Some(proxyId) =>
      var s := BoundaryIndex(startTime);
      var e := BoundaryIndex(endTime);
      var live := (x: LeaveRecord) => IsProxyLeave(x, proxyId, date);
      var overlaps := (x: LeaveRecord) => Overlaps(s, e, BoundaryIndex(x.startTime), BoundaryIndex(x.endTime));
      var proxyLeaves := Filter(records, live);
      var overlapping := Filter(proxyLeaves, overlaps);
      FilterCompose(records, live, overlaps, ConflictTest(proxyId, date, s, e));
      ReportedLeaves(roster, records, proxyId, date, s, e);
      ReportConflicts(roster, proxyId, overlapping)
  }

  /** The leaves a successful report lists are exactly the stored leaves that
      conflict with [s, e). */
  lemma ReportedLeaves(roster: seq<Employee>, records: seq<LeaveRecord>, proxyId: string,
                       date: string, s: int, e: int)
    ensures var r := ReportConflicts(roster, proxyId, Filter(records, ConflictTest(proxyId, date, s, e)));
      r.Ok? ==> forall x :: x in LeavesOf(r.value) <==> x in records && ConflictsWith(x, proxyId, date, s, e)
  {
    var test := ConflictTest(proxyId, date, s, e);
    var overlapping := Filter(records, test);
    var r := ReportConflicts(roster, proxyId, overlapping);
    if r.Ok? {
      assert LeavesOf(r.value) == overlapping;
      forall x | x in records && ConflictsWith(x, proxyId, date, s, e)
        ensures x in overlapping
      {
        var i :| 0 <= i < |records| && records[i] == x;
        assert test(records[i]);
      }
    }
  }

  /** A conflict is reported exactly when some live leave of the proxy
      overlaps, and the proxy's name can be read. */
  lemma ConflictIffOverlappingLeave(roster: seq<Employee>, records: seq<LeaveRecord>, employeeId: string,
                                    date: string, startTime: string, endTime: string)
    requires ActiveProxy(roster, employeeId).Some?
    ensures var p := ActiveProxy(roster, employeeId).value;
      var r := CheckProxyConflict(roster, records, employeeId, date, startTime, endTime);
      var found := exists x :: x in records && ConflictsWith(x, p, date, BoundaryIndex(startTime), BoundaryIndex(endTime));
      && (r.Err? <==> found && FindEmployee(roster, p).None?)
      && (r.Ok? && r.value != [] <==> found && FindEmployee(roster, p).Some?)
  {
    var p := ActiveProxy(roster, employeeId).value;
    var test := ConflictTest(p, date, BoundaryIndex(startTime), BoundaryIndex(endTime));
    if exists x :: x in records && ConflictsWith(x, p, date, BoundaryIndex(startTime), BoundaryIndex(endTime)) {
      var x :| x in records && ConflictsWith(x, p, date, BoundaryIndex(startTime), BoundaryIndex(endTime));
      var i :| 0 <= i < |records| && records[i] == x;
      assert test(records[i]);
      assert x in Filter(records, test);
    } else {
      FilterNone(records, test);
    }
  }

  /** Adding a rejected leave anywhere in the store changes no conflict
      check: a rejected proxy leave never produces a conflict. */
  lemma RejectedLeaveNeverConflicts(roster: seq<Employee>, before: seq<LeaveRecord>, x: LeaveRecord,
                                    after: seq<LeaveRecord>, employeeId: string, date: string,
                                    startTime: string, endTime: string)
    requires x.status == Rejected
    ensures CheckProxyConflict(roster, before + [x] + after, employeeId, date, startTime, endTime) ==
            CheckProxyConflict(roster, before + after, employeeId, date, startTime, endTime)
  {
    if ActiveProxy(roster, employeeId).Some? {
      var p := ActiveProxy(roster, employeeId).value;
      var test := ConflictTest(p, date, BoundaryIndex(startTime), BoundaryIndex(endTime));
      assert !test(x);
      FilterSkip(before, x, after, test);
      assert CheckProxyConflict(roster, before + [x] + after, employeeId, date, startTime, endTime) ==
             ReportConflicts(roster, p, Filter(before + [x] + after, test));
      assert CheckProxyConflict(roster, before + after, employeeId, date, startTime, endTime) ==
             ReportConflicts(roster, p, Filter(before + after, test));
    }
  }
}
