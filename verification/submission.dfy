/** Filing a leave request (`handleLeaveSubmit`): validate the form, check
    the proxy for conflicts, pass the confirmation gate, choose a status and
    append the record. The operator's answer to the confirmation dialog, the
    new record's id and its timestamp are parameters. */
module Submission {
  import opened Wrappers
  import opened Times
  import opened Roster
  import opened Records
  import opened Queries

  /** The fields of the leave form. */
  datatype LeaveForm = LeaveForm(
    employeeId: string,
    leaveDate: string,
    startTime: string,
    endTime: string,
    reason: string)

  /** Why a submission appended nothing. */
  datatype SubmitError =
    | IncompleteForm        // date, a time or the reason is empty
    | UnknownTime           // a time is not a catalog boundary
    | EndNotAfterStart      // the end boundary is not after the start
    | ConflictCheckFailed   // the proxy's name could not be read
    | Declined              // the submitter cancelled at the confirmation
    | RequesterNotOnRoster  // the requester's name could not be read

  /** The store after a submission, and either the new record or the reason
      nothing was appended. */
  datatype Submitted = Submitted(records: seq<LeaveRecord>, outcome: Result<LeaveRecord, SubmitError>)

  predicate Complete(form: LeaveForm) {
    form.leaveDate != "" && form.startTime != "" && form.endTime != "" && form.reason != ""
  }

  /** The three input checks, in the order the form applies them; the
      contract restates them in clock time. */
  function Validate(form: LeaveForm): (r: Option<SubmitError>)
    ensures r == Some(IncompleteForm) <==> !Complete(form)
    ensures r == Some(UnknownTime) <==>
      Complete(form) && (form.startTime !in AllTimes || form.endTime !in AllTimes)
    ensures r == Some(EndNotAfterStart) <==>
      && Complete(form) && form.startTime in AllTimes && form.endTime in AllTimes
      && ClockMinutes(form.endTime) <= ClockMinutes(form.startTime)
    ensures r == None <==>
      && Complete(form) && form.startTime in AllTimes && form.endTime in AllTimes
      && ClockMinutes(form.startTime) < ClockMinutes(form.endTime)
    ensures r == None ==> 0 <= BoundaryIndex(form.startTime) < BoundaryIndex(form.endTime)
  {
    if !Complete(form) then Some(IncompleteForm)
    else
      var s := BoundaryIndex(form.startTime);
      var e := BoundaryIndex(form.endTime);
      if s == -1 || e == -1 then Some(UnknownTime)
      else if e <= s then (LeaveHoursIsDuration(form.startTime, form.endTime); Some(EndNotAfterStart))
      else (LeaveHoursIsDuration(form.startTime, form.endTime); None)
  }

  /** `handleLeaveSubmit`. A record is appended, approved when the proxy has
      no overlapping live leave and pending with special approval when it has
      one and the submitter confirms; every other path leaves the store as it
      was. */
  function Submit(roster: seq<Employee>, records: seq<LeaveRecord>, form: LeaveForm,
                  confirmed: bool, newId: string, appliedAt: string): (r: Submitted)
    ensures r.outcome.Err? ==> r.records == records
    ensures r.outcome.Ok? ==> r.records == records + [r.outcome.value]
    ensures Validate(form).Some? ==> r.outcome == Err(Validate(form).value)
    ensures r.outcome.Ok? ==>
      var x := r.outcome.value;
      && WellFormed(x)
      && x.status != Rejected
      && (x.status == Pending <==> x.needsSpecialApproval)
      && x.id == newId && x.appliedAt == appliedAt
      && x.employeeId == form.employeeId && x.date == form.leaveDate
      && x.startTime == form.startTime && x.endTime == form.endTime && x.reason == form.reason
      && x.rejectReason == None
      && FindEmployee(roster, form.employeeId).Some?
      && x.employeeName == FindEmployee(roster, form.employeeId).value.name
  {
    match Validate(form)
    case Some(err) => Submitted(records, Err(err))
    case None =>
      match CheckProxyConflict(roster, records, form.employeeId, form.leaveDate, form.startTime, form.endTime)
      case Err(_) => Submitted(records, Err(ConflictCheckFailed))
      case Ok(conflicts) =>
        if |conflicts| > 0 && !confirmed then Submitted(records, Err(Declined))
        else match FindEmployee(roster, form.employeeId)
          case None => Submitted(records, Err(RequesterNotOnRoster))
          case Some(employee) =>
            var special := |conflicts| > 0;
            var x := LeaveRecord(newId, form.employeeId, employee.name, form.leaveDate,
                                 form.startTime, form.endTime, form.reason,
                                 if special then Pending else Approved, special, None, appliedAt);
            Submitted(records + [x], Ok(x))
  }

  /** A stored leave that conflicts with the interval the form asks for. */
  predicate ConflictsWithForm(x: LeaveRecord, proxyId: string, form: LeaveForm) {
    ConflictsWith(x, proxyId, form.leaveDate, BoundaryIndex(form.startTime), BoundaryIndex(form.endTime))
  }

  /** No live overlapping leave of the proxy: the request is approved at once. */
  lemma SubmitApprovesWithoutConflict(roster: seq<Employee>, records: seq<LeaveRecord>, form: LeaveForm,
                                      confirmed: bool, newId: string, appliedAt: string)
    requires Validate(form).None?
    requires FindEmployee(roster, form.employeeId).Some?
    requires ActiveProxy(roster, form.employeeId).Some? ==>
      forall x :: x in records ==> !ConflictsWithForm(x, ActiveProxy(roster, form.employeeId).value, form)
    ensures var r := Submit(roster, records, form, confirmed, newId, appliedAt);
      && r.outcome.Ok?
      && r.outcome.value.status == Approved
      && !r.outcome.value.needsSpecialApproval
      && r.records == records + [r.outcome.value]
  {
    if ActiveProxy(roster, form.employeeId).Some? {
      ConflictIffOverlappingLeave(roster, records, form.employeeId, form.leaveDate, form.startTime, form.endTime);
    }
  }

  /** A live overlapping leave of the proxy and a confirmation: the request is
      filed as pending with special approval. */
  lemma SubmitPendingOnConfirmedConflict(roster: seq<Employee>, records: seq<LeaveRecord>, form: LeaveForm,
                                         newId: string, appliedAt: string)
    requires Validate(form).None?
    requires FindEmployee(roster, form.employeeId).Some?
    requires ActiveProxy(roster, form.employeeId).Some?
    requires FindEmployee(roster, ActiveProxy(roster, form.employeeId).value).Some?
    requires exists x :: x in records && ConflictsWithForm(x, ActiveProxy(roster, form.employeeId).value, form)
    ensures var r := Submit(roster, records, form, true, newId, appliedAt);
      && r.outcome.Ok?
      && r.outcome.value.status == Pending
      && r.outcome.value.needsSpecialApproval
      && r.records == records + [r.outcome.value]
  {
    ConflictIffOverlappingLeave(roster, records, form.employeeId, form.leaveDate, form.startTime, form.endTime);
  }

  /** A live overlapping leave of the proxy and a refusal at the confirmation:
      nothing is appended. */
  lemma SubmitDeclinedAppendsNothing(roster: seq<Employee>, records: seq<LeaveRecord>, form: LeaveForm,
                                     newId: string, appliedAt: string)
    requires Validate(form).None?
    requires ActiveProxy(roster, form.employeeId).Some?
    requires FindEmployee(roster, ActiveProxy(roster, form.employeeId).value).Some?
    requires exists x :: x in records && ConflictsWithForm(x, ActiveProxy(roster, form.employeeId).value, form)
    ensures Submit(roster, records, form, false, newId, appliedAt) == Submitted(records, Err(Declined))
  {
    ConflictIffOverlappingLeave(roster, records, form.employeeId, form.leaveDate, form.startTime, form.endTime);
  }

  /** An employee who is not on the roster files nothing: the source fails
      when it reads the requester's name for the new record. */
  lemma SubmitUnknownRequesterAppendsNothing(roster: seq<Employee>, records: seq<LeaveRecord>, form: LeaveForm,
                                             confirmed: bool, newId: string, appliedAt: string)
    requires Validate(form).None?
    requires forall e :: e in roster ==> e.id != form.employeeId
    ensures Submit(roster, records, form, confirmed, newId, appliedAt) == Submitted(records, Err(RequesterNotOnRoster))
  {
    assert FindEmployee(roster, form.employeeId).None?;
  }

  /** A rejected leave anywhere in the store changes no submission. */
  lemma SubmitIgnoresRejectedLeave(roster: seq<Employee>, before: seq<LeaveRecord>, x: LeaveRecord,
                                   after: seq<LeaveRecord>, form: LeaveForm, confirmed: bool,
                                   newId: string, appliedAt: string)
    requires x.status == Rejected
    ensures Submit(roster, before + [x] + after, form, confirmed, newId, appliedAt).outcome ==
            Submit(roster, before + after, form, confirmed, newId, appliedAt).outcome
  {
    RejectedLeaveNeverConflicts(roster, before, x, after, form.employeeId, form.leaveDate,
                                form.startTime, form.endTime);
  }

  /** Submission keeps every record of the store well formed. */
  lemma SubmitPreservesWellFormed(roster: seq<Employee>, records: seq<LeaveRecord>, form: LeaveForm,
                                  confirmed: bool, newId: string, appliedAt: string)
    requires WellFormedStore(records)
    ensures WellFormedStore(Submit(roster, records, form, confirmed, newId, appliedAt).records)
  {
    var r := Submit(roster, records, form, confirmed, newId, appliedAt);
    if r.outcome.Ok? {
      var x := r.outcome.value;
      forall i | 0 <= i < |r.records|
        ensures WellFormed(r.records[i])
      {
        if i < |records| {
          assert r.records[i] == records[i];
        } else {
          assert r.records[i] == x;
        }
      }
    }
  }
}
