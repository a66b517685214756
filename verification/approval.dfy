/** The manager's transitions (`approveLeave`, `rejectLeave`): point updates
    of the first record with a given id. Neither guards on the current status.
    The rejection reason typed into the prompt is a parameter: `None` when the
    prompt was dismissed. */
module Approval {
  import opened Wrappers
  import opened Seqs
  import opened Times
  import opened Roster
  import opened Records
  import opened Queries

  /** Position `j` holds the first record with id `id` (what `records.find` returns). */
  predicate FirstWithId(records: seq<LeaveRecord>, j: int, id: string)
    requires 0 <= j < |records|
  {
    records[j].id == id && forall k :: 0 <= k < j ==> records[k].id != id
  }

  /** Position of the first record with id `id`, -1 when there is none. */
  function RecordIndex(records: seq<LeaveRecord>, id: string): (r: int)
    ensures -1 <= r < |records|
    ensures r == -1 <==> forall j :: 0 <= j < |records| ==> records[j].id != id
    ensures 0 <= r ==> FirstWithId(records, r, id)
  {
    FindIndex(records, (x: LeaveRecord) => x.id == id)
  }

  /** Only the first record with a given id can be it. */
  lemma FirstWithIdUnique(records: seq<LeaveRecord>, id: string, j: int)
    requires 0 <= j < |records|
    ensures FirstWithId(records, j, id) <==> j == RecordIndex(records, id)
  {
  }

  /** `approveLeave`: the first record with the id becomes approved; every
      other record, and every other field, is unchanged. */
  function Approve(records: seq<LeaveRecord>, id: string): (r: seq<LeaveRecord>)
    ensures |r| == |records|
    ensures forall j :: 0 <= j < |records| ==>
      r[j] == if FirstWithId(records, j, id) then records[j].(status := Approved) else records[j]
  {
    var i := RecordIndex(records, id);
    if i < 0 then records
    else
      assert forall j :: 0 <= j < |records| ==> (FirstWithId(records, j, id) <==> j == i);
      records[i := records[i].(status := Approved)]
  }

  /** A usable rejection reason: the prompt was answered with some text. */
  predicate Given(reason: Option<string>) {
    reason.Some? && reason.value != ""
  }

  /** `rejectLeave`: without a reason nothing happens; otherwise the first
      record with the id becomes rejected and keeps the reason, and nothing
      else changes. */
  function Reject(records: seq<LeaveRecord>, id: string, reason: Option<string>): (r: seq<LeaveRecord>)
    ensures !Given(reason) ==> r == records
    ensures |r| == |records|
    ensures Given(reason) ==> forall j :: 0 <= j < |records| ==>
      r[j] == if FirstWithId(records, j, id)
              then records[j].(status := Rejected, rejectReason := reason)
              else records[j]
  {
    if !Given(reason) then records
    else
      var i := RecordIndex(records, id);
      if i < 0 then records
      else
        assert forall j :: 0 <= j < |records| ==> (FirstWithId(records, j, id) <==> j == i);
        records[i := records[i].(status := Rejected, rejectReason := reason)]
  }

  /** An unknown id leaves the store unchanged, for either transition. */
  lemma UnknownIdChangesNothing(records: seq<LeaveRecord>, id: string, reason: Option<string>)
    requires forall x :: x in records ==> x.id != id
    ensures Approve(records, id) == records
    ensures Reject(records, id, reason) == records
  {
    assert RecordIndex(records, id) == -1;
  }

  /** A transition keeps every id where it was, so the same record is found again. */
  lemma ApproveKeepsIds(records: seq<LeaveRecord>, id: string)
    ensures RecordIndex(Approve(records, id), id) == RecordIndex(records, id)
  {
    var a := Approve(records, id);
    assert forall j :: 0 <= j < |records| ==> a[j].id == records[j].id;
  }

  /** Approving twice is approving once. */
  lemma {:induction false} ApproveIdempotent(records: seq<LeaveRecord>, id: string)
    ensures Approve(Approve(records, id), id) == Approve(records, id)
  {
    var a := Approve(records, id);
    ApproveKeepsIds(records, id);
    var i := RecordIndex(records, id);
    forall j | 0 <= j < |a|
      ensures Approve(a, id)[j] == a[j]
    {
      FirstWithIdUnique(a, id, j);
      FirstWithIdUnique(records, id, j);
    }
  }

  /** Rejecting twice with the same reason is rejecting once. */
  lemma {:induction false} RejectIdempotent(records: seq<LeaveRecord>, id: string, reason: Option<string>)
    ensures Reject(Reject(records, id, reason), id, reason) == Reject(records, id, reason)
  {
    var r := Reject(records, id, reason);
    if Given(reason) {
      assert forall j :: 0 <= j < |records| ==> r[j].id == records[j].id;
      forall j | 0 <= j < |r|
        ensures Reject(r, id, reason)[j] == r[j]
      {
        FirstWithIdUnique(r, id, j);
        FirstWithIdUnique(records, id, j);
      }
    }
  }

  /** Approval keeps the store well formed. */
  lemma ApprovePreservesWellFormed(records: seq<LeaveRecord>, id: string)
    requires WellFormedStore(records)
    ensures WellFormedStore(Approve(records, id))
  {
    var a := Approve(records, id);
    forall j | 0 <= j < |a|
      ensures WellFormed(a[j])
    {
      var x := records[j];
      assert WellFormed(x);
      assert a[j].date == x.date && a[j].reason == x.reason;
      assert a[j].startTime == x.startTime && a[j].endTime == x.endTime;
    }
  }

  /** Rejection keeps the store well formed: the reason it stores is non-empty. */
  lemma RejectPreservesWellFormed(records: seq<LeaveRecord>, id: string, reason: Option<string>)
    requires WellFormedStore(records)
    ensures WellFormedStore(Reject(records, id, reason))
  {
    var r := Reject(records, id, reason);
    if Given(reason) {
      forall j | 0 <= j < |r|
        ensures WellFormed(r[j])
      {
        var x := records[j];
        assert WellFormed(x);
        if FirstWithId(records, j, id) {
          assert r[j] == x.(status := Rejected, rejectReason := reason);
        } else {
          assert r[j] == x;
        }
      }
    }
  }

  /** Once approved, a leave shows on the calendar in every slot it covers. */
  lemma ApprovedLeaveShowsOnCalendar(records: seq<LeaveRecord>, id: string, t: int)
    requires 0 <= RecordIndex(records, id)
    requires WellFormed(records[RecordIndex(records, id)])
    requires 0 <= t < |WorkHours|
    requires Covers(BoundaryIndex(records[RecordIndex(records, id)].startTime),
                    BoundaryIndex(records[RecordIndex(records, id)].endTime), t)
    ensures var x := Approve(records, id)[RecordIndex(records, id)];
      x.status == Approved && x in LeavesAt(Approve(records, id), x.date, WorkHours[t])
  {
    var i := RecordIndex(records, id);
    var a := Approve(records, id);
    BoundaryIndexRoundTrip(t);
    SlotIndexIsBoundaryIndex(WorkHours[t]);
    WorkHoursArePrefix();
    assert AllTimes[t] == WorkHours[t];
    assert a[i] in a;
  }

  /** A rejected leave is withdrawn from the conflict check: the store after
      the rejection checks like the store without that record. */
  lemma RejectWithdrawsFromConflicts(roster: seq<Employee>, records: seq<LeaveRecord>, id: string,
                                     reason: Option<string>, employeeId: string, date: string,
                                     startTime: string, endTime: string)
    requires Given(reason)
    requires 0 <= RecordIndex(records, id)
    ensures var i := RecordIndex(records, id);
      CheckProxyConflict(roster, Reject(records, id, reason), employeeId, date, startTime, endTime) ==
      CheckProxyConflict(roster, records[..i] + records[i + 1..], employeeId, date, startTime, endTime)
  {
    var i := RecordIndex(records, id);
    var r := Reject(records, id, reason);
    FirstWithIdUnique(records, id, i);
    assert r == records[..i] + [r[i]] + records[i + 1..];
    RejectedLeaveNeverConflicts(roster, records[..i], r[i], records[i + 1..], employeeId, date, startTime, endTime);
  }

  /** Neither transition guards on status: approving a rejected leave makes it
      approved again, and it keeps its rejection reason. */
  lemma ApproveAfterRejectKeepsReason(records: seq<LeaveRecord>, id: string, reason: Option<string>)
    requires Given(reason)
    requires 0 <= RecordIndex(records, id)
    ensures var i := RecordIndex(records, id);
      var x := Approve(Reject(records, id, reason), id)[i];
      x.status == Approved && x.rejectReason == reason
  {
    var i := RecordIndex(records, id);
    var r := Reject(records, id, reason);
    FirstWithIdUnique(records, id, i);
    assert forall j :: 0 <= j < |records| ==> r[j].id == records[j].id;
    FirstWithIdUnique(r, id, i);
  }
}
