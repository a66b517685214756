/** Leave records as the store holds them. */
module Records {
  import opened Wrappers
  import opened Times

  datatype Status = Pending | Approved | Rejected

  /** One stored leave request. Times are kept as the catalog strings the
      form submitted; `rejectReason` is set by a manager's rejection. */
  datatype LeaveRecord = LeaveRecord(
    id: string,
    employeeId: string,
    employeeName: string,
    date: string,
    startTime: string,
    endTime: string,
    reason: string,
    status: Status,
    needsSpecialApproval: bool,
    rejectReason: Option<string>,
    appliedAt: string)

  /** What every record written by the engine satisfies: complete fields,
      a non-empty interval of catalog boundaries, pending only when special
      approval is needed, and a non-empty reason on every rejection. */
  predicate WellFormed(x: LeaveRecord) {
    && x.date != ""
    && x.reason != ""
    && 0 <= BoundaryIndex(x.startTime) < BoundaryIndex(x.endTime)
    && (x.status == Pending ==> x.needsSpecialApproval)
    && (x.status == Rejected ==> x.rejectReason.Some?)
    && (x.rejectReason.Some? ==> x.rejectReason.value != "")
  }

  predicate WellFormedStore(records: seq<LeaveRecord>) {
    forall i :: 0 <= i < |records| ==> WellFormed(records[i])
  }
}
