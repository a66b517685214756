# Leave scheduling engine — a Dafny model

This project models the core of a department leave-management page (`app.js`).
Employees file one-hour-granular leave requests. A request is approved at once
unless the requester's proxy (the colleague who covers for them) is already on
leave at an overlapping time. In that case the requester must confirm, and the
request waits as *pending* for a manager, who approves or rejects it. The
engine answers three queries over the store:
- **Calendar query** (`getLeavesByDateAndTime`): the approved leaves in one
  cell per date and one-hour slot. This is the only query the page renders
  (app.js:410).
- **Proxy-task query** (`getProxyTasks`): the leaves a given employee covers as
  proxy. Nothing in app.js calls it. It is modelled because it belongs to the
  engine's interface.
- **Conflict check** (`checkProxyConflict`): the proxy's leaves that overlap a
  new request. Its result is not displayed. It only decides whether the
  submission asks for confirmation and is filed as pending (app.js:482-495).

The store is modelled as a `seq<LeaveRecord>` and the roster as a
`seq<Employee>`. Every operation is a pure function from the stores and its
inputs to a result.

| file | module | contents |
|---|---|---|
| `wrappers.dfy` | `Wrappers` | `Option` and `Result` |
| `seqs.dfy` | `Seqs` | `FindIndex`/`IndexOf` (the first match or -1, as in `find`/`indexOf`) and `Filter` (order-preserving), with their algebra |
| `times.dfy` | `Times` | the time catalog (`ALL_TIMES`, `WORK_HOURS`), boundary and slot positions, the half-open coverage and overlap tests, clock minutes, and the form's hour count |
| `roster.dfy` | `Roster` | `Employee`, the default roster, employee and proxy lookup |
| `records.dfy` | `Records` | `Status`, `LeaveRecord`, and the well-formedness every written record satisfies |
| `queries.dfy` | `Queries` | the calendar query, the proxy-task query and the proxy-conflict check |
| `submission.dfy` | `Submission` | form validation and `handleLeaveSubmit` |
| `approval.dfy` | `Approval` | `approveLeave` and `rejectLeave` |
| `scenarios.dfy` | `Scenarios` | worked runs over the default roster |

Interaction with the world becomes parameters:
- the operator's answer to the confirmation dialog is a `bool`;
- the text typed into the rejection prompt is an `Option<string>`, with `None` for a dismissed prompt;
- the new record's id (from `Date.now()`) and its timestamp (from `toISOString()`) are strings passed in.

Dates are opaque strings compared for equality. An employee's `proxyId` is the
empty string when no proxy is set, which matches the source's truthiness test.

Where the source throws, the model returns an error value and leaves the store
unchanged, which is what the aborted handler leaves behind. There are two such
places:
- **The proxy is missing from the roster.** A conflict exists, but the proxy's
  name cannot be read (app.js:194). The model returns `Err(ProxyNameUnavailable)`,
  which `Submit` reports as `ConflictCheckFailed`.
- **The requester is missing from the roster.** The requester's name cannot be
  read for the new record (app.js:501). `Submit` reports this as
  `RequesterNotOnRoster`.

## Model

| member | source | states |
|---|---|---|
| Seqs.FindIndex | app.js:59-62 | the first position whose element matches, or -1 exactly when none matches (what `find` locates) |
| Seqs.IndexOf | app.js:129-131 | the first position of the value, or -1 exactly when it does not occur (`indexOf`) |
| Seqs.IndexOfPrefix | app.js:129-131 | searching a prefix finds the whole-sequence position when it lies inside the prefix, and -1 otherwise |
| Seqs.Filter | app.js:178-183 | the result holds only elements of the input that match, and holds every matching element (`filter`) |
| Seqs.FilterConcat | app.js:124-134 | filtering distributes over concatenation, so results keep store order |
| Seqs.FilterSnoc | app.js:142-156 | a record appended to the store is appended to a query's result exactly when it matches |
| Seqs.FilterCompose | app.js:178-197 | filtering the proxy's live leaves and then the overlapping ones is a single filter on the conjunction |
| Seqs.FilterNone | app.js:186-199 | a filter that matches nothing gives the empty list |
| Times.BoundaryIndex | app.js:10-13 | the position of a time among the ten boundaries, or -1 exactly when it is not a boundary |
| Times.SlotIndex | app.js:4-7 | the position of a time among the nine slot starts, or -1 exactly when it is not one |
| Times.CatalogIsHourly | app.js:4-13 | boundary i is the clock time 08:30 plus i hours |
| Times.BoundaryMinutes | app.js:10-13 | one boundary's clock time, in minutes |
| Times.CatalogIncreasing | app.js:10-13 | the boundaries strictly increase in clock time and are pairwise distinct |
| Times.BoundaryIndexRoundTrip | app.js:10-13 | looking a boundary up gives back its position |
| Times.WorkHoursArePrefix | app.js:4-13 | the slot starts are exactly the boundaries without the closing 17:30 |
| Times.SlotIndexIsBoundaryIndex | app.js:129-133 | a time's slot position equals its boundary position whenever it is a slot start, and is -1 otherwise, so slot and boundary positions can be compared |
| Times.OverlapsSymmetric | app.js:191 | the overlap test gives the same answer with the two intervals swapped |
| Times.TouchingNeverOverlaps | app.js:191 | an interval ending where another begins does not conflict with it |
| Times.OverlapsIffSharedSlot | app.js:191 | two non-empty intervals pass the overlap test exactly when some slot lies in both |
| Times.LeaveHours | app.js:330-344 | nothing is shown while a picker is empty, and a shown hour count is positive |
| Times.LeaveHoursIsDuration | app.js:330-344 | for catalog times, an hour count is shown exactly when the end is later on the clock, and it equals the clock duration in hours |
| Times.SlotsCovered | app.js:129-133 | exactly the slot positions a leave's interval covers |
| Times.CoveredCount | app.js:129-133 | how many of the first n slots a [s, e) leave covers |
| Times.LeaveHoursCountsSlots | app.js:330-344 | the form's hour count equals the number of calendar slots the leave will occupy |
| Roster.FindEmployee | app.js:59-62 | nothing exactly when no employee has the id; otherwise the first roster entry with that id |
| Roster.ProxyOf | app.js:64-67 | nothing exactly for an unknown employee; otherwise the proxy id of the first roster entry with that id, as the lookup stops at the first match |
| Roster.ActiveProxy | app.js:163-168 | a non-empty proxy id of a known employee; nothing when the employee is unknown or has no proxy set |
| Roster.FindEmployeeOwnId | app.js:59-62 | with unique ids, looking an employee's id up finds that employee |
| Roster.DefaultRosterIds | app.js:17-28 | the default ids are the letters A to J, in order |
| Roster.DefaultRosterPairsProxies | app.js:17-28 | default ids are unique, nobody is their own proxy, and the proxy of one's proxy is oneself |
| Queries.LeavesAt | app.js:120-135 | a record is in a calendar cell exactly when it is in the store, on the date, approved, and covers the slot; pending and rejected leaves never appear |
| Queries.LeavesAtAppend | app.js:120-135 | a new record extends a cell at its end exactly when it belongs there |
| Queries.LeavesAtOnlyApproved | app.js:124-128 | running the query on the approved records alone gives the same cell |
| Queries.LeavesAtByBoundary | app.js:129-133 | for a slot start, the cell test compares the slot's boundary position with the leave's boundaries |
| Queries.LeavesAtOffGridEmpty | app.js:131-133 | a time that is not a slot start has an empty cell in a well-formed store |
| Queries.ProxyTasks | app.js:137-159 | a record is listed exactly when it is on the date, is not rejected, has an owner on the roster whose proxy is the given employee, and covers the slot |
| Queries.ProxyTasksAppend | app.js:142-156 | a new record extends the proxy-task list at its end exactly when it is a proxy task of the employee |
| Queries.ReportConflicts | app.js:186-199 | the conflicts pair the overlapping leaves in order with the proxy's name; the report fails exactly when there is an overlap and the proxy is not on the roster |
| Queries.CheckProxyConflict | app.js:162-200 | no conflicts without an active proxy; otherwise the result holds exactly the proxy's non-rejected leaves on the date whose interval overlaps the request, in store order |
| Queries.ConflictIffOverlappingLeave | app.js:178-197 | the check fails or reports conflicts exactly when some live leave of the proxy overlaps the request; which of the two depends on whether the proxy is on the roster |
| Queries.RejectedLeaveNeverConflicts | app.js:181 | inserting a rejected leave anywhere in the store changes no conflict check |
| Submission.Validate | app.js:463-479 | the first failing check, in order: incomplete form, a time not in the catalog, an end not later on the clock than the start; success exactly when the form is complete and the times are catalog times with the end later |
| Submission.Submit | app.js:453-525 | a validation error appends nothing; any failure leaves the store as it was; success appends exactly one record at the end, carrying the form's fields, the given id and timestamp, and the requester's roster name; that record is well formed, is never rejected, and is pending exactly when it needs special approval |
| Submission.SubmitApprovesWithoutConflict | app.js:484-485 | a valid request from a rostered employee whose proxy has no overlapping live leave is appended as approved, with no special approval |
| Submission.SubmitPendingOnConfirmedConflict | app.js:487-495 | with an overlapping live proxy leave and a confirmation, the request is appended as pending with special approval |
| Submission.SubmitDeclinedAppendsNothing | app.js:487-492 | with an overlapping live proxy leave and a refusal, the store is unchanged |
| Submission.SubmitUnknownRequesterAppendsNothing | app.js:457-501 | a valid request from an employee not on the roster appends nothing |
| Submission.SubmitIgnoresRejectedLeave | app.js:178-183 | a rejected leave anywhere in the store does not change any submission's outcome |
| Submission.SubmitPreservesWellFormed | app.js:497-512 | submission keeps every record in the store well formed |
| Approval.RecordIndex | app.js:573 | the position of the first record with the id, or -1 exactly when no record has it |
| Approval.FirstWithIdUnique | app.js:573 | the first record with an id is the one the lookup returns, and no other position is |
| Approval.Approve | app.js:571-582 | the first record with the id becomes approved; every other record, and every other field, stays as it was |
| Approval.Reject | app.js:584-599 | without a non-empty reason the store is unchanged; otherwise the first record with the id becomes rejected and keeps the reason, and nothing else changes |
| Approval.UnknownIdChangesNothing | app.js:575-591 | an id that no record carries leaves the store unchanged under either transition |
| Approval.ApproveKeepsIds | app.js:571-582 | after approval the same record is found under the id |
| Approval.ApproveIdempotent | app.js:571-582 | approving twice is approving once |
| Approval.RejectIdempotent | app.js:584-599 | rejecting twice with the same reason is rejecting once |
| Approval.ApprovePreservesWellFormed | app.js:571-582 | approval keeps every record in the store well formed |
| Approval.RejectPreservesWellFormed | app.js:584-599 | rejection keeps every record in the store well formed |
| Approval.ApprovedLeaveShowsOnCalendar | app.js:571-582 | once approved, a well-formed leave appears in the calendar cell of every slot it covers |
| Approval.RejectWithdrawsFromConflicts | app.js:584-599 | after rejection the conflict check behaves as if that record were gone from the store |
| Approval.ApproveAfterRejectKeepsReason | app.js:571-599 | approving a rejected leave makes it approved again, and it keeps its rejection reason |
| Scenarios.DefaultProxies | app.js:17-28 | in the default roster A and B are found and are each other's active proxy |
| Scenarios.FormsAreValid | app.js:463-479 | the two sample forms pass validation |
| Scenarios.DefaultRosterPairsAB | app.js:17-28 | the default roster pairs A and B |
| Scenarios.FirstRequestApproved | app.js:484-512 | A's first request, 09:30 to 11:30, into an empty store is approved and is the only record |
| Scenarios.SecondRequestPending | app.js:487-512 | with A's approved 09:30 to 11:30 leave on file, B's confirmed 10:30 to 12:30 request on the same date is filed as pending with special approval |
| Scenarios.OverlappingProxyPair | app.js:453-525 | the two submissions in sequence end with two records, the second pending with special approval |

## Left out

- Storage: `localStorage`, JSON and the `initialize*`/`get*`/`save*` functions (app.js:16-57) are I/O. The stores are plain sequences, and the default roster is a constant.
- Calendar arithmetic: `getWeeksInMonth`, `getWorkDaysInWeek`, `formatDate` and `formatDateDisplay` (app.js:70-117) depend on the host calendar and timezone. Dates are opaque strings.
- Date mismatch: the submitted date is parsed with `new Date('YYYY-MM-DD')` (app.js:481), which reads it as UTC midnight. `formatDate` then prints it in local time (app.js:170). West of UTC, the conflict check therefore looks at the day before the stored `leaveDate`. The model compares the same opaque date on both sides and does not reproduce the shift.
- Page code: the DOM and UI code (tab setup, option building, `renderCalendar`, `updateApprovalList`, `updateEmployeeList`, the modal, and every `alert`) is view glue with no decision logic.
- `editEmployee` (app.js:624-677) is not modelled as an operation. It changes the object found by `getEmployeeById`, which comes from its own parse of the store, and then saves the separately parsed `employees` array (app.js:670). As written, the edit is not persisted.
- Submit: the new record's id comes from `Date.now()` and its timestamp from `toISOString()`. Both are parameters, so nothing here ensures that ids are unique. Two submissions in the same millisecond would share an id, and the transitions would then act only on the first of them.
- Submit: the proxy name in the confirmation message is read a second time (app.js:488). This read cannot fail once the conflict check has succeeded, so it is not modelled separately.
- Error values: the engine raises no `NotFoundError` for an unknown record id. Approving or rejecting such an id silently does nothing, and `UnknownIdChangesNothing` states exactly that.
- Requester checks: the source does not check that the requester is on the roster before it checks for conflicts. The only failure is the crash when it reads the name (app.js:501), which happens after the confirmation gate.
- Reject reason: `rejectReason` is not cleared when a rejected leave is approved again, although a reason is expected only on rejected leaves. The model follows the code; see `ApproveAfterRejectKeepsReason`.
- Scenarios: no scenario runs a rejection followed by a new request. `RejectWithdrawsFromConflicts` and `SubmitIgnoresRejectedLeave` state that case for all inputs.
