/** Worked runs of the engine over the default roster, where A and B are each
    other's proxy. */
module Scenarios {
  import opened Wrappers
  import opened Times
  import opened Roster
  import opened Records
  import opened Submission

  const FormA := LeaveForm("A", "2024-06-03", "09:30", "11:30", "family")
  const FormB := LeaveForm("B", "2024-06-03", "10:30", "12:30", "doctor")

  lemma DefaultProxies()
    ensures FindEmployee(DefaultRoster, "A") == Some(DefaultRoster[0])
    ensures FindEmployee(DefaultRoster, "B") == Some(DefaultRoster[1])
    ensures ActiveProxy(DefaultRoster, "A") == Some("B")
    ensures ActiveProxy(DefaultRoster, "B") == Some("A")
  {
    DefaultRosterPairsProxies();
    FindEmployeeOwnId(DefaultRoster, 0);
    FindEmployeeOwnId(DefaultRoster, 1);
  }

  lemma TimeIndices()
    ensures BoundaryIndex("09:30") == 1 && BoundaryIndex("11:30") == 3
    ensures BoundaryIndex("10:30") == 2 && BoundaryIndex("12:30") == 4
  {
    assert AllTimes[1] == "09:30";
    assert AllTimes[2] == "10:30";
    assert AllTimes[3] == "11:30";
    assert AllTimes[4] == "12:30";
    BoundaryIndexRoundTrip(1);
    BoundaryIndexRoundTrip(2);
    BoundaryIndexRoundTrip(3);
    BoundaryIndexRoundTrip(4);
  }

  lemma FormsAreValid()
    ensures Validate(FormA).None? && Validate(FormB).None?
    ensures BoundaryIndex("09:30") == 1 && BoundaryIndex("11:30") == 3
    ensures BoundaryIndex("10:30") == 2 && BoundaryIndex("12:30") == 4
  {
    TimeIndices();
    assert Complete(FormA) && Complete(FormB);
  }

  /** What the scenarios need from a roster: A and B are on it and are each
      other's proxy. */
  predicate PairsAB(roster: seq<Employee>) {
    && FindEmployee(roster, "A").Some?
    && FindEmployee(roster, "B").Some?
    && ActiveProxy(roster, "A") == Some("B")
    && ActiveProxy(roster, "B") == Some("A")
  }

  lemma DefaultRosterPairsAB()
    ensures PairsAB(DefaultRoster)
  {
    DefaultProxies();
  }

  /** A files 09:30-11:30 into an empty store and is approved at once. The
      form is a parameter that the precondition fixes to `FormA`: with the
      constant written inline the proof is too costly for the solver. */
  lemma FirstRequestApproved(roster: seq<Employee>, formA: LeaveForm)
    requires PairsAB(roster)
    requires formA == FormA
    ensures var first := Submit(roster, [], formA, false, "1", "t1");
      && first.outcome.Ok?
      && first.outcome.value.status == Approved
      && !first.outcome.value.needsSpecialApproval
      && first.outcome.value.id == "1"
      && first.records == [first.outcome.value]
  {
    FormsAreValid();
    SubmitApprovesWithoutConflict(roster, [], formA, false, "1", "t1");
  }

  /** With A's approved 09:30-11:30 leave on file, B's confirmed request for
      10:30-12:30 on the same day is filed as pending with special approval.
      The form is fixed to `FormB` by the precondition rather than written
      inline, for the same reason as in `FirstRequestApproved`. */
  lemma SecondRequestPending(roster: seq<Employee>, a: LeaveRecord, formB: LeaveForm)
    requires PairsAB(roster)
    requires formB == FormB
    requires a.employeeId == "A" && a.date == FormB.leaveDate && a.status == Approved
    requires a.startTime == "09:30" && a.endTime == "11:30"
    ensures var second := Submit(roster, [a], formB, true, "2", "t2");
      && second.outcome.Ok?
      && second.outcome.value.status == Pending
      && second.outcome.value.needsSpecialApproval
      && |second.records| == 2
  {
    FormsAreValid();
    assert ConflictsWithForm(a, "A", formB);
    assert a in [a];
    SubmitPendingOnConfirmedConflict(roster, [a], formB, "2", "t2");
  }

  /** A files 09:30-11:30 into an empty store and is approved at once; B then
      files 10:30-12:30 on the same day, overlapping A's leave, and after
      confirming is filed as pending with special approval. The forms are
      fixed by the precondition, as in the two lemmas it composes. */
  lemma OverlappingProxyPair(roster: seq<Employee>, formA: LeaveForm, formB: LeaveForm)
    requires PairsAB(roster)
    requires formA == FormA && formB == FormB
    ensures var first := Submit(roster, [], formA, false, "1", "t1");
      var second := Submit(roster, first.records, formB, true, "2", "t2");
      && second.outcome.Ok?
      && second.outcome.value.status == Pending
      && second.outcome.value.needsSpecialApproval
      && |second.records| == 2
  {
    var first := Submit(roster, [], formA, false, "1", "t1");
    FirstRequestApproved(roster, formA);
    SecondRequestPending(roster, first.outcome.value, formB);
  }
}
