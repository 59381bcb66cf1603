/**
 Repair can be moved past any other operation: a database repaired first answers alike and ends where
 the same database repaired afterwards does.
 */
module RepairCommutes {
  import opened Wrappers
  import opened Catalog
  import opened ProgressLog
  import opened ProgressInvariants

  function IdealRow(c: Content, db: Db, e: Uuid): Enrollment
    requires e in db.enrollments
  {
    db.enrollments[e].(status := ExpectedStatus(c, db, e))
  }

  /** Every count and status is what the log of db implies. */
  ghost predicate IsIdeal(c: Content, db: Db, ideal: Db) {
    && ideal.events == db.events
    && ideal.enrollments.Keys == db.enrollments.Keys == ideal.projections.Keys
    && forall e | e in db.enrollments :: IdealAt(c, db, ideal, e)
  }

  ghost predicate IdealAt(c: Content, db: Db, ideal: Db, e: Uuid)
    requires e in db.enrollments
  {
    && e in ideal.enrollments && ideal.enrollments[e] == IdealRow(c, db, e)
    && e in ideal.projections && ideal.projections[e] == CountsOf(c, db, e)
  }

  lemma OneIdeal(c: Content, db: Db, ideal: Db, other: Db)
    requires IsIdeal(c, db, ideal) && IsIdeal(c, db, other)
    ensures ideal == other
  {
    assert forall e | e in db.enrollments :: IdealAt(c, db, ideal, e) && IdealAt(c, db, other, e);
    assert ideal.enrollments == other.enrollments;
    assert ideal.projections == other.projections;
  }

  lemma RepairedRow(c: Content, db: Db, e: Uuid)
    requires Valid(c, db) && e in db.enrollments
    ensures IdealAt(c, db, Repaired(c, db), e)
  {
    RepairKeepsValid(c, db);
    assert e !in Drifted(c, db) ==> Agrees(c, db, e);
  }

  lemma RepairedIsIdeal(c: Content, db: Db)
    requires Valid(c, db)
    ensures IsIdeal(c, db, Repaired(c, db))
  {
    var repaired := Repaired(c, db);
    forall e | e in db.enrollments
      ensures IdealAt(c, db, repaired, e)
    {
      RepairedRow(c, db, e);
    }
    RepairKeepsValid(c, db);
    assert repaired.enrollments.Keys == db.enrollments.Keys;
  }

  /** What is ideal for a database is its repair. */
  lemma IdealIsRepaired(c: Content, db: Db, ideal: Db)
    requires Valid(c, db) && IsIdeal(c, db, ideal)
    ensures ideal == Repaired(c, db)
  {
    RepairedIsIdeal(c, db);
    OneIdeal(c, db, ideal, Repaired(c, db));
  }

  lemma SameCounts(c: Content, db: Db, db': Db, e: Uuid)
    requires e in db.enrollments && e in db'.enrollments && db'.enrollments[e].course == db.enrollments[e].course
    requires db'.Rows(e) == db.Rows(e)
    ensures CountsOf(c, db', e) == CountsOf(c, db, e)
  {
  }

  lemma SameRow(c: Content, db: Db, db': Db, e: Uuid)
    requires e in db.enrollments && e in db'.enrollments && db'.enrollments[e] == db.enrollments[e] && db'.Rows(e) == db.Rows(e)
    ensures CountsOf(c, db', e) == CountsOf(c, db, e) && IdealRow(c, db', e) == IdealRow(c, db, e)
  {
    SameCounts(c, db, db', e);
  }

  lemma SameLog(db: Db, db': Db, e: Uuid)
    requires db'.events == db.events
    ensures db'.Rows(e) == db.Rows(e) && db'.Done(e) == db.Done(e)
  {
    assert forall v :: v in db'.Rows(e) <==> v in db.Rows(e);
    DoneFromRows(db, db', e);
  }

  // ---------------------------------------------------------------- completions

  lemma SameRefusal(c: Content, db: Db, ideal: Db, member: Uuid, e: Uuid, lesson: Uuid)
    requires IsIdeal(c, db, ideal)
    ensures Refusal(c, ideal, member, e, lesson) == Refusal(c, db, member, e, lesson)
  {
    SameLog(db, ideal, e);
    if e in db.enrollments {
      var course := db.enrollments[e].course;
      assert IdealAt(c, db, ideal, e);
      assert UnfinishedEarlier(c, ideal, e, course, lesson) <==> UnfinishedEarlier(c, db, e, course, lesson);
    }
  }

  lemma CompletedRow(c: Content, db: Db, member: Uuid, e: Uuid, lesson: Uuid)
    requires Valid(c, db) && Refusal(c, db, member, e, lesson) == None
    ensures var next, outcome := CompleteLesson(c, db, member, e, lesson).0, CompleteLesson(c, db, member, e, lesson).1;
            && outcome == Accepted(e, lesson !in db.Done(e))
            && next.events == Appended(db, e, lesson, member).events
            && next.enrollments.Keys == db.enrollments.Keys
            && (forall d | d in db.enrollments && d != e :: next.enrollments[d] == db.enrollments[d])
            && next.enrollments[e] == db.enrollments[e].(status := next.enrollments[e].status)
            && next.enrollments[e].status != Withdrawn
            && CountsOf(c, next, e) == CountsOf(c, Appended(db, e, lesson, member), e)
            && (e in db.projections ==>
                  && next.enrollments[e].status == StatusOf(CountsOf(c, next, e))
                  && next.projections == db.projections[e := CountsOf(c, next, e)])
  {
    var logged := Appended(db, e, lesson, member);
    var next := CompleteLesson(c, db, member, e, lesson).0;
    CompleteKeepsValid(c, db, member, e, lesson);
    SameLog(logged, next, e);
    SameCounts(c, logged, next, e);
  }

  lemma OtherCounts(c: Content, db: Db, member: Uuid, e: Uuid, lesson: Uuid, d: Uuid)
    requires Valid(c, db) && Refusal(c, db, member, e, lesson) == None && d in db.enrollments && d != e
    ensures var next := CompleteLesson(c, db, member, e, lesson).0;
            d in next.enrollments && CountsOf(c, next, d) == CountsOf(c, db, d) && IdealRow(c, next, d) == IdealRow(c, db, d)
  {
    CompleteTouchesOne(c, db, member, e, lesson);
    SameRow(c, db, CompleteLesson(c, db, member, e, lesson).0, d);
  }

  /** Both accepted completions, of a database and of its ideal form. */
  ghost predicate BothAccept(c: Content, db: Db, ideal: Db, member: Uuid, e: Uuid, lesson: Uuid) {
    && Valid(c, db) && Valid(c, ideal) && IsIdeal(c, db, ideal)
    && Refusal(c, db, member, e, lesson) == None && Refusal(c, ideal, member, e, lesson) == None
  }

  lemma IdealCompletion(c: Content, db: Db, ideal: Db, member: Uuid, e: Uuid, lesson: Uuid)
    requires BothAccept(c, db, ideal, member, e, lesson)
    ensures IsIdeal(c, CompleteLesson(c, db, member, e, lesson).0, CompleteLesson(c, ideal, member, e, lesson).0)
  {
    SameOutcome(c, db, ideal, member, e, lesson);
    CompletionShape(c, db, ideal, member, e, lesson);
    AllRowsIdeal(c, db, ideal, member, e, lesson);
  }

  lemma SameOutcome(c: Content, db: Db, ideal: Db, member: Uuid, e: Uuid, lesson: Uuid)
    requires BothAccept(c, db, ideal, member, e, lesson)
    ensures CompleteLesson(c, ideal, member, e, lesson).1 == CompleteLesson(c, db, member, e, lesson).1 == Accepted(e, lesson !in db.Done(e))
  {
    SameLog(db, ideal, e);
    CompletedRow(c, db, member, e, lesson);
    CompletedRow(c, ideal, member, e, lesson);
  }

  lemma CompletionShape(c: Content, db: Db, ideal: Db, member: Uuid, e: Uuid, lesson: Uuid)
    requires IsIdeal(c, db, ideal) && CompleteLesson(c, db, member, e, lesson).1.Accepted? && CompleteLesson(c, ideal, member, e, lesson).1.Accepted?
    ensures var next, next' := CompleteLesson(c, db, member, e, lesson).0, CompleteLesson(c, ideal, member, e, lesson).0;
            && next'.events == next.events
            && next.enrollments.Keys == db.enrollments.Keys == next'.enrollments.Keys == next'.projections.Keys
  {
    AcceptedShape(c, db, member, e, lesson);
    AcceptedShape(c, ideal, member, e, lesson);
    SameAppended(db, ideal, e, lesson, member);
  }

  lemma AcceptedShape(c: Content, db: Db, member: Uuid, e: Uuid, lesson: Uuid)
    requires CompleteLesson(c, db, member, e, lesson).1.Accepted?
    ensures var next := CompleteLesson(c, db, member, e, lesson).0;
            && next.events == Appended(db, e, lesson, member).events
            && next.enrollments.Keys == db.enrollments.Keys && next.projections.Keys == db.projections.Keys
  {
  }

  lemma SameAppended(db: Db, db': Db, e: Uuid, lesson: Uuid, actor: Uuid)
    requires db'.events == db.events
    ensures Appended(db', e, lesson, actor).events == Appended(db, e, lesson, actor).events
  {
    SameLog(db, db', e);
  }

  lemma AllRowsIdeal(c: Content, db: Db, ideal: Db, member: Uuid, e: Uuid, lesson: Uuid)
    requires BothAccept(c, db, ideal, member, e, lesson)
    ensures var next, next' := CompleteLesson(c, db, member, e, lesson).0, CompleteLesson(c, ideal, member, e, lesson).0;
            forall d | d in db.enrollments :: d in next.enrollments && IdealAt(c, next, next', d)
  {
    IdealCompletedRow(c, db, ideal, member, e, lesson);
    forall d | d in db.enrollments && d != e
      ensures var next, next' := CompleteLesson(c, db, member, e, lesson).0, CompleteLesson(c, ideal, member, e, lesson).0;
              d in next.enrollments && IdealAt(c, next, next', d)
    {
      IdealOtherRow(c, db, ideal, member, e, lesson, d);
    }
  }

  lemma IdealCompletedRow(c: Content, db: Db, ideal: Db, member: Uuid, e: Uuid, lesson: Uuid)
    requires BothAccept(c, db, ideal, member, e, lesson)
    ensures var next, next' := CompleteLesson(c, db, member, e, lesson).0, CompleteLesson(c, ideal, member, e, lesson).0;
            next'.events == next.events && e in next.enrollments && IdealAt(c, next, next', e)
  {
    var next, next' := CompleteLesson(c, db, member, e, lesson).0, CompleteLesson(c, ideal, member, e, lesson).0;
    SameLog(db, ideal, e);
    CompletedRow(c, db, member, e, lesson);
    CompletedRow(c, ideal, member, e, lesson);
    assert IdealAt(c, db, ideal, e);
    SameLog(next, next', e);
    SameCounts(c, next, next', e);
  }

  lemma IdealOtherRow(c: Content, db: Db, ideal: Db, member: Uuid, e: Uuid, lesson: Uuid, d: Uuid)
    requires BothAccept(c, db, ideal, member, e, lesson) && d in db.enrollments && d != e
    ensures var next, next' := CompleteLesson(c, db, member, e, lesson).0, CompleteLesson(c, ideal, member, e, lesson).0;
            d in next.enrollments && IdealAt(c, next, next', d)
  {
    OtherCounts(c, db, member, e, lesson, d);
    CompletedRow(c, ideal, member, e, lesson);
    assert IdealAt(c, db, ideal, d);
  }

  lemma CompletionCommutes(c: Content, db: Db, member: Uuid, e: Uuid, lesson: Uuid)
    requires Valid(c, db)
    ensures var (next, outcome) := CompleteLesson(c, db, member, e, lesson);
            CompleteLesson(c, Repaired(c, db), member, e, lesson) == (Repaired(c, next), outcome)
  {
    var ideal := Repaired(c, db);
    RepairedIsIdeal(c, db);
    RepairKeepsValid(c, db);
    SameRefusal(c, db, ideal, member, e, lesson);
    if Refusal(c, db, member, e, lesson) == None {
      SameOutcome(c, db, ideal, member, e, lesson);
      IdealCompletion(c, db, ideal, member, e, lesson);
      CompleteKeepsValid(c, db, member, e, lesson);
      IdealIsRepaired(c, CompleteLesson(c, db, member, e, lesson).0, CompleteLesson(c, ideal, member, e, lesson).0);
    }
  }

  // ---------------------------------------------------------------- withdrawals and deletions

  lemma WithdrawalCommutes(c: Content, db: Db, e: Uuid)
    requires Valid(c, db)
    ensures Withdraw(Repaired(c, db), e) == Repaired(c, Withdraw(db, e))
  {
    RepairedIsIdeal(c, db);
    WithdrawnIsIdeal(c, db, Repaired(c, db), e);
    WithdrawKeepsValid(c, db, e);
    IdealIsRepaired(c, Withdraw(db, e), Withdraw(Repaired(c, db), e));
  }

  lemma WithdrawKeepsValid(c: Content, db: Db, e: Uuid)
    requires Valid(c, db)
    ensures Valid(c, Withdraw(db, e))
  {
    ApplyKeepsValid(c, db, WithdrawOp(e));
  }

  lemma WithdrawnIsIdeal(c: Content, db: Db, ideal: Db, e: Uuid)
    requires IsIdeal(c, db, ideal)
    ensures IsIdeal(c, Withdraw(db, e), Withdraw(ideal, e))
  {
    forall d | d in db.enrollments ensures IdealAt(c, Withdraw(db, e), Withdraw(ideal, e), d) {
      WithdrawnRow(c, db, ideal, e, d);
    }
  }

  lemma WithdrawnRow(c: Content, db: Db, ideal: Db, e: Uuid, d: Uuid)
    requires IsIdeal(c, db, ideal) && d in db.enrollments
    ensures IdealAt(c, Withdraw(db, e), Withdraw(ideal, e), d)
  {
    assert IdealAt(c, db, ideal, d);
    SameLog(db, Withdraw(db, e), d);
    SameCounts(c, db, Withdraw(db, e), d);
  }

  lemma DeletionCommutes(c: Content, db: Db, ids: set<Uuid>)
    requires Valid(c, db)
    ensures Delete(Repaired(c, db), ids) == Repaired(c, Delete(db, ids))
  {
    var next, ideal := Delete(db, ids), Repaired(c, db);
    RepairedIsIdeal(c, db);
    forall d | d in next.enrollments
      ensures IdealAt(c, next, Delete(ideal, ids), d)
    {
      assert IdealAt(c, db, ideal, d);
      DeleteFrame(db, ids, d);
      SameRow(c, db, next, d);
    }
    ApplyKeepsValid(c, db, DeleteOp(ids));
    IdealIsRepaired(c, next, Delete(ideal, ids));
  }

  /** Repair changes nobody's enrollments, so a reset finds the same ones. */
  lemma SameEnrollments(c: Content, db: Db, members: set<Uuid>)
    requires Valid(c, db)
    ensures EnrollmentsOf(Repaired(c, db), members) == EnrollmentsOf(db, members)
  {
    RepairedIsIdeal(c, db);
    assert forall e | e in db.enrollments :: IdealAt(c, db, Repaired(c, db), e);
  }

  // ---------------------------------------------------------------- enrollments

  lemma EnrollmentCommutes(c: Content, db: Db, member: Uuid, course: Uuid, newId: Uuid)
    requires Valid(c, db)
    ensures var (next, outcome) := Enroll(c, db, member, course, newId);
            Enroll(c, Repaired(c, db), member, course, newId) == (Repaired(c, next), outcome)
  {
    var next, ideal := Enroll(c, db, member, course, newId).0, Repaired(c, db);
    RepairedIsIdeal(c, db);
    EnrollKeepsValid(c, db, member, course, newId);
    SameKeys(c, db, ideal, member, course);
    if c.IsPublished(course) {
      if Find(db, member, course).Some? {
        FoundCommutes(c, db, ideal, Find(db, member, course).value, c.Total(course));
      } else if newId !in db.enrollments {
        NewCommutes(c, db, ideal, newId, Enrollment(member, course, Active));
      }
    }
  }

  lemma SameKeys(c: Content, db: Db, ideal: Db, member: Uuid, course: Uuid)
    requires Valid(c, db) && IsIdeal(c, db, ideal)
    ensures Find(ideal, member, course) == Find(db, member, course)
  {
    forall e ensures HasKey(ideal, e, member, course) <==> HasKey(db, e, member, course) {
      assert e in db.enrollments ==> IdealAt(c, db, ideal, e);
    }
  }

  lemma FoundCommutes(c: Content, db: Db, ideal: Db, e: Uuid, total: nat)
    requires Valid(c, db) && IsIdeal(c, db, ideal) && e in db.enrollments && Valid(c, Initialized(db, e, total))
    ensures Initialized(ideal, e, total) == ideal == Repaired(c, Initialized(db, e, total))
  {
    var next := Initialized(db, e, total);
    forall d | d in db.enrollments
      ensures IdealAt(c, next, ideal, d)
    {
      assert IdealAt(c, db, ideal, d);
      SameLog(db, next, d);
      SameRow(c, db, next, d);
    }
    IdealIsRepaired(c, next, ideal);
  }

  function Inserted(c: Content, db: Db, newId: Uuid, row: Enrollment): Db {
    Initialized(db.(enrollments := db.enrollments[newId := row]), newId, c.Total(row.course))
  }

  lemma NewCounts(c: Content, db: Db, newId: Uuid, row: Enrollment)
    requires Valid(c, db) && newId !in db.enrollments
    ensures var next := Inserted(c, db, newId, row);
            CountsOf(c, next, newId) == Counts(0, c.Total(row.course), 0) && newId !in db.projections
  {
    assert Inserted(c, db, newId, row).Rows(newId) == {};
  }

  lemma NewCommutes(c: Content, db: Db, ideal: Db, newId: Uuid, row: Enrollment)
    requires Valid(c, db) && IsIdeal(c, db, ideal) && newId !in db.enrollments && row.status == Active
    requires Valid(c, Inserted(c, db, newId, row))
    ensures Inserted(c, ideal, newId, row) == Repaired(c, Inserted(c, db, newId, row))
  {
    NewCounts(c, db, newId, row);
    NewIsIdeal(c, db, ideal, newId, row);
    IdealIsRepaired(c, Inserted(c, db, newId, row), Inserted(c, ideal, newId, row));
  }

  lemma NewIsIdeal(c: Content, db: Db, ideal: Db, newId: Uuid, row: Enrollment)
    requires IsIdeal(c, db, ideal) && newId !in db.enrollments && row.status == Active && newId !in db.projections
    requires CountsOf(c, Inserted(c, db, newId, row), newId) == Counts(0, c.Total(row.course), 0)
    ensures IsIdeal(c, Inserted(c, db, newId, row), Inserted(c, ideal, newId, row))
  {
    var next, next' := Inserted(c, db, newId, row), Inserted(c, ideal, newId, row);
    forall d | d in next.enrollments
      ensures IdealAt(c, next, next', d)
    {
      if d != newId { OldRow(c, db, ideal, newId, row, d); }
    }
  }

  lemma OldRow(c: Content, db: Db, ideal: Db, newId: Uuid, row: Enrollment, d: Uuid)
    requires IsIdeal(c, db, ideal) && d in db.enrollments && d != newId
    ensures d in Inserted(c, db, newId, row).enrollments
    ensures IdealAt(c, Inserted(c, db, newId, row), Inserted(c, ideal, newId, row), d)
  {
    assert IdealAt(c, db, ideal, d);
    SameLog(db, Inserted(c, db, newId, row), d);
    SameRow(c, db, Inserted(c, db, newId, row), d);
  }
}
