/**
 What every transaction keeps: the schema's constraints, the agreement of the cache with the
 log, and the order of sequential courses; and what repair achieves from any drift.
 */
module ProgressInvariants {
  import opened Wrappers
  import opened Catalog
  import opened ProgressLog

  // ---------------------------------------------------------------- frames

  /** Nothing about enrollment e differs between two states. */
  ghost predicate Untouched(db: Db, db': Db, e: Uuid) {
    && (e in db.enrollments <==> e in db'.enrollments)
    && (e in db.enrollments ==> db'.enrollments[e] == db.enrollments[e])
    && db'.Rows(e) == db.Rows(e)
    && (e in db.projections <==> e in db'.projections)
    && (e in db.projections ==> db'.projections[e] == db.projections[e])
  }

  lemma DoneFromRows(db: Db, db': Db, e: Uuid)
    requires db'.Rows(e) == db.Rows(e)
    ensures db'.Done(e) == db.Done(e)
  {
    assert forall v :: v in db.events && v.enrollment == e <==> v in db.Rows(e);
    assert forall v :: v in db'.events && v.enrollment == e <==> v in db'.Rows(e);
  }

  lemma AppendedRows(db: Db, e: Uuid, lesson: Uuid, actor: Uuid)
    ensures Appended(db, e, lesson, actor).Done(e) == db.Done(e) + {lesson}
    ensures db.Rows(e) <= Appended(db, e, lesson, actor).Rows(e)
    ensures forall d | d != e :: Appended(db, e, lesson, actor).Rows(d) == db.Rows(d)
  {
    var event := Event(e, lesson, actor);
    if lesson !in db.Done(e) {
      assert Appended(db, e, lesson, actor).Rows(e) == db.Rows(e) + {event};
      var db' := Appended(db, e, lesson, actor);
      forall l ensures l in db'.Done(e) <==> l in db.Done(e) + {lesson} {
        if l in db.Done(e) {
          var v :| v in db.events && v.enrollment == e && v.lesson == l;
          assert v in db'.events;
        }
        if l == lesson { assert event in db'.events; }
      }
    }
  }

  // ---------------------------------------------------------------- the schema

  lemma CompleteKeepsValid(c: Content, db: Db, member: Uuid, e: Uuid, lesson: Uuid)
    requires Valid(c, db)
    ensures Valid(c, CompleteLesson(c, db, member, e, lesson).0)
    ensures CompleteLesson(c, db, member, e, lesson).1 != Rejected
  {
    if Refusal(c, db, member, e, lesson) == None {
      var logged := Appended(db, e, lesson, member);
      assert Valid(c, logged);
      CountsFit(c, logged, e);
    }
  }

  lemma EnrollKeepsValid(c: Content, db: Db, member: Uuid, course: Uuid, newId: Uuid)
    requires Valid(c, db)
    ensures Valid(c, Enroll(c, db, member, course, newId).0)
    ensures Enroll(c, db, member, course, newId).1 == Rejected ==> newId in db.enrollments
  {
    if c.IsPublished(course) && Find(db, member, course) == None && newId !in db.enrollments {
      var db' := Enroll(c, db, member, course, newId).0;
      forall d | d in db.enrollments
        ensures !(db.enrollments[d].member == member && db.enrollments[d].course == course)
      {
        assert !HasKey(db, d, member, course);
      }
    }
  }

  lemma RepairKeepsValid(c: Content, db: Db)
    requires Valid(c, db)
    ensures Valid(c, Repaired(c, db))
    ensures forall e | e in Drifted(c, db) :: Storable(CountsOf(c, db, e))
  {
    forall e | e in db.enrollments ensures Storable(CountsOf(c, db, e)) {
      CountsFit(c, db, e);
    }
  }

  /** No key or check constraint of the schema is ever violated. */
  lemma ApplyKeepsValid(c: Content, db: Db, op: Op)
    requires Valid(c, db)
    ensures Valid(c, Apply(c, db, op))
  {
    match op
    case EnrollOp(member, course, newId) => EnrollKeepsValid(c, db, member, course, newId);
    case CompleteOp(member, e, lesson) => CompleteKeepsValid(c, db, member, e, lesson);
    case WithdrawOp(_) =>
    case DeleteOp(_) =>
    case ReconcileOp => RepairKeepsValid(c, db);
  }

  // ---------------------------------------------------------------- agreement

  lemma AgreesFrame(c: Content, db: Db, db': Db, e: Uuid)
    requires e in db.enrollments && Untouched(db, db', e)
    ensures CountsOf(c, db', e) == CountsOf(c, db, e)
    ensures Agrees(c, db', e) <==> Agrees(c, db, e)
  {
  }

  lemma CompleteTouchesOne(c: Content, db: Db, member: Uuid, e: Uuid, lesson: Uuid)
    ensures forall d | d != e :: Untouched(db, CompleteLesson(c, db, member, e, lesson).0, d)
  {
    AppendedRows(db, e, lesson, member);
    var logged := Appended(db, e, lesson, member);
    var db' := CompleteLesson(c, db, member, e, lesson).0;
    assert db'.events == db.events || db'.events == logged.events;
    forall d | d != e ensures db'.Rows(d) == db.Rows(d) {
      assert db'.Rows(d) == db.Rows(d) || db'.Rows(d) == logged.Rows(d);
    }
  }

  /** An accepted completion leaves its enrollment agreeing with the log, whatever drift it had. */
  lemma CompletionAgrees(c: Content, db: Db, member: Uuid, e: Uuid, lesson: Uuid)
    requires CompleteLesson(c, db, member, e, lesson).1.Accepted? && e in db.projections
    ensures Agrees(c, CompleteLesson(c, db, member, e, lesson).0, e)
  {
    var logged := Appended(db, e, lesson, member);
    var db' := CompleteLesson(c, db, member, e, lesson).0;
    assert db'.Rows(e) == logged.Rows(e);
  }

  lemma DeleteFrame(db: Db, ids: set<Uuid>, e: Uuid)
    requires e !in ids
    ensures Untouched(db, Delete(db, ids), e)
  {
  }

  lemma RepairAgrees(c: Content, db: Db, e: Uuid)
    requires Valid(c, db) && e in db.enrollments
    ensures e in Repaired(c, db).enrollments && Agrees(c, Repaired(c, db), e)
    ensures e !in Drifted(c, db) ==> Untouched(db, Repaired(c, db), e)
  {
    RepairKeepsValid(c, db);
    var db' := Repaired(c, db);
    assert db'.Rows(e) == db.Rows(e);
  }

  lemma EnrollAgrees(c: Content, db: Db, member: Uuid, course: Uuid, newId: Uuid, e: Uuid)
    requires Valid(c, db) && e in Enroll(c, db, member, course, newId).0.enrollments
    requires e in db.enrollments ==> Agrees(c, db, e)
    ensures Agrees(c, Enroll(c, db, member, course, newId).0, e)
  {
    var db' := Enroll(c, db, member, course, newId).0;
    if e in db.enrollments {
      assert db'.Rows(e) == db.Rows(e);
    } else {
      assert db'.Rows(e) == {};
    }
  }

  lemma CompleteAgrees(c: Content, db: Db, member: Uuid, d: Uuid, lesson: Uuid, e: Uuid)
    requires e in db.enrollments && Agrees(c, db, e)
    ensures var db' := CompleteLesson(c, db, member, d, lesson).0; e in db'.enrollments && Agrees(c, db', e)
  {
    if d != e {
      CompleteTouchesOne(c, db, member, d, lesson);
      AgreesFrame(c, db, CompleteLesson(c, db, member, d, lesson).0, e);
    } else if CompleteLesson(c, db, member, d, lesson).1.Accepted? {
      CompletionAgrees(c, db, member, d, lesson);
    }
  }

  /** No transaction ever makes one enrollment disagree with its log; a new enrollment starts in agreement. */
  lemma StepAgrees(c: Content, db: Db, op: Op, e: Uuid)
    requires Valid(c, db) && e in Apply(c, db, op).enrollments
    requires e in db.enrollments ==> Agrees(c, db, e) || op == ReconcileOp
    ensures Agrees(c, Apply(c, db, op), e)
  {
    match op
    case EnrollOp(member, course, newId) =>
      EnrollAgrees(c, db, member, course, newId, e);
    case CompleteOp(member, d, lesson) =>
      CompleteAgrees(c, db, member, d, lesson, e);
    case WithdrawOp(d) =>
      assert Withdraw(db, d).Rows(e) == db.Rows(e);
    case DeleteOp(ids) =>
      DeleteFrame(db, ids, e);
      AgreesFrame(c, db, Delete(db, ids), e);
    case ReconcileOp =>
      RepairAgrees(c, db, e);
  }

  // ---------------------------------------------------------------- repair

  lemma RepairFixesAll(c: Content, db: Db)
    requires Valid(c, db)
    ensures AllAgree(c, Repaired(c, db)) && Drifted(c, Repaired(c, db)) == {}
  {
    forall e | e in db.enrollments ensures Agrees(c, Repaired(c, db), e) {
      RepairAgrees(c, db, e);
    }
    assert Repaired(c, db).enrollments.Keys == db.enrollments.Keys;
  }

  /** With no drift there is nothing to write. */
  lemma RepairOfClean(c: Content, db: Db)
    requires AllAgree(c, db)
    ensures Repaired(c, db) == db
  {
    assert Drifted(c, db) == {};
    assert Repaired(c, db).enrollments == db.enrollments;
    assert Repaired(c, db).projections == db.projections;
  }

  /** From any drift, missing rows included: repair leaves no drift, keeps the log and the rows
      that agreed, keeps withdrawals, and a second repair has nothing to do. */
  lemma RepairIsExact(c: Content, db: Db)
    requires Valid(c, db)
    ensures AllAgree(c, Repaired(c, db)) && Drifted(c, Repaired(c, db)) == {}
    ensures Repaired(c, db).events == db.events
    ensures Repaired(c, db).enrollments.Keys == db.enrollments.Keys
    ensures forall e | e in db.enrollments && e !in Drifted(c, db) :: Untouched(db, Repaired(c, db), e)
    ensures forall e | e in db.enrollments ::
              var row, row' := db.enrollments[e], Repaired(c, db).enrollments[e];
              row'.member == row.member && row'.course == row.course && (row'.status == Withdrawn <==> row.status == Withdrawn)
    ensures Repaired(c, Repaired(c, db)) == Repaired(c, db)
  {
    RepairFixesAll(c, db);
    RepairOfClean(c, Repaired(c, db));
    forall e | e in db.enrollments && e !in Drifted(c, db) ensures Untouched(db, Repaired(c, db), e) {
      RepairAgrees(c, db, e);
    }
  }

  // ---------------------------------------------------------------- sequential courses

  /** In a sequential course the completed lessons are closed under "earlier". */
  ghost predicate PrefixClosed(c: Content, db: Db) {
    forall e, k, l | e in db.enrollments && c.IsSequential(db.enrollments[e].course)
                     && k in c.LessonsOf(db.enrollments[e].course) && l in db.Done(e) && c.Earlier(k, l) :: k in db.Done(e)
  }

  /** An accepted completion adds its lesson to its enrollment and nothing else. */
  lemma CompletionDone(c: Content, db: Db, member: Uuid, e: Uuid, lesson: Uuid)
    ensures var (db', outcome) := CompleteLesson(c, db, member, e, lesson);
            && db'.events == db.events + (if outcome.Accepted? && lesson !in db.Done(e) then {Event(e, lesson, member)} else {})
            && db'.Done(e) == db.Done(e) + (if outcome.Accepted? then {lesson} else {})
            && forall d | d != e :: db'.Done(d) == db.Done(d)
  {
    var (db', outcome) := CompleteLesson(c, db, member, e, lesson);
    if outcome.Accepted? {
      var logged := Appended(db, e, lesson, member);
      AppendedRows(db, e, lesson, member);
      forall d ensures db'.Done(d) == logged.Done(d) && (d != e ==> logged.Done(d) == db.Done(d)) {
        assert db'.Rows(d) == logged.Rows(d);
        DoneFromRows(logged, db', d);
        if d != e { DoneFromRows(db, logged, d); }
      }
    }
  }

  /** A completion reported as created is one more row of the log. */
  lemma CreatedIsOneMore(c: Content, db: Db, member: Uuid, e: Uuid, lesson: Uuid)
    requires CompleteLesson(c, db, member, e, lesson).1 == Accepted(e, true)
    ensures CompleteLesson(c, db, member, e, lesson).0.Completions(e) == db.Completions(e) + 1
  {
    CompletionDone(c, db, member, e, lesson);
    var event := Event(e, lesson, member);
    assert event !in db.events by {
      assert event in db.events ==> event.lesson in db.Done(e);
    }
    assert CompleteLesson(c, db, member, e, lesson).0.Rows(e) == db.Rows(e) + {event};
  }

  lemma CompleteKeepsPrefix(c: Content, db: Db, member: Uuid, e: Uuid, lesson: Uuid)
    requires Valid(c, db) && PrefixClosed(c, db)
    ensures PrefixClosed(c, CompleteLesson(c, db, member, e, lesson).0)
  {
    CompletionDone(c, db, member, e, lesson);
  }

  /** Nothing but completions adds to what is done. */
  lemma PrefixFrame(c: Content, db: Db, db': Db)
    requires PrefixClosed(c, db)
    requires forall e | e in db'.enrollments ::
               db'.Done(e) == {} || (e in db.enrollments && db'.enrollments[e].course == db.enrollments[e].course && db'.Done(e) == db.Done(e))
    ensures PrefixClosed(c, db')
  {
  }

  lemma ApplyKeepsPrefix(c: Content, db: Db, op: Op)
    requires Valid(c, db) && PrefixClosed(c, db)
    ensures PrefixClosed(c, Apply(c, db, op))
  {
    var db' := Apply(c, db, op);
    if op.CompleteOp? {
      CompleteKeepsPrefix(c, db, op.member, op.enrollment, op.lesson);
    } else if op.DeleteOp? {
      DeleteKeepsPrefix(c, db, op.ids);
    } else {
      PrefixFrame(c, db, db');
    }
  }

  lemma DeleteKeepsPrefix(c: Content, db: Db, ids: set<Uuid>)
    requires PrefixClosed(c, db)
    ensures PrefixClosed(c, Delete(db, ids))
  {
    forall e | e !in ids ensures Delete(db, ids).Done(e) == db.Done(e) {
      DeleteFrame(db, ids, e);
      DoneFromRows(db, Delete(db, ids), e);
    }
    PrefixFrame(c, db, Delete(db, ids));
  }
}
