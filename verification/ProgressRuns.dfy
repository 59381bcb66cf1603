/**
 Whole runs of operations, one after the other. (ConcurrentRepair.dfy shows that what interleaved
 transactions commit is such a run; SerialRuns.dfy, when it is the run of their requests.)
 */
module ProgressRuns {
  import opened Wrappers
  import opened Catalog
  import opened ProgressLog
  import opened ProgressInvariants

  ghost function ApplyAll(c: Content, db: Db, ops: seq<Op>): Db
    decreases |ops|
  {
    if ops == [] then db else ApplyAll(c, Apply(c, db, ops[0]), ops[1..])
  }

  /** The state every run from an empty database stays in. */
  ghost predicate Clean(c: Content, db: Db) {
    Valid(c, db) && AllAgree(c, db) && PrefixClosed(c, db)
  }

  const EMPTY := Db(map[], {}, map[])

  lemma EmptyIsClean(c: Content)
    requires c.Valid()
    ensures Clean(c, EMPTY)
  {
  }

  lemma ApplyKeepsClean(c: Content, db: Db, op: Op)
    requires Clean(c, db)
    ensures Clean(c, Apply(c, db, op))
  {
    ApplyKeepsValid(c, db, op);
    ApplyKeepsPrefix(c, db, op);
    forall e | e in Apply(c, db, op).enrollments ensures Agrees(c, Apply(c, db, op), e) {
      StepAgrees(c, db, op, e);
    }
  }

  /** No drift in any run: a dry run of the reconciler finds nothing to report afterwards. */
  lemma {:induction false} RunsStayClean(c: Content, db: Db, ops: seq<Op>)
    requires Clean(c, db)
    ensures Clean(c, ApplyAll(c, db, ops)) && Drifted(c, ApplyAll(c, db, ops)) == {}
    decreases |ops|
  {
    if ops == [] {
    } else {
      ApplyKeepsClean(c, db, ops[0]);
      RunsStayClean(c, Apply(c, db, ops[0]), ops[1..]);
    }
  }

  lemma RunsFromEmpty(c: Content, ops: seq<Op>)
    requires c.Valid()
    ensures Clean(c, ApplyAll(c, EMPTY, ops)) && Drifted(c, ApplyAll(c, EMPTY, ops)) == {}
  {
    EmptyIsClean(c);
    RunsStayClean(c, EMPTY, ops);
  }

  // ---------------------------------------------------------------- the log only grows

  ghost predicate Survives(ops: seq<Op>, e: Uuid) {
    forall i | 0 <= i < |ops| && ops[i].DeleteOp? :: e !in ops[i].ids
  }

  /** The same enrollment later on: it may have been withdrawn, and its log may have grown. */
  ghost predicate Continues(db: Db, db': Db, e: Uuid) {
    && e in db.enrollments && e in db'.enrollments
    && db'.enrollments[e].member == db.enrollments[e].member
    && db'.enrollments[e].course == db.enrollments[e].course
    && (db.enrollments[e].status == Withdrawn ==> db'.enrollments[e].status == Withdrawn)
    && db.Rows(e) <= db'.Rows(e) && db.Done(e) <= db'.Done(e)
  }

  lemma ApplyContinues(c: Content, db: Db, op: Op, e: Uuid)
    requires e in db.enrollments && Survives([op], e)
    ensures Continues(db, Apply(c, db, op), e)
  {
    var db' := Apply(c, db, op);
    match op
    case EnrollOp(_, _, newId) =>
      assert db'.Done(e) == db.Done(e);
    case CompleteOp(member, d, lesson) =>
      CompletionDone(c, db, member, d, lesson);
      AppendedRows(db, e, lesson, member);
      assert db'.events == db.events || db'.events == Appended(db, d, lesson, member).events;
    case WithdrawOp(_) =>
      assert db'.Done(e) == db.Done(e);
    case DeleteOp(ids) =>
      assert [op][0] == op;
      DeleteFrame(db, ids, e);
      DoneFromRows(db, db', e);
    case ReconcileOp =>
      assert db'.Done(e) == db.Done(e);
  }

  lemma {:induction false} RunContinues(c: Content, db: Db, ops: seq<Op>, e: Uuid)
    requires e in db.enrollments && Survives(ops, e)
    ensures Continues(db, ApplyAll(c, db, ops), e)
    decreases |ops|
  {
    if ops == [] {
    } else {
      ApplyContinues(c, db, ops[0], e);
      RunContinues(c, Apply(c, db, ops[0]), ops[1..], e);
    }
  }

  /** Along a run the percentage of a surviving enrollment never falls. */
  lemma PercentNeverFalls(c: Content, db: Db, ops: seq<Op>, e: Uuid)
    requires Clean(c, db) && e in db.enrollments && Survives(ops, e)
    ensures var db' := ApplyAll(c, db, ops);
            e in db'.projections && db.projections[e].percent <= db'.projections[e].percent
  {
    var db' := ApplyAll(c, db, ops);
    RunsStayClean(c, db, ops);
    RunContinues(c, db, ops, e);
    SubsetSize(db.Rows(e), db'.Rows(e));
    PercentIsMonotone(db.Completions(e), db'.Completions(e), c.Total(db.enrollments[e].course));
  }

  lemma PercentIsMonotone(done: nat, more: nat, total: nat)
    requires done <= more
    ensures Percent(done, total) <= Percent(more, total)
  {
    if total > 0 {
      var p, q := done * 100 / total, more * 100 / total;
      if q < p {
        assert (q + 1) * total <= p * total;
      }
    }
  }

  // ---------------------------------------------------------------- retries

  /** Re-delivering an accepted completion at any later point changes nothing: it is reported as
      already recorded, or refused because the enrollment has been withdrawn since. */
  lemma CompletionIsIdempotent(c: Content, db: Db, member: Uuid, e: Uuid, lesson: Uuid, ops: seq<Op>)
    requires Clean(c, db) && Survives(ops, e)
    requires CompleteLesson(c, db, member, e, lesson).1.Accepted?
    ensures var later := ApplyAll(c, CompleteLesson(c, db, member, e, lesson).0, ops);
            && e in later.enrollments
            && CompleteLesson(c, later, member, e, lesson)
               == (later, if later.enrollments[e].status == Withdrawn then EnrollmentWithdrawn else Accepted(e, false))
  {
    var next := CompleteLesson(c, db, member, e, lesson).0;
    AcceptedRecords(c, db, member, e, lesson);
    ApplyKeepsClean(c, db, CompleteOp(member, e, lesson));
    RunsStayClean(c, next, ops);
    RunContinues(c, next, ops, e);
    RecordedCompletion(c, ApplyAll(c, next, ops), member, e, lesson);
  }

  lemma AcceptedRecords(c: Content, db: Db, member: Uuid, e: Uuid, lesson: Uuid)
    requires CompleteLesson(c, db, member, e, lesson).1.Accepted?
    ensures var next := CompleteLesson(c, db, member, e, lesson).0;
            e in next.enrollments && next.enrollments[e].member == member && lesson in next.Done(e)
  {
    CompletionDone(c, db, member, e, lesson);
  }

  lemma RecordedCompletion(c: Content, db: Db, member: Uuid, e: Uuid, lesson: Uuid)
    requires Clean(c, db) && e in db.enrollments && db.enrollments[e].member == member && lesson in db.Done(e)
    ensures CompleteLesson(c, db, member, e, lesson)
            == (db, if db.enrollments[e].status == Withdrawn then EnrollmentWithdrawn else Accepted(e, false))
  {
    var row := db.enrollments[e];
    if row.status != Withdrawn {
      assert !(c.IsSequential(row.course) && UnfinishedEarlier(c, db, e, row.course, lesson));
      assert Appended(db, e, lesson, member) == db;
      assert Agrees(c, db, e);
      assert db.enrollments[e := row] == db.enrollments;
      assert db.projections[e := db.projections[e]] == db.projections;
    }
  }

  /** Re-delivering an accepted enrollment returns the same one, creates nothing and changes nothing. */
  lemma EnrollmentIsIdempotent(c: Content, db: Db, member: Uuid, course: Uuid, newId: Uuid, ops: seq<Op>, retryId: Uuid)
    requires Clean(c, db) && Enroll(c, db, member, course, newId).1.Accepted?
    requires Survives(ops, Enroll(c, db, member, course, newId).1.enrollment)
    ensures var (next, outcome) := Enroll(c, db, member, course, newId);
            var later := ApplyAll(c, next, ops);
            Enroll(c, later, member, course, retryId) == (later, Accepted(outcome.enrollment, false))
  {
    var (next, outcome) := Enroll(c, db, member, course, newId);
    var e := outcome.enrollment;
    assert next == Apply(c, db, EnrollOp(member, course, newId));
    ApplyKeepsClean(c, db, EnrollOp(member, course, newId));
    assert HasKey(next, e, member, course);
    RunsStayClean(c, next, ops);
    RunContinues(c, next, ops, e);
    var later := ApplyAll(c, next, ops);
    assert HasKey(later, e, member, course);
    assert Find(later, member, course) == Some(e);
  }

  // ---------------------------------------------------------------- order

  lemma LogDeterminesRow(c: Content, db: Db, db': Db, e: Uuid)
    requires e in db.enrollments && e in db'.enrollments && Agrees(c, db, e) && Agrees(c, db', e) && db.events == db'.events
    requires var row, row' := db.enrollments[e], db'.enrollments[e];
             row.member == row'.member && row.course == row'.course && (row.status == Withdrawn <==> row'.status == Withdrawn)
    ensures db.enrollments[e] == db'.enrollments[e] && db.projections[e] == db'.projections[e]
  {
    assert db.Rows(e) == db'.Rows(e);
  }

  lemma RowsDetermine(c: Content, db: Db, db': Db)
    requires AllAgree(c, db) && AllAgree(c, db') && db.events == db'.events && SameButProgress(db, db')
    requires db.projections.Keys == db.enrollments.Keys && db'.projections.Keys == db'.enrollments.Keys
    ensures db == db'
  {
    forall e | e in db.enrollments
      ensures db.enrollments[e] == db'.enrollments[e] && db.projections[e] == db'.projections[e]
    {
      LogDeterminesRow(c, db, db', e);
    }
  }

  lemma OneRowEach(c: Content, db: Db)
    requires Clean(c, db)
    ensures AllAgree(c, db) && db.projections.Keys == db.enrollments.Keys
  {
    assert forall e | e in db.enrollments :: Agrees(c, db, e);
  }

  /** A clean state is a function of its enrollments, its withdrawals and its log. */
  lemma LogDetermines(c: Content, db: Db, db': Db)
    requires Clean(c, db) && Clean(c, db') && db.events == db'.events && SameButProgress(db, db')
    ensures db == db'
  {
    OneRowEach(c, db);
    OneRowEach(c, db');
    RowsDetermine(c, db, db');
  }

  ghost predicate OpenCompletions(c: Content, db: Db, ops: seq<Op>) {
    forall i | 0 <= i < |ops| ::
      ops[i].CompleteOp? && (ops[i].enrollment in db.enrollments ==> !c.IsSequential(db.enrollments[ops[i].enrollment].course))
  }

  ghost predicate Adds(c: Content, db: Db, op: Op) {
    && op.CompleteOp? && op.enrollment in db.enrollments
    && var row := db.enrollments[op.enrollment];
       && row.member == op.member && row.status != Withdrawn
       && op.lesson in c.LessonsOf(row.course) && op.lesson !in db.Done(op.enrollment)
  }

  ghost function EventOf(op: Op): Event
    requires op.CompleteOp?
  {
    Event(op.enrollment, op.lesson, op.member)
  }

  /** What a set of completions adds to the log of a database whose courses are open. */
  ghost function NewEvents(c: Content, db: Db, ops: set<Op>): set<Event> {
    set op | op in ops && Adds(c, db, op) :: EventOf(op)
  }

  ghost predicate SameButProgress(db: Db, db': Db) {
    && db'.enrollments.Keys == db.enrollments.Keys
    && forall e | e in db.enrollments ::
         var row, row' := db.enrollments[e], db'.enrollments[e];
         row'.member == row.member && row'.course == row.course && (row'.status == Withdrawn <==> row.status == Withdrawn)
  }

  /** Outside sequential courses a completion is accepted whatever else has been completed. */
  lemma OpenAcceptance(c: Content, db: Db, member: Uuid, e: Uuid, lesson: Uuid)
    requires Valid(c, db) && OpenCompletions(c, db, [CompleteOp(member, e, lesson)])
    ensures Adds(c, db, CompleteOp(member, e, lesson))
            <==> CompleteLesson(c, db, member, e, lesson).1.Accepted? && lesson !in db.Done(e)
  {
    assert [CompleteOp(member, e, lesson)][0] == CompleteOp(member, e, lesson);
    CompleteKeepsValid(c, db, member, e, lesson);
  }

  lemma OneOpenCompletion(c: Content, db: Db, op: Op)
    requires Valid(c, db) && OpenCompletions(c, db, [op])
    ensures SameButProgress(db, Apply(c, db, op))
    ensures Apply(c, db, op).events == db.events + (if Adds(c, db, op) then {EventOf(op)} else {})
    ensures forall e | e in db.enrollments ::
              Apply(c, db, op).Done(e) == db.Done(e) + (if Adds(c, db, op) && e == op.enrollment then {op.lesson} else {})
  {
    assert [op][0] == op;
    OpenAcceptance(c, db, op.member, op.enrollment, op.lesson);
    CompletionDone(c, db, op.member, op.enrollment, op.lesson);
  }

  lemma AddsLater(c: Content, db: Db, op: Op, other: Op)
    requires Valid(c, db) && OpenCompletions(c, db, [op])
    ensures Adds(c, Apply(c, db, op), other)
            <==> Adds(c, db, other) && !(Adds(c, db, op) && other.enrollment == op.enrollment && other.lesson == op.lesson)
  {
    OneOpenCompletion(c, db, op);
  }

  lemma NewEventsSplit(c: Content, db: Db, op: Op, rest: set<Op>)
    requires Valid(c, db) && OpenCompletions(c, db, [op])
    ensures db.events + NewEvents(c, db, {op} + rest)
            == Apply(c, db, op).events + NewEvents(c, Apply(c, db, op), rest)
  {
    var next := Apply(c, db, op);
    OneOpenCompletion(c, db, op);
    forall other { AddsLater(c, db, op, other); }
    var all, later := NewEvents(c, db, {op} + rest), NewEvents(c, next, rest);
    forall v | v in all ensures v in next.events || v in later {
      var r :| r in {op} + rest && Adds(c, db, r) && v == EventOf(r);
    }
  }

  lemma OpenStep(c: Content, db: Db, ops: seq<Op>)
    requires Clean(c, db) && OpenCompletions(c, db, ops) && ops != []
    ensures var next := Apply(c, db, ops[0]);
            Clean(c, next) && SameButProgress(db, next) && OpenCompletions(c, next, ops[1..])
  {
    FirstIsOpen(c, db, ops);
    OneOpenCompletion(c, db, ops[0]);
    ApplyKeepsClean(c, db, ops[0]);
    RestIsOpen(c, db, Apply(c, db, ops[0]), ops);
  }

  lemma OpenEvents(c: Content, db: Db, ops: seq<Op>)
    requires Valid(c, db) && OpenCompletions(c, db, ops) && ops != []
    ensures var next := Apply(c, db, ops[0]);
            db.events + NewEvents(c, db, OpsOf(ops)) == next.events + NewEvents(c, next, OpsOf(ops[1..]))
  {
    FirstIsOpen(c, db, ops);
    NewEventsSplit(c, db, ops[0], OpsOf(ops[1..]));
    assert OpsOf(ops) == {ops[0]} + OpsOf(ops[1..]);
  }

  ghost function OpsOf(ops: seq<Op>): set<Op> {
    set op | op in ops
  }

  lemma FirstIsOpen(c: Content, db: Db, ops: seq<Op>)
    requires OpenCompletions(c, db, ops) && ops != []
    ensures OpenCompletions(c, db, [ops[0]])
  {
  }

  lemma RestIsOpen(c: Content, db: Db, next: Db, ops: seq<Op>)
    requires OpenCompletions(c, db, ops) && ops != [] && SameButProgress(db, next)
    ensures OpenCompletions(c, next, ops[1..])
  {
  }

  lemma SameTrans(db: Db, db1: Db, db2: Db)
    requires SameButProgress(db, db1) && SameButProgress(db1, db2)
    ensures SameButProgress(db, db2)
  {
  }

  lemma {:induction false} OpenRun(c: Content, db: Db, ops: seq<Op>)
    requires Clean(c, db) && OpenCompletions(c, db, ops)
    ensures var db' := ApplyAll(c, db, ops);
            && Clean(c, db') && SameButProgress(db, db')
            && db'.events == db.events + NewEvents(c, db, OpsOf(ops))
    decreases |ops|
  {
    if ops == [] {
      assert NewEvents(c, db, OpsOf(ops)) == {};
    } else {
      var next := Apply(c, db, ops[0]);
      OpenStep(c, db, ops);
      OpenEvents(c, db, ops);
      OpenRun(c, next, ops[1..]);
      SameTrans(db, next, ApplyAll(c, next, ops[1..]));
    }
  }

  /** In open courses only the set of requests matters: any two deliveries of the same
      completions, in any order and with any repeats, reach the same database. */
  lemma OrderDoesNotMatter(c: Content, db: Db, ops: seq<Op>, others: seq<Op>)
    requires Clean(c, db) && OpenCompletions(c, db, ops) && OpenCompletions(c, db, others)
    requires forall op :: op in ops <==> op in others
    ensures ApplyAll(c, db, ops) == ApplyAll(c, db, others)
  {
    OpenRun(c, db, ops);
    OpenRun(c, db, others);
    assert OpsOf(ops) == OpsOf(others);
    LogDetermines(c, ApplyAll(c, db, ops), ApplyAll(c, db, others));
  }
}
