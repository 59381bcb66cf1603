/**
 The requests behind the transactions, and when a commit leaves the database and gives the reply that
 its request, served alone at that moment, would. (SerialRuns.dfy takes whole runs.)
 */
module SerialOrder {
  import opened Wrappers
  import opened Catalog
  import opened ProgressLog
  import opened Transactions
  import opened Serializability
  import opened ConcurrentRepair

  datatype Request =
    | EnrollRequest(member: Uuid, course: Uuid, newId: Uuid)
    | CompleteRequest(member: Uuid, enrollment: Uuid, lesson: Uuid)
    | WithdrawRequest(enrollment: Uuid)
    | ResetRequest(members: set<Uuid>)
    | ReconcileRequest

  datatype Reply = Answered(outcome: Outcome) | Deleted(rows: nat) | Reported(checked: nat, drifted: set<Uuid>) | Done

  /** A request served alone. */
  ghost function Serve(c: Content, db: Db, r: Request): (Db, Reply) {
    match r
    case EnrollRequest(member, course, newId) =>
      var (db', outcome) := Enroll(c, db, member, course, newId);
      (db', Answered(outcome))
    case CompleteRequest(member, e, lesson) =>
      var (db', outcome) := CompleteLesson(c, db, member, e, lesson);
      (db', Answered(outcome))
    case WithdrawRequest(e) => (Withdraw(db, e), Done)
    case ResetRequest(members) =>
      (Delete(db, EnrollmentsOf(db, members)), Deleted(|EnrollmentsOf(db, members)|))
    case ReconcileRequest => (Repaired(c, db), Reported(|db.enrollments.Keys|, Drifted(c, db)))
  }

  function RequestOf(w: Work): Request {
    match w
    case Enrolling(member, course, newId, _) => EnrollRequest(member, course, newId)
    case Completing(member, e, lesson, _) => CompleteRequest(member, e, lesson)
    case Resetting(members, _, _, _) => ResetRequest(members)
    case Reconciling(_, _, _, _) => ReconcileRequest
  }

  /** What a transaction that is ready to commit will tell its caller. */
  function ReplyOf(c: Content, w: Work): Reply {
    match w
    case Enrolling(_, _, _, ToFinish(e, own, _)) => Answered(Accepted(e, own))
    case Completing(_, e, _, ToCommit(_, appends, _, _)) => Answered(Accepted(e, appends))
    case Resetting(_, _, _, locked) => Deleted(|locked|)
    case Reconciling(snapshot, _, _, _) => Reported(|snapshot.enrollments.Keys|, Drifted(c, snapshot))
    case _ => Done
  }

  // ---------------------------------------------------------------- a commit and its request

  /** Nothing has moved under a transaction that took no lock on it: the enrollment it found is still there
      with its row, and no enrollment has appeared that its statement would have had to see. */
  ghost predicate Current(s: System, w: Work) {
    match w
    case Enrolling(_, _, _, ToFinish(e, _, initializes)) => initializes || e in s.db.projections
    case Resetting(members, present, _, _) => EnrollmentsOf(s.db, members) <= present
    case Reconciling(snapshot, _, _, _) => s.db.enrollments.Keys <= snapshot.enrollments.Keys
    case _ => true
  }

  lemma EnrollIsServed(c: Content, s: System, t: TxnId)
    requires Inv(c, s) && Commits(c, s, t).Some? && s.work[t].Enrolling?
    ensures Serve(c, s.db, RequestOf(s.work[t])) == (Commits(c, s, t).value.0, ReplyOf(c, s.work[t])) <==> Current(s, s.work[t])
  {
    var w := s.work[t];
    var e := w.enrolled.enrollment;
    assert WorkOk(c, s.db, w);
    if w.enrolled.own {
      assert Find(s.db, w.member, w.course) == None;
    } else if e in s.db.enrollments {
      assert HasKey(s.db, e, w.member, w.course);
      assert Find(s.db, w.member, w.course) == Some(e);
      InitializedAgain(s.db, e, c.Total(w.course));
    } else {
      assert Find(s.db, w.member, w.course) != Some(e);
    }
  }

  lemma InitializedAgain(db: Db, e: Uuid, total: nat)
    ensures Initialized(db, e, total) == db <==> e in db.projections
  {
    assert e in Initialized(db, e, total).projections;
  }

  lemma ResetIsServed(c: Content, s: System, t: TxnId)
    requires Inv(c, s) && Commits(c, s, t).Some? && s.work[t].Resetting?
    ensures Serve(c, s.db, RequestOf(s.work[t])) == (Commits(c, s, t).value.0, ReplyOf(c, s.work[t])) <==> Current(s, s.work[t])
  {
    var w := s.work[t];
    assert WorkOk(c, s.db, w);
    var theirs := EnrollmentsOf(s.db, w.members);
    assert w.locked == theirs * w.present;
    SubsetSize(w.locked, theirs);
  }

  lemma ReconcileIsServed(c: Content, s: System, t: TxnId)
    requires RepairInv(c, s) && Commits(c, s, t).Some? && s.work[t].Reconciling?
    ensures Serve(c, s.db, RequestOf(s.work[t])) == (Commits(c, s, t).value.0, ReplyOf(c, s.work[t])) <==> Current(s, s.work[t])
  {
    var snapshot := s.work[t].snapshot;
    SnapshotDrift(c, s, t);
    ReconcileCommits(c, s, t);
    CheckedAll(c, snapshot, s.db);
  }

  lemma CheckedAll(c: Content, snapshot: Db, db: Db)
    requires Drifted(c, snapshot) == Drifted(c, db) && Rebuilt(c, snapshot, db) == Repaired(c, db)
    requires forall e | e in snapshot.enrollments :: e in db.enrollments
    ensures Serve(c, db, ReconcileRequest) == (Rebuilt(c, snapshot, db), Reported(|snapshot.enrollments.Keys|, Drifted(c, snapshot)))
            <==> db.enrollments.Keys <= snapshot.enrollments.Keys
  {
    AsMany(snapshot.enrollments.Keys, db.enrollments.Keys);
    SameReply(Serve(c, db, ReconcileRequest), Repaired(c, db), |db.enrollments.Keys|, |snapshot.enrollments.Keys|, Drifted(c, db));
  }

  lemma AsMany(some: set<Uuid>, all: set<Uuid>)
    requires some <= all
    ensures |all| == |some| <==> all <= some
  {
    SubsetSize(some, all);
    if all <= some {
      assert all == some;
    }
  }

  lemma SameReply(served: (Db, Reply), db: Db, checked: nat, count: nat, drifted: set<Uuid>)
    requires served == (db, Reported(checked, drifted))
    ensures served == (db, Reported(count, drifted)) <==> checked == count
  {
  }

  /** At its commit a transaction leaves the database and gives the reply that its request, served alone
      at that moment, would, exactly when nothing has moved under it. */
  lemma CommitIsServedExactly(c: Content, s: System, t: TxnId)
    requires RepairInv(c, s) && Commits(c, s, t).Some?
    ensures Serve(c, s.db, RequestOf(s.work[t])) == (Commits(c, s, t).value.0, ReplyOf(c, s.work[t])) <==> Current(s, s.work[t])
  {
    match s.work[t]
    case Enrolling(_, _, _, _) => EnrollIsServed(c, s, t);
    case Completing(_, _, _, _) => CompletionCommits(c, s, t);
    case Resetting(_, _, _, _) => ResetIsServed(c, s, t);
    case Reconciling(_, _, _, _) => ReconcileIsServed(c, s, t);
  }

  // ---------------------------------------------------------------- refusals

  /** A completion is refused, at the statement that checks, as its request served alone would be. */
  lemma RefusedAlike(c: Content, s: System, t: TxnId)
    requires Inv(c, s) && t in s.work && s.work[t].Completing?
    ensures var w := s.work[t];
            var refusal := Refusal(c, s.db, w.member, w.enrollment, w.lesson);
            && (w.completed.ToLock? && w.enrollment !in s.locks ==>
                  (Step(c, s, Advance(t)) == s <==> refusal in {Some(NotFound), Some(Forbidden), Some(EnrollmentWithdrawn)}))
            && (w.completed.ToOrder? ==> (Step(c, s, Advance(t)) == s <==> refusal == Some(OutOfOrder)))
            && (refusal.Some? ==> Serve(c, s.db, RequestOf(w)) == (s.db, Answered(refusal.value)))
  {
    var w := s.work[t];
    assert WorkOk(c, s.db, w);
    assert Step(c, s, Advance(t)) == AdvanceComplete(c, s, t, w);
    match w.completed
    case ToLock =>
      if w.enrollment in s.db.enrollments {
        assert Locking(s, t, w.enrollment, w.(completed := ToOrder(s.db.enrollments[w.enrollment]))).work[t] != w;
      }
    case ToOrder(row) =>
      assert Now(s, t, w.(completed := ToAppend(row))).work[t] != w;
    case _ =>
  }

  /** An enrollment in a course that is not published starts no transaction; served alone it finds nothing. */
  lemma UnpublishedAlike(c: Content, s: System, t: TxnId, member: Uuid, course: Uuid, newId: Uuid)
    requires !c.IsPublished(course)
    ensures Step(c, s, BeginEnroll(t, member, course, newId)) == s
    ensures Serve(c, s.db, EnrollRequest(member, course, newId)) == (s.db, Answered(NotFound))
  {
  }
}
