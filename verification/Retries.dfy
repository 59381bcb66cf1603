/**
 What holds over time however transactions interleave: percentages do not fall, and a request that has
 been answered once can be sent again at any later moment without effect.
 */
module Retries {
  import opened Wrappers
  import opened Catalog
  import opened ProgressLog
  import opened ProgressRuns
  import opened Transactions
  import opened Serializability
  import opened ConcurrentRepair
  import opened SerialOrder

  /** Nothing that a run commits deletes an enrollment. */
  ghost predicate Kept(c: Content, s: System, actions: seq<Action>, e: Uuid) {
    Survives(Changes(c, s, actions), e)
  }

  /** Along every interleaving the percentage of a surviving enrollment never falls. */
  lemma PercentNeverFallsInterleaved(c: Content, s: System, actions: seq<Action>, e: Uuid)
    requires RepairInv(c, s) && Clean(c, s.db) && e in s.db.enrollments && Kept(c, s, actions, e)
    ensures var db' := Run(c, s, actions).db;
            e in s.db.projections && e in db'.projections && s.db.projections[e].percent <= db'.projections[e].percent
  {
    assert Agrees(c, s.db, e);
    ChangesExplainRun(c, s, actions);
    PercentNeverFalls(c, s.db, Changes(c, s, actions), e);
  }

  /** What follows a commit, as a run of operations. */
  lemma RunAfterCommit(c: Content, s: System, t: TxnId, actions: seq<Action>)
    requires RepairInv(c, s) && Commits(c, s, t).Some?
    ensures var next := Step(c, s, Commit(t));
            next.db == Commits(c, s, t).value.0 && Run(c, next, actions).db == ApplyAll(c, next.db, Changes(c, next, actions))
  {
    StepKeepsRepairInv(c, s, Commit(t));
    ChangesExplainRun(c, Step(c, s, Commit(t)), actions);
  }

  /** After a completion has committed, the same request changes nothing whenever it is served again; it is
      answered as recorded before, or refused because the enrollment has been withdrawn since. */
  lemma CompletionRetried(c: Content, s: System, t: TxnId, actions: seq<Action>)
    requires RepairInv(c, s) && Clean(c, s.db) && Commits(c, s, t).Some? && s.work[t].Completing?
    requires Kept(c, Step(c, s, Commit(t)), actions, s.work[t].enrollment)
    ensures var w, later := s.work[t], Run(c, Step(c, s, Commit(t)), actions).db;
            && w.enrollment in later.enrollments
            && CompleteLesson(c, later, w.member, w.enrollment, w.lesson)
               == (later, if later.enrollments[w.enrollment].status == Withdrawn then EnrollmentWithdrawn else Accepted(w.enrollment, false))
  {
    CompletionCommits(c, s, t);
    RunAfterCommit(c, s, t, actions);
    CompletedOnce(c, s.db, s.work[t], Step(c, s, Commit(t)).db, Changes(c, Step(c, s, Commit(t)), actions));
  }

  lemma CompletedOnce(c: Content, db: Db, w: Work, next: Db, changes: seq<Op>)
    requires w.Completing? && Clean(c, db) && Survives(changes, w.enrollment)
    requires CompleteLesson(c, db, w.member, w.enrollment, w.lesson).0 == next
    requires CompleteLesson(c, db, w.member, w.enrollment, w.lesson).1.Accepted?
    ensures var later := ApplyAll(c, next, changes);
            && w.enrollment in later.enrollments
            && CompleteLesson(c, later, w.member, w.enrollment, w.lesson)
               == (later, if later.enrollments[w.enrollment].status == Withdrawn then EnrollmentWithdrawn else Accepted(w.enrollment, false))
  {
    CompletionIsIdempotent(c, db, w.member, w.enrollment, w.lesson, changes);
  }

  /** So does a transaction that retries it: its commit, if it gets there, changes nothing. */
  lemma RetryCommitsNothing(c: Content, s: System, t: TxnId, actions: seq<Action>, u: TxnId)
    requires RepairInv(c, s) && Clean(c, s.db) && Commits(c, s, t).Some? && s.work[t].Completing?
    requires Kept(c, Step(c, s, Commit(t)), actions, s.work[t].enrollment)
    requires var s' := Run(c, Step(c, s, Commit(t)), actions);
             Commits(c, s', u).Some? && s'.work[u].Completing? && RequestOf(s'.work[u]) == RequestOf(s.work[t])
    ensures var s' := Run(c, Step(c, s, Commit(t)), actions);
            Commits(c, s', u).value.0 == s'.db && ReplyOf(c, s'.work[u]) == Answered(Accepted(s.work[t].enrollment, false))
  {
    var next := Step(c, s, Commit(t));
    StepKeepsRepairInv(c, s, Commit(t));
    RunKeepsRepairInv(c, next, actions);
    CompletionRetried(c, s, t, actions);
    CompletionCommits(c, Run(c, next, actions), u);
  }

  /** After an enrollment has committed, the same request, whatever id it brings, finds it and changes nothing. */
  lemma EnrollmentRetried(c: Content, s: System, t: TxnId, actions: seq<Action>, retryId: Uuid)
    requires RepairInv(c, s) && Clean(c, s.db) && Commits(c, s, t).Some? && s.work[t].Enrolling? && Current(s, s.work[t])
    requires Kept(c, Step(c, s, Commit(t)), actions, s.work[t].enrolled.enrollment)
    ensures var w, later := s.work[t], Run(c, Step(c, s, Commit(t)), actions).db;
            Enroll(c, later, w.member, w.course, retryId) == (later, Accepted(w.enrolled.enrollment, false))
  {
    EnrollIsServed(c, s, t);
    RunAfterCommit(c, s, t, actions);
    EnrolledOnce(c, s.db, s.work[t], Step(c, s, Commit(t)).db, s.work[t].enrolled.enrollment, Changes(c, Step(c, s, Commit(t)), actions), retryId);
  }

  lemma EnrolledOnce(c: Content, db: Db, w: Work, next: Db, e: Uuid, changes: seq<Op>, retryId: Uuid)
    requires w.Enrolling? && Clean(c, db) && Survives(changes, e)
    requires Enroll(c, db, w.member, w.course, w.newId).0 == next && Enroll(c, db, w.member, w.course, w.newId).1.Accepted?
    requires Enroll(c, db, w.member, w.course, w.newId).1.enrollment == e
    ensures var later := ApplyAll(c, next, changes);
            Enroll(c, later, w.member, w.course, retryId) == (later, Accepted(e, false))
  {
    EnrollmentIsIdempotent(c, db, w.member, w.course, w.newId, changes, retryId);
  }
}
