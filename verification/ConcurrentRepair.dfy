/**
 Repair while learners keep working: when a committed reconcile can be trusted, and that runs of
 interleaved transactions never drift.
 */
module ConcurrentRepair {
  import opened Wrappers
  import opened Catalog
  import opened ProgressLog
  import opened ProgressInvariants
  import opened ProgressRuns
  import opened Transactions
  import opened Serializability

  /** Each enrollment has its projection row, or can gain no event any more. */
  ghost predicate RepairSafe(c: Content, db: Db) {
    forall e | e in db.enrollments :: Settled(c, db, e)
  }

  predicate Settled(c: Content, db: Db, e: Uuid)
    requires e in db.enrollments
  {
    e in db.projections || db.enrollments[e].status == Withdrawn || c.LessonsOf(db.enrollments[e].course) <= db.Done(e)
  }

  /** Enrollment e is as the snapshot saw it, except that a missing projection row may have appeared. */
  ghost predicate AsSeen(snapshot: Db, db: Db, e: Uuid) {
    && e in snapshot.enrollments && e in db.enrollments
    && db.enrollments[e] == snapshot.enrollments[e]
    && db.Rows(e) == snapshot.Rows(e)
    && (e in snapshot.projections ==> e in db.projections && db.projections[e] == snapshot.projections[e])
  }

  /** What an open snapshot still says about the committed state. */
  ghost predicate SnapshotOk(c: Content, db: Db, w: Work) {
    w.Reconciling? ==>
      && (forall e | e in w.snapshot.enrollments && e !in w.stale :: AsSeen(w.snapshot, db, e))
      && (forall e | e in db.enrollments && e !in w.snapshot.enrollments :: Agrees(c, db, e))
      && (w.written ==> forall e | e in w.snapshot.enrollments :: e in db.projections ==> e in w.snapshot.projections)
  }

  ghost predicate RepairInv(c: Content, s: System) {
    Inv(c, s) && RepairSafe(c, s.db) && forall t | t in s.work :: SnapshotOk(c, s.db, s.work[t])
  }

  // ---------------------------------------------------------------- a commit of the reconciler

  lemma AsSeenAgrees(c: Content, snapshot: Db, db: Db, e: Uuid)
    requires AsSeen(snapshot, db, e) && (e in db.projections ==> e in snapshot.projections)
    ensures CountsOf(c, db, e) == CountsOf(c, snapshot, e) && ExpectedStatus(c, db, e) == ExpectedStatus(c, snapshot, e)
    ensures Agrees(c, db, e) <==> Agrees(c, snapshot, e)
  {
  }

  lemma SnapshotDrift(c: Content, s: System, t: TxnId)
    requires RepairInv(c, s) && t in s.work && s.work[t].Reconciling? && s.work[t].written
    ensures var snapshot := s.work[t].snapshot;
            && Drifted(c, snapshot) == Drifted(c, s.db)
            && forall e | e in snapshot.enrollments :: e in s.db.enrollments
                 && CountsOf(c, s.db, e) == CountsOf(c, snapshot, e) && ExpectedStatus(c, s.db, e) == ExpectedStatus(c, snapshot, e)
  {
    var w := s.work[t];
    assert WorkOk(c, s.db, w) && SnapshotOk(c, s.db, w);
    forall e | e in w.snapshot.enrollments
      ensures e in s.db.enrollments && CountsOf(c, s.db, e) == CountsOf(c, w.snapshot, e)
      ensures ExpectedStatus(c, s.db, e) == ExpectedStatus(c, w.snapshot, e)
      ensures Agrees(c, s.db, e) <==> Agrees(c, w.snapshot, e)
    {
      assert e in w.locked && e !in w.stale;
      AsSeenAgrees(c, w.snapshot, s.db, e);
    }
  }

  lemma SameDriftSameRepair(c: Content, snapshot: Db, db: Db)
    requires Drifted(c, snapshot) == Drifted(c, db)
    requires forall e | e in Drifted(c, db) :: e in snapshot.enrollments && CountsOf(c, db, e) == CountsOf(c, snapshot, e)
               && ExpectedStatus(c, db, e) == ExpectedStatus(c, snapshot, e) && Storable(CountsOf(c, db, e))
    ensures Rebuilt(c, snapshot, db) == Repaired(c, db)
  {
    var rebuilt, repaired := Rebuilt(c, snapshot, db), Repaired(c, db);
    assert rebuilt.enrollments == repaired.enrollments;
    assert rebuilt.projections == repaired.projections;
  }

  /** Writing what the snapshot implies is exactly repairing the committed state. */
  lemma ReconcileCommits(c: Content, s: System, t: TxnId)
    requires RepairInv(c, s) && t in s.work && s.work[t].Reconciling? && s.work[t].written
    ensures Rebuilt(c, s.work[t].snapshot, s.db) == Repaired(c, s.db)
  {
    SnapshotDrift(c, s, t);
    RepairKeepsValid(c, s.db);
    SameDriftSameRepair(c, s.work[t].snapshot, s.db);
  }

  /** Steps that publish nothing leave the committed state and start at most a fresh snapshot. */
  lemma AdvanceOwn(c: Content, s: System, t: TxnId)
    requires t in s.work
    ensures var s' := Step(c, s, Advance(t));
            && s'.db == s.db && s'.work.Keys == s.work.Keys && (forall u | u in s.work && u != t :: s'.work[u] == s.work[u])
            && (s'.work[t].Reconciling? <==> s.work[t].Reconciling?)
            && (s.work[t].Reconciling? ==>
                  s'.work[t] == s.work[t] ||
                  (s'.work[t] == s.work[t].(written := true) && CanRewrite(c, s.work[t].snapshot, s.db)))
  {
  }

  lemma CommitChange(c: Content, s: System, t: TxnId)
    requires RepairInv(c, s) && Commits(c, s, t).Some?
    ensures Commits(c, s, t).value.0
            == match Change(c, s, Commit(t)) { case None => s.db case Some(op) => Apply(c, s.db, op) }
  {
    var w := s.work[t];
    match w
    case Enrolling(_, _, _, _) => EnrollCommits(c, s, t);
    case Completing(_, _, _, _) => CompletionCommits(c, s, t);
    case Resetting(_, _, _, _) => ResetCommits(c, s, t);
    case Reconciling(_, _, _, _) => ReconcileCommits(c, s, t);
  }

  /** Every step is a step of a one-at-a-time run, or changes nothing that is committed. */
  lemma StepChange(c: Content, s: System, a: Action)
    requires RepairInv(c, s)
    ensures Step(c, s, a).db == match Change(c, s, a) { case None => s.db case Some(op) => Apply(c, s.db, op) }
  {
    if a.Commit? && Commits(c, s, a.t).Some? {
      CommitChange(c, s, a.t);
    } else if a.Advance? && a.t in s.work {
      AdvanceOwn(c, s, a.t);
    }
  }

  // ---------------------------------------------------------------- the invariant is kept

  /** An operation keeps every enrollment that agreed with its log in agreement. */
  lemma StillAgrees(c: Content, s: System, a: Action, e: Uuid)
    requires RepairInv(c, s) && e in Step(c, s, a).db.enrollments && (e in s.db.enrollments ==> Agrees(c, s.db, e))
    ensures Agrees(c, Step(c, s, a).db, e)
  {
    StepChange(c, s, a);
    if Change(c, s, a).Some? {
      StepAgrees(c, s.db, Change(c, s, a).value, e);
    }
  }

  lemma SafeStays(c: Content, db: Db, op: Op)
    requires Valid(c, db) && RepairSafe(c, db)
    ensures RepairSafe(c, Apply(c, db, op))
  {
    var db' := Apply(c, db, op);
    forall e | e in db'.enrollments ensures Settled(c, db', e) {
      if e in db.enrollments {
        assert Settled(c, db, e);
        if op.DeleteOp? {
          DeleteFrame(db, op.ids, e);
          DoneFromRows(db, db', e);
        } else {
          assert Survives([op], e);
          ApplyContinues(c, db, op, e);
        }
      }
    }
  }

  /** A completion that rewrites no enrollment row changed nothing: its enrollment was settled. */
  lemma SilentCompletion(c: Content, s: System, t: TxnId)
    requires RepairInv(c, s) && Commits(c, s, t).Some? && s.work[t].Completing?
    requires s.work[t].enrollment !in Commits(c, s, t).value.1
    ensures Commits(c, s, t).value.0 == s.db
  {
    var w := s.work[t];
    assert WorkOk(c, s.db, w);
    assert Settled(c, s.db, w.enrollment);
  }

  /** What a commit rewrites without telling open snapshots is a projection row that was missing. */
  lemma CommitAsSeen(c: Content, s: System, t: TxnId, snapshot: Db, e: Uuid)
    requires RepairInv(c, s) && Commits(c, s, t).Some? && AsSeen(snapshot, s.db, e) && e !in Commits(c, s, t).value.1
    ensures AsSeen(snapshot, Commits(c, s, t).value.0, e)
  {
    var w := s.work[t];
    assert WorkOk(c, s.db, w);
    if !Holds(w, e) && Inserts(w) != Some(e) {
      CommitFrame(c, s, t, e);
    } else if w.Completing? {
      SilentCompletion(c, s, t);
    } else if w.Enrolling? {
      assert Commits(c, s, t).value.0.Rows(e) == s.db.Rows(e);
    } else if w.Reconciling? {
      RebuiltFrame(c, w.snapshot, s.db, e);
    }
  }

  lemma CommitKeepsSnapshot(c: Content, s: System, t: TxnId, u: TxnId)
    requires RepairInv(c, s) && Commits(c, s, t).Some? && u in s.work && u != t && s.work[u].Reconciling?
    ensures var s' := Step(c, s, Commit(t)); u in s'.work && SnapshotOk(c, s'.db, s'.work[u])
  {
    if s.work[u].written {
      CommitKeepsRows(c, s, t, u);
    }
    SnapshotAfterCommit(c, s, t, u);
    CommitKeepsSeen(c, s, t, u);
    NewcomersAgree(c, s, t, u);
  }

  lemma CommitKeepsSeen(c: Content, s: System, t: TxnId, u: TxnId)
    requires RepairInv(c, s) && Commits(c, s, t).Some? && u in s.work && s.work[u].Reconciling?
    ensures var (db, rewritten) := Commits(c, s, t).value;
            var w := s.work[u];
            forall e | e in w.snapshot.enrollments && e !in w.stale + rewritten :: AsSeen(w.snapshot, db, e)
  {
    var w := s.work[u];
    assert SnapshotOk(c, s.db, w);
    forall e | e in w.snapshot.enrollments && e !in w.stale + Commits(c, s, t).value.1
      ensures AsSeen(w.snapshot, Commits(c, s, t).value.0, e)
    {
      CommitAsSeen(c, s, t, w.snapshot, e);
    }
  }

  /** An enrollment that is not in a snapshot has agreed with its log since it was made. */
  lemma NewcomersAgree(c: Content, s: System, t: TxnId, u: TxnId)
    requires RepairInv(c, s) && Commits(c, s, t).Some? && u in s.work && s.work[u].Reconciling?
    ensures var db := Commits(c, s, t).value.0;
            forall e | e in db.enrollments && e !in s.work[u].snapshot.enrollments :: Agrees(c, db, e)
  {
    assert SnapshotOk(c, s.db, s.work[u]);
    forall e | e in Commits(c, s, t).value.0.enrollments && e !in s.work[u].snapshot.enrollments
      ensures Agrees(c, Commits(c, s, t).value.0, e)
    {
      CommitAgrees(c, s, t, e);
    }
  }

  lemma CommitAgrees(c: Content, s: System, t: TxnId, e: Uuid)
    requires RepairInv(c, s) && Commits(c, s, t).Some? && e in Commits(c, s, t).value.0.enrollments
    requires e in s.db.enrollments ==> Agrees(c, s.db, e)
    ensures Agrees(c, Commits(c, s, t).value.0, e)
  {
    CommitChange(c, s, t);
    if Change(c, s, Commit(t)).Some? {
      StepAgrees(c, s.db, Change(c, s, Commit(t)).value, e);
    }
  }

  /** How a commit looks to an open snapshot. */
  lemma SnapshotAfterCommit(c: Content, s: System, t: TxnId, u: TxnId)
    requires Commits(c, s, t).Some? && u in s.work && u != t && s.work[u].Reconciling?
    ensures var s', w := Step(c, s, Commit(t)), s.work[u];
            && s'.db == Commits(c, s, t).value.0 && u in s'.work
            && s'.work[u] == Reconciling(w.snapshot, w.stale + Commits(c, s, t).value.1, w.locked, w.written)
  {
  }

  /** A row missing from the snapshot of a reconciler about to commit has not appeared. */
  lemma CommitKeepsRows(c: Content, s: System, t: TxnId, u: TxnId)
    requires RepairInv(c, s) && Commits(c, s, t).Some? && u in s.work && u != t && s.work[u].Reconciling? && s.work[u].written
    ensures var snapshot, db := s.work[u].snapshot, Commits(c, s, t).value.0;
            forall e | e in snapshot.enrollments && e in db.projections :: e in snapshot.projections
  {
    var w := s.work[u];
    assert SnapshotOk(c, s.db, w) && WorkOk(c, s.db, w);
    forall e | e in w.snapshot.enrollments && e in Commits(c, s, t).value.0.projections ensures e in w.snapshot.projections {
      assert Holds(w, e);
      HeldByOthers(c, s, t, u, e);
    }
  }

  lemma WithdrawKeepsSnapshot(c: Content, s: System, d: Uuid, u: TxnId)
    requires RepairInv(c, s) && d in s.db.enrollments && d !in s.locks && u in s.work && s.work[u].Reconciling?
    ensures var s' := Step(c, s, WithdrawRow(d)); u in s'.work && SnapshotOk(c, s'.db, s'.work[u])
  {
    var s' := Step(c, s, WithdrawRow(d));
    var w := s.work[u];
    assert SnapshotOk(c, s.db, w);
    assert forall e :: s'.db.Rows(e) == s.db.Rows(e);
    forall e | e in s'.db.enrollments && e !in w.snapshot.enrollments ensures Agrees(c, s'.db, e) {
      StillAgrees(c, s, WithdrawRow(d), e);
    }
  }

  lemma AdvanceKeepsSnapshot(c: Content, s: System, t: TxnId, u: TxnId)
    requires RepairInv(c, s) && u in Step(c, s, Advance(t)).work
    ensures Step(c, s, Advance(t)).db == s.db && SnapshotOk(c, s.db, Step(c, s, Advance(t)).work[u])
  {
    if t in s.work { AdvanceOwn(c, s, t); }
    var w := s.work[u];
    assert SnapshotOk(c, s.db, w);
    if w.Reconciling? && CanRewrite(c, w.snapshot, s.db) {
      var drifted := Drifted(c, w.snapshot);
      forall e | e in w.snapshot.enrollments && e in s.db.projections ensures e in w.snapshot.projections {
        assert e in w.snapshot.projections || e in drifted;
      }
    }
  }

  lemma LockKeepsSnapshot(c: Content, s: System, t: TxnId, e: Uuid, u: TxnId)
    requires RepairInv(c, s) && u in Step(c, s, LockRow(t, e)).work
    ensures Step(c, s, LockRow(t, e)).db == s.db && SnapshotOk(c, s.db, Step(c, s, LockRow(t, e)).work[u])
  {
    if u in s.work { assert SnapshotOk(c, s.db, s.work[u]); }
  }

  lemma OtherKeepsSnapshot(c: Content, s: System, a: Action, u: TxnId)
    requires RepairInv(c, s) && u in Step(c, s, a).work
    requires a.BeginEnroll? || a.BeginComplete? || a.BeginReset? || a.BeginReconcile? || a.Abort?
    ensures Step(c, s, a).db == s.db && SnapshotOk(c, s.db, Step(c, s, a).work[u])
  {
    if u in s.work { assert SnapshotOk(c, s.db, s.work[u]); }
  }

  lemma StepKeepsSnapshot(c: Content, s: System, a: Action, u: TxnId)
    requires RepairInv(c, s) && u in Step(c, s, a).work
    ensures SnapshotOk(c, Step(c, s, a).db, Step(c, s, a).work[u])
  {
    if a.Commit? && Commits(c, s, a.t).Some? {
      if s.work[u].Reconciling? { CommitKeepsSnapshot(c, s, a.t, u); }
    } else if a.WithdrawRow? && Change(c, s, a).Some? {
      if s.work[u].Reconciling? { WithdrawKeepsSnapshot(c, s, a.enrollment, u); }
    } else if a.Advance? {
      AdvanceKeepsSnapshot(c, s, a.t, u);
    } else if a.LockRow? {
      LockKeepsSnapshot(c, s, a.t, a.enrollment, u);
    } else if !a.Commit? && !a.WithdrawRow? {
      OtherKeepsSnapshot(c, s, a, u);
    } else {
      assert SnapshotOk(c, s.db, s.work[u]);
    }
  }

  lemma StepKeepsRepairInv(c: Content, s: System, a: Action)
    requires RepairInv(c, s)
    ensures RepairInv(c, Step(c, s, a))
  {
    var s' := Step(c, s, a);
    StepKeepsInv(c, s, a);
    StepChange(c, s, a);
    if Change(c, s, a).Some? {
      SafeStays(c, s.db, Change(c, s, a).value);
    }
    forall u | u in s'.work ensures SnapshotOk(c, s'.db, s'.work[u]) {
      StepKeepsSnapshot(c, s, a, u);
    }
  }

  // ---------------------------------------------------------------- whole runs

  lemma InitIsRepairInv(c: Content, db: Db)
    requires Valid(c, db) && RepairSafe(c, db)
    ensures RepairInv(c, Init(db))
  {
    InitIsInv(c, db);
  }

  lemma {:induction false} RunKeepsRepairInv(c: Content, s: System, actions: seq<Action>)
    requires RepairInv(c, s)
    ensures RepairInv(c, Run(c, s, actions))
    decreases |actions|
  {
    if actions == [] {
    } else {
      StepKeepsRepairInv(c, s, actions[0]);
      RunKeepsRepairInv(c, Step(c, s, actions[0]), actions[1..]);
    }
  }

  /** The changes a run commits, in order, as operations. */
  ghost function Changes(c: Content, s: System, actions: seq<Action>): seq<Op>
    decreases |actions|
  {
    if actions == [] then [] else
      (match Change(c, s, actions[0]) case None => [] case Some(op) => [op]) + Changes(c, Step(c, s, actions[0]), actions[1..])
  }

  /** Every interleaved run reaches the database that its committed changes reach, applied one at a time. */
  lemma {:induction false} ChangesExplainRun(c: Content, s: System, actions: seq<Action>)
    requires RepairInv(c, s)
    ensures Run(c, s, actions).db == ApplyAll(c, s.db, Changes(c, s, actions))
    decreases |actions|
  {
    if actions == [] {
    } else {
      var s' := Step(c, s, actions[0]);
      StepChange(c, s, actions[0]);
      StepKeepsRepairInv(c, s, actions[0]);
      ChangesExplainRun(c, s', actions[1..]);
      match Change(c, s, actions[0])
      case None =>
        assert [] + Changes(c, s', actions[1..]) == Changes(c, s', actions[1..]);
      case Some(op) =>
        assert ([op] + Changes(c, s', actions[1..]))[1..] == Changes(c, s', actions[1..]);
    }
  }

  /** No drift in any interleaving: from a clean database every committed state agrees with its log
      and keeps sequential courses in order, so a dry run reports nothing. */
  lemma InterleavingsStayClean(c: Content, db: Db, actions: seq<Action>)
    requires Clean(c, db)
    ensures Clean(c, Run(c, Init(db), actions).db) && Drifted(c, Run(c, Init(db), actions).db) == {}
  {
    assert forall e | e in db.enrollments :: Agrees(c, db, e);
    InitIsRepairInv(c, db);
    ChangesExplainRun(c, Init(db), actions);
    RunsStayClean(c, db, Changes(c, Init(db), actions));
  }

  lemma InterleavingsFromEmpty(c: Content, actions: seq<Action>)
    requires c.Valid()
    ensures Clean(c, Run(c, Init(EMPTY), actions).db) && Drifted(c, Run(c, Init(EMPTY), actions).db) == {}
  {
    EmptyIsClean(c);
    InterleavingsStayClean(c, EMPTY, actions);
  }

  /** The reconciler is about to finish successfully. */
  ghost predicate Finishes(s: System, t: TxnId) {
    t in s.work && s.work[t].Reconciling? && s.work[t].written
  }

  /** In every interleaving from db, a reconcile that commits leaves every enrollment agreeing with its log. */
  ghost predicate RepairAlwaysWorks(c: Content, db: Db) {
    forall actions, t | Finishes(Run(c, Init(db), actions), t) ::
      AllAgree(c, Step(c, Run(c, Init(db), actions), Commit(t)).db)
  }

  lemma FinishedDb(c: Content, s: System, t: TxnId)
    requires Finishes(s, t)
    ensures Step(c, s, Commit(t)).db == Rebuilt(c, s.work[t].snapshot, s.db)
  {
  }

  lemma FinishedRepairAgrees(c: Content, s: System, t: TxnId)
    requires RepairInv(c, s) && Finishes(s, t)
    ensures AllAgree(c, Step(c, s, Commit(t)).db)
  {
    FinishedDb(c, s, t);
    ReconcileCommits(c, s, t);
    RepairFixesAll(c, s.db);
  }

  /** ... and the agreement lasts: nothing that runs afterwards brings drift back. */
  lemma {:induction false} AgreementLasts(c: Content, s: System, actions: seq<Action>)
    requires RepairInv(c, s) && AllAgree(c, s.db)
    ensures AllAgree(c, Run(c, s, actions).db)
    decreases |actions|
  {
    if actions == [] {
    } else {
      var s' := Step(c, s, actions[0]);
      StepKeepsRepairInv(c, s, actions[0]);
      forall e | e in s'.db.enrollments ensures Agrees(c, s'.db, e) {
        StillAgrees(c, s, actions[0], e);
      }
      AgreementLasts(c, s', actions[1..]);
    }
  }
}
