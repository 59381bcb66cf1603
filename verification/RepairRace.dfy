/**
 Exactly when repair under concurrency can be trusted. A completion of an enrollment without a
 projection row rewrites no enrollment row, so the reconciler's snapshot conflict does not fire:
 the reconciler then stores counts that miss the completion.
 */
module RepairRace {
  import opened Wrappers
  import opened Catalog
  import opened ProgressLog
  import opened ProgressInvariants
  import opened Transactions
  import opened ConcurrentRepair

  /** Nothing is reset and nobody enrolls. */
  ghost predicate Plain(actions: seq<Action>) {
    forall i | 0 <= i < |actions| :: !actions[i].BeginReset? && !actions[i].BeginEnroll?
  }

  ghost predicate Reaches(c: Content, s: System, s': System) {
    exists actions :: Plain(actions) && Run(c, s, actions) == s'
  }

  lemma {:induction false} RunConcat(c: Content, s: System, before: seq<Action>, after: seq<Action>)
    ensures Run(c, s, before + after) == Run(c, Run(c, s, before), after)
    decreases |before|
  {
    if before == [] {
      assert before + after == after;
    } else {
      RunConcat(c, Step(c, s, before[0]), before[1..], after);
      assert (before + after)[1..] == before[1..] + after;
    }
  }

  lemma ReachesStep(c: Content, s: System, s': System, a: Action)
    requires Reaches(c, s, s') && !a.BeginReset? && !a.BeginEnroll?
    ensures Reaches(c, s, Step(c, s', a))
  {
    var actions :| Plain(actions) && Run(c, s, actions) == s';
    RunConcat(c, s, actions, [a]);
    var next := Step(c, s', a);
    assert Run(c, next, [a][1..]) == next;
    assert Run(c, s', [a]) == next;
    assert Run(c, s, actions + [a]) == next;
  }

  /** A lesson the owner of a non-withdrawn enrollment can complete next. */
  ghost predicate CanLearn(c: Content, db: Db, e: Uuid, lesson: Uuid) {
    && e in db.enrollments
    && Refusal(c, db, db.enrollments[e].member, e, lesson) == None
    && lesson !in db.Done(e)
  }

  lemma SomethingToLearn(c: Content, db: Db, e: Uuid)
    requires Valid(c, db) && e in db.enrollments && !Settled(c, db, e)
    ensures exists lesson :: CanLearn(c, db, e, lesson)
  {
    var row := db.enrollments[e];
    var undone := c.LessonsOf(row.course) - db.Done(e);
    var some :| some in c.LessonsOf(row.course) && some !in db.Done(e);
    assert some in undone;
    c.FirstExists(row.course, undone);
    var lesson :| c.IsFirst(undone, lesson);
    forall k | k in c.LessonsOf(row.course) && c.Earlier(k, lesson) ensures k in db.Done(e) {
      assert k in undone ==> k == lesson || c.Earlier(lesson, k);
    }
    assert !UnfinishedEarlier(c, db, e, row.course, lesson);
    assert CanLearn(c, db, e, lesson);
  }

  /** A reconcile with its snapshot open, and a completion at a given stage. */
  ghost function Racing(db: Db, e: Uuid, lesson: Uuid, stage: CompleteStage): System
    requires e in db.enrollments
  {
    System(db, if stage.ToLock? then map[] else map[e := 1],
           map[0 := Reconciling(db, {}, {}, false), 1 := Completing(db.enrollments[e].member, e, lesson, stage)],
           db.enrollments.Keys)
  }

  lemma RaceStarts(c: Content, db: Db, e: Uuid, lesson: Uuid)
    requires e in db.enrollments
    ensures Reaches(c, Init(db), Racing(db, e, lesson, ToLock))
  {
    assert Run(c, Init(db), []) == Init(db);
    ReachesStep(c, Init(db), Init(db), BeginReconcile(0));
    var s := Step(c, Init(db), BeginReconcile(0));
    ReachesStep(c, Init(db), s, BeginComplete(1, db.enrollments[e].member, e, lesson));
    assert Step(c, s, BeginComplete(1, db.enrollments[e].member, e, lesson)) == Racing(db, e, lesson, ToLock);
  }

  ghost function NextStage(row: Enrollment, stage: CompleteStage): CompleteStage {
    match stage
    case ToLock => ToOrder(row)
    case ToOrder(_) => ToAppend(row)
    case ToAppend(_) => ToProject(row, true)
    case ToProject(_, _) => ToStatus(row, true, None)
    case ToStatus(_, _, _) => ToCommit(row, true, None, None)
    case ToCommit(_, _, _, _) => stage
  }

  /** Without a projection row both updates of the completion match nothing. */
  lemma RaceAdvance(c: Content, db: Db, e: Uuid, lesson: Uuid, stage: CompleteStage)
    requires CanLearn(c, db, e, lesson) && e !in db.projections
    requires var row := db.enrollments[e];
             stage in {ToLock, ToOrder(row), ToAppend(row), ToProject(row, true), ToStatus(row, true, None)}
    requires Reaches(c, Init(db), Racing(db, e, lesson, stage))
    ensures Reaches(c, Init(db), Racing(db, e, lesson, NextStage(db.enrollments[e], stage)))
  {
    var s, next := Racing(db, e, lesson, stage), Racing(db, e, lesson, NextStage(db.enrollments[e], stage));
    ReachesStep(c, Init(db), s, Advance(1));
    var s' := Step(c, s, Advance(1));
    assert s'.work[1] == next.work[1] && s'.work[0] == next.work[0];
    assert s'.work == next.work;
    assert s'.locks == next.locks;
    assert s' == next;
  }

  lemma RaceAdvances(c: Content, db: Db, e: Uuid, lesson: Uuid)
    requires CanLearn(c, db, e, lesson) && e !in db.projections
    ensures Reaches(c, Init(db), Racing(db, e, lesson, ToCommit(db.enrollments[e], true, None, None)))
  {
    var row := db.enrollments[e];
    RaceStarts(c, db, e, lesson);
    RaceAdvance(c, db, e, lesson, ToLock);
    RaceAdvance(c, db, e, lesson, ToOrder(row));
    RaceAdvance(c, db, e, lesson, ToAppend(row));
    RaceAdvance(c, db, e, lesson, ToProject(row, true));
    RaceAdvance(c, db, e, lesson, ToStatus(row, true, None));
  }

  /** A reconciler at work on its snapshot, with the given rows locked, while `now` is committed. */
  ghost function Repairing(snapshot: Db, now: Db, locked: set<Uuid>, written: bool): System {
    System(now, map d | d in locked :: 0, map[0 := Reconciling(snapshot, {}, locked, written)], snapshot.enrollments.Keys)
  }

  /** The database once the completion has committed, unseen by the reconciler. */
  ghost function Missed(db: Db, e: Uuid, lesson: Uuid): Db
    requires e in db.enrollments
  {
    Appended(db, e, lesson, db.enrollments[e].member)
  }

  lemma RaceCommits(c: Content, db: Db, e: Uuid, lesson: Uuid)
    requires e in db.enrollments && lesson !in db.Done(e)
    ensures var s := Racing(db, e, lesson, ToCommit(db.enrollments[e], true, None, None));
            Step(c, s, Commit(1)) == Repairing(db, Missed(db, e, lesson), {}, false)
  {
    var s, next := Racing(db, e, lesson, ToCommit(db.enrollments[e], true, None, None)), Repairing(db, Missed(db, e, lesson), {}, false);
    var s' := Step(c, s, Commit(1));
    assert s'.work.Keys == next.work.Keys;
    assert s'.work[0] == next.work[0];
    assert s'.work == next.work && s'.locks == next.locks;
  }

  lemma RaceIsMissed(c: Content, db: Db, e: Uuid, lesson: Uuid)
    requires CanLearn(c, db, e, lesson) && e !in db.projections
    ensures Reaches(c, Init(db), Repairing(db, Missed(db, e, lesson), {}, false))
  {
    RaceAdvances(c, db, e, lesson);
    ReachesStep(c, Init(db), Racing(db, e, lesson, ToCommit(db.enrollments[e], true, None, None)), Commit(1));
    RaceCommits(c, db, e, lesson);
  }

  lemma LocksOne(c: Content, db: Db, now: Db, locked: set<Uuid>, d: Uuid)
    requires d in db.enrollments && d in now.enrollments && d !in locked
    ensures Step(c, Repairing(db, now, locked, false), LockRow(0, d)) == Repairing(db, now, locked + {d}, false)
  {
    var s' := Step(c, Repairing(db, now, locked, false), LockRow(0, d));
    assert s'.locks == map k | k in locked + {d} :: 0;
    assert s'.work == map[0 := Reconciling(db, {}, locked + {d}, false)];
  }

  lemma {:induction false} LocksAll(c: Content, db: Db, now: Db, locked: set<Uuid>)
    requires locked <= db.enrollments.Keys <= now.enrollments.Keys
    requires Reaches(c, Init(db), Repairing(db, now, {}, false))
    ensures Reaches(c, Init(db), Repairing(db, now, locked, false))
    decreases locked
  {
    if locked == {} {
    } else {
      var d :| d in locked;
      var rest := locked - {d};
      LocksAll(c, db, now, rest);
      ReachesStep(c, Init(db), Repairing(db, now, rest, false), LockRow(0, d));
      LocksOne(c, db, now, rest, d);
      assert rest + {d} == locked;
    }
  }

  lemma NothingAppeared(c: Content, db: Db, now: Db)
    requires Valid(c, db) && now.projections == db.projections
    ensures CanRewrite(c, db, now)
  {
    RepairKeepsValid(c, db);
  }

  lemma RewriteStep(c: Content, s: System, t: TxnId)
    requires t in s.work && s.work[t].Reconciling?
    requires s.work[t].snapshot.enrollments.Keys <= s.work[t].locked && CanRewrite(c, s.work[t].snapshot, s.db)
    ensures Step(c, s, Advance(t)) == Now(s, t, s.work[t].(written := true))
  {
  }

  lemma Rewrites(c: Content, db: Db, now: Db)
    requires CanRewrite(c, db, now) && Reaches(c, Init(db), Repairing(db, now, db.enrollments.Keys, false))
    ensures Reaches(c, Init(db), Repairing(db, now, db.enrollments.Keys, true))
  {
    var s := Repairing(db, now, db.enrollments.Keys, false);
    ReachesStep(c, Init(db), s, Advance(0));
    RewriteStep(c, s, 0);
    assert Now(s, 0, s.work[0].(written := true)) == Repairing(db, now, db.enrollments.Keys, true);
  }

  /** Once its snapshot is open the reconciler can get to its commit. */
  lemma RepairFinishes(c: Content, db: Db, now: Db)
    requires Valid(c, db) && now.projections == db.projections && now.enrollments == db.enrollments
    requires Reaches(c, Init(db), Repairing(db, now, {}, false))
    ensures Reaches(c, Init(db), Repairing(db, now, db.enrollments.Keys, true))
  {
    LocksAll(c, db, now, db.enrollments.Keys);
    NothingAppeared(c, db, now);
    Rewrites(c, db, now);
  }

  lemma RepairIsReached(c: Content, db: Db)
    requires Valid(c, db)
    ensures Reaches(c, Init(db), Repairing(db, db, db.enrollments.Keys, true))
  {
    assert Run(c, Init(db), []) == Init(db);
    ReachesStep(c, Init(db), Init(db), BeginReconcile(0));
    assert Step(c, Init(db), BeginReconcile(0)) == Repairing(db, db, {}, false);
    RepairFinishes(c, db, db);
  }

  /** Every database has a run in which a reconcile finishes. */
  lemma RepairCanFinish(c: Content, db: Db)
    requires Valid(c, db)
    ensures exists actions, t :: Finishes(Run(c, Init(db), actions), t)
  {
    RepairIsReached(c, db);
    var actions :| Plain(actions) && Run(c, Init(db), actions) == Repairing(db, db, db.enrollments.Keys, true);
    assert Finishes(Run(c, Init(db), actions), 0);
  }

  /** Committing there stores a count that is one short of the log. */
  lemma RaceDrifts(c: Content, db: Db, e: Uuid, lesson: Uuid)
    requires CanLearn(c, db, e, lesson) && e !in db.projections
    ensures var s := Repairing(db, Missed(db, e, lesson), db.enrollments.Keys, true);
            Finishes(s, 0) && !AllAgree(c, Step(c, s, Commit(0)).db)
  {
    var s := Repairing(db, Missed(db, e, lesson), db.enrollments.Keys, true);
    var member := db.enrollments[e].member;
    FinishedDb(c, s, 0);
    var final := Rebuilt(c, db, s.db);
    assert Event(e, lesson, member) !in db.events by {
      assert Event(e, lesson, member) in db.events ==> Event(e, lesson, member).lesson in db.Done(e);
    }
    assert final.Rows(e) == db.Rows(e) + {Event(e, lesson, member)};
    assert e in Drifted(c, db);
    assert final.projections[e] == CountsOf(c, db, e);
    assert !Agrees(c, final, e);
  }

  /** From any other database a run of completions and one reconcile, ready to commit, ends in drift. */
  lemma RaceRun(c: Content, db: Db) returns (actions: seq<Action>)
    requires Valid(c, db) && !RepairSafe(c, db)
    ensures var s := Run(c, Init(db), actions);
            Plain(actions) && Finishes(s, 0) && !AllAgree(c, Step(c, s, Commit(0)).db)
  {
    var e :| e in db.enrollments && !Settled(c, db, e);
    SomethingToLearn(c, db, e);
    var lesson :| CanLearn(c, db, e, lesson);
    RaceIsMissed(c, db, e, lesson);
    RepairFinishes(c, db, Missed(db, e, lesson));
    RaceDrifts(c, db, e, lesson);
    actions :| Plain(actions) && Run(c, Init(db), actions) == Repairing(db, Missed(db, e, lesson), db.enrollments.Keys, true);
  }

  /** Repair under concurrency works in every interleaving exactly when every enrollment of the
      starting database has its projection row, or is withdrawn, or has no lesson left to complete.
      Some interleaving does let a reconcile commit. */
  lemma ConcurrentRepairExact(c: Content, db: Db)
    requires Valid(c, db)
    ensures RepairAlwaysWorks(c, db) <==> RepairSafe(c, db)
    ensures exists actions, t :: Finishes(Run(c, Init(db), actions), t)
  {
    RepairCanFinish(c, db);
    if RepairSafe(c, db) {
      forall actions, t | Finishes(Run(c, Init(db), actions), t)
        ensures AllAgree(c, Step(c, Run(c, Init(db), actions), Commit(t)).db)
      {
        InitIsRepairInv(c, db);
        RunKeepsRepairInv(c, Init(db), actions);
        FinishedRepairAgrees(c, Run(c, Init(db), actions), t);
      }
    } else {
      var actions := RaceRun(c, db);
      assert Finishes(Run(c, Init(db), actions), 0);
    }
  }
}
