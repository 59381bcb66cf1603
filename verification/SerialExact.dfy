/**
 Exactly when every run is serializable.
 */
module SerialExact {
  import opened Wrappers
  import opened Catalog
  import opened ProgressLog
  import opened ProgressInvariants
  import opened Transactions
  import opened ConcurrentRepair
  import opened RepairRace
  import opened SerialOrder
  import opened SerialRuns
  import opened ResetAnomaly

  // ---------------------------------------------------------------- a history with a reconcile

  ghost function OpOf(db: Db, r: Request): Op {
    match r
    case EnrollRequest(member, course, newId) => EnrollOp(member, course, newId)
    case CompleteRequest(member, e, lesson) => CompleteOp(member, e, lesson)
    case WithdrawRequest(e) => WithdrawOp(e)
    case ResetRequest(members) => DeleteOp(EnrollmentsOf(db, members))
    case ReconcileRequest => ReconcileOp
  }

  lemma ServeIsApply(c: Content, db: Db, r: Request)
    ensures Serve(c, db, r).0 == Apply(c, db, OpOf(db, r))
  {
  }

  lemma ServeKeepsAgreement(c: Content, db: Db, r: Request)
    requires Valid(c, db)
    ensures Valid(c, Serve(c, db, r).0)
    ensures AllAgree(c, db) || r.ReconcileRequest? ==> AllAgree(c, Serve(c, db, r).0)
  {
    ServeIsApply(c, db, r);
    ApplyKeepsValid(c, db, OpOf(db, r));
    if AllAgree(c, db) || r.ReconcileRequest? {
      forall e | e in Serve(c, db, r).0.enrollments ensures Agrees(c, Serve(c, db, r).0, e) {
        StepAgrees(c, db, OpOf(db, r), e);
      }
    }
  }

  /** Whatever else it serves, a history with a reconcile in it leaves no drift. */
  lemma {:induction false} RepairedHistory(c: Content, db: Db, history: seq<Entry>, end: Db)
    requires Valid(c, db) && Explains(c, db, history, end)
    requires AllAgree(c, db) || exists entry | entry in history :: entry.request.ReconcileRequest?
    ensures AllAgree(c, end)
    decreases |history|
  {
    if history == [] {
    } else {
      var next := Serve(c, db, history[0].request).0;
      ServeKeepsAgreement(c, db, history[0].request);
      if !AllAgree(c, next) {
        var entry :| entry in history && entry.request.ReconcileRequest?;
        assert entry in history[1..];
      }
      RepairedHistory(c, next, history[1..], end);
    }
  }

  lemma NoneExplains(c: Content, db: Db, committed: seq<Entry>, end: Db, entry: Entry)
    requires Valid(c, db) && entry in committed && entry.request.ReconcileRequest? && !AllAgree(c, end)
    ensures forall history: seq<Entry> | multiset(history) == multiset(committed) :: !Explains(c, db, history, end)
  {
    forall history: seq<Entry> | multiset(history) == multiset(committed) ensures !Explains(c, db, history, end) {
      assert entry in multiset(history);
      if Explains(c, db, history, end) {
        RepairedHistory(c, db, history, end);
      }
    }
  }

  /** The run in which the reconcile stores counts that miss a completion, and its reconcile's entry. */
  lemma RaceHistory(c: Content, db: Db) returns (all: seq<Action>, entry: Entry)
    requires Valid(c, db) && !RepairSafe(c, db)
    ensures Plain(all) && !AllAgree(c, Run(c, Init(db), all).db)
    ensures entry.request.ReconcileRequest? && entry in CommitHistory(c, Init(db), all)
  {
    var actions := RaceRun(c, db);
    var s := Run(c, Init(db), actions);
    all := actions + [Commit(0)];
    HistoryOn(c, Init(db), actions, Commit(0));
    entry := Entry(Some(0), ReconcileRequest, ReplyOf(c, s.work[0]));
    assert Committed(c, s, Commit(0)) == [entry];
    assert entry in [entry];
  }

  /** Where concurrent repair can fail, it fails in a run that no serial order explains. */
  lemma RaceIsNotSerializable(c: Content, db: Db)
    requires Valid(c, db) && !RepairSafe(c, db)
    ensures exists actions :: Plain(actions) && !Serializable(c, db, actions)
  {
    var all, entry := RaceHistory(c, db);
    NoneExplains(c, db, CommitHistory(c, Init(db), all), Run(c, Init(db), all).db, entry);
    assert Plain(all) && !Serializable(c, db, all);
  }

  // ---------------------------------------------------------------- the exact conditions

  /** Every run in which nothing is reset, or nobody enrolls, is serializable exactly when each enrollment
      of the starting database has its projection row, or is withdrawn, or has no lesson left to complete. */
  lemma SeparateRunsAreSerializableExactly(c: Content, db: Db)
    requires Valid(c, db)
    ensures (forall actions | ResetFree(actions) || EnrollFree(c, actions) :: Serializable(c, db, actions)) <==> RepairSafe(c, db)
  {
    if RepairSafe(c, db) {
      forall actions | ResetFree(actions) || EnrollFree(c, actions) ensures Serializable(c, db, actions) {
        if ResetFree(actions) {
          ResetFreeRunsAreSerializable(c, db, actions);
        } else {
          EnrollFreeRunsAreSerializable(c, db, actions);
        }
      }
    } else {
      RaceIsNotSerializable(c, db);
      var actions :| Plain(actions) && !Serializable(c, db, actions);
      assert ResetFree(actions);
    }
  }

  /** Every run at all is, exactly when besides no course is published. */
  lemma AllRunsAreSerializableExactly(c: Content, db: Db)
    requires Valid(c, db)
    ensures (forall actions :: Serializable(c, db, actions)) <==> RepairSafe(c, db) && forall course :: !c.IsPublished(course)
  {
    SeparateRunsAreSerializableExactly(c, db);
    if course :| c.IsPublished(course) {
      ResetsAreNotSerializable(c, db, course);
      var actions :| Unexplained(c, db, actions);
      assert !Serializable(c, db, actions);
    } else {
      assert forall actions :: EnrollFree(c, actions);
    }
  }

  // ---------------------------------------------------------------- a harmless newcomer

  lemma {:induction false} LastIsCurrent(c: Content, s: System, actions: seq<Action>, t: TxnId)
    requires NoNewcomers(c, s, actions + [Commit(t)])
    requires var s' := Run(c, s, actions); Commits(c, s', t).Some? && s'.work[t].Resetting?
    ensures Current(Run(c, s, actions), Run(c, s, actions).work[t])
    decreases |actions|
  {
    if actions == [] {
      assert ([] + [Commit(t)])[0] == Commit(t);
    } else {
      assert (actions + [Commit(t)])[0] == actions[0] && (actions + [Commit(t)])[1..] == actions[1..] + [Commit(t)];
      LastIsCurrent(c, Step(c, s, actions[0]), actions[1..], t);
    }
  }

  /** A reset starts, x enrolls, and the reset commits without having seen it. */
  lemma ResetMissesOne(c: Content, k: Cast, db: Db) returns (actions: seq<Action>)
    requires At(k, db, false, false) && c.IsPublished(k.course)
    ensures var s := Run(c, Init(db), actions);
            && s.db == Enroll(c, db, k.x, k.course, k.p).0 && s.locks == map[]
            && s.work == map[1 := Resetting({k.x, k.y}, db.enrollments.Keys, {}, {})]
            && CommitHistory(c, Init(db), actions) == [k.First()]
  {
    var s := Step(c, Init(db), BeginReset(1, {k.x, k.y}));
    DeletesServed(c, k, db, false, false);
    assert s == Init(db).(work := map[1 := Resetting({k.x, k.y}, db.enrollments.Keys, {}, {})]);
    assert Run(c, Init(db), []) == Init(db) && CommitHistory(c, Init(db), []) == [];
    GoesSilently(c, Init(db), Init(db), [], BeginReset(1, {k.x, k.y}), s);
    assert Find(db, k.x, k.course) == None;
    var s' := EnrollAlone(c, Init(db), s, [], 0, k.x, k.course, k.p);
    assert [] + [k.First()] == [k.First()];
    actions :| Run(c, Init(db), actions) == s' && CommitHistory(c, Init(db), actions) == [k.First()];
  }

  lemma ResetFirst(c: Content, k: Cast, db: Db)
    requires At(k, db, false, false) && c.IsPublished(k.course)
    ensures Explains(c, db, [Entry(Some(1), ResetRequest({k.x, k.y}), Deleted(0)), k.First()], Enroll(c, db, k.x, k.course, k.p).0)
  {
    var history, end := [Entry(Some(1), ResetRequest({k.x, k.y}), Deleted(0)), k.First()], Enroll(c, db, k.x, k.course, k.p).0;
    NothingToReset(c, k, db);
    FirstServed(c, k, db, false, false);
    FirstEntry(c, db, k.First(), [], end);
    FirstEntry(c, db, history[0], [k.First()], end);
    assert history == [history[0]] + [k.First()] && [k.First()] == [k.First()] + [];
  }

  lemma NothingToReset(c: Content, k: Cast, db: Db)
    requires At(k, db, false, false)
    ensures Serve(c, db, ResetRequest({k.x, k.y})) == (db, Deleted(0))
  {
    TheirEnrollments(k, db, false, false);
    DeletingNothing(db);
  }

  lemma FirstEntry(c: Content, db: Db, entry: Entry, rest: seq<Entry>, end: Db)
    requires Serve(c, db, entry.request).1 == entry.reply && Explains(c, Serve(c, db, entry.request).0, rest, end)
    ensures Explains(c, db, [entry] + rest, end)
  {
    assert ([entry] + rest)[1..] == rest;
  }

  lemma MissedCommit(c: Content, k: Cast, db: Db, s: System)
    requires At(k, db, false, false) && c.IsPublished(k.course) && s.locks == map[]
    requires s.db == Enroll(c, db, k.x, k.course, k.p).0 && s.work == map[1 := Resetting({k.x, k.y}, db.enrollments.Keys, {}, {})]
    ensures Commits(c, s, 1).Some? && !Current(s, s.work[1]) && Step(c, s, Commit(1)).db == s.db
    ensures Committed(c, s, Commit(1)) == [Entry(Some(1), ResetRequest({k.x, k.y}), Deleted(0))]
  {
    Unseen(c, k, db, s.db);
    DeletingNothing(s.db);
    assert Commits(c, s, 1) == Some((Delete(s.db, {}), {}));
  }

  lemma Unseen(c: Content, k: Cast, db: Db, next: Db)
    requires At(k, db, false, false) && c.IsPublished(k.course) && next == Enroll(c, db, k.x, k.course, k.p).0
    ensures k.p in EnrollmentsOf(next, {k.x, k.y}) && k.p !in db.enrollments.Keys
  {
    FirstServed(c, k, db, false, false);
  }

  lemma DeletingNothing(db: Db)
    ensures Delete(db, {}) == db
  {
    var same := Delete(db, {});
    assert same.enrollments == db.enrollments && same.events == db.events && same.projections == db.projections;
  }

  /** That no reset commits past a newcomer is sufficient only: a run in which one does is serializable too
      when the reset can be taken to have come first. */
  lemma NewcomersCanBeHarmless(c: Content, db: Db, course: Uuid)
    requires c.IsPublished(course)
    ensures exists actions :: !NoNewcomers(c, Init(db), actions) && Serializable(c, db, actions)
  {
    var k := SomeCast(c, db, course);
    var actions := ResetMissesOne(c, k, db);
    var s, all := Run(c, Init(db), actions), actions + [Commit(1)];
    MissedCommit(c, k, db, s);
    HistoryOn(c, Init(db), actions, Commit(1));
    if NoNewcomers(c, Init(db), all) {
      LastIsCurrent(c, Init(db), actions, 1);
    }
    Reordered(c, k, db, all);
  }

  lemma Reordered(c: Content, k: Cast, db: Db, all: seq<Action>)
    requires At(k, db, false, false) && c.IsPublished(k.course)
    requires CommitHistory(c, Init(db), all) == [k.First()] + [Entry(Some(1), ResetRequest({k.x, k.y}), Deleted(0))]
    requires Run(c, Init(db), all).db == Enroll(c, db, k.x, k.course, k.p).0
    ensures Serializable(c, db, all)
  {
    var entry := Entry(Some(1), ResetRequest({k.x, k.y}), Deleted(0));
    ResetFirst(c, k, db);
    assert multiset([entry, k.First()]) == multiset([k.First()] + [entry]);
  }
}
