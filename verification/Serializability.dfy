/**
 Every commit amounts to one sequential operation on what is committed, and every step keeps what
 the other transactions rely on. (SerialOrder.dfy relates commits to the requests made.)
 */
module Serializability {
  import opened Wrappers
  import opened Catalog
  import opened ProgressLog
  import opened ProgressInvariants
  import opened Transactions

  lemma InitIsInv(c: Content, db: Db)
    requires Valid(c, db)
    ensures Inv(c, Init(db))
  {
  }

  // ---------------------------------------------------------------- what a commit does

  /** The sequential operation that an action's change of the committed state amounts to, if any. An
      enrollment that found its rows in place changes nothing; a reset deletes the rows it locked. */
  ghost function Change(c: Content, s: System, a: Action): Option<Op> {
    match a
    case WithdrawRow(e) => if e in s.db.enrollments && e !in s.locks then Some(WithdrawOp(e)) else None
    case Commit(t) =>
      if Commits(c, s, t) == None then None
      else
        (match s.work[t]
         case Enrolling(member, course, newId, enrolled) =>
           if enrolled.initializes then Some(EnrollOp(member, course, newId)) else None
         case Completing(member, e, lesson, _) => Some(CompleteOp(member, e, lesson))
         case Resetting(_, _, _, locked) => Some(DeleteOp(locked))
         case Reconciling(_, _, _, _) => Some(ReconcileOp))
    case _ => None
  }

  lemma EnrollCommits(c: Content, s: System, t: TxnId)
    requires Inv(c, s) && Commits(c, s, t).Some? && s.work[t].Enrolling?
    ensures match Change(c, s, Commit(t))
            case None => Commits(c, s, t).value.0 == s.db
            case Some(op) => Commits(c, s, t).value.0 == Apply(c, s.db, op)
  {
    var w := s.work[t];
    assert WorkOk(c, s.db, w);
    if !w.enrolled.own && w.enrolled.initializes {
      assert HasKey(s.db, w.enrolled.enrollment, w.member, w.course);
      assert Find(s.db, w.member, w.course) == Some(w.enrolled.enrollment);
    }
  }

  /** What a completion read under the row lock still holds: it ends as it would, run alone, now. */
  lemma CompletionCommits(c: Content, s: System, t: TxnId)
    requires Inv(c, s) && Commits(c, s, t).Some? && s.work[t].Completing?
    ensures var w := s.work[t];
            CompleteLesson(c, s.db, w.member, w.enrollment, w.lesson)
            == (Commits(c, s, t).value.0, Accepted(w.enrollment, w.completed.appends))
  {
    var w := s.work[t];
    assert WorkOk(c, s.db, w);
    assert Refusal(c, s.db, w.member, w.enrollment, w.lesson) == None;
    assert WithOwn(s, w, w.completed.appends) == Appended(s.db, w.enrollment, w.lesson, w.member);
  }

  lemma ResetCommits(c: Content, s: System, t: TxnId)
    requires Commits(c, s, t).Some? && s.work[t].Resetting?
    ensures Commits(c, s, t).value.0 == Apply(c, s.db, Change(c, s, Commit(t)).value)
  {
  }

  /** The schema never refuses a statement: a completion's counts can always be stored, a reconciler's too,
      and no row has the key that an enrolling transaction is inserting. */
  lemma NoStatementIsRefused(c: Content, s: System, t: TxnId)
    requires Inv(c, s) && t in s.work
    ensures match s.work[t]
            case Completing(_, e, _, ToProject(_, appends)) =>
              e in s.db.enrollments && Storable(CountsOf(c, WithOwn(s, s.work[t], appends), e))
            case Reconciling(snapshot, _, _, _) => forall e | e in Drifted(c, snapshot) :: Storable(CountsOf(c, snapshot, e))
            case Enrolling(member, course, newId, _) =>
              newId !in s.db.enrollments && (Pending(s.work[t], member, course) ==> forall e :: !HasKey(s.db, e, member, course))
            case _ => true
  {
    var w := s.work[t];
    assert WorkOk(c, s.db, w);
    match w
    case Completing(_, e, _, ToProject(_, appends)) =>
      assert WithOwn(s, w, appends) == Appended(s.db, e, w.lesson, w.member);
      AppendedIsValid(c, s.db, e, w.lesson, w.member);
      CountsFit(c, WithOwn(s, w, appends), e);
    case Reconciling(snapshot, _, _, _) =>
      RepairKeepsValid(c, snapshot);
    case _ =>
  }

  lemma AppendedIsValid(c: Content, db: Db, e: Uuid, lesson: Uuid, actor: Uuid)
    requires Valid(c, db) && e in db.enrollments && lesson in c.LessonsOf(db.enrollments[e].course)
    ensures Valid(c, Appended(db, e, lesson, actor))
  {
  }

  // ---------------------------------------------------------------- what a commit leaves alone

  /** The id of the row an enrolling transaction inserts at commit. */
  function Inserts(w: Work): Option<Uuid> {
    if w.Enrolling? && w.enrolled.ToFinish? && w.enrolled.own then Some(w.newId) else None
  }

  lemma RebuiltFrame(c: Content, snapshot: Db, db: Db, e: Uuid)
    requires e !in Drifted(c, snapshot)
    ensures Untouched(db, Rebuilt(c, snapshot, db), e)
  {
  }

  /** A commit touches only the enrollments its transaction has locked or inserts. */
  lemma CommitFrame(c: Content, s: System, t: TxnId, e: Uuid)
    requires Inv(c, s) && Commits(c, s, t).Some?
    requires !Holds(s.work[t], e) && Inserts(s.work[t]) != Some(e)
    ensures Untouched(s.db, Commits(c, s, t).value.0, e)
    ensures e !in Commits(c, s, t).value.1
  {
    var w := s.work[t];
    assert WorkOk(c, s.db, w);
    match w
    case Enrolling(_, _, _, _) =>
    case Completing(member, d, lesson, _) =>
      CompletionCommits(c, s, t);
      CompleteTouchesOne(c, s.db, member, d, lesson);
    case Resetting(_, _, _, locked) =>
      DeleteFrame(s.db, locked, e);
    case Reconciling(snapshot, _, _, _) =>
      RebuiltFrame(c, snapshot, s.db, e);
  }

  /** Rows keep their member and course; the only new row is the one being inserted. */
  lemma CommitRows(c: Content, s: System, t: TxnId, e: Uuid)
    requires Inv(c, s) && Commits(c, s, t).Some? && e in Commits(c, s, t).value.0.enrollments
    ensures var w, row := s.work[t], Commits(c, s, t).value.0.enrollments[e];
            if e in s.db.enrollments then row.member == s.db.enrollments[e].member && row.course == s.db.enrollments[e].course
            else Inserts(w) == Some(e) && row == Enrollment(w.member, w.course, Active)
  {
    assert WorkOk(c, s.db, s.work[t]);
  }

  lemma CommitValid(c: Content, s: System, t: TxnId)
    requires Inv(c, s) && Commits(c, s, t).Some?
    ensures Valid(c, Commits(c, s, t).value.0)
  {
    var w := s.work[t];
    match w
    case Enrolling(_, _, _, _) =>
      EnrollCommits(c, s, t);
      if Change(c, s, Commit(t)).Some? { ApplyKeepsValid(c, s.db, Change(c, s, Commit(t)).value); }
    case Completing(_, _, _, _) =>
      CompletionCommits(c, s, t);
      ApplyKeepsValid(c, s.db, Change(c, s, Commit(t)).value);
    case Resetting(_, _, _, _) =>
      ApplyKeepsValid(c, s.db, Change(c, s, Commit(t)).value);
    case Reconciling(snapshot, _, locked, _) =>
      assert WorkOk(c, s.db, w);
      forall e | e in snapshot.enrollments
        ensures e in s.db.enrollments && Storable(CountsOf(c, snapshot, e))
      {
        assert Holds(w, e);
        CountsFit(c, snapshot, e);
      }
      RebuiltValid(c, snapshot, s.db);
  }

  lemma RebuiltValid(c: Content, snapshot: Db, db: Db)
    requires Valid(c, db)
    requires forall e | e in snapshot.enrollments :: e in db.enrollments && Storable(CountsOf(c, snapshot, e))
    ensures Valid(c, Rebuilt(c, snapshot, db))
  {
  }

  // ---------------------------------------------------------------- the invariant is kept

  lemma CompleteOkFrame(c: Content, db: Db, db': Db, w: Work)
    requires w.Completing? && CompleteOk(c, db, w)
    requires Holds(w, w.enrollment) ==> Untouched(db, db', w.enrollment)
    ensures CompleteOk(c, db', w)
  {
    if !w.completed.ToLock? {
      var e := w.enrollment;
      DoneFromRows(db, db', e);
      var logged, logged' := Appended(db, e, w.lesson, w.member), Appended(db', e, w.lesson, w.member);
      assert logged'.Rows(e) == logged.Rows(e) by {
        if w.lesson !in db.Done(e) {
          assert logged.Rows(e) == db.Rows(e) + {Event(e, w.lesson, w.member)};
          assert logged'.Rows(e) == db'.Rows(e) + {Event(e, w.lesson, w.member)};
        }
      }
    }
  }

  lemma HeldByOthers(c: Content, s: System, t: TxnId, u: TxnId, e: Uuid)
    requires Inv(c, s) && Commits(c, s, t).Some? && u in s.work && u != t && Holds(s.work[u], e)
    ensures var (db, rewritten) := Commits(c, s, t).value;
            e in db.enrollments && Untouched(s.db, db, e) && e !in rewritten
  {
    assert s.locks[e] == u && e in s.db.enrollments;
    assert !Holds(s.work[t], e);
    assert WorkOk(c, s.db, s.work[t]);
    CommitFrame(c, s, t, e);
  }

  lemma EnrollOkAfterCommit(c: Content, s: System, t: TxnId, u: TxnId)
    requires Inv(c, s) && Commits(c, s, t).Some? && u in s.work && u != t && s.work[u].Enrolling?
    ensures EnrollOk(c, Commits(c, s, t).value.0, s.work[u])
  {
    var db, w := Commits(c, s, t).value.0, s.work[u];
    assert WorkOk(c, s.db, w);
    if w.newId in db.enrollments { CommitRows(c, s, t, w.newId); }
    if Pending(w, w.member, w.course) {
      forall e ensures !HasKey(db, e, w.member, w.course) {
        assert !HasKey(s.db, e, w.member, w.course);
        if e in db.enrollments { CommitRows(c, s, t, e); }
      }
    }
    if Selected(w).Some? && Selected(w).value in db.enrollments {
      CommitRows(c, s, t, Selected(w).value);
    }
    if w.enrolled.ToFinish? && !w.enrolled.own && w.enrolled.initializes {
      HeldByOthers(c, s, t, u, w.enrolled.enrollment);
    }
  }

  lemma ResetOkAfterCommit(c: Content, s: System, t: TxnId, u: TxnId)
    requires Inv(c, s) && Commits(c, s, t).Some? && u in s.work && u != t && s.work[u].Resetting?
    ensures WorkOk(c, Commits(c, s, t).value.0, s.work[u])
  {
    var db, w := Commits(c, s, t).value.0, s.work[u];
    assert WorkOk(c, s.db, w);
    forall e | e in w.locked ensures e in db.enrollments {
      HeldByOthers(c, s, t, u, e);
    }
    forall e | e in db.enrollments && e in w.present
      ensures e in s.db.enrollments && db.enrollments[e].member == s.db.enrollments[e].member
    {
      CommitRows(c, s, t, e);
      assert Inserts(s.work[t]) != Some(e);
    }
  }

  /** What other transactions rely on survives a commit. */
  lemma OthersOk(c: Content, s: System, t: TxnId, u: TxnId)
    requires Inv(c, s) && Commits(c, s, t).Some? && u in s.work && u != t
    ensures var (db, rewritten) := Commits(c, s, t).value;
            u in Publish(s, db, rewritten).work && WorkOk(c, db, Publish(s, db, rewritten).work[u])
  {
    var (db, rewritten) := Commits(c, s, t).value;
    var w := s.work[u];
    assert WorkOk(c, s.db, w);
    match w
    case Completing(_, _, _, _) =>
      if Holds(w, w.enrollment) { HeldByOthers(c, s, t, u, w.enrollment); }
      CompleteOkFrame(c, s.db, db, w);
    case Enrolling(member, course, newId, enrolled) =>
      EnrollOkAfterCommit(c, s, t, u);
    case Resetting(_, _, _, _) =>
      ResetOkAfterCommit(c, s, t, u);
    case Reconciling(_, _, locked, _) =>
      forall e | e in locked ensures e !in rewritten {
        HeldByOthers(c, s, t, u, e);
      }
  }

  /** A transaction that ends and publishes keeps the bookkeeping of the others. */
  lemma EndKeepsLocks(s: System, t: TxnId, db: Db, rewritten: set<Uuid>)
    requires LocksOk(s) && t in s.work
    requires forall u, e | u in s.work && u != t && Holds(s.work[u], e) :: e in db.enrollments
    ensures LocksOk(End(Publish(s, db, rewritten), t))
  {
    var s' := End(Publish(s, db, rewritten), t);
    forall u, e | u in s'.work && Holds(s'.work[u], e)
      ensures e in s'.locks && s'.locks[e] == u && e in db.enrollments
    {
      assert Holds(s.work[u], e);
    }
  }

  lemma EndKeepsBooks(s: System, t: TxnId, db: Db, rewritten: set<Uuid>)
    requires IdsOk(s) && KeysOk(s) && t in s.work && db.enrollments.Keys <= s.issued
    ensures var s' := End(Publish(s, db, rewritten), t); IdsOk(s') && KeysOk(s')
  {
    var s' := End(Publish(s, db, rewritten), t);
    assert forall u | u in s'.work && s'.work[u].Enrolling? :: u in s.work && s'.work[u] == s.work[u];
  }

  lemma EndKeepsPresent(s: System, t: TxnId, db: Db, rewritten: set<Uuid>)
    requires PresentOk(s)
    ensures PresentOk(End(Publish(s, db, rewritten), t))
  {
    var s' := End(Publish(s, db, rewritten), t);
    assert forall u | u in s'.work && !s'.work[u].Reconciling? :: u in s.work && s'.work[u] == s.work[u];
  }

  lemma CommitKeepsInv(c: Content, s: System, t: TxnId)
    requires Inv(c, s)
    ensures Inv(c, Step(c, s, Commit(t)))
  {
    if Commits(c, s, t).Some? {
      var (db, rewritten) := Commits(c, s, t).value;
      var s' := Step(c, s, Commit(t));
      CommitValid(c, s, t);
      forall e | e in db.enrollments ensures e in s.issued {
        CommitRows(c, s, t, e);
      }
      forall u | u in s'.work ensures WorkOk(c, db, s'.work[u]) {
        OthersOk(c, s, t, u);
      }
      forall u, e | u in s.work && u != t && Holds(s.work[u], e) ensures e in db.enrollments {
        HeldByOthers(c, s, t, u, e);
      }
      EndKeepsLocks(s, t, db, rewritten);
      EndKeepsBooks(s, t, db, rewritten);
      EndKeepsPresent(s, t, db, rewritten);
    }
  }

  lemma WithdrawWorkOk(c: Content, s: System, d: Uuid, u: TxnId)
    requires Inv(c, s) && d in s.db.enrollments && d !in s.locks && u in s.work
    ensures WorkOk(c, Withdraw(s.db, d), Publish(s, Withdraw(s.db, d), {d}).work[u])
  {
    var w := s.work[u];
    assert !Holds(w, d);
    match w
    case Completing(_, _, _, _) =>
      WithdrawCompleteOk(c, s.db, d, w);
    case Enrolling(_, _, _, _) =>
      WithdrawEnrollOk(c, s.db, d, w);
    case Resetting(_, _, _, _) =>
      assert WorkOk(c, s.db, w);
    case Reconciling(_, _, locked, _) =>
      assert WorkOk(c, s.db, w);
      assert forall e | e in locked :: Holds(w, e);
  }

  lemma WithdrawCompleteOk(c: Content, db: Db, d: Uuid, w: Work)
    requires w.Completing? && CompleteOk(c, db, w) && !Holds(w, d)
    ensures CompleteOk(c, Withdraw(db, d), w)
  {
    assert forall e :: Withdraw(db, d).Rows(e) == db.Rows(e);
    CompleteOkFrame(c, db, Withdraw(db, d), w);
  }

  lemma WithdrawEnrollOk(c: Content, db: Db, d: Uuid, w: Work)
    requires w.Enrolling? && EnrollOk(c, db, w)
    ensures EnrollOk(c, Withdraw(db, d), w)
  {
    assert forall e: Uuid :: HasKey(Withdraw(db, d), e, w.member, w.course) <==> HasKey(db, e, w.member, w.course);
  }

  lemma PublishKeepsLocks(s: System, db: Db, rewritten: set<Uuid>)
    requires LocksOk(s) && db.enrollments.Keys == s.db.enrollments.Keys
    ensures LocksOk(Publish(s, db, rewritten))
  {
    var s' := Publish(s, db, rewritten);
    forall u, e | u in s'.work && Holds(s'.work[u], e)
      ensures e in s'.locks && s'.locks[e] == u && e in db.enrollments
    {
      assert Holds(s.work[u], e);
    }
  }

  lemma PublishKeepsBooks(s: System, db: Db, rewritten: set<Uuid>)
    requires IdsOk(s) && PresentOk(s) && KeysOk(s) && db.enrollments.Keys == s.db.enrollments.Keys
    ensures var s' := Publish(s, db, rewritten); IdsOk(s') && PresentOk(s') && KeysOk(s')
  {
    var s' := Publish(s, db, rewritten);
    assert forall u | u in s'.work && !s'.work[u].Reconciling? :: s'.work[u] == s.work[u];
  }

  lemma WithdrawKeepsInv(c: Content, s: System, d: Uuid)
    requires Inv(c, s)
    ensures Inv(c, Step(c, s, WithdrawRow(d)))
  {
    if d in s.db.enrollments && d !in s.locks {
      ApplyKeepsValid(c, s.db, WithdrawOp(d));
      PublishKeepsLocks(s, Withdraw(s.db, d), {d});
      PublishKeepsBooks(s, Withdraw(s.db, d), {d});
      forall u | u in s.work ensures WorkOk(c, Withdraw(s.db, d), Publish(s, Withdraw(s.db, d), {d}).work[u]) {
        WithdrawWorkOk(c, s, d, u);
      }
    }
  }

  lemma AbortKeepsInv(c: Content, s: System, t: TxnId)
    requires Inv(c, s)
    ensures Inv(c, Step(c, s, Abort(t)))
  {
    if t in s.work {
      var s' := End(s, t);
      assert forall u | u in s'.work :: s'.work[u] == s.work[u] && u != t;
    }
  }

  // ---------------------------------------------------------------- steps before the commit

  /** What the next stage of a transaction may newly rely on. */
  ghost predicate NextOk(c: Content, s: System, t: TxnId, w: Work, locked: set<Uuid>)
    requires t in s.work
  {
    && WorkOk(c, s.db, w)
    && (forall e | Holds(w, e) :: Holds(s.work[t], e) || e in locked)
    && (w.Resetting? ==> s.work[t].Resetting? && w.present == s.work[t].present)
    && (w.Enrolling? ==>
          var was := s.work[t];
          && was.Enrolling? && (w.newId, w.member, w.course) == (was.newId, was.member, was.course)
          && (Selected(w).Some? ==> Selected(w) == Selected(was) || Selected(w).value in s.db.enrollments)
          && (Pending(w, w.member, w.course) && !Pending(was, w.member, w.course) ==>
                forall u | u in s.work :: !Pending(s.work[u], w.member, w.course)))
  }

  lemma IdsStayOk(c: Content, s: System, t: TxnId, w: Work, locked: set<Uuid>)
    requires Inv(c, s) && t in s.work && NextOk(c, s, t, w, locked)
    ensures IdsOk(Now(s, t, w))
  {
    var s' := Now(s, t, w);
    assert forall u | u in s.work :: WorkOk(c, s.db, s.work[u]);
    assert WorkOk(c, s.db, w);
    assert forall u | u in s'.work :: u in s.work && (u != t ==> s'.work[u] == s.work[u]);
  }

  lemma KeysStayOk(c: Content, s: System, t: TxnId, w: Work, locked: set<Uuid>)
    requires Inv(c, s) && t in s.work && NextOk(c, s, t, w, locked)
    ensures KeysOk(Now(s, t, w))
  {
    var s' := Now(s, t, w);
    assert forall u | u in s'.work :: u in s.work && (u != t ==> s'.work[u] == s.work[u]);
  }

  lemma PresentStaysOk(c: Content, s: System, t: TxnId, w: Work, locked: set<Uuid>)
    requires Inv(c, s) && t in s.work && NextOk(c, s, t, w, locked)
    ensures PresentOk(Now(s, t, w))
  {
    var s' := Now(s, t, w);
    assert forall u | u in s'.work :: u in s.work && (u != t ==> s'.work[u] == s.work[u]);
  }

  lemma NowKeepsLocks(c: Content, s: System, t: TxnId, w: Work)
    requires LocksOk(s) && t in s.work && NextOk(c, s, t, w, {})
    ensures LocksOk(Now(s, t, w))
  {
  }

  lemma NowKeepsInv(c: Content, s: System, t: TxnId, w: Work)
    requires Inv(c, s) && t in s.work && NextOk(c, s, t, w, {})
    ensures Inv(c, Now(s, t, w))
  {
    NowKeepsLocks(c, s, t, w);
    IdsStayOk(c, s, t, w, {});
    PresentStaysOk(c, s, t, w, {});
    KeysStayOk(c, s, t, w, {});
  }

  lemma LocksStayOk(c: Content, s: System, t: TxnId, e: Uuid, w: Work)
    requires LocksOk(s) && t in s.work && NextOk(c, s, t, w, {e}) && e !in s.locks && e in s.db.enrollments
    ensures LocksOk(Locking(s, t, e, w))
  {
  }

  lemma LockingKeepsInv(c: Content, s: System, t: TxnId, e: Uuid, w: Work)
    requires Inv(c, s) && t in s.work && NextOk(c, s, t, w, {e}) && e !in s.locks && e in s.db.enrollments
    ensures Inv(c, Locking(s, t, e, w))
  {
    LocksStayOk(c, s, t, e, w);
    IdsStayOk(c, s, t, w, {e});
    PresentStaysOk(c, s, t, w, {e});
    KeysStayOk(c, s, t, w, {e});
  }

  /** A transaction that has read and locked nothing yet. */
  ghost predicate Starting(w: Work) {
    match w
    case Enrolling(_, _, _, enrolled) => enrolled.ToInsert?
    case Completing(_, _, _, completed) => completed.ToLock?
    case Resetting(_, _, _, locked) => locked == {}
    case Reconciling(_, stale, locked, written) => stale == {} && locked == {} && !written
  }

  /** The system once a transaction has started. */
  ghost predicate Started(s: System, s': System, t: TxnId, w: Work) {
    && t !in s.work && Starting(w)
    && (w.Enrolling? ==> w.newId !in s.issued && w.newId in s'.issued)
    && (w.Resetting? ==> w.present == s.db.enrollments.Keys)
    && s'.db == s.db && s'.locks == s.locks && s'.work == s.work[t := w] && s.issued <= s'.issued
  }

  lemma StartKeepsLocks(s: System, s': System, t: TxnId, w: Work)
    requires LocksOk(s) && Started(s, s', t, w)
    ensures LocksOk(s')
  {
    assert forall e :: !Holds(w, e);
  }

  lemma StartKeepsIds(s: System, s': System, t: TxnId, w: Work)
    requires IdsOk(s) && Started(s, s', t, w)
    ensures IdsOk(s')
  {
    assert Selected(w) == None;
  }

  lemma StartKeepsKeys(s: System, s': System, t: TxnId, w: Work)
    requires KeysOk(s) && Started(s, s', t, w)
    ensures KeysOk(s')
  {
    assert forall m, k :: !Pending(w, m, k);
  }

  lemma StartKeepsPresent(c: Content, s: System, s': System, t: TxnId, w: Work)
    requires IdsOk(s) && PresentOk(s) && AllWorkOk(c, s) && Started(s, s', t, w)
    ensures PresentOk(s')
  {
    assert forall u | u in s.work :: WorkOk(c, s.db, s.work[u]);
  }

  lemma BeginKeepsInv(c: Content, s: System, a: Action)
    requires Inv(c, s) && (a.BeginEnroll? || a.BeginComplete? || a.BeginReset? || a.BeginReconcile?)
    ensures Inv(c, Step(c, s, a))
  {
    var s' := Step(c, s, a);
    if a.t !in s.work && a.t in s'.work {
      StartKeepsLocks(s, s', a.t, s'.work[a.t]);
      StartKeepsIds(s, s', a.t, s'.work[a.t]);
      StartKeepsKeys(s, s', a.t, s'.work[a.t]);
      StartKeepsPresent(c, s, s', a.t, s'.work[a.t]);
      forall u | u in s'.work ensures WorkOk(c, s.db, s'.work[u]) {
        if u != a.t { assert WorkOk(c, s.db, s.work[u]); }
      }
    }
  }

  lemma LockKeepsInv(c: Content, s: System, t: TxnId, e: Uuid)
    requires Inv(c, s)
    ensures Inv(c, Step(c, s, LockRow(t, e)))
  {
    if t in s.work {
      var w := s.work[t];
      assert WorkOk(c, s.db, w);
      match w
      case Resetting(_, _, targets, locked) =>
        if e !in s.db.enrollments {
          NowKeepsInv(c, s, t, w.(targets := targets - {e}));
        } else if e in targets && e !in s.locks {
          LockingKeepsInv(c, s, t, e, Resetting(w.members, w.present, targets, locked + {e}));
        }
      case Reconciling(snapshot, stale, locked, written) =>
        if e in snapshot.enrollments && e !in stale && e in s.db.enrollments && e !in s.locks {
          LockingKeepsInv(c, s, t, e, Reconciling(snapshot, stale, locked + {e}, written));
        }
      case _ =>
    }
  }

  lemma AdvanceEnrollKeepsInv(c: Content, s: System, t: TxnId)
    requires Inv(c, s) && t in s.work && s.work[t].Enrolling?
    ensures Inv(c, AdvanceEnroll(c, s, t, s.work[t]))
  {
    var w := s.work[t];
    match w.enrolled
    case ToInsert => InsertKeepsInv(c, s, t);
    case ToSelect(_) => SelectKeepsInv(c, s, t);
    case ToInitialize(_, _) => InitializeKeepsInv(c, s, t);
    case ToFinish(_, _, _) =>
  }

  lemma InsertKeepsInv(c: Content, s: System, t: TxnId)
    requires Inv(c, s) && t in s.work && s.work[t].Enrolling? && s.work[t].enrolled.ToInsert?
    ensures Inv(c, AdvanceEnroll(c, s, t, s.work[t]))
  {
    var w := s.work[t];
    assert WorkOk(c, s.db, w);
    if Find(s.db, w.member, w.course).Some? {
      NowKeepsInv(c, s, t, w.(enrolled := ToSelect(false)));
    } else if !exists u | u in s.work :: Pending(s.work[u], w.member, w.course) {
      NowKeepsInv(c, s, t, w.(enrolled := ToSelect(true)));
    }
  }

  lemma SelectKeepsInv(c: Content, s: System, t: TxnId)
    requires Inv(c, s) && t in s.work && s.work[t].Enrolling? && s.work[t].enrolled.ToSelect?
    ensures Inv(c, AdvanceEnroll(c, s, t, s.work[t]))
  {
    var w := s.work[t];
    assert WorkOk(c, s.db, w);
    if w.enrolled.own {
      NowKeepsInv(c, s, t, w.(enrolled := ToInitialize(w.newId, true)));
    } else if Find(s.db, w.member, w.course).Some? {
      NowKeepsInv(c, s, t, w.(enrolled := ToInitialize(Find(s.db, w.member, w.course).value, false)));
    }
  }

  lemma InitializeKeepsInv(c: Content, s: System, t: TxnId)
    requires Inv(c, s) && t in s.work && s.work[t].Enrolling? && s.work[t].enrolled.ToInitialize?
    ensures Inv(c, AdvanceEnroll(c, s, t, s.work[t]))
  {
    var w := s.work[t];
    var e := w.enrolled.enrollment;
    assert WorkOk(c, s.db, w);
    if w.enrolled.own {
      NowKeepsInv(c, s, t, w.(enrolled := ToFinish(e, true, true)));
    } else if e in s.db.enrollments {
      if e in s.db.projections {
        NowKeepsInv(c, s, t, w.(enrolled := ToFinish(e, false, false)));
      } else if e !in s.locks {
        LockingKeepsInv(c, s, t, e, w.(enrolled := ToFinish(e, false, true)));
      }
    }
  }

  lemma LockForCompletionKeepsInv(c: Content, s: System, t: TxnId)
    requires Inv(c, s) && t in s.work && s.work[t].Completing? && s.work[t].completed.ToLock?
    ensures Inv(c, AdvanceComplete(c, s, t, s.work[t]))
  {
    var w := s.work[t];
    var e := w.enrollment;
    if e in s.db.enrollments && e !in s.locks && Admits(c, s.db.enrollments[e], w.member, w.lesson) {
      LockingKeepsInv(c, s, t, e, w.(completed := ToOrder(s.db.enrollments[e])));
    }
  }

  lemma ProjectKeepsInv(c: Content, s: System, t: TxnId)
    requires Inv(c, s) && t in s.work && s.work[t].Completing? && s.work[t].completed.ToProject?
    ensures Inv(c, AdvanceComplete(c, s, t, s.work[t]))
  {
    var w := s.work[t];
    var e, row, appends := w.enrollment, w.completed.row, w.completed.appends;
    assert WorkOk(c, s.db, w);
    assert WithOwn(s, w, appends) == Appended(s.db, e, w.lesson, w.member);
    if e !in s.db.projections {
      NowKeepsInv(c, s, t, w.(completed := ToStatus(row, appends, None)));
    } else {
      var counts := CountsOf(c, WithOwn(s, w, appends), e);
      if Storable(counts) { NowKeepsInv(c, s, t, w.(completed := ToStatus(row, appends, Some(counts)))); }
    }
  }

  lemma AdvanceCompleteKeepsInv(c: Content, s: System, t: TxnId)
    requires Inv(c, s) && t in s.work && s.work[t].Completing?
    ensures Inv(c, AdvanceComplete(c, s, t, s.work[t]))
  {
    var w := s.work[t];
    var e := w.enrollment;
    assert WorkOk(c, s.db, w);
    match w.completed
    case ToLock =>
      LockForCompletionKeepsInv(c, s, t);
    case ToOrder(row) =>
      if !(c.IsSequential(row.course) && UnfinishedEarlier(c, s.db, e, row.course, w.lesson)) {
        NowKeepsInv(c, s, t, w.(completed := ToAppend(row)));
      }
    case ToAppend(row) =>
      NowKeepsInv(c, s, t, w.(completed := ToProject(row, w.lesson !in s.db.Done(e))));
    case ToProject(_, _) =>
      ProjectKeepsInv(c, s, t);
    case ToStatus(row, appends, counts) =>
      var status := if counts.Some? then Some(StatusOf(counts.value)) else None;
      NowKeepsInv(c, s, t, w.(completed := ToCommit(row, appends, counts, status)));
    case ToCommit(_, _, _, _) =>
  }

  lemma AdvanceKeepsInv(c: Content, s: System, t: TxnId)
    requires Inv(c, s)
    ensures Inv(c, Step(c, s, Advance(t)))
  {
    if t in s.work {
      var w := s.work[t];
      match w
      case Enrolling(_, _, _, _) => AdvanceEnrollKeepsInv(c, s, t);
      case Completing(_, _, _, _) => AdvanceCompleteKeepsInv(c, s, t);
      case Resetting(_, _, _, _) =>
      case Reconciling(snapshot, stale, locked, written) =>
        assert WorkOk(c, s.db, w);
        if snapshot.enrollments.Keys <= locked && CanRewrite(c, snapshot, s.db) {
          NowKeepsInv(c, s, t, Reconciling(snapshot, stale, locked, true));
        }
    }
  }

  lemma StepKeepsInv(c: Content, s: System, a: Action)
    requires Inv(c, s)
    ensures Inv(c, Step(c, s, a))
  {
    match a
    case BeginEnroll(_, _, _, _) => BeginKeepsInv(c, s, a);
    case BeginComplete(_, _, _, _) => BeginKeepsInv(c, s, a);
    case BeginReset(_, _) => BeginKeepsInv(c, s, a);
    case BeginReconcile(_) => BeginKeepsInv(c, s, a);
    case LockRow(t, e) => LockKeepsInv(c, s, t, e);
    case Advance(t) => AdvanceKeepsInv(c, s, t);
    case Commit(t) => CommitKeepsInv(c, s, t);
    case Abort(t) => AbortKeepsInv(c, s, t);
    case WithdrawRow(e) => WithdrawKeepsInv(c, s, e);
  }
}