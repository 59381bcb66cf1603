/**
 A request that nobody holds up gets to its commit. The other modules say what every interleaving
 keeps; here the statements of each transaction are followed to the end, and what they add up to is
 the request served in one go.
 */
module SoloRuns {
  import opened Wrappers
  import opened Catalog
  import opened ProgressLog
  import opened ProgressInvariants
  import opened Transactions
  import opened Serializability
  import opened ConcurrentRepair
  import opened RepairRace
  import opened SerialOrder

  /** The next statements of one transaction. */
  ghost function Advanced(c: Content, s: System, t: TxnId, statements: nat): System
    decreases statements
  {
    if statements == 0 then s else Advanced(c, Step(c, s, Advance(t)), t, statements - 1)
  }

  /** The transaction is ready to commit what its request, served in one go, does to the database, and to
      tell its caller the same. */
  ghost predicate ReadyToServe(c: Content, s: System, t: TxnId, r: Request) {
    && Commits(c, s, t).Some? && RequestOf(s.work[t]) == r
    && (Commits(c, s, t).value.0, ReplyOf(c, s.work[t])) == Serve(c, s.db, r)
  }

  // ---------------------------------------------------------------- completing

  /** How many statements a completion has before its commit. */
  function StatementsLeft(stage: CompleteStage): nat {
    match stage
    case ToLock => 5
    case ToOrder(_) => 4
    case ToAppend(_) => 3
    case ToProject(_, _) => 2
    case ToStatus(_, _, _) => 1
    case ToCommit(_, _, _, _) => 0
  }

  /** A statement has done its part of a completion. */
  ghost predicate CompletionMoved(s: System, s': System, t: TxnId)
    requires t in s.work && s.work[t].Completing?
  {
    var w := s.work[t];
    && s'.db == s.db && t in s'.work && s'.work[t].Completing?
    && s'.work[t].member == w.member && s'.work[t].enrollment == w.enrollment && s'.work[t].lesson == w.lesson
    && StatementsLeft(s'.work[t].completed) == StatementsLeft(w.completed) - 1
  }

  /** Once the checks are behind it nothing stops it. */
  lemma WritesMove(c: Content, s: System, t: TxnId)
    requires Inv(c, s) && t in s.work && s.work[t].Completing? && 1 <= StatementsLeft(s.work[t].completed) <= 3
    ensures CompletionMoved(s, Step(c, s, Advance(t)), t)
  {
    NoStatementIsRefused(c, s, t);
  }

  /** A statement is stuck only if it is one of the first two, and there exactly when the request is refused. */
  lemma CompletionMoves(c: Content, s: System, t: TxnId)
    requires Inv(c, s) && t in s.work && s.work[t].Completing? && !s.work[t].completed.ToCommit?
    requires s.work[t].completed.ToLock? ==> s.work[t].enrollment !in s.locks
    ensures var w, s' := s.work[t], Step(c, s, Advance(t));
            if s' == s then StatementsLeft(w.completed) >= 4 && Refusal(c, s.db, w.member, w.enrollment, w.lesson).Some?
            else CompletionMoved(s, s', t)
  {
    if StatementsLeft(s.work[t].completed) <= 3 {
      WritesMove(c, s, t);
    } else {
      RefusedAlike(c, s, t);
    }
  }

  /** A refused completion stays where it is. */
  lemma RefusedCompletionStays(c: Content, s: System, t: TxnId, statements: nat)
    requires Step(c, s, Advance(t)) == s
    ensures Advanced(c, s, t, statements) == s
    decreases statements
  {
    if statements > 0 {
      RefusedCompletionStays(c, s, t, statements - 1);
    }
  }

  lemma {:induction false} CompletionGoesOn(c: Content, s: System, t: TxnId)
    requires Inv(c, s) && t in s.work && s.work[t].Completing?
    requires s.work[t].completed.ToLock? ==> s.work[t].enrollment !in s.locks
    ensures var w, s' := s.work[t], Advanced(c, s, t, StatementsLeft(s.work[t].completed));
            && Inv(c, s') && s'.db == s.db && t in s'.work && RequestOf(s'.work[t]) == RequestOf(w)
            && (Commits(c, s', t).Some? <==> Refusal(c, s.db, w.member, w.enrollment, w.lesson) == None)
    decreases StatementsLeft(s.work[t].completed)
  {
    var w, left := s.work[t], StatementsLeft(s.work[t].completed);
    if left == 0 {
      CompletionCommits(c, s, t);
    } else {
      var s' := Step(c, s, Advance(t));
      CompletionMoves(c, s, t);
      if s' == s {
        RefusedCompletionStays(c, s, t, left);
      } else {
        StepKeepsInv(c, s, Advance(t));
        CompletionGoesOn(c, s', t);
      }
    }
  }

  /** While nobody else has locked its enrollment, a completion's statements lead to its commit exactly when
      the request is not refused; what it then commits and answers is the request served in one go. */
  lemma CompletionFinishesExactly(c: Content, s: System, t: TxnId, member: Uuid, e: Uuid, lesson: Uuid)
    requires Inv(c, s) && t !in s.work && e !in s.locks
    ensures var r, s' := CompleteRequest(member, e, lesson), Advanced(c, Step(c, s, BeginComplete(t, member, e, lesson)), t, 5);
            && s'.db == s.db
            && (Commits(c, s', t).Some? <==> Serve(c, s.db, r).1.outcome.Accepted?)
            && (Commits(c, s', t).Some? ==> ReadyToServe(c, s', t, r))
  {
    var s0 := Step(c, s, BeginComplete(t, member, e, lesson));
    StepKeepsInv(c, s, BeginComplete(t, member, e, lesson));
    CompletionGoesOn(c, s0, t);
    CompleteKeepsValid(c, s.db, member, e, lesson);
    if Commits(c, Advanced(c, s0, t, 5), t).Some? {
      CompletionCommits(c, Advanced(c, s0, t, 5), t);
    }
  }

  // ---------------------------------------------------------------- enrolling

  function EnrollStatementsLeft(stage: EnrollStage): nat {
    match stage
    case ToInsert => 3
    case ToSelect(_) => 2
    case ToInitialize(_, _) => 1
    case ToFinish(_, _, _) => 0
  }

  ghost predicate NobodyHolds(s: System, member: Uuid, course: Uuid) {
    forall e | HasKey(s.db, e, member, course) :: e !in s.locks
  }

  /** No other transaction is inserting the key or has locked the enrollment that has it. */
  ghost predicate Unopposed(s: System, t: TxnId)
    requires t in s.work && s.work[t].Enrolling?
  {
    var w := s.work[t];
    && (forall u | u in s.work && u != t :: !Pending(s.work[u], w.member, w.course))
    && match w.enrolled
       case ToInsert => NobodyHolds(s, w.member, w.course)
       case ToSelect(own) => NobodyHolds(s, w.member, w.course) && (own || Find(s.db, w.member, w.course).Some?)
       case ToInitialize(e, own) => own || (HasKey(s.db, e, w.member, w.course) && e !in s.locks)
       case ToFinish(_, _, _) => Current(s, w)
  }

  lemma EnrollmentMoves(c: Content, s: System, t: TxnId)
    requires t in s.work && s.work[t].Enrolling? && !s.work[t].enrolled.ToFinish? && Unopposed(s, t)
    requires !Pending(s.work[t], s.work[t].member, s.work[t].course) || !s.work[t].enrolled.ToInsert?
    ensures var w, s' := s.work[t], Step(c, s, Advance(t));
            && s'.db == s.db && t in s'.work && s'.work[t].Enrolling? && RequestOf(s'.work[t]) == RequestOf(w)
            && EnrollStatementsLeft(s'.work[t].enrolled) == EnrollStatementsLeft(w.enrolled) - 1
            && Unopposed(s', t)
  {
    var s' := Step(c, s, Advance(t));
    forall u | u in s.work && u != t ensures s'.work[u] == s.work[u] {
    }
  }

  lemma {:induction false} EnrollmentGoesOn(c: Content, s: System, t: TxnId)
    requires Inv(c, s) && t in s.work && s.work[t].Enrolling? && Unopposed(s, t)
    ensures var s' := Advanced(c, s, t, EnrollStatementsLeft(s.work[t].enrolled));
            s'.db == s.db && ReadyToServe(c, s', t, RequestOf(s.work[t]))
    decreases EnrollStatementsLeft(s.work[t].enrolled)
  {
    if s.work[t].enrolled.ToFinish? {
      EnrollIsServed(c, s, t);
    } else {
      EnrollmentMoves(c, s, t);
      StepKeepsInv(c, s, Advance(t));
      EnrollmentGoesOn(c, Step(c, s, Advance(t)), t);
    }
  }

  /** An enrollment in a published course gets to its commit while no other transaction is inserting the same
      key or has locked the enrollment that is there. */
  lemma EnrollmentFinishes(c: Content, s: System, t: TxnId, member: Uuid, course: Uuid, newId: Uuid)
    requires Inv(c, s) && t !in s.work && newId !in s.issued && c.IsPublished(course)
    requires NobodyHolds(s, member, course) && forall u | u in s.work :: !Pending(s.work[u], member, course)
    ensures var s' := Advanced(c, Step(c, s, BeginEnroll(t, member, course, newId)), t, 3);
            s'.db == s.db && ReadyToServe(c, s', t, EnrollRequest(member, course, newId))
  {
    var s0 := Step(c, s, BeginEnroll(t, member, course, newId));
    StepKeepsInv(c, s, BeginEnroll(t, member, course, newId));
    assert forall u | u in s0.work && u != t :: s0.work[u] == s.work[u];
    EnrollmentGoesOn(c, s0, t);
  }

  // ---------------------------------------------------------------- resetting

  lemma ResetLocksOne(c: Content, s: System, t: TxnId, e: Uuid)
    requires t in s.work && s.work[t].Resetting? && e in s.work[t].targets && e in s.db.enrollments && e !in s.locks
    ensures var w, s' := s.work[t], Step(c, s, LockRow(t, e));
            && s'.db == s.db && s'.locks == s.locks[e := t] && t in s'.work
            && s'.work[t] == Resetting(w.members, w.present, w.targets, w.locked + {e})
  {
  }

  /** A reset locks the rows it still lacks one by one. */
  lemma {:induction false} ResetLocks(c: Content, s: System, t: TxnId) returns (actions: seq<Action>)
    requires Inv(c, s) && t in s.work && s.work[t].Resetting? && s.work[t].locked <= s.work[t].targets
    requires forall e | e in s.work[t].targets - s.work[t].locked :: e in s.db.enrollments && e !in s.locks
    ensures var w, s' := s.work[t], Run(c, s, actions);
            && Inv(c, s') && s'.db == s.db && t in s'.work && s'.work[t] == Resetting(w.members, w.present, w.targets, w.targets)
    decreases s.work[t].targets - s.work[t].locked
  {
    var rest := s.work[t].targets - s.work[t].locked;
    if rest == {} {
      actions := [];
      forall e | e in s.work[t].targets ensures e in s.work[t].locked {
        assert e !in rest;
      }
      assert s.work[t].locked == s.work[t].targets;
    } else {
      var e :| e in rest;
      var s1 := Step(c, s, LockRow(t, e));
      ResetLocksOne(c, s, t, e);
      StepKeepsInv(c, s, LockRow(t, e));
      assert s1.work[t].targets - s1.work[t].locked == rest - {e};
      var more := ResetLocks(c, s1, t);
      actions := [LockRow(t, e)] + more;
      assert actions[1..] == more;
    }
  }

  /** A reset gets to its commit while nobody else has locked the members' enrollments. */
  lemma ResetFinishes(c: Content, s: System, t: TxnId, members: set<Uuid>) returns (actions: seq<Action>)
    requires Inv(c, s) && t !in s.work && forall e | e in EnrollmentsOf(s.db, members) :: e !in s.locks
    ensures var s' := Run(c, s, actions);
            s'.db == s.db && ReadyToServe(c, s', t, ResetRequest(members))
  {
    var s0 := Step(c, s, BeginReset(t, members));
    StepKeepsInv(c, s, BeginReset(t, members));
    var more := ResetLocks(c, s0, t);
    actions := [BeginReset(t, members)] + more;
    assert actions[1..] == more;
    ResetIsServed(c, Run(c, s, actions), t);
  }

  // ---------------------------------------------------------------- every request

  lemma {:induction false} AdvancedIsRun(c: Content, s: System, t: TxnId, statements: nat) returns (actions: seq<Action>)
    ensures Run(c, s, actions) == Advanced(c, s, t, statements)
    decreases statements
  {
    if statements == 0 {
      actions := [];
    } else {
      var more := AdvancedIsRun(c, Step(c, s, Advance(t)), t, statements - 1);
      actions := [Advance(t)] + more;
      assert actions[1..] == more;
    }
  }

  lemma BegunIsRun(c: Content, s: System, t: TxnId, begin: Action, statements: nat) returns (actions: seq<Action>)
    ensures Run(c, s, actions) == Advanced(c, Step(c, s, begin), t, statements)
  {
    var more := AdvancedIsRun(c, Step(c, s, begin), t, statements);
    actions := [begin] + more;
    assert actions[1..] == more;
  }

  /** What a reconciler writes when nothing has happened since its snapshot is the repair. */
  lemma SnapshotIsRepaired(c: Content, db: Db)
    requires Valid(c, db)
    ensures Rebuilt(c, db, db) == Repaired(c, db)
  {
    RepairKeepsValid(c, db);
  }

  lemma WrittenIsReady(c: Content, s: System, t: TxnId)
    requires Valid(c, s.db) && t in s.work && s.work[t].Reconciling? && s.work[t].written && s.work[t].snapshot == s.db
    ensures ReadyToServe(c, s, t, ReconcileRequest)
  {
    SnapshotIsRepaired(c, s.db);
    assert Commits(c, s, t) == Some((Rebuilt(c, s.db, s.db), Drifted(c, s.db)));
    assert Serve(c, s.db, ReconcileRequest) == (Repaired(c, s.db), Reported(|s.db.enrollments.Keys|, Drifted(c, s.db)));
  }

  lemma ReconcileFinishes(c: Content, db: Db) returns (actions: seq<Action>)
    requires Valid(c, db)
    ensures Run(c, Init(db), actions).db == db && ReadyToServe(c, Run(c, Init(db), actions), 0, ReconcileRequest)
  {
    RepairIsReached(c, db);
    WrittenIsReady(c, Repairing(db, db, db.enrollments.Keys, true), 0);
    actions :| Plain(actions) && Run(c, Init(db), actions) == Repairing(db, db, db.enrollments.Keys, true);
  }

  /** What the caller is told when the request does its work. */
  predicate Succeeds(reply: Reply) {
    reply.Answered? ==> reply.outcome.Accepted?
  }

  /** From any database, some run of statements takes a request to a commit that does and answers what the
      request does in one go, exactly when that answer is not a refusal. */
  lemma EveryRequestFinishes(c: Content, db: Db, r: Request)
    requires Valid(c, db) && !r.WithdrawRequest? && (r.EnrollRequest? ==> r.newId !in db.enrollments)
    ensures (exists actions, t :: Run(c, Init(db), actions).db == db && ReadyToServe(c, Run(c, Init(db), actions), t, r))
            <==> Succeeds(Serve(c, db, r).1)
  {
    InitIsInv(c, db);
    if Succeeds(Serve(c, db, r).1) {
      var actions: seq<Action>;
      match r
      case EnrollRequest(member, course, newId) =>
        EnrollmentFinishes(c, Init(db), 0, member, course, newId);
        actions := BegunIsRun(c, Init(db), 0, BeginEnroll(0, member, course, newId), 3);
      case CompleteRequest(member, e, lesson) =>
        CompletionFinishesExactly(c, Init(db), 0, member, e, lesson);
        actions := BegunIsRun(c, Init(db), 0, BeginComplete(0, member, e, lesson), 5);
      case ResetRequest(members) =>
        actions := ResetFinishes(c, Init(db), 0, members);
      case ReconcileRequest =>
        actions := ReconcileFinishes(c, db);
      assert Run(c, Init(db), actions).db == db && ReadyToServe(c, Run(c, Init(db), actions), 0, r);
    }
  }
}
