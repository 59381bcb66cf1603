/**
 The same transactions interleaved statement by statement.

 Enroll, CompleteLesson and Reset run at READ COMMITTED: every statement reads what is committed
 at that moment plus the transaction's own writes, and writes become visible at commit.
 Reconcile(apply) runs at REPEATABLE READ: it reads one snapshot throughout and cannot lock a
 row that another transaction has rewritten or deleted since that snapshot.

 A step that is not enabled (a lock held by another, a refused check, a snapshot conflict) leaves
 the system as it is; the transaction can still abort. So every sequence of actions is a run.
 */
module Transactions {
  import opened Wrappers
  import opened Catalog
  import opened ProgressLog

  type TxnId = nat

  // Which statement of Enroll comes next, with what the earlier ones returned.
  datatype EnrollStage =
    | ToInsert
    | ToSelect(own: bool)
    | ToInitialize(enrollment: Uuid, own: bool)
    | ToFinish(enrollment: Uuid, own: bool, initializes: bool)

  // Which statement of CompleteLesson comes next, with what the earlier ones returned.
  datatype CompleteStage =
    | ToLock
    | ToOrder(row: Enrollment)
    | ToAppend(row: Enrollment)
    | ToProject(row: Enrollment, appends: bool)
    | ToStatus(row: Enrollment, appends: bool, counts: Option<Counts>)
    | ToCommit(row: Enrollment, appends: bool, counts: Option<Counts>, status: Option<Status>)

  datatype Work =
    | Enrolling(member: Uuid, course: Uuid, newId: Uuid, enrolled: EnrollStage)
    | Completing(member: Uuid, enrollment: Uuid, lesson: Uuid, completed: CompleteStage)
      // present: the rows its statement sees; targets: those of the members it was asked about
    | Resetting(members: set<Uuid>, present: set<Uuid>, targets: set<Uuid>, locked: set<Uuid>)
      // stale: rows rewritten or deleted by transactions that committed after the snapshot
    | Reconciling(snapshot: Db, stale: set<Uuid>, locked: set<Uuid>, written: bool)

  // db is the committed state; issued holds every enrollment id ever drawn.
  datatype System = System(db: Db, locks: map<Uuid, TxnId>, work: map<TxnId, Work>, issued: set<Uuid>)

  datatype Action =
    | BeginEnroll(t: TxnId, member: Uuid, course: Uuid, newId: Uuid)
    | BeginComplete(t: TxnId, member: Uuid, enrollment: Uuid, lesson: Uuid)
    | BeginReset(t: TxnId, members: set<Uuid>)
    | BeginReconcile(t: TxnId)
    | LockRow(t: TxnId, enrollment: Uuid)  // Reset and Reconcile lock their rows one at a time
    | Advance(t: TxnId)                    // the next statement
    | Commit(t: TxnId)
    | Abort(t: TxnId)
    | WithdrawRow(enrollment: Uuid)        // an operator's single-statement update

  function Init(db: Db): System {
    System(db, map[], map[], db.enrollments.Keys)
  }

  // ---------------------------------------------------------------- steps

  function Begin(s: System, t: TxnId, w: Work): System {
    if t in s.work then s else s.(work := s.work[t := w])
  }

  function Now(s: System, t: TxnId, w: Work): System {
    s.(work := s.work[t := w])
  }

  function Locking(s: System, t: TxnId, e: Uuid, w: Work): System {
    s.(work := s.work[t := w], locks := s.locks[e := t])
  }

  /** Committed data changes: open snapshots learn which enrollment rows were rewritten. */
  function Publish(s: System, db: Db, rewritten: set<Uuid>): System {
    s.(db := db,
       work := map t | t in s.work ::
         match s.work[t]
         case Reconciling(snapshot, stale, locked, written) => Reconciling(snapshot, stale + rewritten, locked, written)
         case other => other)
  }

  /** The transaction is over: its locks are released. */
  function End(s: System, t: TxnId): System {
    s.(locks := map e | e in s.locks && s.locks[e] != t :: s.locks[e], work := s.work - {t})
  }

  predicate Pending(w: Work, member: Uuid, course: Uuid) {
    && w.Enrolling? && w.member == member && w.course == course
    && match w.enrolled
       case ToInsert => false
       case ToSelect(own) => own
       case ToInitialize(_, own) => own
       case ToFinish(_, own, _) => own
  }

  ghost function AdvanceEnroll(c: Content, s: System, t: TxnId, w: Work): System
    requires w.Enrolling?
  {
    match w.enrolled
    case ToInsert =>
      if Find(s.db, w.member, w.course).Some? then Now(s, t, w.(enrolled := ToSelect(false)))
      else if exists u | u in s.work :: Pending(s.work[u], w.member, w.course) then s  // waits on the unique key
      else Now(s, t, w.(enrolled := ToSelect(true)))
    case ToSelect(own) =>
      if own then Now(s, t, w.(enrolled := ToInitialize(w.newId, true)))
      else
        (match Find(s.db, w.member, w.course)
         case None => s  // reset away meanwhile: "loading enrollment" fails
         case Some(e) => Now(s, t, w.(enrolled := ToInitialize(e, false))))
    case ToInitialize(e, own) =>
      if own then Now(s, t, w.(enrolled := ToFinish(e, true, true)))
      else if e !in s.db.enrollments then s  // the foreign key fails
      else if e in s.db.projections then Now(s, t, w.(enrolled := ToFinish(e, false, false)))
      else if e in s.locks then s            // the foreign key check waits for the enrollment row
      else Locking(s, t, e, w.(enrolled := ToFinish(e, false, true)))
    case ToFinish(_, _, _) => s
  }

  /** Ownership, withdrawal and "the lesson belongs to the course", as read under the row lock. */
  predicate Admits(c: Content, row: Enrollment, member: Uuid, lesson: Uuid) {
    row.member == member && row.status != Withdrawn && lesson in c.LessonsOf(row.course)
  }

  /** What the transaction itself sees once its event is inserted. */
  function WithOwn(s: System, w: Work, appends: bool): Db
    requires w.Completing?
  {
    if appends then s.db.(events := s.db.events + {Event(w.enrollment, w.lesson, w.member)}) else s.db
  }

  function AdvanceComplete(c: Content, s: System, t: TxnId, w: Work): System
    requires w.Completing?
  {
    var e := w.enrollment;
    match w.completed
    case ToLock =>
      if e in s.db.enrollments && e !in s.locks && Admits(c, s.db.enrollments[e], w.member, w.lesson)
      then Locking(s, t, e, w.(completed := ToOrder(s.db.enrollments[e])))
      else s
    case ToOrder(row) =>
      if c.IsSequential(row.course) && UnfinishedEarlier(c, s.db, e, row.course, w.lesson) then s
      else Now(s, t, w.(completed := ToAppend(row)))
    case ToAppend(row) =>
      Now(s, t, w.(completed := ToProject(row, w.lesson !in s.db.Done(e))))
    case ToProject(row, appends) =>
      if e !in s.db.projections then Now(s, t, w.(completed := ToStatus(row, appends, None)))
      else if e !in s.db.enrollments then s
      else
        var counts := CountsOf(c, WithOwn(s, w, appends), e);
        if Storable(counts) then Now(s, t, w.(completed := ToStatus(row, appends, Some(counts)))) else s
    case ToStatus(row, appends, counts) =>
      var status := if counts.Some? then Some(StatusOf(counts.value)) else None;
      Now(s, t, w.(completed := ToCommit(row, appends, counts, status)))
    case ToCommit(_, _, _, _) => s
  }

  /** The reconciler's writes, derived from its snapshot. */
  function Rebuilt(c: Content, snapshot: Db, db: Db): Db {
    var drifted := Drifted(c, snapshot);
    Db(map e | e in db.enrollments ::
         if e in drifted then db.enrollments[e].(status := ExpectedStatus(c, snapshot, e)) else db.enrollments[e],
       db.events,
       map e | e in db.projections.Keys + drifted ::
         if e in drifted then CountsOf(c, snapshot, e) else db.projections[e])
  }

  /** Its inserts conflict, at REPEATABLE READ, with a row that appeared after the snapshot. */
  predicate CanRewrite(c: Content, snapshot: Db, db: Db) {
    forall e | e in Drifted(c, snapshot) ::
      (e in db.projections <==> e in snapshot.projections) && Storable(CountsOf(c, snapshot, e))
  }

  ghost function AdvanceStep(c: Content, s: System, t: TxnId): System {
    if t !in s.work then s
    else
      var w := s.work[t];
      match w
      case Enrolling(_, _, _, _) => AdvanceEnroll(c, s, t, w)
      case Completing(_, _, _, _) => AdvanceComplete(c, s, t, w)
      case Resetting(_, _, _, _) => s
      case Reconciling(snapshot, stale, locked, written) =>
        if snapshot.enrollments.Keys <= locked && CanRewrite(c, snapshot, s.db)
        then Now(s, t, Reconciling(snapshot, stale, locked, true))
        else s
  }

  function LockStep(s: System, t: TxnId, e: Uuid): System {
    if t !in s.work then s
    else
      var w := s.work[t];
      match w
      case Resetting(members, present, targets, locked) =>
        if e !in s.db.enrollments then Now(s, t, Resetting(members, present, targets - {e}, locked))
        else if e in targets && e !in s.locks then Locking(s, t, e, Resetting(members, present, targets, locked + {e}))
        else s
      case Reconciling(snapshot, stale, locked, written) =>
        if e in snapshot.enrollments && e !in stale && e in s.db.enrollments && e !in s.locks
        then Locking(s, t, e, Reconciling(snapshot, stale, locked + {e}, written))
        else s
      case _ => s
  }

  /** The committed state a commit of t leaves, and the enrollment rows it rewrote or deleted;
      None when t is not ready to commit. */
  function Commits(c: Content, s: System, t: TxnId): Option<(Db, set<Uuid>)> {
    if t !in s.work then None
    else
      var w, db := s.work[t], s.db;
      match w
      case Enrolling(member, course, newId, ToFinish(e, own, initializes)) =>
        var created := if own then db.(enrollments := db.enrollments[e := Enrollment(member, course, Active)]) else db;
        Some((if initializes then Initialized(created, e, c.Total(course)) else created, {}))
      case Completing(_, e, _, ToCommit(row, appends, counts, status)) =>
        var logged := WithOwn(s, w, appends);
        Some((Db(if status.Some? then db.enrollments[e := row.(status := status.value)] else db.enrollments,
                 logged.events,
                 if counts.Some? then db.projections[e := counts.value] else db.projections),
              if status.Some? then {e} else {}))
      case Resetting(_, _, targets, locked) =>
        if targets <= locked then Some((Delete(db, locked), locked)) else None
      case Reconciling(snapshot, _, _, written) =>
        if written then Some((Rebuilt(c, snapshot, db), Drifted(c, snapshot))) else None
      case _ => None
  }

  ghost function Step(c: Content, s: System, a: Action): System {
    match a
    case BeginEnroll(t, member, course, newId) =>
      if c.IsPublished(course) && newId !in s.issued && t !in s.work
      then Begin(s, t, Enrolling(member, course, newId, ToInsert)).(issued := s.issued + {newId})
      else s
    case BeginComplete(t, member, e, lesson) => Begin(s, t, Completing(member, e, lesson, ToLock))
    case BeginReset(t, members) => Begin(s, t, Resetting(members, s.db.enrollments.Keys, EnrollmentsOf(s.db, members), {}))
    case BeginReconcile(t) => Begin(s, t, Reconciling(s.db, {}, {}, false))
    case LockRow(t, e) => LockStep(s, t, e)
    case Advance(t) => AdvanceStep(c, s, t)
    case Commit(t) =>
      (match Commits(c, s, t)
       case None => s
       case Some((db, rewritten)) => End(Publish(s, db, rewritten), t))
    case Abort(t) => if t in s.work then End(s, t) else s
    case WithdrawRow(e) =>
      if e in s.db.enrollments && e !in s.locks then Publish(s, Withdraw(s.db, e), {e}) else s
  }

  ghost function Run(c: Content, s: System, actions: seq<Action>): System
    decreases |actions|
  {
    if actions == [] then s else Run(c, Step(c, s, actions[0]), actions[1..])
  }

  // ---------------------------------------------------------------- the invariant

  predicate Holds(w: Work, e: Uuid) {
    match w
    case Enrolling(_, _, _, enrolled) => enrolled.ToFinish? && !enrolled.own && enrolled.initializes && enrolled.enrollment == e
    case Completing(_, enrollment, _, completed) => !completed.ToLock? && enrollment == e
    case Resetting(_, _, _, locked) => e in locked
    case Reconciling(_, _, locked, _) => e in locked
  }

  /** What an enrolling transaction relies on at its stage. */
  ghost predicate EnrollOk(c: Content, db: Db, w: Work)
    requires w.Enrolling?
  {
    && c.IsPublished(w.course) && w.newId !in db.enrollments
    && (Pending(w, w.member, w.course) ==> forall e :: !HasKey(db, e, w.member, w.course))
    && match w.enrolled
       case ToInsert => true
       case ToSelect(_) => true
       case ToInitialize(e, own) =>
         if own then e == w.newId else e in db.enrollments ==> HasKey(db, e, w.member, w.course)
       case ToFinish(e, own, initializes) =>
         if own then e == w.newId && initializes
         else
           && (e in db.enrollments ==> HasKey(db, e, w.member, w.course))
           && (initializes ==> e in db.enrollments && e !in db.projections)
  }

  /** What a completing transaction has read is still what is committed. */
  ghost predicate CompleteOk(c: Content, db: Db, w: Work)
    requires w.Completing?
  {
    var e := w.enrollment;
    !w.completed.ToLock? ==>
      && e in db.enrollments && w.completed.row == db.enrollments[e]
      && Admits(c, w.completed.row, w.member, w.lesson)
      && (!w.completed.ToOrder? ==>
            !(c.IsSequential(w.completed.row.course) && UnfinishedEarlier(c, db, e, w.completed.row.course, w.lesson)))
      && (w.completed.ToProject? || w.completed.ToStatus? || w.completed.ToCommit? ==>
            w.completed.appends == (w.lesson !in db.Done(e)))
      && (w.completed.ToStatus? || w.completed.ToCommit? ==>
            w.completed.counts == if e in db.projections then Some(CountsOf(c, Appended(db, e, w.lesson, w.member), e)) else None)
      && (w.completed.ToStatus? || w.completed.ToCommit? ==>
            w.completed.counts.Some? ==> Storable(w.completed.counts.value))
      && (w.completed.ToCommit? ==>
            w.completed.status == if w.completed.counts.Some? then Some(StatusOf(w.completed.counts.value)) else None)
  }

  ghost predicate WorkOk(c: Content, db: Db, w: Work) {
    match w
    case Enrolling(_, _, _, _) => EnrollOk(c, db, w)
    case Completing(_, _, _, _) => CompleteOk(c, db, w)
    case Resetting(members, present, targets, locked) =>
      && locked <= targets <= present && locked <= db.enrollments.Keys
      && forall e | e in db.enrollments && e in present :: e in targets <==> db.enrollments[e].member in members
    case Reconciling(snapshot, stale, locked, written) =>
      && Valid(c, snapshot) && locked <= snapshot.enrollments.Keys && locked !! stale
      && (written ==> locked == snapshot.enrollments.Keys)
  }

  /** An existing enrollment that an enrolling transaction has found. */
  function Selected(w: Work): Option<Uuid> {
    if w.Enrolling? && (w.enrolled.ToInitialize? || w.enrolled.ToFinish?) && !w.enrolled.own
    then Some(w.enrolled.enrollment)
    else None
  }

  /** A row lock belongs to one transaction, and a locked row stays. */
  ghost predicate LocksOk(s: System) {
    forall t, e | t in s.work && Holds(s.work[t], e) :: e in s.locks && s.locks[e] == t && e in s.db.enrollments
  }

  ghost predicate AllWorkOk(c: Content, s: System) {
    forall t | t in s.work :: WorkOk(c, s.db, s.work[t])
  }

  /** Enrollment ids are never drawn twice. */
  ghost predicate IdsOk(s: System) {
    && s.db.enrollments.Keys <= s.issued
    && (forall t | t in s.work && s.work[t].Enrolling? :: s.work[t].newId in s.issued)
    && (forall t | t in s.work && Selected(s.work[t]).Some? :: Selected(s.work[t]).value in s.issued)
    && (forall t, u | t in s.work && u in s.work && s.work[t].Enrolling? && s.work[u].Enrolling? ::
          && (t != u ==> s.work[t].newId != s.work[u].newId)
          && Selected(s.work[t]) != Some(s.work[u].newId))
  }

  /** An enrollment inserted while a reset runs is not among the rows the reset saw. */
  ghost predicate PresentOk(s: System) {
    && (forall t | t in s.work && s.work[t].Resetting? :: s.work[t].present <= s.issued)
    && (forall t, u | t in s.work && u in s.work && s.work[t].Resetting? && s.work[u].Enrolling? ::
          s.work[u].newId !in s.work[t].present)
  }

  /** At most one transaction is inserting a given (member, course). */
  ghost predicate KeysOk(s: System) {
    forall t, u | t in s.work && u in s.work && t != u && s.work[t].Enrolling? && s.work[u].Enrolling? ::
      !(Pending(s.work[t], s.work[t].member, s.work[t].course) && Pending(s.work[u], s.work[t].member, s.work[t].course))
  }

  ghost predicate Inv(c: Content, s: System) {
    Valid(c, s.db) && LocksOk(s) && AllWorkOk(c, s) && IdsOk(s) && PresentOk(s) && KeysOk(s)
  }
}
