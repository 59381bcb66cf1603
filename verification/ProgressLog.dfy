/**
 The progress tables as one value, and what each database transaction of the application does
 to them when it runs alone. The log of completed lessons only grows; each enrollment has a row of
 counts and a status that should say what the log says, save that a withdrawn enrollment stays
 withdrawn.
 */
module ProgressLog {
  import opened Wrappers
  import opened Catalog

  datatype Status = Active | Completed | Withdrawn

  datatype Enrollment = Enrollment(member: Uuid, course: Uuid, status: Status)

  // A row of progress_event. There is a single event type, 'lesson_completed'.
  datatype Event = Event(enrollment: Uuid, lesson: Uuid, actor: Uuid)

  // A row of enrollment_progress.
  datatype Counts = Counts(completed: int, total: int, percent: int)

  datatype Outcome =
    | NotFound
    | Forbidden
    | EnrollmentWithdrawn
    | OutOfOrder
    | Rejected  // a key or check constraint of the schema refused the write
    | Accepted(enrollment: Uuid, created: bool)

  datatype Db = Db(enrollments: map<Uuid, Enrollment>, events: set<Event>, projections: map<Uuid, Counts>)
  {
    function Rows(e: Uuid): set<Event> {
      set v | v in events && v.enrollment == e
    }

    /** The lessons the log says are completed. */
    function Done(e: Uuid): set<Uuid> {
      set v | v in events && v.enrollment == e :: v.lesson
    }

    /** `count(*)` over the enrollment's rows of the log. */
    function Completions(e: Uuid): nat {
      |Rows(e)|
    }
  }

  /** The check constraints of enrollment_progress. */
  predicate Storable(k: Counts) {
    0 <= k.completed <= k.total && 0 <= k.percent <= 100
  }

  function Percent(done: nat, total: nat): nat {
    if total == 0 then 0 else done * 100 / total
  }

  function CountsOf(c: Content, db: Db, e: Uuid): Counts
    requires e in db.enrollments
  {
    var total := c.Total(db.enrollments[e].course);
    Counts(db.Completions(e), total, Percent(db.Completions(e), total))
  }

  function StatusOf(k: Counts): Status {
    if k.total > 0 && k.completed == k.total then Completed else Active
  }

  function ExpectedStatus(c: Content, db: Db, e: Uuid): Status
    requires e in db.enrollments
  {
    if db.enrollments[e].status == Withdrawn then Withdrawn else StatusOf(CountsOf(c, db, e))
  }

  /** The cached row and the status are what the log implies. */
  predicate Agrees(c: Content, db: Db, e: Uuid)
    requires e in db.enrollments
  {
    && e in db.projections
    && db.projections[e] == CountsOf(c, db, e)
    && db.enrollments[e].status == ExpectedStatus(c, db, e)
  }

  ghost predicate AllAgree(c: Content, db: Db) {
    forall e | e in db.enrollments :: Agrees(c, db, e)
  }

  function Drifted(c: Content, db: Db): set<Uuid> {
    set e | e in db.enrollments && !Agrees(c, db, e)
  }

  /** Keys, foreign keys and check constraints, and that events stay inside the enrolled course. */
  ghost predicate Valid(c: Content, db: Db) {
    && c.Valid()
    && (forall d, e | d in db.enrollments && e in db.enrollments
          && db.enrollments[d].member == db.enrollments[e].member
          && db.enrollments[d].course == db.enrollments[e].course :: d == e)
    && (forall v | v in db.events ::
          v.enrollment in db.enrollments && v.lesson in c.LessonsOf(db.enrollments[v.enrollment].course))
    && (forall v, w | v in db.events && w in db.events && v.enrollment == w.enrollment && v.lesson == w.lesson :: v == w)
    && (forall e | e in db.projections :: e in db.enrollments && Storable(db.projections[e]))
  }

  // ---------------------------------------------------------------- the transactions

  predicate HasKey(db: Db, e: Uuid, member: Uuid, course: Uuid) {
    e in db.enrollments && db.enrollments[e].member == member && db.enrollments[e].course == course
  }

  ghost function Find(db: Db, member: Uuid, course: Uuid): (found: Option<Uuid>)
    ensures found.Some? ==> HasKey(db, found.value, member, course)
    ensures found.None? ==> forall e :: !HasKey(db, e, member, course)
  {
    if e :| HasKey(db, e, member, course) then Some(e) else None
  }

  /** `insert into enrollment_progress ... on conflict do nothing`. */
  function Initialized(db: Db, e: Uuid, total: nat): Db {
    if e in db.projections then db else db.(projections := db.projections[e := Counts(0, total, 0)])
  }

  ghost function Enroll(c: Content, db: Db, member: Uuid, course: Uuid, newId: Uuid): (Db, Outcome) {
    if !c.IsPublished(course) then (db, NotFound)
    else
      match Find(db, member, course)
      case Some(e) => (Initialized(db, e, c.Total(course)), Accepted(e, false))
      case None =>
        if newId in db.enrollments then (db, Rejected)
        else
          var row := Enrollment(member, course, Active);
          (Initialized(db.(enrollments := db.enrollments[newId := row]), newId, c.Total(course)), Accepted(newId, true))
  }

  predicate UnfinishedEarlier(c: Content, db: Db, e: Uuid, course: Uuid, lesson: Uuid) {
    exists k | k in c.LessonsOf(course) :: c.Earlier(k, lesson) && k !in db.Done(e)
  }

  /** `insert into progress_event ... on conflict do nothing`. */
  function Appended(db: Db, e: Uuid, lesson: Uuid, actor: Uuid): Db {
    if lesson in db.Done(e) then db else db.(events := db.events + {Event(e, lesson, actor)})
  }

  /** The checks CompleteLesson makes, in its order; None when it goes on to write. */
  function Refusal(c: Content, db: Db, member: Uuid, e: Uuid, lesson: Uuid): Option<Outcome> {
    if e !in db.enrollments then Some(NotFound)
    else
      var row := db.enrollments[e];
      if row.member != member then Some(Forbidden)
      else if row.status == Withdrawn then Some(EnrollmentWithdrawn)
      else if lesson !in c.LessonsOf(row.course) then Some(NotFound)
      else if c.IsSequential(row.course) && UnfinishedEarlier(c, db, e, row.course, lesson) then Some(OutOfOrder)
      else None
  }

  function CompleteLesson(c: Content, db: Db, member: Uuid, e: Uuid, lesson: Uuid): (Db, Outcome) {
    match Refusal(c, db, member, e, lesson)
    case Some(refusal) => (db, refusal)
    case None =>
      var row := db.enrollments[e];
      var logged := Appended(db, e, lesson, member);
      var accepted := Accepted(e, lesson !in db.Done(e));
      if e !in db.projections then (logged, accepted)  // both updates match no row
      else
        var counts := CountsOf(c, logged, e);
        if !Storable(counts) then (db, Rejected)
        else (Db(db.enrollments[e := row.(status := StatusOf(counts))], logged.events, db.projections[e := counts]), accepted)
  }

  /** No code path of the application withdraws; an operator's update does. */
  function Withdraw(db: Db, e: Uuid): Db {
    if e in db.enrollments then db.(enrollments := db.enrollments[e := db.enrollments[e].(status := Withdrawn)]) else db
  }

  /** Deleting enrollments cascades to their events and projections. */
  function Delete(db: Db, ids: set<Uuid>): Db {
    Db(db.enrollments - ids, (set v | v in db.events && v.enrollment !in ids), db.projections - ids)
  }

  function EnrollmentsOf(db: Db, members: set<Uuid>): set<Uuid> {
    set e | e in db.enrollments && db.enrollments[e].member in members
  }

  /** Each drifted row rewritten from the log; nothing when a check constraint refuses one of them. */
  function Repaired(c: Content, db: Db): Db {
    var drifted := Drifted(c, db);
    if exists e | e in drifted :: !Storable(CountsOf(c, db, e)) then db
    else Db(
      map e | e in db.enrollments ::
        if e in drifted then db.enrollments[e].(status := ExpectedStatus(c, db, e)) else db.enrollments[e],
      db.events,
      map e | e in db.projections.Keys + drifted ::
        if e in drifted then CountsOf(c, db, e) else db.projections[e])
  }

  datatype Op =
    | EnrollOp(member: Uuid, course: Uuid, newId: Uuid)
    | CompleteOp(member: Uuid, enrollment: Uuid, lesson: Uuid)
    | WithdrawOp(enrollment: Uuid)
    | DeleteOp(ids: set<Uuid>)
    | ReconcileOp

  ghost function Apply(c: Content, db: Db, op: Op): Db {
    match op
    case EnrollOp(member, course, newId) => Enroll(c, db, member, course, newId).0
    case CompleteOp(member, e, lesson) => CompleteLesson(c, db, member, e, lesson).0
    case WithdrawOp(e) => Withdraw(db, e)
    case DeleteOp(ids) => Delete(db, ids)
    case ReconcileOp => Repaired(c, db)
  }

  // ---------------------------------------------------------------- counting

  /** The unique key makes the row count of the log the number of completed lessons. */
  lemma {:induction false} CountIsDone(c: Content, db: Db, e: Uuid)
    requires Valid(c, db)
    ensures db.Completions(e) == |db.Done(e)|
  {
    SameSize(db.Rows(e), db.Done(e));
  }

  lemma {:induction false} SameSize(rows: set<Event>, lessons: set<Uuid>)
    requires lessons == set v | v in rows :: v.lesson
    requires forall v, w | v in rows && w in rows && v.lesson == w.lesson :: v == w
    ensures |rows| == |lessons|
  {
    if rows == {} {
    } else {
      var v :| v in rows;
      var rest := rows - {v};
      assert lessons - {v.lesson} == set w | w in rest :: w.lesson;
      SameSize(rest, lessons - {v.lesson});
    }
  }

  lemma SubsetSize<T>(a: set<T>, b: set<T>)
    requires a <= b
    ensures |a| <= |b|
    ensures |a| == |b| ==> a == b
  {
    assert b == a + (b - a);
    assert |b| == |a| + |b - a|;
  }

  /** Events inject into the course's lessons, so a count read from the log always fits the schema;
      the percentage is 100 exactly when every lesson of a nonempty course is done. */
  lemma CountsFit(c: Content, db: Db, e: Uuid)
    requires Valid(c, db) && e in db.enrollments
    ensures Storable(CountsOf(c, db, e))
    ensures 0 <= CountsOf(c, db, e).percent <= 100
    ensures db.Completions(e) == |db.Done(e)| <= c.Total(db.enrollments[e].course)
    ensures CountsOf(c, db, e).percent == 100 <==> StatusOf(CountsOf(c, db, e)) == Completed
    ensures StatusOf(CountsOf(c, db, e)) == Completed <==>
              db.Done(e) == c.LessonsOf(db.enrollments[e].course) && db.Done(e) != {}
  {
    var all := c.LessonsOf(db.enrollments[e].course);
    CountIsDone(c, db, e);
    assert db.Done(e) <= all;
    SubsetSize(db.Done(e), all);
    PercentFits(|db.Done(e)|, |all|);
  }

  lemma PercentFits(done: nat, total: nat)
    requires done <= total
    ensures 0 <= Percent(done, total) <= 100
    ensures Percent(done, total) == 100 <==> done == total > 0
  {
    if total > 0 {
      if done < total {
        assert done * 100 < 100 * total;
      }
    }
  }
}
