/**
 The specification of the progress tables in terms of their rows: what each request is answered, what it
 writes, and what the derived numbers count, without any of the functions the specification is made of.
 */
module ProgressMeaning {
  import opened Wrappers
  import opened Catalog
  import opened ProgressLog
  import opened ProgressInvariants

  /** The lesson is in a module of the course. */
  ghost predicate InCourse(c: Content, course: Uuid, lesson: Uuid) {
    exists m | m in c.modules :: c.modules[m].course == course && lesson in c.lessons && c.lessons[lesson].within == m
  }

  /** By module position first and by position in the module second. */
  ghost predicate Before(c: Content, k: Uuid, l: Uuid) {
    exists m, n | m in c.modules && n in c.modules && k in c.lessons && l in c.lessons ::
      && c.lessons[k].within == m && c.lessons[l].within == n
      && (c.modules[m].position < c.modules[n].position
          || (c.modules[m].position == c.modules[n].position && c.lessons[k].position < c.lessons[l].position))
  }

  ghost predicate Logged(db: Db, e: Uuid, lesson: Uuid) {
    exists actor :: Event(e, lesson, actor) in db.events
  }

  lemma InCourseIsOf(c: Content, course: Uuid, lesson: Uuid)
    ensures InCourse(c, course, lesson) <==> lesson in c.LessonsOf(course)
  {
  }

  lemma BeforeIsEarlier(c: Content, k: Uuid, l: Uuid)
    ensures Before(c, k, l) <==> c.Earlier(k, l)
  {
  }

  lemma LoggedIsDone(db: Db, e: Uuid, lesson: Uuid)
    ensures Logged(db, e, lesson) <==> lesson in db.Done(e)
  {
    if lesson in db.Done(e) {
      var v :| v in db.events && v.enrollment == e && v.lesson == lesson;
      assert Event(e, lesson, v.actor) in db.events;
    }
    if Logged(db, e, lesson) {
      var actor :| Event(e, lesson, actor) in db.events;
      assert Event(e, lesson, actor).lesson in db.Done(e);
    }
  }

  // ---------------------------------------------------------------- the derived numbers

  /** A count of the log, a count of the course, and the largest percentage that the one makes of the other. */
  ghost predicate IsTally(c: Content, db: Db, e: Uuid, k: Counts)
    requires e in db.enrollments
  {
    && k.completed == |set v | v in db.events && v.enrollment == e|
    && k.total == |set l | l in c.lessons && InCourse(c, db.enrollments[e].course, l)|
    && (if k.total == 0 then k.percent == 0 else k.percent * k.total <= 100 * k.completed < (k.percent + 1) * k.total)
  }

  lemma FloorOfRatio(done: nat, total: nat)
    requires total > 0
    ensures Percent(done, total) * total <= 100 * done < (Percent(done, total) + 1) * total
  {
  }

  lemma CountsMean(c: Content, db: Db, e: Uuid)
    requires e in db.enrollments
    ensures IsTally(c, db, e, CountsOf(c, db, e))
    ensures var k := CountsOf(c, db, e);
            ExpectedStatus(c, db, e)
            == if db.enrollments[e].status == Withdrawn then Withdrawn
               else if k.completed == k.total && k.total != 0 then Completed
               else Active
  {
    var course := db.enrollments[e].course;
    forall l ensures InCourse(c, course, l) <==> l in c.LessonsOf(course) {
      InCourseIsOf(c, course, l);
    }
    assert (set l | l in c.lessons && InCourse(c, course, l)) == c.LessonsOf(course);
    if c.Total(course) > 0 {
      FloorOfRatio(db.Completions(e), c.Total(course));
    }
  }

  /** The stored row and the status are what the log and the course imply. */
  ghost predicate IsCurrent(c: Content, db: Db, e: Uuid) {
    && e in db.enrollments && e in db.projections && IsTally(c, db, e, db.projections[e])
    && var k := db.projections[e];
       db.enrollments[e].status != Withdrawn ==>
         db.enrollments[e].status == if k.completed == k.total && k.total != 0 then Completed else Active
  }

  /** A tally has no choice. */
  lemma OneTally(c: Content, db: Db, e: Uuid, j: Counts, k: Counts)
    requires e in db.enrollments && IsTally(c, db, e, j) && IsTally(c, db, e, k)
    ensures j == k
  {
    if j.total != 0 {
      OneFloor(j.percent, k.percent, 100 * j.completed, j.total);
    }
  }

  lemma OneFloor(p: int, q: int, n: int, d: int)
    requires d > 0 && p * d <= n < (p + 1) * d && q * d <= n < (q + 1) * d
    ensures p == q
  {
    assert p < q ==> (p + 1) * d <= q * d;
    assert q < p ==> (q + 1) * d <= p * d;
  }

  lemma AgreeingIsCurrent(c: Content, db: Db, e: Uuid)
    requires e in db.enrollments
    ensures Agrees(c, db, e) <==> IsCurrent(c, db, e)
  {
    CountsMean(c, db, e);
    if IsCurrent(c, db, e) {
      OneTally(c, db, e, db.projections[e], CountsOf(c, db, e));
    }
  }

  // ---------------------------------------------------------------- completing a lesson

  ghost predicate Owns(db: Db, member: Uuid, e: Uuid) {
    e in db.enrollments && db.enrollments[e].member == member
  }

  /** Which completion gets which answer. */
  lemma CompletionAnswers(c: Content, db: Db, member: Uuid, e: Uuid, lesson: Uuid)
    requires Valid(c, db)
    ensures var answer := CompleteLesson(c, db, member, e, lesson).1;
            && (answer == Forbidden <==> e in db.enrollments && db.enrollments[e].member != member)
            && (answer == EnrollmentWithdrawn <==> Owns(db, member, e) && db.enrollments[e].status == Withdrawn)
            && (answer == NotFound <==>
                  (e !in db.enrollments
                   || (Owns(db, member, e) && db.enrollments[e].status != Withdrawn && !InCourse(c, db.enrollments[e].course, lesson))))
            && (answer == Accepted(e, true) <==> answer.Accepted? && !Logged(db, e, lesson))
            && (answer == Accepted(e, false) <==> answer.Accepted? && Logged(db, e, lesson))
            && answer != Rejected
  {
    CompleteKeepsValid(c, db, member, e, lesson);
    LoggedIsDone(db, e, lesson);
    if e in db.enrollments {
      InCourseIsOf(c, db.enrollments[e].course, lesson);
    }
  }

  /** In a sequential course a lesson is out of order exactly when some lesson of the course before it, by
      module position and then lesson position, has no event; an open course has no order. */
  lemma OutOfOrderExactly(c: Content, db: Db, member: Uuid, e: Uuid, lesson: Uuid)
    requires Valid(c, db) && Owns(db, member, e) && db.enrollments[e].status != Withdrawn
    requires InCourse(c, db.enrollments[e].course, lesson)
    ensures var course, answer := db.enrollments[e].course, CompleteLesson(c, db, member, e, lesson).1;
            && (answer == OutOfOrder || answer.Accepted?)
            && (answer == OutOfOrder <==>
                  && course in c.courses && c.courses[course].ordering == Sequential
                  && exists k | k in c.lessons :: InCourse(c, course, k) && Before(c, k, lesson) && !Logged(db, e, k))
  {
    var course := db.enrollments[e].course;
    CompleteKeepsValid(c, db, member, e, lesson);
    InCourseIsOf(c, course, lesson);
    forall k ensures InCourse(c, course, k) <==> k in c.LessonsOf(course) { InCourseIsOf(c, course, k); }
    forall k ensures Before(c, k, lesson) <==> c.Earlier(k, lesson) { BeforeIsEarlier(c, k, lesson); }
    forall k ensures Logged(db, e, k) <==> k in db.Done(e) { LoggedIsDone(db, e, k); }
  }

  /** What a completion writes: one event by its owner, and, if the enrollment has a projection row, that row
      and the status, from the log as it then is. */
  lemma CompletionWrites(c: Content, db: Db, member: Uuid, e: Uuid, lesson: Uuid)
    requires Valid(c, db)
    ensures var (next, answer) := CompleteLesson(c, db, member, e, lesson);
            if !answer.Accepted? then next == db
            else
              && e in db.enrollments && e in next.enrollments
              && next.events == db.events + (if Logged(db, e, lesson) then {} else {Event(e, lesson, member)})
              && (if e !in db.projections then next.enrollments == db.enrollments && next.projections == db.projections
                  else
                    && e in next.projections && IsTally(c, next, e, next.projections[e])
                    && next.projections == db.projections[e := next.projections[e]]
                    && var k := next.projections[e];
                       next.enrollments == db.enrollments[e := db.enrollments[e].(
                         status := if k.completed == k.total && k.total != 0 then Completed else Active)])
  {
    var next := CompleteLesson(c, db, member, e, lesson).0;
    LoggedIsDone(db, e, lesson);
    CompletionDone(c, db, member, e, lesson);
    if CompleteLesson(c, db, member, e, lesson).1.Accepted? && e in db.projections {
      CompletionAgrees(c, db, member, e, lesson);
      CountsMean(c, next, e);
    }
  }

  // ---------------------------------------------------------------- enrolling

  ghost predicate IsEnrollment(db: Db, d: Uuid, member: Uuid, course: Uuid) {
    d in db.enrollments && db.enrollments[d].member == member && db.enrollments[d].course == course
  }

  /** Only published courses can be enrolled in, and a member has one enrollment for each. */
  lemma EnrollAnswers(c: Content, db: Db, member: Uuid, course: Uuid, newId: Uuid)
    requires Valid(c, db)
    ensures var answer := Enroll(c, db, member, course, newId).1;
            && (answer == NotFound <==> course !in c.courses || c.courses[course].status == Draft || c.courses[course].status == Archived)
            && (answer != NotFound ==> forall d :: answer == Accepted(d, false) <==> IsEnrollment(db, d, member, course))
            && (answer != NotFound && (forall d :: !IsEnrollment(db, d, member, course)) ==>
                  answer == if newId in db.enrollments then Rejected else Accepted(newId, true))
  {
    forall d ensures HasKey(db, d, member, course) <==> IsEnrollment(db, d, member, course) {
    }
  }

  /** What enrolling writes: nothing, a new active enrollment, a projection row at zero, or both. */
  lemma EnrollWrites(c: Content, db: Db, member: Uuid, course: Uuid, newId: Uuid)
    requires Valid(c, db)
    ensures var (next, answer) := Enroll(c, db, member, course, newId);
            if !answer.Accepted? then next == db
            else
              var e, zero := answer.enrollment, Counts(0, |set l | l in c.lessons && InCourse(c, course, l)|, 0);
              && next.events == db.events
              && next.enrollments == (if answer.created then db.enrollments[e := Enrollment(member, course, Active)] else db.enrollments)
              && next.projections == (if e in db.projections then db.projections else db.projections[e := zero])
  {
    forall l ensures InCourse(c, course, l) <==> l in c.LessonsOf(course) {
      InCourseIsOf(c, course, l);
    }
    assert (set l | l in c.lessons && InCourse(c, course, l)) == c.LessonsOf(course);
  }
}
