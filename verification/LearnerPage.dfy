/**
 The lesson list a learner sees, in course order with completion flags, and the page's choice of
 the one lesson to offer next.
 */
module LearnerPage {
  import opened Wrappers
  import opened Catalog
  import opened ProgressLog
  import opened ProgressInvariants
  import opened ProgressMeaning
  import opened ProgressRuns

  datatype LessonView = LessonView(id: Uuid, completed: bool)

  /** `order by m.position, l.position`, flagged from the log. */
  function Lessons(c: Content, db: Db, e: Uuid): seq<LessonView>
    requires c.Valid() && e in db.enrollments
  {
    var course := db.enrollments[e].course;
    var list := c.Listed(course, c.LessonsOf(course));
    seq(|list|, i requires 0 <= i < |list| => LessonView(list[i], list[i] in db.Done(e)))
  }

  /** The list holds exactly the lessons of the course, each before the ones that come after it by module
      position and then lesson position, and flags those that have an event of the enrollment. */
  lemma LessonsMean(c: Content, db: Db, e: Uuid)
    requires c.Valid() && e in db.enrollments
    ensures var course, lessons := db.enrollments[e].course, Lessons(c, db, e);
            && (forall l :: InCourse(c, course, l) <==> exists i | 0 <= i < |lessons| :: lessons[i].id == l)
            && (forall i, j | 0 <= i < j < |lessons| :: Before(c, lessons[i].id, lessons[j].id))
            && (forall i | 0 <= i < |lessons| :: lessons[i].completed <==> Logged(db, e, lessons[i].id))
  {
    var course, lessons := db.enrollments[e].course, Lessons(c, db, e);
    var list := c.Listed(course, c.LessonsOf(course));
    c.ListedInOrder(course, c.LessonsOf(course));
    forall l ensures InCourse(c, course, l) <==> exists i | 0 <= i < |lessons| :: lessons[i].id == l {
      InCourseIsOf(c, course, l);
      if l in list {
        var i :| 0 <= i < |list| && list[i] == l;
        assert lessons[i].id == l;
      }
    }
    forall i, j | 0 <= i < j < |lessons| ensures Before(c, lessons[i].id, lessons[j].id) {
      BeforeIsEarlier(c, list[i], list[j]);
    }
    forall i | 0 <= i < |lessons| ensures lessons[i].completed <==> Logged(db, e, lessons[i].id) {
      LoggedIsDone(db, e, lessons[i].id);
    }
  }

  /** The first lesson that is not completed. */
  function FirstOpen(lessons: seq<LessonView>): Option<Uuid> {
    if lessons == [] then None
    else if !lessons[0].completed then Some(lessons[0].id)
    else FirstOpen(lessons[1..])
  }

  /** The page's fold: a lesson gets a button when it is open and every lesson before it is complete. */
  method CanComplete(lessons: seq<LessonView>) returns (can: seq<bool>)
    ensures |can| == |lessons|
    ensures forall i | 0 <= i < |can| ::
              can[i] <==> !lessons[i].completed && forall j | 0 <= j < i :: lessons[j].completed
  {
    can := [];
    var earlierLessonsComplete := true;
    for i := 0 to |lessons|
      invariant |can| == i
      invariant earlierLessonsComplete <==> forall j | 0 <= j < i :: lessons[j].completed
      invariant forall k | 0 <= k < i :: can[k] <==> !lessons[k].completed && forall j | 0 <= j < k :: lessons[j].completed
    {
      can := can + [!lessons[i].completed && earlierLessonsComplete];
      if !lessons[i].completed {
        earlierLessonsComplete := false;
      }
    }
  }

  /** What that rule offers is the first open lesson, and nothing else. */
  lemma {:induction false} OffersAtMostOne(lessons: seq<LessonView>, i: nat)
    requires i < |lessons|
    requires forall a, b | 0 <= a < b < |lessons| :: lessons[a].id != lessons[b].id
    ensures (!lessons[i].completed && forall j | 0 <= j < i :: lessons[j].completed)
            <==> FirstOpen(lessons) == Some(lessons[i].id)
  {
    if lessons[0].completed && i > 0 {
      OffersAtMostOne(lessons[1..], i - 1);
      assert forall j | 0 < j < i :: lessons[j] == lessons[1..][j - 1];
    } else if lessons[0].completed {
      FirstOpenIsOpen(lessons[1..]);
    }
  }

  lemma {:induction false} FirstOpenIsOpen(lessons: seq<LessonView>)
    ensures match FirstOpen(lessons)
            case None => forall i | 0 <= i < |lessons| :: lessons[i].completed
            case Some(id) => exists i | 0 <= i < |lessons| ::
              lessons[i].id == id && !lessons[i].completed && forall j | 0 <= j < i :: lessons[j].completed
  {
    if lessons != [] && lessons[0].completed {
      var rest := lessons[1..];
      FirstOpenIsOpen(rest);
      match FirstOpen(rest)
      case None =>
        assert forall i | 0 < i < |lessons| :: lessons[i] == rest[i - 1];
      case Some(id) =>
        var i :| 0 <= i < |rest| && rest[i].id == id && !rest[i].completed && forall j | 0 <= j < i :: rest[j].completed;
        assert lessons[i + 1] == rest[i];
        assert forall j | 0 < j < i + 1 :: lessons[j] == rest[j - 1];
    }
  }

  // ---------------------------------------------------------------- the flags of a sequential course

  lemma {:induction false} PrefixSize(list: seq<Uuid>, k: nat)
    requires k <= |list| && forall i, j | 0 <= i < j < |list| :: list[i] != list[j]
    ensures |set i | 0 <= i < k :: list[i]| == k
  {
    var all := set i | 0 <= i < k :: list[i];
    if k == 0 {
      assert all == {};
    } else {
      var most := set i | 0 <= i < k - 1 :: list[i];
      PrefixSize(list, k - 1);
      assert list[k - 1] !in most;
      assert all == most + {list[k - 1]};
    }
  }

  /** A completed set closed under "earlier" is an initial segment of the course's list. */
  lemma ClosedIsPrefix(c: Content, list: seq<Uuid>, done: set<Uuid>)
    requires c.InOrder(list)
    requires forall l | l in done :: l in list
    requires forall k, l | k in list && l in done && c.Earlier(k, l) :: k in done
    ensures forall i | 0 <= i < |list| :: list[i] in done <==> i < |done|
  {
    var k := 0;
    while k < |list| && list[k] in done
      invariant k <= |list| && forall i | 0 <= i < k :: list[i] in done
    {
      k := k + 1;
    }
    assert forall i | k <= i < |list| :: list[i] !in done;
    assert done == set i | 0 <= i < k :: list[i];
    PrefixSize(list, k);
  }

  lemma FlagsArePrefix(c: Content, db: Db, e: Uuid)
    requires c.Valid() && e in db.enrollments && db.Done(e) <= c.LessonsOf(db.enrollments[e].course)
    requires forall k, l | k in c.LessonsOf(db.enrollments[e].course) && l in db.Done(e) && c.Earlier(k, l) :: k in db.Done(e)
    ensures |Lessons(c, db, e)| == c.Total(db.enrollments[e].course)
    ensures forall i | 0 <= i < |Lessons(c, db, e)| :: Lessons(c, db, e)[i].completed <==> i < |db.Done(e)|
  {
    var course := db.enrollments[e].course;
    var list := c.Listed(course, c.LessonsOf(course));
    c.ListedInOrder(course, c.LessonsOf(course));
    assert forall k | k in list :: k in c.LessonsOf(course);
    ClosedIsPrefix(c, list, db.Done(e));
  }

  /** In every clean state a sequential course shows exactly `completed_lessons` completed lessons,
      followed only by open ones: the cached count and the flags of the log cannot disagree. */
  lemma SequentialFlags(c: Content, db: Db, e: Uuid)
    requires Clean(c, db) && e in db.enrollments && c.IsSequential(db.enrollments[e].course)
    ensures e in db.projections && 0 <= db.projections[e].completed <= |Lessons(c, db, e)| == db.projections[e].total
    ensures forall i | 0 <= i < |Lessons(c, db, e)| ::
              Lessons(c, db, e)[i].completed <==> i < db.projections[e].completed
  {
    assert Agrees(c, db, e);
    CountsFit(c, db, e);
    FlagsArePrefix(c, db, e);
  }

  // ---------------------------------------------------------------- following the offers

  function Offer(c: Content, db: Db, e: Uuid): Option<Uuid>
    requires c.Valid() && e in db.enrollments
  {
    FirstOpen(Lessons(c, db, e))
  }

  lemma DistinctIds(c: Content, db: Db, e: Uuid)
    requires c.Valid() && e in db.enrollments
    ensures var lessons := Lessons(c, db, e);
            forall i, j | 0 <= i < j < |lessons| :: lessons[i].id != lessons[j].id
  {
    var course := db.enrollments[e].course;
    var list := c.Listed(course, c.LessonsOf(course));
    c.ListedInOrder(course, c.LessonsOf(course));
    forall i, j | 0 <= i < j < |list| ensures list[i] != list[j] {
      assert c.Earlier(list[i], list[j]);
    }
  }

  /** The page's button rule, on the lessons it is given, is the offer. */
  lemma ButtonIsTheOffer(c: Content, db: Db, e: Uuid, i: nat)
    requires c.Valid() && e in db.enrollments && i < |Lessons(c, db, e)|
    ensures var lessons := Lessons(c, db, e);
            (!lessons[i].completed && forall j | 0 <= j < i :: lessons[j].completed) <==> Offer(c, db, e) == Some(lessons[i].id)
  {
    DistinctIds(c, db, e);
    OffersAtMostOne(Lessons(c, db, e), i);
  }

  /** The whole page for one enrollment: at most one lesson has a button, and it is the offer. */
  method Buttons(c: Content, db: Db, e: Uuid) returns (offered: seq<Uuid>)
    requires c.Valid() && e in db.enrollments
    ensures offered == match Offer(c, db, e) { case None => [] case Some(lesson) => [lesson] }
  {
    var lessons := Lessons(c, db, e);
    var can := CanComplete(lessons);
    offered := [];
    for i := 0 to |lessons|
      invariant offered == if exists k | 0 <= k < i :: can[k] then (match Offer(c, db, e) case None => [] case Some(lesson) => [lesson]) else []
    {
      ButtonIsTheOffer(c, db, e, i);
      if can[i] {
        DistinctIds(c, db, e);
        assert forall k | 0 <= k < i :: !can[k];
        offered := offered + [lessons[i].id];
      }
    }
    NoButtonNoOffer(c, db, e, can);
  }

  lemma NoButtonNoOffer(c: Content, db: Db, e: Uuid, can: seq<bool>)
    requires c.Valid() && e in db.enrollments && |can| == |Lessons(c, db, e)|
    requires var lessons := Lessons(c, db, e);
             forall i | 0 <= i < |can| :: can[i] <==> !lessons[i].completed && forall j | 0 <= j < i :: lessons[j].completed
    ensures Offer(c, db, e).Some? <==> exists k | 0 <= k < |can| :: can[k]
  {
    FirstOpenIsOpen(Lessons(c, db, e));
    if Offer(c, db, e) == None {
      assert forall k | 0 <= k < |can| :: !can[k];
    } else {
      var i :| 0 <= i < |can| && !Lessons(c, db, e)[i].completed && forall j | 0 <= j < i :: Lessons(c, db, e)[j].completed;
      assert can[i];
    }
  }

  /** A lesson earlier than list[i] stands before it. */
  lemma EarlierStandsBefore(c: Content, course: Uuid, i: nat, k: Uuid)
    requires c.Valid() && k in c.LessonsOf(course) && i < |c.Listed(course, c.LessonsOf(course))|
    requires c.Earlier(k, c.Listed(course, c.LessonsOf(course))[i])
    ensures exists j | 0 <= j < i :: c.Listed(course, c.LessonsOf(course))[j] == k
  {
    var list := c.Listed(course, c.LessonsOf(course));
    c.ListedInOrder(course, c.LessonsOf(course));
    var j :| 0 <= j < |list| && list[j] == k;
    assert i < j ==> c.Earlier(list[i], list[j]);
  }

  /** An offer is an open lesson of the course with every earlier lesson done. */
  lemma OfferIsNext(c: Content, db: Db, e: Uuid)
    requires c.Valid() && e in db.enrollments
    ensures var all := c.LessonsOf(db.enrollments[e].course);
            match Offer(c, db, e)
            case None => all <= db.Done(e)
            case Some(lesson) =>
              lesson in all && lesson !in db.Done(e) && forall k | k in all && c.Earlier(k, lesson) :: k in db.Done(e)
  {
    var course := db.enrollments[e].course;
    var lessons, list := Lessons(c, db, e), c.Listed(course, c.LessonsOf(course));
    FirstOpenIsOpen(lessons);
    match Offer(c, db, e)
    case None =>
      forall l | l in c.LessonsOf(course) ensures l in db.Done(e) {
        var i :| 0 <= i < |list| && list[i] == l;
        assert lessons[i].completed;
      }
    case Some(lesson) =>
      var i :| 0 <= i < |lessons| && lessons[i].id == lesson && !lessons[i].completed
               && forall j | 0 <= j < i :: lessons[j].completed;
      assert list[i] == lesson && lesson in list;
      forall k | k in c.LessonsOf(course) && c.Earlier(k, lesson) ensures k in db.Done(e) {
        EarlierStandsBefore(c, course, i, k);
        var j :| 0 <= j < i && list[j] == k;
        assert lessons[j].completed;
      }
  }

  /** The offered lesson is always accepted from the owner and always records something new;
      there is no offer exactly when every lesson is done. */
  lemma OfferIsAccepted(c: Content, db: Db, e: Uuid)
    requires Valid(c, db) && e in db.enrollments && db.enrollments[e].status != Withdrawn
    ensures match Offer(c, db, e)
            case None => db.Completions(e) == c.Total(db.enrollments[e].course)
            case Some(lesson) =>
              && CompleteLesson(c, db, db.enrollments[e].member, e, lesson).1 == Accepted(e, true)
              && db.Completions(e) < c.Total(db.enrollments[e].course)
  {
    OfferIsNext(c, db, e);
    CountsFit(c, db, e);
    SubsetSize(db.Done(e), c.LessonsOf(db.enrollments[e].course));
    match Offer(c, db, e)
    case None =>
      assert db.Done(e) == c.LessonsOf(db.enrollments[e].course);
    case Some(lesson) =>
      CompleteKeepsValid(c, db, db.enrollments[e].member, e, lesson);
  }

  ghost predicate Learning(c: Content, db: Db, e: Uuid) {
    Clean(c, db) && e in db.enrollments && db.enrollments[e].status != Withdrawn
  }

  lemma RecordedStep(c: Content, db: Db, member: Uuid, e: Uuid, lesson: Uuid)
    requires Learning(c, db, e) && CompleteLesson(c, db, member, e, lesson).1 == Accepted(e, true)
    ensures var next := CompleteLesson(c, db, member, e, lesson).0;
            && Learning(c, next, e)
            && next.enrollments[e].course == db.enrollments[e].course
            && next.Completions(e) == db.Completions(e) + 1
  {
    ApplyKeepsClean(c, db, CompleteOp(member, e, lesson));
    CreatedIsOneMore(c, db, member, e, lesson);
  }

  /** No offer is left exactly when every lesson is counted; the status then says so. */
  ghost predicate AtTheEnd(c: Content, db: Db, e: Uuid)
    requires c.Valid() && e in db.enrollments
  {
    && Offer(c, db, e) == None
    && db.enrollments[e].status == if c.Total(db.enrollments[e].course) > 0 then Completed else Active
  }

  lemma EndIsFull(c: Content, db: Db, e: Uuid)
    requires Learning(c, db, e)
    ensures Offer(c, db, e) == None <==> db.Completions(e) == c.Total(db.enrollments[e].course)
    ensures Offer(c, db, e) == None ==> AtTheEnd(c, db, e)
    ensures db.Completions(e) <= c.Total(db.enrollments[e].course)
  {
    OfferIsAccepted(c, db, e);
    assert Agrees(c, db, e);
  }

  /** Where the owner gets by taking the offer. */
  ghost function Next(c: Content, db: Db, e: Uuid): Db
    requires c.Valid() && e in db.enrollments
  {
    match Offer(c, db, e)
    case None => db
    case Some(lesson) => CompleteLesson(c, db, db.enrollments[e].member, e, lesson).0
  }

  /** The states an owner goes through who keeps taking the offer. */
  ghost predicate Follows(c: Content, e: Uuid, states: seq<Db>)
    requires c.Valid()
  {
    && |states| > 0
    && forall i, j | 0 <= i < j < |states| && j == i + 1 :: e in states[i].enrollments && states[j] == Next(c, states[i], e)
  }

  ghost function Remaining(c: Content, db: Db, e: Uuid): int
    requires e in db.enrollments
  {
    c.Total(db.enrollments[e].course) - db.Completions(e)
  }

  /** Still learning, with this many lessons counted. */
  ghost predicate Counted(c: Content, db: Db, e: Uuid, done: int, total: int) {
    Learning(c, db, e) && db.Completions(e) == done && c.Total(db.enrollments[e].course) == total
  }

  lemma NextIsOneMore(c: Content, db: Db, e: Uuid, done: int, total: int)
    requires Counted(c, db, e, done, total) && done < total
    ensures Counted(c, Next(c, db, e), e, done + 1, total)
  {
    EndIsFull(c, db, e);
    OfferIsAccepted(c, db, e);
    RecordedStep(c, db, db.enrollments[e].member, e, Offer(c, db, e).value);
  }

  lemma {:induction false} FollowCounts(c: Content, e: Uuid, states: seq<Db>, n: nat, done: int, total: int)
    requires c.Valid() && Follows(c, e, states) && n < |states|
    requires Counted(c, states[0], e, done, total) && n <= total - done
    ensures Counted(c, states[n], e, done + n, total)
    decreases n
  {
    if n == 0 {
    } else {
      FollowCounts(c, e, states, n - 1, done, total);
      NextIsOneMore(c, states[n - 1], e, done + n - 1, total);
    }
  }

  /** Taking the offers finishes the course in exactly total - completed steps, and not sooner. */
  lemma OffersFinishTheCourse(c: Content, e: Uuid, states: seq<Db>, n: nat)
    requires c.Valid() && Follows(c, e, states) && n < |states|
    requires Learning(c, states[0], e) && n <= Remaining(c, states[0], e)
    ensures e in states[n].enrollments && states[n].Completions(e) == states[0].Completions(e) + n
    ensures n < Remaining(c, states[0], e) <==> Offer(c, states[n], e).Some?
    ensures n == Remaining(c, states[0], e) ==> AtTheEnd(c, states[n], e)
  {
    FollowCounts(c, e, states, n, states[0].Completions(e), c.Total(states[0].enrollments[e].course));
    EndIsFull(c, states[n], e);
  }
}
