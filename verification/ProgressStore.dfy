/**
 The store and the reconciler as they run: tables that each transaction updates in place. Every
 method is proved to have exactly the effect of the specification function of ProgressLog.
 */
module ProgressStore {
  import opened Wrappers
  import opened Catalog
  import opened ProgressLog
  import opened ProgressInvariants
  import opened ProgressMeaning
  import opened LearnerPage

  datatype Progress = Progress(course: Uuid, status: Status, counts: Counts, lessons: seq<LessonView>)

  /** What the dashboard shows; a missing projection row reads as zero progress. */
  function ProgressOf(c: Content, db: Db, e: Uuid): Progress
    requires c.Valid() && e in db.enrollments
  {
    var row := db.enrollments[e];
    Progress(row.course, row.status,
             if e in db.projections then db.projections[e] else Counts(0, c.Total(row.course), 0),
             Lessons(c, db, e))
  }

  /** A missing projection row reads as no progress in all lessons of the course; otherwise it is shown as stored. */
  lemma ProgressMeans(c: Content, db: Db, e: Uuid)
    requires c.Valid() && e in db.enrollments
    ensures var row, shown := db.enrollments[e], ProgressOf(c, db, e);
            && shown.course == row.course && shown.status == row.status && shown.lessons == Lessons(c, db, e)
            && (e in db.projections ==> shown.counts == db.projections[e])
            && (e !in db.projections ==> shown.counts == Counts(0, |shown.lessons|, 0))
  {
  }

  /** A row of the report: what is stored, and what the log and the course imply. */
  ghost predicate Truthful(c: Content, db: Db, d: Drift) {
    && d.enrollment in db.enrollments
    && (d.missing <==> d.enrollment !in db.projections)
    && d.projected == (if d.enrollment in db.projections then db.projections[d.enrollment] else Counts(0, 0, 0))
    && d.projectedStatus == db.enrollments[d.enrollment].status
    && IsTally(c, db, d.enrollment, d.expected)
    && d.expectedStatus == (if d.projectedStatus == Withdrawn then Withdrawn
                            else if d.expected.completed == d.expected.total && d.expected.total != 0 then Completed
                            else Active)
  }

  /** Every row is truthful and shows a disagreement, no enrollment has two, and every one that is not
      reported is stored as its log and course imply. */
  ghost predicate Complete(c: Content, db: Db, drifted: seq<Drift>) {
    && (forall d | d in drifted :: Truthful(c, db, d) && (d.missing || d.projected != d.expected || d.projectedStatus != d.expectedStatus))
    && (forall i, j | 0 <= i < j < |drifted| :: drifted[i].enrollment != drifted[j].enrollment)
    && (forall e | e in db.enrollments && e !in Ids(drifted) ::
          exists d: Drift :: Truthful(c, db, d) && d.enrollment == e && !d.missing && d.projected == d.expected && d.projectedStatus == d.expectedStatus)
  }

  lemma ComparedIsTruthful(c: Content, db: Db, e: Uuid)
    requires e in db.enrollments
    ensures Truthful(c, db, Compared(c, db, e))
  {
    CountsMean(c, db, e);
  }

  /** A reset leaves the other members' enrollments, with their events and rows, and nothing else. */
  lemma DeletionMeans(db: Db, members: set<Uuid>)
    ensures var next := Delete(db, EnrollmentsOf(db, members));
            && (forall e :: e in next.enrollments <==> e in db.enrollments && db.enrollments[e].member !in members)
            && (forall e | e in next.enrollments :: Untouched(db, next, e))
  {
    forall e | e !in EnrollmentsOf(db, members) ensures Untouched(db, Delete(db, EnrollmentsOf(db, members)), e) {
      DeleteFrame(db, EnrollmentsOf(db, members), e);
    }
  }

  lemma AllCurrent(c: Content, db: Db)
    requires Valid(c, db)
    ensures forall e | e in Repaired(c, db).enrollments :: IsCurrent(c, Repaired(c, db), e)
  {
    RepairFixesAll(c, db);
    forall e | e in Repaired(c, db).enrollments ensures IsCurrent(c, Repaired(c, db), e) {
      AgreeingIsCurrent(c, Repaired(c, db), e);
    }
  }

  lemma ListsIsComplete(c: Content, db: Db, drifted: seq<Drift>)
    requires Lists(c, db, drifted, Drifted(c, db))
    ensures Complete(c, db, drifted)
  {
    forall e | e in db.enrollments ensures Truthful(c, db, Compared(c, db, e)) {
      ComparedIsTruthful(c, db, e);
    }
    forall d | d in drifted
      ensures Truthful(c, db, d) && (d.missing || d.projected != d.expected || d.projectedStatus != d.expectedStatus)
    {
      assert d.enrollment in Ids(drifted) && d == Compared(c, db, d.enrollment);
    }
    forall e | e in db.enrollments && e !in Ids(drifted)
      ensures exists d: Drift :: Truthful(c, db, d) && d.enrollment == e && !d.missing && d.projected == d.expected && d.projectedStatus == d.expectedStatus
    {
      var d := Compared(c, db, e);
      assert Agrees(c, db, e);
    }
  }

  datatype Drift = Drift(enrollment: Uuid, missing: bool,
                         projected: Counts, projectedStatus: Status, expected: Counts, expectedStatus: Status)

  datatype Report = Report(checked: nat, drifted: seq<Drift>, applied: bool)

  /** The row the reconciler's query yields for one enrollment. */
  function Compared(c: Content, db: Db, e: Uuid): Drift
    requires e in db.enrollments
  {
    Drift(e, e !in db.projections,
          if e in db.projections then db.projections[e] else Counts(0, 0, 0), db.enrollments[e].status,
          CountsOf(c, db, e), ExpectedStatus(c, db, e))
  }

  function Ids(drifted: seq<Drift>): set<Uuid> {
    set d | d in drifted :: d.enrollment
  }

  /** The report lists each drifted enrollment exactly once, with its stored and its derived values. */
  ghost predicate Lists(c: Content, db: Db, drifted: seq<Drift>, some: set<Uuid>) {
    && Ids(drifted) == some
    && (forall d | d in drifted :: d.enrollment in db.enrollments && d == Compared(c, db, d.enrollment))
    && (forall i, j | 0 <= i < j < |drifted| :: drifted[i].enrollment != drifted[j].enrollment)
  }

  class Store {
    const content: Content
    var enrollments: map<Uuid, Enrollment>
    var events: set<Event>
    var projections: map<Uuid, Counts>

    function Tables(): Db
      reads this
    {
      Db(enrollments, events, projections)
    }

    ghost predicate Ready()
      reads this
    {
      Valid(content, Tables())
    }

    constructor (content: Content)
      requires content.Valid()
      ensures this.content == content && Tables() == Db(map[], {}, map[]) && Ready()
    {
      this.content := content;
      enrollments, events, projections := map[], {}, map[];
    }

    method Enroll(member: Uuid, course: Uuid, newId: Uuid) returns (outcome: Outcome, progress: Option<Progress>)
      requires Ready()
      modifies this
      ensures (Tables(), outcome) == ProgressLog.Enroll(content, old(Tables()), member, course, newId)
      ensures Ready()
      ensures outcome.Accepted? ==>
                outcome.enrollment in enrollments && progress == Some(ProgressOf(content, Tables(), outcome.enrollment))
    {
      ghost var before := Tables();
      progress := None;
      if !content.IsPublished(course) {
        return NotFound, None;
      }
      var lessonCount := content.Total(course);
      var created := !exists e | e in enrollments :: HasKey(Tables(), e, member, course);
      if created {
        if newId in enrollments {
          return Rejected, None;
        }
        enrollments := enrollments[newId := Enrollment(member, course, Active)];
      }
      assert created ==> HasKey(Tables(), newId, member, course);
      assert created ==> forall d: Uuid | HasKey(Tables(), d, member, course) :: d == newId || HasKey(before, d, member, course);
      assert !created ==> forall d: Uuid | HasKey(before, d, member, course) :: Find(before, member, course) == Some(d);
      var e :| e in enrollments && HasKey(Tables(), e, member, course);
      if e !in projections {
        projections := projections[e := Counts(0, lessonCount, 0)];
      }
      outcome := Accepted(e, created);
      EnrollKeepsValid(content, before, member, course, newId);
      progress := LoadEnrollmentProgress(member, e);
    }

    method CompleteLesson(member: Uuid, e: Uuid, lesson: Uuid) returns (outcome: Outcome, progress: Option<Progress>)
      requires Ready()
      modifies this
      ensures (Tables(), outcome) == ProgressLog.CompleteLesson(content, old(Tables()), member, e, lesson)
      ensures Ready()
      ensures outcome.Accepted? ==> e in enrollments && progress == Some(ProgressOf(content, Tables(), e))
    {
      progress := None;
      if e !in enrollments {
        return NotFound, None;
      }
      var row := enrollments[e];
      if row.member != member {
        return Forbidden, None;
      }
      if row.status == Withdrawn {
        return EnrollmentWithdrawn, None;
      }
      if lesson !in content.LessonsOf(row.course) {
        return NotFound, None;
      }
      if content.IsSequential(row.course) && UnfinishedEarlier(content, Tables(), e, row.course, lesson) {
        return OutOfOrder, None;
      }
      var before := events;
      var created := lesson !in Tables().Done(e);
      if created {
        events := events + {Event(e, lesson, member)};
      }
      assert Tables() == Appended(old(Tables()), e, lesson, member);
      if e in projections {
        var counts := CountsOf(content, Tables(), e);
        if !Storable(counts) {
          events := before;
          return Rejected, None;
        }
        projections := projections[e := counts];
        enrollments := enrollments[e := row.(status := StatusOf(counts))];
      }
      outcome := Accepted(e, created);
      CompleteKeepsValid(content, old(Tables()), member, e, lesson);
      progress := LoadEnrollmentProgress(member, e);
    }

    method LoadEnrollmentProgress(member: Uuid, e: Uuid) returns (progress: Option<Progress>)
      requires Ready()
      ensures progress == if e in enrollments && enrollments[e].member == member
                          then Some(ProgressOf(content, Tables(), e)) else None
    {
      if e !in enrollments || enrollments[e].member != member {
        return None;
      }
      var course := enrollments[e].course;
      var counts := if e in projections then projections[e] else Counts(0, content.Total(course), 0);
      var rows := content.Listed(course, content.LessonsOf(course));
      var lessons: seq<LessonView> := [];
      for i := 0 to |rows|
        invariant |lessons| == i && lessons == Lessons(content, Tables(), e)[..i]
      {
        lessons := lessons + [LessonView(rows[i], rows[i] in Tables().Done(e))];
      }
      assert lessons == Lessons(content, Tables(), e);
      progress := Some(Progress(course, enrollments[e].status, counts, lessons));
    }

    /** An operator's withdrawal; the application itself has no code path for it. */
    method Withdraw(e: Uuid)
      requires Ready()
      modifies this
      ensures Tables() == ProgressLog.Withdraw(old(Tables()), e) && Ready()
      ensures e in old(enrollments) ==> enrollments == old(enrollments)[e := old(enrollments)[e].(status := Withdrawn)]
      ensures (e !in old(enrollments) ==> enrollments == old(enrollments)) && events == old(events) && projections == old(projections)
    {
      ApplyKeepsValid(content, Tables(), WithdrawOp(e));
      if e in enrollments {
        enrollments := enrollments[e := enrollments[e].(status := Withdrawn)];
      }
    }

    /** Deletes the enrollments of the demo association's members. */
    method Reset(members: set<Uuid>) returns (deleted: nat)
      requires Ready()
      modifies this
      ensures Tables() == Delete(old(Tables()), EnrollmentsOf(old(Tables()), members)) && Ready()
      ensures forall e :: e in enrollments <==> e in old(enrollments) && old(enrollments)[e].member !in members
      ensures forall e | e in enrollments :: Untouched(old(Tables()), Tables(), e)
      ensures deleted == |set e | e in old(enrollments) && e !in enrollments|
    {
      var doomed := EnrollmentsOf(Tables(), members);
      DeletionMeans(Tables(), members);
      ApplyKeepsValid(content, Tables(), DeleteOp(doomed));
      enrollments := enrollments - doomed;
      events := set v | v in events && v.enrollment !in doomed;
      projections := projections - doomed;
      deleted := |doomed|;
      assert doomed == set e | e in old(enrollments) && e !in enrollments;
    }

    method Reconcile(apply: bool) returns (report: Report, ok: bool)
      requires Ready()
      modifies this
      ensures ok && report.checked == |old(enrollments)| && report.applied == apply
      ensures Complete(content, old(Tables()), report.drifted)
      ensures apply ==> forall e | e in enrollments :: IsCurrent(content, Tables(), e)
      ensures Lists(content, old(Tables()), report.drifted, Drifted(content, old(Tables())))
      ensures Tables() == if apply then Repaired(content, old(Tables())) else old(Tables())
      ensures Ready()
    {
      ghost var before := Tables();
      var checked, drifted := Compare();
      report := Report(checked, drifted, apply);
      if !apply || |drifted| == 0 {
        if apply {
          assert Drifted(content, before) == {};
          assert forall e | e in before.enrollments :: e !in Drifted(content, before);
          RepairOfClean(content, before);
          AllCurrent(content, before);
        }
        return report, true;
      }
      RepairKeepsValid(content, before);
      ok := Rewrite(drifted);
      AllCurrent(content, before);
    }

    method Compare() returns (checked: nat, drifted: seq<Drift>)
      ensures checked == |enrollments|
      ensures Lists(content, Tables(), drifted, Drifted(content, Tables()))
      ensures Complete(content, Tables(), drifted)
    {
      checked, drifted := 0, [];
      var rest := enrollments.Keys;
      while rest != {}
        invariant rest <= enrollments.Keys && checked + |rest| == |enrollments|
        invariant Lists(content, Tables(), drifted, Drifted(content, Tables()) - rest)
        decreases rest
      {
        var e :| e in rest;
        var d := Compared(content, Tables(), e);
        if d.missing || d.projected != d.expected || d.projectedStatus != d.expectedStatus {
          ListsOneMore(content, Tables(), drifted, Drifted(content, Tables()) - rest, e);
          drifted := drifted + [d];
          assert Drifted(content, Tables()) - (rest - {e}) == Drifted(content, Tables()) - rest + {e};
        } else {
          assert Drifted(content, Tables()) - (rest - {e}) == Drifted(content, Tables()) - rest;
        }
        rest := rest - {e};
        checked := checked + 1;
      }
      assert Drifted(content, Tables()) - rest == Drifted(content, Tables());
      ListsIsComplete(content, Tables(), drifted);
    }

    /** Writes the expected row of each drifted enrollment; everything is undone if a write is refused. */
    method Rewrite(drifted: seq<Drift>) returns (ok: bool)
      requires Lists(content, Tables(), drifted, Drifted(content, Tables()))
      modifies this
      ensures ok <==> forall e | e in Drifted(content, old(Tables())) :: Storable(CountsOf(content, old(Tables()), e))
      ensures Tables() == Repaired(content, old(Tables()))
    {
      ghost var before := Tables();
      NothingRewritten(content, before);
      var savedEnrollments, savedProjections := enrollments, projections;
      for i := 0 to |drifted|
        invariant Tables() == Rewritten(content, before, Ids(drifted[..i]))
        invariant forall d | d in drifted[..i] :: Storable(d.expected)
      {
        var d := drifted[i];
        if !Storable(d.expected) {
          enrollments, projections := savedEnrollments, savedProjections;
          return false;
        }
        RewriteOneMore(content, before, drifted, i);
        projections := projections[d.enrollment := d.expected];
        enrollments := enrollments[d.enrollment := enrollments[d.enrollment].(status := d.expectedStatus)];
      }
      assert drifted[..|drifted|] == drifted;
      AllRewritten(content, before, drifted);
      ok := true;
    }
  }

  /** The tables once some drifted enrollments have been rewritten. */
  ghost function Rewritten(c: Content, db: Db, some: set<Uuid>): Db {
    Db(map e | e in db.enrollments ::
         if e in some then db.enrollments[e].(status := ExpectedStatus(c, db, e)) else db.enrollments[e],
       db.events,
       map e | e in db.projections.Keys + (some * db.enrollments.Keys) ::
         if e in some && e in db.enrollments then CountsOf(c, db, e) else db.projections[e])
  }

  lemma NothingRewritten(c: Content, db: Db)
    ensures Rewritten(c, db, {}) == db
  {
    assert Rewritten(c, db, {}).enrollments == db.enrollments;
    assert Rewritten(c, db, {}).projections == db.projections;
  }

  lemma AllRewritten(c: Content, db: Db, drifted: seq<Drift>)
    requires Lists(c, db, drifted, Drifted(c, db)) && forall d | d in drifted :: Storable(d.expected)
    ensures Rewritten(c, db, Ids(drifted)) == Repaired(c, db)
    ensures forall e | e in Drifted(c, db) :: Storable(CountsOf(c, db, e))
  {
    forall e | e in Drifted(c, db) ensures Storable(CountsOf(c, db, e)) {
      var d :| d in drifted && d.enrollment == e;
    }
    RewrittenIsRepaired(c, db);
  }

  lemma RewrittenIsRepaired(c: Content, db: Db)
    requires forall e | e in Drifted(c, db) :: Storable(CountsOf(c, db, e))
    ensures Rewritten(c, db, Drifted(c, db)) == Repaired(c, db)
  {
    var rewritten, repaired := Rewritten(c, db, Drifted(c, db)), Repaired(c, db);
    assert rewritten.enrollments == repaired.enrollments;
    assert rewritten.projections == repaired.projections;
  }

  lemma ListsOneMore(c: Content, db: Db, drifted: seq<Drift>, some: set<Uuid>, e: Uuid)
    requires Lists(c, db, drifted, some) && e !in some && e in db.enrollments
    ensures Lists(c, db, drifted + [Compared(c, db, e)], some + {e})
  {
    var d := Compared(c, db, e);
    assert Ids(drifted + [d]) == Ids(drifted) + {d.enrollment};
    forall i | 0 <= i < |drifted| ensures drifted[i].enrollment != e {
      assert drifted[i] in drifted;
    }
  }

  lemma RewrittenOneMore(c: Content, db: Db, some: set<Uuid>, e: Uuid)
    requires e in db.enrollments && e !in some
    ensures var now, next := Rewritten(c, db, some), Rewritten(c, db, some + {e});
            && next.projections == now.projections[e := CountsOf(c, db, e)]
            && next.enrollments == now.enrollments[e := now.enrollments[e].(status := ExpectedStatus(c, db, e))]
  {
  }

  lemma RewriteOneMore(c: Content, db: Db, drifted: seq<Drift>, i: nat)
    requires i < |drifted| && Lists(c, db, drifted, Drifted(c, db))
    ensures var d := drifted[i];
            var now, next := Rewritten(c, db, Ids(drifted[..i])), Rewritten(c, db, Ids(drifted[..i + 1]));
            && d.enrollment in now.enrollments
            && next.projections == now.projections[d.enrollment := d.expected]
            && next.enrollments
               == now.enrollments[d.enrollment := now.enrollments[d.enrollment].(status := d.expectedStatus)]
  {
    var d := drifted[i];
    assert d in drifted;
    assert drifted[..i + 1] == drifted[..i] + [d];
    assert Ids(drifted[..i + 1]) == Ids(drifted[..i]) + {d.enrollment};
    assert forall k | k in drifted[..i] :: k.enrollment != d.enrollment;
    RewrittenOneMore(c, db, Ids(drifted[..i]), d.enrollment);
  }
}
