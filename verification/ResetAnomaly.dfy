/**
 Resets are not serializable. A reset's statement does not see an enrollment that appears while it runs,
 and a reconcile in between counts both that enrollment and one the reset goes on to delete. Such a run
 exists from every database as soon as one course is published.
 */
module ResetAnomaly {
  import opened Wrappers
  import opened Catalog
  import opened ProgressLog
  import opened ProgressInvariants
  import opened Transactions
  import opened ConcurrentRepair
  import opened RepairRace
  import opened SerialOrder
  import opened SerialRuns

  // ---------------------------------------------------------------- runs and what they commit

  ghost predicate Goes(c: Content, s: System, s': System, history: seq<Entry>) {
    exists actions: seq<Action> :: Run(c, s, actions) == s' && CommitHistory(c, s, actions) == history
  }

  lemma {:induction false} HistoryOn(c: Content, s: System, actions: seq<Action>, a: Action)
    ensures Run(c, s, actions + [a]) == Step(c, Run(c, s, actions), a)
    ensures CommitHistory(c, s, actions + [a]) == CommitHistory(c, s, actions) + Committed(c, Run(c, s, actions), a)
    decreases |actions|
  {
    if actions == [] {
      assert [] + [a] == [a] && [a][1..] == [];
      assert CommitHistory(c, Step(c, s, a), []) == [];
      assert Committed(c, s, a) + [] == Committed(c, s, a) == [] + Committed(c, s, a);
    } else {
      var first, rest := Committed(c, s, actions[0]), Step(c, s, actions[0]);
      assert (actions + [a])[0] == actions[0] && (actions + [a])[1..] == actions[1..] + [a];
      HistoryOn(c, rest, actions[1..], a);
      assert first + (CommitHistory(c, rest, actions[1..]) + Committed(c, Run(c, s, actions), a))
          == first + CommitHistory(c, rest, actions[1..]) + Committed(c, Run(c, s, actions), a);
    }
  }

  lemma GoesOn(c: Content, s: System, s': System, history: seq<Entry>, a: Action)
    requires Goes(c, s, s', history)
    ensures Goes(c, s, Step(c, s', a), history + Committed(c, s', a))
  {
    var actions: seq<Action> :| Run(c, s, actions) == s' && CommitHistory(c, s, actions) == history;
    HistoryOn(c, s, actions, a);
  }

  lemma GoesSilently(c: Content, s: System, s': System, history: seq<Entry>, a: Action, next: System)
    requires Goes(c, s, s', history) && Committed(c, s', a) == [] && Step(c, s', a) == next
    ensures Goes(c, s, next, history)
  {
    GoesOn(c, s, s', history, a);
    assert history + [] == history;
  }

  // ---------------------------------------------------------------- an enrollment comes and goes

  /** Nobody holds a lock, or has a snapshot open, or is enrolling. */
  predicate Calm(s: System) {
    s.locks == map[] && forall t | t in s.work :: s.work[t].Resetting?
  }

  ghost function EnrollingAt(s: System, t: TxnId, member: Uuid, course: Uuid, newId: Uuid, stage: EnrollStage): System {
    s.(work := s.work[t := Enrolling(member, course, newId, stage)], issued := s.issued + {newId})
  }

  ghost predicate CanEnroll(c: Content, s: System, t: TxnId, member: Uuid, course: Uuid, newId: Uuid) {
    Calm(s) && t !in s.work && c.IsPublished(course) && newId !in s.issued && newId !in s.db.enrollments && Find(s.db, member, course) == None
  }

  lemma EnrollStarts(c: Content, s: System, t: TxnId, member: Uuid, course: Uuid, newId: Uuid)
    requires CanEnroll(c, s, t, member, course, newId)
    ensures Step(c, s, BeginEnroll(t, member, course, newId)) == EnrollingAt(s, t, member, course, newId, ToInsert)
  {
  }

  lemma EnrollAdvances(c: Content, s: System, t: TxnId, member: Uuid, course: Uuid, newId: Uuid)
    requires CanEnroll(c, s, t, member, course, newId)
    ensures Step(c, EnrollingAt(s, t, member, course, newId, ToInsert), Advance(t)) == EnrollingAt(s, t, member, course, newId, ToSelect(true))
    ensures Step(c, EnrollingAt(s, t, member, course, newId, ToSelect(true)), Advance(t))
            == EnrollingAt(s, t, member, course, newId, ToInitialize(newId, true))
    ensures Step(c, EnrollingAt(s, t, member, course, newId, ToInitialize(newId, true)), Advance(t))
            == EnrollingAt(s, t, member, course, newId, ToFinish(newId, true, true))
  {
    var s1, s2 := EnrollingAt(s, t, member, course, newId, ToInsert), EnrollingAt(s, t, member, course, newId, ToSelect(true));
    assert forall u | u in s1.work :: !Pending(s1.work[u], member, course);
    assert Step(c, s1, Advance(t)).work == s2.work;
    assert Step(c, s2, Advance(t)).work == EnrollingAt(s, t, member, course, newId, ToInitialize(newId, true)).work;
  }

  lemma EnrollFinishes(c: Content, s: System, t: TxnId, member: Uuid, course: Uuid, newId: Uuid)
    requires CanEnroll(c, s, t, member, course, newId)
    ensures var s1 := EnrollingAt(s, t, member, course, newId, ToFinish(newId, true, true));
            && Step(c, s1, Commit(t)) == s.(db := Enroll(c, s.db, member, course, newId).0, issued := s.issued + {newId})
            && Committed(c, s1, Commit(t)) == [Entry(Some(t), EnrollRequest(member, course, newId), Answered(Accepted(newId, true)))]
  {
    var s1 := EnrollingAt(s, t, member, course, newId, ToFinish(newId, true, true));
    var s2 := Step(c, s1, Commit(t));
    assert s2.work == s.work;
    assert s2.locks == s.locks;
  }

  lemma EnrollAlone(c: Content, start: System, s: System, history: seq<Entry>, t: TxnId, member: Uuid, course: Uuid, newId: Uuid)
    returns (s': System)
    requires Goes(c, start, s, history) && CanEnroll(c, s, t, member, course, newId)
    ensures s' == s.(db := Enroll(c, s.db, member, course, newId).0, issued := s.issued + {newId})
    ensures Goes(c, start, s', history + [Entry(Some(t), EnrollRequest(member, course, newId), Answered(Accepted(newId, true)))])
  {
    var s1 := EnrollingAt(s, t, member, course, newId, ToInsert);
    var s2 := EnrollingAt(s, t, member, course, newId, ToSelect(true));
    var s3 := EnrollingAt(s, t, member, course, newId, ToInitialize(newId, true));
    var s4 := EnrollingAt(s, t, member, course, newId, ToFinish(newId, true, true));
    EnrollStarts(c, s, t, member, course, newId);
    EnrollAdvances(c, s, t, member, course, newId);
    EnrollFinishes(c, s, t, member, course, newId);
    GoesSilently(c, start, s, history, BeginEnroll(t, member, course, newId), s1);
    GoesSilently(c, start, s1, history, Advance(t), s2);
    GoesSilently(c, start, s2, history, Advance(t), s3);
    GoesSilently(c, start, s3, history, Advance(t), s4);
    GoesOn(c, start, s4, history, Commit(t));
    s' := Step(c, s4, Commit(t));
  }

  // ---------------------------------------------------------------- a reconcile comes and goes

  ghost function ReconcilingAt(s: System, t: TxnId, locked: set<Uuid>, written: bool): System {
    s.(work := s.work[t := Reconciling(s.db, {}, locked, written)], locks := map e | e in locked :: t)
  }

  lemma ReconcileStarts(c: Content, s: System, t: TxnId)
    requires Calm(s) && t !in s.work
    ensures Step(c, s, BeginReconcile(t)) == ReconcilingAt(s, t, {}, false)
  {
    assert ReconcilingAt(s, t, {}, false).locks == map[];
  }

  lemma ReconcileLocksOne(c: Content, s: System, t: TxnId, locked: set<Uuid>, e: Uuid)
    requires e in s.db.enrollments && e !in locked
    ensures Step(c, ReconcilingAt(s, t, locked, false), LockRow(t, e)) == ReconcilingAt(s, t, locked + {e}, false)
  {
    var s' := Step(c, ReconcilingAt(s, t, locked, false), LockRow(t, e));
    assert s'.locks == ReconcilingAt(s, t, locked + {e}, false).locks;
    assert s'.work == ReconcilingAt(s, t, locked + {e}, false).work;
  }

  lemma {:induction false} ReconcileLocks(c: Content, start: System, s: System, history: seq<Entry>, t: TxnId, locked: set<Uuid>)
    requires Goes(c, start, ReconcilingAt(s, t, {}, false), history) && locked <= s.db.enrollments.Keys
    ensures Goes(c, start, ReconcilingAt(s, t, locked, false), history)
    decreases locked
  {
    if locked == {} {
    } else {
      var e :| e in locked;
      var rest := locked - {e};
      ReconcileLocks(c, start, s, history, t, rest);
      ReconcileLocksOne(c, s, t, rest, e);
      assert rest + {e} == locked;
      GoesSilently(c, start, ReconcilingAt(s, t, rest, false), history, LockRow(t, e), ReconcilingAt(s, t, locked, false));
    }
  }

  lemma ReconcileWrites(c: Content, s: System, t: TxnId)
    requires Valid(c, s.db)
    ensures Step(c, ReconcilingAt(s, t, s.db.enrollments.Keys, false), Advance(t)) == ReconcilingAt(s, t, s.db.enrollments.Keys, true)
  {
    NothingAppeared(c, s.db, s.db);
    var all := s.db.enrollments.Keys;
    RewriteStep(c, ReconcilingAt(s, t, all, false), t);
    assert Step(c, ReconcilingAt(s, t, all, false), Advance(t)).work == ReconcilingAt(s, t, all, true).work;
  }

  lemma RebuiltAtOnce(c: Content, db: Db)
    requires Valid(c, db)
    ensures Rebuilt(c, db, db) == Repaired(c, db)
  {
    RepairKeepsValid(c, db);
    SameDriftSameRepair(c, db, db);
  }

  lemma ReconcileFinishes(c: Content, s: System, t: TxnId)
    requires Rebuilt(c, s.db, s.db) == Repaired(c, s.db) && Calm(s) && t !in s.work
    ensures Step(c, ReconcilingAt(s, t, s.db.enrollments.Keys, true), Commit(t)) == s.(db := Repaired(c, s.db))
  {
    ReconcileReplies(c, s, t);
    ReconcileEnds(s, t, s.db.enrollments.Keys, Repaired(c, s.db), Drifted(c, s.db));
  }

  lemma ReconcileEnds(s: System, t: TxnId, locked: set<Uuid>, db: Db, rewritten: set<Uuid>)
    requires Calm(s) && t !in s.work
    ensures End(Publish(ReconcilingAt(s, t, locked, true), db, rewritten), t) == s.(db := db)
  {
    var s2 := End(Publish(ReconcilingAt(s, t, locked, true), db, rewritten), t);
    assert s2.work == s.work;
    assert s2.locks == s.locks;
  }

  lemma ReconcileReplies(c: Content, s: System, t: TxnId)
    requires Rebuilt(c, s.db, s.db) == Repaired(c, s.db)
    ensures var s1 := ReconcilingAt(s, t, s.db.enrollments.Keys, true);
            && Commits(c, s1, t) == Some((Repaired(c, s.db), Drifted(c, s.db)))
            && Committed(c, s1, Commit(t)) == [Entry(Some(t), ReconcileRequest, Reported(|s.db.enrollments.Keys|, Drifted(c, s.db)))]
  {
  }

  lemma ReconcileAlone(c: Content, start: System, s: System, history: seq<Entry>, t: TxnId) returns (s': System)
    requires Goes(c, start, s, history) && Valid(c, s.db) && Calm(s) && t !in s.work
    ensures s' == s.(db := Repaired(c, s.db))
    ensures Goes(c, start, s', history + [Entry(Some(t), ReconcileRequest, Reported(|s.db.enrollments.Keys|, Drifted(c, s.db)))])
  {
    var all := s.db.enrollments.Keys;
    ReconcileStarts(c, s, t);
    GoesSilently(c, start, s, history, BeginReconcile(t), ReconcilingAt(s, t, {}, false));
    ReconcileLocks(c, start, s, history, t, all);
    ReconcileWrites(c, s, t);
    GoesSilently(c, start, ReconcilingAt(s, t, all, false), history, Advance(t), ReconcilingAt(s, t, all, true));
    RebuiltAtOnce(c, s.db);
    ReconcileFinishes(c, s, t);
    ReconcileReplies(c, s, t);
    GoesOn(c, start, ReconcilingAt(s, t, all, true), history, Commit(t));
    s' := Step(c, ReconcilingAt(s, t, all, true), Commit(t));
  }

  // ---------------------------------------------------------------- the anomaly

  /** Two members, x and y, who are not enrolled in anything, and the enrollments p and q they will make in
      one course; `rest` counts everybody else's. */
  datatype Cast = Cast(course: Uuid, x: Uuid, y: Uuid, p: Uuid, q: Uuid, rest: nat)
  {
    function First(): Entry { Entry(Some(0), EnrollRequest(x, course, p), Answered(Accepted(p, true))) }
    function Second(): Entry { Entry(Some(2), EnrollRequest(y, course, q), Answered(Accepted(q, true))) }
    function Counted(drifted: set<Uuid>): Entry { Entry(Some(3), ReconcileRequest, Reported(rest + 2, drifted)) }
    function Deletes(): Entry { Entry(Some(1), ResetRequest({x, y}), Deleted(1)) }
  }

  /** A database with the enrollment of x, of y, of both or of neither, and the rest. */
  ghost predicate At(k: Cast, db: Db, a: bool, b: bool) {
    && k.x != k.y && k.p != k.q
    && (k.p in db.enrollments <==> a) && (k.q in db.enrollments <==> b)
    && (forall e | e in db.enrollments :: (db.enrollments[e].member == k.x <==> e == k.p) && (db.enrollments[e].member == k.y <==> e == k.q))
    && (a ==> db.enrollments[k.p].course == k.course) && (b ==> db.enrollments[k.q].course == k.course)
    && |db.enrollments.Keys| == k.rest + (if a then 1 else 0) + (if b then 1 else 0)
  }

  lemma FirstServed(c: Content, k: Cast, db: Db, a: bool, b: bool)
    requires At(k, db, a, b) && c.IsPublished(k.course)
    ensures Serve(c, db, k.First().request).1 == k.First().reply <==> !a
    ensures !a ==> At(k, Serve(c, db, k.First().request).0, true, b)
  {
    if a {
      assert HasKey(db, k.p, k.x, k.course);
    } else {
      assert Find(db, k.x, k.course) == None;
      var next := Serve(c, db, k.First().request).0;
      assert next.enrollments.Keys == db.enrollments.Keys + {k.p};
    }
  }

  lemma SecondServed(c: Content, k: Cast, db: Db, a: bool, b: bool)
    requires At(k, db, a, b) && c.IsPublished(k.course)
    ensures Serve(c, db, k.Second().request).1 == k.Second().reply <==> !b
    ensures !b ==> At(k, Serve(c, db, k.Second().request).0, a, true)
  {
    FirstServed(c, Cast(k.course, k.y, k.x, k.q, k.p, k.rest), db, b, a);
  }

  lemma CountedServed(c: Content, k: Cast, db: Db, a: bool, b: bool, drifted: set<Uuid>)
    requires At(k, db, a, b)
    ensures Serve(c, db, ReconcileRequest).1 == k.Counted(drifted).reply ==> a && b
    ensures At(k, Repaired(c, db), a, b)
  {
    assert Repaired(c, db).enrollments.Keys == db.enrollments.Keys;
  }

  lemma DeletesServed(c: Content, k: Cast, db: Db, a: bool, b: bool)
    requires At(k, db, a, b)
    ensures EnrollmentsOf(db, {k.x, k.y}) == Theirs(k, a, b)
    ensures Serve(c, db, k.Deletes().request).1 == k.Deletes().reply ==> a != b
    ensures At(k, Serve(c, db, k.Deletes().request).0, false, false)
  {
    TheirEnrollments(k, db, a, b);
    WithoutThem(k, db, a, b);
  }

  function Theirs(k: Cast, a: bool, b: bool): set<Uuid> {
    if a && b then {k.p, k.q} else if a then {k.p} else if b then {k.q} else {}
  }

  lemma TheirEnrollments(k: Cast, db: Db, a: bool, b: bool)
    requires At(k, db, a, b)
    ensures EnrollmentsOf(db, {k.x, k.y}) == Theirs(k, a, b)
    ensures |Theirs(k, a, b)| == (if a then 1 else 0) + (if b then 1 else 0)
  {
    assert EnrollmentsOf(db, {k.x, k.y}) == Theirs(k, a, b);
  }

  lemma WithoutThem(k: Cast, db: Db, a: bool, b: bool)
    requires At(k, db, a, b) && |Theirs(k, a, b)| == (if a then 1 else 0) + (if b then 1 else 0)
    ensures At(k, Delete(db, Theirs(k, a, b)), false, false)
  {
    var gone, next := Theirs(k, a, b), Delete(db, Theirs(k, a, b));
    assert gone <= db.enrollments.Keys;
    assert next.enrollments.Keys == db.enrollments.Keys - gone;
    assert |db.enrollments.Keys - gone| == |db.enrollments.Keys| - |gone|;
  }

  // ---------------------------------------------------------------- no order of the four explains it

  datatype Move = EnrollsX | EnrollsY | CountsBoth | DeletesOne

  function MoveOf(k: Cast, entry: Entry): Move {
    match entry.request
    case EnrollRequest(member, _, _) => if member == k.x then EnrollsX else EnrollsY
    case ReconcileRequest => CountsBoth
    case _ => DeletesOne
  }

  function MovesOf(k: Cast, history: seq<Entry>): seq<Move> {
    seq(|history|, i requires 0 <= i < |history| => MoveOf(k, history[i]))
  }

  /** Each makes its enrollment once, both are counted, and then one is deleted. */
  predicate Possible(a: bool, b: bool, moves: seq<Move>)
    decreases |moves|
  {
    moves == [] || (After(a, b, moves[0]).Some? && Possible(After(a, b, moves[0]).value.0, After(a, b, moves[0]).value.1, moves[1..]))
  }

  ghost predicate FromCast(k: Cast, drifted: set<Uuid>, history: seq<Entry>) {
    forall entry | entry in history :: entry in {k.First(), k.Second(), k.Counted(drifted), k.Deletes()}
  }

  lemma {:induction false} ExplainedIsPossible(c: Content, k: Cast, db: Db, a: bool, b: bool, drifted: set<Uuid>, history: seq<Entry>, end: Db)
    requires At(k, db, a, b) && c.IsPublished(k.course) && FromCast(k, drifted, history) && Explains(c, db, history, end)
    ensures Possible(a, b, MovesOf(k, history))
    decreases |history|
  {
    if history == [] {
    } else {
      var entry, rest := history[0], history[1..];
      assert entry in history && forall later | later in rest :: later in history;
      var a', b' := OneMove(c, k, db, a, b, drifted, entry);
      ExplainedIsPossible(c, k, Serve(c, db, entry.request).0, a', b', drifted, rest, end);
      assert MovesOf(k, history)[1..] == MovesOf(k, rest);
    }
  }

  /** Where a move leads, if it is possible. */
  function After(a: bool, b: bool, move: Move): Option<(bool, bool)> {
    match move
    case EnrollsX => if a then None else Some((true, b))
    case EnrollsY => if b then None else Some((a, true))
    case CountsBoth => if a && b then Some((a, b)) else None
    case DeletesOne => if a != b then Some((false, false)) else None
  }

  lemma OneMove(c: Content, k: Cast, db: Db, a: bool, b: bool, drifted: set<Uuid>, entry: Entry) returns (a': bool, b': bool)
    requires At(k, db, a, b) && c.IsPublished(k.course) && entry in {k.First(), k.Second(), k.Counted(drifted), k.Deletes()}
    requires Serve(c, db, entry.request).1 == entry.reply
    ensures After(a, b, MoveOf(k, entry)) == Some((a', b')) && At(k, Serve(c, db, entry.request).0, a', b')
  {
    if entry == k.First() {
      FirstServed(c, k, db, a, b);
      a', b' := true, b;
    } else if entry == k.Second() {
      SecondServed(c, k, db, a, b);
      a', b' := a, true;
    } else if entry == k.Counted(drifted) {
      CountedServed(c, k, db, a, b, drifted);
      a', b' := a, b;
    } else {
      DeletesServed(c, k, db, a, b);
      a', b' := false, false;
    }
  }

  lemma FirstMove(a: bool, b: bool, move: Move, rest: seq<Move>)
    ensures Possible(a, b, [move] + rest)
            <==> After(a, b, move).Some? && Possible(After(a, b, move).value.0, After(a, b, move).value.1, rest)
  {
    assert ([move] + rest)[1..] == rest;
  }

  lemma NoFourArePossible(w: Move, x: Move, y: Move, z: Move)
    requires w != x && w != y && w != z && x != y && x != z && y != z
    ensures !Possible(false, false, [w, x, y, z])
  {
    assert [w, x, y, z] == [w] + ([x] + ([y] + ([z] + [])));
    var first := Or(After(false, false, w));
    var second := Or(After(first.0, first.1, x));
    var third := Or(After(second.0, second.1, y));
    FirstMove(false, false, w, [x] + ([y] + ([z] + [])));
    FirstMove(first.0, first.1, x, [y] + ([z] + []));
    FirstMove(second.0, second.1, y, [z] + []);
    FirstMove(third.0, third.1, z, []);
  }

  function Or(o: Option<(bool, bool)>): (bool, bool) {
    if o.Some? then o.value else (false, false)
  }

  lemma FourDistinct(history: seq<Entry>, four: seq<Entry>)
    requires |four| == 4 && multiset(history) == multiset(four) && forall i, j | 0 <= i < j < 4 :: four[i] != four[j]
    ensures |history| == 4 && (forall entry | entry in history :: entry in four)
    ensures forall i, j | 0 <= i < j < 4 :: history[i] != history[j]
  {
    assert |history| == |multiset(history)| == |multiset(four)| == 4;
    forall entry | entry in history ensures entry in four {
      assert entry in multiset(four);
    }
    forall i, j | 0 <= i < j < 4 ensures history[i] != history[j] {
      assert history == history[..i] + [history[i]] + history[i + 1..j] + [history[j]] + history[j + 1..];
      assert multiset(history)[history[i]] == multiset(four)[history[i]];
      OnceEach(four, history[i]);
    }
  }

  lemma OnceEach(four: seq<Entry>, entry: Entry)
    requires |four| == 4 && forall i, j | 0 <= i < j < 4 :: four[i] != four[j]
    ensures multiset(four)[entry] <= 1
  {
    assert four == [four[0], four[1], four[2], four[3]];
  }

  lemma NoOrderExplains(c: Content, k: Cast, db: Db, drifted: set<Uuid>, history: seq<Entry>, end: Db)
    requires At(k, db, false, false) && c.IsPublished(k.course)
    requires multiset(history) == multiset([k.First(), k.Second(), k.Counted(drifted), k.Deletes()])
    ensures !Explains(c, db, history, end)
  {
    FourMoves(k, drifted, history);
    if Explains(c, db, history, end) {
      ExplainedIsPossible(c, k, db, false, false, drifted, history, end);
      var m := MovesOf(k, history);
      assert m == [m[0], m[1], m[2], m[3]];
      NoFourArePossible(m[0], m[1], m[2], m[3]);
    }
  }

  lemma FourMoves(k: Cast, drifted: set<Uuid>, history: seq<Entry>)
    requires k.x != k.y && multiset(history) == multiset([k.First(), k.Second(), k.Counted(drifted), k.Deletes()])
    ensures FromCast(k, drifted, history) && |history| == 4
    ensures forall i, j | 0 <= i < j < 4 :: MovesOf(k, history)[i] != MovesOf(k, history)[j]
  {
    FourDistinct(history, [k.First(), k.Second(), k.Counted(drifted), k.Deletes()]);
    forall i, j | 0 <= i < j < 4 ensures MoveOf(k, history[i]) != MoveOf(k, history[j]) {
      assert history[i] in history && history[j] in history;
    }
  }

  // ---------------------------------------------------------------- from every database

  /** x enrolls; a reset of x and y starts; y enrolls; a reconcile counts both; the reset deletes one. */
  lemma AnomalyRun(c: Content, k: Cast, db: Db) returns (end: System, drifted: set<Uuid>)
    requires Valid(c, db) && At(k, db, false, false) && c.IsPublished(k.course)
    ensures Goes(c, Init(db), end, [k.First()] + [k.Second()] + [k.Counted(drifted)] + [k.Deletes()])
  {
    var s1 := FirstRuns(c, k, db);
    var s2 := ResetStarts(c, k, Init(db), s1, [k.First()]);
    var s4;
    s4, drifted := MiddleRuns(c, k, Init(db), s2, [k.First()]);
    end := ResetFinishes(c, k, Init(db), s4, [k.First()] + [k.Second()] + [k.Counted(drifted)], s1.db.enrollments.Keys);
  }

  lemma MiddleRuns(c: Content, k: Cast, start: System, s: System, history: seq<Entry>) returns (s': System, drifted: set<Uuid>)
    requires Goes(c, start, s, history) && c.IsPublished(k.course) && Calm(s) && 2 !in s.work && 3 !in s.work
    requires At(k, s.db, true, false) && Valid(c, s.db) && k.q !in s.issued
    ensures Goes(c, start, s', history + [k.Second()] + [k.Counted(drifted)])
    ensures s'.work == s.work && s'.locks == s.locks && k.p in s'.db.enrollments
  {
    var middle := SecondRuns(c, k, start, s, history);
    s', drifted := CountRuns(c, k, start, middle, history + [k.Second()]);
  }

  lemma ResetStarts(c: Content, k: Cast, start: System, s: System, history: seq<Entry>) returns (s': System)
    requires Goes(c, start, s, history) && s.work == map[] && At(k, s.db, true, false)
    ensures s' == s.(work := map[1 := Resetting({k.x, k.y}, s.db.enrollments.Keys, {k.p}, {})]) && Goes(c, start, s', history)
  {
    DeletesServed(c, k, s.db, true, false);
    s' := Step(c, s, BeginReset(1, {k.x, k.y}));
    GoesSilently(c, start, s, history, BeginReset(1, {k.x, k.y}), s');
  }

  lemma FirstRuns(c: Content, k: Cast, db: Db) returns (s: System)
    requires Valid(c, db) && At(k, db, false, false) && c.IsPublished(k.course)
    ensures Goes(c, Init(db), s, [k.First()])
    ensures s.locks == map[] && s.work == map[] && s.issued == db.enrollments.Keys + {k.p} && At(k, s.db, true, false) && Valid(c, s.db)
  {
    assert Goes(c, Init(db), Init(db), []) by {
      assert Run(c, Init(db), []) == Init(db) && CommitHistory(c, Init(db), []) == [];
    }
    assert Find(db, k.x, k.course) == None;
    FirstServed(c, k, db, false, false);
    EnrollKeepsValid(c, db, k.x, k.course, k.p);
    s := EnrollAlone(c, Init(db), Init(db), [], 0, k.x, k.course, k.p);
    assert [] + [k.First()] == [k.First()];
  }

  lemma SecondRuns(c: Content, k: Cast, start: System, s: System, history: seq<Entry>) returns (s': System)
    requires Goes(c, start, s, history) && c.IsPublished(k.course) && Calm(s) && 2 !in s.work
    requires At(k, s.db, true, false) && Valid(c, s.db) && k.q !in s.issued
    ensures Goes(c, start, s', history + [k.Second()]) && s'.work == s.work && s'.locks == s.locks
    ensures At(k, s'.db, true, true) && Valid(c, s'.db)
  {
    assert Find(s.db, k.y, k.course) == None;
    SecondServed(c, k, s.db, true, false);
    EnrollKeepsValid(c, s.db, k.y, k.course, k.q);
    s' := EnrollAlone(c, start, s, history, 2, k.y, k.course, k.q);
  }

  lemma CountRuns(c: Content, k: Cast, start: System, s: System, history: seq<Entry>) returns (s': System, drifted: set<Uuid>)
    requires Goes(c, start, s, history) && Calm(s) && 3 !in s.work && At(k, s.db, true, true) && Valid(c, s.db)
    ensures Goes(c, start, s', history + [k.Counted(drifted)]) && s'.work == s.work && s'.locks == s.locks && k.p in s'.db.enrollments
  {
    drifted := Drifted(c, s.db);
    BothCounted(c, k, s.db, drifted);
    s' := ReconcileAlone(c, start, s, history, 3);
  }

  lemma BothCounted(c: Content, k: Cast, db: Db, drifted: set<Uuid>)
    requires At(k, db, true, true)
    ensures k.Counted(drifted) == Entry(Some(3), ReconcileRequest, Reported(|db.enrollments.Keys|, drifted))
    ensures k.p in Repaired(c, db).enrollments
  {
  }

  lemma ResetFinishes(c: Content, k: Cast, start: System, s: System, history: seq<Entry>, present: set<Uuid>) returns (end: System)
    requires Goes(c, start, s, history) && s.locks == map[] && k.p in s.db.enrollments
    requires s.work == map[1 := Resetting({k.x, k.y}, present, {k.p}, {})]
    ensures Goes(c, start, end, history + [k.Deletes()])
  {
    var s1 := Step(c, s, LockRow(1, k.p));
    var none: set<Uuid> := {};
    assert none + {k.p} == {k.p};
    assert s1.work[1] == Resetting({k.x, k.y}, present, {k.p}, {k.p});
    GoesSilently(c, start, s, history, LockRow(1, k.p), s1);
    GoesOn(c, start, s1, history, Commit(1));
    end := Step(c, s1, Commit(1));
  }

  lemma {:induction false} Beyond(ids: set<Uuid>) returns (n: Uuid)
    ensures forall id | id in ids :: id < n
    decreases ids
  {
    if ids == {} {
      n := 0;
    } else {
      var id :| id in ids;
      var m := Beyond(ids - {id});
      n := if id < m then m else id + 1;
      assert forall i | i in ids :: i == id || i in ids - {id};
    }
  }

  lemma SomeCast(c: Content, db: Db, course: Uuid) returns (k: Cast)
    ensures k.course == course && At(k, db, false, false)
  {
    var members := set e | e in db.enrollments :: db.enrollments[e].member;
    var p := Beyond(db.enrollments.Keys);
    var x := Beyond(members);
    k := Cast(course, x, x + 1, p, p + 1, |db.enrollments.Keys|);
    forall e | e in db.enrollments ensures db.enrollments[e].member < x && e < p {
      assert db.enrollments[e].member in members;
    }
  }

  /** No order of the committed requests gives the replies they got, whatever database it ends in. */
  ghost predicate Unexplained(c: Content, db: Db, actions: seq<Action>) {
    forall history: seq<Entry>, end | multiset(history) == multiset(CommitHistory(c, Init(db), actions)) :: !Explains(c, db, history, end)
  }

  /** From every database, as soon as a course is published, four transactions can commit whose replies no
      serial order explains. */
  lemma ResetsAreNotSerializable(c: Content, db: Db, course: Uuid)
    requires Valid(c, db) && c.IsPublished(course)
    ensures exists actions :: Unexplained(c, db, actions)
  {
    var k := SomeCast(c, db, course);
    var last, drifted := AnomalyRun(c, k, db);
    var four := [k.First(), k.Second(), k.Counted(drifted), k.Deletes()];
    assert [k.First()] + [k.Second()] + [k.Counted(drifted)] + [k.Deletes()] == four;
    var actions: seq<Action> :| Run(c, Init(db), actions) == last && CommitHistory(c, Init(db), actions) == four;
    forall history: seq<Entry>, end | multiset(history) == multiset(CommitHistory(c, Init(db), actions)) ensures !Explains(c, db, history, end) {
      NoOrderExplains(c, k, db, drifted, history, end);
    }
    assert Unexplained(c, db, actions);
  }
}
