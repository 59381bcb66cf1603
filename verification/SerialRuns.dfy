/**
 Serializability of whole runs: when the database and the replies of an interleaved run are those of
 the same requests served one at a time. Each takes effect at a moment between its begin and its
 commit: a reconcile when it opens its snapshot, an enrollment with nothing to write when it finds its
 rows, and everything else when it commits.
 */
module SerialRuns {
  import opened Wrappers
  import opened Catalog
  import opened ProgressLog
  import opened ProgressInvariants
  import opened RepairCommutes
  import opened Transactions
  import opened Serializability
  import opened ConcurrentRepair
  import opened SerialOrder

  // A request with the transaction that made it (none for an operator's update) and the reply it got.
  datatype Entry = Entry(txn: Option<TxnId>, request: Request, reply: Reply)

  /** Serving the requests in turn gives these replies and ends in this database. */
  ghost predicate Explains(c: Content, db: Db, history: seq<Entry>, end: Db)
    decreases |history|
  {
    if history == [] then db == end
    else
      var (next, reply) := Serve(c, db, history[0].request);
      reply == history[0].reply && Explains(c, next, history[1..], end)
  }

  // ---------------------------------------------------------------- what was committed

  /** The request, if any, that the first of these actions commits, and the reply given for it. */
  ghost function Committed(c: Content, s: System, a: Action): seq<Entry> {
    match a
    case WithdrawRow(e) => if e in s.db.enrollments && e !in s.locks then [Entry(None, WithdrawRequest(e), Done)] else []
    case Commit(t) => if Commits(c, s, t).Some? then [Entry(Some(t), RequestOf(s.work[t]), ReplyOf(c, s.work[t]))] else []
    case _ => []
  }

  /** The committed requests and their replies, in commit order. */
  ghost function CommitHistory(c: Content, s: System, actions: seq<Action>): seq<Entry>
    decreases |actions|
  {
    if actions == [] then []
    else Committed(c, s, actions[0]) + CommitHistory(c, Step(c, s, actions[0]), actions[1..])
  }

  // ---------------------------------------------------------------- when each takes effect

  ghost predicate WillCommit(c: Content, s: System, actions: seq<Action>, t: TxnId)
    decreases |actions|
  {
    actions != [] && actions[0] != Abort(t)
    && ((actions[0] == Commit(t) && Commits(c, s, t).Some?) || WillCommit(c, Step(c, s, actions[0]), actions[1..], t))
  }

  /** The last statement of an enrollment that finds both its rows in place. */
  ghost predicate FindsAll(s: System, t: TxnId) {
    && t in s.work && s.work[t].Enrolling? && s.work[t].enrolled.ToInitialize? && !s.work[t].enrolled.own
    && s.work[t].enrolled.enrollment in s.db.enrollments && s.work[t].enrolled.enrollment in s.db.projections
  }

  /** It has nothing to write, so committing it changes nothing. */
  ghost predicate FoundAll(s: System, t: TxnId) {
    t in s.work && s.work[t].Enrolling? && s.work[t].enrolled.ToFinish? && !s.work[t].enrolled.initializes
  }

  ghost predicate Repairing(s: System, t: TxnId) {
    t in s.work && s.work[t].Reconciling?
  }

  /** The request that takes effect at the first of these actions, with the reply it will be given. */
  ghost function TakesEffect(c: Content, s: System, actions: seq<Action>): seq<Entry>
    requires actions != []
  {
    var s', rest := Step(c, s, actions[0]), actions[1..];
    match actions[0]
    case BeginReconcile(t) =>
      if t !in s.work && WillCommit(c, s', rest, t)
      then [Entry(Some(t), ReconcileRequest, Reported(|s.db.enrollments.Keys|, Drifted(c, s.db)))]
      else []
    case Advance(t) =>
      if FindsAll(s, t) && WillCommit(c, s', rest, t)
      then [Entry(Some(t), RequestOf(s.work[t]), Answered(Accepted(s.work[t].enrolled.enrollment, false)))]
      else []
    case Commit(t) => if FoundAll(s, t) || Repairing(s, t) then [] else Committed(c, s, actions[0])
    case _ => Committed(c, s, actions[0])
  }

  ghost function SerialHistory(c: Content, s: System, actions: seq<Action>): seq<Entry>
    decreases |actions|
  {
    if actions == [] then [] else TakesEffect(c, s, actions) + SerialHistory(c, Step(c, s, actions[0]), actions[1..])
  }

  // ---------------------------------------------------------------- repair is not observed by others

  /** Whatever a request other than a reconcile does and answers, it does and answers after a repair too. */
  lemma RepairIsUnobserved(c: Content, db: Db, r: Request)
    requires Valid(c, db) && !r.ReconcileRequest?
    ensures Serve(c, Repaired(c, db), r) == (Repaired(c, Serve(c, db, r).0), Serve(c, db, r).1)
  {
    match r
    case EnrollRequest(member, course, newId) => EnrollmentCommutes(c, db, member, course, newId);
    case CompleteRequest(member, e, lesson) => CompletionCommutes(c, db, member, e, lesson);
    case WithdrawRequest(e) => WithdrawalCommutes(c, db, e);
    case ResetRequest(members) =>
      SameEnrollments(c, db, members);
      DeletionCommutes(c, db, EnrollmentsOf(db, members));
  }

  // ---------------------------------------------------------------- rival repairs

  /** A row of the snapshot has been rewritten by someone else. */
  ghost predicate Lost(s: System, t: TxnId) {
    Repairing(s, t) && exists e :: e in s.work[t].snapshot.enrollments && e in s.work[t].stale
  }

  lemma LostStays(c: Content, s: System, a: Action, t: TxnId)
    requires Inv(c, s) && Lost(s, t) && a != Abort(t)
    ensures Commits(c, s, t) == None && Lost(Step(c, s, a), t)
  {
    var w := s.work[t];
    assert WorkOk(c, s.db, w);
    var e :| e in w.snapshot.enrollments && e in w.stale;
    assert e !in w.locked;
    SnapshotKept(c, s, a, t);
  }

  /** An open snapshot stays what it is, and what is stale stays so. */
  lemma SnapshotKept(c: Content, s: System, a: Action, t: TxnId)
    requires Repairing(s, t) && a != Abort(t) && (a == Commit(t) ==> Commits(c, s, t) == None)
    ensures var s' := Step(c, s, a);
            Repairing(s', t) && s'.work[t].snapshot == s.work[t].snapshot && s.work[t].stale <= s'.work[t].stale
  {
    if a.Advance? && a.t in s.work {
      AdvanceOwn(c, s, a.t);
    }
  }

  lemma {:induction false} LostNeverCommits(c: Content, s: System, actions: seq<Action>, t: TxnId)
    requires Inv(c, s) && Lost(s, t)
    ensures !WillCommit(c, s, actions, t)
    decreases |actions|
  {
    if actions == [] || actions[0] == Abort(t) {
    } else {
      LostStays(c, s, actions[0], t);
      StepKeepsInv(c, s, actions[0]);
      LostNeverCommits(c, Step(c, s, actions[0]), actions[1..], t);
    }
  }

  /** Two open snapshots in which the same enrollment is drifted. */
  ghost predicate Rivals(c: Content, s: System, t: TxnId, u: TxnId, e: Uuid) {
    t != u && Repairing(s, t) && Repairing(s, u) && e in Drifted(c, s.work[t].snapshot) && e in Drifted(c, s.work[u].snapshot)
  }

  lemma RivalLoses(c: Content, s: System, t: TxnId, u: TxnId, e: Uuid)
    requires Rivals(c, s, t, u, e) && Commits(c, s, t).Some?
    ensures Lost(Step(c, s, Commit(t)), u)
  {
    SnapshotAfterCommit(c, s, t, u);
    assert e in Commits(c, s, t).value.1;
    var w := Step(c, s, Commit(t)).work[u];
    assert e in w.snapshot.enrollments && e in w.stale;
  }

  lemma {:induction false} RivalsDoNotBothCommit(c: Content, s: System, actions: seq<Action>, t: TxnId, u: TxnId, e: Uuid)
    requires Inv(c, s) && Rivals(c, s, t, u, e)
    ensures !(WillCommit(c, s, actions, t) && WillCommit(c, s, actions, u))
    decreases |actions|
  {
    if actions == [] || actions[0] == Abort(t) || actions[0] == Abort(u) {
    } else {
      var a, s' := actions[0], Step(c, s, actions[0]);
      StepKeepsInv(c, s, a);
      if a == Commit(t) && Commits(c, s, t).Some? {
        RivalLoses(c, s, t, u, e);
        LostNeverCommits(c, s', actions[1..], u);
      } else if a == Commit(u) && Commits(c, s, u).Some? {
        RivalLoses(c, s, u, t, e);
        LostNeverCommits(c, s', actions[1..], t);
      } else {
        SnapshotKept(c, s, a, t);
        SnapshotKept(c, s, a, u);
        RivalsDoNotBothCommit(c, s', actions[1..], t, u, e);
      }
    }
  }

  /** What is drifted now was drifted in every snapshot that has not lost a row. */
  lemma DriftWasSeen(c: Content, s: System, t: TxnId, e: Uuid)
    requires RepairInv(c, s) && Repairing(s, t) && !Lost(s, t) && e in Drifted(c, s.db)
    ensures e in Drifted(c, s.work[t].snapshot)
  {
    var w := s.work[t];
    assert SnapshotOk(c, s.db, w);
    assert e in w.snapshot.enrollments && e !in w.stale;
    if e in w.snapshot.projections {
      AsSeenAgrees(c, w.snapshot, s.db, e);
    }
  }

  lemma WillCommitNotLost(c: Content, s: System, a: Action, rest: seq<Action>, u: TxnId)
    requires Inv(c, s) && Repairing(s, u) && a != Abort(u) && WillCommit(c, Step(c, s, a), rest, u)
    ensures !Lost(s, u)
  {
    if Lost(s, u) {
      LostStays(c, s, a, u);
      StepKeepsInv(c, s, a);
      LostNeverCommits(c, Step(c, s, a), rest, u);
    }
  }

  /** What both an open snapshot and one opened now find drifted makes them rivals. */
  lemma BecomeRivals(c: Content, s: System, t: TxnId, u: TxnId, e: Uuid)
    requires t !in s.work && Repairing(s, u) && e in Drifted(c, s.db) && e in Drifted(c, s.work[u].snapshot)
    ensures Rivals(c, Step(c, s, BeginReconcile(t)), t, u, e)
  {
  }

  /** A reconcile that commits although another that will commit was open when it began finds no drift. */
  lemma SecondFindsNothing(c: Content, s: System, t: TxnId, rest: seq<Action>, u: TxnId)
    requires RepairInv(c, s) && t !in s.work && Repairing(s, u)
    requires var s' := Step(c, s, BeginReconcile(t)); WillCommit(c, s', rest, t) && WillCommit(c, s', rest, u)
    ensures Drifted(c, s.db) == {}
  {
    var s' := Step(c, s, BeginReconcile(t));
    StepKeepsInv(c, s, BeginReconcile(t));
    WillCommitNotLost(c, s, BeginReconcile(t), rest, u);
    forall e | e in Drifted(c, s.db) ensures false {
      DriftWasSeen(c, s, u, e);
      BecomeRivals(c, s, t, u, e);
      RivalsDoNotBothCommit(c, s', rest, t, u, e);
    }
  }

  // ---------------------------------------------------------------- the serial run

  /** A reconcile is open that goes on to commit. */
  ghost predicate WillRepair(c: Content, s: System, actions: seq<Action>) {
    exists t :: Repairing(s, t) && WillCommit(c, s, actions, t)
  }

  /** Where the serial run is: ahead of the committed database by the repair of such a reconcile. */
  ghost function Ahead(c: Content, s: System, actions: seq<Action>): Db {
    if WillRepair(c, s, actions) then Repaired(c, s.db) else s.db
  }

  /** No reset commits after an enrollment of its members has appeared that its statement did not see. */
  ghost predicate NoNewcomers(c: Content, s: System, actions: seq<Action>)
    decreases |actions|
  {
    actions != [] ==>
      && (actions[0].Commit? && Commits(c, s, actions[0].t).Some? && s.work[actions[0].t].Resetting? ==> Current(s, s.work[actions[0].t]))
      && NoNewcomers(c, Step(c, s, actions[0]), actions[1..])
  }

  /** Who is reconciling changes only when a reconcile begins, commits or aborts. */
  lemma SameRepairing(c: Content, s: System, a: Action, t: TxnId)
    requires a != Abort(t) && a != BeginReconcile(t) && (a == Commit(t) ==> Commits(c, s, t) == None)
    ensures Repairing(Step(c, s, a), t) <==> Repairing(s, t)
  {
    if a.Advance? && a.t in s.work {
      AdvanceOwn(c, s, a.t);
    }
  }

  lemma SameWillRepair(c: Content, s: System, actions: seq<Action>)
    requires actions != [] && !actions[0].BeginReconcile?
    requires actions[0].Commit? && Commits(c, s, actions[0].t).Some? ==> !Repairing(s, actions[0].t)
    ensures WillRepair(c, Step(c, s, actions[0]), actions[1..]) <==> WillRepair(c, s, actions)
  {
    var a, s' := actions[0], Step(c, s, actions[0]);
    forall t ensures Repairing(s', t) && WillCommit(c, s', actions[1..], t) <==> Repairing(s, t) && WillCommit(c, s, actions, t) {
      if a == Abort(t) {
        assert !Repairing(s', t);
      } else if a == Commit(t) && Commits(c, s, t).Some? {
        assert !Repairing(s', t);
      } else {
        SameRepairing(c, s, a, t);
      }
    }
  }

  /** One entry at most, served where the serial run is, leads to where it is next. */
  ghost predicate Leads(c: Content, from: Db, taken: seq<Entry>, to: Db) {
    if taken == [] then from == to else |taken| == 1 && Serve(c, from, taken[0].request) == (to, taken[0].reply)
  }

  lemma RepairTwice(c: Content, db: Db)
    requires Valid(c, db)
    ensures Repaired(c, Repaired(c, db)) == Repaired(c, db) && Drifted(c, Repaired(c, db)) == {}
    ensures Repaired(c, db).enrollments.Keys == db.enrollments.Keys
  {
    RepairIsExact(c, db);
  }

  lemma CleanRepair(c: Content, db: Db)
    requires Drifted(c, db) == {}
    ensures Repaired(c, db) == db
  {
    forall e | e in db.enrollments ensures Agrees(c, db, e) {
      assert e !in Drifted(c, db);
    }
    RepairOfClean(c, db);
  }

  lemma BeginLeads(c: Content, s: System, actions: seq<Action>)
    requires RepairInv(c, s) && actions != [] && actions[0].BeginReconcile?
    ensures Leads(c, Ahead(c, s, actions), TakesEffect(c, s, actions), Ahead(c, Step(c, s, actions[0]), actions[1..]))
  {
    var t, s', rest := actions[0].t, Step(c, s, actions[0]), actions[1..];
    BeginWillRepair(c, s, actions);
    RepairTwice(c, s.db);
    if t !in s.work && WillCommit(c, s', rest, t) && WillRepair(c, s, actions) {
      var u :| Repairing(s, u) && WillCommit(c, s, actions, u);
      SecondFindsNothing(c, s, t, rest, u);
      CleanRepair(c, s.db);
    }
  }

  lemma BeginWillRepair(c: Content, s: System, actions: seq<Action>)
    requires actions != [] && actions[0].BeginReconcile?
    ensures var t, s', rest := actions[0].t, Step(c, s, actions[0]), actions[1..];
            s'.db == s.db && (WillRepair(c, s', rest) <==> WillRepair(c, s, actions) || (t !in s.work && WillCommit(c, s', rest, t)))
  {
    var a, s', rest := actions[0], Step(c, s, actions[0]), actions[1..];
    forall u | u != a.t ensures Repairing(s', u) && WillCommit(c, s', rest, u) <==> Repairing(s, u) && WillCommit(c, s, actions, u) {
      SameRepairing(c, s, a, u);
    }
    if a.t !in s.work {
      assert Repairing(s', a.t);
    }
    if WillRepair(c, s', rest) {
      var u :| Repairing(s', u) && WillCommit(c, s', rest, u);
      assert u != a.t ==> Repairing(s, u) && WillCommit(c, s, actions, u);
    }
    if WillRepair(c, s, actions) {
      var u :| Repairing(s, u) && WillCommit(c, s, actions, u);
      assert Repairing(s', u) && WillCommit(c, s', rest, u);
    }
  }

  /** The reconcile commits what the serial run has had since its snapshot. */
  lemma RepairLeads(c: Content, s: System, actions: seq<Action>)
    requires RepairInv(c, s) && actions != [] && actions[0].Commit? && Repairing(s, actions[0].t)
    requires Commits(c, s, actions[0].t).Some?
    ensures Leads(c, Ahead(c, s, actions), TakesEffect(c, s, actions), Ahead(c, Step(c, s, actions[0]), actions[1..]))
  {
    var t := actions[0].t;
    assert Repairing(s, t) && WillCommit(c, s, actions, t);
    ReconcileCommits(c, s, t);
    RepairTwice(c, s.db);
    assert Step(c, s, actions[0]).db == Repaired(c, s.db);
  }

  /** A commit that is not a reconcile's, at the committed database. */
  lemma CommitServes(c: Content, s: System, t: TxnId)
    requires RepairInv(c, s) && Commits(c, s, t).Some? && !Repairing(s, t) && (s.work[t].Resetting? ==> Current(s, s.work[t]))
    ensures if FoundAll(s, t) then Commits(c, s, t).value.0 == s.db
            else Serve(c, s.db, RequestOf(s.work[t])) == (Commits(c, s, t).value.0, ReplyOf(c, s.work[t]))
  {
    if FoundAll(s, t) {
      assert WorkOk(c, s.db, s.work[t]);
    } else {
      CommitIsServedExactly(c, s, t);
    }
  }

  lemma FindingIsServed(c: Content, s: System, t: TxnId)
    requires Inv(c, s) && FindsAll(s, t)
    ensures Serve(c, s.db, RequestOf(s.work[t])) == (s.db, Answered(Accepted(s.work[t].enrolled.enrollment, false)))
  {
    var w := s.work[t];
    assert WorkOk(c, s.db, w);
    assert HasKey(s.db, w.enrolled.enrollment, w.member, w.course);
    assert Find(s.db, w.member, w.course) == Some(w.enrolled.enrollment);
  }

  /** Away from reconciles, what takes effect is served at the committed database. */
  lemma StepServes(c: Content, s: System, actions: seq<Action>)
    requires RepairInv(c, s) && actions != [] && NoNewcomers(c, s, actions) && !actions[0].BeginReconcile?
    requires actions[0].Commit? && Commits(c, s, actions[0].t).Some? ==> !Repairing(s, actions[0].t)
    ensures Leads(c, s.db, TakesEffect(c, s, actions), Step(c, s, actions[0]).db)
    ensures forall entry | entry in TakesEffect(c, s, actions) :: !entry.request.ReconcileRequest?
  {
    var a := actions[0];
    if a.Commit? && Commits(c, s, a.t).Some? {
      CommitServes(c, s, a.t);
    } else if a.Advance? && a.t in s.work {
      AdvanceOwn(c, s, a.t);
      if FindsAll(s, a.t) { FindingIsServed(c, s, a.t); }
    }
  }

  lemma LeadsAhead(c: Content, db: Db, taken: seq<Entry>, next: Db)
    requires Valid(c, db) && Leads(c, db, taken, next) && forall entry | entry in taken :: !entry.request.ReconcileRequest?
    ensures Leads(c, Repaired(c, db), taken, Repaired(c, next))
  {
    if taken != [] {
      assert taken[0] in taken;
      RepairIsUnobserved(c, db, taken[0].request);
    }
  }

  lemma StepLeads(c: Content, s: System, actions: seq<Action>)
    requires RepairInv(c, s) && actions != [] && NoNewcomers(c, s, actions)
    ensures Leads(c, Ahead(c, s, actions), TakesEffect(c, s, actions), Ahead(c, Step(c, s, actions[0]), actions[1..]))
  {
    var a := actions[0];
    if a.BeginReconcile? {
      BeginLeads(c, s, actions);
    } else if a.Commit? && Commits(c, s, a.t).Some? && Repairing(s, a.t) {
      RepairLeads(c, s, actions);
    } else {
      StepServes(c, s, actions);
      SameWillRepair(c, s, actions);
      LeadsAhead(c, s.db, TakesEffect(c, s, actions), Step(c, s, a).db);
    }
  }

  lemma ExplainsMore(c: Content, from: Db, taken: seq<Entry>, to: Db, rest: seq<Entry>, end: Db)
    requires Leads(c, from, taken, to) && Explains(c, to, rest, end)
    ensures Explains(c, from, taken + rest, end)
  {
    if taken == [] {
      assert taken + rest == rest;
    } else {
      assert (taken + rest)[0] == taken[0] && (taken + rest)[1..] == rest;
    }
  }

  lemma {:induction false} SerialRunExplains(c: Content, s: System, actions: seq<Action>)
    requires RepairInv(c, s) && NoNewcomers(c, s, actions)
    ensures Explains(c, Ahead(c, s, actions), SerialHistory(c, s, actions), Run(c, s, actions).db)
    decreases |actions|
  {
    if actions == [] {
    } else {
      var s' := Step(c, s, actions[0]);
      StepLeads(c, s, actions);
      StepKeepsRepairInv(c, s, actions[0]);
      SerialRunExplains(c, s', actions[1..]);
      ExplainsMore(c, Ahead(c, s, actions), TakesEffect(c, s, actions), Ahead(c, s', actions[1..]),
                   SerialHistory(c, s', actions[1..]), Run(c, s, actions).db);
    }
  }

  /** A completion that is refused, which commits nothing, gets the answer it would get where the serial
      run is at that moment, and would change nothing there. */
  lemma RefusalFits(c: Content, s: System, actions: seq<Action>, t: TxnId)
    requires RepairInv(c, s) && t in s.work && s.work[t].Completing?
    requires Refusal(c, s.db, s.work[t].member, s.work[t].enrollment, s.work[t].lesson).Some?
    ensures var refusal := Refusal(c, s.db, s.work[t].member, s.work[t].enrollment, s.work[t].lesson).value;
            Serve(c, Ahead(c, s, actions), RequestOf(s.work[t])) == (Ahead(c, s, actions), Answered(refusal))
  {
    RepairIsUnobserved(c, s.db, RequestOf(s.work[t]));
  }

  // ---------------------------------------------------------------- the same requests, each once

  /** The entries of one transaction, or of the operators. */
  ghost function Only(history: seq<Entry>, txn: Option<TxnId>): seq<Entry> {
    if history == [] then [] else (if history[0].txn == txn then [history[0]] else []) + Only(history[1..], txn)
  }

  lemma {:induction false} OnlyAppend(h: seq<Entry>, more: seq<Entry>, txn: Option<TxnId>)
    ensures Only(h + more, txn) == Only(h, txn) + Only(more, txn)
    decreases |h|
  {
    if h == [] {
      assert h + more == more;
    } else {
      var first := if h[0].txn == txn then [h[0]] else [];
      assert (h + more)[0] == h[0] && (h + more)[1..] == h[1..] + more;
      OnlyAppend(h[1..], more, txn);
      assert Only(h, txn) == first + Only(h[1..], txn);
      assert first + (Only(h[1..], txn) + Only(more, txn)) == first + Only(h[1..], txn) + Only(more, txn);
    }
  }

  /** What a transaction has been entered for already, with its commit still to come. */
  ghost function Owed(c: Content, s: System, actions: seq<Action>, txn: Option<TxnId>): seq<Entry> {
    if txn.Some? && (FoundAll(s, txn.value) || Repairing(s, txn.value)) && WillCommit(c, s, actions, txn.value)
    then [Entry(txn, RequestOf(s.work[txn.value]), ReplyOf(c, s.work[txn.value]))]
    else []
  }

  lemma StepFoundAll(c: Content, s: System, a: Action, t: TxnId)
    ensures var s' := Step(c, s, a);
            FoundAll(s', t) <==>
              if a == Advance(t) then FindsAll(s, t) || FoundAll(s, t)
              else FoundAll(s, t) && a != Abort(t) && !(a == Commit(t) && Commits(c, s, t).Some?)
    ensures FoundAll(s, t) && FoundAll(Step(c, s, a), t) ==> Step(c, s, a).work[t] == s.work[t]
  {
  }

  /** An action of another transaction enters nothing for t and leaves what is owed. */
  lemma OwedByOthers(c: Content, s: System, actions: seq<Action>, t: TxnId)
    requires actions != [] && actions[0] !in {BeginReconcile(t), Advance(t), Commit(t), Abort(t)}
    ensures Owed(c, Step(c, s, actions[0]), actions[1..], Some(t)) == Owed(c, s, actions, Some(t))
    ensures Only(TakesEffect(c, s, actions), Some(t)) == [] == Only(Committed(c, s, actions[0]), Some(t))
  {
    var a := actions[0];
    StepFoundAll(c, s, a, t);
    SameRepairing(c, s, a, t);
    if Repairing(s, t) { SnapshotKept(c, s, a, t); }
  }

  lemma OwedAtBegin(c: Content, s: System, actions: seq<Action>, t: TxnId)
    requires actions != [] && actions[0] == BeginReconcile(t)
    ensures Owed(c, s, actions, Some(t)) + Only(TakesEffect(c, s, actions), Some(t))
            == Owed(c, Step(c, s, actions[0]), actions[1..], Some(t))
  {
    StepFoundAll(c, s, actions[0], t);
    if t !in s.work {
      assert Step(c, s, actions[0]).work[t] == Reconciling(s.db, {}, {}, false);
    }
  }

  lemma OwedAtAdvance(c: Content, s: System, actions: seq<Action>, t: TxnId)
    requires actions != [] && actions[0] == Advance(t)
    ensures Owed(c, s, actions, Some(t)) + Only(TakesEffect(c, s, actions), Some(t))
            == Owed(c, Step(c, s, actions[0]), actions[1..], Some(t))
  {
    var a := actions[0];
    StepFoundAll(c, s, a, t);
    SameRepairing(c, s, a, t);
    if FindsAll(s, t) {
      assert Step(c, s, a).work[t] == s.work[t].(enrolled := ToFinish(s.work[t].enrolled.enrollment, false, false));
    } else if Repairing(s, t) {
      SnapshotKept(c, s, a, t);
    }
  }

  lemma OwedAtCommit(c: Content, s: System, actions: seq<Action>, t: TxnId)
    requires actions != [] && actions[0] == Commit(t)
    ensures Owed(c, s, actions, Some(t)) + Only(TakesEffect(c, s, actions), Some(t))
            == Only(Committed(c, s, actions[0]), Some(t)) + Owed(c, Step(c, s, actions[0]), actions[1..], Some(t))
  {
    if Commits(c, s, t).Some? {
      assert t !in Step(c, s, actions[0]).work;
    }
  }

  lemma StepOwed(c: Content, s: System, actions: seq<Action>, txn: Option<TxnId>)
    requires actions != []
    ensures Owed(c, s, actions, txn) + Only(TakesEffect(c, s, actions), txn)
            == Only(Committed(c, s, actions[0]), txn) + Owed(c, Step(c, s, actions[0]), actions[1..], txn)
  {
    var a := actions[0];
    match txn
    case None =>
      OperatorsOwed(c, s, actions);
    case Some(t) =>
      if a == Abort(t) {
        assert t !in Step(c, s, a).work;
      } else if a == BeginReconcile(t) {
        OwedAtBegin(c, s, actions, t);
      } else if a == Advance(t) {
        OwedAtAdvance(c, s, actions, t);
      } else if a == Commit(t) {
        OwedAtCommit(c, s, actions, t);
      } else {
        OwedByOthers(c, s, actions, t);
      }
  }

  lemma OperatorsOwed(c: Content, s: System, actions: seq<Action>)
    requires actions != []
    ensures Only(TakesEffect(c, s, actions), None) == Only(Committed(c, s, actions[0]), None)
  {
  }

  lemma {:induction false} EntriesMatch(c: Content, s: System, actions: seq<Action>, txn: Option<TxnId>)
    ensures Owed(c, s, actions, txn) + Only(SerialHistory(c, s, actions), txn) == Only(CommitHistory(c, s, actions), txn)
    decreases |actions|
  {
    if actions == [] {
    } else {
      var s', rest := Step(c, s, actions[0]), actions[1..];
      var taken, committed := TakesEffect(c, s, actions), Committed(c, s, actions[0]);
      StepOwed(c, s, actions, txn);
      EntriesMatch(c, s', rest, txn);
      OnlyAppend(taken, SerialHistory(c, s', rest), txn);
      OnlyAppend(committed, CommitHistory(c, s', rest), txn);
      Regroup(Owed(c, s, actions, txn), Only(taken, txn), Only(SerialHistory(c, s', rest), txn),
              Only(committed, txn), Owed(c, s', rest, txn));
    }
  }

  lemma Regroup(owed: seq<Entry>, taken: seq<Entry>, rest: seq<Entry>, committed: seq<Entry>, later: seq<Entry>)
    requires owed + taken == committed + later
    ensures owed + (taken + rest) == committed + (later + rest)
  {
    assert owed + (taken + rest) == (owed + taken) + rest == committed + (later + rest);
  }

  lemma {:induction false} OnlyCounts(h: seq<Entry>, entry: Entry)
    ensures multiset(Only(h, entry.txn))[entry] == multiset(h)[entry]
    decreases |h|
  {
    if h == [] {
    } else {
      OnlyCounts(h[1..], entry);
      assert h == [h[0]] + h[1..];
    }
  }

  /** The serial history is a rearrangement of what was committed, replies included, that keeps the order
      of each transaction's own entries. */
  lemma SameEntries(c: Content, db: Db, actions: seq<Action>)
    ensures var serial, committed := SerialHistory(c, Init(db), actions), CommitHistory(c, Init(db), actions);
            multiset(serial) == multiset(committed) && forall txn :: Only(serial, txn) == Only(committed, txn)
  {
    var serial, committed := SerialHistory(c, Init(db), actions), CommitHistory(c, Init(db), actions);
    forall txn ensures Only(serial, txn) == Only(committed, txn) {
      EntriesMatch(c, Init(db), actions, txn);
      assert [] + Only(serial, txn) == Only(serial, txn);
    }
    forall entry ensures multiset(serial)[entry] == multiset(committed)[entry] {
      OnlyCounts(serial, entry);
      OnlyCounts(committed, entry);
    }
  }

  // ---------------------------------------------------------------- which runs are serializable

  /** Some order of the committed requests, served one at a time, gives the replies that were given and
      ends in the database that was reached. */
  ghost predicate Serializable(c: Content, db: Db, actions: seq<Action>) {
    exists history: seq<Entry> ::
      multiset(history) == multiset(CommitHistory(c, Init(db), actions)) && Explains(c, db, history, Run(c, Init(db), actions).db)
  }

  /** From a database in which concurrent repair works, every run is serializable in which no reset commits
      past a newcomer. */
  lemma RunsAreSerializable(c: Content, db: Db, actions: seq<Action>)
    requires Valid(c, db) && RepairSafe(c, db) && NoNewcomers(c, Init(db), actions)
    ensures Serializable(c, db, actions)
  {
    InitIsRepairInv(c, db);
    SerialRunExplains(c, Init(db), actions);
    SameEntries(c, db, actions);
    assert !WillRepair(c, Init(db), actions);
  }

  ghost predicate ResetFree(actions: seq<Action>) {
    forall i | 0 <= i < |actions| :: !actions[i].BeginReset?
  }

  lemma {:induction false} ResetFreeHasNoNewcomers(c: Content, s: System, actions: seq<Action>)
    requires ResetFree(actions) && forall t | t in s.work :: !s.work[t].Resetting?
    ensures NoNewcomers(c, s, actions)
    decreases |actions|
  {
    if actions == [] {
    } else {
      NoResetStarts(c, s, actions[0]);
      ResetFreeHasNoNewcomers(c, Step(c, s, actions[0]), actions[1..]);
    }
  }

  lemma NoResetStarts(c: Content, s: System, a: Action)
    requires !a.BeginReset? && forall t | t in s.work :: !s.work[t].Resetting?
    ensures forall t | t in Step(c, s, a).work :: !Step(c, s, a).work[t].Resetting?
  {
    if a.Advance? && a.t in s.work {
      assert forall t | t in Step(c, s, a).work :: t in s.work && (t != a.t ==> Step(c, s, a).work[t] == s.work[t]);
    }
  }

  /** Nobody enrolls: every request to enroll is for a course that is not published. */
  ghost predicate EnrollFree(c: Content, actions: seq<Action>) {
    forall i | 0 <= i < |actions| && actions[i].BeginEnroll? :: !c.IsPublished(actions[i].course)
  }

  /** No enrollment is being made, and resets have seen all there are. */
  ghost predicate AllSeen(s: System) {
    forall t | t in s.work :: !s.work[t].Enrolling? && (s.work[t].Resetting? ==> s.db.enrollments.Keys <= s.work[t].present)
  }

  lemma {:induction false} EnrollFreeHasNoNewcomers(c: Content, s: System, actions: seq<Action>)
    requires Inv(c, s) && EnrollFree(c, actions) && AllSeen(s)
    ensures NoNewcomers(c, s, actions)
    decreases |actions|
  {
    if actions == [] {
    } else {
      StepKeepsInv(c, s, actions[0]);
      NobodyAppears(c, s, actions[0]);
      EnrollFreeHasNoNewcomers(c, Step(c, s, actions[0]), actions[1..]);
    }
  }

  /** A transaction stays of its kind, and a reset keeps what its statement saw. */
  lemma KindKept(c: Content, s: System, a: Action, t: TxnId)
    requires t in s.work && t in Step(c, s, a).work
    ensures var w, w' := s.work[t], Step(c, s, a).work[t];
            (w'.Enrolling? <==> w.Enrolling?) && (w'.Resetting? <==> w.Resetting?) && (w.Resetting? ==> w'.present == w.present)
  {
    if a.Advance? && a.t in s.work && t != a.t {
      AdvanceOwn(c, s, a.t);
    }
  }

  lemma NobodyAppears(c: Content, s: System, a: Action)
    requires Inv(c, s) && (a.BeginEnroll? ==> !c.IsPublished(a.course)) && AllSeen(s)
    ensures AllSeen(Step(c, s, a))
  {
    var s' := Step(c, s, a);
    FewerEnrollments(c, s, a);
    forall t | t in s'.work
      ensures !s'.work[t].Enrolling? && (s'.work[t].Resetting? ==> s'.db.enrollments.Keys <= s'.work[t].present)
    {
      if t in s.work { KindKept(c, s, a, t); }
    }
  }

  lemma FewerEnrollments(c: Content, s: System, a: Action)
    requires Inv(c, s) && AllSeen(s)
    ensures Step(c, s, a).db.enrollments.Keys <= s.db.enrollments.Keys
  {
    if a.Advance? && a.t in s.work {
      AdvanceOwn(c, s, a.t);
    } else if a.Commit? && Commits(c, s, a.t).Some? {
      assert WorkOk(c, s.db, s.work[a.t]);
    }
  }

  lemma ResetFreeRunsAreSerializable(c: Content, db: Db, actions: seq<Action>)
    requires Valid(c, db) && RepairSafe(c, db) && ResetFree(actions)
    ensures Serializable(c, db, actions)
  {
    ResetFreeHasNoNewcomers(c, Init(db), actions);
    RunsAreSerializable(c, db, actions);
  }

  /** Resets too are harmless while nobody enrolls. */
  lemma EnrollFreeRunsAreSerializable(c: Content, db: Db, actions: seq<Action>)
    requires Valid(c, db) && RepairSafe(c, db) && EnrollFree(c, actions)
    ensures Serializable(c, db, actions)
  {
    InitIsInv(c, db);
    EnrollFreeHasNoNewcomers(c, Init(db), actions);
    RunsAreSerializable(c, db, actions);
  }
}
