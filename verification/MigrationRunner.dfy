/**
 The migration runner: unapplied files run in name order, each in a transaction that also records
 its name, under a lock that one instance holds for its whole run.
 */
module MigrationRunner {
  import opened Wrappers

  // A file name, as its rank in lexical order.
  type Name = nat

  type Script = string

  datatype File = File(name: Name, script: Script)

  // The rows of schema_migrations in insertion order, and the schema as the scripts that made it.
  datatype Database = Database(ledger: seq<Name>, schema: seq<Script>)

  /** The file list once sorted: sort.Strings over distinct names. */
  ghost predicate Ascending(files: seq<File>) {
    forall i, j | 0 <= i < j < |files| :: files[i].name < files[j].name
  }

  function Names(files: seq<File>): seq<Name> {
    seq(|files|, i requires 0 <= i < |files| => files[i].name)
  }

  function Scripts(files: seq<File>): seq<Script> {
    seq(|files|, i requires 0 <= i < |files| => files[i].script)
  }

  /** The database one uninterrupted run over the files makes of an empty one. */
  function Installed(files: seq<File>): Database {
    Database(Names(files), Scripts(files))
  }

  // ---------------------------------------------------------------- one run

  /** A run in which the transactions of some files fail; it stops at the first failure. */
  function Migrated(d: Database, files: seq<File>, failing: set<Name>): (Database, seq<Name>, bool)
    decreases |files|
  {
    if files == [] then (d, [], true)
    else
      var f := files[0];
      if f.name in d.ledger then Migrated(d, files[1..], failing)
      else if f.name in failing then (d, [], false)
      else
        var (d', applied, ok) := Migrated(Database(d.ledger + [f.name], d.schema + [f.script]), files[1..], failing);
        (d', [f.name] + applied, ok)
  }

  /** The rest of a run that has already applied some files. */
  function Onward(d: Database, applied: seq<Name>, files: seq<File>, failing: set<Name>): (Database, seq<Name>, bool) {
    var (d', more, ok) := Migrated(d, files, failing);
    (d', applied + more, ok)
  }

  class MigrationStore {
    var ledger: seq<Name>
    var schema: seq<Script>

    function State(): Database
      reads this
    {
      Database(ledger, schema)
    }

    method Migrate(files: seq<File>, failing: set<Name>) returns (applied: seq<Name>, ok: bool)
      modifies this
      ensures (State(), applied, ok) == Migrated(old(State()), files, failing)
      ensures Ascending(files) ==>
                exists missing: seq<File>, n: nat ::
                  AreMissing(missing, files, old(ledger)) && StopsAfter(old(State()), missing, failing, n, State(), applied, ok)
    {
      if Ascending(files) {
        RunIsExact(State(), files, failing);
      }
      applied := [];
      assert files[0..] == files;
      assert [] + Migrated(State(), files, failing).1 == Migrated(State(), files, failing).1;
      for i := 0 to |files|
        invariant Migrated(old(State()), files, failing) == Onward(State(), applied, files[i..], failing)
      {
        var f := files[i];
        assert files[i..][1..] == files[i + 1..];
        if f.name in ledger {
          continue;
        }
        ghost var more := Migrated(Database(ledger + [f.name], schema + [f.script]), files[i + 1..], failing).1;
        var done := ApplyOne(f, failing);
        if !done {
          assert applied + [] == applied;
          return applied, false;
        }
        assert applied + ([f.name] + more) == applied + [f.name] + more;
        applied := applied + [f.name];
      }
      assert applied + [] == applied;
      ok := true;
    }

    /** A file whose script or record fails leaves no trace. */
    method ApplyOne(f: File, failing: set<Name>) returns (ok: bool)
      requires f.name !in ledger
      modifies this
      ensures ok <==> f.name !in failing
      ensures State() == if ok then Database(old(ledger) + [f.name], old(schema) + [f.script]) else old(State())
    {
      var savedLedger, savedSchema := ledger, schema;
      schema := schema + [f.script];
      ledger := ledger + [f.name];
      ok := f.name !in failing;
      if !ok {
        ledger, schema := savedLedger, savedSchema;
      }
    }
  }

  /** Resuming from any prefix, a run extends the prefix; it reaches the end exactly when it succeeds,
      and it reports exactly the names it added. */
  lemma {:induction false} RunExtendsPrefix(all: seq<File>, k: nat, i: nat, n: nat, failing: set<Name>)
    requires Ascending(all) && k <= |all| && i <= n <= |all|
    ensures var (d, applied, ok) := Migrated(Installed(all[..k]), all[i..n], failing);
            i <= k ==>
              exists k' | k <= k' <= |all| ::
                && d == Installed(all[..k'])
                && Names(all[..k]) + applied == Names(all[..k'])
                && k' <= (if k < n then n else k) && (ok <==> n <= k')
    decreases n - i
  {
    if i == n {
      assert all[i..n] == [] && Names(all[..k]) + [] == Names(all[..k]);
    } else if i <= k {
      var f := all[i];
      assert all[i..n][0] == f && all[i..n][1..] == all[i + 1..n];
      if i < k {
        assert Names(all[..k])[i] == f.name;
        RunExtendsPrefix(all, k, i + 1, n, failing);
      } else {
        assert f.name !in Names(all[..k]);
        if f.name in failing {
          assert Names(all[..k]) + [] == Names(all[..k]);
        } else {
          OneMoreInstalled(all, k);
          RunExtendsPrefix(all, k + 1, i + 1, n, failing);
          var (d', applied, ok) := Migrated(Installed(all[..k + 1]), all[i + 1..n], failing);
          assert Names(all[..k]) + ([f.name] + applied) == Names(all[..k]) + [f.name] + applied;
        }
      }
    }
  }

  lemma OneMoreInstalled(all: seq<File>, k: nat)
    requires k < |all|
    ensures Installed(all[..k + 1]) == Database(Names(all[..k]) + [all[k].name], Scripts(all[..k]) + [all[k].script])
  {
  }

  /** Failure at any file and any number of retries are harmless: every run leaves a prefix of the files
      installed, never a shorter one than it found, and a successful run leaves them all, which is what
      one clean run would have left. */
  lemma RetryConverges(all: seq<File>, k: nat, failing: set<Name>)
    requires Ascending(all) && k <= |all|
    ensures var (d, applied, ok) := Migrated(Installed(all[..k]), all, failing);
            && (exists k' | k <= k' <= |all| :: d == Installed(all[..k']) && Names(all[..k]) + applied == Names(all[..k']))
            && (ok ==> d == Installed(all))
    ensures Migrated(Installed([]), all, {}).0 == Installed(all)
  {
    RunExtendsPrefix(all, k, 0, |all|, failing);
    CleanRun(all);
    assert all[0..|all|] == all && all[..|all|] == all;
    var (d, applied, ok) := Migrated(Installed(all[..k]), all, failing);
    var k' :| k <= k' <= |all| && d == Installed(all[..k']) && Names(all[..k]) + applied == Names(all[..k'])
              && (ok <==> |all| <= k');
    assert ok ==> all[..k'] == all;
  }

  lemma CleanRun(all: seq<File>)
    requires Ascending(all)
    ensures Migrated(Installed([]), all, {}).0 == Installed(all)
  {
    RunAppendsMissing(Installed([]), all);
    NothingInstalled(all);
    assert Names([]) == [] && Scripts([]) == [];
    assert [] + Names(all) == Names(all) && [] + Scripts(all) == Scripts(all);
  }

  // ---------------------------------------------------------------- upgrading

  /** The files whose names are not recorded. */
  function Unrecorded(files: seq<File>, ledger: seq<Name>): seq<File> {
    if files == [] then []
    else (if files[0].name in ledger then [] else [files[0]]) + Unrecorded(files[1..], ledger)
  }

  lemma {:induction false} UnrecordedLater(files: seq<File>, ledger: seq<Name>, name: Name)
    requires forall f | f in files :: f.name != name
    ensures Unrecorded(files, ledger + [name]) == Unrecorded(files, ledger)
    decreases |files|
  {
    if files == [] {
    } else {
      UnrecordedLater(files[1..], ledger, name);
    }
  }

  lemma {:induction false} NothingInstalled(files: seq<File>)
    ensures Unrecorded(files, []) == files
    decreases |files|
  {
    if files == [] {
    } else {
      NothingInstalled(files[1..]);
    }
  }

  /** The files before the first whose transaction fails. */
  function Passing(files: seq<File>, failing: set<Name>): seq<File> {
    if files == [] || files[0].name in failing then [] else [files[0]] + Passing(files[1..], failing)
  }

  /** A run appends what is missing, in order, up to the first file that fails. */
  lemma {:induction false} RunAppendsPassing(d: Database, files: seq<File>, failing: set<Name>)
    requires Ascending(files)
    ensures var missing := Unrecorded(files, d.ledger);
            var done := Passing(missing, failing);
            Migrated(d, files, failing)
            == (Database(d.ledger + Names(done), d.schema + Scripts(done)), Names(done), done == missing)
    decreases |files|
  {
    if files == [] {
      assert d.ledger + Names([]) == d.ledger && d.schema + Scripts([]) == d.schema && Names([]) == [];
    } else {
      var f, rest := files[0], Unrecorded(files[1..], d.ledger);
      if f.name in d.ledger {
        RunAppendsPassing(d, files[1..], failing);
        assert [] + rest == rest;
      } else {
        assert ([f] + rest)[1..] == rest;
        if f.name in failing {
          assert d.ledger + Names([]) == d.ledger && d.schema + Scripts([]) == d.schema && Names([]) == [];
        } else {
          var done := Passing(rest, failing);
          UnrecordedLater(files[1..], d.ledger, f.name);
          RunAppendsPassing(Database(d.ledger + [f.name], d.schema + [f.script]), files[1..], failing);
          AppendOne(d, f, done);
          assert [f] + done == [f] + rest <==> done == rest by { assert ([f] + done)[1..] == done; }
        }
      }
    }
  }

  /** A run without failures appends all of it. */
  lemma RunAppendsMissing(d: Database, files: seq<File>)
    requires Ascending(files)
    ensures var missing := Unrecorded(files, d.ledger);
            Migrated(d, files, {}) == (Database(d.ledger + Names(missing), d.schema + Scripts(missing)), Names(missing), true)
  {
    RunAppendsPassing(d, files, {});
    AllPass(Unrecorded(files, d.ledger));
  }

  lemma {:induction false} AllPass(files: seq<File>)
    ensures Passing(files, {}) == files
    decreases |files|
  {
    if files != [] {
      AllPass(files[1..]);
    }
  }

  /** The files to run, in name order. */
  ghost predicate AreMissing(missing: seq<File>, files: seq<File>, ledger: seq<Name>) {
    Ascending(missing) && forall f :: f in missing <==> f in files && f.name !in ledger
  }

  /** The first `n` of them are applied and recorded, and the next one, if there is one, fails. */
  ghost predicate StopsAfter(d: Database, missing: seq<File>, failing: set<Name>, n: nat, d': Database, applied: seq<Name>, ok: bool) {
    && n <= |missing| && (forall i | 0 <= i < n :: missing[i].name !in failing)
    && (n < |missing| ==> missing[n].name in failing) && (ok <==> n == |missing|)
    && applied == Names(missing[..n]) && d' == Database(d.ledger + applied, d.schema + Scripts(missing[..n]))
  }

  lemma {:induction false} UnrecordedAreMissing(files: seq<File>, ledger: seq<Name>)
    requires Ascending(files)
    ensures AreMissing(Unrecorded(files, ledger), files, ledger)
    decreases |files|
  {
    if files != [] {
      UnrecordedAreMissing(files[1..], ledger);
      assert forall f :: f in files <==> f == files[0] || f in files[1..];
    }
  }

  lemma {:induction false} PassingStops(files: seq<File>, failing: set<Name>) returns (n: nat)
    ensures n <= |files| && Passing(files, failing) == files[..n] && (forall i | 0 <= i < n :: files[i].name !in failing)
    ensures n < |files| ==> files[n].name in failing
    decreases |files|
  {
    if files == [] || files[0].name in failing {
      n := 0;
    } else {
      var m := PassingStops(files[1..], failing);
      n := m + 1;
      assert files[..n] == [files[0]] + files[1..][..m];
    }
  }

  /** From whatever the ledger holds, a run applies exactly the files whose names it lacks, in order, up to
      the first one that fails, and succeeds exactly when none of them does. */
  lemma RunIsExact(d: Database, files: seq<File>, failing: set<Name>)
    requires Ascending(files)
    ensures var (d', applied, ok) := Migrated(d, files, failing);
            exists missing: seq<File>, n: nat ::
              AreMissing(missing, files, d.ledger) && StopsAfter(d, missing, failing, n, d', applied, ok)
  {
    var missing := Unrecorded(files, d.ledger);
    UnrecordedAreMissing(files, d.ledger);
    RunAppendsPassing(d, files, failing);
    var n := PassingStops(missing, failing);
    var (d', applied, ok) := Migrated(d, files, failing);
    assert missing[..n] == missing <==> n == |missing|;
    assert StopsAfter(d, missing, failing, n, d', applied, ok);
  }

  lemma AppendOne(d: Database, f: File, rest: seq<File>)
    ensures Names([f] + rest) == [f.name] + Names(rest)
    ensures d.ledger + [f.name] + Names(rest) == d.ledger + Names([f] + rest)
    ensures d.schema + [f.script] + Scripts(rest) == d.schema + Scripts([f] + rest)
  {
  }

  lemma {:induction false} UnrecordedAfterPrefix(files: seq<File>, k: nat)
    requires Ascending(files) && k <= |files|
    ensures Unrecorded(files, Names(files[..k])) == files[k..]
  {
    RecordedPrefix(files, k);
    OnlyTheRest(files[..k], files[k..], Names(files[..k]));
    assert files[..k] + files[k..] == files;
  }

  lemma OnlyTheRest(before: seq<File>, rest: seq<File>, ledger: seq<Name>)
    requires AllIn(before, ledger) && NoneIn(rest, ledger)
    ensures Unrecorded(before + rest, ledger) == rest
  {
    NoneRecorded(rest, ledger);
    AllRecorded(before, rest, ledger);
  }

  lemma RecordedPrefix(files: seq<File>, k: nat)
    requires Ascending(files) && k <= |files|
    ensures AllIn(files[..k], Names(files[..k])) && NoneIn(files[k..], Names(files[..k]))
  {
    var before := files[..k];
    forall i | 0 <= i < |before| ensures before[i].name in Names(before) {
      assert Names(before)[i] == before[i].name;
    }
  }

  ghost predicate AllIn(files: seq<File>, ledger: seq<Name>) {
    forall i | 0 <= i < |files| :: files[i].name in ledger
  }

  ghost predicate NoneIn(files: seq<File>, ledger: seq<Name>) {
    forall i | 0 <= i < |files| :: files[i].name !in ledger
  }

  lemma {:induction false} NoneRecorded(files: seq<File>, ledger: seq<Name>)
    requires NoneIn(files, ledger)
    ensures Unrecorded(files, ledger) == files
    decreases |files|
  {
    if files == [] {
    } else {
      NoneRecorded(files[1..], ledger);
    }
  }

  lemma {:induction false} AllRecorded(before: seq<File>, files: seq<File>, ledger: seq<Name>)
    requires AllIn(before, ledger)
    ensures Unrecorded(before + files, ledger) == Unrecorded(files, ledger)
    decreases |before|
  {
    if before == [] {
      assert before + files == files;
    } else {
      AllRecorded(before[1..], files, ledger);
      assert (before + files)[1..] == before[1..] + files;
    }
  }

  /** Upgrading from one release's files to the next gives what a fresh install of the next gives,
      exactly when the next release only appended names that sort after the old ones. */
  lemma UpgradeConvergesExactly(before: seq<File>, files: seq<File>)
    requires Ascending(before) && Ascending(files) && forall f | f in before :: f in files
    ensures Migrated(Migrated(Installed([]), before, {}).0, files, {}).0 == Installed(files) <==> before <= files
  {
    CleanRun(before);
    RunAppendsMissing(Installed(before), files);
    if before <= files {
      AppendedNamesConverge(before, files);
    }
    var missing := Unrecorded(files, Names(before));
    if Names(before) + Names(missing) == Names(files) {
      OnlyAppended(before, files, missing);
    }
  }

  lemma AppendedNamesConverge(before: seq<File>, files: seq<File>)
    requires Ascending(files) && before <= files
    ensures var missing := Unrecorded(files, Names(before));
            Names(before) + Names(missing) == Names(files) && Scripts(before) + Scripts(missing) == Scripts(files)
  {
    var rest := files[|before|..];
    assert files[..|before|] == before && before + rest == files;
    UnrecordedAfterPrefix(files, |before|);
    NamesAppend(before, rest);
  }

  lemma NamesAppend(files: seq<File>, more: seq<File>)
    ensures Names(files + more) == Names(files) + Names(more) && Scripts(files + more) == Scripts(files) + Scripts(more)
  {
  }

  lemma OnlyAppended(before: seq<File>, files: seq<File>, missing: seq<File>)
    requires Ascending(files) && (forall f | f in before :: f in files)
    requires Names(before) + Names(missing) == Names(files)
    ensures before <= files
  {
    assert |Names(files)| == |before| + |missing|;
    forall i | 0 <= i < |before| ensures before[i] == files[i] {
      assert before[i] in before;
      var j :| 0 <= j < |files| && files[j] == before[i];
      assert Names(files)[i] == (Names(before) + Names(missing))[i] == before[i].name;
      assert j == i;
    }
  }

  // ---------------------------------------------------------------- concurrent instances

  type Instance = nat

  datatype Stage =
    | Waiting              // for the advisory lock
    | Checking(i: nat)     // is files[i] recorded?
    | Recording(i: nat)    // its script has run in an open transaction
    | Committing(i: nat)   // its name is inserted too
    | Finished(ok: bool, left: Database)

  // found, left: the database when the instance got the lock and when it gave it up.
  datatype Runner = Runner(files: seq<File>, stage: Stage, applied: seq<Name>, found: Database)

  datatype Fleet = Fleet(db: Database, holder: Option<Instance>, runners: map<Instance, Runner>)

  datatype Action = Start(p: Instance, files: seq<File>) | Acquire(p: Instance) | Advance(p: Instance) | Fail(p: Instance)

  const NOBODY := Fleet(Database([], []), None, map[])

  function Release(s: Fleet, p: Instance): Option<Instance> {
    if s.holder == Some(p) then None else s.holder
  }

  /** Failures and crashes roll back the open transaction and give up the session's lock. */
  function Step(s: Fleet, a: Action): Fleet {
    match a
    case Start(p, files) =>
      if p in s.runners then s else s.(runners := s.runners[p := Runner(files, Waiting, [], s.db)])
    case Acquire(p) =>
      if p in s.runners && s.runners[p].stage == Waiting && s.holder == None
      then Fleet(s.db, Some(p), s.runners[p := s.runners[p].(stage := Checking(0), found := s.db)])
      else s
    case Advance(p) =>
      if p !in s.runners then s
      else
        var r := s.runners[p];
        (match r.stage
         case Checking(i) =>
           if i >= |r.files| then Fleet(s.db, Release(s, p), s.runners[p := r.(stage := Finished(true, s.db))])
           else if r.files[i].name in s.db.ledger then s.(runners := s.runners[p := r.(stage := Checking(i + 1))])
           else s.(runners := s.runners[p := r.(stage := Recording(i))])
         case Recording(i) =>
           if i < |r.files| && r.files[i].name !in s.db.ledger
           then s.(runners := s.runners[p := r.(stage := Committing(i))])
           else s  // the primary key refuses the name
         case Committing(i) =>
           if i >= |r.files| then s
           else
             Fleet(Database(s.db.ledger + [r.files[i].name], s.db.schema + [r.files[i].script]), s.holder,
                   s.runners[p := Runner(r.files, Checking(i + 1), r.applied + [r.files[i].name], r.found)])
         case _ => s)
    case Fail(p) =>
      if p !in s.runners || s.runners[p].stage.Finished? then s
      else
        var r := s.runners[p];
        Fleet(s.db, Release(s, p),
              s.runners[p := r.(stage := Finished(false, s.db), found := if r.stage.Waiting? then s.db else r.found)])
  }

  ghost function Run(s: Fleet, actions: seq<Action>): Fleet
    decreases |actions|
  {
    if actions == [] then s else Run(Step(s, actions[0]), actions[1..])
  }

  /** Every instance ships the files of some release: a prefix of all the files there will ever be. */
  ghost predicate Releases(all: seq<File>, actions: seq<Action>) {
    forall i | 0 <= i < |actions| && actions[i].Start? :: actions[i].files <= all
  }

  /** Working stages belong to the lock holder, whose progress is how much is installed. */
  ghost predicate RunnerOk(s: Fleet, all: seq<File>, k: nat, p: Instance)
    requires p in s.runners
  {
    var r := s.runners[p];
    && r.files <= all
    && (r.stage.Checking? || r.stage.Recording? || r.stage.Committing? ==> s.holder == Some(p))
    && match r.stage
       case Checking(i) => i <= k && i <= |r.files|
       case Recording(i) => i == k < |r.files|
       case Committing(i) => i == k < |r.files|
       case Finished(ok, _) => ok ==> |r.files| <= k
       case Waiting => true
  }

  ghost predicate FleetOk(s: Fleet, all: seq<File>, k: nat) {
    k <= |all| && s.db == Installed(all[..k]) && forall p | p in s.runners :: RunnerOk(s, all, k, p)
  }

  lemma Recorded(all: seq<File>, k: nat, i: nat)
    requires Ascending(all) && k <= |all| && i < |all|
    ensures all[i].name in Names(all[..k]) <==> i < k
  {
    var names := Names(all[..k]);
    if i < k { assert names[i] == all[i].name; }
    assert forall j | 0 <= j < k :: names[j] == all[j].name;
  }

  /** A step keeps a prefix installed, and installs at most one more file. */
  lemma StepKeepsPrefix(s: Fleet, all: seq<File>, k: nat, a: Action)
    requires Ascending(all) && FleetOk(s, all, k) && (a.Start? ==> a.files <= all)
    ensures FleetOk(Step(s, a), all, k) || (k < |all| && FleetOk(Step(s, a), all, k + 1))
  {
    var s' := Step(s, a);
    if a.Advance? && a.p in s.runners {
      var r := s.runners[a.p];
      assert RunnerOk(s, all, k, a.p);
      match r.stage
      case Checking(i) =>
        if i < |r.files| { Recorded(all, k, i); assert r.files[i] == all[i]; }
        assert FleetOk(s', all, k);
      case Recording(i) =>
        Recorded(all, k, i);
        assert FleetOk(s', all, k);
      case Committing(i) =>
        OneMoreInstalled(all, k);
        assert r.files[k] == all[k];
        forall p | p in s'.runners ensures RunnerOk(s', all, k + 1, p) {
          if p != a.p { assert RunnerOk(s, all, k, p); }
        }
        assert FleetOk(s', all, k + 1);
      case _ =>
        assert FleetOk(s', all, k);
    } else {
      forall p | p in s'.runners ensures RunnerOk(s', all, k, p) {
        if p in s.runners { assert RunnerOk(s, all, k, p); }
      }
      assert FleetOk(s', all, k);
    }
  }

  lemma {:induction false} RunKeepsPrefix(s: Fleet, all: seq<File>, k: nat, actions: seq<Action>) returns (k': nat)
    requires Ascending(all) && FleetOk(s, all, k) && Releases(all, actions)
    ensures k <= k' && FleetOk(Run(s, actions), all, k')
    decreases |actions|
  {
    if actions == [] {
      k' := k;
    } else {
      StepKeepsPrefix(s, all, k, actions[0]);
      var next := if FleetOk(Step(s, actions[0]), all, k) then k else k + 1;
      k' := RunKeepsPrefix(Step(s, actions[0]), all, next, actions[1..]);
    }
  }

  /** In every interleaving of instances, old and new, that fail or crash anywhere: the ledger is a prefix
      of the sorted names, the schema is those scripts once each in order, nobody works without the lock,
      and an instance that reports success has all its files installed. */
  lemma MigrationsConverge(all: seq<File>, actions: seq<Action>)
    requires Ascending(all) && Releases(all, actions)
    ensures var s := Run(NOBODY, actions);
            && (exists k | 0 <= k <= |all| :: s.db == Installed(all[..k]))
            && (forall p | p in s.runners && Succeeded(s.runners[p]) :: Names(s.runners[p].files) <= s.db.ledger)
            && (forall p | p in s.runners && Succeeded(s.runners[p]) && s.runners[p].files == all :: s.db == Installed(all))
            && (forall p, q | p in s.runners && q in s.runners && Working(s.runners[p]) && Working(s.runners[q]) :: p == q)
  {
    var s := Run(NOBODY, actions);
    assert all[..0] == [];
    var k := RunKeepsPrefix(NOBODY, all, 0, actions);
    forall p | p in s.runners ensures RunnerOk(s, all, k, p) {
    }
    assert all[..|all|] == all;
  }

  predicate Working(r: Runner) {
    r.stage.Checking? || r.stage.Recording? || r.stage.Committing?
  }

  predicate Succeeded(r: Runner) {
    r.stage.Finished? && r.stage.ok
  }

  /** What is installed stays installed. */
  lemma InstalledStays(all: seq<File>, before: seq<Action>, after: seq<Action>)
    requires Ascending(all) && Releases(all, before) && Releases(all, after)
    ensures Run(NOBODY, before).db.ledger <= Run(Run(NOBODY, before), after).db.ledger
    ensures Run(NOBODY, before).db.schema <= Run(Run(NOBODY, before), after).db.schema
  {
    assert all[..0] == [];
    var k := RunKeepsPrefix(NOBODY, all, 0, before);
    var k' := RunKeepsPrefix(Run(NOBODY, before), all, k, after);
    assert all[..k'][..k] == all[..k];
  }

  // ---------------------------------------------------------------- each file by one instance

  /** The applied lists of the instances share out the ledger: no name is missing, foreign or twice. */
  ghost predicate SharedOut(s: Fleet) {
    && (forall p, n | p in s.runners && n in s.runners[p].applied :: n in s.db.ledger)
    && (forall n | n in s.db.ledger :: exists p | p in s.runners :: n in s.runners[p].applied)
    && (forall p, q, n | p in s.runners && q in s.runners && n in s.runners[p].applied && n in s.runners[q].applied :: p == q)
    && (forall p, i, j | p in s.runners && 0 <= i < j < |s.runners[p].applied| :: s.runners[p].applied[i] != s.runners[p].applied[j])
  }

  /** What an instance in the middle of its files has done so far is the start of a run of Migrate. */
  ghost predicate MidRun(r: Runner, db: Database, i: nat)
    requires i <= |r.files|
  {
    && (forall n | n in r.applied :: n in db.ledger)
    && forall failing: set<Name> | (forall n | n in r.applied :: n !in failing) ::
         Migrated(r.found, r.files, failing) == Onward(db, r.applied, r.files[i..], failing)
  }

  /** What a finished one has done is a run of Migrate in which some files failed, and none if it succeeded. */
  ghost predicate WholeRun(r: Runner)
    requires r.stage.Finished?
  {
    exists failing: set<Name> ::
      && Migrated(r.found, r.files, failing).0 == r.stage.left && Migrated(r.found, r.files, failing).1 == r.applied
      && (r.stage.ok ==> failing == {} && Migrated(r.found, r.files, failing).2)
  }

  ghost predicate RunsMigrate(s: Fleet, p: Instance)
    requires p in s.runners
  {
    var r := s.runners[p];
    match r.stage
    case Waiting => r.applied == []
    case Checking(i) => i <= |r.files| && MidRun(r, s.db, i)
    case Recording(i) => i < |r.files| && MidRun(r, s.db, i) && r.files[i].name !in s.db.ledger
    case Committing(i) => i < |r.files| && MidRun(r, s.db, i) && r.files[i].name !in s.db.ledger
    case Finished(_, _) => WholeRun(r)
  }

  ghost predicate WorkOk(s: Fleet) {
    SharedOut(s) && forall p | p in s.runners :: RunsMigrate(s, p)
  }

  /** When every file that is left fails, a run changes nothing more. */
  lemma {:induction false} AllFail(db: Database, files: seq<File>, failing: set<Name>)
    requires forall i | 0 <= i < |files| :: files[i].name in db.ledger || files[i].name in failing
    ensures Migrated(db, files, failing).0 == db && Migrated(db, files, failing).1 == []
    decreases |files|
  {
    if files == [] {
    } else {
      AllFail(db, files[1..], failing);
    }
  }

  lemma StopsAnywhere(r: Runner, db: Database, i: nat, r': Runner)
    requires i <= |r.files| && MidRun(r, db, i) && r' == r.(stage := Finished(false, db))
    ensures WholeRun(r')
  {
    var failing := set f | f in r.files[i..] && f.name !in db.ledger :: f.name;
    AllFail(db, r.files[i..], failing);
    assert r.applied + [] == r.applied;
    assert Migrated(r.found, r.files, failing) == Onward(db, r.applied, r.files[i..], failing);
  }

  lemma NeverStarted(r: Runner, db: Database, r': Runner)
    requires r.applied == [] && r' == Runner(r.files, Finished(false, db), [], db)
    ensures WholeRun(r')
  {
    var failing := set f | f in r.files :: f.name;
    AllFail(db, r.files, failing);
    assert Migrated(db, r.files, failing).0 == db;
  }

  lemma RunsToTheEnd(r: Runner, db: Database, r': Runner)
    requires MidRun(r, db, |r.files|) && r' == r.(stage := Finished(true, db))
    ensures WholeRun(r')
  {
    var none: set<Name> := {};
    assert r.files[|r.files|..] == [] && r.applied + [] == r.applied;
    assert Migrated(r.found, r.files, none) == Onward(db, r.applied, [], none);
  }

  lemma SkipsOne(r: Runner, db: Database, i: nat, r': Runner)
    requires i < |r.files| && MidRun(r, db, i) && r.files[i].name in db.ledger
    requires (r'.files, r'.applied, r'.found) == (r.files, r.applied, r.found)
    ensures MidRun(r', db, i + 1)
  {
    assert r.files[i..][1..] == r.files[i + 1..];
  }

  lemma InstallsOne(r: Runner, db: Database, i: nat, r': Runner)
    requires i < |r.files| && MidRun(r, db, i) && r.files[i].name !in db.ledger
    requires (r'.files, r'.applied, r'.found) == (r.files, r.applied + [r.files[i].name], r.found)
    ensures MidRun(r', Database(db.ledger + [r.files[i].name], db.schema + [r.files[i].script]), i + 1)
  {
    var f := r.files[i];
    var db' := Database(db.ledger + [f.name], db.schema + [f.script]);
    forall failing: set<Name> | forall n | n in r'.applied :: n !in failing
      ensures Migrated(r'.found, r'.files, failing) == Onward(db', r'.applied, r'.files[i + 1..], failing)
    {
      assert f.name in r'.applied;
      assert r.files[i..][0] == f && r.files[i..][1..] == r.files[i + 1..];
      var (d, more, ok) := Migrated(db', r.files[i + 1..], failing);
      assert r.applied + ([f.name] + more) == r.applied + [f.name] + more;
    }
  }

  lemma WaitingStep(s: Fleet, p: Instance, a: Action)
    requires p in s.runners && RunsMigrate(s, p) && s.runners[p].stage.Waiting?
    requires a == Acquire(p) || a == Advance(p) || a == Fail(p)
    ensures RunsMigrate(Step(s, a), p)
  {
    var r := s.runners[p];
    if a.Fail? {
      NeverStarted(r, s.db, Step(s, a).runners[p]);
    } else {
      assert r.files[0..] == r.files;
      assert forall more: seq<Name> :: [] + more == more;
    }
  }

  lemma CheckingStep(s: Fleet, p: Instance, a: Action)
    requires p in s.runners && RunsMigrate(s, p) && s.runners[p].stage.Checking?
    requires a == Acquire(p) || a == Advance(p) || a == Fail(p)
    ensures RunsMigrate(Step(s, a), p)
  {
    var r, r' := s.runners[p], Step(s, a).runners[p];
    var i := r.stage.i;
    if a.Fail? {
      StopsAnywhere(r, s.db, i, r');
    } else if a.Advance? && i == |r.files| {
      RunsToTheEnd(r, s.db, r');
    } else if a.Advance? && r.files[i].name in s.db.ledger {
      SkipsOne(r, s.db, i, r');
    }
  }

  lemma ApplyingStep(s: Fleet, p: Instance, a: Action)
    requires p in s.runners && RunsMigrate(s, p) && (s.runners[p].stage.Recording? || s.runners[p].stage.Committing?)
    requires a == Acquire(p) || a == Advance(p) || a == Fail(p)
    ensures RunsMigrate(Step(s, a), p)
  {
    var r, r' := s.runners[p], Step(s, a).runners[p];
    var i := r.stage.i;
    if a.Fail? {
      StopsAnywhere(r, s.db, i, r');
    } else if a.Advance? && r.stage.Committing? {
      InstallsOne(r, s.db, i, r');
    }
  }

  lemma OwnStep(s: Fleet, p: Instance, a: Action)
    requires p in s.runners && RunsMigrate(s, p)
    requires a == Acquire(p) || a == Advance(p) || a == Fail(p)
    ensures RunsMigrate(Step(s, a), p)
  {
    match s.runners[p].stage
    case Waiting => WaitingStep(s, p, a);
    case Checking(_) => CheckingStep(s, p, a);
    case Recording(_) => ApplyingStep(s, p, a);
    case Committing(_) => ApplyingStep(s, p, a);
    case Finished(_, _) =>
  }

  lemma SharesFrame(s: Fleet, s': Fleet)
    requires SharedOut(s) && s'.db == s.db && s.runners.Keys <= s'.runners.Keys
    requires forall p | p in s'.runners :: s'.runners[p].applied == if p in s.runners then s.runners[p].applied else []
    ensures SharedOut(s')
  {
    forall n | n in s'.db.ledger ensures exists p | p in s'.runners :: n in s'.runners[p].applied {
      var p :| p in s.runners && n in s.runners[p].applied;
      assert n in s'.runners[p].applied;
    }
  }

  /** One instance has recorded one more name. */
  ghost predicate Grows(s: Fleet, s': Fleet, p: Instance, name: Name) {
    && name !in s.db.ledger && s'.db.ledger == s.db.ledger + [name]
    && p in s.runners && s'.runners.Keys == s.runners.Keys && s'.runners[p].applied == s.runners[p].applied + [name]
    && forall q | q in s.runners && q != p :: s'.runners[q].applied == s.runners[q].applied
  }

  lemma NoneMissing(s: Fleet, s': Fleet, p: Instance, name: Name)
    requires SharedOut(s) && Grows(s, s', p, name)
    ensures forall n | n in s'.db.ledger :: exists q | q in s'.runners :: n in s'.runners[q].applied
  {
    forall n | n in s'.db.ledger ensures exists q | q in s'.runners :: n in s'.runners[q].applied {
      if n == name {
        assert n in s'.runners[p].applied;
      } else {
        var q :| q in s.runners && n in s.runners[q].applied;
        assert n in s'.runners[q].applied;
      }
    }
  }

  lemma NoneForeign(s: Fleet, s': Fleet, p: Instance, name: Name)
    requires SharedOut(s) && Grows(s, s', p, name)
    ensures forall q, n | q in s'.runners && n in s'.runners[q].applied :: n == name || n in s.runners[q].applied
    ensures forall q, n | q in s'.runners && n in s'.runners[q].applied :: n in s'.db.ledger && (n == name ==> q == p)
  {
  }

  lemma SharesGrow(s: Fleet, s': Fleet, p: Instance, name: Name)
    requires SharedOut(s) && Grows(s, s', p, name)
    ensures SharedOut(s')
  {
    NoneMissing(s, s', p, name);
    NoneForeign(s, s', p, name);
  }

  lemma StepKeepsShares(s: Fleet, a: Action)
    requires WorkOk(s)
    ensures SharedOut(Step(s, a))
  {
    if a.Advance? && a.p in s.runners && s.runners[a.p].stage.Committing? {
      assert RunsMigrate(s, a.p);
      var r := s.runners[a.p];
      SharesGrow(s, Step(s, a), a.p, r.files[r.stage.i].name);
    } else {
      SharesFrame(s, Step(s, a));
    }
  }

  /** Only the lock's holder installs anything. */
  lemma OthersStep(s: Fleet, all: seq<File>, k: nat, a: Action, q: Instance)
    requires Ascending(all) && FleetOk(s, all, k) && WorkOk(s) && q in Step(s, a).runners && (q in s.runners ==> a.p != q)
    ensures RunsMigrate(Step(s, a), q)
  {
    if q in s.runners {
      assert RunsMigrate(s, q) && RunnerOk(s, all, k, q);
      if a.p in s.runners { assert RunnerOk(s, all, k, a.p); }
    }
  }

  lemma StepKeepsWork(s: Fleet, all: seq<File>, k: nat, a: Action)
    requires Ascending(all) && FleetOk(s, all, k) && WorkOk(s)
    ensures WorkOk(Step(s, a))
  {
    StepKeepsShares(s, a);
    forall q | q in Step(s, a).runners ensures RunsMigrate(Step(s, a), q) {
      if q == a.p && q in s.runners && !a.Start? {
        assert RunsMigrate(s, q);
        OwnStep(s, q, a);
      } else if q != a.p || q !in s.runners {
        OthersStep(s, all, k, a, q);
      } else {
        assert RunsMigrate(s, q);
      }
    }
  }

  lemma {:induction false} RunKeepsWork(s: Fleet, all: seq<File>, k: nat, actions: seq<Action>)
    requires Ascending(all) && FleetOk(s, all, k) && WorkOk(s) && Releases(all, actions)
    ensures WorkOk(Run(s, actions))
    decreases |actions|
  {
    if actions == [] {
    } else {
      var s' := Step(s, actions[0]);
      StepKeepsPrefix(s, all, k, actions[0]);
      StepKeepsWork(s, all, k, actions[0]);
      RunKeepsWork(s', all, if FleetOk(s', all, k) then k else k + 1, actions[1..]);
    }
  }

  /** Exactly once: in every interleaving each recorded file was run by exactly one instance, once. */
  lemma EachFileOnce(all: seq<File>, actions: seq<Action>)
    requires Ascending(all) && Releases(all, actions)
    ensures SharedOut(Run(NOBODY, actions))
  {
    assert all[..0] == [];
    RunKeepsWork(NOBODY, all, 0, actions);
  }

  /** Between getting the lock and giving it up every instance does what Migrate does alone on the
      database it found: with no failure if it succeeds, up to some failure if not. */
  lemma InstancesRunMigrate(all: seq<File>, actions: seq<Action>, p: Instance)
    requires Ascending(all) && Releases(all, actions)
    requires p in Run(NOBODY, actions).runners && Run(NOBODY, actions).runners[p].stage.Finished?
    ensures WholeRun(Run(NOBODY, actions).runners[p])
  {
    assert all[..0] == [];
    RunKeepsWork(NOBODY, all, 0, actions);
    assert RunsMigrate(Run(NOBODY, actions), p);
  }

  // ---------------------------------------------------------------- an instance left alone

  /** Only this instance does anything. */
  ghost predicate OnlyBy(actions: seq<Action>, p: Instance) {
    forall i | 0 <= i < |actions| :: actions[i] in {Acquire(p), Advance(p), Fail(p)}
  }

  /** The instance has given up the lock, and what it did from here on is a run of Migrate over its files. */
  ghost predicate Ran(s: Fleet, s': Fleet, p: Instance, files: seq<File>, failing: set<Name>)
    requires p in s.runners
  {
    && p in s'.runners && s'.holder == None && s'.runners[p].stage.Finished? && s'.runners[p].stage.left == s'.db
    && (s'.db, s'.runners[p].applied, s'.runners[p].stage.ok) == Onward(s.db, s.runners[p].applied, files, failing)
  }

  lemma Prepended(s: Fleet, first: seq<Action>, s1: Fleet, more: seq<Action>, p: Instance)
    requires |first| <= 3 && Run(s, first) == s1 && OnlyBy(first, p) && OnlyBy(more, p)
    ensures Run(s, first + more) == Run(s1, more) && OnlyBy(first + more, p)
  {
    RunSplit(s, first, more);
  }

  lemma {:induction false} RunSplit(s: Fleet, first: seq<Action>, more: seq<Action>)
    ensures Run(s, first + more) == Run(Run(s, first), more)
    decreases |first|
  {
    if first == [] {
      assert first + more == more;
    } else {
      assert (first + more)[1..] == first[1..] + more;
      RunSplit(Step(s, first[0]), first[1..], more);
    }
  }

  lemma TwoSteps(s: Fleet, a: Action, b: Action)
    ensures Run(s, [a]) == Step(s, a) && Run(s, [a, b]) == Step(Step(s, a), b)
  {
    assert [a][1..] == [] && [a, b][1..] == [b] && [b][1..] == [];
    assert Run(Step(s, a), [b]) == Step(Step(s, a), b);
  }

  lemma ThreeSteps(s: Fleet, a: Action)
    ensures Run(s, [a, a, a]) == Step(Step(Step(s, a), a), a)
  {
    TwoSteps(Step(s, a), a, a);
    assert [a, a, a][1..] == [a, a];
  }

  /** From the lock on the instance works through its files. */
  lemma {:induction false} HolderFinishes(s: Fleet, p: Instance, i: nat, failing: set<Name>) returns (actions: seq<Action>)
    requires p in s.runners && s.holder == Some(p) && s.runners[p].stage == Checking(i) && i <= |s.runners[p].files|
    ensures OnlyBy(actions, p) && Ran(s, Run(s, actions), p, s.runners[p].files[i..], failing)
    decreases |s.runners[p].files| - i
  {
    var r, a := s.runners[p], Advance(p);
    var s1 := Step(s, a);
    if i == |r.files| {
      actions := [a];
      TwoSteps(s, a, a);
      assert r.files[i..] == [] && r.applied + [] == r.applied;
    } else if r.files[i].name in s.db.ledger {
      assert r.files[i..][1..] == r.files[i + 1..];
      var more := HolderFinishes(s1, p, i + 1, failing);
      actions := [a] + more;
      TwoSteps(s, a, a);
      Prepended(s, [a], s1, more, p);
    } else if r.files[i].name in failing {
      actions := [a, Fail(p)];
      TwoSteps(s, a, Fail(p));
      assert r.files[i..][0] == r.files[i] && r.applied + [] == r.applied;
    } else {
      var s3 := Step(Step(s1, a), a);
      ThreeSteps(s, a);
      var more := HolderFinishes(s3, p, i + 1, failing);
      actions := [a, a, a] + more;
      Prepended(s, [a, a, a], s3, more, p);
      assert r.files[i..][0] == r.files[i] && r.files[i..][1..] == r.files[i + 1..];
      var name := r.files[i].name;
      var rest := Migrated(s3.db, r.files[i + 1..], failing).1;
      assert r.applied + ([name] + rest) == r.applied + [name] + rest;
    }
  }

  /** An instance that waits for a free lock and then meets nobody does exactly what Migrate does, whichever
      transactions fail, and leaves the lock free. */
  lemma InstanceFinishes(s: Fleet, p: Instance, failing: set<Name>)
    requires p in s.runners && s.runners[p].stage == Waiting && s.runners[p].applied == [] && s.holder == None
    ensures exists actions ::
              && OnlyBy(actions, p)
              && var s' := Run(s, actions);
                 && p in s'.runners && s'.runners[p].stage.Finished? && s'.holder == None
                 && (s'.db, s'.runners[p].applied, s'.runners[p].stage.ok) == Migrated(s.db, s.runners[p].files, failing)
  {
    var s1 := Step(s, Acquire(p));
    var more := HolderFinishes(s1, p, 0, failing);
    TwoSteps(s, Acquire(p), Acquire(p));
    Prepended(s, [Acquire(p)], s1, more, p);
    var files := s.runners[p].files;
    assert files[0..] == files;
    var applied := Migrated(s.db, files, failing).1;
    assert [] + applied == applied;
    var actions := [Acquire(p)] + more;
    assert OnlyBy(actions, p);
  }
}
