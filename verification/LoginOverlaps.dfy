/**
 Callbacks that share a transaction cookie. A browser sends the cookie with every request until a
 response removes it, so requests that overlap can each take the same transaction.
 */
module LoginOverlaps {
  import opened Wrappers
  import opened AuthorizationServer
  import opened WebLogin
  import opened LoginProtocol
  import opened LoginRuns

  /** The transaction a callback request would take, if it is let through. */
  ghost function Takes(s: System, a: Action): Option<Transaction>
    requires a.Begin?
  {
    var t := Unexpired(JarOf(s, a.browser).transaction, s.clock);
    if a.id !in s.callbacks && MayExchange(t, a.code, a.state) then t else None
  }

  /** A callback request arrives while another holds the same transaction and has not been answered. */
  ghost predicate Overlaps(s: System, a: Action) {
    a.Begin? && Takes(s, a).Some?
    && exists k | k in s.callbacks :: s.callbacks[k].transaction == Takes(s, a).value && !s.callbacks[k].stage.Ended?
  }

  ghost predicate NoOverlaps(c: Config, s: System, actions: seq<Action>)
    decreases |actions|
  {
    actions != [] ==> !Overlaps(s, actions[0]) && NoOverlaps(c, Step(c, s, actions[0]), actions[1..])
  }

  /** An answered callback's transaction is in no browser any more. */
  ghost predicate Gone(s: System) {
    forall k, b | k in s.callbacks && s.callbacks[k].stage.Ended? && b in s.jars ::
      s.jars[b].transaction != Some(s.callbacks[k].transaction)
  }

  ghost predicate OneEach(s: System) {
    forall i, j | i in s.callbacks && j in s.callbacks && s.callbacks[i].transaction == s.callbacks[j].transaction :: i == j
  }

  lemma LogInKeepsGone(c: Config, s: System, b: Browser, t: Transaction)
    requires CallbacksOk(c, s) && Gone(s) && OneEach(s) && Unused(s, t.state)
    ensures Gone(LoggedIn(s, b, t)) && OneEach(LoggedIn(s, b, t))
  {
    forall k | k in s.callbacks ensures s.callbacks[k].transaction != t {
      assert CallbackOk(c, s, k);
    }
  }

  lemma StartKeepsGone(s: System, id: Id, b: Browser, t: Transaction, code: Value)
    requires Gone(s) && OneEach(s) && JarOf(s, b).transaction == Some(t) && id !in s.callbacks
    requires forall k | k in s.callbacks :: s.callbacks[k].transaction == t ==> s.callbacks[k].stage.Ended?
    ensures Gone(Started(s, id, b, t, code)) && OneEach(Started(s, id, b, t, code))
  {
    assert forall k | k in s.callbacks :: s.callbacks[k].transaction != t;
  }

  lemma ClearKeepsGone(s: System, b: Browser)
    requires Gone(s) && OneEach(s)
    ensures Gone(Cleared(s, b)) && OneEach(Cleared(s, b))
  {
  }

  /** A response ends one callback and removes its transaction from its browser, the only one that had it. */
  lemma ResponseKeepsGone(c: Config, s: System, s': System, id: Id, cookies: Cookies)
    requires JarsOk(s) && CallbacksOk(c, s) && Gone(s) && OneEach(s) && id in s.callbacks && cookies.transaction == None
    requires s'.callbacks == s.callbacks[id := s.callbacks[id].(stage := Ended)]
    requires s'.jars == s.jars[s.callbacks[id].browser := cookies]
    ensures Gone(s') && OneEach(s')
  {
    assert CallbackOk(c, s, id);
  }

  lemma SameKeepsGone(s: System, s': System)
    requires Gone(s) && OneEach(s) && s'.jars == s.jars && s'.callbacks.Keys == s.callbacks.Keys
    requires forall k | k in s.callbacks :: s'.callbacks[k].transaction == s.callbacks[k].transaction
    requires forall k | k in s.callbacks && s'.callbacks[k].stage.Ended? :: s.callbacks[k].stage.Ended?
    ensures Gone(s') && OneEach(s')
  {
  }

  lemma EffectKeepsGone(c: Config, mentioned: set<Value>, s: System, a: Action)
    requires JarsOk(s) && CallbacksOk(c, s) && Gone(s) && OneEach(s) && !Overlaps(s, a)
    requires a.LogIn? && a.state !in mentioned ==> Unused(s, a.state)
    ensures Gone(Effect(c, mentioned, s, a)) && OneEach(Effect(c, mentioned, s, a))
  {
    var s' := Effect(c, mentioned, s, a);
    match a
    case LogIn(b, state, nonce, verifier, returnTo) =>
      if FreshLogin(mentioned, a) { LogInKeepsGone(c, s, b, Drawn(state, nonce, verifier, returnTo, s.clock)); }
    case Begin(id, b, code, _) =>
      if Takes(s, a).Some? {
        StartKeepsGone(s, id, b, Takes(s, a).value, code);
      } else if id !in s.callbacks {
        ClearKeepsGone(s, b);
      }
    case _ =>
      CallbackEffectKeepsGone(c, mentioned, s, a);
  }

  lemma FinishKeepsGone(c: Config, s: System, id: Id)
    requires JarsOk(s) && CallbacksOk(c, s) && Gone(s) && OneEach(s) && id in s.callbacks && s.callbacks[id].stage.Answered?
    ensures Gone(Finished(c, s, id)) && OneEach(Finished(c, s, id))
  {
    var s' := Finished(c, s, id);
    FinishedOnly(c, s, id);
    ResponseKeepsGone(c, s, s', id, JarOf(s', s.callbacks[id].browser));
  }

  lemma FailureKeepsGone(c: Config, s: System, id: Id)
    requires JarsOk(s) && CallbacksOk(c, s) && Gone(s) && OneEach(s) && id in s.callbacks
    ensures Gone(Failed(s, id)) && OneEach(Failed(s, id))
  {
    FailedOnly(s, id);
    ResponseKeepsGone(c, s, Failed(s, id), id, Cookies(None, JarOf(s, s.callbacks[id].browser).session));
  }

  lemma ExchangeKeepsGone(c: Config, s: System, id: Id, signs: bool)
    requires Gone(s) && OneEach(s) && id in s.callbacks
    ensures Gone(Exchanged(c, s, id, signs)) && OneEach(Exchanged(c, s, id, signs))
  {
    ExchangedOnly(c, s, id, signs);
    ExchangeAnswers(c, s, id, signs);
    SameKeepsGone(s, Exchanged(c, s, id, signs));
  }

  lemma CallbackEffectKeepsGone(c: Config, mentioned: set<Value>, s: System, a: Action)
    requires JarsOk(s) && CallbacksOk(c, s) && Gone(s) && OneEach(s) && !a.LogIn? && !a.Begin?
    ensures Gone(Effect(c, mentioned, s, a)) && OneEach(Effect(c, mentioned, s, a))
  {
    match a
    case Finish(id) => if id in s.callbacks && s.callbacks[id].stage.Answered? { FinishKeepsGone(c, s, id); }
    case Abandon(id) => if id in s.callbacks { FailureKeepsGone(c, s, id); }
    case Exchange(id, signs) => if id in s.callbacks { ExchangeKeepsGone(c, s, id, signs); }
    case Foreign(request, signs) =>
      AnsweringOnly(c, s, request, None, signs);
      SameKeepsGone(s, Answering(c, s, request, None, signs));
    case Post(b, form, code) => SameKeepsGone(s, Posted(c, s, b, form, code));
    case _ =>
  }

  lemma StepKeepsGone(c: Config, s: System, a: Action)
    requires Inv(c, s) && Gone(s) && OneEach(s) && !Overlaps(s, a)
    ensures Gone(Step(c, s, a)) && OneEach(Step(c, s, a))
  {
    var s1 := Noted(s, a);
    if a.LogIn? && a.state !in s.mentioned {
      FreshIsUnused(s, a.state);
    }
    NotedKeepsGone(c, s, a);
    EffectKeepsGone(c, s.mentioned, s1, a);
  }

  lemma NotedKeepsGone(c: Config, s: System, a: Action)
    requires Inv(c, s) && Gone(s) && OneEach(s) && !Overlaps(s, a)
    ensures var s1 := Noted(s, a); JarsOk(s1) && CallbacksOk(c, s1) && Gone(s1) && OneEach(s1) && !Overlaps(s1, a)
  {
    IdleKeepsInv(c, s, Noted(s, a));
    SameKeepsGone(s, Noted(s, a));
  }

  lemma {:induction false} RunKeepsGone(c: Config, s: System, actions: seq<Action>)
    requires Inv(c, s) && Gone(s) && OneEach(s) && NoOverlaps(c, s, actions)
    ensures Gone(Run(c, s, actions)) && OneEach(Run(c, s, actions))
    decreases |actions|
  {
    if actions == [] {
    } else {
      StepKeepsInv(c, s, actions[0]);
      StepKeepsGone(c, s, actions[0]);
      RunKeepsGone(c, Step(c, s, actions[0]), actions[1..]);
    }
  }

  lemma OverlapSharesOne(c: Config, s: System, a: Action)
    requires Overlaps(s, a)
    ensures !OneEach(Step(c, s, a))
  {
    var t := Takes(s, a).value;
    var k :| k in s.callbacks && s.callbacks[k].transaction == t && !s.callbacks[k].stage.Ended?;
    TakesOne(c, s, a);
    var later := Step(c, s, a).callbacks;
    assert k != a.id && later[a.id].transaction == later[k].transaction;
  }

  lemma TakesOne(c: Config, s: System, a: Action)
    requires a.Begin? && Takes(s, a).Some?
    ensures Step(c, s, a).callbacks == s.callbacks[a.id := Pending(a.browser, Takes(s, a).value, a.code, s.clock, s.step + 1, Exchanging)]
  {
  }

  lemma SharingStays(s: System, s': System)
    requires Grown(s, s') && OneEach(s')
    ensures OneEach(s)
  {
    forall i, j | i in s.callbacks && j in s.callbacks && s.callbacks[i].transaction == s.callbacks[j].transaction ensures i == j {
      assert s'.callbacks[i].transaction == s.callbacks[i].transaction && s'.callbacks[j].transaction == s.callbacks[j].transaction;
    }
  }

  lemma {:induction false} SharingOverlaps(c: Config, s: System, actions: seq<Action>)
    requires Inv(c, s) && OneEach(Run(c, s, actions))
    ensures NoOverlaps(c, s, actions)
    decreases |actions|
  {
    if actions == [] {
    } else {
      var s' := Step(c, s, actions[0]);
      StepKeepsInv(c, s, actions[0]);
      SharingOverlaps(c, s', actions[1..]);
      RunKeepsInv(c, s', actions[1..]);
      SharingStays(s', Run(c, s', actions[1..]));
      if Overlaps(s, actions[0]) {
        OverlapSharesOne(c, s, actions[0]);
      }
    }
  }

  /** Each transaction is taken by one callback only, and so yields one session at most, exactly when no
      callback request arrives while another holds its transaction. */
  lemma OneCallbackPerTransaction(c: Config, actions: seq<Action>)
    ensures OneEach(Run(c, START, actions)) <==> NoOverlaps(c, START, actions)
  {
    if OneEach(Run(c, START, actions)) {
      SharingOverlaps(c, START, actions);
    }
    if NoOverlaps(c, START, actions) {
      RunKeepsGone(c, START, actions);
    }
  }

  // ---------------------------------------------------------------- two sessions of one transaction

  ghost predicate Arrives(c: Config, s: System, s': System) {
    exists actions: seq<Action> :: s' == Run(c, s, actions)
  }

  lemma ArrivesNext(c: Config, s: System, s': System, a: Action)
    requires Arrives(c, s, s')
    ensures Arrives(c, s, Step(c, s', a))
  {
    var actions: seq<Action> :| s' == Run(c, s, actions);
    RunOn(c, s, actions, [a]);
    RunFirst(c, s', a, []);
    assert [a] + [] == [a];
  }

  /** Two codes for one transaction: its authorization request is submitted twice. */
  lemma TwoCodes(c: Config, s: System, b: Browser, identity: string, n: nat) returns (s': System, t: Transaction)
    requires identity in IDENTITIES && forall k: nat | k >= n :: Random(k) !in s.mentioned
    ensures Arrives(c, s, s') && s'.clock == s.clock && s'.callbacks == s.callbacks
    ensures t == Drawn(Random(n), Random(n + 1), Random(n + 2), "/", s.clock) && JarOf(s', b).transaction == Some(t)
    ensures var grant := GrantFor(c, t, identity, s.clock);
            Random(n + 3) in s'.codes && s'.codes[Random(n + 3)] == grant && Random(n + 4) in s'.codes && s'.codes[Random(n + 4)] == grant
  {
    t := Drawn(Random(n), Random(n + 1), Random(n + 2), "/", s.clock);
    assert Run(c, s, []) == s;
    assert FreshLogin(s.mentioned, LogInOf(b, t));
    var s1 := LogsIn(c, s, b, t);
    assert Fresh(s1.mentioned, Random(n + 3)) && Fresh(s1.mentioned, Random(n + 4));
    ArrivesNext(c, s, s, LogInOf(b, t));
    var s2 := PostsOne(c, s1, b, t, identity, Random(n + 3));
    ArrivesNext(c, s, s1, Post(b, RequestFor(c, t, identity), Random(n + 3)));
    assert Fresh(s2.mentioned, Random(n + 4));
    var s3 := PostsOne(c, s2, b, t, identity, Random(n + 4));
    ArrivesNext(c, s, s2, Post(b, RequestFor(c, t, identity), Random(n + 4)));
    s' := s3;
  }

  lemma LogsIn(c: Config, s: System, b: Browser, t: Transaction) returns (s': System)
    requires FreshLogin(s.mentioned, LogInOf(b, t)) && t == Drawn(t.state, t.nonce, t.verifier, t.returnTo, s.clock)
    ensures s' == Step(c, s, LogInOf(b, t)) && s'.clock == s.clock && s'.callbacks == s.callbacks
    ensures JarOf(s', b).transaction == Some(t) && s'.mentioned == s.mentioned + {t.state, t.nonce, t.verifier}
  {
    s' := Step(c, s, LogInOf(b, t));
  }

  lemma PostsOne(c: Config, s: System, b: Browser, t: Transaction, identity: string, code: Value) returns (s': System)
    requires t.state.Random? && t.nonce.Random? && t.verifier.Random? && identity in IDENTITIES && Fresh(s.mentioned, code)
    ensures s' == Step(c, s, Post(b, RequestFor(c, t, identity), code))
    ensures s'.clock == s.clock && s'.callbacks == s.callbacks && s'.jars == s.jars
    ensures s'.codes == s.codes[code := GrantFor(c, t, identity, s.clock)]
    ensures s'.mentioned == s.mentioned + {code, t.state, t.nonce, t.verifier, Digest(t.verifier)}
  {
    var a := Post(b, RequestFor(c, t, identity), code);
    s' := Step(c, s, a);
    PostIssues(c, Noted(s, a), b, t, identity, code);
    assert Parts(Digest(t.verifier)) == {Digest(t.verifier)} + Parts(t.verifier) && Parts(t.verifier) == {t.verifier};
    assert Mentions(a) == {code, t.state, t.nonce, t.verifier, Digest(t.verifier)};
  }

  lemma BeginsOne(c: Config, s: System, id: Id, b: Browser, t: Transaction, code: Value) returns (s': System)
    requires id !in s.callbacks && JarOf(s, b).transaction == Some(t) && !Expired(t.expiresAt, s.clock) && code.Random?
    ensures s' == Step(c, s, Begin(id, b, code, t.state)) && s'.clock == s.clock && s'.codes == s.codes && s'.jars == s.jars
    ensures s'.callbacks == s.callbacks[id := Pending(b, t, code, s.clock, s.step + 1, Exchanging)]
  {
    s' := Step(c, s, Begin(id, b, code, t.state));
  }

  lemma ExchangesOne(c: Config, s: System, id: Id) returns (s': System)
    requires id in s.callbacks && s.callbacks[id].stage.Exchanging?
    ensures var k := s.callbacks[id];
            var (codes, reply) := Redeemed(s.codes, c, ExchangeFor(c, k.code, k.transaction.verifier), s.clock, true);
            s' == Step(c, s, Exchange(id, true)) && s'.clock == s.clock && s'.codes == codes
            && s'.callbacks == s.callbacks[id := k.(stage := Answered(reply))]
  {
    s' := Step(c, s, Exchange(id, true));
    ExchangedOnly(c, Noted(s, Exchange(id, true)), id, true);
    ExchangeAnswers(c, Noted(s, Exchange(id, true)), id, true);
  }

  lemma FinishesOne(c: Config, s: System, id: Id, t: Transaction, identity: string) returns (s': System)
    requires id in s.callbacks && s.callbacks[id].transaction == t && identity in IDENTITIES
    requires s.callbacks[id].stage == Answered(TokensFor(c, GrantFor(c, t, identity, s.clock), s.clock))
    ensures s' == Step(c, s, Finish(id)) && s'.clock == s.clock && id in s'.sessions && s.sessions.Keys <= s'.sessions.Keys
    ensures s'.callbacks == s.callbacks[id := s.callbacks[id].(stage := Ended)]
  {
    s' := Step(c, s, Finish(id));
    BearerIsBearer();
    FinishedOnly(c, Noted(s, Finish(id)), id);
  }

  /** A code granted for a transaction at this very moment is good for it. */
  lemma GoodNow(c: Config, codes: map<Value, Authorization>, t: Transaction, identity: string, code: Value, now: int)
    requires code in codes && codes[code] == GrantFor(c, t, identity, now)
    ensures Redeemed(codes, c, ExchangeFor(c, code, t.verifier), now, true) == (codes - {code}, TokensFor(c, GrantFor(c, t, identity, now), now))
  {
  }

  ghost predicate TwoSessions(s: System, i: Id, j: Id) {
    && i != j && i in s.sessions && j in s.sessions && i in s.callbacks && j in s.callbacks
    && s.callbacks[i].transaction == s.callbacks[j].transaction
  }

  /** Both callbacks start before either is answered. */
  lemma BothBegin(c: Config, s: System, b: Browser, t: Transaction, x: Value, y: Value, i: Id, j: Id) returns (s': System)
    requires i != j && i !in s.callbacks && j !in s.callbacks && x.Random? && y.Random?
    requires JarOf(s, b).transaction == Some(t) && !Expired(t.expiresAt, s.clock)
    ensures Arrives(c, s, s') && s'.clock == s.clock && s'.codes == s.codes && i in s'.callbacks && j in s'.callbacks
    ensures s'.callbacks[i].stage.Exchanging? && s'.callbacks[i].transaction == t && s'.callbacks[i].code == x
    ensures s'.callbacks[j].stage.Exchanging? && s'.callbacks[j].transaction == t && s'.callbacks[j].code == y
  {
    assert Run(c, s, []) == s;
    var s1 := BeginsOne(c, s, i, b, t, x);
    ArrivesNext(c, s, s, Begin(i, b, x, t.state));
    s' := BeginsOne(c, s1, j, b, t, y);
    ArrivesNext(c, s, s1, Begin(j, b, y, t.state));
  }

  lemma BothExchange(c: Config, s: System, t: Transaction, identity: string, x: Value, y: Value, i: Id, j: Id) returns (s': System)
    requires i != j && i in s.callbacks && j in s.callbacks && x != y && x in s.codes && y in s.codes
    requires s.callbacks[i].stage.Exchanging? && s.callbacks[i].transaction == t && s.callbacks[i].code == x
    requires s.callbacks[j].stage.Exchanging? && s.callbacks[j].transaction == t && s.callbacks[j].code == y
    requires s.codes[x] == GrantFor(c, t, identity, s.clock) == s.codes[y]
    ensures Arrives(c, s, s') && s'.clock == s.clock && i in s'.callbacks && j in s'.callbacks
    ensures var reply := TokensFor(c, GrantFor(c, t, identity, s.clock), s.clock);
            && s'.callbacks[i].stage == Answered(reply) && s'.callbacks[i].transaction == t
            && s'.callbacks[j].stage == Answered(reply) && s'.callbacks[j].transaction == t
  {
    assert Run(c, s, []) == s;
    GoodNow(c, s.codes, t, identity, x, s.clock);
    var s1 := ExchangesOne(c, s, i);
    ArrivesNext(c, s, s, Exchange(i, true));
    GoodNow(c, s1.codes, t, identity, y, s1.clock);
    s' := ExchangesOne(c, s1, j);
    ArrivesNext(c, s, s1, Exchange(j, true));
  }

  lemma BothFinish(c: Config, s: System, t: Transaction, identity: string, i: Id, j: Id) returns (s': System)
    requires i != j && i in s.callbacks && j in s.callbacks && identity in IDENTITIES
    requires var reply := TokensFor(c, GrantFor(c, t, identity, s.clock), s.clock);
             && s.callbacks[i].stage == Answered(reply) && s.callbacks[i].transaction == t
             && s.callbacks[j].stage == Answered(reply) && s.callbacks[j].transaction == t
    ensures Arrives(c, s, s') && TwoSessions(s', i, j)
  {
    assert Run(c, s, []) == s;
    var s1 := FinishesOne(c, s, i, t, identity);
    ArrivesNext(c, s, s, Finish(i));
    s' := FinishesOne(c, s1, j, t, identity);
    ArrivesNext(c, s, s1, Finish(j));
  }

  lemma ArrivesTrans(c: Config, s: System, s1: System, s2: System)
    requires Arrives(c, s, s1) && Arrives(c, s1, s2)
    ensures Arrives(c, s, s2)
  {
    var before: seq<Action> :| s1 == Run(c, s, before);
    var after: seq<Action> :| s2 == Run(c, s1, after);
    RunOn(c, s, before, after);
  }

  /** Overlap is enough: from every state any browser can end up with two sessions of one transaction. */
  lemma TwoSessionsPossible(c: Config, s: System, b: Browser)
    ensures exists s', i, j :: Arrives(c, s, s') && TwoSessions(s', i, j)
  {
    var identity := "demo|learner";
    var n := FreshAbove(s.mentioned);
    var i := UnusedId(s.callbacks.Keys);
    var s1, t := TwoCodes(c, s, b, identity, n);
    var s2 := BothBegin(c, s1, b, t, Random(n + 3), Random(n + 4), i, i + 1);
    var s3 := BothExchange(c, s2, t, identity, Random(n + 3), Random(n + 4), i, i + 1);
    var s4 := BothFinish(c, s3, t, identity, i, i + 1);
    ArrivesTrans(c, s, s1, s2);
    ArrivesTrans(c, s, s2, s3);
    ArrivesTrans(c, s, s3, s4);
  }

  // ---------------------------------------------------------------- what a browser can read

  /** A session cookie is the session of one of the browser's own callbacks. */
  ghost predicate OwnSession(s: System, b: Browser) {
    JarOf(s, b).session.Some? ==>
      exists id | id in s.sessions && id in s.callbacks ::
        s.callbacks[id].browser == b && s.sessions[id].session == JarOf(s, b).session.value
  }

  ghost predicate OwnSessions(s: System) {
    forall b :: OwnSession(s, b)
  }

  lemma OwnSessionStays(s: System, s': System, b: Browser)
    requires OwnSession(s, b) && Grown(s, s') && JarOf(s', b).session == JarOf(s, b).session
    ensures OwnSession(s', b)
  {
    if JarOf(s, b).session.Some? {
      var id :| id in s.sessions && id in s.callbacks && s.callbacks[id].browser == b && s.sessions[id].session == JarOf(s, b).session.value;
      assert id in s'.sessions && id in s'.callbacks && s'.callbacks[id].browser == b;
    }
  }

  /** Only a finishing callback sets a session cookie, in its own browser. */
  lemma EffectOnSessions(c: Config, mentioned: set<Value>, s: System, a: Action, b: Browser)
    ensures var s' := Effect(c, mentioned, s, a);
            JarOf(s', b).session == JarOf(s, b).session
            || (a.Finish? && a.id in s.callbacks && s.callbacks[a.id].browser == b && a.id in s'.callbacks && s'.callbacks[a.id].browser == b
                && a.id in s'.sessions && JarOf(s', b).session == Some(s'.sessions[a.id].session))
  {
    match a
    case Finish(id) => if id in s.callbacks && s.callbacks[id].stage.Answered? { FinishOnSessions(c, s, id, b); }
    case Abandon(id) => if id in s.callbacks { FailedOnly(s, id); }
    case Exchange(id, signs) => if id in s.callbacks { ExchangedOnly(c, s, id, signs); }
    case Foreign(request, signs) => AnsweringOnly(c, s, request, None, signs);
    case LogIn(_, _, _, _, _) =>
    case Begin(_, _, _, _) =>
    case Post(_, _, _) =>
    case Tick(_) =>
  }

  lemma FinishOnSessions(c: Config, s: System, id: Id, b: Browser)
    requires id in s.callbacks && s.callbacks[id].stage.Answered?
    ensures var s' := Finished(c, s, id);
            JarOf(s', b).session == JarOf(s, b).session
            || (s.callbacks[id].browser == b && id in s'.callbacks && s'.callbacks[id].browser == b
                && id in s'.sessions && JarOf(s', b).session == Some(s'.sessions[id].session))
  {
    FailedOnly(s, id);
  }

  lemma StepKeepsOwnSessions(c: Config, s: System, a: Action)
    requires Inv(c, s) && OwnSessions(s)
    ensures OwnSessions(Step(c, s, a))
  {
    var s' := Step(c, s, a);
    StepKeepsInv(c, s, a);
    forall b ensures OwnSession(s', b) {
      EffectOnSessions(c, s.mentioned, Noted(s, a), a, b);
      if JarOf(s', b).session == JarOf(s, b).session {
        OwnSessionStays(s, s', b);
      }
    }
  }

  lemma {:induction false} RunKeepsOwnSessions(c: Config, s: System, actions: seq<Action>)
    requires Inv(c, s) && OwnSessions(s)
    ensures OwnSessions(Run(c, s, actions))
    decreases |actions|
  {
    if actions == [] {
    } else {
      StepKeepsInv(c, s, actions[0]);
      StepKeepsOwnSessions(c, s, actions[0]);
      RunKeepsOwnSessions(c, Step(c, s, actions[0]), actions[1..]);
    }
  }

  /** A session that a browser can read was set in that browser, less than an hour ago, by a callback that
      agrees with its login, its identity and its code. */
  lemma ReadsAreOwn(c: Config, s: System, b: Browser, now: int)
    requires Reachable(c, s) && Readable(JarOf(s, b).session, now).Some?
    ensures exists id | id in s.sessions ::
              && Agrees(c, s, id) && s.callbacks[id].browser == b && Readable(JarOf(s, b).session, now) == Some(s.sessions[id].session)
              && now < s.sessions[id].at + 3_600_000
  {
    var actions: seq<Action> :| s == Run(c, START, actions);
    RunKeepsOwnSessions(c, START, actions);
    assert OwnSession(s, b);
    var id :| id in s.sessions && id in s.callbacks && s.callbacks[id].browser == b && s.sessions[id].session == JarOf(s, b).session.value;
    SessionsAgree(c, s, id);
  }
}
