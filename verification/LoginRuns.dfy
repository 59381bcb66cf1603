/**
 What the login protocol promises over whole runs: sessions agree with the logins, identities and
 codes they rest on, and a login nobody interferes with succeeds.
 */
module LoginRuns {
  import opened Wrappers
  import opened AuthorizationServer
  import opened WebLogin
  import opened LoginProtocol

  lemma {:induction false} RunOn(c: Config, s: System, before: seq<Action>, after: seq<Action>)
    ensures Run(c, s, before + after) == Run(c, Run(c, s, before), after)
    decreases |before|
  {
    if before == [] {
      assert before + after == after;
    } else {
      assert (before + after)[0] == before[0] && (before + after)[1..] == before[1..] + after;
      RunOn(c, Step(c, s, before[0]), before[1..], after);
    }
  }

  ghost predicate Reachable(c: Config, s: System) {
    exists actions: seq<Action> :: s == Run(c, START, actions)
  }

  lemma ReachableInv(c: Config, s: System)
    requires Reachable(c, s)
    ensures Inv(c, s)
  {
    var actions: seq<Action> :| s == Run(c, START, actions);
    RunKeepsInv(c, START, actions);
  }

  lemma ReachableRun(c: Config, s: System, more: seq<Action>)
    requires Reachable(c, s)
    ensures Reachable(c, Run(c, s, more))
  {
    var actions: seq<Action> :| s == Run(c, START, actions);
    RunOn(c, START, actions, more);
  }

  lemma ReachableStep(c: Config, s: System, a: Action)
    requires Reachable(c, s)
    ensures Reachable(c, Step(c, s, a))
  {
    ReachableRun(c, s, [a]);
    assert [a][1..] == [];
    assert Run(c, Step(c, s, a), []) == Step(c, s, a);
  }

  // ---------------------------------------------------------------- safety of every run

  /** End-to-end agreement: in every run each session rests on a login in its own browser, an identity
      posted for that login's challenge and nonce after it and at most two minutes before the code was
      redeemed, and a redemption by its own callback; no other login's verifier meets that challenge. */
  lemma SessionsAgree(c: Config, s: System, id: Id)
    requires Reachable(c, s) && id in s.sessions
    ensures Agrees(c, s, id)
    ensures forall v | v in s.logins && Digest(s.logins[v].transaction.verifier) == s.posts[s.callbacks[id].code].challenge ::
              v == s.callbacks[id].transaction.state
  {
    ReachableInv(c, s);
  }

  /** No code yields two sessions. */
  lemma OneSessionPerCode(c: Config, s: System, i: Id, j: Id)
    requires Reachable(c, s) && i in s.sessions && j in s.sessions && i in s.callbacks && j in s.callbacks
    requires s.callbacks[i].code == s.callbacks[j].code
    ensures i == j
  {
    ReachableInv(c, s);
    assert Agrees(c, s, i) && Agrees(c, s, j);
  }

  /** Nor does a transaction, unless its callbacks overlapped. */
  lemma OneSessionPerTransaction(c: Config, s: System, i: Id, j: Id)
    requires Reachable(c, s) && i in s.sessions && j in s.sessions && i in s.callbacks && j in s.callbacks
    requires i != j && s.callbacks[i].transaction == s.callbacks[j].transaction
    ensures s.callbacks[i].began < s.sessions[j].ended && s.callbacks[j].began < s.sessions[i].ended
  {
    ReachableInv(c, s);
  }

  /** The records these claims read are history: no later step changes one. */
  lemma HistoryStands(c: Config, s: System, after: seq<Action>)
    requires Reachable(c, s)
    ensures Grown(s, Run(c, s, after))
  {
    ReachableInv(c, s);
    RunKeepsInv(c, s, after);
  }

  // ---------------------------------------------------------------- one browser

  /** An authorization request is posted only by the browser that was sent it. */
  ghost predicate Private(s: System, a: Action) {
    a.Post? ==>
      forall v | v in s.logins && s.logins[v].transaction.nonce == a.form.nonce :: s.logins[v].browser == a.browser
  }

  ghost predicate PrivateRun(c: Config, s: System, actions: seq<Action>)
    decreases |actions|
  {
    actions != [] ==> Private(s, actions[0]) && PrivateRun(c, Step(c, s, actions[0]), actions[1..])
  }

  ghost predicate OwnPosts(s: System) {
    forall code, v | code in s.posts && v in s.logins && s.posts[code].nonce == s.logins[v].transaction.nonce ::
      s.posts[code].browser == s.logins[v].browser
  }

  // What each step leaves alone.

  lemma AnsweringOnly(c: Config, s: System, form: TokenForm, via: Option<Id>, signs: bool)
    ensures var s' := Answering(c, s, form, via, signs);
            && s' == s.(codes := s'.codes, redemptions := s'.redemptions)
            && s'.codes - {form.code} == s.codes - {form.code}
  {
    var codes := Redeemed(s.codes, c, form, s.clock, signs).0;
    assert codes - {form.code} == s.codes - {form.code};
  }

  lemma ExchangedOnly(c: Config, s: System, id: Id, signs: bool)
    requires id in s.callbacks
    ensures var s' := Exchanged(c, s, id, signs);
            && s' == s.(codes := s'.codes, redemptions := s'.redemptions, callbacks := s'.callbacks)
            && id in s'.callbacks && s'.callbacks == s.callbacks[id := s'.callbacks[id]]
            && s'.codes - {s.callbacks[id].code} == s.codes - {s.callbacks[id].code}
  {
    var k := s.callbacks[id];
    AnsweringOnly(c, s, ExchangeFor(c, k.code, k.transaction.verifier), Some(id), signs);
  }

  lemma FailedOnly(s: System, id: Id)
    requires id in s.callbacks
    ensures var s' := Failed(s, id);
            var b := s.callbacks[id].browser;
            && s' == s.(jars := s'.jars, callbacks := s'.callbacks)
            && s'.callbacks == s.callbacks[id := s.callbacks[id].(stage := Ended)]
            && s'.jars == s.jars[b := Cookies(None, JarOf(s, b).session)]
  {
  }

  lemma FinishedOnly(c: Config, s: System, id: Id)
    requires id in s.callbacks && s.callbacks[id].stage.Answered?
    ensures var s' := Finished(c, s, id);
            var b := s.callbacks[id].browser;
            && s' == s.(jars := s'.jars, callbacks := s'.callbacks, sessions := s'.sessions)
            && s'.callbacks == s.callbacks[id := s.callbacks[id].(stage := Ended)]
            && s'.jars == s.jars[b := JarOf(s', b)]
  {
    FailedOnly(s, id);
  }

  lemma LogInKeepsOwnPosts(s: System, b: Browser, t: Transaction)
    requires OwnPosts(s) && Unused(s, t.nonce)
    ensures OwnPosts(LoggedIn(s, b, t))
  {
  }

  lemma PostKeepsOwnPosts(c: Config, s: System, a: Action)
    requires a.Post? && OwnPosts(s) && Private(s, a)
    ensures OwnPosts(Posted(c, s, a.browser, a.form, a.code))
  {
  }

  lemma OtherKeepsPosts(c: Config, mentioned: set<Value>, s: System, a: Action)
    requires !a.LogIn? && !a.Post?
    ensures var s' := Effect(c, mentioned, s, a); s'.posts == s.posts && s'.logins == s.logins
  {
    match a
    case Exchange(id, signs) => if id in s.callbacks { ExchangedOnly(c, s, id, signs); }
    case Foreign(request, signs) => AnsweringOnly(c, s, request, None, signs);
    case Finish(id) => if id in s.callbacks && s.callbacks[id].stage.Answered? { FinishedOnly(c, s, id); }
    case Abandon(id) => if id in s.callbacks { FailedOnly(s, id); }
    case _ =>
  }

  lemma EffectKeepsOwnPosts(c: Config, mentioned: set<Value>, s: System, a: Action)
    requires OwnPosts(s) && Private(s, a) && (a.LogIn? && a.nonce !in mentioned ==> Unused(s, a.nonce))
    ensures OwnPosts(Effect(c, mentioned, s, a))
  {
    match a
    case LogIn(b, state, nonce, verifier, returnTo) =>
      if nonce !in mentioned { LogInKeepsOwnPosts(s, b, Drawn(state, nonce, verifier, returnTo, s.clock)); }
    case Post(_, _, _) => PostKeepsOwnPosts(c, s, a);
    case _ => OtherKeepsPosts(c, mentioned, s, a);
  }

  lemma StepKeepsOwnPosts(c: Config, s: System, a: Action)
    requires Inv(c, s) && OwnPosts(s) && Private(s, a)
    ensures OwnPosts(Step(c, s, a))
  {
    if a.LogIn? && a.nonce !in s.mentioned {
      FreshIsUnused(s, a.nonce);
    }
    EffectKeepsOwnPosts(c, s.mentioned, Noted(s, a), a);
  }

  lemma {:induction false} RunKeepsOwnPosts(c: Config, s: System, actions: seq<Action>)
    requires Inv(c, s) && OwnPosts(s) && PrivateRun(c, s, actions)
    ensures OwnPosts(Run(c, s, actions))
    decreases |actions|
  {
    if actions == [] {
    } else {
      StepKeepsInv(c, s, actions[0]);
      StepKeepsOwnPosts(c, s, actions[0]);
      RunKeepsOwnPosts(c, Step(c, s, actions[0]), actions[1..]);
    }
  }

  /** Then the identity a browser is signed in as was chosen in that browser. */
  lemma SessionsStayHome(c: Config, actions: seq<Action>, id: Id)
    requires PrivateRun(c, START, actions) && id in Run(c, START, actions).sessions
    ensures var s := Run(c, START, actions);
            && id in s.callbacks && s.callbacks[id].code in s.posts
            && s.posts[s.callbacks[id].code].browser == s.callbacks[id].browser
            && s.posts[s.callbacks[id].code].subject == s.sessions[id].session.subject
  {
    RunKeepsInv(c, START, actions);
    RunKeepsOwnPosts(c, START, actions);
    assert Agrees(c, Run(c, START, actions), id);
  }

  // ---------------------------------------------------------------- an undisturbed login

  /** A step that leaves a browser's cookies, a code and a callback alone. */
  ghost predicate Elsewhere(s: System, a: Action, b: Browser, code: Value, id: Id) {
    && (a.LogIn? ==> a.browser != b)
    && (a.Begin? ==> a.browser != b && a.id != id)
    && (a.Finish? || a.Abandon? ==> a.id != id && (a.id in s.callbacks ==> s.callbacks[a.id].browser != b))
    && (a.Exchange? ==> a.id != id && (a.id in s.callbacks ==> s.callbacks[a.id].code != code))
    && (a.Foreign? ==> a.request.code != code)
  }

  ghost predicate ElsewhereRun(c: Config, s: System, actions: seq<Action>, b: Browser, code: Value, id: Id)
    decreases |actions|
  {
    actions != [] ==> Elsewhere(s, actions[0], b, code, id) && ElsewhereRun(c, Step(c, s, actions[0]), actions[1..], b, code, id)
  }

  ghost predicate Same(s: System, s': System, b: Browser, code: Value, id: Id) {
    && JarOf(s', b) == JarOf(s, b)
    && (code in s.codes ==> code in s'.codes && s'.codes[code] == s.codes[code])
    && (id in s'.callbacks <==> id in s.callbacks)
    && (id in s.callbacks ==> s'.callbacks[id] == s.callbacks[id])
  }

  lemma PostIsElsewhere(c: Config, s: System, other: Browser, form: AuthorizeForm, drawn: Value, b: Browser, code: Value, id: Id)
    requires code in s.codes ==> drawn != code
    ensures Same(s, Posted(c, s, other, form, drawn), b, code, id)
  {
  }

  lemma LogInIsElsewhere(s: System, other: Browser, t: Transaction, b: Browser, code: Value, id: Id)
    requires other != b
    ensures Same(s, LoggedIn(s, other, t), b, code, id)
  {
  }

  lemma StartIsElsewhere(s: System, i: Id, other: Browser, t: Transaction, spent: Value, b: Browser, code: Value, id: Id)
    requires i != id
    ensures Same(s, Started(s, i, other, t, spent), b, code, id)
  {
  }

  lemma ClearIsElsewhere(s: System, other: Browser, b: Browser, code: Value, id: Id)
    requires other != b
    ensures Same(s, Cleared(s, other), b, code, id)
  {
  }

  lemma OtherCodeIsElsewhere(s: System, s': System, spent: Value, code: Value)
    requires s'.codes - {spent} == s.codes - {spent} && spent != code
    ensures code in s.codes ==> code in s'.codes && s'.codes[code] == s.codes[code]
  {
    assert code in s.codes ==> code in s.codes - {spent};
    assert code in s'.codes - {spent} ==> (s'.codes - {spent})[code] == s'.codes[code];
  }

  lemma AnsweringIsElsewhere(c: Config, s: System, form: TokenForm, via: Option<Id>, signs: bool, b: Browser, code: Value, id: Id)
    requires form.code != code
    ensures Same(s, Answering(c, s, form, via, signs), b, code, id)
  {
    var s' := Answering(c, s, form, via, signs);
    AnsweringOnly(c, s, form, via, signs);
    OtherCodeIsElsewhere(s, s', form.code, code);
  }

  lemma ExchangeIsElsewhere(c: Config, s: System, i: Id, signs: bool, b: Browser, code: Value, id: Id)
    requires i in s.callbacks && i != id && s.callbacks[i].code != code
    ensures Same(s, Exchanged(c, s, i, signs), b, code, id)
  {
    var s' := Exchanged(c, s, i, signs);
    ExchangedOnly(c, s, i, signs);
    OtherCodeIsElsewhere(s, s', s.callbacks[i].code, code);
  }

  lemma FailureIsElsewhere(s: System, i: Id, b: Browser, code: Value, id: Id)
    requires i in s.callbacks && i != id && s.callbacks[i].browser != b
    ensures Same(s, Failed(s, i), b, code, id)
  {
    FailedOnly(s, i);
  }

  lemma FinishIsElsewhere(c: Config, s: System, i: Id, b: Browser, code: Value, id: Id)
    requires i in s.callbacks && s.callbacks[i].stage.Answered? && i != id && s.callbacks[i].browser != b
    ensures Same(s, Finished(c, s, i), b, code, id)
  {
    FinishedOnly(c, s, i);
  }

  lemma EffectIsElsewhere(c: Config, mentioned: set<Value>, s: System, a: Action, b: Browser, code: Value, id: Id)
    requires Elsewhere(s, a, b, code, id) && (code in s.codes ==> code in mentioned)
    ensures Same(s, Effect(c, mentioned, s, a), b, code, id)
  {
    match a
    case Tick(_) =>
    case LogIn(other, state, nonce, verifier, returnTo) =>
      LogInIsElsewhere(s, other, Drawn(state, nonce, verifier, returnTo, s.clock), b, code, id);
    case Post(other, form, drawn) => if drawn !in mentioned { PostIsElsewhere(c, s, other, form, drawn, b, code, id); }
    case Begin(i, other, spent, _) =>
      if JarOf(s, other).transaction.Some? { StartIsElsewhere(s, i, other, JarOf(s, other).transaction.value, spent, b, code, id); }
      ClearIsElsewhere(s, other, b, code, id);
    case Exchange(i, signs) => if i in s.callbacks { ExchangeIsElsewhere(c, s, i, signs, b, code, id); }
    case Foreign(request, signs) => AnsweringIsElsewhere(c, s, request, None, signs, b, code, id);
    case Finish(i) => if i in s.callbacks && s.callbacks[i].stage.Answered? { FinishIsElsewhere(c, s, i, b, code, id); }
    case Abandon(i) => if i in s.callbacks { FailureIsElsewhere(s, i, b, code, id); }
  }

  lemma CodesAreMentioned(c: Config, s: System, code: Value)
    requires PostsOk(s) && CodesOk(c, s) && code in s.codes
    ensures code in s.mentioned
  {
    assert CodeOk(c, s, code) && PostOk(s, code);
  }

  lemma ElsewhereStep(c: Config, s: System, a: Action, b: Browser, code: Value, id: Id)
    requires Inv(c, s) && Elsewhere(s, a, b, code, id)
    ensures Same(s, Step(c, s, a), b, code, id)
  {
    if code in s.codes {
      CodesAreMentioned(c, s, code);
    }
    var s1 := Noted(s, a);
    assert Same(s, s1, b, code, id);
    EffectIsElsewhere(c, s.mentioned, s1, a, b, code, id);
    SameTrans(s, s1, Step(c, s, a), b, code, id);
  }

  lemma SameTrans(s: System, s1: System, s2: System, b: Browser, code: Value, id: Id)
    requires Same(s, s1, b, code, id) && Same(s1, s2, b, code, id)
    ensures Same(s, s2, b, code, id)
  {
  }

  lemma {:induction false} ElsewhereRunSame(c: Config, s: System, actions: seq<Action>, b: Browser, code: Value, id: Id)
    requires Inv(c, s) && ElsewhereRun(c, s, actions, b, code, id)
    ensures Same(s, Run(c, s, actions), b, code, id)
    decreases |actions|
  {
    if actions == [] {
    } else {
      StepKeepsInv(c, s, actions[0]);
      ElsewhereStep(c, s, actions[0], b, code, id);
      ElsewhereRunSame(c, Step(c, s, actions[0]), actions[1..], b, code, id);
    }
  }

  /** A step, and where other people's steps lead after it. */
  ghost predicate Leads(c: Config, s: System, a: Action, s': System, b: Browser, code: Value, id: Id) {
    exists actions: seq<Action> ::
      ElsewhereRun(c, Step(c, s, a), actions, b, code, id) && s' == Run(c, Step(c, s, a), actions)
  }

  lemma LeadsSame(c: Config, s: System, a: Action, s': System, b: Browser, code: Value, id: Id)
    requires Reachable(c, s) && Leads(c, s, a, s', b, code, id)
    ensures Same(Step(c, s, a), s', b, code, id) && Reachable(c, s')
  {
    var s1 := Step(c, s, a);
    var actions: seq<Action> :| ElsewhereRun(c, s1, actions, b, code, id) && s' == Run(c, s1, actions);
    ReachableStep(c, s, a);
    ReachableInv(c, s1);
    ReachableRun(c, s1, actions);
    ElsewhereRunSame(c, s1, actions, b, code, id);
  }

  // The states around the five steps of a login.
  datatype Trail = Trail(start: System, loggedIn: System, posted: System, begun: System, exchanged: System, end: System)

  /** The five steps of a login in one browser, with anything happening elsewhere in between. */
  ghost predicate Undisturbed(c: Config, s: Trail, b: Browser, t: Transaction, identity: string, code: Value, id: Id) {
    && Reachable(c, s.start)
    && (var login := LogInOf(b, t);
        && FreshLogin(s.start.mentioned, login) && t == Drawn(t.state, t.nonce, t.verifier, t.returnTo, s.start.clock)
        && Leads(c, s.start, login, s.loggedIn, b, code, id))
    && Fresh(s.loggedIn.mentioned, code) && identity in IDENTITIES
    && Leads(c, s.loggedIn, Post(b, RequestFor(c, t, identity), code), s.posted, b, code, id)
    && id !in s.posted.callbacks
    && Leads(c, s.posted, Begin(id, b, code, t.state), s.begun, b, code, id)
    && Leads(c, s.begun, Exchange(id, true), s.exchanged, b, code, id)
    && s.end == Step(c, s.exchanged, Finish(id))
  }

  /** It signs the browser in, as the identity chosen, exactly when the callback came within the
      transaction's life, the code was redeemed within its own, and the tokens were still good. */
  lemma UndisturbedLogin(c: Config, s: Trail, b: Browser, t: Transaction, identity: string, code: Value, id: Id)
    requires Undisturbed(c, s, b, t, identity, code, id)
    ensures id in s.end.sessions <==>
              && s.posted.clock < 1000 * (s.start.clock / 1000 + 600)
              && s.begun.clock <= s.loggedIn.clock + 120_000
              && s.exchanged.clock / 1000 < s.begun.clock / 1000 + 3600
    ensures id in s.end.sessions ==>
              s.end.sessions[id].session.subject == identity && JarOf(s.end, b).session == Some(s.end.sessions[id].session)
  {
    UpToPost(c, s.start, s.loggedIn, s.posted, b, t, identity, code, id);
    if Expired(t.expiresAt, s.posted.clock) {
      LateLogin(c, s.posted, s.begun, s.exchanged, b, t, code, id);
    } else {
      TimelyLogin(c, s.posted, s.begun, s.exchanged, b, t, identity, s.loggedIn.clock, code, id);
    }
  }

  lemma UpToPost(c: Config, s: System, s1: System, s2: System, b: Browser, t: Transaction, identity: string, code: Value, id: Id)
    requires Reachable(c, s) && FreshLogin(s.mentioned, LogInOf(b, t)) && t == Drawn(t.state, t.nonce, t.verifier, t.returnTo, s.clock)
    requires Leads(c, s, LogInOf(b, t), s1, b, code, id) && Fresh(s1.mentioned, code) && identity in IDENTITIES
    requires Leads(c, s1, Post(b, RequestFor(c, t, identity), code), s2, b, code, id)
    ensures Reachable(c, s2) && JarOf(s2, b).transaction == Some(t)
    ensures code in s2.codes && s2.codes[code] == GrantFor(c, t, identity, s1.clock)
  {
    AfterLogin(c, s, s1, b, t, code, id);
    AfterPost(c, s1, s2, b, t, identity, code, id);
  }

  /** The callback came too late. */
  lemma LateLogin(c: Config, s: System, s1: System, s2: System, b: Browser, t: Transaction, code: Value, id: Id)
    requires Reachable(c, s) && JarOf(s, b).transaction == Some(t) && Expired(t.expiresAt, s.clock) && id !in s.callbacks
    requires Leads(c, s, Begin(id, b, code, t.state), s1, b, code, id) && Leads(c, s1, Exchange(id, true), s2, b, code, id)
    ensures id !in Step(c, s2, Finish(id)).sessions
  {
    AfterLateBegin(c, s, s1, s2, b, t, code, id);
    NoSession(c, s2, id);
  }

  /** The callback came in time. */
  lemma TimelyLogin(c: Config, s: System, s1: System, s2: System, b: Browser, t: Transaction, identity: string, posted: int, code: Value, id: Id)
    requires Reachable(c, s) && JarOf(s, b).transaction == Some(t) && !Expired(t.expiresAt, s.clock) && identity in IDENTITIES
    requires code in s.codes && s.codes[code] == GrantFor(c, t, identity, posted) && code.Random? && id !in s.callbacks
    requires Leads(c, s, Begin(id, b, code, t.state), s1, b, code, id) && Leads(c, s1, Exchange(id, true), s2, b, code, id)
    ensures var s' := Step(c, s2, Finish(id));
            && (id in s'.sessions <==> s1.clock <= posted + CODE_LIFETIME && Seconds(s2.clock) < Seconds(s1.clock) + 3600)
            && (id in s'.sessions ==>
                  s'.sessions[id].session.subject == identity && JarOf(s', b).session == Some(s'.sessions[id].session))
  {
    AfterBegin(c, s, s1, b, t, code, id);
    AfterExchange(c, s1, s2, b, t, identity, posted, code, id);
    NoSession(c, s2, id);
    AfterFinish(c, s2, b, t, identity, posted, s1.clock, id);
  }

  function LogInOf(b: Browser, t: Transaction): Action {
    LogIn(b, t.state, t.nonce, t.verifier, t.returnTo)
  }

  lemma AfterLogin(c: Config, s: System, s': System, b: Browser, t: Transaction, code: Value, id: Id)
    requires Reachable(c, s) && t == Drawn(t.state, t.nonce, t.verifier, t.returnTo, s.clock)
    requires FreshLogin(s.mentioned, LogInOf(b, t)) && Leads(c, s, LogInOf(b, t), s', b, code, id)
    ensures Reachable(c, s') && JarOf(s', b).transaction == Some(t)
  {
    LeadsSame(c, s, LogInOf(b, t), s', b, code, id);
  }

  function GrantFor(c: Config, t: Transaction, identity: string, posted: int): Authorization {
    Authorization(identity, c.redirectUri, Digest(t.verifier), t.nonce, posted + CODE_LIFETIME)
  }

  lemma AfterPost(c: Config, s: System, s': System, b: Browser, t: Transaction, identity: string, code: Value, id: Id)
    requires Reachable(c, s) && JarOf(s, b).transaction == Some(t) && Fresh(s.mentioned, code) && identity in IDENTITIES
    requires t.state.Random? && t.nonce.Random?
    requires Leads(c, s, Post(b, RequestFor(c, t, identity), code), s', b, code, id)
    ensures Reachable(c, s') && JarOf(s', b).transaction == Some(t)
    ensures code in s'.codes && s'.codes[code] == GrantFor(c, t, identity, s.clock)
  {
    var a := Post(b, RequestFor(c, t, identity), code);
    LeadsSame(c, s, a, s', b, code, id);
    PostIssues(c, Noted(s, a), b, t, identity, code);
  }

  lemma PostIssues(c: Config, s: System, b: Browser, t: Transaction, identity: string, code: Value)
    requires t.state.Random? && t.nonce.Random? && identity in IDENTITIES
    ensures var s' := Posted(c, s, b, RequestFor(c, t, identity), code);
            s'.codes == s.codes[code := GrantFor(c, t, identity, s.clock)] && s'.jars == s.jars
  {
    assert Acceptable(c, RequestFor(c, t, identity));
  }

  lemma AfterLateBegin(c: Config, s: System, s1: System, s2: System, b: Browser, t: Transaction, code: Value, id: Id)
    requires Reachable(c, s) && JarOf(s, b).transaction == Some(t) && Expired(t.expiresAt, s.clock) && id !in s.callbacks
    requires Leads(c, s, Begin(id, b, code, t.state), s1, b, code, id)
    requires Leads(c, s1, Exchange(id, true), s2, b, code, id)
    ensures Reachable(c, s2) && id !in s2.callbacks
  {
    LeadsSame(c, s, Begin(id, b, code, t.state), s1, b, code, id);
    assert id !in s1.callbacks;
    LeadsSame(c, s1, Exchange(id, true), s2, b, code, id);
  }

  lemma AfterBegin(c: Config, s: System, s': System, b: Browser, t: Transaction, code: Value, id: Id)
    requires Reachable(c, s) && JarOf(s, b).transaction == Some(t) && !Expired(t.expiresAt, s.clock)
    requires id !in s.callbacks && code in s.codes && code.Random?
    requires Leads(c, s, Begin(id, b, code, t.state), s', b, code, id)
    ensures Reachable(c, s') && code in s'.codes && s'.codes[code] == s.codes[code]
    ensures id in s'.callbacks && s'.callbacks[id] == Pending(b, t, code, s.clock, s.step + 1, Exchanging)
  {
    LeadsSame(c, s, Begin(id, b, code, t.state), s', b, code, id);
  }

  /** The answer a redemption within the code's life gets, and any other. */
  function AnswerTo(c: Config, t: Transaction, identity: string, posted: int, now: int): TokenReply {
    if now <= posted + CODE_LIFETIME then TokensFor(c, GrantFor(c, t, identity, posted), now) else InvalidGrant
  }

  lemma AfterExchange(c: Config, s: System, s': System, b: Browser, t: Transaction, identity: string, posted: int, code: Value, id: Id)
    requires Reachable(c, s) && code in s.codes && s.codes[code] == GrantFor(c, t, identity, posted)
    requires id in s.callbacks && s.callbacks[id] == Pending(b, t, code, s.callbacks[id].at, s.callbacks[id].began, Exchanging)
    requires Leads(c, s, Exchange(id, true), s', b, code, id)
    ensures Reachable(c, s') && id in s'.callbacks
    ensures s'.callbacks[id] == s.callbacks[id].(stage := Answered(AnswerTo(c, t, identity, posted, s.clock)))
  {
    LeadsSame(c, s, Exchange(id, true), s', b, code, id);
    ExchangeAnswers(c, Noted(s, Exchange(id, true)), id, true);
  }

  lemma ExchangeAnswers(c: Config, s: System, id: Id, signs: bool)
    requires id in s.callbacks
    ensures var k := s.callbacks[id];
            var (codes, reply) := Redeemed(s.codes, c, ExchangeFor(c, k.code, k.transaction.verifier), s.clock, signs);
            var s' := Exchanged(c, s, id, signs);
            s'.codes == codes && s'.jars == s.jars && s'.callbacks == s.callbacks[id := k.(stage := Answered(reply))]
  {
    ExchangedOnly(c, s, id, signs);
  }

  lemma NoSession(c: Config, s: System, id: Id)
    requires Reachable(c, s) && (id in s.callbacks ==> !s.callbacks[id].stage.Ended?)
    ensures id !in s.sessions
  {
    ReachableInv(c, s);
    assert id in s.sessions ==> Agrees(c, s, id);
  }

  lemma AfterFinish(c: Config, s: System, b: Browser, t: Transaction, identity: string, posted: int, redeemed: int, id: Id)
    requires identity in IDENTITIES && id in s.callbacks && id !in s.sessions
    requires s.callbacks[id].browser == b && s.callbacks[id].transaction == t
    requires s.callbacks[id].stage == Answered(AnswerTo(c, t, identity, posted, redeemed))
    ensures var s' := Step(c, s, Finish(id));
            && (id in s'.sessions <==> redeemed <= posted + CODE_LIFETIME && Seconds(s.clock) < Seconds(redeemed) + 3600)
            && (id in s'.sessions ==>
                  s'.sessions[id].session.subject == identity && JarOf(s', b).session == Some(s'.sessions[id].session))
  {
    BearerIsBearer();
  }

  lemma BearerIsBearer()
    ensures LowerCase("Bearer") == "bearer"
  {
  }

  // ---------------------------------------------------------------- a login is always possible

  lemma {:induction false} FreshAbove(mentioned: set<Value>) returns (n: nat)
    ensures forall k: nat | k >= n :: Random(k) !in mentioned
    decreases mentioned
  {
    n := 0;
    if v :| v in mentioned {
      n := FreshAbove(mentioned - {v});
      n := if v.Random? && v.draw >= n then v.draw + 1 else n;
      assert forall k: nat | k >= n :: Random(k) !in mentioned - {v} && Random(k) != v;
    }
  }

  lemma {:induction false} UnusedId(ids: set<Id>) returns (id: Id)
    ensures forall i | i in ids :: i < id
    decreases ids
  {
    id := 0;
    if i :| i in ids {
      id := UnusedId(ids - {i});
      id := if i >= id then i + 1 else id;
      assert forall j | j in ids :: j == i || j in ids - {i};
    }
  }

  lemma LeadsAtOnce(c: Config, s: System, a: Action, b: Browser, code: Value, id: Id)
    ensures Leads(c, s, a, Step(c, s, a), b, code, id)
  {
    var none: seq<Action> := [];
    assert ElsewhereRun(c, Step(c, s, a), none, b, code, id) && Step(c, s, a) == Run(c, Step(c, s, a), none);
  }

  lemma LogInAtOnce(c: Config, s: System, b: Browser, t: Transaction, code: Value, id: Id) returns (s': System)
    ensures Leads(c, s, LogInOf(b, t), s', b, code, id) && s'.clock == s.clock && s'.callbacks == s.callbacks
    ensures s'.mentioned == s.mentioned + {t.state, t.nonce, t.verifier}
  {
    s' := Step(c, s, LogInOf(b, t));
    LeadsAtOnce(c, s, LogInOf(b, t), b, code, id);
  }

  lemma PostAtOnce(c: Config, s: System, b: Browser, t: Transaction, identity: string, code: Value, id: Id) returns (s': System)
    ensures Leads(c, s, Post(b, RequestFor(c, t, identity), code), s', b, code, id)
    ensures s'.clock == s.clock && s'.callbacks == s.callbacks
  {
    s' := Step(c, s, Post(b, RequestFor(c, t, identity), code));
    LeadsAtOnce(c, s, Post(b, RequestFor(c, t, identity), code), b, code, id);
  }

  lemma BeginAtOnce(c: Config, s: System, b: Browser, t: Transaction, code: Value, id: Id) returns (s': System)
    requires id !in s.callbacks
    ensures Leads(c, s, Begin(id, b, code, t.state), s', b, code, id) && s'.clock == s.clock
  {
    s' := Step(c, s, Begin(id, b, code, t.state));
    BeginOutcome(c, s, id, b, code, t.state);
    LeadsAtOnce(c, s, Begin(id, b, code, t.state), b, code, id);
  }

  lemma ExchangeAtOnce(c: Config, s: System, b: Browser, code: Value, id: Id) returns (s': System)
    ensures Leads(c, s, Exchange(id, true), s', b, code, id) && s'.clock == s.clock
  {
    s' := Step(c, s, Exchange(id, true));
    if id in s.callbacks { ExchangedOnly(c, Noted(s, Exchange(id, true)), id, true); }
    LeadsAtOnce(c, s, Exchange(id, true), b, code, id);
  }

  lemma StepsAtOnce(c: Config, s: System, b: Browser, identity: string) returns (trail: Trail, t: Transaction, code: Value, id: Id)
    requires Reachable(c, s) && identity in IDENTITIES
    ensures Undisturbed(c, trail, b, t, identity, code, id) && trail.start == s
    ensures s.clock == trail.loggedIn.clock == trail.posted.clock == trail.begun.clock == trail.exchanged.clock
  {
    var n := FreshAbove(s.mentioned);
    id := UnusedId(s.callbacks.Keys);
    code := Random(n + 3);
    t := Drawn(Random(n), Random(n + 1), Random(n + 2), "/", s.clock);
    var s1 := LogInAtOnce(c, s, b, t, code, id);
    assert FreshLogin(s.mentioned, LogInOf(b, t)) && Fresh(s1.mentioned, code);
    var s2 := PostAtOnce(c, s1, b, t, identity, code, id);
    var s3 := BeginAtOnce(c, s2, b, t, code, id);
    var s4 := ExchangeAtOnce(c, s3, b, code, id);
    trail := Trail(s, s1, s2, s3, s4, Step(c, s4, Finish(id)));
  }

  /** From every reachable state, whatever other logins are under way, any browser can sign in as any
      of the provider's identities. */
  lemma LoginCanSucceed(c: Config, s: System, b: Browser, identity: string)
    requires Reachable(c, s) && identity in IDENTITIES
    ensures exists trail: Trail, t: Transaction, code: Value, id: Id ::
              && Undisturbed(c, trail, b, t, identity, code, id) && trail.start == s
              && id in trail.end.sessions && trail.end.sessions[id].session.subject == identity
  {
    var trail, t, code, id := StepsAtOnce(c, s, b, identity);
    UndisturbedLogin(c, trail, b, t, identity, code, id);
  }

  // ---------------------------------------------------------------- the routes and the machine

  function RouteSteps(id: Id, b: Browser, code: Value, state: Value, d1: nat, d2: nat, signs: bool): seq<Action> {
    [Begin(id, b, code, state), Tick(d1)] + Rest(id, d2, signs)
  }

  function Rest(id: Id, d: nat, signs: bool): seq<Action> {
    [Exchange(id, signs), Tick(d), Finish(id)]
  }

  /** The callback route, run alone, is its three steps. */
  lemma CallbackIsItsSteps(c: Config, s: System, id: Id, b: Browser, code: Value, state: Value, d1: nat, d2: nat, signs: bool)
    requires id !in s.callbacks
    ensures var s' := Run(c, s, RouteSteps(id, b, code, state, d1, d2, signs));
            var (jar, codes, ok) := CallbackRun(c, JarOf(s, b), s.codes, code, state, true, s.clock, s.clock + d1, s.clock + d1 + d2, signs);
            JarOf(s', b) == jar && s'.codes == codes && (id in s'.sessions <==> ok || id in s.sessions)
  {
    var s1 := RouteBegins(c, s, id, b, code, state, d1, d2, signs);
    if MayExchange(Unexpired(JarOf(s, b).transaction, s.clock), code, state) {
      RestOfRoute(c, s, s1, id, b, code, state, d1, d2, signs);
    } else {
      NothingPending(c, s1, id, d2, signs);
    }
  }

  lemma RestOfRoute(c: Config, s: System, s1: System, id: Id, b: Browser, code: Value, state: Value, d1: nat, d2: nat, signs: bool)
    requires s1.clock == s.clock + d1 && Begun(s, s1, id, b, code, state)
    requires MayExchange(Unexpired(JarOf(s, b).transaction, s.clock), code, state)
    ensures var s' := Run(c, s1, Rest(id, d2, signs));
            var (jar, codes, ok) := CallbackRun(c, JarOf(s, b), s.codes, code, state, true, s.clock, s.clock + d1, s.clock + d1 + d2, signs);
            JarOf(s', b) == jar && s'.codes == codes && (id in s'.sessions <==> ok || id in s.sessions)
  {
    ExchangeThenFinish(c, s1, id, d2, signs);
  }

  /** The state once the transaction is taken, from which the rest goes on. */
  lemma RouteBegins(c: Config, s: System, id: Id, b: Browser, code: Value, state: Value, d1: nat, d2: nat, signs: bool) returns (s1: System)
    requires id !in s.callbacks
    ensures Run(c, s, RouteSteps(id, b, code, state, d1, d2, signs)) == Run(c, s1, Rest(id, d2, signs))
    ensures s1.clock == s.clock + d1 && Begun(s, s1, id, b, code, state)
  {
    var s0 := Step(c, s, Begin(id, b, code, state));
    s1 := Step(c, s0, Tick(d1));
    BeginOutcome(c, s, id, b, code, state);
    TickOutcome(c, s0, d1);
    RunFirst(c, s, Begin(id, b, code, state), [Tick(d1)] + Rest(id, d2, signs));
    RunFirst(c, s0, Tick(d1), Rest(id, d2, signs));
    assert RouteSteps(id, b, code, state, d1, d2, signs) == [Begin(id, b, code, state)] + ([Tick(d1)] + Rest(id, d2, signs));
  }

  ghost predicate Begun(s: System, s': System, id: Id, b: Browser, code: Value, state: Value) {
    var t := Unexpired(JarOf(s, b).transaction, s.clock);
    && s'.codes == s.codes && s'.sessions == s.sessions
    && (MayExchange(t, code, state) ==>
          && JarOf(s', b) == JarOf(s, b) && id in s'.callbacks
          && s'.callbacks[id] == Pending(b, t.value, code, s.clock, s.step + 1, Exchanging))
    && (!MayExchange(t, code, state) ==> id !in s'.callbacks && JarOf(s', b) == Cookies(None, JarOf(s, b).session))
  }

  lemma RunFirst(c: Config, s: System, a: Action, rest: seq<Action>)
    ensures Run(c, s, [a] + rest) == Run(c, Step(c, s, a), rest)
  {
    assert ([a] + rest)[1..] == rest;
  }

  lemma TickOutcome(c: Config, s: System, d: nat)
    ensures Step(c, s, Tick(d)) == s.(step := s.step + 1, clock := s.clock + d)
  {
  }

  lemma BeginOutcome(c: Config, s: System, id: Id, b: Browser, code: Value, state: Value)
    requires id !in s.callbacks
    ensures var s' := Step(c, s, Begin(id, b, code, state)); s'.clock == s.clock && Begun(s, s', id, b, code, state)
  {
    var a := Begin(id, b, code, state);
    var t := Unexpired(JarOf(s, b).transaction, s.clock);
    if MayExchange(t, code, state) {
      assert Step(c, s, a) == Started(Noted(s, a), id, b, t.value, code);
    } else {
      assert Step(c, s, a) == Cleared(Noted(s, a), b);
    }
  }

  lemma RunRest(c: Config, s: System, id: Id, d: nat, signs: bool)
    ensures Run(c, s, Rest(id, d, signs)) == Step(c, Step(c, Step(c, s, Exchange(id, signs)), Tick(d)), Finish(id))
  {
    var s1 := Step(c, s, Exchange(id, signs));
    var s2 := Step(c, s1, Tick(d));
    assert Rest(id, d, signs) == [Exchange(id, signs)] + ([Tick(d)] + ([Finish(id)] + []));
    RunFirst(c, s, Exchange(id, signs), [Tick(d)] + ([Finish(id)] + []));
    RunFirst(c, s1, Tick(d), [Finish(id)] + []);
    RunFirst(c, s2, Finish(id), []);
  }

  lemma NothingPending(c: Config, s: System, id: Id, d: nat, signs: bool)
    requires id !in s.callbacks
    ensures var s' := Run(c, s, Rest(id, d, signs)); s'.codes == s.codes && s'.jars == s.jars && s'.sessions == s.sessions
  {
    RunRest(c, s, id, d, signs);
    assert Step(c, s, Exchange(id, signs)) == Noted(s, Exchange(id, signs));
  }

  lemma ExchangeOutcome(c: Config, s: System, id: Id, signs: bool) returns (s': System)
    requires id in s.callbacks && s.callbacks[id].stage.Exchanging?
    ensures s' == Step(c, s, Exchange(id, signs)) && s'.clock == s.clock && s'.jars == s.jars && s'.sessions == s.sessions
    ensures var k := s.callbacks[id];
            var (codes, reply) := Redeemed(s.codes, c, ExchangeFor(c, k.code, k.transaction.verifier), s.clock, signs);
            s'.codes == codes && id in s'.callbacks && s'.callbacks[id] == k.(stage := Answered(reply))
  {
    s' := Step(c, s, Exchange(id, signs));
    ExchangedOnly(c, Noted(s, Exchange(id, signs)), id, signs);
    ExchangeAnswers(c, Noted(s, Exchange(id, signs)), id, signs);
  }

  lemma ExchangeThenFinish(c: Config, s: System, id: Id, d: nat, signs: bool)
    requires id in s.callbacks && s.callbacks[id].stage.Exchanging?
    ensures var k := s.callbacks[id];
            var s' := Run(c, s, Rest(id, d, signs));
            var (codes, reply) := Redeemed(s.codes, c, ExchangeFor(c, k.code, k.transaction.verifier), s.clock, signs);
            var session := SessionFrom(c, reply, k.transaction.nonce, s.clock + d);
            && s'.codes == codes && (id in s'.sessions <==> session.Some? || id in s.sessions)
            && JarOf(s', k.browser) == Cookies(None, if session.Some? then session else JarOf(s, k.browser).session)
  {
    var s1 := ExchangeOutcome(c, s, id, signs);
    RunRest(c, s, id, d, signs);
    TickOutcome(c, s1, d);
    FinishOutcome(c, Step(c, s1, Tick(d)), id);
  }

  lemma FinishOutcome(c: Config, s: System, id: Id)
    requires id in s.callbacks && s.callbacks[id].stage.Answered?
    ensures var k := s.callbacks[id];
            var s' := Step(c, s, Finish(id));
            var session := SessionFrom(c, k.stage.reply, k.transaction.nonce, s.clock);
            && s'.codes == s.codes && (id in s'.sessions <==> session.Some? || id in s.sessions)
            && JarOf(s', k.browser) == Cookies(None, if session.Some? then session else JarOf(s, k.browser).session)
  {
    FinishedOnly(c, Noted(s, Finish(id)), id);
  }
}
