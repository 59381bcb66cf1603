/**
 Any number of browsers logging in at once, as a state machine over the steps of the web routes and
 of the provider, with other clients of the token endpoint free to send anything.
 */
module LoginProtocol {
  import opened Wrappers
  import opened AuthorizationServer
  import opened WebLogin

  type Browser = nat
  type Id = nat

  datatype Stage = Exchanging | Answered(reply: TokenReply) | Ended

  // A callback request that has taken its transaction.
  datatype Pending = Pending(browser: Browser, transaction: Transaction, code: Value, at: int, began: nat, stage: Stage)

  // Records of what happened; `at` is a clock reading, `began` and `ended` count steps.
  datatype LoginRecord = LoginRecord(browser: Browser, transaction: Transaction, at: int)
  datatype PostRecord = PostRecord(browser: Browser, subject: string, challenge: Value, nonce: Value, at: int)
  datatype Redemption = Redemption(via: Option<Id>, verifier: Value, at: int)
  datatype SessionRecord = SessionRecord(session: Session, at: int, ended: nat)

  /** Logins are keyed by the state they drew, posts and redemptions by their code, sessions by the
      callback that set them. */
  datatype System = System(
    step: nat, clock: int, mentioned: set<Value>,
    codes: map<Value, Authorization>, jars: map<Browser, Cookies>, callbacks: map<Id, Pending>,
    logins: map<Value, LoginRecord>, posts: map<Value, PostRecord>,
    redemptions: map<Value, Redemption>, sessions: map<Id, SessionRecord>)

  const START := System(0, 0, {}, map[], map[], map[], map[], map[], map[], map[])

  datatype Action =
    | Tick(ms: nat)
    | LogIn(browser: Browser, state: Value, nonce: Value, verifier: Value, returnTo: string)
    | Post(browser: Browser, form: AuthorizeForm, code: Value)
    | Begin(id: Id, browser: Browser, code: Value, state: Value)
    | Exchange(id: Id, signs: bool)
    | Foreign(request: TokenForm, signs: bool)  // a token request from anywhere else
    | Finish(id: Id)
    | Abandon(id: Id)                           // the exchange is lost or times out

  // ---------------------------------------------------------------- steps

  function Parts(v: Value): set<Value> {
    match v
    case Digest(u) => {v} + Parts(u)
    case _ => {v}
  }

  function Mentions(a: Action): set<Value> {
    match a
    case LogIn(_, state, nonce, verifier, _) => {state, nonce, verifier}
    case Post(_, form, code) => {code} + Parts(form.state) + Parts(form.nonce) + Parts(form.challenge)
    case Begin(_, _, code, state) => Parts(code) + Parts(state)
    case Foreign(request, _) => Parts(request.code) + Parts(request.verifier)
    case _ => {}
  }

  /** What a random draw may return: nothing that has been mentioned before, even inside a digest. */
  predicate Fresh(mentioned: set<Value>, v: Value) {
    v.Random? && v !in mentioned
  }

  predicate FreshLogin(mentioned: set<Value>, a: Action)
    requires a.LogIn?
  {
    && Fresh(mentioned, a.state) && Fresh(mentioned, a.nonce) && Fresh(mentioned, a.verifier)
    && a.state != a.nonce && a.state != a.verifier && a.nonce != a.verifier
  }

  function JarOf(s: System, b: Browser): Cookies {
    if b in s.jars then s.jars[b] else Cookies(None, None)
  }

  function LoggedIn(s: System, b: Browser, t: Transaction): System {
    s.(jars := s.jars[b := Cookies(Some(t), JarOf(s, b).session)],
       logins := s.logins[t.state := LoginRecord(b, t, s.clock)])
  }

  function Posted(c: Config, s: System, b: Browser, form: AuthorizeForm, code: Value): System {
    var (codes, reply) := Authorized(s.codes, c, form, s.clock, Some(code));
    if !reply.Redirect? then s
    else s.(codes := codes, posts := s.posts[code := PostRecord(b, form.identity, form.challenge, form.nonce, s.clock)])
  }

  function Started(s: System, id: Id, b: Browser, t: Transaction, code: Value): System {
    s.(callbacks := s.callbacks[id := Pending(b, t, code, s.clock, s.step, Exchanging)])
  }

  /** The response removes the transaction cookie, whatever that is by now. */
  function Cleared(s: System, b: Browser): System {
    s.(jars := s.jars[b := Cookies(None, JarOf(s, b).session)])
  }

  /** The provider answers a token request. */
  function Answering(c: Config, s: System, form: TokenForm, via: Option<Id>, signs: bool): System {
    var (codes, reply) := Redeemed(s.codes, c, form, s.clock, signs);
    if reply.Granted?
    then s.(codes := codes, redemptions := s.redemptions[form.code := Redemption(via, form.verifier, s.clock)])
    else s.(codes := codes)
  }

  function Exchanged(c: Config, s: System, id: Id, signs: bool): System
    requires id in s.callbacks
  {
    var k := s.callbacks[id];
    var form := ExchangeFor(c, k.code, k.transaction.verifier);
    Staged(Answering(c, s, form, Some(id), signs), id, Answered(Redeemed(s.codes, c, form, s.clock, signs).1))
  }

  function Staged(s: System, id: Id, stage: Stage): System
    requires id in s.callbacks
  {
    s.(callbacks := s.callbacks[id := s.callbacks[id].(stage := stage)])
  }

  function Failed(s: System, id: Id): System
    requires id in s.callbacks
  {
    Cleared(Staged(s, id, Ended), s.callbacks[id].browser)
  }

  function SignedIn(s: System, id: Id, session: Session): System
    requires id in s.callbacks
  {
    var k := s.callbacks[id];
    s.(jars := s.jars[k.browser := Cookies(None, Some(session))],
       callbacks := s.callbacks[id := k.(stage := Ended)],
       sessions := s.sessions[id := SessionRecord(session, s.clock, s.step)])
  }

  function Finished(c: Config, s: System, id: Id): System
    requires id in s.callbacks && s.callbacks[id].stage.Answered?
  {
    var session := SessionFrom(c, s.callbacks[id].stage.reply, s.callbacks[id].transaction.nonce, s.clock);
    if session.Some? then SignedIn(s, id, session.value) else Failed(s, id)
  }

  function Effect(c: Config, mentioned: set<Value>, s: System, a: Action): System {
    match a
    case Tick(ms) => s.(clock := s.clock + ms)
    case LogIn(b, state, nonce, verifier, returnTo) =>
      if FreshLogin(mentioned, a) then LoggedIn(s, b, Drawn(state, nonce, verifier, returnTo, s.clock)) else s
    case Post(b, form, code) =>
      if Fresh(mentioned, code) then Posted(c, s, b, form, code) else s
    case Begin(id, b, code, state) =>
      if id in s.callbacks then s
      else
        var t := Unexpired(JarOf(s, b).transaction, s.clock);
        if MayExchange(t, code, state) then Started(s, id, b, t.value, code) else Cleared(s, b)
    case Exchange(id, signs) =>
      if id in s.callbacks && s.callbacks[id].stage.Exchanging? then Exchanged(c, s, id, signs) else s
    case Foreign(request, signs) => Answering(c, s, request, None, signs)
    case Finish(id) =>
      if id in s.callbacks && s.callbacks[id].stage.Answered? then Finished(c, s, id) else s
    case Abandon(id) =>
      if id in s.callbacks && !s.callbacks[id].stage.Ended? then Failed(s, id) else s
  }

  function Noted(s: System, a: Action): System {
    s.(step := s.step + 1, mentioned := s.mentioned + Mentions(a))
  }

  function Step(c: Config, s: System, a: Action): System {
    Effect(c, s.mentioned, Noted(s, a), a)
  }

  ghost function Run(c: Config, s: System, actions: seq<Action>): System
    decreases |actions|
  {
    if actions == [] then s else Run(c, Step(c, s, actions[0]), actions[1..])
  }

  /** The provider asks nobody who they are: whoever sends a well-formed authorization request gets a code,
      bound to that request. */
  lemma AnyoneMayPost(c: Config, s: System, b: Browser, form: AuthorizeForm, code: Value)
    requires Fresh(s.mentioned, code)
    ensures var s' := Step(c, s, Post(b, form, code));
            if WellFormed(c, form)
            then && code in s'.codes && s'.codes == s.codes[code := s'.codes[code]]
                 && s'.posts == s.posts[code := PostRecord(b, form.identity, form.challenge, form.nonce, s.clock)]
                 && var a := s'.codes[code];
                 && a.subject == form.identity && a.redirectUri == form.redirectUri && a.expiresAt == s.clock + 120_000
                 && a.challenge == form.challenge && a.nonce == form.nonce
            else s'.codes == s.codes && s'.posts == s.posts
  {
  }

  /** Whoever knows a code can use it up, but only with the verifier of its challenge redeem it. */
  lemma AnyoneMayRedeem(c: Config, s: System, request: TokenForm, signs: bool)
    ensures var s' := Step(c, s, Foreign(request, signs));
            && s'.codes == (if Reaches(c, request) then s.codes - {request.code} else s.codes)
            && s'.redemptions
               == (if signs && Reaches(c, request) && request.code in s.codes && Matches(c, s.codes[request.code], request.verifier, s.clock)
                   then s.redemptions[request.code := Redemption(None, request.verifier, s.clock)]
                   else s.redemptions)
            && s'.callbacks == s.callbacks && s'.jars == s.jars && s'.sessions == s.sessions
  {
    RedeemsExactly(s.codes, c, request, s.clock, signs);
    assert Step(c, s, Foreign(request, signs)) == Answering(c, Noted(s, Foreign(request, signs)), request, None, signs);
  }

  // ---------------------------------------------------------------- what every step keeps

  ghost predicate LoginOk(s: System, v: Value)
    requires v in s.logins
  {
    var l := s.logins[v];
    var t := l.transaction;
    && t.state == v && t.expiresAt == Seconds(l.at) + TRANSACTION_LIFETIME && l.at <= s.clock
    && {v, t.nonce, t.verifier} <= s.mentioned
  }

  ghost predicate LoginsOk(s: System) {
    && (forall v | v in s.logins :: LoginOk(s, v))
    && (forall v, w | v in s.logins && w in s.logins && v != w ::
          s.logins[v].transaction.nonce != s.logins[w].transaction.nonce
          && s.logins[v].transaction.verifier != s.logins[w].transaction.verifier)
  }

  ghost predicate PostOk(s: System, code: Value)
    requires code in s.posts
  {
    var p := s.posts[code];
    p.at <= s.clock && p.subject in IDENTITIES && {code, p.nonce} + Parts(p.challenge) <= s.mentioned
  }

  /** Values drawn by a login are not used before it. */
  ghost predicate PostsFollow(s: System) {
    forall code, v | code in s.posts && v in s.logins
      && (s.posts[code].nonce == s.logins[v].transaction.nonce
          || s.posts[code].challenge == Digest(s.logins[v].transaction.verifier)) ::
      s.logins[v].at <= s.posts[code].at
  }

  ghost predicate PostsOk(s: System) {
    (forall code | code in s.posts :: PostOk(s, code)) && PostsFollow(s)
  }

  /** An outstanding code is a post's, and nobody has redeemed it. */
  ghost predicate CodeOk(c: Config, s: System, code: Value)
    requires code in s.codes
  {
    && code in s.posts && code !in s.redemptions
    && var p := s.posts[code];
       s.codes[code] == Authorization(p.subject, c.redirectUri, p.challenge, p.nonce, p.at + CODE_LIFETIME)
  }

  ghost predicate RedemptionOk(s: System, code: Value)
    requires code in s.redemptions
  {
    var r := s.redemptions[code];
    && code in s.posts && r.at <= s.clock && s.posts[code].challenge == Digest(r.verifier)
    && s.posts[code].at <= r.at <= s.posts[code].at + CODE_LIFETIME
  }

  ghost predicate CodesOk(c: Config, s: System) {
    && (forall code | code in s.codes :: CodeOk(c, s, code))
    && (forall code | code in s.redemptions :: RedemptionOk(s, code))
  }

  ghost predicate From(s: System, b: Browser, t: Transaction) {
    t.state in s.logins && s.logins[t.state].browser == b && s.logins[t.state].transaction == t
  }

  ghost predicate JarsOk(s: System) {
    forall b | b in s.jars && s.jars[b].transaction.Some? :: From(s, b, s.jars[b].transaction.value)
  }

  /** What a callback knows once its code has been redeemed. */
  ghost predicate GrantOk(c: Config, s: System, id: Id, k: Pending, reply: TokenReply) {
    reply.Granted? ==>
      && k.code in s.redemptions && k.code in s.posts
      && s.redemptions[k.code].via == Some(id) && s.redemptions[k.code].verifier == k.transaction.verifier
      && k.at <= s.redemptions[k.code].at
      && var p := s.posts[k.code];
         reply == TokensFor(c, Authorization(p.subject, c.redirectUri, p.challenge, p.nonce, p.at + CODE_LIFETIME),
                            s.redemptions[k.code].at)
  }

  ghost predicate CallbackOk(c: Config, s: System, id: Id)
    requires id in s.callbacks
  {
    var k := s.callbacks[id];
    && From(s, k.browser, k.transaction) && k.began <= s.step
    && s.logins[k.transaction.state].at <= k.at <= s.clock
    && k.at < 1000 * (s.logins[k.transaction.state].at / 1000 + 600)
    && (k.stage.Answered? ==> GrantOk(c, s, id, k, k.stage.reply))
  }

  ghost predicate CallbacksOk(c: Config, s: System) {
    forall id | id in s.callbacks :: CallbackOk(c, s, id)
  }

  /** A session and everything it rests on: the login that drew its transaction, the identity posted
      for that transaction's challenge and nonce, the redemption by this very callback, and when. The
      session holds the access token of that redemption. */
  ghost predicate Agrees(c: Config, s: System, id: Id)
    requires id in s.sessions
  {
    && id in s.callbacks && s.callbacks[id].stage.Ended?
    && var k, x := s.callbacks[id], s.sessions[id];
       && From(s, k.browser, k.transaction)
       && k.code in s.posts && k.code in s.redemptions
       && var l, p, r := s.logins[k.transaction.state], s.posts[k.code], s.redemptions[k.code];
          && p.challenge == Digest(k.transaction.verifier) && p.nonce == k.transaction.nonce
          && x.session.subject == p.subject && IsAccessToken(c, x.session.accessToken, p.subject, r.at)
          && r.via == Some(id) && r.verifier == k.transaction.verifier
          && l.at <= p.at <= r.at <= x.at <= s.clock
          && l.at <= k.at <= r.at && k.at < 1000 * (l.at / 1000 + 600)
          && r.at <= p.at + 120_000
          && x.session.expiresAt == x.at / 1000 + 3600
          && k.began < x.ended <= s.step
  }

  ghost predicate SessionsOk(c: Config, s: System) {
    forall id | id in s.sessions :: Agrees(c, s, id)
  }

  /** Once a callback has answered with a session its transaction is gone from the browser, so only
      callbacks begun before that answer hold it. */
  ghost predicate TakenOk(s: System) {
    forall id | id in s.sessions && id in s.callbacks ::
      && (forall b | b in s.jars :: Some(s.callbacks[id].transaction) != s.jars[b].transaction)
      && (forall k | k in s.callbacks && s.callbacks[k].transaction == s.callbacks[id].transaction ::
            s.callbacks[k].began < s.sessions[id].ended)
  }

  ghost predicate Inv(c: Config, s: System) {
    LoginsOk(s) && PostsOk(s) && CodesOk(c, s) && JarsOk(s) && CallbacksOk(c, s) && SessionsOk(c, s) && TakenOk(s)
  }

  /** Records are never changed or lost. */
  ghost predicate Grown(s: System, s': System) {
    && s.step <= s'.step && s.clock <= s'.clock && s.mentioned <= s'.mentioned
    && (forall v | v in s.logins :: v in s'.logins && s'.logins[v] == s.logins[v])
    && (forall v | v in s.posts :: v in s'.posts && s'.posts[v] == s.posts[v])
    && (forall v | v in s.redemptions :: v in s'.redemptions && s'.redemptions[v] == s.redemptions[v])
    && (forall id | id in s.sessions :: id in s'.sessions && s'.sessions[id] == s.sessions[id])
    && (forall id | id in s.callbacks :: id in s'.callbacks && s'.callbacks[id].(stage := Ended) == s.callbacks[id].(stage := Ended))
    && (forall id | id in s.callbacks && s.callbacks[id].stage.Ended? :: s'.callbacks[id].stage.Ended?)
  }

  // Each part of the invariant survives steps that leave its own maps alone.

  lemma LoginsFrame(s: System, s': System)
    requires LoginsOk(s) && Grown(s, s') && s'.logins == s.logins
    ensures LoginsOk(s')
  {
    assert forall v | v in s.logins :: LoginOk(s, v);
  }

  lemma PostsFrame(s: System, s': System)
    requires PostsOk(s) && Grown(s, s') && s'.logins == s.logins && s'.posts == s.posts
    ensures PostsOk(s')
  {
    assert forall code | code in s.posts :: PostOk(s, code);
  }

  lemma CodesFrame(c: Config, s: System, s': System)
    requires CodesOk(c, s) && Grown(s, s') && s'.codes == s.codes && s'.redemptions == s.redemptions
    ensures CodesOk(c, s')
  {
    assert forall code | code in s.codes :: CodeOk(c, s, code);
    assert forall code | code in s.redemptions :: RedemptionOk(s, code);
  }

  lemma JarsFrame(s: System, s': System)
    requires JarsOk(s) && Grown(s, s') && s'.jars == s.jars
    ensures JarsOk(s')
  {
  }

  lemma CallbackFrame(c: Config, s: System, s': System, id: Id)
    requires id in s.callbacks && CallbackOk(c, s, id) && Grown(s, s') && s'.callbacks[id] == s.callbacks[id]
    ensures CallbackOk(c, s', id)
  {
  }

  lemma CallbacksFrame(c: Config, s: System, s': System)
    requires CallbacksOk(c, s) && Grown(s, s') && s'.callbacks == s.callbacks
    ensures CallbacksOk(c, s')
  {
    forall id | id in s.callbacks ensures CallbackOk(c, s', id) {
      CallbackFrame(c, s, s', id);
    }
  }

  lemma SessionFrame(c: Config, s: System, s': System, id: Id)
    requires id in s.sessions && Agrees(c, s, id) && Grown(s, s')
    ensures Agrees(c, s', id)
  {
  }

  lemma SessionsFrame(c: Config, s: System, s': System)
    requires SessionsOk(c, s) && Grown(s, s') && s'.sessions == s.sessions
    ensures SessionsOk(c, s')
  {
    forall id | id in s.sessions ensures Agrees(c, s', id) {
      SessionFrame(c, s, s', id);
    }
  }

  lemma TakenFrame(s: System, s': System)
    requires TakenOk(s) && s'.sessions == s.sessions && s'.callbacks == s.callbacks && s'.jars == s.jars
    ensures TakenOk(s')
  {
  }

  lemma IdleKeepsInv(c: Config, s: System, s': System)
    requires Inv(c, s) && s.step <= s'.step && s.clock <= s'.clock && s.mentioned <= s'.mentioned
    requires s' == s.(step := s'.step, clock := s'.clock, mentioned := s'.mentioned)
    ensures Inv(c, s') && Grown(s, s')
  {
    LoginsFrame(s, s');
    PostsFrame(s, s');
    CodesFrame(c, s, s');
    JarsFrame(s, s');
    CallbacksFrame(c, s, s');
    SessionsFrame(c, s, s');
    TakenFrame(s, s');
  }

  lemma GrownTrans(s: System, s1: System, s2: System)
    requires Grown(s, s1) && Grown(s1, s2)
    ensures Grown(s, s2)
  {
  }

  // ---------------------------------------------------------------- logging in

  /** No record holds a value. */
  ghost predicate Unused(s: System, v: Value) {
    && v !in s.logins && v !in s.posts
    && (forall w | w in s.logins :: s.logins[w].transaction.nonce != v && s.logins[w].transaction.verifier != v)
    && (forall code | code in s.posts :: s.posts[code].nonce != v && s.posts[code].challenge != Digest(v))
  }

  lemma PartsHold(v: Value)
    ensures v in Parts(v) && (v.Digest? ==> v.of in Parts(v))
  {
    match v
    case Digest(u) => PartsHold(u);
    case _ =>
  }

  lemma FreshIsUnused(s: System, v: Value)
    requires LoginsOk(s) && PostsOk(s) && v !in s.mentioned
    ensures Unused(s, v)
  {
    assert forall w | w in s.logins :: LoginOk(s, w);
    forall code | code in s.posts ensures s.posts[code].nonce != v && s.posts[code].challenge != Digest(v) {
      assert PostOk(s, code);
      PartsHold(s.posts[code].challenge);
    }
    assert v in s.posts ==> PostOk(s, v);
  }

  lemma LogInKeepsLogins(s: System, b: Browser, t: Transaction)
    requires LoginsOk(s) && Unused(s, t.state) && Unused(s, t.nonce) && Unused(s, t.verifier)
    requires t.expiresAt == Seconds(s.clock) + TRANSACTION_LIFETIME && {t.state, t.nonce, t.verifier} <= s.mentioned
    ensures LoginsOk(LoggedIn(s, b, t)) && Grown(s, LoggedIn(s, b, t))
  {
    var s' := LoggedIn(s, b, t);
    forall v | v in s'.logins ensures LoginOk(s', v) {
      if v in s.logins { assert LoginOk(s, v); }
    }
  }

  lemma LogInKeepsPosts(s: System, b: Browser, t: Transaction)
    requires PostsOk(s) && Unused(s, t.nonce) && Unused(s, t.verifier)
    ensures PostsOk(LoggedIn(s, b, t))
  {
    var s' := LoggedIn(s, b, t);
    forall code | code in s'.posts ensures PostOk(s', code) {
      assert PostOk(s, code);
    }
  }

  lemma LogInKeepsTaken(c: Config, s: System, b: Browser, t: Transaction)
    requires CallbacksOk(c, s) && TakenOk(s) && Unused(s, t.state)
    ensures TakenOk(LoggedIn(s, b, t))
  {
    forall id | id in s.callbacks ensures s.callbacks[id].transaction != t {
      assert CallbackOk(c, s, id);
    }
  }

  lemma LogInKeepsInv(c: Config, s: System, b: Browser, t: Transaction)
    requires Inv(c, s) && Unused(s, t.state) && Unused(s, t.nonce) && Unused(s, t.verifier)
    requires t.expiresAt == Seconds(s.clock) + TRANSACTION_LIFETIME && {t.state, t.nonce, t.verifier} <= s.mentioned
    ensures Inv(c, LoggedIn(s, b, t)) && Grown(s, LoggedIn(s, b, t))
  {
    var s' := LoggedIn(s, b, t);
    LogInKeepsLogins(s, b, t);
    LogInKeepsPosts(s, b, t);
    LogInKeepsTaken(c, s, b, t);
    CodesFrame(c, s, s');
    CallbacksFrame(c, s, s');
    SessionsFrame(c, s, s');
  }

  // ---------------------------------------------------------------- authorizing

  lemma PostKeepsPosts(s: System, code: Value, p: PostRecord, s': System)
    requires LoginsOk(s) && PostsOk(s) && Grown(s, s') && s'.logins == s.logins && s'.posts == s.posts[code := p]
    requires p.at == s'.clock && p.subject in IDENTITIES && {code, p.nonce} + Parts(p.challenge) <= s'.mentioned
    ensures PostsOk(s')
  {
    assert forall v | v in s.logins :: LoginOk(s, v);
    forall i | i in s'.posts ensures PostOk(s', i) {
      if i != code { assert PostOk(s, i); }
    }
  }

  lemma PostKeepsCodes(c: Config, s: System, code: Value, p: PostRecord, s': System)
    requires CodesOk(c, s) && Grown(s, s') && Unused(s, code) && s'.posts == s.posts[code := p] && s'.redemptions == s.redemptions
    requires s'.codes == s.codes[code := Authorization(p.subject, c.redirectUri, p.challenge, p.nonce, p.at + CODE_LIFETIME)]
    ensures CodesOk(c, s')
  {
    forall i | i in s'.redemptions ensures RedemptionOk(s', i) && i != code {
      assert RedemptionOk(s, i);
    }
    forall i | i in s'.codes ensures CodeOk(c, s', i) {
      if i != code { assert CodeOk(c, s, i); }
    }
  }

  lemma PostKeepsInv(c: Config, s: System, b: Browser, form: AuthorizeForm, code: Value)
    requires Inv(c, s) && Unused(s, code) && {code, form.nonce} + Parts(form.challenge) <= s.mentioned
    ensures Inv(c, Posted(c, s, b, form, code)) && Grown(s, Posted(c, s, b, form, code))
  {
    if Acceptable(c, form) && form.identity in IDENTITIES {
      var s' := Posted(c, s, b, form, code);
      var p := PostRecord(b, form.identity, form.challenge, form.nonce, s.clock);
      assert Grown(s, s');
      PostKeepsPosts(s, code, p, s');
      PostKeepsCodes(c, s, code, p, s');
      LoginsFrame(s, s');
      JarsFrame(s, s');
      CallbacksFrame(c, s, s');
      SessionsFrame(c, s, s');
      TakenFrame(s, s');
    }
  }

  // ---------------------------------------------------------------- starting a callback

  /** What is still unexpired was drawn less than ten minutes ago. */
  lemma UnexpiredIsRecent(drawn: int, now: int)
    requires !Expired(Seconds(drawn) + TRANSACTION_LIFETIME, now)
    ensures now < drawn + 1000 * TRANSACTION_LIFETIME
  {
  }

  lemma StartKeepsInv(c: Config, s: System, id: Id, b: Browser, t: Transaction, code: Value)
    requires Inv(c, s) && id !in s.callbacks && JarOf(s, b).transaction == Some(t) && !Expired(t.expiresAt, s.clock)
    requires forall x | x in s.sessions :: s.sessions[x].ended < s.step
    ensures Inv(c, Started(s, id, b, t, code)) && Grown(s, Started(s, id, b, t, code))
  {
    var s' := Started(s, id, b, t, code);
    StartKeepsCallbacks(c, s, id, b, t, code);
    StartKeepsTaken(c, s, id, b, t, code);
    LoginsFrame(s, s');
    PostsFrame(s, s');
    CodesFrame(c, s, s');
    JarsFrame(s, s');
    SessionsFrame(c, s, s');
  }

  lemma StartKeepsCallbacks(c: Config, s: System, id: Id, b: Browser, t: Transaction, code: Value)
    requires LoginsOk(s) && JarsOk(s) && CallbacksOk(c, s)
    requires id !in s.callbacks && JarOf(s, b).transaction == Some(t) && !Expired(t.expiresAt, s.clock)
    ensures CallbacksOk(c, Started(s, id, b, t, code)) && Grown(s, Started(s, id, b, t, code))
  {
    var s' := Started(s, id, b, t, code);
    assert Grown(s, s');
    forall i | i in s'.callbacks ensures CallbackOk(c, s', i) {
      if i == id {
        assert LoginOk(s, t.state);
        UnexpiredIsRecent(s.logins[t.state].at, s.clock);
      } else {
        CallbackFrame(c, s, s', i);
      }
    }
  }

  lemma StartKeepsTaken(c: Config, s: System, id: Id, b: Browser, t: Transaction, code: Value)
    requires TakenOk(s) && SessionsOk(c, s) && id !in s.callbacks && JarOf(s, b).transaction == Some(t)
    ensures TakenOk(Started(s, id, b, t, code))
  {
    assert id in s.sessions ==> Agrees(c, s, id);
  }

  lemma ClearKeepsInv(c: Config, s: System, b: Browser)
    requires Inv(c, s)
    ensures Inv(c, Cleared(s, b)) && Grown(s, Cleared(s, b))
  {
    var s' := Cleared(s, b);
    ClearKeepsJars(s, b);
    LoginsFrame(s, s');
    PostsFrame(s, s');
    CodesFrame(c, s, s');
    CallbacksFrame(c, s, s');
    SessionsFrame(c, s, s');
  }

  lemma ClearKeepsJars(s: System, b: Browser)
    requires JarsOk(s) && TakenOk(s)
    ensures JarsOk(Cleared(s, b)) && TakenOk(Cleared(s, b)) && Grown(s, Cleared(s, b))
  {
  }

  // ---------------------------------------------------------------- redeeming

  lemma SpendKeepsCodes(c: Config, s: System, code: Value, s': System)
    requires CodesOk(c, s) && s' == s.(codes := s.codes - {code})
    ensures CodesOk(c, s') && Grown(s, s')
  {
    forall i | i in s'.codes ensures CodeOk(c, s', i) {
      assert CodeOk(c, s, i);
    }
    forall i | i in s'.redemptions ensures RedemptionOk(s', i) {
      assert RedemptionOk(s, i);
    }
  }

  lemma RedeemKeepsCodes(c: Config, s: System, code: Value, r: Redemption, s': System)
    requires CodesOk(c, s) && PostsOk(s) && code in s.codes && s.clock <= s.codes[code].expiresAt && s.codes[code].challenge == Digest(r.verifier)
    requires r.at == s.clock && s' == s.(codes := s.codes - {code}, redemptions := s.redemptions[code := r])
    ensures CodesOk(c, s') && Grown(s, s')
  {
    assert CodeOk(c, s, code) && PostOk(s, code);
    forall i | i in s'.codes ensures CodeOk(c, s', i) {
      assert CodeOk(c, s, i);
    }
    forall i | i in s'.redemptions ensures RedemptionOk(s', i) {
      if i != code { assert RedemptionOk(s, i); }
    }
  }

  lemma AnsweringKeepsInv(c: Config, s: System, form: TokenForm, via: Option<Id>, signs: bool)
    requires Inv(c, s)
    ensures var s' := Answering(c, s, form, via, signs); Inv(c, s') && Grown(s, s') && s'.callbacks == s.callbacks
  {
    var s' := Answering(c, s, form, via, signs);
    AnsweringKeepsCodes(c, s, form, via, signs);
    LoginsFrame(s, s');
    PostsFrame(s, s');
    JarsFrame(s, s');
    CallbacksFrame(c, s, s');
    SessionsFrame(c, s, s');
    TakenFrame(s, s');
  }

  lemma AnsweringKeepsCodes(c: Config, s: System, form: TokenForm, via: Option<Id>, signs: bool)
    requires CodesOk(c, s) && PostsOk(s)
    ensures var s' := Answering(c, s, form, via, signs);
            && CodesOk(c, s') && Grown(s, s')
            && s' == s.(codes := s'.codes, redemptions := s'.redemptions)
  {
    var (codes, reply) := Redeemed(s.codes, c, form, s.clock, signs);
    var s' := Answering(c, s, form, via, signs);
    if reply.Granted? {
      RedeemKeepsCodes(c, s, form.code, Redemption(via, form.verifier, s.clock), s');
    } else if codes == s.codes {
      assert s' == s;
    } else {
      SpendKeepsCodes(c, s, form.code, s');
    }
  }

  /** The grant is for the post whose code it was. */
  lemma AnsweringGrants(c: Config, s: System, id: Id, k: Pending, signs: bool)
    requires CodesOk(c, s) && k.at <= s.clock
    ensures var form := ExchangeFor(c, k.code, k.transaction.verifier);
            GrantOk(c, Answering(c, s, form, Some(id), signs), id, k, Redeemed(s.codes, c, form, s.clock, signs).1)
  {
    if k.code in s.codes { assert CodeOk(c, s, k.code); }
  }

  lemma StageKeepsInv(c: Config, s: System, id: Id, stage: Stage)
    requires Inv(c, s) && id in s.callbacks && !s.callbacks[id].stage.Ended?
    requires stage.Answered? ==> GrantOk(c, s, id, s.callbacks[id], stage.reply)
    ensures Inv(c, Staged(s, id, stage)) && Grown(s, Staged(s, id, stage))
  {
    var s' := Staged(s, id, stage);
    StageKeepsCallbacks(c, s, id, stage);
    LoginsFrame(s, s');
    PostsFrame(s, s');
    CodesFrame(c, s, s');
    JarsFrame(s, s');
    SessionsFrame(c, s, s');
    StageKeepsTaken(s, id, stage);
  }

  lemma StageKeepsCallbacks(c: Config, s: System, id: Id, stage: Stage)
    requires CallbacksOk(c, s) && id in s.callbacks && !s.callbacks[id].stage.Ended?
    requires stage.Answered? ==> GrantOk(c, s, id, s.callbacks[id], stage.reply)
    ensures CallbacksOk(c, Staged(s, id, stage)) && Grown(s, Staged(s, id, stage))
  {
    var s' := Staged(s, id, stage);
    assert Grown(s, s');
    forall i | i in s'.callbacks ensures CallbackOk(c, s', i) {
      assert CallbackOk(c, s, i);
      if i != id { CallbackFrame(c, s, s', i); }
    }
  }

  lemma StageKeepsTaken(s: System, id: Id, stage: Stage)
    requires TakenOk(s) && id in s.callbacks
    ensures TakenOk(Staged(s, id, stage))
  {
  }

  // ---------------------------------------------------------------- responding

  lemma SignInAgrees(c: Config, s: System, id: Id)
    requires Inv(c, s) && id in s.callbacks && s.callbacks[id].stage.Answered? && s.callbacks[id].began < s.step
    requires SessionFrom(c, s.callbacks[id].stage.reply, s.callbacks[id].transaction.nonce, s.clock).Some?
    ensures Agrees(c, Finished(c, s, id), id)
  {
    assert CallbackOk(c, s, id);
    assert RedemptionOk(s, s.callbacks[id].code);
    assert LoginOk(s, s.callbacks[id].transaction.state);
  }

  lemma SignInKeepsTaken(c: Config, s: System, id: Id, session: Session)
    requires TakenOk(s) && JarsOk(s) && CallbacksOk(c, s) && id in s.callbacks && id !in s.sessions
    requires forall k | k in s.callbacks :: s.callbacks[k].began < s.step
    ensures TakenOk(SignedIn(s, id, session))
  {
    assert CallbackOk(c, s, id);
  }

  lemma SignInKeepsInv(c: Config, s: System, id: Id)
    requires Inv(c, s) && id in s.callbacks && s.callbacks[id].stage.Answered?
    requires forall k | k in s.callbacks :: s.callbacks[k].began < s.step
    requires SessionFrom(c, s.callbacks[id].stage.reply, s.callbacks[id].transaction.nonce, s.clock).Some?
    ensures Inv(c, Finished(c, s, id)) && Grown(s, Finished(c, s, id))
  {
    var session := SessionFrom(c, s.callbacks[id].stage.reply, s.callbacks[id].transaction.nonce, s.clock).value;
    var s' := SignedIn(s, id, session);
    assert id in s.sessions ==> Agrees(c, s, id);
    SignInAgrees(c, s, id);
    SignInKeepsTaken(c, s, id, session);
    SignInKeepsCallbacks(c, s, id, session);
    forall i | i in s'.sessions ensures Agrees(c, s', i) {
      if i != id { SessionFrame(c, s, s', i); }
    }
    LoginsFrame(s, s');
    PostsFrame(s, s');
    CodesFrame(c, s, s');
  }

  lemma SignInKeepsCallbacks(c: Config, s: System, id: Id, session: Session)
    requires CallbacksOk(c, s) && JarsOk(s) && id in s.callbacks && id !in s.sessions
    ensures var s' := SignedIn(s, id, session); CallbacksOk(c, s') && JarsOk(s') && Grown(s, s')
  {
    var s' := SignedIn(s, id, session);
    forall i | i in s'.callbacks ensures CallbackOk(c, s', i) {
      assert CallbackOk(c, s, i);
    }
  }

  // ---------------------------------------------------------------- every step

  lemma LogInStep(c: Config, s: System, a: Action)
    requires Inv(c, s) && a.LogIn? && FreshLogin(s.mentioned, a) && Inv(c, Noted(s, a))
    ensures Inv(c, Step(c, s, a)) && Grown(Noted(s, a), Step(c, s, a))
  {
    FreshIsUnused(s, a.state);
    FreshIsUnused(s, a.nonce);
    FreshIsUnused(s, a.verifier);
    LogInKeepsInv(c, Noted(s, a), a.browser, Drawn(a.state, a.nonce, a.verifier, a.returnTo, s.clock));
  }

  lemma PostStep(c: Config, s: System, a: Action)
    requires Inv(c, s) && a.Post? && Fresh(s.mentioned, a.code) && Inv(c, Noted(s, a))
    ensures Inv(c, Step(c, s, a)) && Grown(Noted(s, a), Step(c, s, a))
  {
    FreshIsUnused(s, a.code);
    PartsHold(a.form.nonce);
    PostKeepsInv(c, Noted(s, a), a.browser, a.form, a.code);
  }

  lemma BeginStep(c: Config, s: System, a: Action)
    requires Inv(c, s) && a.Begin? && a.id !in s.callbacks && Inv(c, Noted(s, a))
    ensures Inv(c, Step(c, s, a)) && Grown(Noted(s, a), Step(c, s, a))
  {
    var t := Unexpired(JarOf(s, a.browser).transaction, s.clock);
    if MayExchange(t, a.code, a.state) {
      forall x | x in s.sessions ensures s.sessions[x].ended <= s.step {
        assert Agrees(c, s, x);
      }
      StartKeepsInv(c, Noted(s, a), a.id, a.browser, t.value, a.code);
    } else {
      ClearKeepsInv(c, Noted(s, a), a.browser);
    }
  }

  lemma ExchangeStep(c: Config, s: System, id: Id, signs: bool)
    requires Inv(c, s) && id in s.callbacks && s.callbacks[id].stage.Exchanging?
    ensures Inv(c, Exchanged(c, s, id, signs)) && Grown(s, Exchanged(c, s, id, signs))
  {
    var k := s.callbacks[id];
    var form := ExchangeFor(c, k.code, k.transaction.verifier);
    var s1 := Answering(c, s, form, Some(id), signs);
    var reply := Redeemed(s.codes, c, form, s.clock, signs).1;
    assert CallbackOk(c, s, id);
    AnsweringKeepsInv(c, s, form, Some(id), signs);
    AnsweringGrants(c, s, id, k, signs);
    StageKeepsInv(c, s1, id, Answered(reply));
    GrownTrans(s, s1, Staged(s1, id, Answered(reply)));
  }

  lemma FailStep(c: Config, s: System, id: Id)
    requires Inv(c, s) && id in s.callbacks && !s.callbacks[id].stage.Ended?
    ensures Inv(c, Failed(s, id)) && Grown(s, Failed(s, id))
  {
    var s1 := Staged(s, id, Ended);
    StageKeepsInv(c, s, id, Ended);
    ClearKeepsInv(c, s1, s.callbacks[id].browser);
    GrownTrans(s, s1, Cleared(s1, s.callbacks[id].browser));
  }

  lemma FinishStep(c: Config, s: System, a: Action)
    requires Inv(c, s) && a.Finish? && a.id in s.callbacks && s.callbacks[a.id].stage.Answered? && Inv(c, Noted(s, a))
    ensures Inv(c, Step(c, s, a)) && Grown(Noted(s, a), Step(c, s, a))
  {
    var session := SessionFrom(c, s.callbacks[a.id].stage.reply, s.callbacks[a.id].transaction.nonce, s.clock);
    if session.Some? {
      forall k | k in s.callbacks ensures s.callbacks[k].began <= s.step {
        assert CallbackOk(c, s, k);
      }
      SignInKeepsInv(c, Noted(s, a), a.id);
    } else {
      FailStep(c, Noted(s, a), a.id);
    }
  }

  lemma StepKeepsInv(c: Config, s: System, a: Action)
    requires Inv(c, s)
    ensures Inv(c, Step(c, s, a)) && Grown(s, Step(c, s, a))
  {
    var s1 := Noted(s, a);
    IdleKeepsInv(c, s, s1);
    EffectKeepsInv(c, s, a);
    GrownTrans(s, s1, Step(c, s, a));
  }

  lemma EffectKeepsInv(c: Config, s: System, a: Action)
    requires Inv(c, s) && Inv(c, Noted(s, a))
    ensures Inv(c, Step(c, s, a)) && Grown(Noted(s, a), Step(c, s, a))
  {
    match a
    case Tick(_) => IdleKeepsInv(c, Noted(s, a), Step(c, s, a));
    case LogIn(_, _, _, _, _) => if FreshLogin(s.mentioned, a) { LogInStep(c, s, a); }
    case Post(_, _, code) => if Fresh(s.mentioned, code) { PostStep(c, s, a); }
    case Begin(id, _, _, _) => if id !in s.callbacks { BeginStep(c, s, a); }
    case _ => CallbackEffectKeepsInv(c, s, a);
  }

  lemma CallbackEffectKeepsInv(c: Config, s: System, a: Action)
    requires Inv(c, s) && Inv(c, Noted(s, a)) && (a.Exchange? || a.Foreign? || a.Finish? || a.Abandon?)
    ensures Inv(c, Step(c, s, a)) && Grown(Noted(s, a), Step(c, s, a))
  {
    match a
    case Exchange(id, signs) =>
      if id in s.callbacks && s.callbacks[id].stage.Exchanging? { ExchangeStep(c, Noted(s, a), id, signs); }
    case Foreign(request, signs) => AnsweringKeepsInv(c, Noted(s, a), request, None, signs);
    case Finish(_) => FinishKeepsInv(c, s, a);
    case Abandon(_) => AbandonKeepsInv(c, s, a);
  }

  lemma FinishKeepsInv(c: Config, s: System, a: Action)
    requires Inv(c, s) && Inv(c, Noted(s, a)) && a.Finish?
    ensures Inv(c, Step(c, s, a)) && Grown(Noted(s, a), Step(c, s, a))
  {
    if a.id in s.callbacks && s.callbacks[a.id].stage.Answered? {
      FinishStep(c, s, a);
    }
  }

  lemma AbandonKeepsInv(c: Config, s: System, a: Action)
    requires Inv(c, s) && Inv(c, Noted(s, a)) && a.Abandon?
    ensures Inv(c, Step(c, s, a)) && Grown(Noted(s, a), Step(c, s, a))
  {
    if a.id in s.callbacks && !s.callbacks[a.id].stage.Ended? {
      FailStep(c, Noted(s, a), a.id);
    }
  }

  lemma {:induction false} RunKeepsInv(c: Config, s: System, actions: seq<Action>)
    requires Inv(c, s)
    ensures Inv(c, Run(c, s, actions)) && Grown(s, Run(c, s, actions))
    decreases |actions|
  {
    if actions == [] {
    } else {
      var s1 := Step(c, s, actions[0]);
      StepKeepsInv(c, s, actions[0]);
      RunKeepsInv(c, s1, actions[1..]);
      GrownTrans(s, s1, Run(c, s1, actions[1..]));
    }
  }
}
