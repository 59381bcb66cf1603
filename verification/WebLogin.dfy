/**
 The web application's side of a login: the transaction and session cookies, the login route that
 draws fresh values, and the callback route (RFC 6749, section 4.1.2; OpenID Connect Core 1.0,
 section 3.1.3.7).
 */
module WebLogin {
  import opened Wrappers
  import opened AuthorizationServer

  // Expiry times are in seconds.
  datatype Transaction = Transaction(state: Value, nonce: Value, verifier: Value, returnTo: string, expiresAt: int)

  datatype Session = Session(accessToken: Token, subject: string, expiresAt: int)

  datatype Cookies = Cookies(transaction: Option<Transaction>, session: Option<Session>)

  const TRANSACTION_LIFETIME := 600
  const DEFAULT_TOKEN_LIFETIME := 900
  const MAX_TOKEN_LIFETIME := 3600

  /** `expiresAt` seconds is not after a clock reading in milliseconds. */
  predicate Expired(expiresAt: int, now: int) {
    expiresAt * 1000 <= now
  }

  function Drawn(state: Value, nonce: Value, verifier: Value, returnTo: string, now: int): Transaction {
    Transaction(state, nonce, verifier, returnTo, Seconds(now) + TRANSACTION_LIFETIME)
  }

  /** The authorization request a transaction makes; the identity is chosen on the provider's page. */
  function RequestFor(c: Config, t: Transaction, identity: string): AuthorizeForm {
    AuthorizeForm("code", c.clientId, c.redirectUri, ["openid"], c.audience,
                  t.state, t.nonce, Digest(t.verifier), "S256", identity)
  }

  function Unexpired(transaction: Option<Transaction>, now: int): Option<Transaction> {
    if transaction.Some? && !Expired(transaction.value.expiresAt, now) then transaction else None
  }

  predicate MayExchange(transaction: Option<Transaction>, code: Value, state: Value) {
    code != EMPTY && transaction.Some? && state == transaction.value.state
  }

  function ExchangeFor(c: Config, code: Value, verifier: Value): TokenForm {
    TokenForm("authorization_code", c.clientId, c.redirectUri, code, verifier)
  }

  function LowerCase(s: string): string {
    seq(|s|, i requires 0 <= i < |s| => if 'A' <= s[i] <= 'Z' then s[i] - 'A' + 'a' else s[i])
  }

  predicate Complete(reply: TokenReply) {
    && reply.Granted? && reply.access.Some? && reply.id.Some?
    && LowerCase(if reply.tokenType.Some? then reply.tokenType.value else "bearer") == "bearer"
  }

  /** The checks of an identity token: issuer, audience, expiry, subject and nonce. */
  predicate Genuine(c: Config, id: Token, nonce: Value, now: int) {
    && id.issuer == c.issuer && id.audience == c.clientId && id.expiresAt > Seconds(now)
    && id.subject != "" && id.nonce == Some(nonce)
  }

  function TokenLifetime(expiresIn: Option<real>): (r: int)
    ensures 0 <= r <= MAX_TOKEN_LIFETIME
  {
    if expiresIn == None || expiresIn.value <= 0.0 then DEFAULT_TOKEN_LIFETIME
    else if expiresIn.value.Floor <= MAX_TOKEN_LIFETIME then expiresIn.value.Floor
    else MAX_TOKEN_LIFETIME
  }

  /** The session a reply leads to, if it passes every check. */
  function SessionFrom(c: Config, reply: TokenReply, nonce: Value, now: int): Option<Session> {
    if Complete(reply) && Genuine(c, reply.id.value, nonce, now)
    then Some(Session(reply.access.value, reply.id.value.subject, Seconds(now) + TokenLifetime(reply.expiresIn)))
    else None
  }

  function Readable(session: Option<Session>, now: int): Option<Session> {
    if session.Some? && session.value.subject != "" && !Expired(session.value.expiresAt, now) then session else None
  }

  /** A whole callback that nothing interrupts: the cookies and outstanding codes it leaves, and whether
      it set a session. The three times are when it takes the transaction, redeems and verifies. */
  function CallbackRun(c: Config, jar: Cookies, codes: map<Value, Authorization>, code: Value, state: Value,
                       discovered: bool, began: int, redeemed: int, verified: int, signs: bool)
    : (Cookies, map<Value, Authorization>, bool)
  {
    var t := Unexpired(jar.transaction, began);
    if !MayExchange(t, code, state) || !discovered then (Cookies(None, jar.session), codes, false)
    else
      var (codes', reply) := Redeemed(codes, c, ExchangeFor(c, code, t.value.verifier), redeemed, signs);
      var session := SessionFrom(c, reply, t.value.nonce, verified);
      (Cookies(None, if session.Some? then session else jar.session), codes', session.Some?)
  }

  class CookieJar {
    var transaction: Option<Transaction>
    var session: Option<Session>

    function State(): Cookies
      reads this
    {
      Cookies(transaction, session)
    }

    /** The cookie goes whether or not it is still good. */
    method TakeTransaction(now: int) returns (t: Option<Transaction>)
      modifies this`transaction
      ensures transaction == None && t == Unexpired(old(transaction), now)
      ensures t == if old(transaction).Some? && now < 1000 * old(transaction).value.expiresAt then old(transaction) else None
    {
      t := transaction;
      transaction := None;
      if t == None || Expired(t.value.expiresAt, now) {
        return None;
      }
    }

    method ReadSession(now: int) returns (s: Option<Session>)
      ensures s == Readable(session, now)
      ensures s == if session.Some? && session.value.subject != "" && now < 1000 * session.value.expiresAt then session else None
    {
      if session == None || session.value.subject == "" || Expired(session.value.expiresAt, now) {
        return None;
      }
      s := session;
    }
  }

  /** The login route: nothing is stored unless the provider can be reached. */
  method Login(jar: CookieJar, c: Config, discovered: bool, now: int, state: Value, nonce: Value, verifier: Value, returnTo: string)
    returns (request: Option<AuthorizeForm>)
    modifies jar
    ensures jar.session == old(jar.session)
    ensures !discovered ==> request == None && jar.transaction == old(jar.transaction)
    ensures discovered ==> jar.transaction == Some(Drawn(state, nonce, verifier, returnTo, now))
                           && request == Some(RequestFor(c, jar.transaction.value, ""))
    ensures discovered ==>
              && var t := jar.transaction.value;
              && t.state == state && t.nonce == nonce && t.verifier == verifier && t.returnTo == returnTo
              && t.expiresAt == now / 1000 + 600
    ensures discovered ==>
              && var r := request.value;
              && r.responseType == "code" && r.scopes == ["openid"] && r.challengeMethod == "S256"
              && r.clientId == c.clientId && r.redirectUri == c.redirectUri && r.audience == c.audience
              && r.state == state && r.nonce == nonce && r.challenge == Digest(verifier) && r.identity == ""
  {
    if !discovered {
      return None;
    }
    var t := Transaction(state, nonce, verifier, returnTo, Seconds(now) + 600);
    jar.transaction := Some(t);
    request := Some(AuthorizeForm("code", c.clientId, c.redirectUri, ["openid"], c.audience,
                                  state, nonce, Digest(verifier), "S256", ""));
  }

  /** The callback may redeem its code: the unexpired transaction has the state it was called with. */
  ghost predicate Exchanges(transaction: Option<Transaction>, code: Value, state: Value, began: int) {
    code != Text("") && transaction.Some? && transaction.value.state == state && began < 1000 * transaction.value.expiresAt
  }

  /** What the exchange then needs to sign in: a signature, a code redeemable with the transaction's
      verifier, and an identity token for its nonce that is still good when it is verified. */
  ghost predicate SignsIn(c: Config, t: Transaction, codes: map<Value, Authorization>, code: Value,
                          redeemed: int, verified: int, signs: bool)
  {
    && signs && code in codes && Matches(c, codes[code], t.verifier, redeemed)
    && codes[code].subject != "" && codes[code].nonce == t.nonce && verified / 1000 < redeemed / 1000 + 3600
  }

  /** The callback route, against the provider whose token endpoint it calls. */
  method Callback(jar: CookieJar, provider: Provider, oidc: bool, code: Value, state: Value, discovered: bool,
                  began: int, redeemed: int, verified: int, signs: bool)
    returns (ok: bool)
    modifies jar, provider
    ensures !oidc ==> !ok && jar.State() == old(jar.State()) && provider.codes == old(provider.codes)
    ensures oidc ==>
      (jar.State(), provider.codes, ok)
      == CallbackRun(provider.config, old(jar.State()), old(provider.codes), code, state, discovered, began, redeemed, verified, signs)
    ensures var t, reached := old(jar.transaction), oidc && discovered && Exchanges(old(jar.transaction), code, state, began);
            && (ok <==> (reached && SignsIn(provider.config, t.value, old(provider.codes), code, redeemed, verified, signs)))
            && provider.codes == if reached then old(provider.codes) - {code} else old(provider.codes)
    ensures jar.transaction == if oidc then None else old(jar.transaction)
    ensures !ok ==> jar.session == old(jar.session)
    ensures ok ==> && jar.session.Some? && var subject := old(provider.codes)[code].subject;
                   && IsAccessToken(provider.config, jar.session.value.accessToken, subject, redeemed)
                   && jar.session.value.subject == subject && jar.session.value.expiresAt == verified / 1000 + 3600
  {
    if !oidc {
      return false;
    }
    var transaction := jar.TakeTransaction(began);
    if code == EMPTY || transaction == None || state != transaction.value.state {
      return false;
    }
    if !discovered {
      return false;
    }
    var tokens := provider.Token(ExchangeFor(provider.config, code, transaction.value.verifier), redeemed, signs);
    if !Complete(tokens) || !Genuine(provider.config, tokens.id.value, transaction.value.nonce, verified) {
      return false;
    }
    var lifetime := TokenLifetime(tokens.expiresIn);
    jar.session := Some(Session(tokens.access.value, tokens.id.value.subject, Seconds(verified) + lifetime));
    ok := true;
  }

  ghost predicate IsBearer(s: string) {
    |s| == 6 && forall i | 0 <= i < 6 :: s[i] == "bearer"[i] || s[i] == "BEARER"[i]
  }

  lemma BearerInAnyCase(s: string)
    ensures LowerCase(s) == "bearer" <==> IsBearer(s)
  {
    if IsBearer(s) {
      assert LowerCase(s) == "bearer";
    }
    if LowerCase(s) == "bearer" {
      assert |LowerCase(s)| == 6;
      forall i | 0 <= i < 6 ensures s[i] == "bearer"[i] || s[i] == "BEARER"[i] {
        assert LowerCase(s)[i] == "bearer"[i];
      }
    }
  }

  /** Whatever a token endpoint answers, there is a session exactly when the answer is complete and its
      identity token passes every check; it holds the access token, for the whole seconds of the reported
      lifetime, at most an hour, or a quarter of an hour when none is reported. */
  lemma SessionExactly(c: Config, reply: TokenReply, nonce: Value, now: int)
    ensures SessionFrom(c, reply, nonce, now).Some? <==>
              && reply.Granted? && reply.access.Some? && reply.id.Some?
              && (reply.tokenType.Some? ==> IsBearer(reply.tokenType.value))
              && reply.id.value.issuer == c.issuer && reply.id.value.audience == c.clientId
              && reply.id.value.nonce == Some(nonce) && reply.id.value.subject != "" && now / 1000 < reply.id.value.expiresAt
    ensures SessionFrom(c, reply, nonce, now).Some? ==>
              && var s := SessionFrom(c, reply, nonce, now).value;
              && s.accessToken == reply.access.value && s.subject == reply.id.value.subject
              && var life := s.expiresAt - now / 1000;
              && (reply.expiresIn == None || reply.expiresIn.value <= 0.0 ==> life == 900)
              && (reply.expiresIn.Some? && 3600.0 <= reply.expiresIn.value ==> life == 3600)
              && (reply.expiresIn.Some? && 0.0 < reply.expiresIn.value < 3600.0 ==>
                    life as real <= reply.expiresIn.value < life as real + 1.0)
  {
    if reply.Granted? && reply.tokenType.Some? {
      BearerInAnyCase(reply.tokenType.value);
    }
  }

  /** A session cannot be read an hour after it was set, whatever the provider reports; it can be read
      at once exactly when the reported lifetime is not a fraction of a second. */
  lemma SessionSpan(c: Config, reply: TokenReply, nonce: Value, made: int, read: int)
    requires SessionFrom(c, reply, nonce, made).Some?
    ensures var s := SessionFrom(c, reply, nonce, made).value;
            && (read >= made + 3_600_000 ==> Expired(s.expiresAt, read))
            && (Expired(s.expiresAt, made) <==> reply.expiresIn.Some? && 0.0 < reply.expiresIn.value < 1.0)
  {
  }

  /** What a successful callback stores is what the session reads, exactly until an hour after the second
      in which it was verified. */
  lemma CallbackThenRead(c: Config, jar: Cookies, codes: map<Value, Authorization>, code: Value, state: Value,
                         discovered: bool, began: int, redeemed: int, verified: int, signs: bool, read: int)
    requires CallbackRun(c, jar, codes, code, state, discovered, began, redeemed, verified, signs).2
    ensures var session := CallbackRun(c, jar, codes, code, state, discovered, began, redeemed, verified, signs).0.session;
            && session.Some?
            && Readable(session, read) == if read < 1000 * (verified / 1000 + 3600) then session else None
  {
    var t := Unexpired(jar.transaction, began);
    var reply := Redeemed(codes, c, ExchangeFor(c, code, t.value.verifier), redeemed, signs).1;
    assert reply.expiresIn == Some(3600.0) && TokenLifetime(reply.expiresIn) == MAX_TOKEN_LIFETIME;
  }
}
