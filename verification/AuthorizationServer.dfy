/**
 The identity provider's code flow: `authorize` issues a code and `token` redeems it, over one map
 of outstanding codes (RFC 6749, section 4.1; RFC 7636, section 4.6).
 */
module AuthorizationServer {
  import opened Wrappers

  // Text as sent, a value drawn at random, or the S256 digest of a value, which determines the value.
  datatype Value = Text(text: string) | Random(draw: nat) | Digest(of: Value)

  const EMPTY := Text("")

  datatype Config = Config(issuer: string, clientId: string, audience: string, redirectUri: string)

  datatype AuthorizeForm = AuthorizeForm(
    responseType: string, clientId: string, redirectUri: string, scopes: seq<string>, audience: string,
    state: Value, nonce: Value, challenge: Value, challengeMethod: string, identity: string)

  datatype TokenForm = TokenForm(grantType: string, clientId: string, redirectUri: string, code: Value, verifier: Value)

  datatype Authorization = Authorization(
    subject: string, redirectUri: string, challenge: Value, nonce: Value, expiresAt: int)

  datatype AuthorizeReply = Redirect(code: Value, state: Value) | BadRequest | NoRandomness

  // A token whose signature verifies against the provider's keys. Times are in seconds.
  datatype Token = Token(issuer: string, subject: string, audience: string, nonce: Option<Value>, issuedAt: int, expiresAt: int)

  // The answer to a token request as its client reads it; an absent lifetime is one that is not a finite number.
  datatype TokenReply =
    | Granted(access: Option<Token>, id: Option<Token>, tokenType: Option<string>, expiresIn: Option<real>)
    | InvalidGrant
    | NoSignature

  const IDENTITIES: set<string> := {"demo|learner", "demo|admin"}

  // Clock readings are in milliseconds.
  const CODE_LIFETIME := 120_000

  function Seconds(now: int): int {
    now / 1000
  }

  predicate Acceptable(c: Config, form: AuthorizeForm) {
    && form.responseType == "code" && form.clientId == c.clientId && form.redirectUri == c.redirectUri
    && form.challengeMethod == "S256" && form.challenge != EMPTY && form.state != EMPTY && form.nonce != EMPTY
    && "openid" in form.scopes && form.audience == c.audience
  }

  function Authorized(codes: map<Value, Authorization>, c: Config, form: AuthorizeForm, now: int, draw: Option<Value>)
    : (map<Value, Authorization>, AuthorizeReply)
  {
    if !Acceptable(c, form) || form.identity !in IDENTITIES then (codes, BadRequest)
    else if draw == None then (codes, NoRandomness)
    else
      (codes[draw.value := Authorization(form.identity, c.redirectUri, form.challenge, form.nonce, now + CODE_LIFETIME)],
       Redirect(draw.value, form.state))
  }

  predicate Redeemable(codes: map<Value, Authorization>, c: Config, form: TokenForm, now: int) {
    && form.code in codes && now <= codes[form.code].expiresAt && codes[form.code].redirectUri == c.redirectUri
    && Digest(form.verifier) == codes[form.code].challenge
  }

  function TokensFor(c: Config, auth: Authorization, now: int): TokenReply {
    var issued := Seconds(now);
    Granted(Some(Token(c.issuer, auth.subject, c.audience, None, issued, issued + 3600)),
            Some(Token(c.issuer, auth.subject, c.clientId, Some(auth.nonce), issued, issued + 3600)),
            Some("Bearer"), Some(3600.0))
  }

  function Redeemed(codes: map<Value, Authorization>, c: Config, form: TokenForm, now: int, signs: bool)
    : (map<Value, Authorization>, TokenReply)
  {
    if form.grantType != "authorization_code" || form.clientId != c.clientId || form.redirectUri != c.redirectUri
    then (codes, InvalidGrant)
    else
      (codes - {form.code},
       if !Redeemable(codes, c, form, now) then InvalidGrant
       else if !signs then NoSignature
       else TokensFor(c, codes[form.code], now))
  }

  /** The provider's token for its API, issued to a subject for an hour: it has the API's audience and
      no nonce, unlike the identity token granted with it. */
  ghost predicate IsAccessToken(c: Config, token: Token, subject: string, granted: int) {
    && token.issuer == c.issuer && token.audience == c.audience && token.nonce == None && token.subject == subject
    && token.issuedAt == granted / 1000 && token.expiresAt == granted / 1000 + 3600
  }

  /** The token that tells the client who signed in, bound to its login by the nonce. */
  ghost predicate IsIdToken(c: Config, token: Token, subject: string, nonce: Value, granted: int) {
    && token.issuer == c.issuer && token.audience == c.clientId && token.nonce == Some(nonce) && token.subject == subject
    && token.issuedAt == granted / 1000 && token.expiresAt == granted / 1000 + 3600
  }

  /** An authorization request the provider may grant. */
  ghost predicate WellFormed(c: Config, form: AuthorizeForm) {
    && form.responseType == "code" && form.challengeMethod == "S256" && "openid" in form.scopes
    && form.clientId == c.clientId && form.redirectUri == c.redirectUri && form.audience == c.audience
    && form.challenge != Text("") && form.state != Text("") && form.nonce != Text("")
    && (form.identity == "demo|learner" || form.identity == "demo|admin")
  }

  /** A token request that reaches the code it names. */
  ghost predicate Reaches(c: Config, form: TokenForm) {
    form.grantType == "authorization_code" && form.clientId == c.clientId && form.redirectUri == c.redirectUri
  }

  /** A code that the request may redeem. */
  ghost predicate Matches(c: Config, a: Authorization, verifier: Value, now: int) {
    now <= a.expiresAt && a.redirectUri == c.redirectUri && a.challenge == Digest(verifier)
  }

  lemma RedeemsExactly(codes: map<Value, Authorization>, c: Config, form: TokenForm, now: int, signs: bool)
    ensures var (codes', reply) := Redeemed(codes, c, form, now, signs);
            && codes' == (if Reaches(c, form) then codes - {form.code} else codes)
            && (reply.Granted? <==> signs && Reaches(c, form) && form.code in codes && Matches(c, codes[form.code], form.verifier, now))
  {
  }

  class Provider {
    const config: Config
    var codes: map<Value, Authorization>

    constructor (config: Config)
      ensures this.config == config && codes == map[]
    {
      this.config := config;
      codes := map[];
    }

    /** `draw` is the random value, if there is one to be had. */
    method Authorize(form: AuthorizeForm, now: int, draw: Option<Value>) returns (reply: AuthorizeReply)
      modifies this
      ensures (codes, reply) == Authorized(old(codes), config, form, now, draw)
      ensures reply == if !WellFormed(config, form) then BadRequest
                       else if draw == None then NoRandomness
                       else Redirect(draw.value, form.state)
      ensures !reply.Redirect? ==> codes == old(codes)
      ensures reply.Redirect? ==>
                && codes.Keys == old(codes).Keys + {reply.code}
                && (forall v | v in old(codes) && v != reply.code :: codes[v] == old(codes)[v])
                && var a := codes[reply.code];
                   && a.subject == form.identity && a.redirectUri == form.redirectUri
                   && a.challenge == form.challenge && a.nonce == form.nonce && a.expiresAt == now + 120_000
    {
      if !Acceptable(config, form) {
        return BadRequest;
      }
      var subject := form.identity;
      if subject != "demo|learner" && subject != "demo|admin" {
        return BadRequest;
      }
      if draw == None {
        return NoRandomness;
      }
      codes := codes[draw.value :=
        Authorization(subject, config.redirectUri, form.challenge, form.nonce, now + CODE_LIFETIME)];
      reply := Redirect(draw.value, form.state);
    }

    /** Any attempt at a code uses it up. */
    method Token(form: TokenForm, now: int, signs: bool) returns (reply: TokenReply)
      modifies this
      ensures (codes, reply) == Redeemed(old(codes), config, form, now, signs)
      ensures codes == if Reaches(config, form) then old(codes) - {form.code} else old(codes)
      ensures reply == InvalidGrant <==>
                !(Reaches(config, form) && form.code in old(codes) && Matches(config, old(codes)[form.code], form.verifier, now))
      ensures reply.Granted? ==>
                && signs && form.code in old(codes) && var a := old(codes)[form.code];
                && reply.access.Some? && IsAccessToken(config, reply.access.value, a.subject, now)
                && reply.id.Some? && IsIdToken(config, reply.id.value, a.subject, a.nonce, now)
                && reply.tokenType == Some("Bearer") && reply.expiresIn == Some(3600.0)
      ensures reply == NoSignature ==> !signs
    {
      if form.grantType != "authorization_code" || form.clientId != config.clientId || form.redirectUri != config.redirectUri {
        return InvalidGrant;
      }
      var found := form.code in codes;
      var auth := if found then codes[form.code] else Authorization("", "", EMPTY, EMPTY, 0);
      codes := codes - {form.code};
      var challenge := Digest(form.verifier);
      if !found || now > auth.expiresAt || auth.redirectUri != config.redirectUri || challenge != auth.challenge {
        return InvalidGrant;
      }
      if !signs {
        return NoSignature;
      }
      reply := TokensFor(config, auth, now);
    }
  }
}
