/** Requests and responses of the `/v1` API, and the checks made before the database is locked. */
module Protocol {
  import opened Prelude
  import opened Aead
  import opened Repo
  import Names
  import Utf8

  /** An extracted JSON body, or why extraction failed. */
  datatype Body<T> = Json(value: T) | TooLarge | Malformed

  datatype NewToken = NewToken(name: Bytes, project: Option<Bytes>, ttlDays: Option<nat>, noExpiry: bool)

  datatype Request =
    | CreateProject(name: Body<Bytes>)
    | ListProjects
    | GetSecrets(project: Bytes)
    | PutSecret(project: Bytes, key: Bytes, value: Body<Utf8.Text>)
    | DeleteSecret(project: Bytes, key: Bytes)
    | CreateToken(token: Body<NewToken>)
    | ListTokens
    | RevokeToken(tokenName: Bytes)

  datatype AppError =
    | Unauthorized
    | Forbidden
    | NotFound
    | BadRequest(reason: string)
    | Conflict
    | PayloadTooLarge
    | Internal(tag: string)

  datatype Response =
    | ProjectCreated(name: Bytes)
    | Projects(listing: seq<(Bytes, int)>)
    | Secrets(values: map<Bytes, Bytes>)
    | SecretPut(key: Bytes, version: int)
    | NoContent
    | TokenCreated(tokenName: Bytes, scope: Option<Bytes>, expiresAt: Option<Expiry>, token: Bytes)
    | Tokens(infos: seq<TokenInfo>)
    | Revoked(count: nat)
    | Error(error: AppError)
    // the handler panicked before taking the lock: the connection closes unanswered
    | Aborted

  /** What the environment supplies to one locked section: clock, nonce and a fresh token. */
  datatype Env = Env(now: int, nonce: Nonce, token: Bytes)

  const SECONDS_PER_DAY: int := 86400
  const DEFAULT_TTL_DAYS: nat := 90

  function EnsureScope(who: Identity, project: Bytes): Option<AppError> {
    if who.scope.Some? && who.scope.value != project then Some(Forbidden) else None
  }

  function EnsureAdmin(who: Identity): Option<AppError> {
    if who.scope.Some? then Some(Forbidden) else None
  }

  function BodyError<T>(body: Body<T>): Option<AppError> {
    match body
    case Json(_) => None
    case TooLarge => Some(PayloadTooLarge)
    case Malformed => Some(BadRequest("invalid JSON body"))
  }

  function CheckProject(name: Bytes): Option<AppError> {
    if Names.ValidProject(name) then None else Some(BadRequest("invalid project name"))
  }

  function CheckKey(key: Bytes): Option<AppError> {
    if Names.ValidKey(key) then None else Some(BadRequest("invalid key name"))
  }

  /** The first error of two checks made in order. */
  function Then(a: Option<AppError>, b: Option<AppError>): Option<AppError> {
    if a.Some? then a else b
  }

  function CheckNewToken(t: NewToken): Option<AppError> {
    if !Names.ValidProject(t.name) then Some(BadRequest("invalid token name"))
    else if t.project.Some? && !Names.ValidProject(t.project.value) then
      Some(BadRequest("invalid project scope name"))
    else if t.noExpiry && t.ttlDays.Some? then Some(BadRequest("ttl_days cannot be used with no_expiry"))
    else if !t.noExpiry && t.ttlDays == Some(0) then Some(BadRequest("ttl_days must be at least 1"))
    else None
  }

  /**
   Every check a handler makes before it takes the database lock, in its own
   order: `put_secret` looks at the scope before the key, `delete_secret` after.
   */
  function Guard(who: Identity, req: Request): Option<AppError> {
    match req
    case CreateProject(body) =>
      Then(BodyError(body),
           if body.Json? then Then(CheckProject(body.value), EnsureScope(who, body.value)) else None)
    case ListProjects => None
    case GetSecrets(name) => Then(CheckProject(name), EnsureScope(who, name))
    case PutSecret(name, key, body) =>
      Then(BodyError(body), Then(CheckProject(name), Then(EnsureScope(who, name), CheckKey(key))))
    case DeleteSecret(name, key) => Then(CheckProject(name), Then(CheckKey(key), EnsureScope(who, name)))
    case CreateToken(body) =>
      Then(EnsureAdmin(who), Then(BodyError(body), if body.Json? then CheckNewToken(body.value) else None))
    case ListTokens => EnsureAdmin(who)
    case RevokeToken(name) =>
      Then(EnsureAdmin(who), if Names.ValidProject(name) then None else Some(BadRequest("invalid token name")))
  }

  function TokenExpiry(t: NewToken, now: int): Option<Expiry> {
    if t.noExpiry then None
    else Some(At(now + SECONDS_PER_DAY * (if t.ttlDays.Some? then t.ttlDays.value else DEFAULT_TTL_DAYS)))
  }

  /** 9999-12-31T23:59:59Z, past which adding a duration to a time panics. */
  const LAST_TIME: int := 253402300799

  predicate Unrepresentable(expiry: Option<Expiry>) {
    expiry.Some? && expiry.value.At? && expiry.value.time > LAST_TIME
  }

  /** `list_projects` shows a scoped caller only its own project. */
  function Visible(who: Identity, listing: seq<(Bytes, int)>): seq<(Bytes, int)> {
    Filter(listing, (p: (Bytes, int)) => who.scope.None? || who.scope.value == p.0)
  }

  /** Tokens issued and revoked; the part of the API that works on the token table alone. */
  function TokenSection(ts: seq<TokenRow>, req: Request, env: Env): (seq<TokenRow>, Response)
    requires req.ListTokens? || req.RevokeToken? || (req.CreateToken? && req.token.Json?)
  {
    match req
    case ListTokens => (ts, Tokens(Repo.ListTokens(ts)))
    case RevokeToken(name) =>
      var (ts', n) := Repo.RevokeToken(ts, name);
      (ts', Revoked(n))
    case CreateToken(body) =>
      var t := body.value;
      var expiry := TokenExpiry(t, env.now);
      if Unrepresentable(expiry) then (ts, Aborted) else
      (InsertToken(ts, t.name, Sha256(env.token), t.project, expiry, env.now),
       TokenCreated(t.name, t.project, expiry, env.token))
  }

  // ---- local command line ----

  /** `secrets-server token create`: validate, then insert. */
  function CliCreate(ts: seq<TokenRow>, name: Bytes, project: Option<Bytes>, ttlDays: Option<nat>,
                     now: int, token: Bytes): (seq<TokenRow>, Response)
  {
    if !Names.ValidProject(name) then (ts, Error(BadRequest("invalid token name")))
    else if project.Some? && !Names.ValidProject(project.value) then
      (ts, Error(BadRequest("invalid project scope name")))
    else if ttlDays == Some(0) then (ts, Error(BadRequest("--ttl-days must be at least 1")))
    else
      var expiry := match ttlDays case None => None case Some(d) => Some(At(now + SECONDS_PER_DAY * d));
      if Unrepresentable(expiry) then (ts, Aborted) else
      (InsertToken(ts, name, Sha256(token), project, expiry, now), TokenCreated(name, project, expiry, token))
  }

  /** `secrets-server token revoke`: no validation of the name. */
  function CliRevoke(ts: seq<TokenRow>, name: Bytes): (seq<TokenRow>, Response) {
    var (ts', n) := Repo.RevokeToken(ts, name);
    (ts', Revoked(n))
  }
}
