/** The HTTP handlers as they run on the shared connection, check by check. */
module Server {
  import opened Prelude
  import opened Aead
  import opened Repo
  import opened Protocol
  import opened Connections
  import Encoding
  import Handlers
  import Names
  import Utf8

  class AppState {
    const conn: Connection
    const key: Key

    constructor (conn: Connection, key: Key)
      ensures this.conn == conn && this.key == key
    {
      this.conn, this.key := conn, key;
    }

    /** The bearer-token extractor, a locked section of its own. */
    method AuthedToken(presented: Option<Digest>, now: int) returns (r: Result<Identity, AppError>)
      ensures r == match presented
                   case None => Err(Unauthorized)
                   case Some(h) => match Repo.Authenticate(conn.tokens, h, now)
                                   case None => Err(Unauthorized)
                                   case Some(who) => Ok(who)
    {
      if presented.None? {
        return Err(Unauthorized);
      }
      var found := conn.Authenticate(presented.value, now);
      return if found.Some? then Ok(found.value) else Err(Unauthorized);
    }

    method CreateProject(who: Identity, body: Body<Bytes>, env: Env) returns (r: Response)
      modifies conn
      ensures (conn.Contents(), r) == Handlers.Handle(old(conn.Contents()), key, who, Request.CreateProject(body), env)
    {
      if !body.Json? {
        return Error(BodyError(body).value);
      }
      var name := body.value;
      if !Names.ValidProject(name) {
        return Error(BadRequest("invalid project name"));
      }
      if EnsureScope(who, name).Some? {
        return Error(Forbidden);
      }
      if ProjectIndex(conn.projects, name).Some? {
        return Error(Conflict);
      }
      var ok := conn.CreateProject(name, env.now);
      return if ok then ProjectCreated(name) else Error(Internal("database"));
    }

    /** `get_secrets`: decrypt row by row into the answer. */
    method GetSecrets(who: Identity, name: Bytes, env: Env) returns (r: Response)
      ensures (conn.Contents(), r) == Handlers.Handle(conn.Contents(), key, who, Request.GetSecrets(name), env)
    {
      if !Names.ValidProject(name) {
        return Error(BadRequest("invalid project name"));
      }
      if EnsureScope(who, name).Some? {
        return Error(Forbidden);
      }
      var pi := ProjectIndex(conn.projects, name);
      if pi.None? {
        return Error(NotFound);
      }
      var result := OpenAll(ListSecretRows(conn.secrets, conn.projects[pi.value].id), name);
      match result
      case Err(e) => return Error(e);
      case Ok(out) => return Secrets(out);
    }

    method OpenAll(rows: seq<SecretRow>, name: Bytes) returns (r: Result<map<Bytes, Bytes>, AppError>)
      ensures r == Handlers.OpenRows(rows, name, key)
    {
      var out: map<Bytes, Bytes> := map[];
      var i := 0;
      while i < |rows|
        invariant 0 <= i <= |rows|
        invariant Handlers.OpenRows(rows[..i], name, key) == Ok(out)
      {
        var row := rows[i];
        assert rows[..i + 1][..i] == rows[..i];
        var plaintext := Decrypt(key, row.nonce, row.ct, Encoding.Aad(name, row.key));
        if plaintext.None? {
          FirstErrorWins(rows, i + 1, name);
          return Err(Internal("decrypt"));
        }
        if !Utf8.Valid(plaintext.value) {
          FirstErrorWins(rows, i + 1, name);
          return Err(Internal("non-utf8 secret"));
        }
        out := out[row.key := plaintext.value];
        i := i + 1;
      }
      assert rows[..i] == rows;
      return Ok(out);
    }

    /** Rows after the first failing one do not change the answer. */
    lemma {:induction false} FirstErrorWins(rows: seq<SecretRow>, n: nat, name: Bytes)
      requires n <= |rows| && Handlers.OpenRows(rows[..n], name, key).Err?
      ensures Handlers.OpenRows(rows, name, key) == Handlers.OpenRows(rows[..n], name, key)
      decreases |rows|
    {
      if n < |rows| {
        assert rows[..|rows| - 1][..n] == rows[..n];
        FirstErrorWins(rows[..|rows| - 1], n, name);
      } else {
        assert rows[..n] == rows;
      }
    }

    method PutSecret(who: Identity, name: Bytes, k: Bytes, body: Body<Utf8.Text>, env: Env) returns (r: Response)
      modifies conn
      ensures (conn.Contents(), r) ==
              Handlers.Handle(old(conn.Contents()), key, who, Request.PutSecret(name, k, body), env)
    {
      if !body.Json? {
        return Error(BodyError(body).value);
      }
      if !Names.ValidProject(name) {
        return Error(BadRequest("invalid project name"));
      }
      if EnsureScope(who, name).Some? {
        return Error(Forbidden);
      }
      if !Names.ValidKey(k) {
        return Error(BadRequest("invalid key name"));
      }
      var pi := ProjectIndex(conn.projects, name);
      if pi.None? {
        return Error(NotFound);
      }
      var ct := Encrypt(key, env.nonce, body.value, Encoding.Aad(name, k));
      var version := conn.UpsertSecret(conn.projects[pi.value].id, k, env.nonce, ct, env.now);
      return if version.Some? then SecretPut(k, version.value) else Error(Internal("database"));
    }

    method DeleteSecret(who: Identity, name: Bytes, k: Bytes, env: Env) returns (r: Response)
      modifies conn
      ensures (conn.Contents(), r) ==
              Handlers.Handle(old(conn.Contents()), key, who, Request.DeleteSecret(name, k), env)
    {
      if !Names.ValidProject(name) {
        return Error(BadRequest("invalid project name"));
      }
      if !Names.ValidKey(k) {
        return Error(BadRequest("invalid key name"));
      }
      if EnsureScope(who, name).Some? {
        return Error(Forbidden);
      }
      var pi := ProjectIndex(conn.projects, name);
      if pi.None? {
        return Error(NotFound);
      }
      var removed := conn.DeleteSecret(conn.projects[pi.value].id, k);
      return if removed then NoContent else Error(NotFound);
    }

    method CreateToken(who: Identity, body: Body<NewToken>, env: Env) returns (r: Response)
      modifies conn
      ensures (conn.Contents(), r) ==
              Handlers.Handle(old(conn.Contents()), key, who, Request.CreateToken(body), env)
    {
      if EnsureAdmin(who).Some? {
        return Error(Forbidden);
      }
      if !body.Json? {
        return Error(BodyError(body).value);
      }
      var t := body.value;
      if !Names.ValidProject(t.name) {
        return Error(BadRequest("invalid token name"));
      }
      if t.project.Some? && !Names.ValidProject(t.project.value) {
        return Error(BadRequest("invalid project scope name"));
      }
      if t.noExpiry && t.ttlDays.Some? {
        return Error(BadRequest("ttl_days cannot be used with no_expiry"));
      }
      var expiresAt: Option<Expiry> := None;
      if !t.noExpiry {
        var days := if t.ttlDays.Some? then t.ttlDays.value else DEFAULT_TTL_DAYS;
        if days == 0 {
          return Error(BadRequest("ttl_days must be at least 1"));
        }
        expiresAt := Some(At(env.now + SECONDS_PER_DAY * days));
        if Unrepresentable(expiresAt) {
          return Aborted;
        }
      }
      conn.InsertToken(t.name, Sha256(env.token), t.project, expiresAt, env.now);
      return TokenCreated(t.name, t.project, expiresAt, env.token);
    }

    method RevokeToken(who: Identity, name: Bytes, env: Env) returns (r: Response)
      modifies conn
      ensures (conn.Contents(), r) ==
              Handlers.Handle(old(conn.Contents()), key, who, Request.RevokeToken(name), env)
    {
      if EnsureAdmin(who).Some? {
        return Error(Forbidden);
      }
      if !Names.ValidProject(name) {
        return Error(BadRequest("invalid token name"));
      }
      var n := conn.RevokeToken(name);
      return Revoked(n);
    }
  }
}
