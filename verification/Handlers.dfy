/** What each HTTP handler does to the tables, as a value-level step. */
module Handlers {
  import opened Prelude
  import opened Aead
  import opened Repo
  import opened Protocol
  import Encoding
  import Utf8

  /** The decryption loop of `get_secrets`; the first failing row decides the error. */
  function OpenRows(rows: seq<SecretRow>, project: Bytes, key: Key): Result<map<Bytes, Bytes>, AppError> {
    if rows == [] then Ok(map[]) else
      match OpenRows(rows[..|rows| - 1], project, key)
      case Err(e) => Err(e)
      case Ok(out) => OpenRow(out, rows[|rows| - 1], project, key)
  }

  function OpenRow(out: map<Bytes, Bytes>, row: SecretRow, project: Bytes, key: Key)
    : Result<map<Bytes, Bytes>, AppError>
  {
    match Decrypt(key, row.nonce, row.ct, Encoding.Aad(project, row.key))
    case None => Err(Internal("decrypt"))
    case Some(plaintext) =>
      if Utf8.Valid(plaintext) then Ok(out[row.key := plaintext]) else Err(Internal("non-utf8 secret"))
  }

  /** The part of a handler that runs under the database mutex. */
  function Section(db: Db, key: Key, who: Identity, req: Request, env: Env): (Db, Response)
    requires Guard(who, req).None?
  {
    match req
    case CreateProject(body) =>
      if ProjectIndex(db.projects, body.value).Some? then (db, Error(Conflict)) else
        (match InsertProject(db.projects, body.value, env.now)
         case None => (db, Error(Internal("database")))
         case Some(ps) => (db.(projects := ps), ProjectCreated(body.value)))
    case ListProjects => (db, Projects(Visible(who, Repo.ListProjects(db.projects))))
    case GetSecrets(name) =>
      (match ProjectIndex(db.projects, name)
       case None => (db, Error(NotFound))
       case Some(i) =>
         match OpenRows(ListSecretRows(db.secrets, db.projects[i].id), name, key)
         case Err(e) => (db, Error(e))
         case Ok(out) => (db, Secrets(out)))
    case PutSecret(name, k, body) =>
      (match ProjectIndex(db.projects, name)
       case None => (db, Error(NotFound))
       case Some(i) =>
         var ct := Encrypt(key, env.nonce, body.value, Encoding.Aad(name, k));
         match UpsertSecret(db, db.projects[i].id, k, env.nonce, ct, env.now)
         case None => (db, Error(Internal("database")))
         case Some((db', version)) => (db', SecretPut(k, version)))
    case DeleteSecret(name, k) =>
      (match ProjectIndex(db.projects, name)
       case None => (db, Error(NotFound))
       case Some(i) =>
         var (ss, removed) := Repo.DeleteSecret(db.secrets, db.projects[i].id, k);
         (db.(secrets := ss), if removed then NoContent else Error(NotFound)))
    case CreateToken(_) =>
      var (ts, r) := TokenSection(db.tokens, req, env);
      (db.(tokens := ts), r)
    case ListTokens =>
      var (ts, r) := TokenSection(db.tokens, req, env);
      (db.(tokens := ts), r)
    case RevokeToken(_) =>
      var (ts, r) := TokenSection(db.tokens, req, env);
      (db.(tokens := ts), r)
  }

  /** A handler run for an authenticated caller. */
  function Handle(db: Db, key: Key, who: Identity, req: Request, env: Env): (Db, Response) {
    if Guard(who, req).Some? then (db, Error(Guard(who, req).value))
    else Section(db, key, who, req, env)
  }
}
