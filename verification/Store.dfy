/** The specification: what the API means, with no rows, ids or ciphertexts. */
module Store {
  import opened Prelude
  import opened Repo
  import opened Protocol
  import Order

  datatype Cell = Cell(value: Bytes, version: int)

  datatype Project = Project(createdAt: int, secrets: map<Bytes, Cell>)

  datatype Store = Store(projects: map<Bytes, Project>, tokens: seq<TokenRow>)

  const EMPTY := Store(map[], [])

  function Listing(projects: map<Bytes, Project>): seq<(Bytes, int)> {
    var names := Order.Sorted(projects.Keys);
    seq(|names|, i requires 0 <= i < |names| =>
      assert names[i] in names;
      (names[i], projects[names[i]].createdAt))
  }

  function Values(secrets: map<Bytes, Cell>): map<Bytes, Bytes> {
    map k | k in secrets :: secrets[k].value
  }

  /** One request served on the plain map by an authenticated caller. */
  function Serve(st: Store, who: Identity, req: Request, env: Env): (Store, Response) {
    if Guard(who, req).Some? then (st, Error(Guard(who, req).value))
    else Section(st, who, req, env)
  }

  function Section(st: Store, who: Identity, req: Request, env: Env): (Store, Response)
    requires Guard(who, req).None?
  {
    var ps := st.projects;
    match req
    case CreateProject(body) =>
      if body.value in ps then (st, Error(Conflict))
      else (st.(projects := ps[body.value := Project(env.now, map[])]), ProjectCreated(body.value))
    case ListProjects => (st, Projects(Visible(who, Listing(ps))))
    case GetSecrets(p) =>
      if p !in ps then (st, Error(NotFound)) else (st, Secrets(Values(ps[p].secrets)))
    case PutSecret(p, key, body) =>
      if p !in ps then (st, Error(NotFound)) else
        var cells := ps[p].secrets;
        var version := if key in cells then cells[key].version + 1 else 1;
        (st.(projects := ps[p := ps[p].(secrets := cells[key := Cell(body.value, version)])]),
         SecretPut(key, version))
    case DeleteSecret(p, key) =>
      if p !in ps || key !in ps[p].secrets then (st, Error(NotFound))
      else (st.(projects := ps[p := ps[p].(secrets := ps[p].secrets - {key})]), NoContent)
    case CreateToken(_) =>
      var (ts, r) := TokenSection(st.tokens, req, env);
      (st.(tokens := ts), r)
    case ListTokens =>
      var (ts, r) := TokenSection(st.tokens, req, env);
      (st.(tokens := ts), r)
    case RevokeToken(_) =>
      var (ts, r) := TokenSection(st.tokens, req, env);
      (st.(tokens := ts), r)
  }
}
