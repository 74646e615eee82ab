/**
 The SQLite tables as values, and what each data-access statement does to them.
 A table is the sequence of its rows in row-id order; an inserted row takes the
 next id and goes to the end.
 */
module Repo {
  import opened Prelude
  import opened Aead
  import Names
  import Order

  // ---- rows ----

  datatype ProjectRow = ProjectRow(id: int, name: Bytes, createdAt: int)

  datatype SecretRow = SecretRow(
    id: int, projectId: int, key: Bytes, nonce: Bytes, ct: Blob<Bytes>, version: int, updatedAt: int)

  /** An expiry column: a time, or text that does not parse as one. */
  datatype Expiry = At(time: int) | Unparseable

  datatype TokenRow = TokenRow(
    id: int, name: Bytes, hash: Digest, scope: Option<Bytes>, createdAt: int, revoked: bool,
    expiresAt: Option<Expiry>)

  datatype MetaKey = KdfSalt | KdfM | KdfT | KdfP | VerifierNonce | VerifierCt

  type Meta = map<MetaKey, Blob<Bytes>>

  datatype Db = Db(meta: Meta, projects: seq<ProjectRow>, secrets: seq<SecretRow>, tokens: seq<TokenRow>)

  const EMPTY_DB := Db(map[], [], [], [])

  // ---- projects ----

  /** `SELECT id FROM projects WHERE name = ?`, as a row position. */
  function ProjectIndex(ps: seq<ProjectRow>, name: Bytes): (r: Option<nat>)
    ensures r.Some? ==> r.value < |ps| && ps[r.value].name == name
    ensures r.Some? ==> forall j :: 0 <= j < r.value ==> ps[j].name != name
    ensures r.None? ==> forall j :: 0 <= j < |ps| ==> ps[j].name != name
  {
    First(ps, (p: ProjectRow) => p.name == name)
  }

  /** The project row a foreign key refers to. */
  function ProjectById(ps: seq<ProjectRow>, id: int): (r: Option<nat>)
    ensures r.Some? ==> r.value < |ps| && ps[r.value].id == id
    ensures r.Some? ==> forall j :: 0 <= j < r.value ==> ps[j].id != id
    ensures r.None? ==> forall j :: 0 <= j < |ps| ==> ps[j].id != id
  {
    First(ps, (p: ProjectRow) => p.id == id)
  }

  /** `INSERT INTO projects`; `None` when the UNIQUE constraint on the name fails. */
  function InsertProject(ps: seq<ProjectRow>, name: Bytes, now: int): Option<seq<ProjectRow>> {
    if ProjectIndex(ps, name).Some? then None
    else Some(ps + [ProjectRow(if ps == [] then 1 else ps[|ps| - 1].id + 1, name, now)])
  }

  function ProjectNames(ps: seq<ProjectRow>): set<Bytes> {
    set i | 0 <= i < |ps| :: ps[i].name
  }

  /** `SELECT name, created_at FROM projects ORDER BY name`. */
  function ListProjects(ps: seq<ProjectRow>): seq<(Bytes, int)> {
    var names := Order.Sorted(ProjectNames(ps));
    seq(|names|, i requires 0 <= i < |names| =>
      assert names[i] in names;
      (names[i], ps[ProjectIndex(ps, names[i]).value].createdAt))
  }

  // ---- secrets ----

  function SecretIndex(ss: seq<SecretRow>, pid: int, key: Bytes): (r: Option<nat>)
    ensures r.Some? ==> r.value < |ss| && ss[r.value].projectId == pid && ss[r.value].key == key
    ensures r.Some? ==> forall j :: 0 <= j < r.value ==> !(ss[j].projectId == pid && ss[j].key == key)
    ensures r.None? ==> forall j :: 0 <= j < |ss| ==> !(ss[j].projectId == pid && ss[j].key == key)
  {
    First(ss, (s: SecretRow) => s.projectId == pid && s.key == key)
  }

  /**
   `upsert_secret`: insert at version 1, or replace the ciphertext and raise the
   version. `None` when the foreign key names no project.
   */
  function UpsertSecret(db: Db, pid: int, key: Bytes, nonce: Bytes, ct: Blob<Bytes>, now: int): Option<(Db, int)> {
    var ss := db.secrets;
    match SecretIndex(ss, pid, key)
    case Some(i) =>
      var v := ss[i].version + 1;
      Some((db.(secrets := ss[i := ss[i].(nonce := nonce, ct := ct, version := v, updatedAt := now)]), v))
    case None =>
      if ProjectById(db.projects, pid).None? then None else
        var id := if ss == [] then 1 else ss[|ss| - 1].id + 1;
        Some((db.(secrets := ss + [SecretRow(id, pid, key, nonce, ct, 1, now)]), 1))
  }

  /** `delete_secret`; UNIQUE(project_id, key) leaves at most one row to remove. */
  function DeleteSecret(ss: seq<SecretRow>, pid: int, key: Bytes): (seq<SecretRow>, bool) {
    match SecretIndex(ss, pid, key)
    case Some(i) => (ss[..i] + ss[i + 1..], true)
    case None => (ss, false)
  }

  function KeysOf(ss: seq<SecretRow>, pid: int): set<Bytes> {
    set i | 0 <= i < |ss| && ss[i].projectId == pid :: ss[i].key
  }

  /** `list_secret_rows`: the rows of one project, by key. */
  function ListSecretRows(ss: seq<SecretRow>, pid: int): seq<SecretRow> {
    var keys := Order.Sorted(KeysOf(ss, pid));
    seq(|keys|, i requires 0 <= i < |keys| =>
      assert keys[i] in keys;
      ss[SecretIndex(ss, pid, keys[i]).value])
  }

  /** `UPDATE secrets SET nonce, ciphertext WHERE id`. */
  function UpdateCiphertext(ss: seq<SecretRow>, id: int, nonce: Bytes, ct: Blob<Bytes>): (r: seq<SecretRow>)
    ensures |r| == |ss|
    ensures forall j :: 0 <= j < |ss| ==>
              r[j] == if ss[j].id == id then ss[j].(nonce := nonce, ct := ct) else ss[j]
  {
    seq(|ss|, j requires 0 <= j < |ss| => if ss[j].id == id then ss[j].(nonce := nonce, ct := ct) else ss[j])
  }

  // ---- tokens ----

  /** The authenticated identity. */
  datatype Identity = Identity(name: Bytes, scope: Option<Bytes>)

  function InsertToken(ts: seq<TokenRow>, name: Bytes, hash: Digest, scope: Option<Bytes>,
                       expiresAt: Option<Expiry>, now: int): seq<TokenRow> {
    ts + [TokenRow(if ts == [] then 1 else ts[|ts| - 1].id + 1, name, hash, scope, now, false, expiresAt)]
  }

  /** `revoke_token`: mark every active row of that name, counting them. */
  function RevokeToken(ts: seq<TokenRow>, name: Bytes): (r: (seq<TokenRow>, nat))
    ensures |r.0| == |ts|
    ensures forall j :: 0 <= j < |ts| ==>
              r.0[j] == if ts[j].name == name then ts[j].(revoked := true) else ts[j]
  {
    if ts == [] then ([], 0) else
      var last := ts[|ts| - 1];
      var (rest, n) := RevokeToken(ts[..|ts| - 1], name);
      if last.name == name && !last.revoked
      then (rest + [last.(revoked := true)], n + 1)
      else (rest + [last], n)
  }

  /** Neither revoked nor expired; unparseable expiry counts as expired. */
  predicate Live(t: TokenRow, now: int) {
    !t.revoked && (t.expiresAt.Some? ==> t.expiresAt.value.At? && t.expiresAt.value.time > now)
  }

  predicate Accepts(t: TokenRow, hash: Digest, now: int) {
    Live(t, now) && t.hash == hash
  }

  /** The row that authenticates a presented hash: the last accepting one of the scan. */
  function AuthIndex(ts: seq<TokenRow>, hash: Digest, now: int): (r: Option<nat>)
    ensures r.Some? ==> r.value < |ts| && Accepts(ts[r.value], hash, now)
    ensures r.Some? ==> forall j :: r.value < j < |ts| ==> !Accepts(ts[j], hash, now)
    ensures r.None? ==> forall j :: 0 <= j < |ts| ==> !Accepts(ts[j], hash, now)
  {
    if ts == [] then None
    else if Accepts(ts[|ts| - 1], hash, now) then Some(|ts| - 1)
    else AuthIndex(ts[..|ts| - 1], hash, now)
  }

  function Authenticate(ts: seq<TokenRow>, hash: Digest, now: int): Option<Identity> {
    match AuthIndex(ts, hash, now)
    case None => None
    case Some(i) => Some(Identity(ts[i].name, ts[i].scope))
  }

  /** Token metadata as listed; the hash is not part of it. */
  datatype TokenInfo = TokenInfo(
    name: Bytes, scope: Option<Bytes>, createdAt: int, expiresAt: Option<Expiry>, revoked: bool)

  /** Stable insertion after every row created no later. */
  function InsertByTime(t: TokenInfo, s: seq<TokenInfo>): (r: seq<TokenInfo>)
    ensures |r| == |s| + 1
    ensures forall i :: 0 <= i < |r| ==> r[i] == t || r[i] in s
  {
    if s == [] || s[|s| - 1].createdAt <= t.createdAt then s + [t]
    else InsertByTime(t, s[..|s| - 1]) + [s[|s| - 1]]
  }

  /** `SELECT ... FROM tokens ORDER BY created_at`. */
  function ListTokens(ts: seq<TokenRow>): seq<TokenInfo> {
    if ts == [] then [] else InsertByTime(Info(ts[|ts| - 1]), ListTokens(ts[..|ts| - 1]))
  }

  function Info(t: TokenRow): TokenInfo {
    TokenInfo(t.name, t.scope, t.createdAt, t.expiresAt, t.revoked)
  }

  ghost predicate ByTime(s: seq<TokenInfo>) {
    forall i, j :: 0 <= i < j < |s| ==> s[i].createdAt <= s[j].createdAt
  }

  lemma {:induction false} InsertByTimeSorts(t: TokenInfo, s: seq<TokenInfo>)
    requires ByTime(s)
    ensures ByTime(InsertByTime(t, s))
  {
    if s != [] && s[|s| - 1].createdAt > t.createdAt {
      var init, last := s[..|s| - 1], s[|s| - 1];
      InsertByTimeSorts(t, init);
      var rest := InsertByTime(t, init);
      forall i | 0 <= i < |rest| ensures rest[i].createdAt <= last.createdAt {
        assert rest[i] == t || rest[i] in init;
      }
    }
  }

  lemma {:induction false} InsertByTimeContents(t: TokenInfo, s: seq<TokenInfo>)
    ensures multiset(InsertByTime(t, s)) == multiset(s) + multiset{t}
  {
    if s != [] && s[|s| - 1].createdAt > t.createdAt {
      InsertByTimeContents(t, s[..|s| - 1]);
      assert s == s[..|s| - 1] + [s[|s| - 1]];
    }
  }

  /** The columns a listing shows, row by row. */
  function Columns(ts: seq<TokenRow>): (r: seq<TokenInfo>)
    ensures |r| == |ts|
  {
    seq(|ts|, i requires 0 <= i < |ts| =>
      TokenInfo(ts[i].name, ts[i].scope, ts[i].createdAt, ts[i].expiresAt, ts[i].revoked))
  }

  /** The listing holds the columns of every token once, oldest first. */
  lemma {:induction false} ListTokensSorts(ts: seq<TokenRow>)
    ensures ByTime(ListTokens(ts))
    ensures multiset(ListTokens(ts)) == multiset(Columns(ts))
  {
    if ts != [] {
      var init := ts[..|ts| - 1];
      ListTokensSorts(init);
      InsertByTimeSorts(Info(ts[|ts| - 1]), ListTokens(init));
      InsertByTimeContents(Info(ts[|ts| - 1]), ListTokens(init));
      assert Columns(ts) == Columns(init) + [Info(ts[|ts| - 1])];
    }
  }

  /** A listed entry is some row's columns, and every row's columns are listed. */
  lemma Listed(ts: seq<TokenRow>, info: TokenInfo)
    ensures info in ListTokens(ts) <==>
            exists i :: 0 <= i < |ts| && info == TokenInfo(ts[i].name, ts[i].scope, ts[i].createdAt,
                                                           ts[i].expiresAt, ts[i].revoked)
  {
    ListTokensSorts(ts);
    assert info in ListTokens(ts) <==> info in multiset(ListTokens(ts));
    assert info in Columns(ts) <==> info in multiset(Columns(ts));
    if info in Columns(ts) {
      var i :| 0 <= i < |ts| && Columns(ts)[i] == info;
    }
    if i :| 0 <= i < |ts| && info == TokenInfo(ts[i].name, ts[i].scope, ts[i].createdAt, ts[i].expiresAt, ts[i].revoked) {
      assert Columns(ts)[i] == info;
    }
  }

  // ---- schema integrity ----

  /** Primary key, UNIQUE(name), and only names the API admits. */
  ghost predicate ProjectsOk(ps: seq<ProjectRow>) {
    && (forall i, j :: 0 <= i < j < |ps| ==> ps[i].id < ps[j].id && ps[i].name != ps[j].name)
    && (forall i :: 0 <= i < |ps| ==> Names.ValidProject(ps[i].name))
  }

  /** Primary key, UNIQUE(project_id, key), foreign keys, admitted keys, positive versions. */
  ghost predicate SecretsOk(ps: seq<ProjectRow>, ss: seq<SecretRow>) {
    && (forall i, j :: 0 <= i < j < |ss| ==>
          ss[i].id < ss[j].id && !(ss[i].projectId == ss[j].projectId && ss[i].key == ss[j].key))
    && (forall i :: 0 <= i < |ss| ==>
          ProjectById(ps, ss[i].projectId).Some? && Names.ValidKey(ss[i].key) && ss[i].version >= 1)
  }

  ghost predicate Integrity(db: Db) {
    ProjectsOk(db.projects) && SecretsOk(db.projects, db.secrets)
  }
}
