/**
 The encrypted tables implement the plain map: every handler answers and updates
 as the specification does, and keeps metadata, verifier and rows in agreement.
 */
module Refinement {
  import opened Prelude
  import opened Aead
  import opened Repo
  import opened CryptoState
  import opened Protocol
  import Encoding
  import Handlers
  import Names
  import Order
  import Store
  import Utf8

  // ---- abstraction ----

  function CellOf(s: SecretRow): Store.Cell {
    Store.Cell(if s.ct.Sealed? then s.ct.payload else [], s.version)
  }

  /** The secrets of one project, by key. */
  function View(ss: seq<SecretRow>, pid: int): map<Bytes, Store.Cell> {
    map k | k in KeysOf(ss, pid) :: CellOf(ss[SecretIndex(ss, pid, k).value])
  }

  /** The plain map the tables stand for. Row ids, nonces and keys do not appear in it. */
  function Abs(db: Db): Store.Store {
    var ps := db.projects;
    Store.Store(
      map n | n in ProjectNames(ps) ::
        var p := ps[ProjectIndex(ps, n).value];
        Store.Project(p.createdAt, View(db.secrets, p.id)),
      db.tokens)
  }

  // ---- row positions ----

  /** Tables whose rows agree on project and key position by position have the same positions. */
  lemma SameIndex(ss: seq<SecretRow>, ss': seq<SecretRow>, pid: int, key: Bytes)
    requires |ss| == |ss'|
    requires forall j :: 0 <= j < |ss| ==> ss[j].projectId == ss'[j].projectId && ss[j].key == ss'[j].key
    ensures SecretIndex(ss, pid, key) == SecretIndex(ss', pid, key)
  {
    var a, b := SecretIndex(ss, pid, key), SecretIndex(ss', pid, key);
    if a.Some? { assert ss'[a.value].key == key; }
    if b.Some? { assert ss[b.value].key == key; }
  }

  lemma AppendIndex(ss: seq<SecretRow>, row: SecretRow, pid: int, key: Bytes)
    ensures var a, b := SecretIndex(ss, pid, key), SecretIndex(ss + [row], pid, key);
            b == if a.Some? then a
                 else if row.projectId == pid && row.key == key then Some(|ss|) else None
  {
    var a, b := SecretIndex(ss, pid, key), SecretIndex(ss + [row], pid, key);
    assert forall j :: 0 <= j < |ss| ==> (ss + [row])[j] == ss[j];
    assert (ss + [row])[|ss|] == row;
  }

  ghost predicate UniqueKeys(ss: seq<SecretRow>) {
    forall i, j :: 0 <= i < j < |ss| ==> !(ss[i].projectId == ss[j].projectId && ss[i].key == ss[j].key)
  }

  lemma DeleteIndex(ss: seq<SecretRow>, i: nat, pid: int, key: Bytes)
    requires i < |ss| && UniqueKeys(ss)
    ensures var a, b := SecretIndex(ss, pid, key), SecretIndex(ss[..i] + ss[i + 1..], pid, key);
            b == if a.None? || a.value == i then None
                 else if a.value < i then a else Some(a.value - 1)
  {
    var ss' := ss[..i] + ss[i + 1..];
    assert forall j :: 0 <= j < |ss'| ==> ss'[j] == ss[if j < i then j else j + 1];
    var a, b := SecretIndex(ss, pid, key), SecretIndex(ss', pid, key);
    if b.Some? {
      assert ss'[b.value] == ss[if b.value < i then b.value else b.value + 1];
    }
    if a.Some? && a.value != i {
      assert ss'[if a.value < i then a.value else a.value - 1] == ss[a.value];
    }
  }

  // ---- views ----

  /** The cell a project holds under a key, if any. */
  function CellAt(ss: seq<SecretRow>, pid: int, key: Bytes): Option<Store.Cell> {
    match SecretIndex(ss, pid, key)
    case None => None
    case Some(i) => Some(CellOf(ss[i]))
  }

  function Look<V>(v: map<Bytes, V>, key: Bytes): Option<V> {
    if key in v then Some(v[key]) else None
  }

  lemma ViewLook(ss: seq<SecretRow>, pid: int, key: Bytes)
    ensures Look(View(ss, pid), key) == CellAt(ss, pid, key)
  {
    var a := SecretIndex(ss, pid, key);
    if a.Some? { assert ss[a.value].key in KeysOf(ss, pid); }
  }

  lemma SameLooks<V>(v: map<Bytes, V>, w: map<Bytes, V>)
    requires forall k :: Look(v, k) == Look(w, k)
    ensures v == w
  {
    forall k ensures k in v <==> k in w ensures k in v ==> v[k] == w[k] {
      assert Look(v, k) == Look(w, k);
    }
    assert v.Keys == w.Keys;
  }

  /** Re-encrypting rows leaves every view alone. */
  lemma ViewResealed(ss: seq<SecretRow>, ss': seq<SecretRow>, n: nat, newKey: Key, pid: int)
    requires Resealed(ss, ss', n, newKey)
    ensures View(ss, pid) == View(ss', pid)
  {
    forall j | 0 <= j < |ss|
      ensures ss[j].projectId == ss'[j].projectId && ss[j].key == ss'[j].key && CellOf(ss[j]) == CellOf(ss'[j])
    {
      if j < n { assert ResealedRow(ss[j], ss'[j], newKey); }
    }
    forall k ensures Look(View(ss, pid), k) == Look(View(ss', pid), k) {
      SameIndex(ss, ss', pid, k);
      ViewLook(ss, pid, k);
      ViewLook(ss', pid, k);
    }
    SameLooks(View(ss, pid), View(ss', pid));
  }

  lemma ViewUpdate(ss: seq<SecretRow>, i: nat, row: SecretRow, pid: int)
    requires i < |ss| && SecretIndex(ss, row.projectId, row.key) == Some(i)
    ensures View(ss[i := row], pid) ==
            if pid == row.projectId then View(ss, pid)[row.key := CellOf(row)] else View(ss, pid)
  {
    var ss' := ss[i := row];
    var w := if pid == row.projectId then View(ss, pid)[row.key := CellOf(row)] else View(ss, pid);
    forall k ensures Look(View(ss', pid), k) == Look(w, k) {
      SameIndex(ss, ss', pid, k);
      ViewLook(ss, pid, k);
      ViewLook(ss', pid, k);
    }
    SameLooks(View(ss', pid), w);
  }

  lemma ViewAppend(ss: seq<SecretRow>, row: SecretRow, pid: int)
    requires SecretIndex(ss, row.projectId, row.key).None?
    ensures View(ss + [row], pid) ==
            if pid == row.projectId then View(ss, pid)[row.key := CellOf(row)] else View(ss, pid)
  {
    var w := if pid == row.projectId then View(ss, pid)[row.key := CellOf(row)] else View(ss, pid);
    forall k ensures Look(View(ss + [row], pid), k) == Look(w, k) {
      AppendIndex(ss, row, pid, k);
      ViewLook(ss, pid, k);
      ViewLook(ss + [row], pid, k);
    }
    SameLooks(View(ss + [row], pid), w);
  }

  lemma CellAtDelete(ss: seq<SecretRow>, i: nat, pid: int, k: Bytes)
    requires i < |ss| && UniqueKeys(ss)
    ensures CellAt(ss[..i] + ss[i + 1..], pid, k) ==
            if pid == ss[i].projectId && k == ss[i].key then None else CellAt(ss, pid, k)
  {
    DeleteIndex(ss, i, pid, k);
    var a, ss' := SecretIndex(ss, pid, k), ss[..i] + ss[i + 1..];
    if a.Some? && a.value != i {
      assert ss'[if a.value < i then a.value else a.value - 1] == ss[a.value];
    }
  }

  lemma ViewDelete(ss: seq<SecretRow>, i: nat, ss': seq<SecretRow>, pid: int)
    requires i < |ss| && UniqueKeys(ss) && ss' == ss[..i] + ss[i + 1..]
    ensures View(ss', pid) ==
            if pid == ss[i].projectId then View(ss, pid) - {ss[i].key} else View(ss, pid)
  {
    var w := if pid == ss[i].projectId then View(ss, pid) - {ss[i].key} else View(ss, pid);
    forall k ensures Look(View(ss', pid), k) == Look(w, k) {
      CellAtDelete(ss, i, pid, k);
      ViewLook(ss, pid, k);
      ViewLook(ss', pid, k);
    }
    SameLooks(View(ss', pid), w);
  }

  // ---- projects ----

  /** The specification-level project a name stands for, if any. */
  function ProjectAt(db: Db, name: Bytes): Option<Store.Project> {
    match ProjectIndex(db.projects, name)
    case None => None
    case Some(i) => Some(Store.Project(db.projects[i].createdAt, View(db.secrets, db.projects[i].id)))
  }

  lemma AbsLook(db: Db, name: Bytes)
    ensures Look(Abs(db).projects, name) == ProjectAt(db, name)
  {
    InNames(db.projects, name);
  }

  lemma InNames(ps: seq<ProjectRow>, name: Bytes)
    ensures name in ProjectNames(ps) <==> ProjectIndex(ps, name).Some?
  {
    var a := ProjectIndex(ps, name);
    if a.Some? { assert ps[a.value].name in ProjectNames(ps); }
  }

  /** The row a project id refers to is the row it was read from. */
  lemma IdFindsRow(ps: seq<ProjectRow>, i: nat)
    requires ProjectsOk(ps) && i < |ps|
    ensures ProjectById(ps, ps[i].id) == Some(i)
    ensures ProjectIndex(ps, ps[i].name) == Some(i)
  {
  }

  lemma AbsSecretsAt(db: Db, ss: seq<SecretRow>, i: nat, name: Bytes)
    requires ProjectsOk(db.projects) && i < |db.projects|
    requires forall pid :: pid != db.projects[i].id ==> View(ss, pid) == View(db.secrets, pid)
    ensures var p := db.projects[i];
            Look(Abs(db.(secrets := ss)).projects, name) ==
            if name == p.name then Some(Store.Project(p.createdAt, View(ss, p.id))) else ProjectAt(db, name)
  {
    IdFindsRow(db.projects, i);
    AbsLook(db.(secrets := ss), name);
    var j := ProjectIndex(db.projects, name);
    if j.Some? && name != db.projects[i].name { assert db.projects[j.value].id != db.projects[i].id; }
  }

  /** Changing one project's view changes the abstract map at that project only. */
  lemma AbsSecrets(db: Db, ss: seq<SecretRow>, i: nat)
    requires ProjectsOk(db.projects) && i < |db.projects|
    requires forall pid :: pid != db.projects[i].id ==> View(ss, pid) == View(db.secrets, pid)
    ensures var p := db.projects[i];
            Abs(db.(secrets := ss)).projects ==
            Abs(db).projects[p.name := Store.Project(p.createdAt, View(ss, p.id))]
  {
    var p := db.projects[i];
    var v := Abs(db.(secrets := ss)).projects;
    var w := Abs(db).projects[p.name := Store.Project(p.createdAt, View(ss, p.id))];
    forall n ensures Look(v, n) == Look(w, n) {
      AbsLook(db, n);
      AbsSecretsAt(db, ss, i, n);
    }
    SameLooks(v, w);
  }

  lemma AbsAppend(db: Db, row: ProjectRow)
    requires ProjectIndex(db.projects, row.name).None? && View(db.secrets, row.id) == map[]
    ensures Abs(db.(projects := db.projects + [row])).projects ==
            Abs(db).projects[row.name := Store.Project(row.createdAt, map[])]
  {
    var db' := db.(projects := db.projects + [row]);
    var w := Abs(db).projects[row.name := Store.Project(row.createdAt, map[])];
    forall n ensures Look(Abs(db').projects, n) == Look(w, n) {
      AbsLook(db, n);
      AbsLook(db', n);
      ProjectIndexAppend(db.projects, row, n);
    }
    SameLooks(Abs(db').projects, w);
  }

  ghost predicate Refines(db: Db, key: Key, who: Identity, req: Request, env: Env) {
    var (db', r) := Handlers.Handle(db, key, who, req, env);
    Store.Serve(Abs(db), who, req, env) == (Abs(db'), r) && Consistent(db', key)
  }

  // ---- one lemma per handler ----

  lemma ProjectIndexAppend(ps: seq<ProjectRow>, row: ProjectRow, name: Bytes)
    requires ProjectIndex(ps, row.name).None?
    ensures ProjectIndex(ps + [row], name) ==
            if name == row.name then Some(|ps|) else ProjectIndex(ps, name)
  {
    var qs := ps + [row];
    assert qs[|ps|] == row && forall j :: 0 <= j < |ps| ==> qs[j] == ps[j];
  }

  lemma ProjectByIdAppend(ps: seq<ProjectRow>, row: ProjectRow, id: int)
    ensures ProjectById(ps, id).Some? ==> ProjectById(ps + [row], id) == ProjectById(ps, id)
  {
    var qs := ps + [row];
    assert qs[|ps|] == row && forall j :: 0 <= j < |ps| ==> qs[j] == ps[j];
  }

  /** The id an inserted project takes is referred to by no secret yet. */
  lemma NoRowsForNewProject(db: Db, id: int)
    requires Integrity(db)
    requires id == if db.projects == [] then 1 else db.projects[|db.projects| - 1].id + 1
    ensures View(db.secrets, id) == map[]
  {
    assert ProjectById(db.projects, id).None?;
    forall k ensures Look(View(db.secrets, id), k) == None {
      ViewLook(db.secrets, id, k);
    }
    SameLooks(View(db.secrets, id), map[]);
  }

  lemma InsertKeepsConsistent(db: Db, key: Key, row: ProjectRow)
    requires Consistent(db, key) && Names.ValidProject(row.name) && ProjectIndex(db.projects, row.name).None?
    requires row.id == if db.projects == [] then 1 else db.projects[|db.projects| - 1].id + 1
    ensures Consistent(db.(projects := db.projects + [row]), key)
  {
    var ps, qs := db.projects, db.projects + [row];
    forall i | 0 <= i < |db.secrets|
      ensures RowOk(qs, key, db.secrets[i]) && ProjectById(qs, db.secrets[i].projectId).Some?
    {
      assert RowOk(ps, key, db.secrets[i]);
      ProjectByIdAppend(ps, row, db.secrets[i].projectId);
    }
    assert forall i :: 0 <= i < |ps| ==> ps[i].id < row.id;
    assert ProjectsOk(qs);
  }

  lemma CreateResult(db: Db, key: Key, who: Identity, req: Request, env: Env, row: ProjectRow)
    requires req.CreateProject? && Guard(who, req).None? && ProjectIndex(db.projects, req.name.value).None?
    requires row.id == if db.projects == [] then 1 else db.projects[|db.projects| - 1].id + 1
    requires row == ProjectRow(row.id, req.name.value, env.now)
    ensures Handlers.Handle(db, key, who, req, env) ==
            (db.(projects := db.projects + [row]), ProjectCreated(row.name))
  {
  }

  lemma RefineCreateProject(db: Db, key: Key, who: Identity, req: Request, env: Env)
    requires Consistent(db, key) && req.CreateProject? && Guard(who, req).None?
    ensures Refines(db, key, who, req, env)
  {
    var name, ps := req.name.value, db.projects;
    AbsLook(db, name);
    if ProjectIndex(ps, name).None? {
      var row := ProjectRow(if ps == [] then 1 else ps[|ps| - 1].id + 1, name, env.now);
      InsertKeepsConsistent(db, key, row);
      NoRowsForNewProject(db, row.id);
      AbsAppend(db, row);
      CreateResult(db, key, who, req, env, row);
    }
  }

  lemma RefineListProjects(db: Db, key: Key, who: Identity, req: Request, env: Env)
    requires Consistent(db, key) && req.ListProjects?
    ensures Refines(db, key, who, req, env)
  {
    assert Abs(db).projects.Keys == ProjectNames(db.projects);
    assert Repo.ListProjects(db.projects) == Store.Listing(Abs(db).projects);
  }

  /** Rows that agree with the server's key all open, to the cells they stand for. */
  lemma {:induction false} OpenRowsExact(
    ps: seq<ProjectRow>, i: nat, rows: seq<SecretRow>, key: Key, cells: map<Bytes, Store.Cell>)
    requires ProjectsOk(ps) && i < |ps|
    requires forall j :: 0 <= j < |rows| ==> RowOk(ps, key, rows[j]) && rows[j].projectId == ps[i].id
    requires forall j :: 0 <= j < |rows| ==> Look(cells, rows[j].key) == Some(CellOf(rows[j]))
    ensures var r := Handlers.OpenRows(rows, ps[i].name, key);
            && r.Ok?
            && (forall k :: k in r.value ==> k in cells && r.value[k] == cells[k].value)
            && (forall j :: 0 <= j < |rows| ==> rows[j].key in r.value)
  {
    if rows != [] {
      OpenRowsExact(ps, i, rows[..|rows| - 1], key, cells);
      IdFindsRow(ps, i);
      var row := rows[|rows| - 1];
      assert RowOk(ps, key, row);
      var out := Handlers.OpenRows(rows[..|rows| - 1], ps[i].name, key).value;
      assert Handlers.OpenRow(out, row, ps[i].name, key) == Ok(out[row.key := row.ct.payload]);
      forall j | 0 <= j < |rows| ensures rows[j].key in out[row.key := row.ct.payload] {
        if j < |rows| - 1 { assert rows[..|rows| - 1][j] == rows[j]; }
      }
    }
  }

  lemma ListedRow(ss: seq<SecretRow>, pid: int, j: nat)
    requires j < |ListSecretRows(ss, pid)|
    ensures var s := ListSecretRows(ss, pid)[j];
            && s in ss && s.projectId == pid && s.key == Order.Sorted(KeysOf(ss, pid))[j]
            && Look(View(ss, pid), s.key) == Some(CellOf(s))
  {
    var k := Order.Sorted(KeysOf(ss, pid))[j];
    assert k in Order.Sorted(KeysOf(ss, pid));
    ViewLook(ss, pid, k);
  }

  /** Every key of a project is listed. */
  lemma ListedKey(ss: seq<SecretRow>, pid: int, k: Bytes) returns (j: nat)
    requires k in View(ss, pid)
    ensures j < |ListSecretRows(ss, pid)| && ListSecretRows(ss, pid)[j].key == k
  {
    var keys := Order.Sorted(KeysOf(ss, pid));
    assert k in keys;
    j :| 0 <= j < |keys| && keys[j] == k;
    ListedRow(ss, pid, j);
  }

  /** Listing and opening a project's rows gives exactly the values of its view. */
  lemma OpenProject(db: Db, key: Key, i: nat)
    requires Consistent(db, key) && i < |db.projects|
    ensures var p := db.projects[i];
            Handlers.OpenRows(ListSecretRows(db.secrets, p.id), p.name, key) ==
            Ok(Store.Values(View(db.secrets, p.id)))
  {
    var p, ss := db.projects[i], db.secrets;
    var rows, cells := ListSecretRows(ss, p.id), View(ss, p.id);
    forall j | 0 <= j < |rows|
      ensures RowOk(db.projects, key, rows[j]) && rows[j].projectId == p.id
      ensures Look(cells, rows[j].key) == Some(CellOf(rows[j]))
    {
      ListedRow(ss, p.id, j);
    }
    OpenRowsExact(db.projects, i, rows, key, cells);
    var r := Handlers.OpenRows(rows, p.name, key).value;
    forall k | k in cells ensures k in r {
      var j := ListedKey(ss, p.id, k);
    }
    SameValues(r, cells);
  }

  lemma SameValues(r: map<Bytes, Bytes>, cells: map<Bytes, Store.Cell>)
    requires forall k :: k in r ==> k in cells && r[k] == cells[k].value
    requires forall k :: k in cells ==> k in r
    ensures r == Store.Values(cells)
  {
    assert r.Keys == cells.Keys;
  }

  lemma RefineGetSecrets(db: Db, key: Key, who: Identity, req: Request, env: Env)
    requires Consistent(db, key) && req.GetSecrets? && Guard(who, req).None?
    ensures Refines(db, key, who, req, env)
  {
    AbsLook(db, req.project);
    var i := ProjectIndex(db.projects, req.project);
    if i.Some? {
      OpenProject(db, key, i.value);
    }
  }

  /** Replacing a row by one of the same id, project and key. */
  lemma UpdateKeepsSecretsOk(ps: seq<ProjectRow>, ss: seq<SecretRow>, i: nat, row: SecretRow)
    requires SecretsOk(ps, ss) && i < |ss| && row.version >= 1
    requires row.id == ss[i].id && row.projectId == ss[i].projectId && row.key == ss[i].key
    ensures SecretsOk(ps, ss[i := row])
  {
    var ss' := ss[i := row];
    assert forall j :: 0 <= j < |ss| ==>
      ss'[j].id == ss[j].id && ss'[j].projectId == ss[j].projectId && ss'[j].key == ss[j].key;
  }

  /** Appending a row with the next id under a project and key not yet in the table. */
  lemma AppendKeepsSecretsOk(ps: seq<ProjectRow>, ss: seq<SecretRow>, row: SecretRow)
    requires SecretsOk(ps, ss) && ProjectById(ps, row.projectId).Some? && Names.ValidKey(row.key) && row.version >= 1
    requires SecretIndex(ss, row.projectId, row.key).None?
    requires row.id == if ss == [] then 1 else ss[|ss| - 1].id + 1
    ensures SecretsOk(ps, ss + [row])
  {
    forall i | 0 <= i < |ss| ensures ss[i].id < row.id {
      if i < |ss| - 1 { assert ss[i].id < ss[|ss| - 1].id; }
    }
  }

  lemma UpsertKeepsIntegrity(db: Db, pid: int, k: Bytes, nonce: Bytes, ct: Blob<Bytes>, now: int)
    requires Integrity(db) && ProjectById(db.projects, pid).Some? && Names.ValidKey(k)
    ensures var r := UpsertSecret(db, pid, k, nonce, ct, now);
            r.Some? && Integrity(r.value.0)
  {
    var ss, ss' := db.secrets, UpsertSecret(db, pid, k, nonce, ct, now).value.0.secrets;
    var si := SecretIndex(ss, pid, k);
    if si.Some? {
      UpdateKeepsSecretsOk(db.projects, ss, si.value, ss'[si.value]);
    } else {
      AppendKeepsSecretsOk(db.projects, ss, ss'[|ss|]);
    }
  }

  lemma UpsertKeepsConsistent(db: Db, key: Key, i: nat, k: Bytes, value: Utf8.Text, env: Env)
    requires Consistent(db, key) && i < |db.projects| && Names.ValidKey(k)
    ensures var p := db.projects[i];
            var r := UpsertSecret(db, p.id, k, env.nonce,
                                  Encrypt(key, env.nonce, value, Encoding.Aad(p.name, k)), env.now);
            r.Some? && Consistent(r.value.0, key)
  {
    var ps, ss, p := db.projects, db.secrets, db.projects[i];
    IdFindsRow(ps, i);
    var ct := Encrypt(key, env.nonce, value, Encoding.Aad(p.name, k));
    UpsertKeepsIntegrity(db, p.id, k, env.nonce, ct, env.now);
    var ss' := UpsertSecret(db, p.id, k, env.nonce, ct, env.now).value.0.secrets;
    forall j | 0 <= j < |ss'| ensures RowOk(ps, key, ss'[j]) {
      if j < |ss| { assert RowOk(ps, key, ss[j]); }
    }
  }

  /** An upsert sets one cell of one view, at the version it returns. */
  lemma UpsertViews(db: Db, pid: int, k: Bytes, nonce: Bytes, ct: Blob<Bytes>, now: int, q: int)
    requires UpsertSecret(db, pid, k, nonce, ct, now).Some? && ct.Sealed?
    ensures var (db', version) := UpsertSecret(db, pid, k, nonce, ct, now).value;
            && View(db'.secrets, q) ==
               (if q == pid then View(db.secrets, q)[k := Store.Cell(ct.payload, version)] else View(db.secrets, q))
            && version == match CellAt(db.secrets, pid, k) case None => 1 case Some(c) => c.version + 1
  {
    var (db', version) := UpsertSecret(db, pid, k, nonce, ct, now).value;
    var ss, si := db.secrets, SecretIndex(db.secrets, pid, k);
    if si.Some? {
      ViewUpdate(ss, si.value, db'.secrets[si.value], q);
    } else {
      ViewAppend(ss, db'.secrets[|ss|], q);
    }
  }

  lemma PutAbs(db: Db, i: nat, k: Bytes, nonce: Bytes, ct: Blob<Bytes>, now: int)
    requires ProjectsOk(db.projects) && i < |db.projects| && ct.Sealed?
    requires UpsertSecret(db, db.projects[i].id, k, nonce, ct, now).Some?
    ensures var p := db.projects[i];
            var (db', version) := UpsertSecret(db, p.id, k, nonce, ct, now).value;
            var cells := View(db.secrets, p.id);
            && Abs(db').projects ==
               Abs(db).projects[p.name := Store.Project(p.createdAt, cells[k := Store.Cell(ct.payload, version)])]
            && db'.tokens == db.tokens
            && version == if k in cells then cells[k].version + 1 else 1
  {
    var p := db.projects[i];
    var (db', version) := UpsertSecret(db, p.id, k, nonce, ct, now).value;
    ViewLook(db.secrets, p.id, k);
    forall q { UpsertViews(db, p.id, k, nonce, ct, now, q); }
    assert db' == db.(secrets := db'.secrets);
    AbsSecrets(db, db'.secrets, i);
  }

  lemma PutResult(db: Db, key: Key, who: Identity, req: Request, env: Env, i: nat)
    requires req.PutSecret? && Guard(who, req).None? && ProjectIndex(db.projects, req.project) == Some(i)
    ensures var r := UpsertSecret(db, db.projects[i].id, req.key, env.nonce,
              Encrypt(key, env.nonce, req.value.value, Encoding.Aad(req.project, req.key)), env.now);
            r.Some? ==> Handlers.Handle(db, key, who, req, env) == (r.value.0, SecretPut(req.key, r.value.1))
  {
  }

  lemma PutServed(db: Db, who: Identity, req: Request, env: Env, i: nat, ct: Blob<Bytes>)
    requires req.PutSecret? && Guard(who, req).None? && ProjectIndex(db.projects, req.project) == Some(i)
    requires ProjectsOk(db.projects) && ct.Sealed? && ct.payload == req.value.value
    requires UpsertSecret(db, db.projects[i].id, req.key, env.nonce, ct, env.now).Some?
    ensures var r := UpsertSecret(db, db.projects[i].id, req.key, env.nonce, ct, env.now).value;
            Store.Serve(Abs(db), who, req, env) == (Abs(r.0), SecretPut(req.key, r.1))
  {
    var (db', version) := UpsertSecret(db, db.projects[i].id, req.key, env.nonce, ct, env.now).value;
    var p, cells := db.projects[i], View(db.secrets, db.projects[i].id);
    AbsLook(db, req.project);
    PutAbs(db, i, req.key, env.nonce, ct, env.now);
    StorePut(Abs(db), who, req, env, p.createdAt, cells, version);
  }

  lemma StorePut(st: Store.Store, who: Identity, req: Request, env: Env,
                 createdAt: int, cells: map<Bytes, Store.Cell>, version: int)
    requires req.PutSecret? && Guard(who, req).None?
    requires Look(st.projects, req.project) == Some(Store.Project(createdAt, cells))
    requires version == if req.key in cells then cells[req.key].version + 1 else 1
    ensures var cells' := cells[req.key := Store.Cell(req.value.value, version)];
            Store.Serve(st, who, req, env) ==
            (st.(projects := st.projects[req.project := Store.Project(createdAt, cells')]),
             SecretPut(req.key, version))
  {
  }

  lemma RefinePutSecret(db: Db, key: Key, who: Identity, req: Request, env: Env)
    requires Consistent(db, key) && req.PutSecret? && Guard(who, req).None?
    ensures Refines(db, key, who, req, env)
  {
    var pi := ProjectIndex(db.projects, req.project);
    if pi.None? {
      AbsLook(db, req.project);
    } else {
      var i := pi.value;
      var ct := Encrypt(key, env.nonce, req.value.value, Encoding.Aad(req.project, req.key));
      UpsertKeepsConsistent(db, key, i, req.key, req.value.value, env);
      PutResult(db, key, who, req, env, i);
      PutServed(db, who, req, env, i, ct);
    }
  }

  lemma DeleteKeepsSecretsOk(ps: seq<ProjectRow>, ss: seq<SecretRow>, i: nat)
    requires SecretsOk(ps, ss) && i < |ss|
    ensures SecretsOk(ps, ss[..i] + ss[i + 1..])
  {
    var ss' := ss[..i] + ss[i + 1..];
    assert forall a :: 0 <= a < |ss'| ==> ss'[a] == ss[if a < i then a else a + 1];
    forall a, b | 0 <= a < b < |ss'|
      ensures ss'[a].id < ss'[b].id && !(ss'[a].projectId == ss'[b].projectId && ss'[a].key == ss'[b].key)
    {
      var a', b' := if a < i then a else a + 1, if b < i then b else b + 1;
      assert ss[a'].id < ss[b'].id;
    }
  }

  lemma DeleteKeepsConsistent(db: Db, key: Key, i: nat)
    requires Consistent(db, key) && i < |db.secrets|
    ensures Consistent(db.(secrets := db.secrets[..i] + db.secrets[i + 1..]), key)
  {
    var ss := db.secrets;
    var ss' := ss[..i] + ss[i + 1..];
    DeleteKeepsSecretsOk(db.projects, ss, i);
    forall j | 0 <= j < |ss'| ensures RowOk(db.projects, key, ss'[j]) {
      assert ss'[j] == ss[if j < i then j else j + 1];
    }
  }

  lemma DeleteAbs(db: Db, i: nat, j: nat)
    requires Integrity(db) && i < |db.projects| && j < |db.secrets|
    requires db.secrets[j].projectId == db.projects[i].id
    ensures var p, ss := db.projects[i], db.secrets;
            Abs(db.(secrets := ss[..j] + ss[j + 1..])).projects ==
            Abs(db).projects[p.name := Store.Project(p.createdAt, View(ss, p.id) - {ss[j].key})]
  {
    var ss := db.secrets;
    assert UniqueKeys(ss);
    var ss' := ss[..j] + ss[j + 1..];
    forall pid { ViewDelete(ss, j, ss', pid); }
    AbsSecrets(db, ss', i);
  }

  lemma StoreDelete(st: Store.Store, who: Identity, req: Request, env: Env,
                    createdAt: int, cells: map<Bytes, Store.Cell>)
    requires req.DeleteSecret? && Guard(who, req).None?
    requires Look(st.projects, req.project) == Some(Store.Project(createdAt, cells))
    ensures Store.Serve(st, who, req, env) ==
            if req.key !in cells then (st, Error(NotFound))
            else (st.(projects := st.projects[req.project := Store.Project(createdAt, cells - {req.key})]), NoContent)
  {
  }

  lemma DeleteResult(db: Db, key: Key, who: Identity, req: Request, env: Env, i: nat)
    requires req.DeleteSecret? && Guard(who, req).None? && ProjectIndex(db.projects, req.project) == Some(i)
    ensures var j := SecretIndex(db.secrets, db.projects[i].id, req.key);
            Handlers.Handle(db, key, who, req, env) ==
            if j.None? then (db, Error(NotFound))
            else (db.(secrets := db.secrets[..j.value] + db.secrets[j.value + 1..]), NoContent)
  {
  }

  lemma DeleteServed(db: Db, key: Key, who: Identity, req: Request, env: Env, i: nat)
    requires req.DeleteSecret? && Guard(who, req).None? && ProjectIndex(db.projects, req.project) == Some(i)
    requires Integrity(db)
    ensures Store.Serve(Abs(db), who, req, env) ==
            (Abs(Handlers.Handle(db, key, who, req, env).0), Handlers.Handle(db, key, who, req, env).1)
  {
    var p := db.projects[i];
    AbsLook(db, req.project);
    DeleteResult(db, key, who, req, env, i);
    StoreDelete(Abs(db), who, req, env, p.createdAt, View(db.secrets, p.id));
    ViewLook(db.secrets, p.id, req.key);
    var j := SecretIndex(db.secrets, p.id, req.key);
    if j.Some? {
      DeleteAbs(db, i, j.value);
    }
  }

  lemma DeleteConsistent(db: Db, key: Key, who: Identity, req: Request, env: Env, i: nat)
    requires Consistent(db, key) && req.DeleteSecret? && Guard(who, req).None?
    requires ProjectIndex(db.projects, req.project) == Some(i)
    ensures Consistent(Handlers.Handle(db, key, who, req, env).0, key)
  {
    DeleteResult(db, key, who, req, env, i);
    var j := SecretIndex(db.secrets, db.projects[i].id, req.key);
    if j.Some? {
      DeleteKeepsConsistent(db, key, j.value);
    }
  }

  lemma RefineDeleteSecret(db: Db, key: Key, who: Identity, req: Request, env: Env)
    requires Consistent(db, key) && req.DeleteSecret? && Guard(who, req).None?
    ensures Refines(db, key, who, req, env)
  {
    var i := ProjectIndex(db.projects, req.project);
    if i.None? {
      AbsLook(db, req.project);
    } else {
      DeleteServed(db, key, who, req, env, i.value);
      DeleteConsistent(db, key, who, req, env, i.value);
    }
  }

  /**
   Every request is answered and applied exactly as the plain map would, and the
   database stays consistent under the server's key. In particular `GetSecrets`
   on an existing project never meets a row that does not open or is not text.
   */
  lemma HandlerRefines(db: Db, key: Key, who: Identity, req: Request, env: Env)
    requires Consistent(db, key)
    ensures Store.Serve(Abs(db), who, req, env) ==
            (Abs(Handlers.Handle(db, key, who, req, env).0), Handlers.Handle(db, key, who, req, env).1)
    ensures Consistent(Handlers.Handle(db, key, who, req, env).0, key)
  {
    if Guard(who, req).None? {
      match req
      case CreateProject(_) => RefineCreateProject(db, key, who, req, env);
      case ListProjects => RefineListProjects(db, key, who, req, env);
      case GetSecrets(_) => RefineGetSecrets(db, key, who, req, env);
      case PutSecret(_, _, _) => RefinePutSecret(db, key, who, req, env);
      case DeleteSecret(_, _) => RefineDeleteSecret(db, key, who, req, env);
      case _ =>
    }
  }

  /** A request to issue a token that passes every check but would expire past the year 9999. */
  predicate Overruns(who: Identity, req: Request, env: Env) {
    Guard(who, req).None? && req.CreateToken? && Unrepresentable(TokenExpiry(req.token.value, env.now))
  }

  lemma ServeNeverInternal(st: Store.Store, who: Identity, req: Request, env: Env)
    ensures var (st', r) := Store.Serve(st, who, req, env);
            && (r.Error? ==> !r.error.Internal?)
            && (r.Aborted? <==> Overruns(who, req, env))
            && (r.Aborted? ==> st' == st)
  {
  }

  /**
   No handler ends in a server error on a consistent database; it fails to answer
   exactly when the expiry of a token to be issued cannot be represented.
   */
  lemma NeverInternal(db: Db, key: Key, who: Identity, req: Request, env: Env)
    requires Consistent(db, key)
    ensures var r := Handlers.Handle(db, key, who, req, env).1;
            && (r.Error? ==> !r.error.Internal?)
            && (r.Aborted? <==> Overruns(who, req, env))
  {
    HandlerRefines(db, key, who, req, env);
    ServeNeverInternal(Abs(db), who, req, env);
  }
}
