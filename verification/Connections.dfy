/** The SQLite connection: tables updated in place, and one transaction at a time. */
module Connections {
  import opened Prelude
  import opened Aead
  import opened Repo
  import Auth
  import Refinement

  class Connection {
    var meta: Meta
    var projects: seq<ProjectRow>
    var secrets: seq<SecretRow>
    var tokens: seq<TokenRow>
    /** What a rollback restores while a transaction is open. */
    var saved: Option<Db>

    function Contents(): Db
      reads this
    {
      Db(meta, projects, secrets, tokens)
    }

    constructor (db: Db)
      ensures Contents() == db && saved.None?
    {
      meta, projects, secrets, tokens := db.meta, db.projects, db.secrets, db.tokens;
      saved := None;
    }

    // ---- transactions ----

    method Begin()
      requires saved.None?
      modifies this
      ensures saved == Some(old(Contents())) && Contents() == old(Contents())
    {
      saved := Some(Contents());
    }

    method Commit()
      requires saved.Some?
      modifies this
      ensures saved.None? && Contents() == old(Contents())
    {
      saved := None;
    }

    /** Dropping an uncommitted transaction. */
    method Rollback()
      requires saved.Some?
      modifies this
      ensures saved.None? && Contents() == old(saved).value
    {
      var db := saved.value;
      meta, projects, secrets, tokens := db.meta, db.projects, db.secrets, db.tokens;
      saved := None;
    }

    // ---- statements ----

    method SetMeta(k: MetaKey, v: Blob<Bytes>)
      modifies this
      ensures Contents() == old(Contents()).(meta := old(meta)[k := v]) && saved == old(saved)
    {
      meta := meta[k := v];
    }

    /** `create_project`: false when the name is taken. */
    method CreateProject(name: Bytes, now: int) returns (ok: bool)
      modifies this
      ensures saved == old(saved)
      ensures match InsertProject(old(projects), name, now)
              case None => !ok && Contents() == old(Contents())
              case Some(ps) => ok && Contents() == old(Contents()).(projects := ps)
      ensures ok <==> forall j :: 0 <= j < |old(projects)| ==> old(projects)[j].name != name
      ensures ok && ProjectsOk(old(projects)) ==>
                && ProjectIndex(projects, name) == Some(|old(projects)|) && old(projects) < projects
                && forall j :: 0 <= j < |old(projects)| ==> projects[j].id < projects[|old(projects)|].id
    {
      if ProjectIndex(projects, name).Some? {
        return false;
      }
      var id := if projects == [] then 1 else projects[|projects| - 1].id + 1;
      Refinement.ProjectIndexAppend(projects, ProjectRow(id, name, now), name);
      projects := projects + [ProjectRow(id, name, now)];
      return true;
    }

    /** `upsert_secret`: the insert-or-update, then the version read back. */
    method UpsertSecret(pid: int, key: Bytes, nonce: Bytes, ct: Blob<Bytes>, now: int) returns (r: Option<int>)
      modifies this
      ensures saved == old(saved)
      ensures match Repo.UpsertSecret(old(Contents()), pid, key, nonce, ct, now)
              case None => r.None? && Contents() == old(Contents())
              case Some((db, version)) => r == Some(version) && Contents() == db
      ensures r.Some? ==>
                var i := SecretIndex(secrets, pid, key);
                && i.Some? && |old(secrets)| <= |secrets| <= |old(secrets)| + 1
                && secrets[i.value] == SecretRow(secrets[i.value].id, pid, key, nonce, ct, r.value, now)
                && forall j :: 0 <= j < |old(secrets)| && j != i.value ==> secrets[j] == old(secrets)[j]
    {
      var i := SecretIndex(secrets, pid, key);
      ghost var before := secrets;
      if i.Some? {
        var row := secrets[i.value];
        secrets := secrets[i.value := row.(nonce := nonce, ct := ct, version := row.version + 1, updatedAt := now)];
        Refinement.SameIndex(before, secrets, pid, key);
      } else if ProjectById(projects, pid).None? {
        return None;
      } else {
        var id := if secrets == [] then 1 else secrets[|secrets| - 1].id + 1;
        secrets := secrets + [SecretRow(id, pid, key, nonce, ct, 1, now)];
        Refinement.AppendIndex(before, secrets[|before|], pid, key);
      }
      var j := SecretIndex(secrets, pid, key);
      return Some(secrets[j.value].version);
    }

    /** `delete_secret`: whether a row went. */
    method DeleteSecret(pid: int, key: Bytes) returns (removed: bool)
      modifies this
      ensures saved == old(saved)
      ensures (Contents(), removed) ==
              (old(Contents()).(secrets := Repo.DeleteSecret(old(secrets), pid, key).0),
               Repo.DeleteSecret(old(secrets), pid, key).1)
      ensures removed <==> exists j :: 0 <= j < |old(secrets)|
                                    && old(secrets)[j].projectId == pid && old(secrets)[j].key == key
      ensures Refinement.UniqueKeys(old(secrets)) ==>
                SecretIndex(secrets, pid, key).None?
                && forall q, k :: (q, k) != (pid, key) ==>
                     Refinement.CellAt(secrets, q, k) == Refinement.CellAt(old(secrets), q, k)
    {
      var i := SecretIndex(secrets, pid, key);
      removed := i.Some?;
      if removed && Refinement.UniqueKeys(secrets) {
        Refinement.DeleteIndex(secrets, i.value, pid, key);
        forall q, k | (q, k) != (pid, key)
          ensures Refinement.CellAt(secrets[..i.value] + secrets[i.value + 1..], q, k) ==
                  Refinement.CellAt(secrets, q, k)
        {
          Refinement.CellAtDelete(secrets, i.value, q, k);
        }
      }
      if removed {
        secrets := secrets[..i.value] + secrets[i.value + 1..];
      }
    }

    method UpdateCiphertext(id: int, nonce: Bytes, ct: Blob<Bytes>)
      modifies this
      ensures saved == old(saved)
      ensures Contents() == old(Contents()).(secrets := Repo.UpdateCiphertext(old(secrets), id, nonce, ct))
    {
      secrets := Repo.UpdateCiphertext(secrets, id, nonce, ct);
    }

    method InsertToken(name: Bytes, hash: Digest, scope: Option<Bytes>, expiresAt: Option<Expiry>, now: int)
      modifies this
      ensures saved == old(saved)
      ensures Contents() ==
              old(Contents()).(tokens := Repo.InsertToken(old(tokens), name, hash, scope, expiresAt, now))
    {
      var id := if tokens == [] then 1 else tokens[|tokens| - 1].id + 1;
      tokens := tokens + [TokenRow(id, name, hash, scope, now, false, expiresAt)];
    }

    method RevokeToken(name: Bytes) returns (n: nat)
      modifies this
      ensures saved == old(saved)
      ensures Contents() == old(Contents()).(tokens := Repo.RevokeToken(old(tokens), name).0)
      ensures n == Repo.RevokeToken(old(tokens), name).1
    {
      var (ts, count) := Repo.RevokeToken(tokens, name);
      tokens := ts;
      n := count;
    }

    method Authenticate(presented: Digest, now: int) returns (found: Option<Identity>)
      ensures found == Repo.Authenticate(tokens, presented, now)
    {
      found := Auth.Scan(tokens, presented, now);
    }
  }
}
