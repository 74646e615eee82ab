/**
 Where ciphertexts come from. Every blob that ever reaches the database file,
 committed or not, was sealed for one record and holds what was put there; so a
 database whose blobs were moved about can only yield errors or old values of
 the very record asked for.
 */
module Provenance {
  import opened Prelude
  import opened Aead
  import opened Repo
  import opened CryptoState
  import opened Protocol
  import opened History
  import opened Lifecycle
  import opened KeyAgreement
  import opened Reachability
  import opened Refinement
  import Encoding
  import Handlers
  import Names

  ghost predicate HasBlob(db: Db, b: Blob<Bytes>) {
    || (exists i :: 0 <= i < |db.secrets| && db.secrets[i].ct == b)
    || (VerifierCt in db.meta && db.meta[VerifierCt] == b)
  }

  /** The blob is in the database, or in the uncommitted pages of an open transaction. */
  ghost predicate OnDisk(w: World, b: Blob<Bytes>) {
    || HasBlob(w.db, b)
    || (exists p :: p in w.procs && WritingStage(w.procs[p]) && HasBlob(w.procs[p].tx.work, b))
  }

  /** The blob was on disk at some point of the run. */
  ghost predicate EverOnDisk(events: seq<Event>, b: Blob<Bytes>)
    decreases |events|
  {
    OnDisk(Run(INITIAL, events), b) || (events != [] && EverOnDisk(events[..|events| - 1], b))
  }

  /** Sealed as the verifier around the sentinel, or at a record around a value put there. */
  ghost predicate Genuine(log: seq<Entry>, b: Blob<Bytes>) {
    b.Sealed? &&
    ((b.aad == Encoding.VerifierAad() && b.payload == SENTINEL) || GenuineRecord(log, b))
  }

  ghost predicate GenuineRecord(log: seq<Entry>, b: Blob<Bytes>) {
    b.Sealed? && exists p, k :: RecordOf(log, b, p, k)
  }

  ghost predicate RecordOf(log: seq<Entry>, b: Blob<Bytes>, p: Bytes, k: Bytes) {
    b.Sealed? && Names.ValidProject(p) && Names.ValidKey(k) && b.aad == Encoding.Aad(p, k)
    && WasPut(log, p, k, b.payload)
  }

  lemma GenuineGrows(log: seq<Entry>, log': seq<Entry>, b: Blob<Bytes>)
    requires log <= log' && Genuine(log, b)
    ensures Genuine(log', b)
  {
    if GenuineRecord(log, b) {
      var p, k :| RecordOf(log, b, p, k);
      WasPutGrows(log, log', p, k, b.payload);
      assert RecordOf(log', b, p, k);
    }
  }

  /** A committed row is genuine. */
  lemma RowGenuine(db: Db, key: Key, log: seq<Entry>, i: nat)
    requires Consistent(db, key) && Faithful(log) && Abs(db).projects == Replay(log).projects
    requires i < |db.secrets|
    ensures Genuine(log, db.secrets[i].ct)
  {
    var s := db.secrets[i];
    assert RowOk(db.projects, key, s);
    RowCell(db, i);
    var p := db.projects[ProjectById(db.projects, s.projectId).value].name;
    CellWasPut(log, p, s.key);
    assert RecordOf(log, s.ct, p, s.key);
  }

  lemma DbGenuine(db: Db, key: Key, log: seq<Entry>, b: Blob<Bytes>)
    requires Consistent(db, key) && Faithful(log) && Abs(db).projects == Replay(log).projects
    requires HasBlob(db, b)
    ensures Genuine(log, b)
  {
    if i :| 0 <= i < |db.secrets| && db.secrets[i].ct == b {
      RowGenuine(db, key, log, i);
    }
  }

  lemma SameContents(log: seq<Entry>, a: Blob<Bytes>, b: Blob<Bytes>)
    requires Genuine(log, a) && b.Sealed? && b.aad == a.aad && b.payload == a.payload
    ensures Genuine(log, b)
  {
    if GenuineRecord(log, a) {
      var p, k :| RecordOf(log, a, p, k);
      assert RecordOf(log, b, p, k);
    }
  }

  lemma AbsSameButTokens(a: Db, b: Db)
    requires SameButTokens(a, b)
    ensures Abs(a).projects == Abs(b).projects
  {
    forall n ensures Look(Abs(a).projects, n) == Look(Abs(b).projects, n) {
      AbsLook(a, n);
      AbsLook(b, n);
    }
    SameLooks(Abs(a).projects, Abs(b).projects);
  }

  /** A half-sealed table holds, row by row, what the committed one holds. */
  lemma SealingGenuine(w: World, p: nat, b: Blob<Bytes>)
    requires Inv(w) && p in w.procs && w.procs[p].RekeySealing? && HasBlob(w.procs[p].tx.work, b)
    ensures Genuine(w.log, b)
  {
    var RekeySealing(oldKey, newKey, tx, rows, n) := w.procs[p];
    assert ActiveOk(w.db, w.writer == Some(p), w.procs[p]);
    AbsSameButTokens(w.db, tx.snapshot);
    if i :| 0 <= i < |tx.work.secrets| && tx.work.secrets[i].ct == b {
      RowGenuine(tx.snapshot, oldKey, w.log, i);
      if i < n {
        var was := tx.snapshot.secrets[i].ct;
        assert ResealedRow(tx.snapshot.secrets[i], tx.work.secrets[i], newKey);
        SameContents(w.log, was, b);
      }
    } else {
      DbGenuine(tx.snapshot, oldKey, w.log, b);
    }
  }

  lemma StoringGenuine(w: World, p: nat, b: Blob<Bytes>)
    requires Inv(w) && p in w.procs && w.procs[p].Storing? && HasBlob(w.procs[p].tx.work, b)
    ensures Genuine(w.log, b)
  {
    var Storing(key, plan, tx, n, serve) := w.procs[p];
    assert ActiveOk(w.db, w.writer == Some(p), w.procs[p]);
    AbsSameButTokens(w.db, tx.snapshot);
    if i :| 0 <= i < |tx.work.secrets| && tx.work.secrets[i].ct == b {
      var done := tx.work.(meta := plan);
      AbsIgnoresMeta(tx.work, plan);
      RowGenuine(done, key, w.log, i);
    } else {
      VerifierGenuine(tx, key, plan, n, serve);
    }
  }

  /** Old or new, the verifier blob of a transaction holds the sentinel. */
  lemma VerifierGenuine(tx: Tx, key: Key, plan: Meta, n: nat, serve: bool)
    requires n <= |META_ORDER| && MetaOk(plan, key) && Replaces(tx, key, serve)
    requires tx.work.meta == tx.snapshot.meta + Prefix(plan, n) && VerifierCt in tx.work.meta
    ensures var b := tx.work.meta[VerifierCt];
            b.Sealed? && b.aad == Encoding.VerifierAad() && b.payload == SENTINEL
  {
  }

  lemma OnDiskGenuine(w: World, b: Blob<Bytes>)
    requires Inv(w) && OnDisk(w, b)
    ensures Genuine(w.log, b)
  {
    if HasBlob(w.db, b) {
      assert !Blank(w.db);
      DbGenuine(w.db, w.db.meta[VerifierCt].key, w.log, b);
    } else {
      var p :| p in w.procs && WritingStage(w.procs[p]) && HasBlob(w.procs[p].tx.work, b);
      if w.procs[p].Storing? { StoringGenuine(w, p, b); } else { SealingGenuine(w, p, b); }
    }
  }

  lemma {:induction false} EverGenuine(events: seq<Event>, b: Blob<Bytes>)
    requires EverOnDisk(events, b)
    ensures Genuine(Run(INITIAL, events).log, b)
    decreases |events|
  {
    RunInv(events);
    if OnDisk(Run(INITIAL, events), b) {
      OnDiskGenuine(Run(INITIAL, events), b);
    } else {
      var init := events[..|events| - 1];
      EverGenuine(init, b);
      NextLog(Run(INITIAL, init), events[|events| - 1]);
      GenuineGrows(Run(INITIAL, init).log, Run(INITIAL, events).log, b);
    }
  }

  // ---- a tampered database ----

  /** A row an outsider could write: any columns, with a ciphertext that was once on disk or plain octets. */
  ghost predicate Forgeable(events: seq<Event>, row: SecretRow) {
    && |row.key| < Encoding.TWO_32
    && (row.ct.Sealed? ==> EverOnDisk(events, row.ct))
  }

  /** A blob that opens at a record holds a value that was put at that record. */
  lemma OpensWasPut(log: seq<Entry>, key: Key, row: SecretRow, project: Bytes)
    requires Names.ValidProject(project) && |row.key| < Encoding.TWO_32
    requires row.ct.Sealed? ==> Genuine(log, row.ct)
    requires Decrypt(key, row.nonce, row.ct, Encoding.Aad(project, row.key)).Some?
    ensures Names.ValidKey(row.key) && WasPut(log, project, row.key, row.ct.payload)
  {
    Encoding.VerifierAadReserved(project, row.key);
    var p, k :| RecordOf(log, row.ct, p, k);
    Encoding.AadInjective(project, row.key, p, k);
  }

  lemma {:induction false} TamperedRows(
    events: seq<Event>, rows: seq<SecretRow>, project: Bytes, key: Key, out: map<Bytes, Bytes>, k: Bytes)
    requires Names.ValidProject(project)
    requires forall i :: 0 <= i < |rows| ==> Forgeable(events, rows[i])
    requires Handlers.OpenRows(rows, project, key) == Ok(out) && k in out
    ensures Names.ValidKey(k) && WasPut(Run(INITIAL, events).log, project, k, out[k])
    decreases |rows|
  {
    var init, last := rows[..|rows| - 1], rows[|rows| - 1];
    var before := Handlers.OpenRows(init, project, key).value;
    assert Forgeable(events, last);
    if last.key == k {
      if last.ct.Sealed? { EverGenuine(events, last.ct); }
      OpensWasPut(Run(INITIAL, events).log, key, last, project);
    } else {
      TamperedRows(events, init, project, key, before, k);
    }
  }

  /**
   Whatever rows are planted, swapped or rolled back from blobs that were ever on
   disk, a successful read of a project returns under each key only a value that
   some earlier put stored under that key of that project.
   */
  lemma TamperedGet(events: seq<Event>, db: Db, key: Key, who: Identity, project: Bytes, env: Env)
    requires forall i :: 0 <= i < |db.secrets| ==> Forgeable(events, db.secrets[i])
    ensures var r := Handlers.Handle(db, key, who, GetSecrets(project), env).1;
            r.Secrets? ==> forall k :: k in r.values ==>
              Names.ValidKey(k) && WasPut(Run(INITIAL, events).log, project, k, r.values[k])
  {
    var r := Handlers.Handle(db, key, who, GetSecrets(project), env).1;
    if r.Secrets? {
      var pid := db.projects[ProjectIndex(db.projects, project).value].id;
      var rows := ListSecretRows(db.secrets, pid);
      forall i | 0 <= i < |rows| ensures Forgeable(events, rows[i]) {
        ListedRow(db.secrets, pid, i);
      }
      forall k | k in r.values
        ensures Names.ValidKey(k) && WasPut(Run(INITIAL, events).log, project, k, r.values[k])
      {
        TamperedRows(events, rows, project, key, r.values, k);
      }
    }
  }

  /**
   The program never compares the decrypted verifier with the sentinel, and need
   not: with any metadata whose verifier blob was ever on disk, a successful
   verification has opened the sentinel.
   */
  lemma VerifiedSentinel(events: seq<Event>, meta: Meta, passphrase: Bytes, salt: Bytes)
    requires VerifierCt in meta && meta[VerifierCt].Sealed? ==> EverOnDisk(events, meta[VerifierCt])
    requires Verify(meta, passphrase, salt).Ok?
    ensures meta[VerifierCt].Sealed? && meta[VerifierCt].payload == SENTINEL
    ensures meta[VerifierCt].key == Verify(meta, passphrase, salt).value
  {
    var b := meta[VerifierCt];
    EverGenuine(events, b);
    if GenuineRecord(Run(INITIAL, events).log, b) {
      var p, k :| RecordOf(Run(INITIAL, events).log, b, p, k);
      Encoding.VerifierAadReserved(p, k);
    }
  }
}
