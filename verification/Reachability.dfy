/** The invariant of every reachable world, and what follows from it. */
module Reachability {
  import opened Prelude
  import opened Aead
  import opened Repo
  import opened CryptoState
  import opened Protocol
  import opened History
  import opened Access
  import opened Lifecycle
  import opened KeyAgreement
  import opened Refinement
  import Auth
  import Handlers
  import Names
  import Store
  import Utf8

  /** One lock holder at most, whose stage is in step with a sound database; writers hold the lock. */
  ghost predicate KeyInv(w: World) {
    && DbOk(w.db)
    && (forall p :: p in w.procs && !Starting(w.procs[p]) ==>
          w.lock == Some(p) && ActiveOk(w.db, w.writer == Some(p), w.procs[p]))
    && (w.lock.Some? ==> w.lock.value in w.procs && !Starting(w.procs[w.lock.value]))
    && (w.writer.Some? ==> w.writer == w.lock && WritingStage(w.procs[w.lock.value]))
  }

  predicate WritingStage(proc: Proc) {
    proc.Storing? || proc.RekeySealing?
  }

  /** The tables stand for the replay of the log, whose responses are the specification's. */
  ghost predicate HistInv(w: World) {
    Faithful(w.log) && Abs(w.db) == Replay(w.log)
  }

  ghost predicate Inv(w: World) {
    KeyInv(w) && HistInv(w)
  }

  lemma InitialInv()
    ensures Inv(INITIAL)
  {
  }

  // ---- preservation ----

  lemma ExitKeeps(w: World, p: nat)
    requires KeyInv(w)
    ensures KeyInv(Exit(w, p))
  {
  }

  lemma AcquireKeeps(w: World, p: nat)
    requires KeyInv(w) && p in w.procs && Starting(w.procs[p])
    ensures KeyInv(Acquire(w, p)) && Acquire(w, p).db == w.db
  {
    if w.lock.Some? {
      ExitKeeps(w, p);
    } else {
      assert Prefix(w.db.meta, 0) == map[];
    }
  }

  /** A holder's step that ends with a sound outcome keeps the invariant. */
  lemma OutcomeKeeps(w: World, p: nat, o: Outcome)
    requires KeyInv(w) && p in w.procs && !Starting(w.procs[p]) && StepOk(w.db, o)
    ensures o.proc.None? ==> KeyInv(Exit(w.(db := o.db), p))
    ensures o.proc.Some? ==>
              KeyInv(w.(db := o.db, procs := w.procs[p := o.proc.value], writer := if o.writing then Some(p) else None))
  {
  }

  lemma AdvancedKeeps(w: World, p: nat, salt: Bytes, nonce: Nonce)
    requires KeyInv(w) && p in w.procs && !Starting(w.procs[p])
    ensures KeyInv(Advanced(w, p, salt, nonce)) && Abs(Advanced(w, p, salt, nonce).db) == Abs(w.db)
  {
    assert w.lock == Some(p);
    AnyStep(w.db, w.writer == Some(p), w.procs[p], salt, nonce, false);
    OutcomeKeeps(w, p, ProcStep(w.db, w.writer == Some(p), false, w.procs[p], salt, nonce));
  }

  /** The server holds the lock alone, so its writes disturb nobody. */
  lemma ServedKeeps(w: World, p: nat, db: Db, admitted: map<nat, Identity>, log: seq<Entry>)
    requires KeyInv(w) && p in w.procs && w.procs[p].Serving? && w.writer.None?
    requires Consistent(db, w.procs[p].key)
    ensures KeyInv(w.(db := db, procs := w.procs[p := w.procs[p].(admitted := admitted)], log := log))
  {
    ConsistentIsOk(db, w.procs[p].key);
  }

  lemma ActKeeps(w: World, p: nat, rid: nat, req: Request, nonce: Nonce, token: Bytes)
    requires Inv(w)
    ensures Inv(Next(w, Act(p, rid, req, nonce, token)))
  {
    if p in w.procs && w.procs[p].Serving? && rid in w.procs[p].admitted && w.writer.None? {
      var proc := w.procs[p];
      var step := Http(proc.admitted[rid], req, Env(w.clock, nonce, token));
      assert ActiveOk(w.db, false, proc);
      HandlerRefines(w.db, proc.key, step.who, req, step.env);
      FaithfulSnoc(w.log, step);
      var (db, r) := Handlers.Handle(w.db, proc.key, step.who, req, step.env);
      assert Perform(Replay(w.log), step) == (Abs(db), r);
      ServedKeeps(w, p, db, proc.admitted - {rid}, w.log + [Entry(step, r)]);
    }
  }

  lemma TokensKeep(w: World, ts: seq<TokenRow>)
    requires KeyInv(w) && w.writer.None?
    ensures KeyInv(w.(db := w.db.(tokens := ts)))
    ensures Abs(w.db.(tokens := ts)) == Abs(w.db).(tokens := ts)
  {
    TokensFrame(w.db, ts);
    forall p | p in w.procs && !Starting(w.procs[p])
      ensures ActiveOk(w.db.(tokens := ts), false, w.procs[p])
    {
      ActiveFrame(w.db, ts, w.procs[p]);
    }
  }

  lemma ActiveFrame(db: Db, ts: seq<TokenRow>, proc: Proc)
    requires ActiveOk(db, false, proc)
    ensures ActiveOk(db.(tokens := ts), false, proc)
  {
  }

  lemma CliKeeps(w: World, step: Step)
    requires Inv(w)
    ensures Inv(Next(w, Cli(step)))
  {
    if w.writer.None? && !step.Http? {
      var ts := Perform(Replay(w.log), step).0.tokens;
      TokensKeep(w, ts);
      FaithfulSnoc(w.log, step);
    }
  }

  lemma AdvanceKeeps(w: World, p: nat, salt: Bytes, nonce: Nonce)
    requires Inv(w)
    ensures Inv(Next(w, Advance(p, salt, nonce)))
  {
    if p in w.procs {
      if Starting(w.procs[p]) { AcquireKeeps(w, p); } else { AdvancedKeeps(w, p, salt, nonce); }
    }
  }

  /** Events that touch neither the database nor the log, nor any process past the lock but a server's queue. */
  lemma QuietKeeps(w: World, e: Event)
    requires Inv(w) && (e.StartServe? || e.StartRekey? || e.Admit? || e.SetClock?)
    ensures Inv(Next(w, e))
  {
  }

  lemma NextKeeps(w: World, e: Event)
    requires Inv(w)
    ensures Inv(Next(w, e))
  {
    match e
    case Advance(p, salt, nonce) => AdvanceKeeps(w, p, salt, nonce);
    case Crash(p) => ExitKeeps(w, p);
    case Act(p, rid, req, nonce, token) => ActKeeps(w, p, rid, req, nonce, token);
    case Cli(step) => CliKeeps(w, step);
    case _ => QuietKeeps(w, e);
  }

  /** Every reachable world satisfies the invariant, whatever the interleaving and the crashes. */
  lemma {:induction false} RunInv(events: seq<Event>)
    ensures Inv(Run(INITIAL, events))
    decreases |events|
  {
    if events == [] {
      InitialInv();
    } else {
      RunInv(events[..|events| - 1]);
      NextKeeps(Run(INITIAL, events[..|events| - 1]), events[|events| - 1]);
    }
  }

  // ---- what holds in every reachable world ----

  /**
   Either nothing is initialised and nothing stored, or one key agrees with
   metadata, verifier and every row, is the key of every live server, and is
   recovered from its own passphrase and no other.
   */
  lemma KeyLifecycle(events: seq<Event>)
    ensures var w := Run(INITIAL, events);
            Blank(w.db) || exists key :: (
              && Consistent(w.db, key)
              && (forall p :: p in w.procs && w.procs[p].Serving? ==> w.procs[p].key == key)
              && (forall pass :: VerifyStored(w.db.meta, pass).Ok? <==> pass == key.passphrase)
              && VerifyStored(w.db.meta, key.passphrase) == Ok(key))
  {
    RunInv(events);
    var w := Run(INITIAL, events);
    if !Blank(w.db) {
      var key := w.db.meta[VerifierCt].key;
      forall p | p in w.procs && w.procs[p].Serving? ensures w.procs[p].key == key {
        assert ActiveOk(w.db, w.writer == Some(p), w.procs[p]);
        ConsistentIsOk(w.db, w.procs[p].key);
      }
      forall pass ensures VerifyStored(w.db.meta, pass).Ok? <==> pass == key.passphrase {
        VerifyExactly(w.db.meta, key, pass);
      }
      VerifyExactly(w.db.meta, key, key.passphrase);
    }
  }

  /** While a server lives there is no second lock holder: no rotation, no other server. */
  lemma ServerIsAlone(events: seq<Event>, p: nat, q: nat)
    requires var w := Run(INITIAL, events);
             p in w.procs && w.procs[p].Serving? && q in w.procs && q != p
    ensures var w := Run(INITIAL, events);
            Starting(w.procs[q]) && w.lock == Some(p) && w.writer.None?
  {
    RunInv(events);
  }

  /** A lock whose holder died is free again: the next starter gets it. */
  lemma LockNeverWedges(events: seq<Event>, p: nat, q: nat, salt: Bytes, nonce: Nonce)
    requires var w := Run(INITIAL, events);
             w.lock == Some(p) && q in w.procs && Starting(w.procs[q])
    ensures var w := Next(Next(Run(INITIAL, events), Crash(p)), Advance(q, salt, nonce));
            w.lock == Some(q) && q in w.procs && !Starting(w.procs[q])
  {
    RunInv(events);
  }

  /** Nothing but a commit, a served request or a token command changes the database; a crash never does. */
  lemma OnlyCommitsWrite(w: World, e: Event)
    requires Next(w, e).db != w.db
    ensures e.Act? || e.Cli? ||
            (e.Advance? && e.p in w.procs && w.procs[e.p].Storing? && w.procs[e.p].n >= |META_ORDER|)
  {
    if e.Advance? && e.p in w.procs && !Starting(w.procs[e.p]) {
      assert Advanced(w, e.p, e.salt, e.nonce).db ==
             ProcStep(w.db, w.writer == Some(e.p), w.writer.Some? && w.writer != Some(e.p), w.procs[e.p], e.salt, e.nonce).db;
    }
  }

  /** A process about to commit a rotation. */
  ghost predicate CommitsRekey(w: World, p: nat) {
    p in w.procs && w.procs[p].Storing? && !w.procs[p].serve && w.procs[p].n == |META_ORDER|
  }

  lemma CommitResult(w: World, p: nat, salt: Bytes, nonce: Nonce)
    requires CommitsRekey(w, p)
    ensures Next(w, Advance(p, salt, nonce)).db == w.procs[p].tx.work
  {
  }

  /** What the transaction about to commit holds. */
  lemma CommitHolds(w: World, p: nat)
    requires Inv(w) && CommitsRekey(w, p)
    ensures var Storing(key, _, tx, _, _) := w.procs[p];
            && w.db == tx.snapshot && DbOk(w.db) && !Blank(w.db)
            && w.db.meta[VerifierCt].key.passphrase != key.passphrase
            && Consistent(tx.work, key) && Abs(tx.work) == Abs(w.db)
  {
    var Storing(key, plan, tx, n, serve) := w.procs[p];
    assert ActiveOk(w.db, w.writer == Some(p), w.procs[p]);
    StoreDone(w.db, w.writer == Some(p), key, plan, tx, serve);
  }

  /** A database consistent under one key gives nothing away to another. */
  lemma RetiresKey(db: Db, key: Key, oldKey: Key)
    requires Consistent(db, key) && oldKey != key
    ensures VerifyStored(db.meta, key.passphrase) == Ok(key)
    ensures oldKey.Derived? && oldKey.passphrase != key.passphrase ==> VerifyStored(db.meta, oldKey.passphrase).Err?
    ensures forall i, aad :: 0 <= i < |db.secrets| ==>
              Decrypt(oldKey, db.secrets[i].nonce, db.secrets[i].ct, aad).None?
  {
    VerifyExactly(db.meta, key, key.passphrase);
    if oldKey.Derived? { VerifyExactly(db.meta, key, oldKey.passphrase); }
    forall i, aad | 0 <= i < |db.secrets|
      ensures Decrypt(oldKey, db.secrets[i].nonce, db.secrets[i].ct, aad).None?
    {
      assert RowOk(db.projects, key, db.secrets[i]);
    }
  }

  /**
   The commit of a rotation, however it was interleaved: same projects, keys,
   values, versions and tokens; every row under the new key; no row opens under
   the old key and the old passphrase no longer verifies.
   */
  lemma RekeyCommit(events: seq<Event>, p: nat, salt: Bytes, nonce: Nonce)
    requires CommitsRekey(Run(INITIAL, events), p)
    ensures var w := Run(INITIAL, events);
            var db' := Next(w, Advance(p, salt, nonce)).db;
            var newKey := w.procs[p].key;
            && DbOk(w.db) && !Blank(w.db)
            && var oldKey := w.db.meta[VerifierCt].key;
            && Abs(db') == Abs(w.db) && Consistent(db', newKey)
            && VerifyStored(db'.meta, newKey.passphrase) == Ok(newKey)
            && VerifyStored(db'.meta, oldKey.passphrase).Err?
            && (forall i, aad :: 0 <= i < |db'.secrets| ==>
                  Decrypt(oldKey, db'.secrets[i].nonce, db'.secrets[i].ct, aad).None?)
  {
    RunInv(events);
    var w := Run(INITIAL, events);
    CommitResult(w, p, salt, nonce);
    CommitHolds(w, p);
    RetiresKey(w.procs[p].tx.work, w.procs[p].key, w.db.meta[VerifierCt].key);
  }

  /** In a rotation, the rows still to seal plus those sealed are exactly the secrets. */
  lemma RekeyCoversEveryRow(events: seq<Event>, p: nat)
    requires var w := Run(INITIAL, events); p in w.procs && w.procs[p].RekeySealing?
    ensures var w := Run(INITIAL, events);
            |w.procs[p].rows| == |w.db.secrets|
            && forall i :: 0 <= i < |w.db.secrets| ==> w.procs[p].rows[i].id == w.db.secrets[i].id
  {
    RunInv(events);
    var w := Run(INITIAL, events);
    assert ActiveOk(w.db, w.writer == Some(p), w.procs[p]);
    var db := w.procs[p].tx.snapshot;
    JoinExact(db.secrets, db.projects);
  }

  // ---- histories ----

  /**
   Linearisation: in every interleaving the answers are those of the plain map
   serving the locked sections one after another, in log order, and the tables
   stand for its final state.
   */
  lemma AnswersAreSequential(events: seq<Event>)
    ensures var w := Run(INITIAL, events);
            && Abs(w.db) == Replay(w.log)
            && forall i :: 0 <= i < |w.log| ==>
                 w.log[i].response == Perform(Replay(w.log[..i]), w.log[i].step).1
  {
    RunInv(events);
    var log := Run(INITIAL, events).log;
    forall i | 0 <= i < |log| ensures log[i].response == Perform(Replay(log[..i]), log[i].step).1 {
      FaithfulPrefix(log, i + 1);
      assert log[..i + 1][..i] == log[..i];
    }
  }

  /** No served request ever meets an undecryptable row, a non-text value or a constraint violation. */
  lemma NoInternalErrors(events: seq<Event>, i: nat)
    requires i < |Run(INITIAL, events).log|
    ensures var r := Run(INITIAL, events).log[i].response;
            r.Error? ==> !r.error.Internal?
  {
    AnswersAreSequential(events);
    var log := Run(INITIAL, events).log;
    NeverInternalStep(Replay(log[..i]), log[i].step);
  }

  /** Of racing creates of one name, in any interleaving, the first section gets 201 and the rest 409. */
  lemma CreateRace(events: seq<Event>, i: nat, p: Bytes)
    requires var log := Run(INITIAL, events).log; i < |log| && Creates(log[i].step, p)
    ensures var log := Run(INITIAL, events).log;
            log[i].response == if AnyCreates(log[..i], p) then Error(Conflict) else ProjectCreated(p)
  {
    RunInv(events);
    OneCreateWins(Run(INITIAL, events).log, i, p);
  }

  /**
   Reads, puts and deletes in every interleaving, restart and rotation, told from
   the caller's scope and the order of the locked sections alone: who may use the
   project is answered, everybody else forbidden, and a read returns exactly the
   last values put and not deleted since.
   */
  lemma AnswersFromLog(events: seq<Event>, i: nat, p: Bytes, k: Bytes, v: Utf8.Text)
    requires i < |Run(INITIAL, events).log| && Names.ValidProject(p) && Names.ValidKey(k)
    ensures var log := Run(INITIAL, events).log;
            var e, before, r := log[i], log[..i], log[i].response;
            && (Asks(e, GetSecrets(p)) || Asks(e, PutSecret(p, k, Json(v))) || Asks(e, DeleteSecret(p, k)) ==>
                  (r == Error(Forbidden) <==> !MayUse(e.step.who, p)))
            && (Asks(e, GetSecrets(p)) && MayUse(e.step.who, p) ==>
                  if !AnyCreates(before, p) then r == Error(NotFound)
                  else r.Secrets? && Latest(before, p, k) == if k in r.values then Some(r.values[k]) else None)
            && (Asks(e, PutSecret(p, k, Json(v))) && MayUse(e.step.who, p) ==>
                  r == if AnyCreates(before, p) then SecretPut(k, 1 + PutsSince(before, p, k)) else Error(NotFound))
            && (Asks(e, DeleteSecret(p, k)) && MayUse(e.step.who, p) ==>
                  r == if Latest(before, p, k).Some? then NoContent else Error(NotFound))
  {
    RunInv(events);
    var log := Run(INITIAL, events).log;
    if Asks(log[i], GetSecrets(p)) { GetFromLog(log, i, p); }
    if Asks(log[i], PutSecret(p, k, Json(v))) { PutFromLog(log, i, p, k, v); }
    if Asks(log[i], DeleteSecret(p, k)) { DeleteFromLog(log, i, p, k); }
  }

  /** The abstract cell of a stored row. */
  lemma RowCell(db: Db, i: nat)
    requires Integrity(db) && i < |db.secrets|
    ensures var s := db.secrets[i];
            var p := db.projects[ProjectById(db.projects, s.projectId).value];
            Store.Store(Abs(db).projects, Abs(db).tokens) == Abs(db)
            && CellIn(Abs(db), p.name, s.key) == Some(CellOf(s))
  {
    var s := db.secrets[i];
    var j := ProjectById(db.projects, s.projectId).value;
    IdFindsRow(db.projects, j);
    AbsLook(db, db.projects[j].name);
    ViewLook(db.secrets, s.projectId, s.key);
    assert SecretIndex(db.secrets, s.projectId, s.key) == Some(i);
  }

  lemma DbOkIntegrity(db: Db)
    requires DbOk(db)
    ensures Integrity(db)
  {
  }

  /**
   Over every history, rotations and restarts included, a row's version counts
   the successful puts of its key since the last successful delete.
   */
  lemma RowVersions(events: seq<Event>, i: nat)
    requires i < |Run(INITIAL, events).db.secrets|
    ensures var w := Run(INITIAL, events);
            var s := w.db.secrets[i];
            && ProjectById(w.db.projects, s.projectId).Some?
            && s.version == PutsSince(w.log, w.db.projects[ProjectById(w.db.projects, s.projectId).value].name, s.key)
  {
    RunInv(events);
    var w := Run(INITIAL, events);
    DbOkIntegrity(w.db);
    RowCell(w.db, i);
    VersionCountsPuts(w.log, w.db.projects[ProjectById(w.db.projects, w.db.secrets[i].projectId).value].name,
                      w.db.secrets[i].key);
  }

  /** ... and the version a put answers is that count, itself included. */
  lemma PutVersions(events: seq<Event>, i: nat, p: Bytes, k: Bytes)
    requires var log := Run(INITIAL, events).log; i < |log| && PutOf(log[i], p, k)
    ensures var log := Run(INITIAL, events).log;
            log[i].response.version == PutsSince(log[..i + 1], p, k)
  {
    RunInv(events);
    PutReturnsCount(Run(INITIAL, events).log, i, p, k);
  }

  /** Between successive puts the version rises exactly when no delete succeeded between them, in every run. */
  lemma VersionRisesInRuns(events: seq<Event>, i: nat, j: nat, p: Bytes, k: Bytes)
    requires var log := Run(INITIAL, events).log;
             && i < j < |log| && PutOf(log[i], p, k) && PutOf(log[j], p, k)
             && forall m :: i < m < j ==> !PutOf(log[m], p, k)
    ensures var log := Run(INITIAL, events).log;
            log[j].response.version > log[i].response.version <==>
            forall m :: i < m < j ==> !DeleteOf(log[m], p, k)
  {
    RunInv(events);
    VersionRises(Run(INITIAL, events).log, i, j, p, k);
  }

  /** ... and over any stretch between two puts the versions rise throughout exactly when there is no delete in it. */
  lemma MonotonicInRuns(events: seq<Event>, i: nat, j: nat, p: Bytes, k: Bytes)
    requires var log := Run(INITIAL, events).log;
             i < j < |log| && PutOf(log[i], p, k) && PutOf(log[j], p, k)
    ensures var log := Run(INITIAL, events).log;
            Rising(log, i, j, p, k) <==> NoDelete(log, i + 1, j, p, k)
  {
    RunInv(events);
    MonotonicIffNoDelete(Run(INITIAL, events).log, i, j, p, k);
  }

  // ---- tokens over time ----

  lemma {:induction false} LogGrows(w: World, events: seq<Event>)
    ensures w.log <= Run(w, events).log
    decreases |events|
  {
    if events != [] {
      LogGrows(w, events[..|events| - 1]);
    }
  }

  lemma {:induction false} RunAppend(w: World, a: seq<Event>, b: seq<Event>)
    ensures Run(w, a + b) == Run(Run(w, a), b)
    decreases |b|
  {
    if b == [] {
      assert a + b == a;
    } else {
      assert (a + b)[..|a + b| - 1] == a + b[..|b| - 1];
      RunAppend(w, a, b[..|b| - 1]);
    }
  }

  /**
   A token row that is revoked or expired at some point of a run admits no
   request at any later point whose clock has not gone back.
   */
  lemma DeadTokenStaysDead(before: seq<Event>, after: seq<Event>, i: nat, hash: Digest)
    requires var w := Run(INITIAL, before);
             i < |w.db.tokens| && !Live(w.db.tokens[i], w.clock)
             && w.clock <= Run(INITIAL, before + after).clock
    ensures var w' := Run(INITIAL, before + after);
            AuthIndex(w'.db.tokens, hash, w'.clock) != Some(i)
  {
    RunInv(before);
    RunInv(before + after);
    RunAppend(INITIAL, before, after);
    LogGrows(Run(INITIAL, before), after);
    var w, w' := Run(INITIAL, before), Run(INITIAL, before + after);
    Auth.DeadNeverAuthenticates(w.log, w'.log, i, w.clock, w'.clock, hash);
  }

  /** Every unscoped token in the table came from an unscoped caller or the local command. */
  lemma UnscopedTokensAreIssued(events: seq<Event>, i: nat)
    requires var w := Run(INITIAL, events); i < |w.db.tokens| && w.db.tokens[i].scope.None?
    ensures var w := Run(INITIAL, events);
            exists j :: 0 <= j < |w.log| && IssuesUnscoped(w.log[j].step)
                     && TokenOf(w.log[j].step, w.db.tokens[i].hash)
  {
    RunInv(events);
    UnscopedTokenIssued(Run(INITIAL, events).log, i);
  }

  predicate LocalUnscoped(e: Event) {
    e.Cli? && e.step.CliCreate? && e.step.project.None?
  }

  /** No unscoped token, and no request admitted with one. */
  ghost predicate NoAdmin(w: World) {
    && AllScoped(w.db.tokens)
    && (forall p, rid :: p in w.procs && w.procs[p].Serving? && rid in w.procs[p].admitted ==>
          w.procs[p].admitted[rid].scope.Some?)
  }

  ghost predicate AllScoped(ts: seq<TokenRow>) {
    forall i :: 0 <= i < |ts| ==> ts[i].scope.Some?
  }

  lemma StepKeepsScoped(st: Store.Store, step: Step)
    requires AllScoped(st.tokens) && !IssuesUnscoped(step)
    ensures AllScoped(Perform(st, step).0.tokens)
  {
    forall i | 0 <= i < |Perform(st, step).0.tokens| ensures Perform(st, step).0.tokens[i].scope.Some? {
      TokenStep(st, step, i);
    }
  }

  /** An event logs at most one step; an HTTP step is one an admitted identity asked for. */
  lemma NextLog(w: World, e: Event)
    ensures var log := Next(w, e).log;
            || log == w.log
            || (|log| == |w.log| + 1 && log[..|w.log|] == w.log
                && match e
                   case Cli(step) => log[|w.log|].step == step
                   case Act(p, rid, _, _, _) =>
                     p in w.procs && w.procs[p].Serving? && rid in w.procs[p].admitted
                     && log[|w.log|].step.Http? && log[|w.log|].step.who == w.procs[p].admitted[rid]
                   case _ => false)
  {
  }

  lemma TokensStayScoped(w: World, e: Event)
    requires Inv(w) && NoAdmin(w) && !LocalUnscoped(e)
    ensures AllScoped(Next(w, e).db.tokens)
  {
    NextKeeps(w, e);
    NextLog(w, e);
    var log := Next(w, e).log;
    assert w.db.tokens == Replay(w.log).tokens;
    assert Next(w, e).db.tokens == Replay(log).tokens;
    if log != w.log {
      assert log[..|log| - 1] == w.log;
      StepKeepsScoped(Replay(w.log), log[|w.log|].step);
    }
  }

  lemma AdmittedStayScoped(w: World, e: Event, p: nat, rid: nat)
    requires NoAdmin(w)
    requires var w' := Next(w, e); p in w'.procs && w'.procs[p].Serving? && rid in w'.procs[p].admitted
    ensures Next(w, e).procs[p].admitted[rid].scope.Some?
  {
  }

  lemma ScopedStep(w: World, e: Event)
    requires Inv(w) && NoAdmin(w) && !LocalUnscoped(e)
    ensures NoAdmin(Next(w, e))
  {
    TokensStayScoped(w, e);
    var w' := Next(w, e);
    forall p, rid | p in w'.procs && w'.procs[p].Serving? && rid in w'.procs[p].admitted
      ensures w'.procs[p].admitted[rid].scope.Some?
    {
      AdmittedStayScoped(w, e, p, rid);
    }
  }

  /** Without the local command there is no way up: scoped tokens beget no unscoped one. */
  lemma {:induction false} NoEscalation(events: seq<Event>)
    requires forall i :: 0 <= i < |events| ==> !LocalUnscoped(events[i])
    ensures NoAdmin(Run(INITIAL, events))
    decreases |events|
  {
    if events != [] {
      var init := events[..|events| - 1];
      NoEscalation(init);
      RunInv(init);
      ScopedStep(Run(INITIAL, init), events[|events| - 1]);
    }
  }
}
