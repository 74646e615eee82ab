/**
 Safety of the key over every run: stored metadata, verifier, ciphertexts and
 the key in a live server's memory agree in every reachable state, and the
 database always stands for the replay of what was answered.
 */
module KeyAgreement {
  import opened Prelude
  import opened Aead
  import opened Repo
  import opened CryptoState
  import opened Lifecycle
  import opened Refinement

  // ---- the database ----

  /** Uninitialised and empty, or consistent under the key of its own verifier. */
  ghost predicate DbOk(db: Db) {
    Blank(db) ||
    (VerifierCt in db.meta && db.meta[VerifierCt].Sealed? && Consistent(db, db.meta[VerifierCt].key))
  }

  lemma ConsistentIsOk(db: Db, key: Key)
    requires Consistent(db, key)
    ensures DbOk(db) && !Blank(db) && db.meta[VerifierCt].key == key
  {
  }

  /** Token commands do not disturb the agreement. */
  lemma TokensFrame(db: Db, ts: seq<TokenRow>)
    requires DbOk(db)
    ensures DbOk(db.(tokens := ts))
    ensures Abs(db.(tokens := ts)) == Abs(db).(tokens := ts)
  {
    var db' := db.(tokens := ts);
    forall n ensures Look(Abs(db').projects, n) == Look(Abs(db).projects, n) {
      AbsLook(db, n);
      AbsLook(db', n);
    }
    SameLooks(Abs(db').projects, Abs(db).projects);
  }

  // ---- processes ----

  ghost predicate SameButTokens(a: Db, b: Db) {
    a.meta == b.meta && a.projects == b.projects && a.secrets == b.secrets
  }

  ghost predicate ReadSoFar(db: Db, got: Meta, n: nat) {
    && n <= |META_ORDER|
    && got == Prefix(db.meta, n)
    && forall i :: 0 <= i < n ==> META_ORDER[i] in db.meta
  }

  /** A transaction that writes has a current snapshot. */
  ghost predicate TxOk(db: Db, writing: bool, tx: Tx) {
    SameButTokens(db, tx.snapshot) && (writing ==> db == tx.snapshot)
  }

  ghost predicate SealingOk(db: Db, writing: bool, oldKey: Key, newKey: Key, tx: Tx, rows: seq<JoinedRow>, i: nat) {
    && TxOk(db, writing, tx) && Consistent(tx.snapshot, oldKey)
    && Usable(newKey) && newKey.passphrase != oldKey.passphrase
    && rows == Join(tx.snapshot.secrets, tx.snapshot.projects) && |rows| == |tx.snapshot.secrets|
    && tx.work == tx.snapshot.(secrets := tx.work.secrets)
    && Resealed(tx.snapshot.secrets, tx.work.secrets, i, newKey)
    && (i > 0 ==> writing)
  }

  /** Initialisation replaces nothing; rotation replaces a key with another passphrase. */
  ghost predicate Replaces(tx: Tx, key: Key, serve: bool) {
    if serve then Blank(tx.snapshot) else
      && DbOk(tx.snapshot) && !Blank(tx.snapshot) && key.Derived?
      && tx.snapshot.meta[VerifierCt].key.passphrase != key.passphrase
  }

  ghost predicate StoringOk(db: Db, writing: bool, key: Key, plan: Meta, tx: Tx, n: nat, serve: bool) {
    && Replaces(tx, key, serve)
    && TxOk(db, writing, tx) && n <= |META_ORDER|
    && MetaOk(plan, key)
    && tx.work.meta == tx.snapshot.meta + Prefix(plan, n)
    && Consistent(tx.work.(meta := plan), key)
    && Abs(tx.work) == Abs(tx.snapshot)
    && (n > 0 ==> writing)
  }

  /** What each stage of a lock holder knows about the database. */
  ghost predicate ActiveOk(db: Db, writing: bool, proc: Proc) {
    match proc
    case ServeStarting(_) => true
    case RekeyStarting(_, _) => true
    case ServeReading(_, got, n) => !writing && ReadSoFar(db, got, n)
    case RekeyReading(_, _, got, n) => !writing && ReadSoFar(db, got, n)
    case ServeFresh(_) => !writing && Blank(db)
    case RekeyVerified(oldKey, next) => !writing && Consistent(db, oldKey) && next != oldKey.passphrase
    case RekeySealing(oldKey, newKey, tx, rows, i) => SealingOk(db, writing, oldKey, newKey, tx, rows, i)
    case Storing(key, plan, tx, n, serve) => StoringOk(db, writing, key, plan, tx, n, serve)
    case Serving(key, _) => !writing && Consistent(db, key)
  }

  /** A step keeps the database sound, its meaning unchanged, and its own stage's knowledge true. */
  ghost predicate StepOk(db: Db, o: Outcome) {
    && (o.db == db || (DbOk(o.db) && Abs(o.db) == Abs(db)))
    && (o.proc.Some? ==> !Starting(o.proc.value) && ActiveOk(o.db, o.writing, o.proc.value))
    && (o.writing ==> o.proc.Some? && (o.proc.value.RekeySealing? || o.proc.value.Storing?))
  }

  lemma PrefixStep(meta: Meta, n: nat)
    requires n < |META_ORDER| && META_ORDER[n] in meta
    ensures Prefix(meta, n + 1) == Prefix(meta, n)[META_ORDER[n] := meta[META_ORDER[n]]]
  {
    assert META_ORDER[..n + 1] == META_ORDER[..n] + [META_ORDER[n]];
  }

  lemma PrefixFull(meta: Meta)
    ensures Prefix(meta, |META_ORDER|) == meta
  {
    assert META_ORDER[..|META_ORDER|] == META_ORDER;
    forall k: MetaKey ensures k in META_ORDER {
      match k
      case KdfSalt => assert META_ORDER[0] == k;
      case KdfM => assert META_ORDER[1] == k;
      case KdfT => assert META_ORDER[2] == k;
      case KdfP => assert META_ORDER[3] == k;
      case VerifierNonce => assert META_ORDER[4] == k;
      case VerifierCt => assert META_ORDER[5] == k;
    }
  }

  /** What verification concludes from the metadata it read is true of the database. */
  lemma VerifiedKey(db: Db, got: Meta, passphrase: Bytes)
    requires DbOk(db) && ReadSoFar(db, got, |META_ORDER|) && VerifyStored(got, passphrase).Ok?
    ensures Consistent(db, VerifyStored(got, passphrase).value)
    ensures VerifyStored(got, passphrase).value.passphrase == passphrase
  {
    PrefixFull(db.meta);
    assert META_ORDER[0] in db.meta;
    var key := db.meta[VerifierCt].key;
    VerifyExactly(db.meta, key, passphrase);
  }

  lemma ReadOne(db: Db, got: Meta, n: nat)
    requires ReadSoFar(db, got, n) && n < |META_ORDER| && META_ORDER[n] in db.meta
    ensures ReadSoFar(db, got[META_ORDER[n] := db.meta[META_ORDER[n]]], n + 1)
  {
    PrefixStep(db.meta, n);
  }

  lemma ReadingStep(db: Db, proc: Proc, salt: Bytes, nonce: Nonce, busy: bool)
    requires DbOk(db) && ActiveOk(db, false, proc) && (proc.ServeReading? || proc.RekeyReading?)
    requires proc.n < |META_ORDER|
    ensures StepOk(db, ProcStep(db, false, busy, proc, salt, nonce))
  {
    if META_ORDER[proc.n] in db.meta {
      ReadOne(db, proc.got, proc.n);
    } else if proc.n == 0 {
      assert KdfSalt !in db.meta;
      assert Blank(db);
    }
  }

  lemma ServeVerifyResult(db: Db, proc: Proc, salt: Bytes, nonce: Nonce, busy: bool)
    requires proc.ServeReading? && proc.n == |META_ORDER|
    ensures ProcStep(db, false, busy, proc, salt, nonce) == Outcome(db, false,
              match VerifyStored(proc.got, proc.passphrase)
              case Err(_) => None
              case Ok(key) => Some(Serving(key, map[])))
  {
  }

  lemma RekeyVerifyResult(db: Db, proc: Proc, salt: Bytes, nonce: Nonce, busy: bool)
    requires proc.RekeyReading? && proc.n == |META_ORDER|
    ensures ProcStep(db, false, busy, proc, salt, nonce) == Outcome(db, false,
              if proc.current == proc.next then None else
                match VerifyStored(proc.got, proc.current)
                case Err(_) => None
                case Ok(key) => Some(RekeyVerified(key, proc.next)))
  {
  }

  lemma ServeVerifying(db: Db, proc: Proc, salt: Bytes, nonce: Nonce, busy: bool)
    requires DbOk(db) && ActiveOk(db, false, proc) && proc.ServeReading? && proc.n == |META_ORDER|
    ensures StepOk(db, ProcStep(db, false, busy, proc, salt, nonce))
  {
    ServeVerifyResult(db, proc, salt, nonce, busy);
    if VerifyStored(proc.got, proc.passphrase).Ok? { VerifiedKey(db, proc.got, proc.passphrase); }
  }

  lemma RekeyVerifying(db: Db, proc: Proc, salt: Bytes, nonce: Nonce, busy: bool)
    requires DbOk(db) && ActiveOk(db, false, proc) && proc.RekeyReading? && proc.n == |META_ORDER|
    ensures StepOk(db, ProcStep(db, false, busy, proc, salt, nonce))
  {
    RekeyVerifyResult(db, proc, salt, nonce, busy);
    if VerifyStored(proc.got, proc.current).Ok? { VerifiedKey(db, proc.got, proc.current); }
  }

  lemma FreshPlan(key: Key, nonce: Nonce)
    requires Usable(key)
    ensures MetaOk(Plan(key, nonce), key)
  {
  }

  lemma PlanStart(meta: Meta, plan: Meta)
    ensures meta + Prefix(plan, 0) == meta
  {
    assert Prefix(plan, 0) == map[];
  }

  lemma AbsIgnoresMeta(db: Db, meta: Meta)
    ensures Abs(db.(meta := meta)) == Abs(db)
  {
    var db' := db.(meta := meta);
    forall n ensures Look(Abs(db').projects, n) == Look(Abs(db).projects, n) {
      AbsLook(db, n);
      AbsLook(db', n);
    }
    SameLooks(Abs(db').projects, Abs(db).projects);
  }

  lemma FreshStep(db: Db, proc: Proc, salt: Bytes, nonce: Nonce, busy: bool)
    requires DbOk(db) && ActiveOk(db, false, proc) && proc.ServeFresh?
    ensures StepOk(db, ProcStep(db, false, busy, proc, salt, nonce))
  {
    var key := DeriveKey(proc.passphrase, salt, STRONG);
    if key.Some? {
      FreshPlan(key.value, nonce);
      PlanStart(db.meta, Plan(key.value, nonce));
    }
  }

  lemma VerifiedStep(db: Db, proc: Proc, salt: Bytes, nonce: Nonce, busy: bool)
    requires DbOk(db) && ActiveOk(db, false, proc) && proc.RekeyVerified?
    ensures StepOk(db, ProcStep(db, false, busy, proc, salt, nonce))
  {
    JoinExact(db.secrets, db.projects);
  }

  /** Sealing every row changes neither the plain map nor anything but ciphertexts. */
  lemma AbsResealed(db: Db, ss: seq<SecretRow>, n: nat, newKey: Key)
    requires Resealed(db.secrets, ss, n, newKey)
    ensures Abs(db.(secrets := ss)) == Abs(db)
  {
    var db' := db.(secrets := ss);
    forall m ensures Look(Abs(db').projects, m) == Look(Abs(db).projects, m) {
      AbsLook(db, m);
      AbsLook(db', m);
      var i := ProjectIndex(db.projects, m);
      if i.Some? { ViewResealed(db.secrets, ss, n, newKey, db.projects[i.value].id); }
    }
    SameLooks(Abs(db').projects, Abs(db).projects);
  }

  lemma SealOne(db: Db, writing: bool, oldKey: Key, newKey: Key, tx: Tx, rows: seq<JoinedRow>, i: nat, nonce: Nonce)
    requires SealingOk(db, writing, oldKey, newKey, tx, rows, i) && i < |rows| && (writing || tx.snapshot == db)
    ensures var r := RekeyRow(tx.work.secrets, rows[i], oldKey, newKey, nonce);
            && r.Some?
            && SealingOk(db, true, oldKey, newKey, tx.(work := tx.work.(secrets := r.value)), rows, i + 1)
  {
    RekeyRowStep(tx.snapshot, oldKey, newKey, tx.work.secrets, i, nonce);
  }

  lemma SealDone(db: Db, writing: bool, oldKey: Key, newKey: Key, tx: Tx, rows: seq<JoinedRow>, nonce: Nonce)
    requires SealingOk(db, writing, oldKey, newKey, tx, rows, |rows|)
    ensures newKey.Derived? && StoringOk(db, writing, newKey, Plan(newKey, nonce), tx, 0, false)
  {
    var plan := Plan(newKey, nonce);
    FreshPlan(newKey, nonce);
    PlanStart(tx.snapshot.meta, plan);
    RekeyedConsistent(tx.snapshot, oldKey, newKey, tx.work.secrets, plan);
    assert tx.snapshot.(secrets := tx.work.secrets, meta := plan) == tx.work.(meta := plan);
    AbsResealed(tx.snapshot, tx.work.secrets, |rows|, newKey);
    ConsistentIsOk(tx.snapshot, oldKey);
  }

  lemma SealResult(db: Db, writing: bool, oldKey: Key, newKey: Key, tx: Tx, rows: seq<JoinedRow>, i: nat,
                   salt: Bytes, nonce: Nonce, busy: bool)
    requires i < |rows|
    ensures var r := RekeyRow(tx.work.secrets, rows[i], oldKey, newKey, nonce);
            ProcStep(db, writing, busy, RekeySealing(oldKey, newKey, tx, rows, i), salt, nonce) ==
            if !MayWrite(db, writing, busy, tx) || r.None? then Outcome(db, false, None)
            else Outcome(db, true, Some(RekeySealing(oldKey, newKey,
                   tx.(work := tx.work.(secrets := r.value)), rows, i + 1)))
  {
  }

  lemma SealingStep(db: Db, writing: bool, proc: Proc, salt: Bytes, nonce: Nonce, busy: bool)
    requires ActiveOk(db, writing, proc) && proc.RekeySealing?
    ensures StepOk(db, ProcStep(db, writing, busy, proc, salt, nonce))
  {
    var RekeySealing(oldKey, newKey, tx, rows, i) := proc;
    if i < |rows| {
      SealResult(db, writing, oldKey, newKey, tx, rows, i, salt, nonce, busy);
      if MayWrite(db, writing, busy, tx) { SealOne(db, writing, oldKey, newKey, tx, rows, i, nonce); }
    } else {
      SealDone(db, writing, oldKey, newKey, tx, rows, nonce);
    }
  }

  lemma StoreOne(db: Db, writing: bool, key: Key, plan: Meta, tx: Tx, n: nat, serve: bool)
    requires StoringOk(db, writing, key, plan, tx, n, serve) && n < |META_ORDER| && (writing || tx.snapshot == db)
    requires META_ORDER[n] in plan
    ensures var meta := tx.work.meta[META_ORDER[n] := plan[META_ORDER[n]]];
            StoringOk(db, true, key, plan, tx.(work := tx.work.(meta := meta)), n + 1, serve)
  {
    var meta := tx.work.meta[META_ORDER[n] := plan[META_ORDER[n]]];
    OverlayStep(tx.snapshot.meta, plan, n);
    AbsIgnoresMeta(tx.work, meta);
    assert tx.work.(meta := meta).(meta := plan) == tx.work.(meta := plan);
  }

  lemma OverlayStep(base: Meta, plan: Meta, n: nat)
    requires n < |META_ORDER| && META_ORDER[n] in plan
    ensures (base + Prefix(plan, n))[META_ORDER[n] := plan[META_ORDER[n]]] == base + Prefix(plan, n + 1)
  {
    PrefixStep(plan, n);
  }

  lemma StoreDone(db: Db, writing: bool, key: Key, plan: Meta, tx: Tx, serve: bool)
    requires StoringOk(db, writing, key, plan, tx, |META_ORDER|, serve)
    ensures Consistent(tx.work, key) && Abs(tx.work) == Abs(db)
  {
    StoredPlan(key, plan, tx);
    assert tx.work.(meta := plan) == tx.work;
  }

  lemma CommitStep(db: Db, writing: bool, proc: Proc, salt: Bytes, nonce: Nonce, busy: bool)
    requires DbOk(db) && ActiveOk(db, writing, proc) && proc.Storing? && proc.n == |META_ORDER|
    ensures StepOk(db, ProcStep(db, writing, busy, proc, salt, nonce))
  {
    StoreDone(db, writing, proc.key, proc.plan, proc.tx, proc.serve);
    ConsistentIsOk(proc.tx.work, proc.key);
  }

  lemma StoreResult(db: Db, writing: bool, key: Key, plan: Meta, tx: Tx, n: nat, serve: bool,
                    salt: Bytes, nonce: Nonce, busy: bool)
    requires n < |META_ORDER|
    ensures ProcStep(db, writing, busy, Storing(key, plan, tx, n, serve), salt, nonce) ==
            if !MayWrite(db, writing, busy, tx) || META_ORDER[n] !in plan then Outcome(db, false, None)
            else Outcome(db, true, Some(Storing(key, plan,
                   tx.(work := tx.work.(meta := tx.work.meta[META_ORDER[n] := plan[META_ORDER[n]]])), n + 1, serve)))
  {
  }

  lemma StoringIsOk(db: Db, key: Key, plan: Meta, tx: Tx, n: nat, serve: bool)
    requires StoringOk(db, true, key, plan, tx, n, serve)
    ensures StepOk(db, Outcome(db, true, Some(Storing(key, plan, tx, n, serve))))
  {
  }

  lemma ExitIsOk(db: Db)
    ensures StepOk(db, Outcome(db, false, None))
  {
  }

  lemma StoringStep(db: Db, writing: bool, key: Key, plan: Meta, tx: Tx, n: nat, serve: bool,
                    salt: Bytes, nonce: Nonce, busy: bool)
    requires StoringOk(db, writing, key, plan, tx, n, serve) && n < |META_ORDER|
    ensures StepOk(db, ProcStep(db, writing, busy, Storing(key, plan, tx, n, serve), salt, nonce))
  {
    StoreResult(db, writing, key, plan, tx, n, serve, salt, nonce, busy);
    if MayWrite(db, writing, busy, tx) && META_ORDER[n] in plan {
      StoreOne(db, writing, key, plan, tx, n, serve);
      var meta := tx.work.meta[META_ORDER[n] := plan[META_ORDER[n]]];
      StoringIsOk(db, key, plan, tx.(work := tx.work.(meta := meta)), n + 1, serve);
    } else {
      ExitIsOk(db);
    }
  }

  /** Once all six entries are written the metadata is the plan. */
  lemma StoredPlan(key: Key, plan: Meta, tx: Tx)
    requires MetaOk(plan, key) && tx.work.meta == tx.snapshot.meta + Prefix(plan, |META_ORDER|)
    ensures tx.work.meta == plan
  {
    PrefixFull(plan);
    forall k: MetaKey ensures k in plan {
      match k
      case KdfSalt =>
      case KdfM =>
      case KdfT =>
      case KdfP =>
      case VerifierNonce =>
      case VerifierCt =>
    }
  }

  lemma AnyStep(db: Db, writing: bool, proc: Proc, salt: Bytes, nonce: Nonce, busy: bool)
    requires DbOk(db) && ActiveOk(db, writing, proc) && !Starting(proc)
    ensures StepOk(db, ProcStep(db, writing, busy, proc, salt, nonce))
  {
    match proc
    case ServeReading(_, _, n) =>
      if n < |META_ORDER| { ReadingStep(db, proc, salt, nonce, busy); }
      else { ServeVerifying(db, proc, salt, nonce, busy); }
    case RekeyReading(_, _, _, n) =>
      if n < |META_ORDER| { ReadingStep(db, proc, salt, nonce, busy); }
      else { RekeyVerifying(db, proc, salt, nonce, busy); }
    case ServeFresh(_) => FreshStep(db, proc, salt, nonce, busy);
    case RekeyVerified(_, _) => VerifiedStep(db, proc, salt, nonce, busy);
    case RekeySealing(_, _, _, _, _) => SealingStep(db, writing, proc, salt, nonce, busy);
    case Storing(key, plan, tx, n, serve) =>
      if n < |META_ORDER| { StoringStep(db, writing, key, plan, tx, n, serve, salt, nonce, busy); }
      else { CommitStep(db, writing, proc, salt, nonce, busy); }
    case Serving(_, _) =>
  }
}
