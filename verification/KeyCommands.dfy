/**
 `init_or_verify` and `rekey` as they run on a connection, with a database
 statement of the transaction that may fail.
 */
module KeyCommands {
  import opened Prelude
  import opened Aead
  import opened Repo
  import opened CryptoState
  import opened Connections
  import opened KeyAgreement
  import opened Refinement
  import opened Lifecycle
  import Encoding

  /** All six entries written over any metadata leave exactly the plan. */
  lemma AllWritten(meta: Meta, key: Key, nonce: Nonce)
    requires key.Derived?
    ensures meta + Plan(key, nonce) == Plan(key, nonce)
  {
    forall k: MetaKey ensures k in Plan(key, nonce) {
      PlanHas(key, nonce, k);
    }
  }

  lemma PlanHas(key: Key, nonce: Nonce, k: MetaKey)
    requires key.Derived?
    ensures k in Plan(key, nonce)
  {
    match k
    case KdfSalt =>
    case KdfM =>
    case KdfT =>
    case KdfP =>
    case VerifierNonce =>
    case VerifierCt =>
  }

  /** The six `set_meta` calls, of which the one numbered `fault` fails. */
  method StoreMetadata(conn: Connection, key: Key, nonce: Nonce, fault: Option<nat>) returns (ok: bool)
    requires key.Derived? && conn.saved.Some?
    modifies conn
    ensures conn.saved == old(conn.saved)
    ensures ok == (fault.None? || fault.value >= |META_ORDER|)
    ensures ok ==> conn.Contents() == old(conn.Contents()).(meta := Plan(key, nonce))
  {
    var plan := Plan(key, nonce);
    forall i | 0 <= i < |META_ORDER| ensures META_ORDER[i] in plan {
      PlanHas(key, nonce, META_ORDER[i]);
    }
    ok := StoreEntries(conn, plan, fault);
    PrefixFull(plan);
    AllWritten(old(conn.meta), key, nonce);
  }

  method StoreEntries(conn: Connection, plan: Meta, fault: Option<nat>) returns (ok: bool)
    requires forall i :: 0 <= i < |META_ORDER| ==> META_ORDER[i] in plan
    modifies conn
    ensures conn.saved == old(conn.saved)
    ensures ok == (fault.None? || fault.value >= |META_ORDER|)
    ensures ok ==> conn.Contents() == old(conn.Contents()).(meta := old(conn.meta) + Prefix(plan, |META_ORDER|))
  {
    ghost var before := conn.meta;
    PlanStart(before, plan);
    var n := 0;
    while n < |META_ORDER|
      invariant 0 <= n <= |META_ORDER|
      invariant conn.saved == old(conn.saved)
      invariant conn.Contents() == old(conn.Contents()).(meta := before + Prefix(plan, n))
      invariant fault.Some? ==> fault.value >= n
    {
      if fault == Some(n) {
        return false;
      }
      OverlayStep(before, plan, n);
      conn.SetMeta(META_ORDER[n], plan[META_ORDER[n]]);
      n := n + 1;
    }
    return true;
  }

  /** `initialize_with_params`: the metadata of the new key, or nothing at all. */
  method Initialize(conn: Connection, passphrase: Bytes, params: KdfParams, salt: Bytes, nonce: Nonce,
                    fault: Option<nat>) returns (r: Result<Key, KeyError>)
    requires conn.saved.None?
    modifies conn
    ensures conn.saved.None?
    ensures r.Err? ==> conn.Contents() == old(conn.Contents())
    ensures r.Ok? ==> r.value == Derived(passphrase, salt, params)
    ensures r.Ok? ==> conn.Contents() == old(conn.Contents()).(meta := Plan(r.value, nonce))
    ensures r.Ok? <==> Derivable(passphrase, params) && (fault.None? || fault.value >= |META_ORDER|)
  {
    var derived := DeriveKey(passphrase, salt, params);
    if derived.None? {
      return Err(DerivationFailed);
    }
    conn.Begin();
    var ok := StoreMetadata(conn, derived.value, nonce, fault);
    if !ok {
      conn.Rollback();
      return Err(DatabaseFailure);
    }
    conn.Commit();
    return Ok(derived.value);
  }

  /** `init_or_verify`: first start initialises, later starts verify and change nothing. */
  method InitOrVerify(conn: Connection, passphrase: Bytes, salt: Bytes, nonce: Nonce, fault: Option<nat>)
    returns (r: Result<Key, KeyError>)
    requires conn.saved.None?
    modifies conn
    ensures conn.saved.None?
    ensures r.Err? || KdfSalt in old(conn.meta) ==> conn.Contents() == old(conn.Contents())
    ensures KdfSalt in old(conn.meta) ==> r == VerifyStored(old(conn.meta), passphrase)
    ensures DbOk(old(conn.Contents())) ==> DbOk(conn.Contents())
    ensures DbOk(old(conn.Contents())) && r.Ok? ==>
              Consistent(conn.Contents(), r.value) && r.value.passphrase == passphrase
    ensures DbOk(old(conn.Contents())) ==>
              (r.Ok? <==> if Blank(old(conn.Contents()))
                          then |passphrase| < Encoding.TWO_32 && (fault.None? || fault.value >= |META_ORDER|)
                          else passphrase == old(conn.meta)[VerifierCt].key.passphrase)
  {
    ghost var good := DbOk(conn.Contents());
    if KdfSalt in conn.meta {
      r := Verify(conn.meta, passphrase, Octets(conn.meta[KdfSalt]));
      if good { VerifyExactly(conn.meta, conn.meta[VerifierCt].key, passphrase); }
    } else {
      r := Initialize(conn, passphrase, STRONG, salt, nonce, fault);
      if r.Ok? {
        FreshPlan(r.value, nonce);
      }
    }
  }

  /** Statements of the rotation's transaction: one update a row, then the metadata. */
  predicate Unharmed(fault: Option<nat>, rows: nat) {
    fault.None? || fault.value >= rows + |META_ORDER|
  }

  /** The loop over the joined rows; stops at the first row that does not open or is not written. */
  method SealRows(conn: Connection, rows: seq<JoinedRow>, oldKey: Key, newKey: Key, nonces: nat -> Nonce,
                  fault: Option<nat>, ghost was: Db) returns (ok: bool)
    requires conn.saved == Some(was) && conn.Contents() == was && rows == Join(was.secrets, was.projects)
    modifies conn
    ensures conn.saved == Some(was)
    ensures ok ==> conn.Contents() == was.(secrets := conn.secrets)
    ensures Consistent(was, oldKey) ==>
              |rows| == |was.secrets| && ok == (fault.None? || fault.value >= |rows|)
              && (ok ==> Resealed(was.secrets, conn.secrets, |rows|, newKey))
    ensures ok ==> fault.None? || fault.value >= |rows|
  {
    ghost var good := Consistent(was, oldKey);
    if good { JoinExact(was.secrets, was.projects); }
    var i := 0;
    while i < |rows|
      invariant 0 <= i <= |rows|
      invariant conn.saved == Some(was) && conn.Contents() == was.(secrets := conn.secrets)
      invariant good ==> Resealed(was.secrets, conn.secrets, i, newKey)
      invariant fault.Some? ==> fault.value >= i
    {
      var row := rows[i];
      var aad := Encoding.Aad(row.project, row.key);
      if good { RekeyRowStep(was, oldKey, newKey, conn.secrets, i, nonces(i)); }
      var plaintext := Decrypt(oldKey, row.nonce, row.ct, aad);
      if plaintext.None? || fault == Some(i) {
        return false;
      }
      conn.UpdateCiphertext(row.id, nonces(i), Encrypt(newKey, nonces(i), plaintext.value, aad));
      i := i + 1;
    }
    return true;
  }

  /**
   `rekey_with_params`. All or nothing: an error leaves the database as it was. On
   a consistent database it succeeds exactly for the right current passphrase, a
   different derivable new one, and no failing statement; it then counts every
   secret, keeps the plain map, and leaves everything sealed under the new key.
   The new parameters are not checked against the bounds `verify` will apply.
   */
  method RekeyWithParams(conn: Connection, current: Bytes, next: Bytes, params: KdfParams, salt: Bytes,
                         nonces: nat -> Nonce, nonce: Nonce, fault: Option<nat>, ghost key: Key)
    returns (r: Result<nat, KeyError>)
    requires conn.saved.None?
    modifies conn
    ensures conn.saved.None?
    ensures r.Err? ==> conn.Contents() == old(conn.Contents())
    ensures Consistent(old(conn.Contents()), key) ==>
              (r.Ok? <==> current == key.passphrase && next != current && Derivable(next, params)
                          && Unharmed(fault, |old(conn.secrets)|))
    ensures Consistent(old(conn.Contents()), key) && r.Ok? ==>
              r.value == |old(conn.secrets)| && Abs(conn.Contents()) == Abs(old(conn.Contents()))
    ensures Consistent(old(conn.Contents()), key) && r.Ok? ==>
              (SupportedParams(params) <==> Consistent(conn.Contents(), Derived(next, salt, params)))
  {
    if current == next {
      return Err(SamePassphrase);
    }
    if KdfSalt !in conn.meta {
      return Err(Uninitialised);
    }
    ghost var was := conn.Contents();
    ghost var good := Consistent(was, key);
    var verified := Verify(conn.meta, current, Octets(conn.meta[KdfSalt]));
    if good { VerifyExactly(was.meta, key, current); }
    if verified.Err? {
      return Err(verified.error);
    }
    var derived := DeriveKey(next, salt, params);
    if derived.None? {
      return Err(DerivationFailed);
    }
    var newKey := derived.value;
    conn.Begin();
    var rows := Join(conn.secrets, conn.projects);
    var ok := SealRows(conn, rows, verified.value, newKey, nonces, fault, was);
    if ok {
      ghost var sealed := conn.secrets;
      var rest := if fault.Some? then Some(fault.value - |rows|) else None;
      ok := StoreMetadata(conn, newKey, nonce, rest);
      if good && ok {
        RekeyedMeaning(was, key, newKey, sealed, nonce);
      }
    }
    if !ok {
      conn.Rollback();
      return Err(DatabaseFailure);
    }
    conn.Commit();
    return Ok(|rows|);
  }

  lemma RekeyedMeaning(was: Db, oldKey: Key, newKey: Key, ss: seq<SecretRow>, nonce: Nonce)
    requires Consistent(was, oldKey) && Resealed(was.secrets, ss, |was.secrets|, newKey)
    requires newKey.Derived? && Derivable(newKey.passphrase, newKey.params)
    ensures var db := was.(secrets := ss, meta := Plan(newKey, nonce));
            Abs(db) == Abs(was) && (SupportedParams(newKey.params) <==> Consistent(db, newKey))
  {
    AbsResealed(was, ss, |was.secrets|, newKey);
    AbsIgnoresMeta(was.(secrets := ss), Plan(newKey, nonce));
    if SupportedParams(newKey.params) {
      FreshPlan(newKey, nonce);
      RekeyedConsistent(was, oldKey, newKey, ss, Plan(newKey, nonce));
    }
  }
}
