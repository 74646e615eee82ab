/**
 Master-key initialisation, verification and rotation over table values, and the
 agreement between stored metadata, verifier, ciphertexts and one key.
 */
module CryptoState {
  import opened Prelude
  import opened Aead
  import opened Repo
  import Encoding
  import Names
  import Utf8

  const SENTINEL: Bytes := Ascii("secrets-manager-verifier-v1")

  datatype KeyError =
    | MissingMetadata(key: MetaKey)
    | CorruptedParameter
    | ParametersOutOfRange
    | DerivationFailed
    | VerificationFailed
    | SamePassphrase
    | Uninitialised
    | RowUnreadable
    | DatabaseFailure

  /** `validate_kdf_params`. */
  predicate SupportedParams(p: KdfParams) {
    8 <= p.m <= 1024 * 1024 && 1 <= p.t <= 32 && 1 <= p.p <= 8
  }

  // ---- verification ----

  /** Octets of a metadata blob; ciphertexts are never parsed as metadata. */
  function Octets(b: Blob<Bytes>): Bytes {
    if b.Raw? then b.bytes else []
  }

  function ReadParam(meta: Meta, k: MetaKey): Result<nat, KeyError> {
    if k !in meta then Err(MissingMetadata(k))
    else match Encoding.LeToU32(Octets(meta[k]))
         case None => Err(CorruptedParameter)
         case Some(n) => Ok(n)
  }

  function ReadParams(meta: Meta): Result<KdfParams, KeyError> {
    match ReadParam(meta, KdfM)
    case Err(e) => Err(e)
    case Ok(m) =>
      match ReadParam(meta, KdfT)
      case Err(e) => Err(e)
      case Ok(t) =>
        match ReadParam(meta, KdfP)
        case Err(e) => Err(e)
        case Ok(p) => Ok(KdfParams(m, t, p))
  }

  /** `verify`. The decrypted sentinel is discarded, not compared. */
  function Verify(meta: Meta, passphrase: Bytes, salt: Bytes): Result<Key, KeyError> {
    match ReadParams(meta)
    case Err(e) => Err(e)
    case Ok(params) =>
      if !SupportedParams(params) then Err(ParametersOutOfRange) else
        match DeriveKey(passphrase, salt, params)
        case None => Err(DerivationFailed)
        case Some(key) =>
          if VerifierNonce !in meta then Err(MissingMetadata(VerifierNonce))
          else if VerifierCt !in meta then Err(MissingMetadata(VerifierCt))
          else if Decrypt(key, Octets(meta[VerifierNonce]), meta[VerifierCt], Encoding.VerifierAad()).None?
          then Err(VerificationFailed)
          else Ok(key)
  }

  /** `verify` reached through the stored salt, as `init_or_verify` and `rekey` do. */
  function VerifyStored(meta: Meta, passphrase: Bytes): Result<Key, KeyError> {
    if KdfSalt in meta then Verify(meta, passphrase, Octets(meta[KdfSalt])) else Err(Uninitialised)
  }

  // ---- metadata ----

  /** The order in which `initialize` and `rekey` write the metadata, and `verify` reads it. */
  const META_ORDER: seq<MetaKey> := [KdfSalt, KdfM, KdfT, KdfP, VerifierNonce, VerifierCt]

  /** The six entries stored for a key. */
  function Plan(key: Key, nonce: Nonce): Meta
    requires key.Derived?
  {
    map[KdfSalt := Raw(key.salt),
        KdfM := Raw(Encoding.U32Le(key.params.m)),
        KdfT := Raw(Encoding.U32Le(key.params.t)),
        KdfP := Raw(Encoding.U32Le(key.params.p)),
        VerifierNonce := Raw(nonce),
        VerifierCt := Encrypt(key, nonce, SENTINEL, Encoding.VerifierAad())]
  }

  /** A key `verify` can re-derive. */
  predicate Usable(key: Key) {
    key.Derived? && SupportedParams(key.params) && Derivable(key.passphrase, key.params)
  }

  ghost predicate MetaOk(meta: Meta, key: Key) {
    && Usable(key)
    && VerifierNonce in meta && meta[VerifierNonce].Raw? && |meta[VerifierNonce].bytes| == NONCE_LEN
    && meta == Plan(key, meta[VerifierNonce].bytes)
  }

  /**
   Whatever is persisted for a key decodes back exactly, passes the bounds, and
   yields that key for its own passphrase and for no other.
   */
  lemma VerifyExactly(meta: Meta, key: Key, passphrase: Bytes)
    requires MetaOk(meta, key)
    ensures ReadParams(meta) == Ok(key.params)
    ensures VerifyStored(meta, passphrase).Ok? <==> passphrase == key.passphrase
    ensures VerifyStored(meta, key.passphrase) == Ok(key)
  {
    Encoding.U32RoundTrip(key.params.m);
    Encoding.U32RoundTrip(key.params.t);
    Encoding.U32RoundTrip(key.params.p);
  }

  lemma StrongIsUsable(passphrase: Bytes, salt: Bytes)
    requires |passphrase| < Encoding.TWO_32
    ensures DeriveKey(passphrase, salt, STRONG).Some?
    ensures Usable(Derived(passphrase, salt, STRONG)) && STRONG == KdfParams(262144, 4, 1)
  {
  }

  /** Of the parameters the program's bounds admit, Argon2 takes exactly those with eight blocks a lane. */
  lemma DerivableExactly(passphrase: Bytes, salt: Bytes, params: KdfParams)
    requires SupportedParams(params)
    ensures DeriveKey(passphrase, salt, params).Some? <==>
            |passphrase| < Encoding.TWO_32 && 8 * params.p <= params.m
  {
  }

  /** Verification up to the derivation: which stored parameters stop it, and with which error. */
  lemma VerifyStopsExactly(meta: Meta, passphrase: Bytes, salt: Bytes)
    requires ReadParams(meta).Ok?
    ensures var params, r := ReadParams(meta).value, Verify(meta, passphrase, salt);
            var within := 8 <= params.m <= 1048576 && 1 <= params.t <= 32 && 1 <= params.p <= 8;
            && (r == Err(ParametersOutOfRange) <==> !within)
            && (r == Err(DerivationFailed) <==>
                  within && (|passphrase| >= Encoding.TWO_32 || params.m < 8 * params.p))
  {
    if SupportedParams(ReadParams(meta).value) {
      DerivableExactly(passphrase, salt, ReadParams(meta).value);
    }
  }

  /**
   Verifying metadata written for any key with 32-bit parameters, case by case:
   it succeeds for the key's own passphrase if and only if the parameters are
   within the bounds and the passphrase is derivable.
   */
  lemma PlanVerifies(key: Key, nonce: Nonce, passphrase: Bytes)
    requires key.Derived? && key.params.m < Encoding.TWO_32
    requires key.params.t < Encoding.TWO_32 && key.params.p < Encoding.TWO_32
    ensures VerifyStored(Plan(key, nonce), passphrase) ==
            if !SupportedParams(key.params) then Err(ParametersOutOfRange)
            else if |passphrase| >= Encoding.TWO_32 || key.params.m < 8 * key.params.p then Err(DerivationFailed)
            else if passphrase != key.passphrase then Err(VerificationFailed)
            else Ok(key)
  {
    Encoding.U32RoundTrip(key.params.m);
    Encoding.U32RoundTrip(key.params.t);
    Encoding.U32RoundTrip(key.params.p);
    assert ReadParams(Plan(key, nonce)) == Ok(key.params);
  }

  /** Some triples pass the program's own bounds although Argon2 rejects them: no start succeeds on them. */
  lemma SupportedButUnderivable(passphrase: Bytes, salt: Bytes)
    ensures SupportedParams(KdfParams(8, 1, 8)) && DeriveKey(passphrase, salt, KdfParams(8, 1, 8)).None?
    ensures forall nonce: Nonce, other ::
              |other| < Encoding.TWO_32 ==>
              VerifyStored(Plan(Derived(passphrase, salt, KdfParams(8, 1, 8)), nonce), other) == Err(DerivationFailed)
  {
    forall nonce: Nonce, other | |other| < Encoding.TWO_32
      ensures VerifyStored(Plan(Derived(passphrase, salt, KdfParams(8, 1, 8)), nonce), other) == Err(DerivationFailed)
    {
      PlanVerifies(Derived(passphrase, salt, KdfParams(8, 1, 8)), nonce, other);
    }
  }

  // ---- agreement of key and data ----

  /** The row is sealed under `key` at its own record and holds text. */
  ghost predicate RowOk(ps: seq<ProjectRow>, key: Key, s: SecretRow) {
    && ProjectById(ps, s.projectId).Some?
    && |s.nonce| == NONCE_LEN
    && s.ct.Sealed?
    && s.ct == Sealed(key, s.nonce, Encoding.Aad(ps[ProjectById(ps, s.projectId).value].name, s.key), s.ct.payload)
    && Utf8.Valid(s.ct.payload)
  }

  ghost predicate SealedUnder(db: Db, key: Key) {
    forall i :: 0 <= i < |db.secrets| ==> RowOk(db.projects, key, db.secrets[i])
  }

  /** Metadata, verifier and every ciphertext agree on `key`. */
  ghost predicate Consistent(db: Db, key: Key) {
    Integrity(db) && MetaOk(db.meta, key) && SealedUnder(db, key)
  }

  /** Not initialised: no metadata, and so no projects or secrets. */
  ghost predicate Blank(db: Db) {
    db.meta == map[] && db.projects == [] && db.secrets == []
  }

  // ---- rotation ----

  datatype JoinedRow = JoinedRow(id: int, project: Bytes, key: Bytes, nonce: Bytes, ct: Blob<Bytes>)

  /** The rows one secret contributes to the join: one for each project row it refers to. */
  function JoinOne(s: SecretRow, ps: seq<ProjectRow>): seq<JoinedRow> {
    if ps == [] then [] else
      var p := ps[|ps| - 1];
      JoinOne(s, ps[..|ps| - 1]) +
      if p.id == s.projectId then [JoinedRow(s.id, p.name, s.key, s.nonce, s.ct)] else []
  }

  /** `SELECT ... FROM secrets JOIN projects ON projects.id = secrets.project_id ORDER BY secrets.id`. */
  function Join(ss: seq<SecretRow>, ps: seq<ProjectRow>): seq<JoinedRow> {
    if ss == [] then [] else Join(ss[..|ss| - 1], ps) + JoinOne(ss[|ss| - 1], ps)
  }

  /** The joined row that stands for a secret. */
  function JoinedFor(s: SecretRow, ps: seq<ProjectRow>): JoinedRow
    requires ProjectById(ps, s.projectId).Some?
  {
    JoinedRow(s.id, ps[ProjectById(ps, s.projectId).value].name, s.key, s.nonce, s.ct)
  }

  lemma {:induction false} JoinOneExact(s: SecretRow, ps: seq<ProjectRow>)
    requires forall i, j :: 0 <= i < j < |ps| ==> ps[i].id < ps[j].id
    ensures JoinOne(s, ps) == if ProjectById(ps, s.projectId).Some? then [JoinedFor(s, ps)] else []
  {
    if ps != [] {
      var init := ps[..|ps| - 1];
      JoinOneExact(s, init);
      var a, b := ProjectById(init, s.projectId), ProjectById(ps, s.projectId);
      if a.Some? {
        assert ps[a.value] == init[a.value];
        assert a == b;
      } else if b.Some? {
        assert forall j :: 0 <= j < |init| ==> init[j] == ps[j];
        assert b.value == |ps| - 1;
      }
    }
  }

  /** The join neither drops nor duplicates a secret: its rows are the secrets, in order. */
  lemma {:induction false} JoinExact(ss: seq<SecretRow>, ps: seq<ProjectRow>)
    requires forall i, j :: 0 <= i < j < |ps| ==> ps[i].id < ps[j].id
    requires forall i :: 0 <= i < |ss| ==> ProjectById(ps, ss[i].projectId).Some?
    ensures |Join(ss, ps)| == |ss|
    ensures forall i :: 0 <= i < |ss| ==> Join(ss, ps)[i] == JoinedFor(ss[i], ps)
  {
    if ss != [] {
      var init, last := ss[..|ss| - 1], ss[|ss| - 1];
      JoinExact(init, ps);
      JoinOneExact(last, ps);
      assert Join(ss, ps) == Join(init, ps) + [JoinedFor(last, ps)];
      forall i | 0 <= i < |ss| ensures Join(ss, ps)[i] == JoinedFor(ss[i], ps) {
        if i < |init| { assert Join(init, ps)[i] == JoinedFor(init[i], ps); }
      }
    }
  }

  /** Re-encrypt one joined row in the table; `None` when it does not open under the old key. */
  function RekeyRow(ss: seq<SecretRow>, row: JoinedRow, oldKey: Key, newKey: Key, nonce: Nonce): Option<seq<SecretRow>> {
    var aad := Encoding.Aad(row.project, row.key);
    match Decrypt(oldKey, row.nonce, row.ct, aad)
    case None => None
    case Some(plaintext) => Some(UpdateCiphertext(ss, row.id, nonce, Encrypt(newKey, nonce, plaintext, aad)))
  }

  /** `after` is `before` with its first `n` rows sealed anew under `newKey`, contents untouched. */
  ghost predicate Resealed(before: seq<SecretRow>, after: seq<SecretRow>, n: nat, newKey: Key) {
    && n <= |before| == |after|
    && (forall j :: 0 <= j < n ==> ResealedRow(before[j], after[j], newKey))
    && (forall j :: n <= j < |before| ==> after[j] == before[j])
  }

  ghost predicate ResealedRow(b: SecretRow, a: SecretRow, newKey: Key) {
    && b.ct.Sealed? && |a.nonce| == NONCE_LEN
    && a == b.(nonce := a.nonce, ct := Sealed(newKey, a.nonce, b.ct.aad, b.ct.payload))
  }

  /** One iteration of the rotation loop succeeds and seals exactly one more row. */
  lemma RekeyRowStep(db: Db, oldKey: Key, newKey: Key, ss: seq<SecretRow>, n: nat, nonce: Nonce)
    requires Consistent(db, oldKey) && n < |db.secrets| && Resealed(db.secrets, ss, n, newKey)
    requires |Join(db.secrets, db.projects)| == |db.secrets|
    ensures var r := RekeyRow(ss, Join(db.secrets, db.projects)[n], oldKey, newKey, nonce);
            r.Some? && Resealed(db.secrets, r.value, n + 1, newKey)
  {
    JoinExact(db.secrets, db.projects);
    var s := db.secrets[n];
    assert RowOk(db.projects, oldKey, s);
    var r := RekeyRow(ss, Join(db.secrets, db.projects)[n], oldKey, newKey, nonce);
    forall j | 0 <= j < |ss| ensures ss[j].id == s.id <==> j == n {
      assert ss[j].id == db.secrets[j].id;
    }
    assert ResealedRow(s, r.value[n], newKey);
  }

  /** A finished rotation is consistent under the new key, and no row opens under the old one. */
  lemma RekeyedConsistent(db: Db, oldKey: Key, newKey: Key, ss: seq<SecretRow>, meta: Meta)
    requires Consistent(db, oldKey) && Resealed(db.secrets, ss, |db.secrets|, newKey)
    requires MetaOk(meta, newKey)
    ensures Consistent(db.(secrets := ss, meta := meta), newKey)
    ensures forall i :: 0 <= i < |ss| ==> ss[i].ct.Sealed? && ss[i].ct.key == newKey
  {
    forall i | 0 <= i < |ss| ensures RowOk(db.projects, newKey, ss[i]) {
      assert RowOk(db.projects, oldKey, db.secrets[i]) && ResealedRow(db.secrets[i], ss[i], newKey);
    }
    forall i, j | 0 <= i < j < |ss|
      ensures ss[i].id < ss[j].id && !(ss[i].projectId == ss[j].projectId && ss[i].key == ss[j].key)
    {
      assert ResealedRow(db.secrets[i], ss[i], newKey) && ResealedRow(db.secrets[j], ss[j], newKey);
    }
    forall i | 0 <= i < |ss|
      ensures ProjectById(db.projects, ss[i].projectId).Some? && Names.ValidKey(ss[i].key) && ss[i].version >= 1
    {
      assert ResealedRow(db.secrets[i], ss[i], newKey);
    }
  }

  /** A ciphertext opens at one record only: swapping rows between records is detected. */
  lemma OpensOnlyAtItsRecord(key: Key, nonce: Bytes, ct: Blob<Bytes>, p: Bytes, k: Bytes, p': Bytes, k': Bytes)
    requires Names.ValidProject(p) && Names.ValidKey(k) && Names.ValidProject(p') && Names.ValidKey(k')
    requires Decrypt(key, nonce, ct, Encoding.Aad(p, k)).Some?
    requires Decrypt(key, nonce, ct, Encoding.Aad(p', k')).Some?
    ensures p == p' && k == k'
  {
    Encoding.AadInjective(p, k, p', k');
  }
}
