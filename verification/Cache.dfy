/**
 The client's encrypted offline cache on a shared directory: any number of
 clients racing to create the cache key, and envelopes copied, edited and
 deleted between their operations.
 */
module Cache {
  import opened Prelude
  import opened Aead
  import opened Encoding
  import Names

  type SecretMap = map<Bytes, Bytes>
  type U64 = n: nat | n < TWO_64
  type Short = b: Bytes | |b| < TWO_32
  type Hash32 = b: Bytes | |b| == HASH_LEN witness Zeros(HASH_LEN)

  const CACHE_VERSION: nat := 2
  const CACHE_TTL: nat := 86400
  const MAX_FUTURE_SKEW: nat := 120

  datatype Envelope = Envelope(version: nat, createdAt: U64, nonce: Bytes, ct: Blob<SecretMap>)

  /** A cache file: an envelope, or something that does not parse as one. */
  datatype File = Parsed(envelope: Envelope) | Garbage

  type Entries = map<Digest, File>

  /** An opened store. */
  datatype CacheStore = CacheStore(key: Key, url: Short, tokenHash: Hash32)

  datatype CacheError = ReadFailed | ParseFailed | BadVersion | FromTheFuture | Expired | DecryptFailed | BadKeyName

  function PathOf(cs: CacheStore, project: Bytes): Digest {
    Sha256(PathPreimage(cs.url, cs.tokenHash, project))
  }

  function Seal(cs: CacheStore, project: Bytes, secrets: SecretMap, now: U64, nonce: Nonce): Envelope {
    Envelope(CACHE_VERSION, now, nonce, Encrypt(cs.key, nonce, secrets, CacheAad(cs.url, cs.tokenHash, project, now)))
  }

  ghost predicate ValidKeys(m: SecretMap) {
    forall k :: k in m ==> Names.ValidKey(k)
  }

  predicate AllKeysValid(m: SecretMap) {
    forall k :: k in m.Keys ==> Names.ValidKey(k)
  }

  /** `CacheStore::load`, with the checks in its order. */
  function Load(cs: CacheStore, entries: Entries, project: Bytes, now: U64): Result<SecretMap, CacheError> {
    var path := PathOf(cs, project);
    if path !in entries then Err(ReadFailed)
    else if entries[path].Garbage? then Err(ParseFailed)
    else
      var e := entries[path].envelope;
      if e.version != CACHE_VERSION then Err(BadVersion)
      else if e.createdAt > now + MAX_FUTURE_SKEW then Err(FromTheFuture)
      else
        var age := if now >= e.createdAt then now - e.createdAt else 0;
        if age > CACHE_TTL then Err(Expired)
        else
          match Decrypt(cs.key, e.nonce, e.ct, CacheAad(cs.url, cs.tokenHash, project, e.createdAt))
          case None => Err(DecryptFailed)
          case Some(m) => if AllKeysValid(m) then Ok(m) else Err(BadKeyName)
  }

  /** No more than two minutes ahead and no more than a day old. */
  predicate InWindow(createdAt: nat, now: nat) {
    createdAt <= now + 120 && now <= createdAt + 86400
  }

  /** Freshly stored secrets with admitted keys load back exactly while the window lasts, and not outside it. */
  lemma StoreThenLoad(cs: CacheStore, entries: Entries, project: Bytes, secrets: SecretMap,
                      stored: U64, nonce: Nonce, now: U64)
    ensures var entries' := entries[PathOf(cs, project) := Parsed(Seal(cs, project, secrets, stored, nonce))];
            var r := Load(cs, entries', project, now);
            if InWindow(stored, now) && ValidKeys(secrets) then r == Ok(secrets) else r.Err?
  {
  }

  /** A load succeeds with a map exactly when the project's file holds it, sealed by this store, in version 2 and in its window. */
  lemma LoadsExactly(cs: CacheStore, entries: Entries, project: Bytes, now: U64, secrets: SecretMap)
    ensures Load(cs, entries, project, now) == Ok(secrets) <==>
            && PathOf(cs, project) in entries && entries[PathOf(cs, project)].Parsed?
            && var e := entries[PathOf(cs, project)].envelope;
               && e.version == 2 && InWindow(e.createdAt, now) && |e.nonce| == 24 && ValidKeys(secrets)
               && e.ct == Sealed(cs.key, e.nonce, CacheAad(cs.url, cs.tokenHash, project, e.createdAt), secrets)
  {
  }

  // ---- a shared directory ----

  datatype Client =
    | Opening(url: Short, tokenHash: Hash32)
    | ReadingKey(url: Short, tokenHash: Hash32)
    | CreatingKey(url: Short, tokenHash: Hash32, raw: Bytes)
    | Ready(store: CacheStore)

  /** A completed store: what was cached, for whom, when, and how it was sealed. */
  datatype Record = Record(store: CacheStore, project: Short, secrets: SecretMap, createdAt: U64, nonce: Nonce)

  datatype Dir = Dir(keyFile: Option<Bytes>, entries: Entries, clients: map<nat, Client>, records: seq<Record>)

  const EMPTY_DIR := Dir(None, map[], map[], [])

  datatype Event =
    | Open(c: nat, url: Short, tokenHash: Hash32)
    | CheckKey(c: nat, raw: Hash32)
    | FinishKey(c: nat)
    | Store(c: nat, project: Short, secrets: SecretMap, now: U64, nonce: Nonce)
    | Remove(c: nat, project: Short)
    | Exit(c: nat)
    // somebody else with access to the directory
    | Plant(path: Digest, file: File)
    | Unlink(path: Digest)
    | SetKeyFile(key: Option<Bytes>)

  function Blobs(records: seq<Record>): set<Blob<SecretMap>> {
    set i | 0 <= i < |records| :: SealOf(records[i])
  }

  function SealOf(r: Record): Blob<SecretMap> {
    Seal(r.store, r.project, r.secrets, r.createdAt, r.nonce).ct
  }

  /** Envelopes an outsider can plant: any header, around octets or a ciphertext some client produced. */
  predicate Copyable(records: seq<Record>, file: File) {
    file.Garbage? || file.envelope.ct.Raw? || file.envelope.ct in Blobs(records)
  }

  function Next(d: Dir, e: Event): Dir {
    match e
    case Open(c, url, hash) => if c in d.clients then d else d.(clients := d.clients[c := Opening(url, hash)])
    case CheckKey(c, raw) =>
      if c in d.clients && d.clients[c].Opening? then
        var cl := d.clients[c];
        d.(clients := d.clients[c := if d.keyFile.Some? then ReadingKey(cl.url, cl.tokenHash)
                                     else CreatingKey(cl.url, cl.tokenHash, raw)])
      else d
    case FinishKey(c) =>
      if c !in d.clients then d else
        (match d.clients[c]
         case ReadingKey(url, hash) =>
           if d.keyFile.Some? && |d.keyFile.value| == HASH_LEN
           then d.(clients := d.clients[c := Ready(CacheStore(Random(d.keyFile.value), url, hash))])
           else d.(clients := d.clients - {c})
         // The creator keeps the key it drew, even if another creator's rename lands later.
         case CreatingKey(url, hash, raw) =>
           d.(keyFile := Some(raw), clients := d.clients[c := Ready(CacheStore(Random(raw), url, hash))])
         case _ => d)
    case Store(c, project, secrets, now, nonce) =>
      if c in d.clients && d.clients[c].Ready? then
        var cs := d.clients[c].store;
        d.(entries := d.entries[PathOf(cs, project) := Parsed(Seal(cs, project, secrets, now, nonce))],
           records := d.records + [Record(cs, project, secrets, now, nonce)])
      else d
    case Remove(c, project) =>
      if c in d.clients && d.clients[c].Ready?
      then d.(entries := d.entries - {PathOf(d.clients[c].store, project)}) else d
    case Exit(c) => d.(clients := d.clients - {c})
    case Plant(path, file) => if Copyable(d.records, file) then d.(entries := d.entries[path := file]) else d
    case Unlink(path) => d.(entries := d.entries - {path})
    case SetKeyFile(key) => d.(keyFile := key)
  }

  function Run(d: Dir, events: seq<Event>): Dir
    decreases |events|
  {
    if events == [] then d else Next(Run(d, events[..|events| - 1]), events[|events| - 1])
  }

  ghost predicate Inv(d: Dir) {
    forall p :: p in d.entries ==> Copyable(d.records, d.entries[p])
  }

  lemma CopyableGrows(records: seq<Record>, r: Record, file: File)
    requires Copyable(records, file)
    ensures Copyable(records + [r], file)
  {
    if file.Parsed? && file.envelope.ct in Blobs(records) {
      var i :| 0 <= i < |records| && SealOf(records[i]) == file.envelope.ct;
      assert (records + [r])[i] == records[i];
    }
  }

  lemma NextKeeps(d: Dir, e: Event)
    requires Inv(d)
    ensures Inv(Next(d, e))
  {
    var d' := Next(d, e);
    if |d'.records| > |d.records| {
      var r := d'.records[|d.records|];
      assert d'.records == d.records + [r];
      assert SealOf(d'.records[|d.records|]) in Blobs(d'.records);
      forall p | p in d'.entries ensures Copyable(d'.records, d'.entries[p]) {
        if p in d.entries { CopyableGrows(d.records, r, d.entries[p]); }
      }
    }
  }

  lemma {:induction false} RunInv(events: seq<Event>)
    ensures Inv(Run(EMPTY_DIR, events))
    decreases |events|
  {
    if events != [] {
      RunInv(events[..|events| - 1]);
      NextKeeps(Run(EMPTY_DIR, events[..|events| - 1]), events[|events| - 1]);
    }
  }

  /** The record accounts for a load of `m` by this store at this time. */
  predicate Accounts(r: Record, cs: CacheStore, project: Bytes, now: nat, m: SecretMap) {
    && r.store == cs && r.project == project && r.secrets == m
    && InWindow(r.createdAt, now)
  }

  /** An opened blob names its record: server, token, project and time are all in what was authenticated. */
  lemma OpenedRecord(cs: CacheStore, r: Record, project: Short, createdAt: U64, nonce: Bytes)
    requires Decrypt(cs.key, nonce, SealOf(r), CacheAad(cs.url, cs.tokenHash, project, createdAt)).Some?
    ensures r.store == cs && r.project == project && r.createdAt == createdAt
    ensures Decrypt(cs.key, nonce, SealOf(r), CacheAad(cs.url, cs.tokenHash, project, createdAt)).value == r.secrets
  {
    CacheAadInjective(cs.url, cs.tokenHash, project, createdAt,
                      r.store.url, r.store.tokenHash, r.project, r.createdAt);
  }

  /**
   In any run of racing clients and copied, edited or deleted files, a successful
   load returns exactly a map stored earlier for the same server, token and
   project, created between a day ago and two minutes ahead.
   */
  lemma LoadsOnlyWhatWasStored(events: seq<Event>, cs: CacheStore, project: Short, now: U64)
    ensures var d := Run(EMPTY_DIR, events);
            var r := Load(cs, d.entries, project, now);
            r.Ok? ==> exists i :: 0 <= i < |d.records| && Accounts(d.records[i], cs, project, now, r.value)
  {
    RunInv(events);
    var d := Run(EMPTY_DIR, events);
    var r := Load(cs, d.entries, project, now);
    if r.Ok? {
      var e := d.entries[PathOf(cs, project)].envelope;
      assert e.ct in Blobs(d.records);
      var i :| 0 <= i < |d.records| && SealOf(d.records[i]) == e.ct;
      OpenedRecord(cs, d.records[i], project, e.createdAt, e.nonce);
      assert Accounts(d.records[i], cs, project, now, r.value);
    }
  }

  /** Entries of different servers, tokens or projects live in different files. */
  lemma PathsApart(cs: CacheStore, project: Bytes, cs': CacheStore, project': Bytes)
    requires 0 !in cs.url && 0 !in cs'.url
    requires (cs.url, cs.tokenHash, project) != (cs'.url, cs'.tokenHash, project')
    ensures PathOf(cs, project) != PathOf(cs', project')
  {
    if PathOf(cs, project) == PathOf(cs', project') {
      PathPreimageInjective(cs.url, cs.tokenHash, project, cs'.url, cs'.tokenHash, project');
    }
  }
}
