/** The caching client: when it falls back to the cache, and what it then returns. */
module ClientApi {
  import opened Prelude
  import opened Aead
  import opened Cache
  import Names
  import Order

  /**
   What an HTTP exchange ends in: a status error, no answer, a body that breaks
   off or does not parse, or a JSON map encoded in `size` octets.
   */
  datatype Exchange = Status(code: nat) | NoAnswer | BadBody | Body(raw: SecretMap, size: nat)

  /** No more than this much of a body is read. */
  const MAX_RESPONSE_BYTES: nat := 0x10_0000

  datatype ClientError =
    | UnexpectedResponse
    | Unauthorized
    | Forbidden
    | NotFound
    | HttpStatus(code: nat)
    | Transport
    | OfflineCacheUnavailable(cache: CacheError)

  /** `map_error`. */
  function MapError(x: Exchange): ClientError
    requires x.Status? || x.NoAnswer?
  {
    match x
    case Status(code) =>
      if code == 401 then Unauthorized
      else if code == 403 then Forbidden
      else if code == 404 then NotFound
      else HttpStatus(code)
    case NoAnswer => Transport
  }

  function FromPlain(raw: SecretMap): Result<SecretMap, ClientError> {
    if AllKeysValid(raw) then Ok(raw) else Err(UnexpectedResponse)
  }

  lemma SameMaps(a: SecretMap, b: SecretMap, keys: seq<Bytes>)
    requires forall k :: k in a ==> k in b && a[k] == b[k]
    requires forall k :: k in b ==> k in keys
    requires forall j :: 0 <= j < |keys| ==> keys[j] in a && Names.ValidKey(keys[j])
    ensures a == b && ValidKeys(b)
  {
    forall k | k in b ensures k in a && Names.ValidKey(k) {
      var j :| 0 <= j < |keys| && keys[j] == k;
    }
    assert a.Keys == b.Keys;
  }

  /** `secret_map_from_plain`: keep every entry, or reject the map at the first bad key. */
  method SecretMapFromPlain(raw: SecretMap) returns (r: Result<SecretMap, ClientError>)
    ensures r == if ValidKeys(raw) then Ok(raw) else Err(UnexpectedResponse)
  {
    var keys := Order.Sorted(raw.Keys);
    assert forall k :: k in keys <==> k in raw;
    var out: SecretMap := map[];
    var i := 0;
    while i < |keys|
      invariant 0 <= i <= |keys|
      invariant forall j :: 0 <= j < i ==> keys[j] in out && Names.ValidKey(keys[j])
      invariant forall k :: k in out ==> k in raw && out[k] == raw[k]
    {
      var k := keys[i];
      assert k in keys;
      if !Names.ValidKey(k) {
        return Err(UnexpectedResponse);
      }
      out := out[k := raw[k]];
      i := i + 1;
    }
    SameMaps(out, raw, keys);
    return Ok(out);
  }

  /** `fetch_secrets`. */
  function Fetch(x: Exchange): Result<SecretMap, ClientError> {
    match x
    case Body(raw, size) => if size > MAX_RESPONSE_BYTES then Err(UnexpectedResponse) else FromPlain(raw)
    case BadBody => Err(UnexpectedResponse)
    case _ => Err(MapError(x))
  }

  // ---- operations ----

  /** A call, how its exchange ends, and whether its cache write or removal works. */
  datatype Op =
    | Get(project: Short, x: Exchange, now: U64, nonce: Nonce, stores: bool)
    | Set(project: Short, x: Exchange, removes: bool)

  predicate Succeeds(x: Exchange) {
    x.Body? || x.BadBody?
  }

  /** Cache files after a call. A set looks at the status only, not at the body. */
  function Files(cs: CacheStore, entries: Entries, op: Op): Entries {
    match op
    case Get(p, x, now, nonce, stores) =>
      if Fetch(x).Ok? && stores then entries[PathOf(cs, p) := Parsed(Seal(cs, p, Fetch(x).value, now, nonce))]
      else entries
    case Set(p, x, removes) =>
      if Succeeds(x) && removes then entries - {PathOf(cs, p)} else entries
  }

  function GetAnswer(cs: CacheStore, entries: Entries, p: Short, x: Exchange, now: U64): Result<SecretMap, ClientError> {
    match Fetch(x)
    case Ok(m) => Ok(m)
    case Err(e) =>
      if !e.Transport? then Err(e) else
        match Load(cs, entries, p, now)
        case Ok(m) => Ok(m)
        case Err(c) => Err(OfflineCacheUnavailable(c))
  }

  function SetAnswer(x: Exchange): Result<(), ClientError> {
    if Succeeds(x) then Ok(()) else Err(MapError(x))
  }

  /** The client object: a fixed store over files it rewrites. */
  class Api {
    const store: CacheStore
    var entries: Entries

    constructor (store: CacheStore, entries: Entries)
      ensures this.store == store && this.entries == entries
    {
      this.store := store;
      this.entries := entries;
    }

    /** `get_secrets`: network first, refresh the cache, fall back on transport errors only. */
    method GetSecrets(p: Short, x: Exchange, now: U64, nonce: Nonce, stores: bool)
      returns (r: Result<SecretMap, ClientError>)
      modifies this
      ensures r == GetAnswer(store, old(entries), p, x, now)
      ensures entries == Files(store, old(entries), Get(p, x, now, nonce, stores))
    {
      var fetched: Result<SecretMap, ClientError>;
      match x {
        case Body(raw, size) =>
          if size > MAX_RESPONSE_BYTES {
            fetched := Err(UnexpectedResponse);
          } else {
            fetched := SecretMapFromPlain(raw);
          }
        case BadBody => fetched := Err(UnexpectedResponse);
        case _ => fetched := Err(MapError(x));
      }
      match fetched {
        case Ok(m) =>
          if stores {
            entries := entries[PathOf(store, p) := Parsed(Seal(store, p, m, now, nonce))];
          }
          r := Ok(m);
        case Err(e) =>
          if e.Transport? {
            var loaded := Load(store, entries, p, now);
            match loaded {
              case Ok(m) => r := Ok(m);
              case Err(c) => r := Err(OfflineCacheUnavailable(c));
            }
          } else {
            r := Err(e);
          }
      }
    }

    /** `set_secret`: drop the cached copy once the server has accepted the value. */
    method SetSecret(p: Short, x: Exchange, removes: bool) returns (r: Result<(), ClientError>)
      modifies this
      ensures r == SetAnswer(x)
      ensures entries == Files(store, old(entries), Set(p, x, removes))
    {
      if Succeeds(x) {
        if removes {
          entries := entries - {PathOf(store, p)};
        }
        r := Ok(());
      } else {
        r := Err(MapError(x));
      }
    }
  }

  /** Errors other than transport failures are reported as they are: the cache is neither read nor changed. */
  lemma OnlyTransportFallsBack(cs: CacheStore, a: Entries, b: Entries, p: Short, x: Exchange,
                               now: U64, nonce: Nonce, stores: bool)
    requires Fetch(x).Err? && !x.NoAnswer?
    ensures GetAnswer(cs, a, p, x, now) == GetAnswer(cs, b, p, x, now) == Err(Fetch(x).error)
    ensures Files(cs, a, Get(p, x, now, nonce, stores)) == a
  {
  }

  /** Every way an exchange can end, by the error a call reports for it. */
  ghost predicate Reports(x: Exchange, e: ClientError) {
    match x
    case Status(401) => e == Unauthorized
    case Status(403) => e == Forbidden
    case Status(404) => e == NotFound
    case Status(code) => e == HttpStatus(code)
    case NoAnswer => e == Transport
    case BadBody => e == UnexpectedResponse
    case Body(raw, size) => (size > 1048576 || !ValidKeys(raw)) && e == UnexpectedResponse
  }

  /**
   A set succeeds exactly on a success status, whatever its body, and drops the
   cached copy; otherwise it reports how the exchange ended and no file changes.
   */
  lemma SetExactly(cs: CacheStore, entries: Entries, p: Short, x: Exchange, removes: bool)
    ensures var r := SetAnswer(x);
            && (r.Ok? <==> x.Body? || x.BadBody?)
            && (r.Err? ==> Reports(x, r.error) && Files(cs, entries, Set(p, x, removes)) == entries)
            && (r.Ok? ==> Files(cs, entries, Set(p, x, removes)) ==
                          if removes then entries - {PathOf(cs, p)} else entries)
  {
  }

  /**
   A get returns the body of a good answer, and stores it; with no answer it
   returns what the cache loads; and any other ending is reported as it is.
   */
  lemma GetExactly(cs: CacheStore, entries: Entries, p: Short, x: Exchange, now: U64, nonce: Nonce, stores: bool)
    ensures var r, files := GetAnswer(cs, entries, p, x, now), Files(cs, entries, Get(p, x, now, nonce, stores));
            if x.Body? && x.size <= 1048576 && ValidKeys(x.raw) then
              && r == Ok(x.raw)
              && files == if stores then entries[PathOf(cs, p) := Parsed(Seal(cs, p, x.raw, now, nonce))] else entries
            else if x.NoAnswer? then
              && files == entries
              && r == match Load(cs, entries, p, now)
                      case Ok(m) => Ok(m)
                      case Err(c) => Err(OfflineCacheUnavailable(c))
            else r.Err? && Reports(x, r.error) && files == entries
  {
  }

  // ---- runs of one client ----

  /** The cache files after a run that found `start` there. */
  function RunFiles(cs: CacheStore, start: Entries, ops: seq<Op>): Entries
    decreases |ops|
  {
    if ops == [] then start else Files(cs, RunFiles(cs, start, ops[..|ops| - 1]), ops[|ops| - 1])
  }

  predicate Caches(op: Op, p: Bytes) {
    op.Get? && op.project == p && op.stores && Fetch(op.x).Ok?
  }

  predicate Forgets(op: Op, p: Bytes) {
    op.Set? && op.project == p && op.removes && Succeeds(op.x)
  }

  /** What a run has done to a project's file: nothing, dropped it, or stored a fetch in it. */
  datatype Memory = AsFound | Dropped | Stored(secrets: SecretMap, at: U64)

  /** The last fetch of a project that was stored, unless a set has dropped it since. */
  function Remembered(ops: seq<Op>, p: Bytes): Memory
    decreases |ops|
  {
    if ops == [] then AsFound else
      var op := ops[|ops| - 1];
      if Caches(op, p) then Stored(Fetch(op.x).value, op.now)
      else if Forgets(op, p) then Dropped
      else Remembered(ops[..|ops| - 1], p)
  }

  /** The file is what the memory says. */
  ghost predicate Matches(cs: CacheStore, start: Entries, entries: Entries, p: Short, r: Memory) {
    var path := PathOf(cs, p);
    match r
    case AsFound => (path in entries <==> path in start) && (path in start ==> entries[path] == start[path])
    case Dropped => path !in entries
    case Stored(m, t) =>
      path in entries && ValidKeys(m) && exists nonce: Nonce :: entries[path] == Parsed(Seal(cs, p, m, t, nonce))
  }

  lemma FileStep(cs: CacheStore, start: Entries, entries: Entries, op: Op, p: Short, r: Memory)
    requires 0 !in cs.url && Matches(cs, start, entries, p, r)
    ensures Matches(cs, start, Files(cs, entries, op), p,
                    if Caches(op, p) then Stored(Fetch(op.x).value, op.now)
                    else if Forgets(op, p) then Dropped else r)
  {
    if op.project != p { PathsApart(cs, p, cs, op.project); }
    if Caches(op, p) {
      assert Files(cs, entries, op)[PathOf(cs, p)] == Parsed(Seal(cs, p, Fetch(op.x).value, op.now, op.nonce));
    }
  }

  lemma {:induction false} FileRemembers(cs: CacheStore, start: Entries, ops: seq<Op>, p: Short)
    requires 0 !in cs.url
    ensures Matches(cs, start, RunFiles(cs, start, ops), p, Remembered(ops, p))
    decreases |ops|
  {
    if ops != [] {
      var init := ops[..|ops| - 1];
      FileRemembers(cs, start, init, p);
      FileStep(cs, start, RunFiles(cs, start, init), ops[|ops| - 1], p, Remembered(init, p));
    }
  }

  /** A load looks at one file only. */
  lemma LoadsOneFile(cs: CacheStore, a: Entries, b: Entries, p: Short, now: U64)
    requires var path := PathOf(cs, p); (path in a <==> path in b) && (path in a ==> a[path] == b[path])
    ensures Load(cs, a, p, now) == Load(cs, b, p, now)
  {
  }

  /**
   What an offline get answers after any run, whatever the cache held before it.
   If the project's last stored fetch was dropped by a later set it fails; if it
   was not, the fetch is returned exactly while its time window lasts; and if the
   run did neither, the answer is the one the cache gave before the run. In
   particular, after a set whose removal worked, every offline get fails until
   the next fetch is stored.
   */
  lemma OfflineGet(cs: CacheStore, start: Entries, ops: seq<Op>, p: Short, now: U64)
    requires 0 !in cs.url
    ensures var answer := GetAnswer(cs, RunFiles(cs, start, ops), p, NoAnswer, now);
            match Remembered(ops, p)
            case AsFound => answer == GetAnswer(cs, start, p, NoAnswer, now)
            case Dropped => answer == Err(OfflineCacheUnavailable(ReadFailed))
            case Stored(m, t) =>
              if InWindow(t, now) then answer == Ok(m)
              else answer.Err? && answer.error.OfflineCacheUnavailable?
  {
    FileRemembers(cs, start, ops, p);
    var entries := RunFiles(cs, start, ops);
    match Remembered(ops, p)
    case AsFound => LoadsOneFile(cs, entries, start, p, now);
    case Dropped =>
    case Stored(m, t) =>
      var nonce: Nonce :| entries[PathOf(cs, p)] == Parsed(Seal(cs, p, m, t, nonce));
      StoreThenLoad(cs, entries, p, m, t, nonce, now);
      assert entries[PathOf(cs, p) := Parsed(Seal(cs, p, m, t, nonce))] == entries;
  }
}
