/**
 The offline cache across processes: clients that open the same directory one
 after another or side by side, and what two of them creating its key at once
 changes.
 */
module CacheSharing {
  import opened Prelude
  import opened Aead
  import opened Encoding
  import opened Cache
  import opened ClientApi

  /** A client opens the directory with nobody in between; `drawn` is used if there is no key yet. */
  function Opened(d: Dir, c: nat, url: Short, tokenHash: Hash32, drawn: Hash32): Dir {
    Next(Next(Next(d, Open(c, url, tokenHash)), CheckKey(c, drawn)), FinishKey(c))
  }

  /** The directory has its key, nobody is creating another, and everybody who is ready has that one. */
  ghost predicate Agreed(d: Dir, raw: Hash32) {
    && d.keyFile == Some(raw)
    && forall c :: c in d.clients ==>
         match d.clients[c]
         case Opening(url, _) => 0 !in url
         case ReadingKey(url, _) => 0 !in url
         case CreatingKey(_, _, _) => false
         case Ready(cs) => cs.key == Random(raw) && 0 !in cs.url
  }

  /** The first to open an unused directory creates its key and is ready with it. */
  lemma FirstCreates(d: Dir, c: nat, url: Short, tokenHash: Hash32, raw: Hash32)
    requires d.keyFile.None? && d.clients == map[] && 0 !in url
    ensures Opened(d, c, url, tokenHash, raw) ==
            d.(keyFile := Some(raw), clients := map[c := Ready(CacheStore(Random(raw), url, tokenHash))])
    ensures Agreed(Opened(d, c, url, tokenHash, raw), raw)
  {
  }

  /** Whoever opens it later reads the key that is there, whoever wrote it. */
  lemma LaterReads(d: Dir, c: nat, url: Short, tokenHash: Hash32, raw: Hash32, drawn: Hash32)
    requires d.keyFile == Some(raw) && c !in d.clients
    ensures Opened(d, c, url, tokenHash, drawn) ==
            d.(clients := d.clients[c := Ready(CacheStore(Random(raw), url, tokenHash))])
  {
  }

  // ---- runs ----

  /** Clients of the program only, with server URLs that have no NUL octet. */
  predicate Insider(e: Event) {
    match e
    case Open(_, url, _) => 0 !in url
    case Plant(_, _) => false
    case Unlink(_) => false
    case SetKeyFile(_) => false
    case _ => true
  }

  predicate Insiders(events: seq<Event>) {
    forall i :: 0 <= i < |events| ==> Insider(events[i])
  }

  lemma AgreedStep(d: Dir, e: Event, raw: Hash32)
    requires Agreed(d, raw) && Insider(e)
    ensures Agreed(Next(d, e), raw)
  {
  }

  lemma {:induction false} AgreedAlong(d: Dir, events: seq<Event>, raw: Hash32)
    requires Agreed(d, raw) && Insiders(events)
    ensures Agreed(Cache.Run(d, events), raw)
    decreases |events|
  {
    if events != [] {
      AgreedAlong(d, events[..|events| - 1], raw);
      AgreedStep(Cache.Run(d, events[..|events| - 1]), events[|events| - 1], raw);
    }
  }

  predicate ReadyFor(d: Dir, c: nat, url: Bytes, tokenHash: Bytes) {
    c in d.clients && d.clients[c].Ready? && d.clients[c].store.url == url && d.clients[c].store.tokenHash == tokenHash
  }

  /** What an event does to the cached copy of one server's, token's and project's secrets. */
  function Effect(d: Dir, e: Event, url: Bytes, tokenHash: Bytes, p: Bytes): Memory {
    match e
    case Store(c, project, secrets, now, _) =>
      if ReadyFor(d, c, url, tokenHash) && project == p then Stored(secrets, now) else AsFound
    case Remove(c, project) => if ReadyFor(d, c, url, tokenHash) && project == p then Dropped else AsFound
    case _ => AsFound
  }

  /** The last store or removal of it by any client of the run. */
  function Last(d: Dir, events: seq<Event>, url: Bytes, tokenHash: Bytes, p: Bytes): Memory
    decreases |events|
  {
    if events == [] then AsFound else
      var init := events[..|events| - 1];
      var effect := Effect(Cache.Run(d, init), events[|events| - 1], url, tokenHash, p);
      if effect.AsFound? then Last(d, init, url, tokenHash, p) else effect
  }

  ghost predicate Holds(cs: CacheStore, start: Entries, entries: Entries, p: Short, r: Memory) {
    var path := PathOf(cs, p);
    match r
    case AsFound => (path in entries <==> path in start) && (path in start ==> entries[path] == start[path])
    case Dropped => path !in entries
    case Stored(m, t) => path in entries && exists nonce: Nonce :: entries[path] == Parsed(Seal(cs, p, m, t, nonce))
  }

  lemma EffectHolds(start: Entries, d: Dir, e: Event, raw: Hash32, cs: CacheStore, p: Short, r: Memory)
    requires Agreed(d, raw) && Insider(e) && 0 !in cs.url && cs.key == Random(raw)
    requires Holds(cs, start, d.entries, p, r)
    ensures var effect := Effect(d, e, cs.url, cs.tokenHash, p);
            Holds(cs, start, Next(d, e).entries, p, if effect.AsFound? then r else effect)
  {
    if (e.Store? || e.Remove?) && e.c in d.clients && d.clients[e.c].Ready? {
      var other := d.clients[e.c].store;
      if ReadyFor(d, e.c, cs.url, cs.tokenHash) && e.project == p {
        assert other == cs;
        if e.Store? {
          assert Next(d, e).entries[PathOf(cs, p)] == Parsed(Seal(cs, p, e.secrets, e.now, e.nonce));
        }
      } else {
        PathsApart(cs, p, other, e.project);
      }
    }
  }

  lemma {:induction false} LastHolds(d: Dir, events: seq<Event>, raw: Hash32, cs: CacheStore, p: Short)
    requires Agreed(d, raw) && Insiders(events) && 0 !in cs.url && cs.key == Random(raw)
    ensures Holds(cs, d.entries, Cache.Run(d, events).entries, p, Last(d, events, cs.url, cs.tokenHash, p))
    decreases |events|
  {
    if events != [] {
      var init := events[..|events| - 1];
      AgreedAlong(d, init, raw);
      LastHolds(d, init, raw, cs, p);
      EffectHolds(d.entries, Cache.Run(d, init), events[|events| - 1], raw, cs, p,
                  Last(d, init, cs.url, cs.tokenHash, p));
    }
  }

  /**
   One cache for all: once the key is agreed, in every run of clients opening,
   storing, removing and ending in any order, whoever is ready for the same server
   and token has the same store, and its load of a project answers the last map
   any of them stored, exactly while its window lasts and unless one of them
   removed it since.
   */
  lemma SharedByAll(d: Dir, events: seq<Event>, raw: Hash32, url: Short, tokenHash: Hash32, p: Short, now: U64)
    requires Agreed(d, raw) && Insiders(events) && 0 !in url
    ensures var d', cs := Cache.Run(d, events), CacheStore(Random(raw), url, tokenHash);
            && (forall c :: ReadyFor(d', c, url, tokenHash) ==> d'.clients[c] == Ready(cs))
            && var r := Load(cs, d'.entries, p, now);
               match Last(d, events, url, tokenHash, p)
               case AsFound => r == Load(cs, d.entries, p, now)
               case Dropped => r == Err(ReadFailed)
               case Stored(m, t) => if InWindow(t, now) && ValidKeys(m) then r == Ok(m) else r.Err?
  {
    var d', cs := Cache.Run(d, events), CacheStore(Random(raw), url, tokenHash);
    AgreedAlong(d, events, raw);
    LastHolds(d, events, raw, cs, p);
    match Last(d, events, url, tokenHash, p)
    case AsFound => LoadsOneFile(cs, d'.entries, d.entries, p, now);
    case Dropped =>
    case Stored(m, t) =>
      var nonce: Nonce :| d'.entries[PathOf(cs, p)] == Parsed(Seal(cs, p, m, t, nonce));
      StoreThenLoad(cs, d'.entries, p, m, t, nonce, now);
      assert d'.entries[PathOf(cs, p) := Parsed(Seal(cs, p, m, t, nonce))] == d'.entries;
  }

  /** From an unused directory: what the first process stored before it ended, the next one loads. */
  lemma NextProcessLoads(d: Dir, c: nat, c': nat, url: Short, tokenHash: Hash32, raw: Hash32, drawn: Hash32,
                         p: Short, secrets: SecretMap, stored: U64, nonce: Nonce, now: U64)
    requires d.keyFile.None? && d.clients == map[] && 0 !in url && ValidKeys(secrets)
    ensures var before := Next(Next(Opened(d, c, url, tokenHash, raw), Store(c, p, secrets, stored, nonce)), Exit(c));
            var after := Opened(before, c', url, tokenHash, drawn);
            && after.clients == map[c' := Ready(CacheStore(Random(raw), url, tokenHash))]
            && var r := Load(after.clients[c'].store, after.entries, p, now);
               if InWindow(stored, now) then r == Ok(secrets) else r.Err?
  {
    var cs := CacheStore(Random(raw), url, tokenHash);
    FirstCreates(d, c, url, tokenHash, raw);
    var before := Next(Next(Opened(d, c, url, tokenHash, raw), Store(c, p, secrets, stored, nonce)), Exit(c));
    assert before.clients == map[];
    LaterReads(before, c', url, tokenHash, raw, drawn);
    StoreThenLoad(cs, d.entries, p, secrets, stored, nonce, now);
  }

  // ---- two creators at once ----

  /** Both find no key and write their own: the later rename stays, and each keeps what it drew. */
  lemma RacingCreators(d: Dir, c: nat, c': nat, url: Short, tokenHash: Hash32, raw: Hash32, raw': Hash32)
    requires d.keyFile.None? && d.clients == map[] && c != c'
    ensures var checked := Next(Next(Next(Next(d, Open(c, url, tokenHash)), Open(c', url, tokenHash)),
                                     CheckKey(c, raw)), CheckKey(c', raw'));
            var d' := Next(Next(checked, FinishKey(c)), FinishKey(c'));
            && d'.keyFile == Some(raw')
            && d'.clients == map[c := Ready(CacheStore(Random(raw), url, tokenHash)),
                                 c' := Ready(CacheStore(Random(raw'), url, tokenHash))]
  {
  }

  /**
   Stores of one server and token with different keys share the file but not its
   contents: what one wrote the other loads if and only if their keys are equal.
   */
  lemma LoadAcrossKeys(cs: CacheStore, other: Key, entries: Entries, p: Short, secrets: SecretMap,
                       stored: U64, nonce: Nonce, now: U64)
    requires InWindow(stored, now) && ValidKeys(secrets)
    ensures var entries' := entries[PathOf(cs, p) := Parsed(Seal(cs, p, secrets, stored, nonce))];
            Load(cs.(key := other), entries', p, now) ==
            if other == cs.key then Ok(secrets) else Err(DecryptFailed)
  {
    assert PathOf(cs.(key := other), p) == PathOf(cs, p);
  }
}
