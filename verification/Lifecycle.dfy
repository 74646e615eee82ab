/**
 The whole system over time: server, rotation and token commands as processes
 sharing a database, an exclusive lock file and SQLite's writer lock, advanced
 one database statement at a time in any order, and killed at any point.
 */
module Lifecycle {
  import opened Prelude
  import opened Aead
  import opened Repo
  import opened CryptoState
  import opened Protocol
  import opened History
  import Handlers

  /** An open transaction: what it read when it began, and its own uncommitted copy. */
  datatype Tx = Tx(snapshot: Db, work: Db)

  datatype Proc =
    // `serve` and `rekey` before they hold the lock file
    | ServeStarting(passphrase: Bytes)
    | RekeyStarting(current: Bytes, next: Bytes)
    // reading metadata, entry by entry
    | ServeReading(passphrase: Bytes, got: Meta, n: nat)
    | RekeyReading(current: Bytes, next: Bytes, got: Meta, n: nat)
    // first start on an uninitialised database
    | ServeFresh(passphrase: Bytes)
    // rotation: old key verified, then rows sealed one by one
    | RekeyVerified(oldKey: Key, next: Bytes)
    | RekeySealing(oldKey: Key, newKey: Key, tx: Tx, rows: seq<JoinedRow>, i: nat)
    // writing metadata entry by entry, at the end of initialisation or rotation
    | Storing(key: Key, plan: Meta, tx: Tx, n: nat, serve: bool)
    // answering requests; `admitted` holds authenticated requests awaiting their locked section
    | Serving(key: Key, admitted: map<nat, Identity>)

  datatype World = World(
    db: Db,
    lock: Option<nat>,        // holder of the lock file
    writer: Option<nat>,      // holder of SQLite's write lock
    procs: map<nat, Proc>,
    clock: int,
    log: seq<Entry>)

  const INITIAL := World(EMPTY_DB, None, None, map[], 0, [])

  datatype Event =
    | StartServe(p: nat, passphrase: Bytes)
    | StartRekey(p: nat, current: Bytes, next: Bytes)
    | Advance(p: nat, salt: Bytes, nonce: Nonce)
    | Crash(p: nat)
    | Admit(p: nat, rid: nat, hash: Digest)
    | Act(p: nat, rid: nat, req: Request, nonce: Nonce, token: Bytes)
    | Cli(step: Step)
    | SetClock(now: int)

  predicate Starting(proc: Proc) {
    proc.ServeStarting? || proc.RekeyStarting?
  }

  // ---- one step of one process ----

  /** Database, whether the process now holds the write lock, and its next state (`None`: it exits). */
  datatype Outcome = Outcome(db: Db, writing: bool, proc: Option<Proc>)

  function Prefix(meta: Meta, n: nat): Meta
    requires n <= |META_ORDER|
  {
    map k | k in META_ORDER[..n] && k in meta :: meta[k]
  }

  /** A transaction may write when it holds the write lock, or nobody does and its snapshot is current. */
  predicate MayWrite(db: Db, writing: bool, busy: bool, tx: Tx) {
    writing || (!busy && tx.snapshot == db)
  }

  /** The next statement of a process that holds the lock file. `busy`: another process is writing. */
  function ProcStep(db: Db, writing: bool, busy: bool, proc: Proc, salt: Bytes, nonce: Nonce): Outcome
    requires !Starting(proc)
  {
    var exit := Outcome(db, false, None);
    match proc
    case ServeReading(pass, got, n) =>
      if n < |META_ORDER| then
        var k := META_ORDER[n];
        if k in db.meta then Outcome(db, false, Some(ServeReading(pass, got[k := db.meta[k]], n + 1)))
        else if n == 0 then Outcome(db, false, Some(ServeFresh(pass)))
        else exit
      else (match VerifyStored(got, pass)
            case Err(_) => exit
            case Ok(key) => Outcome(db, false, Some(Serving(key, map[]))))
    case RekeyReading(current, next, got, n) =>
      if current == next then exit
      else if n < |META_ORDER| then
        var k := META_ORDER[n];
        if k in db.meta then Outcome(db, false, Some(RekeyReading(current, next, got[k := db.meta[k]], n + 1)))
        else exit
      else (match VerifyStored(got, current)
            case Err(_) => exit
            case Ok(key) => Outcome(db, false, Some(RekeyVerified(key, next))))
    case ServeFresh(pass) =>
      (match DeriveKey(pass, salt, STRONG)
       case None => exit
       case Some(key) =>
         if busy then exit
         else Outcome(db, true, Some(Storing(key, Plan(key, nonce), Tx(db, db), 0, true))))
    case RekeyVerified(oldKey, next) =>
      (match DeriveKey(next, salt, STRONG)
       case None => exit
       case Some(newKey) =>
         Outcome(db, false, Some(RekeySealing(oldKey, newKey, Tx(db, db), Join(db.secrets, db.projects), 0))))
    case RekeySealing(oldKey, newKey, tx, rows, i) =>
      if i < |rows| then
        if !MayWrite(db, writing, busy, tx) then exit else
          (match RekeyRow(tx.work.secrets, rows[i], oldKey, newKey, nonce)
           case None => exit
           case Some(ss) =>
             Outcome(db, true, Some(RekeySealing(oldKey, newKey, tx.(work := tx.work.(secrets := ss)), rows, i + 1))))
      else if newKey.Derived? then
        Outcome(db, writing, Some(Storing(newKey, Plan(newKey, nonce), tx, 0, false)))
      else exit
    case Storing(key, plan, tx, n, serve) =>
      if n < |META_ORDER| then
        if !MayWrite(db, writing, busy, tx) || META_ORDER[n] !in plan then exit else
          var meta := tx.work.meta[META_ORDER[n] := plan[META_ORDER[n]]];
          Outcome(db, true, Some(Storing(key, plan, tx.(work := tx.work.(meta := meta)), n + 1, serve)))
      else Outcome(tx.work, false, if serve then Some(Serving(key, map[])) else None)
    case Serving(_, _) => Outcome(db, writing, Some(proc))
  }

  // ---- events ----

  /** A process ends, however it ends: the operating system drops its locks, SQLite its transaction. */
  function Exit(w: World, p: nat): World {
    w.(procs := w.procs - {p},
       lock := if w.lock == Some(p) then None else w.lock,
       writer := if w.writer == Some(p) then None else w.writer)
  }

  /** `lock::acquire`: succeed at once or fail. */
  function Acquire(w: World, p: nat): World
    requires p in w.procs && Starting(w.procs[p])
  {
    if w.lock.Some? then Exit(w, p) else
      var proc := match w.procs[p]
                  case ServeStarting(pass) => ServeReading(pass, map[], 0)
                  case RekeyStarting(current, next) => RekeyReading(current, next, map[], 0);
      w.(lock := Some(p), procs := w.procs[p := proc])
  }

  function Advanced(w: World, p: nat, salt: Bytes, nonce: Nonce): World
    requires p in w.procs && !Starting(w.procs[p])
  {
    var busy := w.writer.Some? && w.writer != Some(p);
    var o := ProcStep(w.db, w.writer == Some(p), busy, w.procs[p], salt, nonce);
    match o.proc
    case None => Exit(w.(db := o.db), p)
    case Some(proc) =>
      w.(db := o.db, procs := w.procs[p := proc], writer := if o.writing then Some(p) else if busy then w.writer else None)
  }

  function Next(w: World, e: Event): World {
    match e
    case StartServe(p, pass) =>
      if p in w.procs then w else w.(procs := w.procs[p := ServeStarting(pass)])
    case StartRekey(p, current, next) =>
      if p in w.procs then w else w.(procs := w.procs[p := RekeyStarting(current, next)])
    case Advance(p, salt, nonce) =>
      if p !in w.procs then w
      else if Starting(w.procs[p]) then Acquire(w, p)
      else Advanced(w, p, salt, nonce)
    case Crash(p) => Exit(w, p)
    case Admit(p, rid, hash) =>
      if p in w.procs && w.procs[p].Serving? then
        match Authenticate(w.db.tokens, hash, w.clock)
        case None => w
        case Some(who) =>
          w.(procs := w.procs[p := w.procs[p].(admitted := w.procs[p].admitted[rid := who])])
      else w
    case Act(p, rid, req, nonce, token) =>
      if p in w.procs && w.procs[p].Serving? && rid in w.procs[p].admitted && w.writer.None? then
        var proc := w.procs[p];
        var step := Http(proc.admitted[rid], req, Env(w.clock, nonce, token));
        var (db, r) := Handlers.Handle(w.db, proc.key, step.who, req, step.env);
        w.(db := db,
           procs := w.procs[p := proc.(admitted := proc.admitted - {rid})],
           log := w.log + [Entry(step, r)])
      else w
    case Cli(step) =>
      if w.writer.Some? then w else
        (match step
         case Http(_, _, _) => w
         case CliCreate(name, project, ttlDays, now, token) =>
           var (ts, r) := Protocol.CliCreate(w.db.tokens, name, project, ttlDays, now, token);
           w.(db := w.db.(tokens := ts), log := w.log + [Entry(step, r)])
         case CliRevoke(name) =>
           var (ts, r) := Protocol.CliRevoke(w.db.tokens, name);
           w.(db := w.db.(tokens := ts), log := w.log + [Entry(step, r)]))
    case SetClock(now) => w.(clock := now)
  }

  function Run(w: World, events: seq<Event>): World
    decreases |events|
  {
    if events == [] then w else Next(Run(w, events[..|events| - 1]), events[|events| - 1])
  }
}
