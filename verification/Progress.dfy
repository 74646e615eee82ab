/**
 What undisturbed commands achieve: a start decides by the passphrase, a first
 start initialises, a rotation with the right passphrases runs to its commit.
 */
module Progress {
  import opened Prelude
  import opened Aead
  import opened Repo
  import opened CryptoState
  import opened Lifecycle
  import opened KeyAgreement
  import opened Reachability
  import opened Refinement
  import Encoding
  import KeyCommands

  type Nonces = nat -> Nonce

  // ---- iteration ----

  /** `n` applications of `f`, each with a nonce of its own. */
  function Iterate<S>(f: (S, Nonce) -> S, s: S, n: nat, nonces: Nonces): S {
    if n == 0 then s else f(Iterate(f, s, n - 1, nonces), nonces(n))
  }

  function Shift(nonces: Nonces, m: nat): Nonces {
    (k: nat) => nonces(m + k)
  }

  lemma {:induction false} Compose<S>(f: (S, Nonce) -> S, s: S, m: nat, n: nat, nonces: Nonces)
    ensures Iterate(f, s, m + n, nonces) == Iterate(f, Iterate(f, s, m, nonces), n, Shift(nonces, m))
  {
    if n > 0 {
      Compose(f, s, m, n - 1, nonces);
    }
  }

  lemma {:induction false} Fixed<S>(f: (S, Nonce) -> S, s: S, n: nat, nonces: Nonces)
    requires forall nonce :: f(s, nonce) == s
    ensures Iterate(f, s, n, nonces) == s
  {
    if n > 0 {
      Fixed(f, s, n - 1, nonces);
    }
  }

  /** What every one of `bound` steps carries forward holds after each of them. */
  lemma {:induction false} Carried<S(!new)>(
    f: (S, Nonce) -> S, s: S, n: nat, bound: nat, holds: (S, nat) -> bool, nonces: Nonces)
    requires n <= bound && holds(s, 0)
    requires forall x, j: nat, nonce :: j < bound && holds(x, j) ==> holds(f(x, nonce), j + 1)
    ensures holds(Iterate(f, s, n, nonces), n)
  {
    if n > 0 {
      Carried(f, s, n - 1, bound, holds, nonces);
    }
  }

  /** Step by step simulation is simulation of whole runs. */
  lemma {:induction false} Simulates<S(!new), T>(
    f: (S, Nonce) -> S, g: (T, Nonce) -> T, h: S -> T, inv: S -> bool, s: S, n: nat, nonces: Nonces)
    requires inv(s)
    requires forall x, nonce :: inv(x) ==> inv(f(x, nonce)) && g(h(x), nonce) == h(f(x, nonce))
    ensures inv(Iterate(f, s, n, nonces))
    ensures Iterate(g, h(s), n, nonces) == h(Iterate(f, s, n, nonces))
  {
    if n > 0 {
      Simulates(f, g, h, inv, s, n - 1, nonces);
    }
  }

  // ---- a process by itself ----

  predicate Past(o: Outcome) {
    o.proc.Some? ==> !Starting(o.proc.value)
  }

  /** The next statement of a process nobody disturbs. */
  function Local(o: Outcome, salt: Bytes, nonce: Nonce): (r: Outcome)
    ensures Past(o) ==> Past(r)
  {
    if o.proc.None? || Starting(o.proc.value) then o
    else ProcStep(o.db, o.writing, false, o.proc.value, salt, nonce)
  }

  function Turn(salt: Bytes): (Outcome, Nonce) -> Outcome {
    (o: Outcome, nonce: Nonce) => Local(o, salt, nonce)
  }

  /** `n` statements. */
  function Locals(o: Outcome, n: nat, salt: Bytes, nonces: Nonces): Outcome {
    Iterate(Turn(salt), o, n, nonces)
  }

  lemma LocalsNext(o: Outcome, n: nat, salt: Bytes, nonces: Nonces)
    ensures Locals(o, n + 1, salt, nonces) == Local(Locals(o, n, salt, nonces), salt, nonces(n + 1))
  {
  }

  /** A process that has ended stays so. */
  lemma Gone(o: Outcome, m: nat, n: nat, salt: Bytes, nonces: Nonces)
    requires Locals(o, m, salt, nonces).proc.None?
    ensures Locals(o, m + n, salt, nonces) == Locals(o, m, salt, nonces)
  {
    Compose(Turn(salt), o, m, n, nonces);
    Fixed(Turn(salt), Locals(o, m, salt, nonces), n, Shift(nonces, m));
  }

  /** The process runs on the database it found, and knows what its stage should. */
  ghost predicate LocalOk(db: Db, o: Outcome) {
    DbOk(db) && o.db == db && o.proc.Some? && !Starting(o.proc.value) && ActiveOk(db, o.writing, o.proc.value)
  }

  lemma LocalStep(db: Db, o: Outcome, salt: Bytes, nonce: Nonce)
    requires LocalOk(db, o) && Local(o, salt, nonce).db == db && Local(o, salt, nonce).proc.Some?
    ensures LocalOk(db, Local(o, salt, nonce))
  {
    AnyStep(db, o.writing, o.proc.value, salt, nonce, false);
  }

  // ---- reading the metadata ----

  /** Every entry of an initialised database's metadata is there to read. */
  lemma EntryPresent(db: Db, n: nat)
    requires DbOk(db) && !Blank(db) && n < |META_ORDER|
    ensures META_ORDER[n] in db.meta
  {
    KeyCommands.PlanHas(db.meta[VerifierCt].key, db.meta[VerifierNonce].bytes, META_ORDER[n]);
  }

  function ServeAt(db: Db, pass: Bytes): Outcome {
    Outcome(db, false, Some(ServeReading(pass, map[], 0)))
  }

  function RekeyAt(db: Db, current: Bytes, next: Bytes): Outcome {
    Outcome(db, false, Some(RekeyReading(current, next, map[], 0)))
  }

  lemma ReadingStarts(db: Db, proc: Proc)
    requires DbOk(db) && (proc.ServeReading? || proc.RekeyReading?) && proc.got == map[] && proc.n == 0
    ensures LocalOk(db, Outcome(db, false, Some(proc)))
  {
    assert Prefix(db.meta, 0) == map[];
  }

  ghost predicate AtRead(db: Db, o: Outcome, first: Proc, n: nat) {
    && LocalOk(db, o) && !o.writing
    && match first
       case ServeReading(pass, _, _) =>
         o.proc.value.ServeReading? && o.proc.value.passphrase == pass && o.proc.value.n == n
       case RekeyReading(current, next, _, _) =>
         o.proc.value.RekeyReading? && o.proc.value.current == current && o.proc.value.next == next
         && o.proc.value.n == n
       case _ => false
  }

  lemma ReadStep(db: Db, o: Outcome, first: Proc, n: nat, salt: Bytes, nonce: Nonce)
    requires AtRead(db, o, first, n) && n < |META_ORDER| && !Blank(db)
    requires first.RekeyReading? ==> first.current != first.next
    ensures AtRead(db, Local(o, salt, nonce), first, n + 1)
  {
    EntryPresent(db, n);
    LocalStep(db, o, salt, nonce);
  }

  /** The six reads of an initialised database's metadata. */
  lemma Reads(db: Db, first: Proc, salt: Bytes, nonces: Nonces)
    requires DbOk(db) && !Blank(db)
    requires (first.ServeReading? || first.RekeyReading?) && first.got == map[] && first.n == 0
    requires first.RekeyReading? ==> first.current != first.next
    ensures AtRead(db, Locals(Outcome(db, false, Some(first)), 6, salt, nonces), first, 6)
  {
    var o := Outcome(db, false, Some(first));
    ReadingStarts(db, first);
    forall x, j: nat, nonce | j < 6 && AtRead(db, x, first, j)
      ensures AtRead(db, Local(x, salt, nonce), first, j + 1)
    {
      ReadStep(db, x, first, j, salt, nonce);
    }
    Carried(Turn(salt), o, 6, 6, (x: Outcome, j: nat) => AtRead(db, x, first, j), nonces);
  }

  /** The six reads and the verification of a start. */
  lemma ServeOutcome(db: Db, key: Key, pass: Bytes, salt: Bytes, nonces: Nonces)
    requires Consistent(db, key)
    ensures Locals(ServeAt(db, pass), 7, salt, nonces) ==
            Outcome(db, false, if pass == key.passphrase then Some(Serving(key, map[])) else None)
  {
    ConsistentIsOk(db, key);
    Reads(db, ServeReading(pass, map[], 0), salt, nonces);
    var o := Locals(ServeAt(db, pass), 6, salt, nonces);
    PrefixFull(db.meta);
    VerifyExactly(db.meta, key, pass);
    ServeVerifyResult(db, o.proc.value, salt, nonces(7), false);
    LocalsNext(ServeAt(db, pass), 6, salt, nonces);
  }

  /** The verification at the end of a rotation's reads. */
  lemma RekeyVerifyStep(db: Db, o: Outcome, key: Key, current: Bytes, next: Bytes, salt: Bytes, nonce: Nonce)
    requires Consistent(db, key) && current != next
    requires AtRead(db, o, RekeyReading(current, next, map[], 0), 6)
    ensures Local(o, salt, nonce) ==
            Outcome(db, false, if current == key.passphrase then Some(RekeyVerified(key, next)) else None)
  {
    PrefixFull(db.meta);
    VerifyExactly(db.meta, key, current);
    RekeyVerifyResult(db, o.proc.value, salt, nonce, false);
  }

  /** The six reads and the verification of a rotation. */
  lemma RekeyVerifies(db: Db, key: Key, current: Bytes, next: Bytes, salt: Bytes, nonces: Nonces)
    requires Consistent(db, key)
    ensures Locals(RekeyAt(db, current, next), 7, salt, nonces) ==
            Outcome(db, false, if current == key.passphrase && next != current
                               then Some(RekeyVerified(key, next)) else None)
  {
    var o := RekeyAt(db, current, next);
    if next == current {
      LocalsNext(o, 0, salt, nonces);
      Gone(o, 1, 6, salt, nonces);
    } else {
      ConsistentIsOk(db, key);
      Reads(db, RekeyReading(current, next, map[], 0), salt, nonces);
      RekeyVerifyStep(db, Locals(o, 6, salt, nonces), key, current, next, salt, nonces(7));
      LocalsNext(o, 6, salt, nonces);
    }
  }

  // ---- writing ----

  ghost predicate AtStore(db: Db, o: Outcome, key: Key, serve: bool, n: nat) {
    && LocalOk(db, o) && o.proc.value.Storing? && o.proc.value.tx.snapshot == db
    && o.proc.value.key == key && o.proc.value.serve == serve && o.proc.value.n == n
  }

  lemma StoreStep(db: Db, o: Outcome, key: Key, serve: bool, n: nat, salt: Bytes, nonce: Nonce)
    requires AtStore(db, o, key, serve, n) && n < |META_ORDER|
    ensures AtStore(db, Local(o, salt, nonce), key, serve, n + 1)
  {
    var Storing(_, plan, tx, _, _) := o.proc.value;
    KeyCommands.PlanHas(key, plan[VerifierNonce].bytes, META_ORDER[n]);
    StoreResult(db, o.writing, key, plan, tx, n, serve, salt, nonce, false);
    LocalStep(db, o, salt, nonce);
  }

  /** The commit replaces the database by the transaction's own copy, consistent under the new key. */
  lemma Commits(db: Db, o: Outcome, key: Key, serve: bool, salt: Bytes, nonce: Nonce)
    requires AtStore(db, o, key, serve, |META_ORDER|)
    ensures var r := Local(o, salt, nonce);
            && Consistent(r.db, key) && Abs(r.db) == Abs(db) && !r.writing
            && r.proc == if serve then Some(Serving(key, map[])) else None
  {
    var Storing(_, plan, tx, _, _) := o.proc.value;
    StoreDone(db, o.writing, key, plan, tx, serve);
  }

  ghost predicate AtSeal(db: Db, o: Outcome, newKey: Key, i: nat) {
    && LocalOk(db, o) && o.proc.value.RekeySealing? && o.proc.value.tx.snapshot == db
    && o.proc.value.newKey == newKey && o.proc.value.i == i && |o.proc.value.rows| == |db.secrets|
  }

  lemma SealStep(db: Db, o: Outcome, newKey: Key, i: nat, salt: Bytes, nonce: Nonce)
    requires AtSeal(db, o, newKey, i) && i < |db.secrets|
    ensures AtSeal(db, Local(o, salt, nonce), newKey, i + 1)
  {
    var RekeySealing(oldKey, _, tx, rows, _) := o.proc.value;
    SealOne(db, o.writing, oldKey, newKey, tx, rows, i, nonce);
    SealResult(db, o.writing, oldKey, newKey, tx, rows, i, salt, nonce, false);
    LocalStep(db, o, salt, nonce);
  }

  /** Once every row is sealed the metadata follows. */
  lemma SealEnd(db: Db, o: Outcome, newKey: Key, salt: Bytes, nonce: Nonce)
    requires AtSeal(db, o, newKey, |db.secrets|)
    ensures AtStore(db, Local(o, salt, nonce), newKey, false, 0)
  {
    LocalStep(db, o, salt, nonce);
  }

  /** The writes of a rotation, `rows` of them before the metadata, or of a first start. */
  ghost predicate AtWrite(db: Db, o: Outcome, key: Key, serve: bool, j: nat) {
    if serve then AtStore(db, o, key, true, j)
    else if j <= |db.secrets| then AtSeal(db, o, key, j)
    else AtStore(db, o, key, false, j - |db.secrets| - 1)
  }

  function Writes(db: Db, serve: bool): nat {
    if serve then 6 else |db.secrets| + 7
  }

  lemma WriteStep(db: Db, o: Outcome, key: Key, serve: bool, j: nat, salt: Bytes, nonce: Nonce)
    requires AtWrite(db, o, key, serve, j) && j < Writes(db, serve)
    ensures AtWrite(db, Local(o, salt, nonce), key, serve, j + 1)
  {
    if serve { StoreStep(db, o, key, true, j, salt, nonce); }
    else if j < |db.secrets| { SealStep(db, o, key, j, salt, nonce); }
    else if j == |db.secrets| { SealEnd(db, o, key, salt, nonce); }
    else { StoreStep(db, o, key, false, j - |db.secrets| - 1, salt, nonce); }
  }

  /** Every write and the commit. */
  lemma WritesCommit(db: Db, o: Outcome, key: Key, serve: bool, salt: Bytes, nonces: Nonces)
    requires AtWrite(db, o, key, serve, 0)
    ensures var r := Locals(o, Writes(db, serve) + 1, salt, nonces);
            && Consistent(r.db, key) && Abs(r.db) == Abs(db) && !r.writing
            && r.proc == if serve then Some(Serving(key, map[])) else None
  {
    var n := Writes(db, serve);
    forall x, j: nat, nonce | j < n && AtWrite(db, x, key, serve, j)
      ensures AtWrite(db, Local(x, salt, nonce), key, serve, j + 1)
    {
      WriteStep(db, x, key, serve, j, salt, nonce);
    }
    Carried(Turn(salt), o, n, n, (x: Outcome, j: nat) => AtWrite(db, x, key, serve, j), nonces);
    LocalsNext(o, n, salt, nonces);
    Commits(db, Locals(o, n, salt, nonces), key, serve, salt, nonces(n + 1));
  }

  lemma BeginSealing(db: Db, key: Key, next: Bytes, salt: Bytes, nonce: Nonce)
    requires Consistent(db, key) && next != key.passphrase && |next| < Encoding.TWO_32
    ensures AtSeal(db, Local(Outcome(db, false, Some(RekeyVerified(key, next))), salt, nonce),
                   Derived(next, salt, STRONG), 0)
  {
    ConsistentIsOk(db, key);
    JoinExact(db.secrets, db.projects);
    LocalStep(db, Outcome(db, false, Some(RekeyVerified(key, next))), salt, nonce);
  }

  ghost predicate Rotated(db: Db, r: Outcome, newKey: Key) {
    r.proc.None? && !r.writing && Abs(r.db) == Abs(db) && Consistent(r.db, newKey)
  }

  /** A rotation from its verified passphrase to its commit. */
  lemma VerifiedCommits(db: Db, key: Key, next: Bytes, salt: Bytes, nonce: Nonce, nonces: Nonces)
    requires Consistent(db, key) && next != key.passphrase && |next| < Encoding.TWO_32
    ensures var o := Local(Outcome(db, false, Some(RekeyVerified(key, next))), salt, nonce);
            Rotated(db, Locals(o, |db.secrets| + 8, salt, nonces), Derived(next, salt, STRONG))
  {
    BeginSealing(db, key, next, salt, nonce);
    var o := Local(Outcome(db, false, Some(RekeyVerified(key, next))), salt, nonce);
    WritesCommit(db, o, Derived(next, salt, STRONG), false, salt, nonces);
  }

  lemma RekeyPath(db: Db, key: Key, next: Bytes, n: nat, salt: Bytes, nonces: Nonces)
    requires Consistent(db, key) && next != key.passphrase
    ensures Locals(RekeyAt(db, key.passphrase, next), n + 8, salt, nonces) ==
            Locals(Local(Outcome(db, false, Some(RekeyVerified(key, next))), salt, nonces(8)), n, salt, Shift(nonces, 8))
  {
    var o := RekeyAt(db, key.passphrase, next);
    RekeyVerifies(db, key, key.passphrase, next, salt, nonces);
    LocalsNext(o, 7, salt, nonces);
    Compose(Turn(salt), o, 8, n, nonces);
  }

  /** A rotation that stops short of writing leaves everything as it was. */
  lemma RekeyStops(db: Db, key: Key, current: Bytes, next: Bytes, n: nat, salt: Bytes, nonces: Nonces)
    requires Consistent(db, key)
    requires current != key.passphrase || next == current || |next| >= Encoding.TWO_32
    ensures Locals(RekeyAt(db, current, next), n + 8, salt, nonces) == Outcome(db, false, None)
  {
    var o := RekeyAt(db, current, next);
    RekeyVerifies(db, key, current, next, salt, nonces);
    LocalsNext(o, 7, salt, nonces);
    Gone(o, 8, n, salt, nonces);
  }

  /** A rotation with the right passphrases, by itself. */
  lemma RekeyRuns(db: Db, key: Key, next: Bytes, salt: Bytes, nonces: Nonces)
    requires Consistent(db, key) && next != key.passphrase && |next| < Encoding.TWO_32
    ensures Rotated(db, Locals(RekeyAt(db, key.passphrase, next), |db.secrets| + 16, salt, nonces),
                    Derived(next, salt, STRONG))
  {
    RekeyPath(db, key, next, |db.secrets| + 8, salt, nonces);
    VerifiedCommits(db, key, next, salt, nonces(8), Shift(nonces, 8));
  }

  /** A start on a blank database begins to write at its third statement, or stops. */
  lemma FreshBegins(db: Db, pass: Bytes, salt: Bytes, nonces: Nonces)
    requires DbOk(db) && Blank(db)
    ensures Locals(ServeAt(db, pass), 1, salt, nonces) == Outcome(db, false, Some(ServeFresh(pass)))
    ensures var o := Locals(ServeAt(db, pass), 2, salt, nonces);
            if |pass| < Encoding.TWO_32 then AtStore(db, o, Derived(pass, salt, STRONG), true, 0)
            else o == Outcome(db, false, None)
  {
    var o := ServeAt(db, pass);
    ReadingStarts(db, ServeReading(pass, map[], 0));
    LocalsNext(o, 0, salt, nonces);
    LocalsNext(o, 1, salt, nonces);
    LocalStep(db, o, salt, nonces(1));
    if |pass| < Encoding.TWO_32 {
      LocalStep(db, Locals(o, 1, salt, nonces), salt, nonces(2));
    }
  }

  /** A first start with a derivable key, by itself. */
  lemma FreshRuns(db: Db, pass: Bytes, salt: Bytes, nonces: Nonces)
    requires DbOk(db) && Blank(db) && |pass| < Encoding.TWO_32
    ensures var r, key := Locals(ServeAt(db, pass), 9, salt, nonces), Derived(pass, salt, STRONG);
            && Consistent(r.db, key) && Abs(r.db) == Abs(db) && !r.writing
            && r.proc == Some(Serving(key, map[]))
  {
    var o, key := ServeAt(db, pass), Derived(pass, salt, STRONG);
    FreshBegins(db, pass, salt, nonces);
    Compose(Turn(salt), o, 2, 7, nonces);
    WritesCommit(db, Locals(o, 2, salt, nonces), key, true, salt, Shift(nonces, 2));
  }

  lemma FreshStops(db: Db, pass: Bytes, salt: Bytes, nonces: Nonces)
    requires DbOk(db) && Blank(db) && |pass| >= Encoding.TWO_32
    ensures Locals(ServeAt(db, pass), 9, salt, nonces) == Outcome(db, false, None)
  {
    FreshBegins(db, pass, salt, nonces);
    Gone(ServeAt(db, pass), 2, 7, salt, nonces);
  }

  // ---- in the system ----

  function Turns(p: nat, salt: Bytes): (World, Nonce) -> World {
    (w: World, nonce: Nonce) => Next(w, Advance(p, salt, nonce))
  }

  /** A command started, given its turn at the lock, and then `n` turns more. */
  function Command(w: World, e: Event, n: nat, salt: Bytes, nonces: Nonces): World
    requires e.StartServe? || e.StartRekey?
  {
    Iterate(Turns(e.p, salt), Next(Next(w, e), Advance(e.p, salt, nonces(0))), n, nonces)
  }

  /** A quiet world with one process in it. */
  function Placed(w: World, p: nat, o: Outcome): World {
    if o.proc.None? then w.(db := o.db) else
      w.(db := o.db, lock := Some(p), writer := if o.writing then Some(p) else None,
         procs := w.procs[p := o.proc.value])
  }

  predicate Quiet(w: World, p: nat) {
    w.lock.None? && w.writer.None? && p !in w.procs
  }

  lemma PlacedStep(w: World, p: nat, o: Outcome, salt: Bytes, nonce: Nonce)
    requires Quiet(w, p) && Past(o)
    ensures Next(Placed(w, p, o), Advance(p, salt, nonce)) == Placed(w, p, Local(o, salt, nonce))
  {
    if o.proc.Some? { assert w.procs[p := o.proc.value] - {p} == w.procs; }
  }

  lemma PlacedSteps(w: World, p: nat, o: Outcome, n: nat, salt: Bytes, nonces: Nonces)
    requires Quiet(w, p) && Past(o)
    ensures Iterate(Turns(p, salt), Placed(w, p, o), n, nonces) == Placed(w, p, Locals(o, n, salt, nonces))
  {
    forall x, nonce | Past(x)
      ensures Past(Turn(salt)(x, nonce))
      ensures Turns(p, salt)(Placed(w, p, x), nonce) == Placed(w, p, Turn(salt)(x, nonce))
    {
      PlacedStep(w, p, x, salt, nonce);
    }
    Simulates(Turn(salt), Turns(p, salt), (x: Outcome) => Placed(w, p, x), (x: Outcome) => Past(x), o, n, nonces);
  }

  /** An undisturbed command in the system is the process by itself. */
  lemma CommandIsLocal(w: World, e: Event, n: nat, salt: Bytes, nonces: Nonces)
    requires (e.StartServe? || e.StartRekey?) && Quiet(w, e.p)
    ensures var o := if e.StartServe? then ServeAt(w.db, e.passphrase) else RekeyAt(w.db, e.current, e.next);
            Command(w, e, n, salt, nonces) == Placed(w, e.p, Locals(o, n, salt, nonces))
  {
    var o := if e.StartServe? then ServeAt(w.db, e.passphrase) else RekeyAt(w.db, e.current, e.next);
    var proc := if e.StartServe? then ServeStarting(e.passphrase) else RekeyStarting(e.current, e.next);
    assert w.procs[e.p := proc][e.p := o.proc.value] == w.procs[e.p := o.proc.value];
    assert Next(Next(w, e), Advance(e.p, salt, nonces(0))) == Placed(w, e.p, o);
    PlacedSteps(w, e.p, o, n, salt, nonces);
  }

  lemma FreeLockIsQuiet(events: seq<Event>, p: nat)
    requires Run(INITIAL, events).lock.None? && p !in Run(INITIAL, events).procs
    ensures Quiet(Run(INITIAL, events), p) && DbOk(Run(INITIAL, events).db)
  {
    RunInv(events);
  }

  /** From every reachable state with a free lock, a start serves under the stored key or, given another passphrase, ends. */
  lemma StartDecides(events: seq<Event>, p: nat, key: Key, pass: Bytes, salt: Bytes, nonces: Nonces)
    requires var w := Run(INITIAL, events); w.lock.None? && p !in w.procs && Consistent(w.db, key)
    ensures var w := Run(INITIAL, events);
            Command(w, StartServe(p, pass), 7, salt, nonces) ==
            if pass == key.passphrase
            then w.(lock := Some(p), procs := w.procs[p := Serving(key, map[])])
            else w
  {
    FreeLockIsQuiet(events, p);
    CommandIsLocal(Run(INITIAL, events), StartServe(p, pass), 7, salt, nonces);
    ServeOutcome(Run(INITIAL, events).db, key, pass, salt, nonces);
  }

  /** A first start initialises the database and serves; with a passphrase Argon2 rejects it ends. */
  lemma FirstStart(events: seq<Event>, p: nat, pass: Bytes, salt: Bytes, nonces: Nonces)
    requires var w := Run(INITIAL, events); w.lock.None? && p !in w.procs && Blank(w.db)
    ensures var w := Run(INITIAL, events);
            var w' := Command(w, StartServe(p, pass), 9, salt, nonces);
            var key := Derived(pass, salt, STRONG);
            if |pass| < Encoding.TWO_32
            then Consistent(w'.db, key) && Abs(w'.db) == Abs(w.db)
                 && p in w'.procs && w'.procs[p] == Serving(key, map[])
            else w' == w
  {
    FreeLockIsQuiet(events, p);
    CommandIsLocal(Run(INITIAL, events), StartServe(p, pass), 9, salt, nonces);
    if |pass| < Encoding.TWO_32 {
      FreshRuns(Run(INITIAL, events).db, pass, salt, nonces);
    } else {
      FreshStops(Run(INITIAL, events).db, pass, salt, nonces);
    }
  }

  /**
   A rotation ends after one statement a row and 16 more. With the right current
   passphrase and a different derivable one it has moved the database, meaning
   unchanged, to the new key; otherwise nothing has changed.
   */
  lemma RotationCompletes(events: seq<Event>, p: nat, key: Key, current: Bytes, next: Bytes,
                          salt: Bytes, nonces: Nonces)
    requires var w := Run(INITIAL, events); w.lock.None? && p !in w.procs && Consistent(w.db, key)
    ensures var w := Run(INITIAL, events);
            var w' := Command(w, StartRekey(p, current, next), |w.db.secrets| + 16, salt, nonces);
            && w' == w.(db := w'.db) && Abs(w'.db) == Abs(w.db)
            && if current == key.passphrase && next != current && |next| < Encoding.TWO_32
               then Consistent(w'.db, Derived(next, salt, STRONG))
               else w' == w
  {
    FreeLockIsQuiet(events, p);
    var db := Run(INITIAL, events).db;
    CommandIsLocal(Run(INITIAL, events), StartRekey(p, current, next), |db.secrets| + 16, salt, nonces);
    if current == key.passphrase && next != current && |next| < Encoding.TWO_32 {
      RekeyRuns(db, key, next, salt, nonces);
    } else {
      RekeyStops(db, key, current, next, |db.secrets| + 8, salt, nonces);
    }
  }
}
