/**
 Scoped tokens under interleaving: requests are admitted and served in separate
 sections, in any order, and the claims are about the very rows of the tables.
 */
module ScopedRuns {
  import opened Prelude
  import opened Aead
  import opened Repo
  import opened CryptoState
  import opened Protocol
  import opened History
  import opened Lifecycle
  import opened KeyAgreement
  import opened Reachability
  import opened Refinement
  import opened Admission
  import Encoding
  import Handlers
  import Isolation
  import Names
  import Store

  // ---- the rows of a project ----

  /** The secret rows of one project, in table order. */
  function RowsIn(ss: seq<SecretRow>, pid: int): seq<SecretRow> {
    if ss == [] then [] else
      RowsIn(ss[..|ss| - 1], pid) + if ss[|ss| - 1].projectId == pid then [ss[|ss| - 1]] else []
  }

  /** A project's row and its secrets' rows, ciphertexts included. */
  function ProjectRows(db: Db, q: Bytes): Option<(ProjectRow, seq<SecretRow>)> {
    match ProjectIndex(db.projects, q)
    case None => None
    case Some(i) => Some((db.projects[i], RowsIn(db.secrets, db.projects[i].id)))
  }

  lemma RowsAppend(ss: seq<SecretRow>, row: SecretRow, pid: int)
    ensures RowsIn(ss + [row], pid) == RowsIn(ss, pid) + if row.projectId == pid then [row] else []
  {
    assert (ss + [row])[..|ss|] == ss;
  }

  lemma {:induction false} RowsUpdate(ss: seq<SecretRow>, i: nat, row: SecretRow, pid: int)
    requires i < |ss| && ss[i].projectId != pid && row.projectId != pid
    ensures RowsIn(ss[i := row], pid) == RowsIn(ss, pid)
  {
    var n := |ss| - 1;
    if i == n {
      assert ss[i := row][..n] == ss[..n];
    } else {
      RowsUpdate(ss[..n], i, row, pid);
      assert ss[i := row][..n] == ss[..n][i := row];
    }
  }

  lemma {:induction false} RowsRemove(ss: seq<SecretRow>, i: nat, pid: int)
    requires i < |ss| && ss[i].projectId != pid
    ensures RowsIn(ss[..i] + ss[i + 1..], pid) == RowsIn(ss, pid)
  {
    var n := |ss| - 1;
    if i == n {
      assert ss[..i] + ss[i + 1..] == ss[..n];
    } else {
      RowsRemove(ss[..n], i, pid);
      assert ss[..i] + ss[i + 1..] == (ss[..n][..i] + ss[..n][i + 1..]) + [ss[n]];
      RowsAppend(ss[..n][..i] + ss[..n][i + 1..], ss[n], pid);
    }
  }

  /** An upsert leaves the rows of every other project as they are. */
  lemma UpsertRows(db: Db, pid: int, k: Bytes, nonce: Bytes, ct: Blob<Bytes>, now: int, q: int)
    requires q != pid && UpsertSecret(db, pid, k, nonce, ct, now).Some?
    ensures RowsIn(UpsertSecret(db, pid, k, nonce, ct, now).value.0.secrets, q) == RowsIn(db.secrets, q)
  {
    var ss, ss' := db.secrets, UpsertSecret(db, pid, k, nonce, ct, now).value.0.secrets;
    var i := SecretIndex(ss, pid, k);
    if i.Some? {
      RowsUpdate(ss, i.value, ss'[i.value], q);
    } else {
      RowsAppend(ss, ss'[|ss|], q);
    }
  }

  lemma DeleteRows(ss: seq<SecretRow>, pid: int, k: Bytes, q: int)
    requires q != pid
    ensures RowsIn(Repo.DeleteSecret(ss, pid, k).0, q) == RowsIn(ss, q)
  {
    var i := SecretIndex(ss, pid, k);
    if i.Some? { RowsRemove(ss, i.value, q); }
  }

  // ---- one handler ----

  ghost predicate Untouched(a: Db, b: Db, q: Bytes) {
    a.meta == b.meta && a.tokens == b.tokens && ProjectRows(a, q) == ProjectRows(b, q)
  }

  lemma SecretsUntouched(db: Db, ss: seq<SecretRow>, i: nat, q: Bytes)
    requires ProjectsOk(db.projects) && i < |db.projects| && db.projects[i].name != q
    requires forall pid :: pid != db.projects[i].id ==> RowsIn(ss, pid) == RowsIn(db.secrets, pid)
    ensures Untouched(db, db.(secrets := ss), q)
  {
    var j := ProjectIndex(db.projects, q);
    if j.Some? { assert db.projects[j.value].id != db.projects[i].id; }
  }

  lemma PutUntouched(db: Db, key: Key, who: Identity, req: Request, env: Env, q: Bytes)
    requires ProjectsOk(db.projects) && req.PutSecret? && req.project != q && Guard(who, req).None?
    ensures Untouched(db, Handlers.Handle(db, key, who, req, env).0, q)
  {
    var pi := ProjectIndex(db.projects, req.project);
    if pi.Some? {
      var i := pi.value;
      var pid := db.projects[i].id;
      var ct := Encrypt(key, env.nonce, req.value.value, Encoding.Aad(req.project, req.key));
      PutResult(db, key, who, req, env, i);
      var r := UpsertSecret(db, pid, req.key, env.nonce, ct, env.now);
      if r.Some? {
        var ss := r.value.0.secrets;
        forall x | x != pid ensures RowsIn(ss, x) == RowsIn(db.secrets, x) {
          UpsertRows(db, pid, req.key, env.nonce, ct, env.now, x);
        }
        assert r.value.0 == db.(secrets := ss);
        SecretsUntouched(db, ss, i, q);
      }
    }
  }

  lemma DeleteUntouched(db: Db, key: Key, who: Identity, req: Request, env: Env, q: Bytes)
    requires ProjectsOk(db.projects) && req.DeleteSecret? && req.project != q && Guard(who, req).None?
    ensures Untouched(db, Handlers.Handle(db, key, who, req, env).0, q)
  {
    var pi := ProjectIndex(db.projects, req.project);
    if pi.Some? {
      var pid := db.projects[pi.value].id;
      var ss := Repo.DeleteSecret(db.secrets, pid, req.key).0;
      forall x | x != pid ensures RowsIn(ss, x) == RowsIn(db.secrets, x) {
        DeleteRows(db.secrets, pid, req.key, x);
      }
      SecretsUntouched(db, ss, pi.value, q);
    }
  }

  lemma CreateUntouched(db: Db, key: Key, who: Identity, req: Request, env: Env, q: Bytes)
    requires req.CreateProject? && Guard(who, req).None? && req.name.value != q
    ensures Untouched(db, Handlers.Handle(db, key, who, req, env).0, q)
  {
    var name := req.name.value;
    if ProjectIndex(db.projects, name).None? {
      var row := ProjectRow(if db.projects == [] then 1 else db.projects[|db.projects| - 1].id + 1, name, env.now);
      CreateResult(db, key, who, req, env, row);
      ProjectIndexAppend(db.projects, row, q);
    }
  }

  lemma ReadsChangeNothing(db: Db, key: Key, who: Identity, req: Request, env: Env)
    requires req.ListProjects? || req.GetSecrets?
    ensures Handlers.Handle(db, key, who, req, env).0 == db
  {
  }

  /** A scoped caller's request leaves metadata, tokens and every row of every other project as they are. */
  lemma ScopedHandle(db: Db, key: Key, who: Identity, req: Request, env: Env, q: Bytes)
    requires ProjectsOk(db.projects) && who.scope.Some? && who.scope.value != q
    ensures Untouched(db, Handlers.Handle(db, key, who, req, env).0, q)
  {
    if Guard(who, req).None? {
      Isolation.PastGuard(who, req);
      if req.CreateProject? { CreateUntouched(db, key, who, req, env, q); }
      else if req.PutSecret? { PutUntouched(db, key, who, req, env, q); }
      else if req.DeleteSecret? { DeleteUntouched(db, key, who, req, env, q); }
      else { ReadsChangeNothing(db, key, who, req, env); }
    }
  }

  // ---- runs ----

  /** HTTP traffic, the clock, and crashes. */
  predicate Traffic(e: Event) {
    e.Admit? || e.Act? || e.SetClock? || e.Crash?
  }

  /** Every token the event could have presented is scoped, and not to `q`. */
  ghost predicate PresentsApart(ts: seq<TokenRow>, e: Event, q: Bytes) {
    e.Admit? ==> forall i :: 0 <= i < |ts| && ts[i].hash == e.hash ==> ts[i].scope.Some? && ts[i].scope.value != q
  }

  /** So is every request already admitted. */
  ghost predicate WaitApart(w: World, q: Bytes) {
    forall p, rid :: Waits(w, p, rid) ==> Waiter(w, p, rid).scope.Some? && Waiter(w, p, rid).scope.value != q
  }

  lemma AdmitsApart(w: World, e: Event, p: nat, rid: nat, who: Identity, q: Bytes)
    requires PresentsApart(w.db.tokens, e, q) && AdmitsAs(w, e, p, rid, who)
    ensures who.scope.Some? && who.scope.value != q
  {
  }

  lemma ActUntouched(w: World, e: Event, q: Bytes)
    requires Inv(w) && e.Act? && WaitApart(w, q)
    ensures Untouched(w.db, Next(w, e).db, q)
  {
    if Waits(w, e.p, e.rid) && w.writer.None? {
      DbOkIntegrity(w.db);
      ScopedHandle(w.db, w.procs[e.p].key, Waiter(w, e.p, e.rid), e.req, Env(w.clock, e.nonce, e.token), q);
    }
  }

  lemma TrafficStep(w: World, e: Event, q: Bytes)
    requires Inv(w) && Traffic(e) && WaitApart(w, q) && PresentsApart(w.db.tokens, e, q)
    ensures Untouched(w.db, Next(w, e).db, q) && WaitApart(Next(w, e), q)
  {
    if e.Act? { ActUntouched(w, e, q); }
    var w' := Next(w, e);
    forall p, rid | Waits(w', p, rid)
      ensures Waiter(w', p, rid).scope.Some? && Waiter(w', p, rid).scope.value != q
    {
      var who := Waiter(w', p, rid);
      WaitStep(w, e, p, rid, who);
      if AdmitsAs(w, e, p, rid, who) { AdmitsApart(w, e, p, rid, who, q); }
    }
  }

  /**
   Any interleaving of admissions and sections made with scoped tokens, crashes
   included, leaves the token table alone, and the row and secret rows, down to
   the ciphertexts, of every project outside the scopes used.
   */
  lemma {:induction false} TrafficFrame(w: World, events: seq<Event>, q: Bytes)
    requires Inv(w) && WaitApart(w, q)
    requires forall i :: 0 <= i < |events| ==> Traffic(events[i]) && PresentsApart(w.db.tokens, events[i], q)
    ensures Untouched(w.db, Run(w, events).db, q) && WaitApart(Run(w, events), q)
    decreases |events|
  {
    if events != [] {
      var init := events[..|events| - 1];
      TrafficFrame(w, init, q);
      InvAlong(w, init);
      TrafficStep(Run(w, init), events[|events| - 1], q);
    }
  }

  /** The frame from every reachable state. */
  lemma ScopedTrafficFrame(before: seq<Event>, events: seq<Event>, q: Bytes)
    requires var w := Run(INITIAL, before);
             && WaitApart(w, q)
             && forall i :: 0 <= i < |events| ==> Traffic(events[i]) && PresentsApart(w.db.tokens, events[i], q)
    ensures var w, w' := Run(INITIAL, before), Run(INITIAL, before + events);
            w'.db.tokens == w.db.tokens && ProjectRows(w'.db, q) == ProjectRows(w.db, q)
  {
    RunInv(before);
    TrafficFrame(Run(INITIAL, before), events, q);
    RunAppend(INITIAL, before, events);
  }

  // ---- two systems side by side ----

  /** Requests, of the process `s` only, and the clock. */
  predicate RequestOf(e: Event, s: nat) {
    (e.Admit? && e.p == s) || (e.Act? && e.p == s) || e.SetClock?
  }

  /** The same event in two systems, each drawing its own nonces. */
  predicate SameEvent(e: Event, e': Event) {
    e' == if e.Act? && e'.Act? then e.(nonce := e'.nonce) else e
  }

  /** Two systems with a server each, which a caller scoped to `p` cannot tell apart. */
  ghost predicate Alike(w: World, w': World, s: nat, p: Bytes) {
    && Inv(w) && Inv(w') && s in w.procs && s in w'.procs
    && w.procs[s].Serving? && w'.procs[s].Serving? && w.procs[s].admitted == w'.procs[s].admitted
    && w.clock == w'.clock && Isolation.Agree(Abs(w.db), Abs(w'.db), p)
    && forall rid :: rid in w.procs[s].admitted ==> w.procs[s].admitted[rid].scope == Some(p)
  }

  /** What an event adds to the log, as answers. */
  function Answer(w: World, e: Event): Option<Response> {
    var log := Next(w, e).log;
    if |log| > |w.log| then Some(log[|w.log|].response) else None
  }

  function Answers(w: World, events: seq<Event>): seq<Option<Response>>
    decreases |events|
  {
    if events == [] then [] else
      Answers(w, events[..|events| - 1]) + [Answer(Run(w, events[..|events| - 1]), events[|events| - 1])]
  }

  /** An admission only adds a waiting request, if the token is accepted. */
  lemma AdmitEffect(w: World, e: Event)
    requires e.Admit? && e.p in w.procs && w.procs[e.p].Serving?
    ensures var w' := Next(w, e);
            && w'.db == w.db && w'.log == w.log && w'.clock == w.clock
            && e.p in w'.procs && w'.procs[e.p].Serving?
            && w'.procs[e.p].admitted ==
               match Authenticate(w.db.tokens, e.hash, w.clock)
               case None => w.procs[e.p].admitted
               case Some(who) => w.procs[e.p].admitted[e.rid := who]
  {
  }

  lemma ScopeOf(ts: seq<TokenRow>, hash: Digest, now: int, p: Bytes)
    requires Isolation.ScopedTo(ts, hash, p) && Authenticate(ts, hash, now).Some?
    ensures Authenticate(ts, hash, now).value.scope == Some(p)
  {
  }

  lemma AdmitAlike(w: World, w': World, e: Event, s: nat, p: Bytes)
    requires Alike(w, w', s, p) && e.Admit? && e.p == s && Isolation.ScopedTo(w.db.tokens, e.hash, p)
    ensures Alike(Next(w, e), Next(w', e), s, p) && Answer(w, e) == Answer(w', e) == None
  {
    NextKeeps(w, e);
    NextKeeps(w', e);
    AdmitEffect(w, e);
    AdmitEffect(w', e);
    if Authenticate(w.db.tokens, e.hash, w.clock).Some? { ScopeOf(w.db.tokens, e.hash, w.clock, p); }
  }

  /** Serving a request is one request of the plain map. */
  lemma ActIsServe(w: World, e: Event)
    requires Inv(w) && e.Act? && Waits(w, e.p, e.rid)
    ensures var who, env := Waiter(w, e.p, e.rid), Env(w.clock, e.nonce, e.token);
            && Answer(w, e) == Some(Store.Serve(Abs(w.db), who, e.req, env).1)
            && Abs(Next(w, e).db) == Store.Serve(Abs(w.db), who, e.req, env).0
  {
    ActLogs(w, e.p, e.rid, e.req, e.nonce, e.token);
    NextKeeps(w, e);
    var log := Next(w, e).log;
    assert log[..|log| - 1] == w.log;
  }

  lemma ActFrame(w: World, e: Event)
    requires Inv(w) && e.Act? && Waits(w, e.p, e.rid)
    ensures var w' := Next(w, e);
            && w'.clock == w.clock && e.p in w'.procs && w'.procs[e.p].Serving?
            && w'.procs[e.p].admitted == w.procs[e.p].admitted - {e.rid}
  {
  }

  lemma ActAlike(w: World, w': World, e: Event, e': Event, s: nat, p: Bytes)
    requires Alike(w, w', s, p) && e.Act? && e.p == s && e'.Act? && SameEvent(e, e') && Waits(w, s, e.rid)
    ensures Alike(Next(w, e), Next(w', e'), s, p) && Answer(w, e) == Answer(w', e')
  {
    var who := Waiter(w, s, e.rid);
    var env := Env(w.clock, e.nonce, e.token);
    NextKeeps(w, e);
    NextKeeps(w', e');
    ActIsServe(w, e);
    ActIsServe(w', e');
    ActFrame(w, e);
    ActFrame(w', e');
    Isolation.NonceIrrelevant(Abs(w'.db), who, e.req, env, e'.nonce);
    Isolation.ServeAgrees(Abs(w.db), Abs(w'.db), who, e.req, env, p);
  }

  lemma IdleAlike(w: World, w': World, e: Event, e': Event, s: nat, p: Bytes)
    requires Alike(w, w', s, p) && SameEvent(e, e')
    requires e.SetClock? || (e.Act? && e'.Act? && e.p == s && !Waits(w, s, e.rid))
    ensures Alike(Next(w, e), Next(w', e'), s, p) && Answer(w, e) == Answer(w', e') == None
    ensures Next(w, e).db.tokens == w.db.tokens
  {
    if e.SetClock? {
      NextKeeps(w, e);
      NextKeeps(w', e');
    } else {
      assert Next(w, e) == w && Next(w', e') == w';
    }
  }

  lemma EventAlike(w: World, w': World, e: Event, e': Event, s: nat, p: Bytes)
    requires Alike(w, w', s, p) && RequestOf(e, s) && SameEvent(e, e')
    requires e.Admit? ==> Isolation.ScopedTo(w.db.tokens, e.hash, p)
    ensures Alike(Next(w, e), Next(w', e'), s, p) && Answer(w, e) == Answer(w', e')
    ensures Next(w, e).db.tokens == w.db.tokens
  {
    if e.Admit? {
      AdmitAlike(w, w', e, s, p);
      AdmitEffect(w, e);
    } else if e.Act? && Waits(w, s, e.rid) {
      ActAlike(w, w', e, e', s, p);
      ActIsServe(w, e);
      Isolation.ScopedFrame(Abs(w.db), Waiter(w, s, e.rid), e.req, Env(w.clock, e.nonce, e.token), p);
    } else {
      IdleAlike(w, w', e, e', s, p);
    }
  }

  /**
   Two reachable systems with different keys, row ids and other projects, agreeing
   on tokens, clock, waiting requests and project `p`: any interleaving of
   admissions and sections made with tokens scoped to `p` is answered alike, event
   by event, and leaves them agreeing.
   */
  lemma {:induction false} InterleavedNonInterference(
    w: World, w': World, events: seq<Event>, events': seq<Event>, s: nat, p: Bytes)
    requires Alike(w, w', s, p) && |events| == |events'|
    requires forall i :: 0 <= i < |events| ==> RequestOf(events[i], s) && SameEvent(events[i], events'[i])
    requires forall i :: 0 <= i < |events| && events[i].Admit? ==> Isolation.ScopedTo(w.db.tokens, events[i].hash, p)
    ensures Answers(w, events) == Answers(w', events')
    ensures Alike(Run(w, events), Run(w', events'), s, p) && Run(w, events).db.tokens == w.db.tokens
    decreases |events|
  {
    if events != [] {
      var n := |events| - 1;
      InterleavedNonInterference(w, w', events[..n], events'[..n], s, p);
      EventAlike(Run(w, events[..n]), Run(w', events'[..n]), events[n], events'[n], s, p);
    }
  }
}
