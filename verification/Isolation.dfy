/** What a token scoped to one project can see and change. */
module Isolation {
  import opened Prelude
  import opened Aead
  import opened Repo
  import opened CryptoState
  import opened Protocol
  import opened Store
  import Handlers
  import Order
  import opened Refinement

  /** Two plain maps indistinguishable to a caller scoped to `p`. */
  ghost predicate Agree(a: Store, b: Store, p: Bytes) {
    a.tokens == b.tokens && Look(a.projects, p) == Look(b.projects, p)
  }

  // ---- listing ----

  function Only(p: Bytes, projects: map<Bytes, Project>): seq<(Bytes, int)> {
    if p in projects then [(p, projects[p].createdAt)] else []
  }

  lemma {:induction false} FilterNone(who: Identity, listing: seq<(Bytes, int)>)
    requires who.scope.Some? && forall i :: 0 <= i < |listing| ==> listing[i].0 != who.scope.value
    ensures Visible(who, listing) == []
  {
    if listing != [] {
      assert listing[|listing| - 1].0 != who.scope.value;
      FilterNone(who, listing[..|listing| - 1]);
      FilterSnoc(who, listing);
    }
  }

  lemma FilterSnoc(who: Identity, listing: seq<(Bytes, int)>)
    requires listing != []
    ensures var last := listing[|listing| - 1];
            Visible(who, listing) == Visible(who, listing[..|listing| - 1]) +
              if who.scope.None? || who.scope.value == last.0 then [last] else []
  {
  }

  lemma {:induction false} FilterOne(who: Identity, listing: seq<(Bytes, int)>, i: nat)
    requires who.scope.Some? && i < |listing| && listing[i].0 == who.scope.value
    requires forall j, k :: 0 <= j < k < |listing| ==> listing[j].0 != listing[k].0
    ensures Visible(who, listing) == [listing[i]]
  {
    FilterSnoc(who, listing);
    if i == |listing| - 1 {
      FilterNone(who, listing[..|listing| - 1]);
    } else {
      FilterOne(who, listing[..|listing| - 1], i);
    }
  }

  /** A scoped caller's listing is its own project or nothing. */
  lemma ListingShowsOwn(who: Identity, projects: map<Bytes, Project>)
    requires who.scope.Some?
    ensures Visible(who, Listing(projects)) == Only(who.scope.value, projects)
  {
    var p, names, listing := who.scope.value, Order.Sorted(projects.Keys), Listing(projects);
    forall j, k | 0 <= j < k < |listing| ensures listing[j].0 != listing[k].0 {
      Order.Irreflexive(names[j]);
    }
    if p in projects {
      assert p in names;
      var i :| 0 <= i < |names| && names[i] == p;
      FilterOne(who, listing, i);
    } else {
      forall i | 0 <= i < |listing| ensures listing[i].0 != p { assert names[i] in names; }
      FilterNone(who, listing);
    }
  }

  /** An unscoped caller sees every project. */
  lemma {:induction false} UnscopedSeesAll(who: Identity, listing: seq<(Bytes, int)>)
    requires who.scope.None?
    ensures Visible(who, listing) == listing
  {
    if listing != [] {
      UnscopedSeesAll(who, listing[..|listing| - 1]);
      FilterSnoc(who, listing);
    }
  }

  /** Who sees which projects: an unscoped caller all of them, a scoped one its own. */
  lemma ListingExactly(who: Identity, projects: map<Bytes, Project>)
    ensures Visible(who, Listing(projects)) ==
            if who.scope.Some? then Only(who.scope.value, projects) else Listing(projects)
  {
    if who.scope.Some? {
      ListingShowsOwn(who, projects);
    } else {
      UnscopedSeesAll(who, Listing(projects));
    }
  }

  // ---- one request ----

  /** A scoped caller's request changes nothing but its own project, and no token. */
  lemma ScopedFrame(st: Store, who: Identity, req: Request, env: Env, q: Bytes)
    requires who.scope.Some?
    ensures var st' := Serve(st, who, req, env).0;
            st'.tokens == st.tokens && (q != who.scope.value ==> Look(st'.projects, q) == Look(st.projects, q))
  {
  }

  /** The project a request names, when it names one. */
  function Named(req: Request): Option<Bytes> {
    match req
    case GetSecrets(p) => Some(p)
    case PutSecret(p, _, _) => Some(p)
    case DeleteSecret(p, _) => Some(p)
    case CreateProject(Json(p)) => Some(p)
    case _ => None
  }

  /** A scoped caller past the guard names its own project or lists. */
  lemma PastGuard(who: Identity, req: Request)
    requires who.scope.Some? && Guard(who, req).None?
    ensures req.ListProjects? || Named(req) == who.scope
  {
  }

  lemma SectionAgrees(a: Store, b: Store, who: Identity, req: Request, env: Env, p: Bytes)
    requires Named(req) == Some(p) && Guard(who, req).None? && Agree(a, b, p)
    ensures Section(a, who, req, env).1 == Section(b, who, req, env).1
    ensures Agree(Section(a, who, req, env).0, Section(b, who, req, env).0, p)
  {
    assert p in a.projects <==> p in b.projects;
    assert p in a.projects ==> a.projects[p] == b.projects[p];
  }

  /** Indistinguishable maps answer alike and stay indistinguishable. */
  lemma ServeAgrees(a: Store, b: Store, who: Identity, req: Request, env: Env, p: Bytes)
    requires who.scope == Some(p) && Agree(a, b, p)
    ensures Serve(a, who, req, env).1 == Serve(b, who, req, env).1
    ensures Agree(Serve(a, who, req, env).0, Serve(b, who, req, env).0, p)
  {
    if Guard(who, req).None? {
      PastGuard(who, req);
      if req.ListProjects? {
        ListingShowsOwn(who, a.projects);
        ListingShowsOwn(who, b.projects);
      } else {
        SectionAgrees(a, b, who, req, env, p);
      }
    }
  }

  /** Nonces do not influence what a request means. */
  lemma NonceIrrelevant(st: Store, who: Identity, req: Request, env: Env, nonce: Nonce)
    ensures Serve(st, who, req, env) == Serve(st, who, req, env.(nonce := nonce))
  {
  }

  // ---- runs of whole requests ----

  /** One HTTP request: the presented token and what is asked. */
  datatype Call = Call(hash: Digest, req: Request, env: Env)

  /** Authentication followed by the handler. */
  function ServeCall(db: Db, key: Key, c: Call): (Db, Response) {
    match Authenticate(db.tokens, c.hash, c.env.now)
    case None => (db, Error(Unauthorized))
    case Some(who) => Handlers.Handle(db, key, who, c.req, c.env)
  }

  function RunCalls(db: Db, key: Key, calls: seq<Call>): (Db, seq<Response>)
    decreases |calls|
  {
    if calls == [] then (db, []) else
      var (db', r) := ServeCall(db, key, calls[0]);
      var (db'', rs) := RunCalls(db', key, calls[1..]);
      (db'', [r] + rs)
  }

  lemma RunStep(db: Db, key: Key, calls: seq<Call>)
    requires calls != []
    ensures var (db', r) := ServeCall(db, key, calls[0]);
            RunCalls(db, key, calls) ==
            (RunCalls(db', key, calls[1..]).0, [r] + RunCalls(db', key, calls[1..]).1)
  {
  }

  /** Every row the token could be is scoped to `p`. */
  ghost predicate ScopedTo(ts: seq<TokenRow>, hash: Digest, p: Bytes) {
    forall i :: 0 <= i < |ts| && ts[i].hash == hash ==> ts[i].scope == Some(p)
  }

  ghost predicate Scoped(ts: seq<TokenRow>, hash: Digest) {
    forall i :: 0 <= i < |ts| && ts[i].hash == hash ==> ts[i].scope.Some?
  }

  /** The same call sent to a second server, which draws its own nonce. */
  ghost predicate SameCall(c: Call, d: Call) {
    d == c.(env := c.env.(nonce := d.env.nonce))
  }

  lemma CallAgrees(db: Db, key: Key, db': Db, key': Key, c: Call, d: Call, p: Bytes)
    requires Consistent(db, key) && Consistent(db', key') && SameCall(c, d)
    requires ScopedTo(db.tokens, c.hash, p) && Agree(Abs(db), Abs(db'), p)
    ensures var (e, r) := ServeCall(db, key, c);
            var (e', r') := ServeCall(db', key', d);
            && r == r' && Agree(Abs(e), Abs(e'), p) && Consistent(e, key) && Consistent(e', key')
            && e.tokens == db.tokens
  {
    match Authenticate(db.tokens, c.hash, c.env.now)
    case None =>
    case Some(who) =>
      assert who.scope == Some(p);
      HandlerRefines(db, key, who, c.req, c.env);
      HandlerRefines(db', key', who, d.req, d.env);
      NonceIrrelevant(Abs(db'), who, c.req, c.env, d.env.nonce);
      ServeAgrees(Abs(db), Abs(db'), who, c.req, c.env, p);
      ScopedFrame(Abs(db), who, c.req, c.env, p);
  }

  /**
   Two servers with different keys, row ids and other projects, agreeing on the
   token table and on project `p`, cannot be told apart by any run of requests
   made with tokens scoped to `p`.
   */
  lemma {:induction false} NonInterference(
    db: Db, key: Key, db': Db, key': Key, cs: seq<Call>, ds: seq<Call>, p: Bytes)
    decreases |cs|
    requires Consistent(db, key) && Consistent(db', key') && Agree(Abs(db), Abs(db'), p)
    requires |cs| == |ds| && forall i :: 0 <= i < |cs| ==> SameCall(cs[i], ds[i])
    requires forall i :: 0 <= i < |cs| ==> ScopedTo(db.tokens, cs[i].hash, p)
    ensures RunCalls(db, key, cs).1 == RunCalls(db', key', ds).1
    ensures Agree(Abs(RunCalls(db, key, cs).0), Abs(RunCalls(db', key', ds).0), p)
  {
    if cs != [] {
      assert SameCall(cs[0], ds[0]) && ScopedTo(db.tokens, cs[0].hash, p);
      CallAgrees(db, key, db', key', cs[0], ds[0], p);
      var e, e' := ServeCall(db, key, cs[0]).0, ServeCall(db', key', ds[0]).0;
      forall i | 0 <= i < |cs| - 1
        ensures SameCall(cs[1..][i], ds[1..][i]) && ScopedTo(e.tokens, cs[1..][i].hash, p)
      {
        assert SameCall(cs[i + 1], ds[i + 1]) && ScopedTo(db.tokens, cs[i + 1].hash, p);
      }
      NonInterference(e, key, e', key', cs[1..], ds[1..], p);
      RunStep(db, key, cs);
      RunStep(db', key', ds);
    }
  }

  /** `q` is the scope of some token the run uses. */
  ghost predicate InScope(ts: seq<TokenRow>, calls: seq<Call>, q: Bytes) {
    exists c, i :: 0 <= c < |calls| && 0 <= i < |ts| && ts[i].hash == calls[c].hash && ts[i].scope == Some(q)
  }

  /**
   A run made with scoped tokens only leaves the token table alone and every
   project outside the scopes of the tokens it used.
   */
  lemma {:induction false} ScopedRunFrame(db: Db, key: Key, calls: seq<Call>, q: Bytes)
    requires Consistent(db, key)
    requires forall c :: 0 <= c < |calls| ==> Scoped(db.tokens, calls[c].hash)
    ensures var db' := RunCalls(db, key, calls).0;
            && db'.tokens == db.tokens
            && (!InScope(db.tokens, calls, q) ==> Look(Abs(db').projects, q) == Look(Abs(db).projects, q))
    decreases |calls|
  {
    if calls != [] {
      var c := calls[0];
      var e := ServeCall(db, key, c).0;
      var a := AuthIndex(db.tokens, c.hash, c.env.now);
      if a.Some? {
        var who := Authenticate(db.tokens, c.hash, c.env.now).value;
        HandlerRefines(db, key, who, c.req, c.env);
        ScopedFrame(Abs(db), who, c.req, c.env, q);
        if who.scope.value == q { assert InScope(db.tokens, calls, q); }
      }
      ScopedRunFrame(e, key, calls[1..], q);
      if InScope(db.tokens, calls[1..], q) {
        var j, i :| 0 <= j < |calls| - 1 && 0 <= i < |db.tokens|
              && db.tokens[i].hash == calls[1..][j].hash && db.tokens[i].scope == Some(q);
        assert calls[j + 1] == calls[1..][j];
      }
    }
  }
}
