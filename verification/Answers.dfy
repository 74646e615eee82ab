/**
 What listings and the token endpoints answer and do, told from the history and
 the columns of the token table.
 */
module Answers {
  import opened Prelude
  import opened Aead
  import opened Repo
  import opened Protocol
  import opened Access
  import opened History
  import opened Auth
  import Handlers
  import Isolation
  import Names
  import Order
  import Store

  // ---- listing projects ----

  lemma ListingHas(projects: map<Bytes, Store.Project>, p: Bytes, t: int)
    ensures (p, t) in Store.Listing(projects) <==> p in projects && projects[p].createdAt == t
  {
    var names := Order.Sorted(projects.Keys);
    if p in projects && projects[p].createdAt == t {
      assert p in names;
      var i :| 0 <= i < |names| && names[i] == p;
      assert Store.Listing(projects)[i] == (p, t);
    }
    if (p, t) in Store.Listing(projects) {
      var i :| 0 <= i < |names| && Store.Listing(projects)[i] == (p, t);
      assert names[i] in names;
    }
  }

  /** When a project was created: the first create of it that got through. */
  function CreatedAt(log: seq<Entry>, p: Bytes): Option<int> {
    if log == [] then None else
      var before := CreatedAt(log[..|log| - 1], p);
      if before.None? && Creates(log[|log| - 1].step, p) then Some(log[|log| - 1].step.env.now) else before
  }

  lemma {:induction false} CreatedIsKept(log: seq<Entry>, p: Bytes)
    ensures CreatedAt(log, p) == if p in Replay(log).projects then Some(Replay(log).projects[p].createdAt) else None
  {
    if log != [] {
      CreatedIsKept(log[..|log| - 1], p);
    }
  }

  /** A listing names, in order, exactly the created projects the caller may use, each with its time of creation. */
  lemma ListFromLog(log: seq<Entry>, i: nat)
    requires Faithful(log) && i < |log| && Asks(log[i], ListProjects)
    ensures var r := log[i].response;
            && r.Projects?
            && (forall a, b :: 0 <= a < b < |r.listing| ==> Order.Less(r.listing[a].0, r.listing[b].0))
            && forall p, t :: (p, t) in r.listing <==> CreatedAt(log[..i], p) == Some(t) && MayUse(log[i].step.who, p)
  {
    Answered(log, i, []);
    var projects, who, r := Replay(log[..i]).projects, log[i].step.who, log[i].response;
    Isolation.ListingExactly(who, projects);
    var names := Order.Sorted(projects.Keys);
    forall p, t
      ensures (p, t) in r.listing <==> CreatedAt(log[..i], p) == Some(t) && MayUse(who, p)
    {
      CreatedIsKept(log[..i], p);
      ListingHas(projects, p, t);
    }
  }

  // ---- issuing ----

  /** How long an issued token is good: for ever, for the days asked, or for 90. */
  function RequestedExpiry(t: NewToken, now: int): Option<Expiry> {
    if t.noExpiry then None
    else match t.ttlDays
         case Some(days) => Some(At(now + 86400 * days))
         case None => Some(At(now + 86400 * 90))
  }

  /** The table has one more row, which authenticates as named until it expires; all else is as before. */
  ghost predicate Issued(ts: seq<TokenRow>, ts': seq<TokenRow>, name: Bytes, scope: Option<Bytes>,
                         expiry: Option<Expiry>, token: Bytes, now: int)
  {
    && |ts'| == |ts| + 1 && ts'[..|ts|] == ts
    && (forall later :: Authenticate(ts', Sha256(token), later) ==
          if expiry.None? || (expiry.value.At? && later < expiry.value.time) then Some(Identity(name, scope))
          else Authenticate(ts, Sha256(token), later))
    && (forall hash, later :: hash != Sha256(token) ==> Authenticate(ts', hash, later) == Authenticate(ts, hash, later))
    && TokenInfo(name, scope, now, expiry, false) in Repo.ListTokens(ts')
  }

  lemma InsertIssues(ts: seq<TokenRow>, name: Bytes, scope: Option<Bytes>, expiry: Option<Expiry>, token: Bytes, now: int)
    ensures Issued(ts, InsertToken(ts, name, Sha256(token), scope, expiry, now), name, scope, expiry, token, now)
  {
    var ts' := InsertToken(ts, name, Sha256(token), scope, expiry, now);
    assert ts' == ts + [ts'[|ts|]] && ts'[..|ts|] == ts;
    forall later {
      IssuedTokenWorks(ts, name, Sha256(token), scope, expiry, now, later);
    }
    Listed(ts', TokenInfo(name, scope, now, expiry, false));
    assert ts'[|ts|].name == name;
  }

  /**
   A well-formed request to issue a token, by an unscoped caller: the token answered
   authenticates with the name and project asked for, exactly until the expiry
   answered, which is the one asked for; past the year 9999 nothing happens.
   */
  lemma TokenIssuedAsAsked(ts: seq<TokenRow>, who: Identity, t: NewToken, env: Env)
    requires who.scope.None? && WellFormed(t)
    ensures Guard(who, CreateToken(Json(t))).None?
    ensures var (ts', r) := TokenSection(ts, CreateToken(Json(t)), env);
            var expiry := RequestedExpiry(t, env.now);
            if expiry.Some? && expiry.value.time > 253402300799 then (ts', r) == (ts, Aborted)
            else
              && r == TokenCreated(t.name, t.project, expiry, env.token)
              && Issued(ts, ts', t.name, t.project, expiry, env.token, env.now)
  {
    InsertIssues(ts, t.name, t.project, RequestedExpiry(t, env.now), env.token, env.now);
  }

  /** The local command issues as asked too; with no number of days the token does not expire. */
  lemma LocalTokenIssuedAsAsked(ts: seq<TokenRow>, name: Bytes, project: Option<Bytes>, ttlDays: Option<nat>,
                                now: int, token: Bytes)
    ensures var (ts', r) := Protocol.CliCreate(ts, name, project, ttlDays, now, token);
            var expiry := match ttlDays case None => None case Some(d) => Some(At(now + 86400 * d));
            if !Names.ValidProject(name) || (project.Some? && !Names.ValidProject(project.value)) || ttlDays == Some(0)
            then ts' == ts && r.Error? && r.error.BadRequest?
            else if expiry.Some? && expiry.value.time > 253402300799 then (ts', r) == (ts, Aborted)
            else r == TokenCreated(name, project, expiry, token) && Issued(ts, ts', name, project, expiry, token, now)
  {
    var expiry := match ttlDays case None => None case Some(d) => Some(At(now + 86400 * d));
    InsertIssues(ts, name, project, expiry, token, now);
  }

  // ---- revoking ----

  /** Nobody authenticates under the name, everybody else as before, and the listing says so. */
  ghost predicate Withdrawn(ts: seq<TokenRow>, ts': seq<TokenRow>, name: Bytes) {
    && (forall hash, now :: Authenticate(ts', hash, now).Some? ==> Authenticate(ts', hash, now).value.name != name)
    && (forall hash, now :: Authenticate(ts, hash, now).Some? && Authenticate(ts, hash, now).value.name != name ==>
          Authenticate(ts', hash, now) == Authenticate(ts, hash, now))
    && (forall hash, now :: Authenticate(ts, hash, now).None? ==> Authenticate(ts', hash, now).None?)
    && |ts'| == |ts|
    && (forall info: TokenInfo :: info in Repo.ListTokens(ts') && info.name == name ==> info.revoked)
    && (forall info: TokenInfo :: info.name != name ==> (info in Repo.ListTokens(ts') <==> info in Repo.ListTokens(ts)))
  }

  lemma RevokedAuthenticates(ts: seq<TokenRow>, name: Bytes, hash: Digest, now: int)
    ensures var a, b := Authenticate(ts, hash, now), Authenticate(Repo.RevokeToken(ts, name).0, hash, now);
            && (b.Some? ==> b.value.name != name)
            && (a.Some? && a.value.name != name ==> b == a)
            && (a.None? ==> b.None?)
  {
    var ts' := Repo.RevokeToken(ts, name).0;
    var a, b := AuthIndex(ts, hash, now), AuthIndex(ts', hash, now);
    if a.Some? && ts[a.value].name != name { assert Accepts(ts'[a.value], hash, now); }
    if b.Some? { assert Accepts(ts[b.value], hash, now); }
  }

  lemma RevokedListing(ts: seq<TokenRow>, name: Bytes, info: TokenInfo)
    ensures var ts' := Repo.RevokeToken(ts, name).0;
            && (info in Repo.ListTokens(ts') && info.name == name ==> info.revoked)
            && (info.name != name ==> (info in Repo.ListTokens(ts') <==> info in Repo.ListTokens(ts)))
  {
    Listed(ts, info);
    Listed(Repo.RevokeToken(ts, name).0, info);
  }

  lemma RevokeWithdraws(ts: seq<TokenRow>, name: Bytes)
    ensures Withdrawn(ts, Repo.RevokeToken(ts, name).0, name)
    ensures Repo.RevokeToken(ts, name).1 == |Active(ts, name)|
  {
    RevokeCounts(ts, name);
    forall hash, now { RevokedAuthenticates(ts, name, hash, now); }
    forall info { RevokedListing(ts, name, info); }
  }

  /** A revocation by an unscoped caller answers how many tokens were active and withdraws the name. */
  lemma TokenRevokedAsAsked(ts: seq<TokenRow>, who: Identity, name: Bytes, env: Env)
    requires who.scope.None? && Names.ValidProject(name)
    ensures Guard(who, Request.RevokeToken(name)).None?
    ensures var (ts', r) := TokenSection(ts, Request.RevokeToken(name), env);
            r == Revoked(|Active(ts, name)|) && Withdrawn(ts, ts', name)
  {
    RevokeWithdraws(ts, name);
  }

  lemma LocalTokenRevokedAsAsked(ts: seq<TokenRow>, name: Bytes)
    ensures var (ts', r) := Protocol.CliRevoke(ts, name);
            r == Revoked(|Active(ts, name)|) && Withdrawn(ts, ts', name)
  {
    RevokeWithdraws(ts, name);
  }

  /** A listing by an unscoped caller shows every token's columns once, oldest first, and changes nothing. */
  lemma TokensListed(ts: seq<TokenRow>, who: Identity, env: Env)
    requires who.scope.None?
    ensures Guard(who, Request.ListTokens).None?
    ensures var (ts', r) := TokenSection(ts, Request.ListTokens, env);
            ts' == ts && r.Tokens? && ByTime(r.infos) && multiset(r.infos) == multiset(Columns(ts))
  {
    ListTokensSorts(ts);
  }

  // ---- handlers ----

  /** On the tables: a refused request to a token endpoint changes nothing, and is refused as it should be. */
  lemma TokenRequestRefused(db: Db, key: Key, who: Identity, req: Request, env: Env)
    requires (req.CreateToken? || req.ListTokens? || req.RevokeToken?) && !Reaches(who, req)
    ensures var (db', r) := Handlers.Handle(db, key, who, req, env);
            && db' == db && r.Error? && (r.error == Forbidden <==> who.scope.Some?)
            && (who.scope.None? ==> r.error == PayloadTooLarge || r.error.BadRequest?)
  {
    ReachesExactly(who, req);
    ForbiddenExactly(who, req);
    OtherwiseBadRequest(who, req);
  }

  lemma IssueHandled(db: Db, key: Key, who: Identity, t: NewToken, env: Env)
    requires who.scope.None? && WellFormed(t)
    ensures var (db', r) := Handlers.Handle(db, key, who, CreateToken(Json(t)), env);
            var expiry := RequestedExpiry(t, env.now);
            && db' == db.(tokens := db'.tokens)
            && if expiry.Some? && expiry.value.time > 253402300799 then (db', r) == (db, Aborted)
               else r == TokenCreated(t.name, t.project, expiry, env.token)
                    && Issued(db.tokens, db'.tokens, t.name, t.project, expiry, env.token, env.now)
  {
    TokenIssuedAsAsked(db.tokens, who, t, env);
  }

  lemma RevokeHandled(db: Db, key: Key, who: Identity, name: Bytes, env: Env)
    requires who.scope.None? && Names.ValidProject(name)
    ensures var (db', r) := Handlers.Handle(db, key, who, Request.RevokeToken(name), env);
            && db' == db.(tokens := db'.tokens)
            && r == Revoked(|Active(db.tokens, name)|) && Withdrawn(db.tokens, db'.tokens, name)
  {
    TokenRevokedAsAsked(db.tokens, who, name, env);
  }

  lemma ListHandled(db: Db, key: Key, who: Identity, env: Env)
    requires who.scope.None?
    ensures var (db', r) := Handlers.Handle(db, key, who, Request.ListTokens, env);
            db' == db && r.Tokens? && ByTime(r.infos) && multiset(r.infos) == multiset(Columns(db.tokens))
  {
    TokensListed(db.tokens, who, env);
  }

  // ---- log entries ----

  /** The token table before entry `i`, and after it. */
  function TokensBefore(log: seq<Entry>, i: nat): seq<TokenRow>
    requires i <= |log|
  {
    Replay(log[..i]).tokens
  }

  lemma EntryPerforms(log: seq<Entry>, i: nat)
    requires Faithful(log) && i < |log|
    ensures Perform(Replay(log[..i]), log[i].step) == (Replay(log[..i + 1]), log[i].response)
  {
    Answered(log, i, []);
    assert log[..i + 1][..i] == log[..i];
  }

  /** A logged revocation: the count answered, and what holds from then on. */
  lemma RevokeFromLog(log: seq<Entry>, i: nat, name: Bytes)
    requires Faithful(log) && i < |log| && Asks(log[i], Request.RevokeToken(name))
    ensures var before, after, r := TokensBefore(log, i), TokensBefore(log, i + 1), log[i].response;
            if log[i].step.who.scope.Some? then r == Error(Forbidden) && after == before
            else if !Names.ValidProject(name) then r == Error(BadRequest("invalid token name")) && after == before
            else r == Revoked(|Active(before, name)|) && Withdrawn(before, after, name)
  {
    EntryPerforms(log, i);
    if Reaches(log[i].step.who, log[i].step.req) {
      TokenRevokedAsAsked(TokensBefore(log, i), log[i].step.who, name, log[i].step.env);
    }
  }

  /** A logged issue: the token answered is good as asked. */
  lemma IssueFromLog(log: seq<Entry>, i: nat, t: NewToken)
    requires Faithful(log) && i < |log| && Asks(log[i], CreateToken(Json(t)))
    ensures var before, after, r, env := TokensBefore(log, i), TokensBefore(log, i + 1), log[i].response, log[i].step.env;
            var expiry := RequestedExpiry(t, env.now);
            if log[i].step.who.scope.Some? then r == Error(Forbidden) && after == before
            else if !WellFormed(t) then r.Error? && r.error.BadRequest? && after == before
            else if expiry.Some? && expiry.value.time > 253402300799 then r == Aborted && after == before
            else r == TokenCreated(t.name, t.project, expiry, env.token)
                 && Issued(before, after, t.name, t.project, expiry, env.token, env.now)
  {
    EntryPerforms(log, i);
    if Reaches(log[i].step.who, log[i].step.req) {
      TokenIssuedAsAsked(TokensBefore(log, i), log[i].step.who, t, log[i].step.env);
    }
  }

  /** A logged listing of the tokens. */
  lemma TokensFromLog(log: seq<Entry>, i: nat)
    requires Faithful(log) && i < |log| && Asks(log[i], Request.ListTokens)
    ensures var r := log[i].response;
            if log[i].step.who.scope.Some? then r == Error(Forbidden)
            else r.Tokens? && ByTime(r.infos) && multiset(r.infos) == multiset(Columns(TokensBefore(log, i)))
  {
    EntryPerforms(log, i);
    if log[i].step.who.scope.None? { TokensListed(TokensBefore(log, i), log[i].step.who, log[i].step.env); }
  }
}
