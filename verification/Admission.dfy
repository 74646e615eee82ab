/**
 The two locked sections of a request: authentication admits it, and a later
 section serves it. Who is served, and what a revocation in between does.
 */
module Admission {
  import opened Prelude
  import opened Aead
  import opened Repo
  import opened Protocol
  import opened History
  import opened Lifecycle
  import opened Reachability
  import Access
  import Answers
  import Names
  import Store

  /** Request `rid` of process `p` is authenticated and waits for its locked section. */
  predicate Waits(w: World, p: nat, rid: nat) {
    p in w.procs && w.procs[p].Serving? && rid in w.procs[p].admitted
  }

  function Waiter(w: World, p: nat, rid: nat): Identity
    requires Waits(w, p, rid)
  {
    w.procs[p].admitted[rid]
  }

  predicate WaitsAs(w: World, p: nat, rid: nat, who: Identity) {
    Waits(w, p, rid) && Waiter(w, p, rid) == who
  }

  /** The hash presented with this event authenticates request `rid` as `who` in `w`. */
  predicate AdmitsAs(w: World, e: Event, p: nat, rid: nat, who: Identity) {
    e.Admit? && e.p == p && e.rid == rid && Authenticate(w.db.tokens, e.hash, w.clock) == Some(who)
  }

  /** Events that end a wait: the request's own section, and the death of its process. */
  predicate Spends(e: Event, p: nat, rid: nat) {
    (e.Act? && e.p == p && e.rid == rid) || (e.Crash? && e.p == p)
  }

  // ---- one event ----

  lemma ActLogs(w: World, p: nat, rid: nat, req: Request, nonce: Nonce, token: Bytes)
    requires Inv(w) && Waits(w, p, rid)
    ensures var step, w' := Http(Waiter(w, p, rid), req, Env(w.clock, nonce, token)),
                            Next(w, Act(p, rid, req, nonce, token));
            w'.log == w.log + [Entry(step, Perform(Replay(w.log), step).1)] && !Waits(w', p, rid)
  {
    var step := Http(Waiter(w, p, rid), req, Env(w.clock, nonce, token));
    ActKeeps(w, p, rid, req, nonce, token);
    var log := Next(w, Act(p, rid, req, nonce, token)).log;
    assert log == w.log + [Entry(step, log[|w.log|].response)];
    assert log[..|log| - 1] == w.log;
  }

  lemma AdvanceServesNobody(w: World, p: nat, salt: Bytes, nonce: Nonce, q: nat, rid: nat)
    requires Waits(Next(w, Advance(p, salt, nonce)), q, rid)
    ensures WaitsAs(w, q, rid, Waiter(Next(w, Advance(p, salt, nonce)), q, rid))
  {
  }

  /** A request waiting after an event waited before it, or the event has just authenticated it. */
  lemma WaitStep(w: World, e: Event, p: nat, rid: nat, who: Identity)
    requires Inv(w) && WaitsAs(Next(w, e), p, rid, who)
    ensures AdmitsAs(w, e, p, rid, who) || (WaitsAs(w, p, rid, who) && !Spends(e, p, rid))
  {
    if e.Advance? {
      AdvanceServesNobody(w, e.p, e.salt, e.nonce, p, rid);
    } else if e.Act? && Waits(w, e.p, e.rid) {
      ActLogs(w, e.p, e.rid, e.req, e.nonce, e.token);
    }
  }

  /** An event logs an HTTP entry only by serving a waiting request, under the identity it waits with. */
  lemma LogStep(w: World, e: Event)
    requires Inv(w)
    ensures var log := Next(w, e).log;
            || log == w.log
            || (|log| == |w.log| + 1 && log[..|w.log|] == w.log
                && (log[|w.log|].step.Http? ==>
                      && e.Act? && Waits(w, e.p, e.rid)
                      && log[|w.log|].step == Http(Waiter(w, e.p, e.rid), e.req, Env(w.clock, e.nonce, e.token))))
  {
    NextLog(w, e);
    if e.Act? && Waits(w, e.p, e.rid) {
      ActLogs(w, e.p, e.rid, e.req, e.nonce, e.token);
    }
  }

  // ---- who is served ----

  /** Event `k` admitted the request as `who`, and up to event `n` nothing has ended its wait. */
  ghost predicate AdmittedAt(events: seq<Event>, k: nat, n: nat, p: nat, rid: nat, who: Identity) {
    && k < n <= |events| && AdmitsAs(Run(INITIAL, events[..k]), events[k], p, rid, who)
    && forall x :: k < x < n ==> !Spends(events[x], p, rid)
  }

  lemma AdmittedInPrefix(events: seq<Event>, m: nat, k: nat, n: nat, p: nat, rid: nat, who: Identity)
    requires m <= |events| && n <= m
    ensures AdmittedAt(events[..m], k, n, p, rid, who) <==> AdmittedAt(events, k, n, p, rid, who)
  {
    if k < m { assert events[..m][..k] == events[..k]; }
  }

  lemma AdmittedNow(events: seq<Event>, p: nat, rid: nat, who: Identity)
    requires events != []
    requires AdmitsAs(Run(INITIAL, events[..|events| - 1]), events[|events| - 1], p, rid, who)
    ensures AdmittedAt(events, |events| - 1, |events|, p, rid, who)
  {
  }

  lemma AdmittedStill(events: seq<Event>, k: nat, p: nat, rid: nat, who: Identity)
    requires events != [] && !Spends(events[|events| - 1], p, rid)
    requires AdmittedAt(events[..|events| - 1], k, |events| - 1, p, rid, who)
    ensures AdmittedAt(events, k, |events|, p, rid, who)
  {
    AdmittedInPrefix(events, |events| - 1, k, |events| - 1, p, rid, who);
  }

  lemma LastWait(events: seq<Event>, p: nat, rid: nat, who: Identity)
    requires WaitsAs(Run(INITIAL, events), p, rid, who)
    ensures events != []
    ensures var w, e := Run(INITIAL, events[..|events| - 1]), events[|events| - 1];
            AdmitsAs(w, e, p, rid, who) || (WaitsAs(w, p, rid, who) && !Spends(e, p, rid))
  {
    RunInv(events[..|events| - 1]);
    WaitStep(Run(INITIAL, events[..|events| - 1]), events[|events| - 1], p, rid, who);
  }

  /** Whoever waits was admitted by an event that presented an accepted token. */
  lemma {:induction false} WaitingWasAdmitted(events: seq<Event>, p: nat, rid: nat, who: Identity) returns (k: nat)
    requires WaitsAs(Run(INITIAL, events), p, rid, who)
    ensures AdmittedAt(events, k, |events|, p, rid, who)
    decreases |events|
  {
    LastWait(events, p, rid, who);
    var init := events[..|events| - 1];
    if AdmitsAs(Run(INITIAL, init), events[|events| - 1], p, rid, who) {
      k := |events| - 1;
      AdmittedNow(events, p, rid, who);
    } else {
      k := WaitingWasAdmitted(init, p, rid, who);
      AdmittedStill(events, k, p, rid, who);
    }
  }

  /** Entry `i` of the log is event `m` serving the request that event `k` admitted. */
  ghost predicate ServedBy(events: seq<Event>, k: nat, m: nat, i: nat) {
    var log := Run(INITIAL, events).log;
    && m < |events| && events[m].Act? && i < |log| && log[i].step.Http?
    && AdmittedAt(events, k, m, events[m].p, events[m].rid, log[i].step.who)
    && var w := Run(INITIAL, events[..m]);
       && |w.log| == i
       && log[i].step.req == events[m].req
       && log[i].step.env == Env(w.clock, events[m].nonce, events[m].token)
  }

  lemma ServedInPrefix(events: seq<Event>, n: nat, k: nat, m: nat, i: nat)
    requires n <= |events| && ServedBy(events[..n], k, m, i)
    requires Run(INITIAL, events[..n]).log <= Run(INITIAL, events).log
    ensures ServedBy(events, k, m, i)
  {
    assert events[..n][..m] == events[..m];
    AdmittedInPrefix(events, n, k, m, events[m].p, events[m].rid, Run(INITIAL, events[..n]).log[i].step.who);
  }

  /**
   Nobody is served who did not first present an accepted token: every HTTP entry
   of the log is the section of a request that an earlier event of the same run
   authenticated as that entry's caller, with nothing to end its wait in between.
   */
  lemma {:induction false} ServedWereAuthenticated(events: seq<Event>, i: nat) returns (k: nat, m: nat)
    requires i < |Run(INITIAL, events).log| && Run(INITIAL, events).log[i].step.Http?
    ensures ServedBy(events, k, m, i)
    decreases |events|
  {
    var n := |events| - 1;
    var init, e := events[..n], events[n];
    var w := Run(INITIAL, init);
    RunInv(init);
    LogStep(w, e);
    if i < |w.log| {
      k, m := ServedWereAuthenticated(init, i);
      ServedInPrefix(events, n, k, m, i);
    } else {
      m := n;
      k := WaitingWasAdmitted(init, e.p, e.rid, Waiter(w, e.p, e.rid));
      AdmittedInPrefix(events, n, k, n, e.p, e.rid, Waiter(w, e.p, e.rid));
    }
  }

  /** One admission is good for one section. */
  lemma ServedOnce(events: seq<Event>, k: nat, m: nat, i: nat, m': nat, i': nat)
    requires ServedBy(events, k, m, i) && ServedBy(events, k, m', i')
    ensures m == m' && i == i'
  {
  }

  // ---- revocation between the sections ----

  ghost predicate AllRevoked(ts: seq<TokenRow>, name: Bytes) {
    forall i :: 0 <= i < |ts| && ts[i].name == name ==> ts[i].revoked
  }

  /** The step issues a token of that name. */
  predicate StepIssues(step: Step, name: Bytes) {
    || (step.CliCreate? && step.name == name)
    || (step.Http? && step.req.CreateToken? && step.req.token.Json? && step.req.token.value.name == name)
  }

  predicate Issues(e: Event, name: Bytes) {
    || (e.Cli? && StepIssues(e.step, name))
    || (e.Act? && e.req.CreateToken? && e.req.token.Json? && e.req.token.value.name == name)
  }

  lemma StepKeepsRevoked(st: Store.Store, step: Step, name: Bytes)
    requires AllRevoked(st.tokens, name) && !StepIssues(step, name)
    ensures AllRevoked(Perform(st, step).0.tokens, name)
  {
  }

  lemma NextKeepsRevoked(w: World, e: Event, name: Bytes)
    requires Inv(w) && AllRevoked(w.db.tokens, name) && !Issues(e, name)
    ensures AllRevoked(Next(w, e).db.tokens, name)
  {
    NextKeeps(w, e);
    NextLog(w, e);
    LogStep(w, e);
    var log := Next(w, e).log;
    assert w.db.tokens == Replay(w.log).tokens && Next(w, e).db.tokens == Replay(log).tokens;
    if log != w.log {
      assert log[..|log| - 1] == w.log;
      StepKeepsRevoked(Replay(w.log), log[|w.log|].step, name);
    }
  }

  lemma RevokedAdmitsNobody(ts: seq<TokenRow>, name: Bytes, hash: Digest, now: int)
    requires AllRevoked(ts, name) && Authenticate(ts, hash, now).Some?
    ensures Authenticate(ts, hash, now).value.name != name
  {
  }

  /** The event revokes the name: the local command, or a served request of somebody entitled to it. */
  predicate Revokes(w: World, e: Event, name: Bytes) {
    || (w.writer.None? && e == Cli(CliRevoke(name)))
    || (e.Act? && Waits(w, e.p, e.rid) && Waiter(w, e.p, e.rid).scope.None?
        && e.req == Request.RevokeToken(name) && Names.ValidProject(name))
  }

  lemma RevokedStep(st: Store.Store, step: Step, name: Bytes)
    requires step == CliRevoke(name)
             || (step.Http? && step.who.scope.None? && step.req == Request.RevokeToken(name) && Names.ValidProject(name))
    ensures AllRevoked(Perform(st, step).0.tokens, name)
  {
  }

  lemma RevokeRevokes(w: World, e: Event, name: Bytes)
    requires Inv(w) && Revokes(w, e, name)
    ensures AllRevoked(Next(w, e).db.tokens, name)
  {
    NextKeeps(w, e);
    LogStep(w, e);
    var log := Next(w, e).log;
    if e.Act? { ActLogs(w, e.p, e.rid, e.req, e.nonce, e.token); } else { NextLog(w, e); }
    assert log[..|log| - 1] == w.log;
    RevokedStep(Replay(w.log), log[|w.log|].step, name);
    assert Next(w, e).db.tokens == Replay(log).tokens;
  }

  predicate NoneIssues(events: seq<Event>, name: Bytes) {
    forall x :: 0 <= x < |events| ==> !Issues(events[x], name)
  }

  predicate NoneSpends(events: seq<Event>, p: nat, rid: nat) {
    forall x :: 0 <= x < |events| ==> !Spends(events[x], p, rid)
  }

  predicate NoneAdmits(events: seq<Event>, p: nat, rid: nat) {
    forall x :: 0 <= x < |events| ==> !(events[x].Admit? && events[x].p == p && events[x].rid == rid)
  }

  /** What every event of a kind keeps, a run of such events keeps. */
  lemma {:induction false} Kept(w: World, after: seq<Event>, inv: World -> bool, kind: Event -> bool)
    requires inv(w) && forall x :: 0 <= x < |after| ==> kind(after[x])
    requires forall v, e :: inv(v) && kind(e) ==> inv(Next(v, e))
    ensures inv(Run(w, after))
    decreases |after|
  {
    if after != [] {
      Kept(w, after[..|after| - 1], inv, kind);
    }
  }

  lemma TracedStep(v: World, e: Event, u: World,
                   inv: World -> bool, kind: Event -> bool, holds: World -> bool, breaks: Event -> bool)
    requires inv(v) && kind(e) && u == Next(v, e) && holds(u)
    requires forall x, y :: inv(x) && kind(y) && holds(Next(x, y)) ==> holds(x) && !breaks(y)
    ensures holds(v) && !breaks(e)
  {
  }

  /** What can be true after an event only if it was before, was true before the run, and no event broke it. */
  lemma {:induction false} Traced(
    w: World, after: seq<Event>, inv: World -> bool, kind: Event -> bool, holds: World -> bool, breaks: Event -> bool)
    requires inv(w) && (forall x :: 0 <= x < |after| ==> kind(after[x])) && holds(Run(w, after))
    requires forall v, e :: inv(v) && kind(e) ==> inv(Next(v, e))
    requires forall v, e :: inv(v) && kind(e) && holds(Next(v, e)) ==> holds(v) && !breaks(e)
    ensures holds(w) && forall x :: 0 <= x < |after| ==> !breaks(after[x])
    decreases |after|
  {
    if after != [] {
      var v, rest := Next(w, after[0]), after[1..];
      RunFront(w, after);
      assert forall x :: 0 <= x < |rest| ==> rest[x] == after[x + 1];
      Traced(v, rest, inv, kind, holds, breaks);
      TracedStep(w, after[0], v, inv, kind, holds, breaks);
      assert forall x :: 0 < x < |after| ==> after[x] == rest[x - 1];
    }
  }

  lemma RunFront(w: World, after: seq<Event>)
    requires after != []
    ensures Run(w, after) == Run(Next(w, after[0]), after[1..])
  {
    RunAppend(w, [after[0]], after[1..]);
    assert [after[0]] + after[1..] == after && [after[0]][..0] == [];
  }

  lemma InvAlong(w: World, after: seq<Event>)
    requires Inv(w)
    ensures Inv(Run(w, after))
  {
    forall v, e | Inv(v) ensures Inv(Next(v, e)) { NextKeeps(v, e); }
    Kept(w, after, (v: World) => Inv(v), (e: Event) => true);
  }

  lemma NotNewlyAdmitted(w: World, e: Event, p: nat, rid: nat, who: Identity)
    requires Inv(w) && AllRevoked(w.db.tokens, who.name) && WaitsAs(Next(w, e), p, rid, who)
    ensures WaitsAs(w, p, rid, who) && !Spends(e, p, rid)
  {
    WaitStep(w, e, p, rid, who);
    if AdmitsAs(w, e, p, rid, who) {
      RevokedAdmitsNobody(w.db.tokens, who.name, e.hash, w.clock);
    }
  }

  /** With every token of a name revoked, an identity of that name only waits where it waited already. */
  lemma NobodyNewWaits(w: World, after: seq<Event>, p: nat, rid: nat, who: Identity)
    requires Inv(w) && AllRevoked(w.db.tokens, who.name) && NoneIssues(after, who.name)
    requires WaitsAs(Run(w, after), p, rid, who)
    ensures WaitsAs(w, p, rid, who) && NoneSpends(after, p, rid)
  {
    var inv := (v: World) => Inv(v) && AllRevoked(v.db.tokens, who.name);
    var kind := (e: Event) => !Issues(e, who.name);
    var holds := (v: World) => WaitsAs(v, p, rid, who);
    forall v, e | inv(v) && kind(e)
      ensures inv(Next(v, e)) && (holds(Next(v, e)) ==> holds(v) && !Spends(e, p, rid))
    {
      NextKeeps(v, e);
      NextKeepsRevoked(v, e, who.name);
      if WaitsAs(Next(v, e), p, rid, who) { NotNewlyAdmitted(v, e, p, rid, who); }
    }
    Traced(w, after, inv, kind, holds, (e: Event) => Spends(e, p, rid));
  }

  lemma WaitPersists(w: World, e: Event, p: nat, rid: nat, who: Identity)
    requires Inv(w) && WaitsAs(w, p, rid, who)
    requires !Spends(e, p, rid) && !(e.Admit? && e.p == p && e.rid == rid)
    ensures WaitsAs(Next(w, e), p, rid, who)
  {
  }

  lemma WaitsAlong(w: World, after: seq<Event>, p: nat, rid: nat, who: Identity)
    requires Inv(w) && WaitsAs(w, p, rid, who) && NoneSpends(after, p, rid) && NoneAdmits(after, p, rid)
    ensures WaitsAs(Run(w, after), p, rid, who)
  {
    var inv := (v: World) => Inv(v) && WaitsAs(v, p, rid, who);
    var kind := (e: Event) => !Spends(e, p, rid) && !(e.Admit? && e.p == p && e.rid == rid);
    forall v, e | inv(v) && kind(e) ensures inv(Next(v, e)) {
      NextKeeps(v, e);
      WaitPersists(v, e, p, rid, who);
    }
    Kept(w, after, inv, kind);
  }

  /** A revocation admits nobody itself. */
  lemma RevokingWaits(w: World, e: Event, name: Bytes, p: nat, rid: nat, who: Identity)
    requires Inv(w) && Revokes(w, e, name)
    ensures WaitsAs(Next(w, e), p, rid, who) <==> WaitsAs(w, p, rid, who) && !Spends(e, p, rid)
  {
    if WaitsAs(Next(w, e), p, rid, who) { WaitStep(w, e, p, rid, who); }
    if WaitsAs(w, p, rid, who) && !Spends(e, p, rid) { WaitPersists(w, e, p, rid, who); }
  }

  /** After a revocation, local or served, nobody of that name is newly admitted. */
  lemma RevocationAdmitsNobody(before: seq<Event>, e: Event, after: seq<Event>, p: nat, rid: nat, who: Identity)
    requires Revokes(Run(INITIAL, before), e, who.name) && NoneIssues(after, who.name)
    requires WaitsAs(Run(Next(Run(INITIAL, before), e), after), p, rid, who)
    ensures WaitsAs(Run(INITIAL, before), p, rid, who) && !Spends(e, p, rid) && NoneSpends(after, p, rid)
  {
    RunInv(before);
    var w := Run(INITIAL, before);
    NextKeeps(w, e);
    RevokeRevokes(w, e, who.name);
    NobodyNewWaits(Next(w, e), after, p, rid, who);
    RevokingWaits(w, e, who.name, p, rid, who);
  }

  /**
   Whom a revocation, local or served, leaves able to act, exactly. Along every
   continuation that issues no token of the revoked name and reuses no request
   number, an identity of that name waits if and only if it waited at the
   revocation and has neither been served nor lost its process since.
   */
  lemma RevocationGap(before: seq<Event>, e: Event, after: seq<Event>, p: nat, rid: nat, who: Identity)
    requires Revokes(Run(INITIAL, before), e, who.name)
    requires NoneIssues(after, who.name) && NoneAdmits(after, p, rid)
    ensures var w := Run(INITIAL, before);
            WaitsAs(Run(Next(w, e), after), p, rid, who) <==>
            WaitsAs(w, p, rid, who) && !Spends(e, p, rid) && NoneSpends(after, p, rid)
  {
    RunInv(before);
    var w := Run(INITIAL, before);
    NextKeeps(w, e);
    if WaitsAs(Run(Next(w, e), after), p, rid, who) {
      RevocationAdmitsNobody(before, e, after, p, rid, who);
    }
    if WaitsAs(w, p, rid, who) && !Spends(e, p, rid) && NoneSpends(after, p, rid) {
      RevokingWaits(w, e, who.name, p, rid, who);
      WaitsAlong(Next(w, e), after, p, rid, who);
    }
  }

  lemma {:induction false} RunSplit(w: World, before: seq<Event>, e: Event, after: seq<Event>)
    ensures Run(w, before + [e] + after) == Run(Next(Run(w, before), e), after)
  {
    RunAppend(w, before + [e], after);
    assert (before + [e])[..|before|] == before;
  }

  /**
   A request admitted before its token is revoked, and not served or lost since,
   is served with the very answer the plain map gives to its caller: the token is
   not looked at again.
   */
  lemma AdmittedSurvivesRevocation(before: seq<Event>, e: Event, after: seq<Event>, p: nat, rid: nat, who: Identity,
                                   req: Request, nonce: Nonce, token: Bytes)
    requires Revokes(Run(INITIAL, before), e, who.name) && WaitsAs(Run(INITIAL, before), p, rid, who)
    requires !Spends(e, p, rid) && NoneSpends(after, p, rid) && NoneAdmits(after, p, rid)
    ensures var w := Run(INITIAL, before + [e] + after);
            var step := Http(who, req, Env(w.clock, nonce, token));
            Next(w, Act(p, rid, req, nonce, token)).log ==
            w.log + [Entry(step, Perform(Replay(w.log), step).1)]
  {
    RunInv(before);
    NextKeeps(Run(INITIAL, before), e);
    RevokingWaits(Run(INITIAL, before), e, who.name, p, rid, who);
    WaitsAlong(Next(Run(INITIAL, before), e), after, p, rid, who);
    RunSplit(INITIAL, before, e, after);
    RunInv(before + [e] + after);
    ActLogs(Run(INITIAL, before + [e] + after), p, rid, req, nonce, token);
  }

  // ---- issuing, presenting ----

  /** Presenting a token to a live server admits the request exactly when the table accepts it at that time. */
  lemma PresentedIsAdmitted(w: World, p: nat, rid: nat, hash: Digest)
    requires p in w.procs && w.procs[p].Serving?
    ensures var v := Next(w, Admit(p, rid, hash));
            && v == w.(procs := v.procs)
            && match Authenticate(w.db.tokens, hash, w.clock)
               case None => v == w
               case Some(who) => WaitsAs(v, p, rid, who)
  {
  }

  ghost predicate Unissued(w: World, token: Bytes) {
    forall i :: 0 <= i < |w.db.tokens| ==> w.db.tokens[i].hash != Sha256(token)
  }

  lemma NobodyHas(w: World, token: Bytes, now: int)
    requires Unissued(w, token)
    ensures Authenticate(w.db.tokens, Sha256(token), now).None?
  {
  }

  /** What the clock reads is what was last set, and nothing else. */
  lemma ClockSet(w: World, now: int)
    ensures Next(w, SetClock(now)) == w.(clock := now)
  {
  }

  /** The request number is taken up as the identity exactly while the token is good. */
  ghost predicate GoodUntil(w: World, p: nat, rid: nat, token: Bytes, who: Identity, expiry: Option<Expiry>) {
    forall now ::
      var v := Next(w, SetClock(now));
      var u := Next(v, Admit(p, rid, Sha256(token)));
      if expiry.None? || (expiry.value.At? && now < expiry.value.time) then WaitsAs(u, p, rid, who) else u == v
  }

  lemma IssuedIsGood(w: World, ts: seq<TokenRow>, p: nat, rid: nat, token: Bytes, who: Identity,
                     expiry: Option<Expiry>, issued: int)
    requires p in w.procs && w.procs[p].Serving?
    requires Answers.Issued(ts, w.db.tokens, who.name, who.scope, expiry, token, issued)
    requires forall i :: 0 <= i < |ts| ==> ts[i].hash != Sha256(token)
    ensures GoodUntil(w, p, rid, token, who, expiry)
  {
    forall now
      ensures var v := Next(w, SetClock(now));
              var u := Next(v, Admit(p, rid, Sha256(token)));
              if expiry.None? || (expiry.value.At? && now < expiry.value.time) then WaitsAs(u, p, rid, who) else u == v
    {
      ClockSet(w, now);
      PresentedIsAdmitted(w.(clock := now), p, rid, Sha256(token));
      assert Authenticate(ts, Sha256(token), now).None?;
    }
  }

  /** A token issued by a served request is admitted, with the name and project asked for, until its expiry. */
  lemma ServedIssueIsGood(events: seq<Event>, p: nat, rid: nat, t: Protocol.NewToken, nonce: Nonce, token: Bytes, rid': nat)
    requires var w := Run(INITIAL, events);
             Waits(w, p, rid) && Waiter(w, p, rid).scope.None? && Access.WellFormed(t) && Unissued(w, token)
    ensures var w := Run(INITIAL, events);
            var expiry := Answers.RequestedExpiry(t, w.clock);
            var w' := Next(w, Act(p, rid, CreateToken(Json(t)), nonce, token));
            (expiry.None? || expiry.value.time <= 253402300799) ==>
            (&& w'.log == w.log + [Entry(Http(Waiter(w, p, rid), CreateToken(Json(t)), Env(w.clock, nonce, token)),
                                         TokenCreated(t.name, t.project, expiry, token))]
             && GoodUntil(w', p, rid', token, Identity(t.name, t.project), expiry))
  {
    RunInv(events);
    var w := Run(INITIAL, events);
    var e := Act(p, rid, CreateToken(Json(t)), nonce, token);
    var expiry := Answers.RequestedExpiry(t, w.clock);
    if expiry.None? || expiry.value.time <= 253402300799 {
      IssueServed(w, e, t);
      ServerStays(w, e);
      IssuedIsGood(Next(w, e), w.db.tokens, p, rid', token, Identity(t.name, t.project), expiry, w.clock);
    }
  }

  /** The section itself: what is logged, and what the table then holds. */
  lemma IssueServed(w: World, e: Event, t: Protocol.NewToken)
    requires Inv(w) && e.Act? && e.req == CreateToken(Json(t)) && Waits(w, e.p, e.rid)
    requires Waiter(w, e.p, e.rid).scope.None? && Access.WellFormed(t)
    requires var expiry := Answers.RequestedExpiry(t, w.clock); expiry.None? || expiry.value.time <= 253402300799
    ensures var expiry, w' := Answers.RequestedExpiry(t, w.clock), Next(w, e);
            && w'.log == w.log + [Entry(Http(Waiter(w, e.p, e.rid), e.req, Env(w.clock, e.nonce, e.token)),
                                        TokenCreated(t.name, t.project, expiry, e.token))]
            && Answers.Issued(w.db.tokens, w'.db.tokens, t.name, t.project, expiry, e.token, w.clock)
  {
    var who, env := Waiter(w, e.p, e.rid), Env(w.clock, e.nonce, e.token);
    ActLogs(w, e.p, e.rid, e.req, e.nonce, e.token);
    TokensPerformed(w, e);
    Answers.TokenIssuedAsAsked(w.db.tokens, who, t, env);
    IssuePerforms(Replay(w.log), who, t, env);
  }

  lemma IssuePerforms(st: Store.Store, who: Identity, t: Protocol.NewToken, env: Env)
    requires Guard(who, CreateToken(Json(t))).None?
    ensures var (ts, r) := TokenSection(st.tokens, CreateToken(Json(t)), env);
            Perform(st, Http(who, CreateToken(Json(t)), env)) == (st.(tokens := ts), r)
  {
  }

  /** The table after a section is the plain map's. */
  lemma TokensPerformed(w: World, e: Event)
    requires Inv(w) && e.Act? && Waits(w, e.p, e.rid)
    ensures var step := Http(Waiter(w, e.p, e.rid), e.req, Env(w.clock, e.nonce, e.token));
            && Replay(w.log).tokens == w.db.tokens
            && Next(w, e).db.tokens == Perform(Replay(w.log), step).0.tokens
  {
    ActLogs(w, e.p, e.rid, e.req, e.nonce, e.token);
    NextKeeps(w, e);
    var log := Next(w, e).log;
    assert log[..|log| - 1] == w.log;
  }

  lemma ServerStays(w: World, e: Event)
    requires e.Act? && e.p in w.procs && w.procs[e.p].Serving?
    ensures e.p in Next(w, e).procs && Next(w, e).procs[e.p].Serving?
  {
  }

  /** So is a token issued by the local command, which a live server takes up at once. */
  lemma LocalIssueIsGood(events: seq<Event>, name: Bytes, project: Option<Bytes>, ttlDays: Option<nat>, now: int,
                         token: Bytes, p: nat, rid: nat)
    requires var w := Run(INITIAL, events);
             p in w.procs && w.procs[p].Serving? && w.writer.None? && Unissued(w, token)
    requires Names.ValidProject(name) && (project.Some? ==> Names.ValidProject(project.value)) && ttlDays != Some(0)
    ensures var w := Run(INITIAL, events);
            var expiry := match ttlDays case None => None case Some(d) => Some(At(now + 86400 * d));
            (expiry.None? || expiry.value.time <= 253402300799) ==>
            GoodUntil(Next(w, Cli(CliCreate(name, project, ttlDays, now, token))), p, rid, token,
                      Identity(name, project), expiry)
  {
    var w := Run(INITIAL, events);
    var expiry := match ttlDays case None => None case Some(d) => Some(At(now + 86400 * d));
    Answers.LocalTokenIssuedAsAsked(w.db.tokens, name, project, ttlDays, now, token);
    if expiry.None? || expiry.value.time <= 253402300799 {
      IssuedIsGood(Next(w, Cli(CliCreate(name, project, ttlDays, now, token))), w.db.tokens, p, rid, token,
                   Identity(name, project), expiry, now);
    }
  }
}
