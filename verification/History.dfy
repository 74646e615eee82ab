/**
 What happened, as the specification sees it: a log of completed requests and
 local token commands, replayed on the plain map.
 */
module History {
  import opened Prelude
  import opened Aead
  import opened Repo
  import opened Protocol
  import opened Store
  import opened Access
  import Names
  import Utf8

  datatype Step =
    | Http(who: Identity, req: Request, env: Env)
    | CliCreate(name: Bytes, project: Option<Bytes>, ttlDays: Option<nat>, now: int, token: Bytes)
    | CliRevoke(tokenName: Bytes)

  datatype Entry = Entry(step: Step, response: Response)

  function Perform(st: Store, step: Step): (Store, Response) {
    match step
    case Http(who, req, env) => Serve(st, who, req, env)
    case CliCreate(name, project, ttlDays, now, token) =>
      var (ts, r) := Protocol.CliCreate(st.tokens, name, project, ttlDays, now, token);
      (st.(tokens := ts), r)
    case CliRevoke(name) =>
      var (ts, r) := Protocol.CliRevoke(st.tokens, name);
      (st.(tokens := ts), r)
  }

  /** The plain map after a log, starting empty. */
  function Replay(log: seq<Entry>): Store {
    if log == [] then EMPTY else Perform(Replay(log[..|log| - 1]), log[|log| - 1].step).0
  }

  /** Every logged response is the one the plain map gives at that point. */
  ghost predicate Faithful(log: seq<Entry>) {
    log != [] ==>
      var init, last := log[..|log| - 1], log[|log| - 1];
      Faithful(init) && last.response == Perform(Replay(init), last.step).1
  }

  lemma FaithfulSnoc(log: seq<Entry>, step: Step)
    requires Faithful(log)
    ensures var log' := log + [Entry(step, Perform(Replay(log), step).1)];
            Faithful(log') && Replay(log') == Perform(Replay(log), step).0
  {
    var log' := log + [Entry(step, Perform(Replay(log), step).1)];
    assert log'[..|log|] == log;
  }

  /** The plain map never answers with a server error. */
  lemma NeverInternalStep(st: Store, step: Step)
    ensures var r := Perform(st, step).1;
            r.Error? ==> !r.error.Internal?
  {
  }

  // ---- versions ----

  predicate PutOf(e: Entry, p: Bytes, k: Bytes) {
    e.step.Http? && e.step.req.PutSecret? && e.step.req.project == p && e.step.req.key == k
    && e.response.SecretPut?
  }

  predicate DeleteOf(e: Entry, p: Bytes, k: Bytes) {
    e.step.Http? && e.step.req.DeleteSecret? && e.step.req.project == p && e.step.req.key == k
    && e.response.NoContent?
  }

  /** Successful puts of a key since its last successful delete, or ever. */
  function PutsSince(log: seq<Entry>, p: Bytes, k: Bytes): nat {
    if log == [] then 0 else
      var e := log[|log| - 1];
      if PutOf(e, p, k) then 1 + PutsSince(log[..|log| - 1], p, k)
      else if DeleteOf(e, p, k) then 0
      else PutsSince(log[..|log| - 1], p, k)
  }

  function CellIn(st: Store, p: Bytes, k: Bytes): Option<Cell> {
    if p in st.projects && k in st.projects[p].secrets then Some(st.projects[p].secrets[k]) else None
  }

  /** Only a successful put or delete of the key itself touches its cell. */
  lemma CellStep(st: Store, step: Step, p: Bytes, k: Bytes)
    ensures var (st', r) := Perform(st, step);
            var e := Entry(step, r);
            var before := CellIn(st, p, k);
            CellIn(st', p, k) ==
              if PutOf(e, p, k) then
                Some(Cell(step.req.value.value, if before.Some? then before.value.version + 1 else 1))
              else if DeleteOf(e, p, k) then None
              else before
    ensures var r := Perform(st, step).1;
            PutOf(Entry(step, r), p, k) ==>
              step.req.value.Json?
              && r.version == if CellIn(st, p, k).Some? then CellIn(st, p, k).value.version + 1 else 1
  {
  }

  /**
   The stored version counts the successful puts since the last successful
   delete, and a key is present exactly when that count is positive.
   */
  lemma {:induction false} VersionCountsPuts(log: seq<Entry>, p: Bytes, k: Bytes)
    requires Faithful(log)
    ensures CellIn(Replay(log), p, k).Some? <==> PutsSince(log, p, k) > 0
    ensures CellIn(Replay(log), p, k).Some? ==> CellIn(Replay(log), p, k).value.version == PutsSince(log, p, k)
  {
    if log != [] {
      var init := log[..|log| - 1];
      VersionCountsPuts(init, p, k);
      CellStep(Replay(init), log[|log| - 1].step, p, k);
    }
  }

  /** The version a put returns is the count including itself. */
  lemma PutReturnsCount(log: seq<Entry>, i: nat, p: Bytes, k: Bytes)
    requires Faithful(log) && i < |log| && PutOf(log[i], p, k)
    ensures log[i].response.version == PutsSince(log[..i + 1], p, k)
  {
    Answered(log, i, p);
    VersionCountsPuts(log[..i], p, k);
    PutVersion(Replay(log[..i]), log[i], p, k);
    assert log[..i + 1][..i] == log[..i];
  }

  lemma PutVersion(st: Store, e: Entry, p: Bytes, k: Bytes)
    requires PutOf(e, p, k) && e.response == Perform(st, e.step).1
    ensures e.response.version == match CellIn(st, p, k) case None => 1 case Some(c) => c.version + 1
  {
    CellStep(st, e.step, p, k);
  }

  lemma {:induction false} FaithfulPrefix(log: seq<Entry>, n: nat)
    requires Faithful(log) && n <= |log|
    ensures Faithful(log[..n])
  {
    if n < |log| {
      FaithfulPrefix(log[..|log| - 1], n);
      assert log[..|log| - 1][..n] == log[..n];
    } else {
      assert log[..n] == log;
    }
  }

  /** What a stretch without successful puts does to the count. */
  lemma {:induction false} PutsSinceStretch(log: seq<Entry>, i: nat, j: nat, p: Bytes, k: Bytes)
    requires i <= j <= |log| && forall m :: i <= m < j ==> !PutOf(log[m], p, k)
    ensures PutsSince(log[..j], p, k) == if NoDelete(log, i, j, p, k) then PutsSince(log[..i], p, k) else 0
  {
    if i < j {
      PutsSinceStretch(log, i, j - 1, p, k);
      assert log[..j][..j - 1] == log[..j - 1];
    }
  }

  /** No successful delete of the key among the entries from `i` up to `j`. */
  predicate NoDelete(log: seq<Entry>, i: nat, j: nat, p: Bytes, k: Bytes)
    requires j <= |log|
  {
    forall m :: i <= m < j ==> !DeleteOf(log[m], p, k)
  }

  lemma {:induction false} PutsSinceGrows(log: seq<Entry>, i: nat, j: nat, p: Bytes, k: Bytes)
    requires i <= j <= |log| && NoDelete(log, i, j, p, k)
    ensures PutsSince(log[..i], p, k) <= PutsSince(log[..j], p, k)
  {
    if i < j {
      PutsSinceGrows(log, i, j - 1, p, k);
      assert log[..j][..j - 1] == log[..j - 1];
    }
  }

  /** A put answers one more than the count before it. */
  lemma PutAddsOne(log: seq<Entry>, i: nat, p: Bytes, k: Bytes)
    requires Faithful(log) && i < |log| && PutOf(log[i], p, k)
    ensures log[i].response.version == 1 + PutsSince(log[..i], p, k) == PutsSince(log[..i + 1], p, k)
  {
    PutReturnsCount(log, i, p, k);
    assert log[..i + 1][..i] == log[..i];
  }

  /**
   From one successful put of a key to the next the version rises by one exactly
   when no successful delete comes between; otherwise it is 1 again.
   */
  lemma VersionRises(log: seq<Entry>, i: nat, j: nat, p: Bytes, k: Bytes)
    requires Faithful(log) && i < j < |log| && PutOf(log[i], p, k) && PutOf(log[j], p, k)
    requires forall m :: i < m < j ==> !PutOf(log[m], p, k)
    ensures log[j].response.version > log[i].response.version <==>
            forall m :: i < m < j ==> !DeleteOf(log[m], p, k)
    ensures log[j].response.version ==
            if NoDelete(log, i + 1, j, p, k) then log[i].response.version + 1 else 1
  {
    PutAddsOne(log, i, p, k);
    PutAddsOne(log, j, p, k);
    PutsSinceStretch(log, i + 1, j, p, k);
  }

  /** The versions answered from entry `i` to entry `j` rise with every put. */
  predicate Rising(log: seq<Entry>, i: nat, j: nat, p: Bytes, k: Bytes)
    requires j < |log|
  {
    forall a, b :: i <= a < b <= j && PutOf(log[a], p, k) && PutOf(log[b], p, k) ==>
      log[a].response.version < log[b].response.version
  }

  lemma {:induction false} LastPutBefore(log: seq<Entry>, i: nat, m: nat, p: Bytes, k: Bytes) returns (a: nat)
    requires i < m <= |log| && PutOf(log[i], p, k)
    ensures i <= a < m && PutOf(log[a], p, k) && forall x :: a < x < m ==> !PutOf(log[x], p, k)
  {
    if PutOf(log[m - 1], p, k) { a := m - 1; } else { a := LastPutBefore(log, i, m - 1, p, k); }
  }

  lemma {:induction false} FirstPutFrom(log: seq<Entry>, m: nat, j: nat, p: Bytes, k: Bytes) returns (b: nat)
    requires m <= j < |log| && PutOf(log[j], p, k)
    ensures m <= b <= j && PutOf(log[b], p, k) && forall x :: m <= x < b ==> !PutOf(log[x], p, k)
    decreases j - m
  {
    if PutOf(log[m], p, k) { b := m; } else { b := FirstPutFrom(log, m + 1, j, p, k); }
  }

  /** A delete between two puts breaks the rise at the puts nearest to it. */
  lemma DeleteBreaksRise(log: seq<Entry>, i: nat, m: nat, j: nat, p: Bytes, k: Bytes)
    requires Faithful(log) && i < m < j < |log|
    requires PutOf(log[i], p, k) && PutOf(log[j], p, k) && DeleteOf(log[m], p, k)
    ensures !Rising(log, i, j, p, k)
  {
    var a := LastPutBefore(log, i, m, p, k);
    var b := FirstPutFrom(log, m, j, p, k);
    assert b != m;
    RestartsAt(log, a, m, b, p, k);
  }

  /** The next put after a delete answers 1, which is no more than any version before. */
  lemma RestartsAt(log: seq<Entry>, a: nat, m: nat, b: nat, p: Bytes, k: Bytes)
    requires Faithful(log) && a < m < b < |log|
    requires PutOf(log[a], p, k) && PutOf(log[b], p, k) && DeleteOf(log[m], p, k)
    requires (forall x :: a < x < m ==> !PutOf(log[x], p, k)) && (forall x :: m <= x < b ==> !PutOf(log[x], p, k))
    ensures log[b].response.version == 1 <= log[a].response.version
  {
    PutAddsOne(log, a, p, k);
    PutAddsOne(log, b, p, k);
    PutsSinceStretch(log, a + 1, b, p, k);
  }

  /**
   The documented monotonic version, exactly: between two puts of a key the
   versions answered rise throughout if and only if no delete succeeded between.
   */
  lemma MonotonicIffNoDelete(log: seq<Entry>, i: nat, j: nat, p: Bytes, k: Bytes)
    requires Faithful(log) && i < j < |log| && PutOf(log[i], p, k) && PutOf(log[j], p, k)
    ensures Rising(log, i, j, p, k) <==> NoDelete(log, i + 1, j, p, k)
  {
    if NoDelete(log, i + 1, j, p, k) {
      forall a, b | i <= a < b <= j && PutOf(log[a], p, k) && PutOf(log[b], p, k)
        ensures log[a].response.version < log[b].response.version
      {
        PutAddsOne(log, a, p, k);
        PutAddsOne(log, b, p, k);
        PutsSinceGrows(log, a + 1, b, p, k);
      }
    } else {
      var m :| i + 1 <= m < j && DeleteOf(log[m], p, k);
      DeleteBreaksRise(log, i, m, j, p, k);
    }
  }

  /** A run in which the version of a key does go back. */
  lemma VersionRestarts(who: Identity, p: Bytes, k: Bytes, v: Bytes, env: Env)
    requires who.scope.None? && Names.ValidProject(p) && Names.ValidKey(k) && Utf8.Valid(v)
    ensures var put, delete := Http(who, PutSecret(p, k, Json(v)), env), Http(who, DeleteSecret(p, k), env);
            var s1 := Perform(EMPTY, Http(who, CreateProject(Json(p)), env)).0;
            var s2 := Perform(s1, put).0;
            var s3 := Perform(s2, put).0;
            && Perform(s2, put).1 == SecretPut(k, 2)
            && Perform(Perform(s3, delete).0, put).1 == SecretPut(k, 1)
  {
  }

  // ---- creation ----

  /** A create of `p` by somebody who may use it. */
  predicate Creates(step: Step, p: Bytes) {
    step.Http? && step.req == CreateProject(Json(p)) && Names.ValidProject(p) && MayUse(step.who, p)
  }

  predicate AnyCreates(log: seq<Entry>, p: Bytes) {
    exists j :: 0 <= j < |log| && Creates(log[j].step, p)
  }

  /** Projects are never deleted, so a name is present exactly when some create got through. */
  lemma {:induction false} PresentIffCreated(log: seq<Entry>, p: Bytes)
    ensures p in Replay(log).projects <==> AnyCreates(log, p)
  {
    if log != [] {
      var init := log[..|log| - 1];
      PresentIffCreated(init, p);
      assert AnyCreates(log, p) <==> AnyCreates(init, p) || Creates(log[|log| - 1].step, p) by {
        if AnyCreates(init, p) {
          var j :| 0 <= j < |init| && Creates(init[j].step, p);
          assert log[j] == init[j];
        }
        if AnyCreates(log, p) {
          var j :| 0 <= j < |log| && Creates(log[j].step, p);
          if j < |init| { assert init[j] == log[j]; }
        }
      }
    }
  }

  /** An entry's answer is the plain map's, and what the plain map holds is what the log says. */
  lemma Answered(log: seq<Entry>, i: nat, p: Bytes)
    requires Faithful(log) && i < |log|
    ensures Faithful(log[..i]) && log[i].response == Perform(Replay(log[..i]), log[i].step).1
    ensures p in Replay(log[..i]).projects <==> AnyCreates(log[..i], p)
  {
    FaithfulPrefix(log, i + 1);
    assert log[..i + 1][..i] == log[..i];
    PresentIffCreated(log[..i], p);
  }

  lemma CreateAnswer(st: Store, step: Step, p: Bytes)
    requires Creates(step, p)
    ensures Perform(st, step).1 == if p in st.projects then Error(Conflict) else ProjectCreated(p)
  {
  }

  /**
   Of any number of racing creates of one name, the first locked section gets
   201 and every other one 409, whatever else runs in between.
   */
  lemma OneCreateWins(log: seq<Entry>, i: nat, p: Bytes)
    requires Faithful(log) && i < |log| && Creates(log[i].step, p)
    ensures log[i].response == if AnyCreates(log[..i], p) then Error(Conflict) else ProjectCreated(p)
  {
    Answered(log, i, p);
    CreateAnswer(Replay(log[..i]), log[i].step, p);
  }

  // ---- answers, from the log alone ----

  /** The value of the last successful put of a key, unless a successful delete came after it. */
  function Latest(log: seq<Entry>, p: Bytes, k: Bytes): Option<Bytes> {
    if log == [] then None else
      var e := log[|log| - 1];
      if PutOf(e, p, k) && e.step.req.value.Json? then Some(e.step.req.value.value)
      else if DeleteOf(e, p, k) then None
      else Latest(log[..|log| - 1], p, k)
  }

  lemma {:induction false} CellIsLatest(log: seq<Entry>, p: Bytes, k: Bytes)
    requires Faithful(log)
    ensures Latest(log, p, k) ==
            match CellIn(Replay(log), p, k) case None => None case Some(c) => Some(c.value)
  {
    if log != [] {
      CellIsLatest(log[..|log| - 1], p, k);
      CellStep(Replay(log[..|log| - 1]), log[|log| - 1].step, p, k);
    }
  }

  predicate Asks(e: Entry, req: Request) {
    e.step.Http? && e.step.req == req
  }

  /**
   A read by a token of the project, or an unscoped one, returns under each key
   the last value put and not deleted since, and no other key.
   */
  lemma GetFromLog(log: seq<Entry>, i: nat, p: Bytes)
    requires Faithful(log) && i < |log| && Asks(log[i], GetSecrets(p)) && Names.ValidProject(p)
    ensures var r := log[i].response;
            if !MayUse(log[i].step.who, p) then r == Error(Forbidden)
            else if !AnyCreates(log[..i], p) then r == Error(NotFound)
            else r.Secrets? && forall k ::
              Latest(log[..i], p, k) == if k in r.values then Some(r.values[k]) else None
  {
    Answered(log, i, p);
    forall k {
      CellIsLatest(log[..i], p, k);
    }
  }

  /** A put by such a token succeeds exactly when the project was created, and counts itself. */
  lemma PutFromLog(log: seq<Entry>, i: nat, p: Bytes, k: Bytes, v: Utf8.Text)
    requires Faithful(log) && i < |log| && Asks(log[i], PutSecret(p, k, Json(v))) && Names.ValidProject(p)
    ensures log[i].response ==
            if !MayUse(log[i].step.who, p) then Error(Forbidden)
            else if !Names.ValidKey(k) then Error(BadRequest("invalid key name"))
            else if AnyCreates(log[..i], p) then SecretPut(k, 1 + PutsSince(log[..i], p, k))
            else Error(NotFound)
  {
    Answered(log, i, p);
    VersionCountsPuts(log[..i], p, k);
  }

  /** A delete by such a token succeeds exactly when the key has a value. */
  lemma DeleteFromLog(log: seq<Entry>, i: nat, p: Bytes, k: Bytes)
    requires Faithful(log) && i < |log| && Asks(log[i], DeleteSecret(p, k))
    requires Names.ValidProject(p) && Names.ValidKey(k)
    ensures log[i].response ==
            if !MayUse(log[i].step.who, p) then Error(Forbidden)
            else if Latest(log[..i], p, k).Some? then NoContent
            else Error(NotFound)
  {
    Answered(log, i, p);
    CellIsLatest(log[..i], p, k);
  }

  // ---- provenance ----

  /** Some logged put of exactly this record succeeded with this value. */
  predicate WasPut(log: seq<Entry>, p: Bytes, k: Bytes, v: Bytes) {
    exists j :: 0 <= j < |log| && PutOf(log[j], p, k)
             && log[j].step.req.value.Json? && log[j].step.req.value.value == v
  }

  lemma WasPutGrows(log: seq<Entry>, log': seq<Entry>, p: Bytes, k: Bytes, v: Bytes)
    requires log <= log' && WasPut(log, p, k, v)
    ensures WasPut(log', p, k, v)
  {
    var j :| 0 <= j < |log| && PutOf(log[j], p, k)
          && log[j].step.req.value.Json? && log[j].step.req.value.value == v;
    assert log'[j] == log[j];
  }

  /** A stored value is one that was put there. */
  lemma {:induction false} CellWasPut(log: seq<Entry>, p: Bytes, k: Bytes)
    requires Faithful(log) && CellIn(Replay(log), p, k).Some?
    ensures WasPut(log, p, k, CellIn(Replay(log), p, k).value.value)
  {
    var init, last := log[..|log| - 1], log[|log| - 1];
    CellStep(Replay(init), last.step, p, k);
    if PutOf(last, p, k) {
      assert PutOf(log[|log| - 1], p, k);
    } else {
      CellWasPut(init, p, k);
      WasPutGrows(init, log, p, k, CellIn(Replay(log), p, k).value.value);
    }
  }

  /** Steps entitled to issue a token for every project: unscoped callers and the local command. */
  predicate IssuesUnscoped(step: Step) {
    || (step.Http? && step.who.scope.None? && step.req.CreateToken?
        && step.req.token.Json? && step.req.token.value.project.None?)
    || (step.CliCreate? && step.project.None?)
  }

  predicate TokenOf(step: Step, hash: Digest) {
    (step.Http? && Sha256(step.env.token) == hash) || (step.CliCreate? && Sha256(step.token) == hash)
  }

  /** Every unscoped token was issued by a step entitled to issue it. */
  lemma {:induction false} UnscopedTokenIssued(log: seq<Entry>, i: nat)
    requires i < |Replay(log).tokens| && Replay(log).tokens[i].scope.None?
    ensures exists j :: 0 <= j < |log| && IssuesUnscoped(log[j].step)
                     && TokenOf(log[j].step, Replay(log).tokens[i].hash)
  {
    var init, last := log[..|log| - 1], log[|log| - 1];
    var ts := Replay(init).tokens;
    TokenStep(Replay(init), last.step, i);
    if i < |ts| {
      UnscopedTokenIssued(init, i);
      var j :| 0 <= j < |init| && IssuesUnscoped(init[j].step) && TokenOf(init[j].step, ts[i].hash);
      assert log[j] == init[j];
    } else {
      assert IssuesUnscoped(log[|log| - 1].step);
    }
  }

  /** A step keeps every token row's hash, scope and expiry, un-revokes none, and appends at most one. */
  lemma TokenStep(st: Store, step: Step, i: nat)
    ensures var ts, ts' := st.tokens, Perform(st, step).0.tokens;
            && |ts| <= |ts'| <= |ts| + 1
            && (i < |ts| ==> TokenEvolves(ts[i], ts'[i]))
            && (|ts| <= i < |ts'| ==> TokenOf(step, ts'[i].hash) && (ts'[i].scope.None? ==> IssuesUnscoped(step)))
  {
  }

  predicate TokenEvolves(t: TokenRow, t': TokenRow) {
    t' == t || t' == t.(revoked := true)
  }
}
