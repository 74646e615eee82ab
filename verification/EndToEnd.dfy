/** Statements that span server and client. */
module EndToEnd {
  import opened Prelude
  import opened Repo
  import opened Protocol
  import opened History
  import opened Lifecycle
  import opened Reachability
  import opened ClientApi
  import Cache
  import Dotenv
  import Names
  import Store
  import Utf8

  // ---- what the client receives ----

  lemma PutKeyValid(log: seq<Entry>, p: Bytes, k: Bytes, v: Bytes)
    requires Faithful(log) && WasPut(log, p, k, v)
    ensures Names.ValidKey(k)
  {
    var j :| 0 <= j < |log| && PutOf(log[j], p, k)
          && log[j].step.req.value.Json? && log[j].step.req.value.value == v;
    FaithfulPrefix(log, j + 1);
    assert log[..j + 1][..j] == log[..j];
    assert log[j].response == Perform(Replay(log[..j]), log[j].step).1;
  }

  /** Every map a server ever answers with has only keys the client admits. */
  lemma AnswerKeysValid(events: seq<Event>, i: nat)
    requires var log := Run(INITIAL, events).log; i < |log| && log[i].response.Secrets?
    ensures Cache.ValidKeys(Run(INITIAL, events).log[i].response.values)
  {
    AnswersAreSequential(events);
    RunInv(events);
    var log := Run(INITIAL, events).log;
    FaithfulPrefix(log, i);
    forall k | k in log[i].response.values ensures Names.ValidKey(k) {
      AnswerKey(log[..i], log[i].step, k);
    }
  }

  /** The client accepts a server's answer unchanged exactly when its encoding is within the response cap. */
  lemma ClientAcceptsAnswers(events: seq<Event>, i: nat, size: nat)
    requires var log := Run(INITIAL, events).log; i < |log| && log[i].response.Secrets?
    ensures var values := Run(INITIAL, events).log[i].response.values;
            Fetch(Exchange.Body(values, size)) ==
            if size <= 1048576 then Ok(values) else Err(UnexpectedResponse)
  {
    AnswerKeysValid(events, i);
  }

  /**
   The server puts no such cap on a project: two values of 600 KiB are accepted one
   by one, and the answer that holds both, whose encoding contains every octet of
   them, is refused by the client.
   */
  lemma AnswerBeyondCap(who: Identity, p: Bytes, k: Bytes, k': Bytes, v: Utf8.Text, env: Env, size: nat)
    requires who.scope.None? && Names.ValidProject(p) && Names.ValidKey(k) && Names.ValidKey(k') && k != k'
    requires |v| == 600 * 1024 && size >= |v| + |v|
    ensures var s1 := Perform(Store.EMPTY, Http(who, CreateProject(Json(p)), env)).0;
            var (s2, r2) := Perform(s1, Http(who, PutSecret(p, k, Json(v)), env));
            var (s3, r3) := Perform(s2, Http(who, PutSecret(p, k', Json(v)), env));
            var answer := Perform(s3, Http(who, GetSecrets(p), env)).1;
            && r2 == SecretPut(k, 1) && r3 == SecretPut(k', 1)
            && answer == Secrets(map[k := v, k' := v])
            && Fetch(Exchange.Body(answer.values, size)) == Err(UnexpectedResponse)
  {
    assert Store.Values(map[k := Store.Cell(v, 1), k' := Store.Cell(v, 1)]) == map[k := v, k' := v];
    assert map[][k := Store.Cell(v, 1)][k' := Store.Cell(v, 1)] == map[k := Store.Cell(v, 1), k' := Store.Cell(v, 1)];
  }

  lemma AnswerKey(log: seq<Entry>, step: Step, k: Bytes)
    requires Faithful(log) && Perform(Replay(log), step).1.Secrets?
    requires k in Perform(Replay(log), step).1.values
    ensures Names.ValidKey(k)
  {
    var p := step.req.project;
    CellWasPut(log, p, k);
    PutKeyValid(log, p, k, CellIn(Replay(log), p, k).value.value);
  }

  /** An answer within the cap, fetched and printed as dotenv, reads back as the answer. */
  lemma AnswersExportFaithfully(events: seq<Event>, i: nat, size: nat)
    requires var log := Run(INITIAL, events).log; i < |log| && log[i].response.Secrets?
    ensures var values := Run(INITIAL, events).log[i].response.values;
            match Fetch(Exchange.Body(values, size))
            case Ok(m) => size <= MAX_RESPONSE_BYTES && Dotenv.Read(Dotenv.Dotenv(m)) == Some(values)
            case Err(_) => size > MAX_RESPONSE_BYTES
  {
    ClientAcceptsAnswers(events, i, size);
    AnswerKeysValid(events, i);
    Dotenv.ExportRoundTrip(Run(INITIAL, events).log[i].response.values);
  }
}
