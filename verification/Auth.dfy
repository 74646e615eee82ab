/** Bearer-token authentication: the scan, its meaning, and what happens to tokens over time. */
module Auth {
  import opened Prelude
  import opened Aead
  import opened Repo
  import opened History

  /** Constant-time equality decides ordinary equality; here digests carry their preimage. */
  predicate CtEq(a: Digest, b: Digest) {
    a == b
  }

  /** `authenticate`: scan every row, skipping revoked and expired ones, without stopping at a match. */
  method Scan(ts: seq<TokenRow>, presented: Digest, now: int) returns (found: Option<Identity>)
    ensures found == Authenticate(ts, presented, now)
    ensures found.Some? <==> exists i :: 0 <= i < |ts| && Accepts(ts[i], presented, now)
  {
    found := None;
    var i := 0;
    while i < |ts|
      invariant 0 <= i <= |ts|
      invariant found == Authenticate(ts[..i], presented, now)
    {
      var t := ts[i];
      assert ts[..i + 1][..i] == ts[..i];
      i := i + 1;
      if t.revoked {
        continue;
      }
      if t.expiresAt.Some? && !(t.expiresAt.value.At? && t.expiresAt.value.time > now) {
        continue;
      }
      if CtEq(t.hash, presented) {
        found := Some(Identity(t.name, t.scope));
      }
    }
    assert ts[..i] == ts;
  }

  ghost predicate DistinctHashes(ts: seq<TokenRow>) {
    forall i, j :: 0 <= i < j < |ts| ==> ts[i].hash != ts[j].hash
  }

  /** With distinct hashes the result does not depend on the order of the rows. */
  lemma OrderIrrelevant(ts: seq<TokenRow>, ts': seq<TokenRow>, hash: Digest, now: int)
    requires DistinctHashes(ts) && multiset(ts) == multiset(ts')
    ensures Authenticate(ts, hash, now) == Authenticate(ts', hash, now)
  {
    var a, b := AuthIndex(ts, hash, now), AuthIndex(ts', hash, now);
    assert forall t :: t in ts <==> t in multiset(ts);
    assert forall t :: t in ts' <==> t in multiset(ts');
    if a.Some? { assert ts[a.value] in ts'; }
    if b.Some? { assert ts'[b.value] in ts; }
  }

  lemma StaysDead(t: TokenRow, t': TokenRow, now: int, now': int)
    requires TokenEvolves(t, t') && now <= now' && !Live(t, now)
    ensures !Live(t', now')
  {
  }

  /** Along any continuation a token row keeps its hash, scope and expiry, and is never un-revoked. */
  lemma {:induction false} RowsEvolve(log: seq<Entry>, log': seq<Entry>, i: nat)
    requires log <= log' && i < |Replay(log).tokens|
    ensures i < |Replay(log').tokens| && TokenEvolves(Replay(log).tokens[i], Replay(log').tokens[i])
    decreases |log'|
  {
    if |log| == |log'| {
      assert log == log';
    } else {
      var init := log'[..|log'| - 1];
      RowsEvolve(log, init, i);
      TokenStep(Replay(init), log'[|log'| - 1].step, i);
    }
  }

  /** A row once revoked or expired authenticates nothing at any later time of any continuation. */
  lemma DeadNeverAuthenticates(log: seq<Entry>, log': seq<Entry>, i: nat, now: int, now': int, hash: Digest)
    requires log <= log' && now <= now'
    requires i < |Replay(log).tokens| && !Live(Replay(log).tokens[i], now)
    ensures AuthIndex(Replay(log').tokens, hash, now') != Some(i)
  {
    RowsEvolve(log, log', i);
    StaysDead(Replay(log).tokens[i], Replay(log').tokens[i], now, now');
  }

  // ---- issuing and revoking ----

  /** An issued token authenticates as what was issued, exactly until it expires. */
  lemma IssuedTokenWorks(ts: seq<TokenRow>, name: Bytes, hash: Digest, scope: Option<Bytes>,
                         expiresAt: Option<Expiry>, now: int, later: int)
    ensures var ts' := InsertToken(ts, name, hash, scope, expiresAt, now);
            var live := expiresAt.None? || (expiresAt.value.At? && later < expiresAt.value.time);
            Authenticate(ts', hash, later) ==
            if live then Some(Identity(name, scope)) else Authenticate(ts, hash, later)
  {
    var ts' := InsertToken(ts, name, hash, scope, expiresAt, now);
    assert ts'[..|ts'| - 1] == ts;
  }

  function Active(ts: seq<TokenRow>, name: Bytes): set<int> {
    set i | 0 <= i < |ts| && ts[i].name == name && !ts[i].revoked
  }

  /** The answered count is the number of rows that were active. */
  lemma {:induction false} RevokeCounts(ts: seq<TokenRow>, name: Bytes)
    ensures RevokeToken(ts, name).1 == |Active(ts, name)|
  {
    if ts == [] {
      assert Active(ts, name) == {};
    } else {
      var n := |ts| - 1;
      RevokeCounts(ts[..n], name);
      if ts[n].name == name && !ts[n].revoked {
        assert Active(ts, name) == Active(ts[..n], name) + {n};
      } else {
        assert Active(ts, name) == Active(ts[..n], name);
      }
    }
  }

  /** After a revocation nobody authenticates under that name; everybody else is unaffected. */
  lemma RevokedNameIsGone(ts: seq<TokenRow>, name: Bytes, hash: Digest, now: int)
    requires DistinctHashes(ts)
    ensures Authenticate(RevokeToken(ts, name).0, hash, now) ==
            match Authenticate(ts, hash, now)
            case None => None
            case Some(who) => if who.name == name then None else Some(who)
  {
    var ts' := RevokeToken(ts, name).0;
    var a, b := AuthIndex(ts, hash, now), AuthIndex(ts', hash, now);
    if a.Some? && ts[a.value].name != name { assert Accepts(ts'[a.value], hash, now); }
    if b.Some? { assert Accepts(ts[b.value], hash, now); }
  }
}
