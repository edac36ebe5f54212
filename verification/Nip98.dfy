/** NIP-98 service authentication: a two-sided freshness window and a replay record that outlives it. */
module Nip98 {
  import opened RedisKeys

  const MAX_AGE_SECONDS: int := 60
  const REPLAY_TTL_SECONDS: nat := 120

  /** One request with an envelope. The clock is read once for freshness and once more by Redis. */
  datatype Attempt = Attempt(id: string, createdAt: int, wellFormed: bool, checkedAt: int, recordedAt: int,
                             redisAnswers: bool)

  datatype Verdict = Accepted | Unauthorized | Unavailable

  /** The clock's whole seconds are within 60 of `created_at`, on either side. */
  predicate Fresh(createdAt: int, now: int) {
    -MAX_AGE_SECONDS <= now / 1000 - createdAt <= MAX_AGE_SECONDS
  }

  function ReplayKey(id: string): string {
    "nip98_replay:" + id
  }

  /** Freshness and form first, so that a refused envelope leaves no record; no answer from Redis is a
    * refusal. */
  function Authenticated(entries: Entries, a: Attempt): (Entries, Verdict) {
    if !a.wellFormed || !Fresh(a.createdAt, a.checkedAt) then (entries, Unauthorized)
    else if !a.redisAnswers then (entries, Unavailable)
    else if Present(entries, ReplayKey(a.id), a.recordedAt) then (entries, Unauthorized)
    else (entries[ReplayKey(a.id) := Entry(1, a.recordedAt + 1000 * REPLAY_TTL_SECONDS)], Accepted)
  }

  method Authenticate(redis: PrefixedRedis, a: Attempt) returns (verdict: Verdict)
    modifies redis
    ensures (redis.entries, verdict) == Authenticated(old(redis.entries), a)
  {
    if !a.wellFormed {
      return Unauthorized;
    }
    var age := a.checkedAt / 1000 - a.createdAt;
    if age > MAX_AGE_SECONDS || -age > MAX_AGE_SECONDS {
      return Unauthorized;
    }
    if !a.redisAnswers {
      return Unavailable;
    }
    var first := redis.SetNxEx(ReplayKey(a.id), REPLAY_TTL_SECONDS, a.recordedAt);
    verdict := if first then Accepted else Unauthorized;
  }

  function Exec(entries: Entries, attempts: seq<Attempt>): Entries
    decreases |attempts|
  {
    if attempts == [] then entries else Exec(Authenticated(entries, attempts[0]).0, attempts[1..])
  }

  // ---------------------------------------------------------------- verdicts from the attempts alone

  lemma {:induction false} ExecConcat(entries: Entries, p: seq<Attempt>, q: seq<Attempt>)
    ensures Exec(entries, p + q) == Exec(Exec(entries, p), q)
    decreases |p|
  {
    if p == [] {
      assert p + q == q;
    } else {
      assert (p + q)[0] == p[0] && (p + q)[1..] == p[1..] + q;
      ExecConcat(Authenticated(entries, p[0]).0, p[1..], q);
    }
  }

  /** The verdict on the i-th of a run of attempts that starts without records. */
  function VerdictAt(attempts: seq<Attempt>, i: nat): Verdict
    requires i < |attempts|
  {
    Authenticated(Exec(map[], attempts[..i]), attempts[i]).1
  }

  /** One of the first n attempts with this id was accepted, and recorded less than 120 seconds before. */
  ghost predicate AcceptedWithin(attempts: seq<Attempt>, n: nat, id: string, now: int)
    requires n <= |attempts|
  {
    exists j :: 0 <= j < n && attempts[j].id == id && VerdictAt(attempts, j) == Accepted
                && now < attempts[j].recordedAt + 120_000
  }

  lemma OneMoreAttempt(attempts: seq<Attempt>, n: nat)
    requires n < |attempts|
    ensures Exec(map[], attempts[..n + 1]) == Authenticated(Exec(map[], attempts[..n]), attempts[n]).0
  {
    assert attempts[..n + 1] == attempts[..n] + [attempts[n]];
    ExecConcat(map[], attempts[..n], [attempts[n]]);
    assert [attempts[n]][1..] == [];
  }

  lemma KeysDiffer(id: string, other: string)
    ensures ReplayKey(id) == ReplayKey(other) <==> id == other
  {
    assert ReplayKey(id)[|"nip98_replay:"|..] == id;
    assert ReplayKey(other)[|"nip98_replay:"|..] == other;
  }

  lemma {:induction false} RecordsAre(attempts: seq<Attempt>, n: nat, id: string, now: int)
    requires n <= |attempts|
    ensures Present(Exec(map[], attempts[..n]), ReplayKey(id), now) <==> AcceptedWithin(attempts, n, id, now)
  {
    if n > 0 {
      var a := attempts[n - 1];
      RecordsAre(attempts, n - 1, id, now);
      OneMoreAttempt(attempts, n - 1);
      KeysDiffer(id, a.id);
      if a.id == id && VerdictAt(attempts, n - 1) == Accepted {
        RecordsAre(attempts, n - 1, id, a.recordedAt);
      }
      WithinGrows(attempts, n - 1, id, now);
    }
  }

  lemma WithinGrows(attempts: seq<Attempt>, n: nat, id: string, now: int)
    requires n < |attempts|
    ensures AcceptedWithin(attempts, n + 1, id, now) <==>
      || AcceptedWithin(attempts, n, id, now)
      || (attempts[n].id == id && VerdictAt(attempts, n) == Accepted && now < attempts[n].recordedAt + 120_000)
  {}

  /** The verdicts of every run, from the attempts alone: accepted if and only if the envelope is in form,
    * the clock's whole second is within 60 of its creation, Redis answers, and no earlier attempt with
    * its id was accepted within the last 120 seconds; unavailable if only Redis is in the way. */
  lemma VerdictsAre(attempts: seq<Attempt>, i: nat)
    requires i < |attempts|
    ensures var a := attempts[i];
      var admissible := a.wellFormed && -60 <= a.checkedAt / 1000 - a.createdAt <= 60;
      && (VerdictAt(attempts, i) == Accepted <==>
            admissible && a.redisAnswers && !AcceptedWithin(attempts, i, a.id, a.recordedAt))
      && (VerdictAt(attempts, i) == Unavailable <==> admissible && !a.redisAnswers)
  {
    RecordsAre(attempts, i, attempts[i].id, attempts[i].recordedAt);
  }

  /** An attempt that is not accepted changes no later verdict. */
  lemma RefusalLeavesNoTrace(before: seq<Attempt>, refused: Attempt, after: seq<Attempt>, later: Attempt)
    requires Authenticated(Exec(map[], before), refused).1 != Accepted
    ensures Authenticated(Exec(map[], before + [refused] + after), later)
         == Authenticated(Exec(map[], before + after), later)
  {
    ExecConcat(map[], before + [refused], after);
    ExecConcat(map[], before, [refused]);
    ExecConcat(map[], before, after);
    assert [refused][1..] == [];
  }

  // ---------------------------------------------------------------- replays

  /** The replay record of this envelope lasts at least until then. */
  ghost predicate Recorded(entries: Entries, id: string, until: int) {
    ReplayKey(id) in entries && until <= entries[ReplayKey(id)].expiresAt
  }

  lemma RecordStep(entries: Entries, id: string, until: int, a: Attempt)
    requires Recorded(entries, id, until)
    ensures Recorded(Authenticated(entries, a).0, id, until)
  {}

  lemma {:induction false} RecordLasts(entries: Entries, id: string, until: int, attempts: seq<Attempt>)
    requires Recorded(entries, id, until)
    ensures Recorded(Exec(entries, attempts), id, until)
    decreases |attempts|
  {
    if attempts != [] {
      RecordStep(entries, id, until, attempts[0]);
      RecordLasts(Authenticated(entries, attempts[0]).0, id, until, attempts[1..]);
    }
  }

  /** Two acceptances of one envelope, in any run: the second is recorded at least the record's life
    * after the first. So if no request waits more than `delay` between its two looks at the clock,
    * the first was checked no later than `delay` after the earliest second that counts as fresh. */
  lemma AcceptedTwiceOnlyAtTheEdge(entries: Entries, first: Attempt, between: seq<Attempt>, second: Attempt, delay: nat)
    requires first.id == second.id && first.createdAt == second.createdAt
    requires first.checkedAt <= first.recordedAt && second.recordedAt <= second.checkedAt + delay
    requires Authenticated(entries, first).1.Accepted?
    requires Authenticated(Exec(Authenticated(entries, first).0, between), second).1.Accepted?
    ensures first.recordedAt + 1000 * REPLAY_TTL_SECONDS <= second.recordedAt
    ensures first.checkedAt <= 1000 * (first.createdAt - MAX_AGE_SECONDS) + 999 + delay
  {
    var until := first.recordedAt + 1000 * REPLAY_TTL_SECONDS;
    RecordLasts(Authenticated(entries, first).0, first.id, until, between);
  }

  /** On one millisecond clock, an envelope first accepted in a second later than `created_at - 60` is
    * never accepted again, whatever other requests are made. */
  lemma AcceptedAtMostOnce(entries: Entries, first: Attempt, between: seq<Attempt>, second: Attempt)
    requires first.id == second.id && first.createdAt == second.createdAt
    requires first.checkedAt == first.recordedAt && second.checkedAt == second.recordedAt
    requires Authenticated(entries, first).1.Accepted?
    requires first.checkedAt / 1000 > first.createdAt - MAX_AGE_SECONDS
    ensures !Authenticated(Exec(Authenticated(entries, first).0, between), second).1.Accepted?
  {
    if Authenticated(Exec(Authenticated(entries, first).0, between), second).1.Accepted? {
      AcceptedTwiceOnlyAtTheEdge(entries, first, between, second, 0);
    }
  }

  function At(a: Attempt, now: int): Attempt {
    a.(checkedAt := now, recordedAt := now)
  }

  /** The bound is exact: after an acceptance some later repetition is accepted if and only if the
    * acceptance fell in the second `created_at - 60` itself. If the record still counts in the
    * millisecond in which it expires, the last millisecond of that second is safe too. */
  lemma ReplayableIff(entries: Entries, a: Attempt, now: int)
    requires Authenticated(entries, At(a, now)).1.Accepted?
    ensures (exists later :: now <= later
               && Authenticated(Authenticated(entries, At(a, now)).0, At(a, later)).1.Accepted?)
       <==> now / 1000 == a.createdAt - MAX_AGE_SECONDS
    ensures (exists later :: now + 1000 * REPLAY_TTL_SECONDS < later
               && Authenticated(Authenticated(entries, At(a, now)).0, At(a, later)).1.Accepted?)
       <==> now / 1000 == a.createdAt - MAX_AGE_SECONDS && now % 1000 < 999
  {
    var entries' := Authenticated(entries, At(a, now)).0;
    var end := now + 1000 * REPLAY_TTL_SECONDS;
    if now / 1000 == a.createdAt - MAX_AGE_SECONDS {
      assert end / 1000 == a.createdAt + MAX_AGE_SECONDS;
      assert Authenticated(entries', At(a, end)).1.Accepted?;
      if now % 1000 < 999 {
        assert (end + 1) / 1000 == a.createdAt + MAX_AGE_SECONDS;
        assert Authenticated(entries', At(a, end + 1)).1.Accepted?;
      }
    } else {
      forall later | now <= later ensures !Authenticated(entries', At(a, later)).1.Accepted? {
        AcceptedAtMostOnce(entries, At(a, now), [], At(a, later));
      }
    }
  }

  /** Concretely: created at second 60, accepted at time 0, and again half a second after its record has
    * expired. */
  lemma EnvelopeIsReplayed(id: string)
    ensures var first := Attempt(id, 60, true, 0, 0, true);
      var (entries, verdict) := Authenticated(map[], first);
      verdict.Accepted? && Authenticated(entries, At(first, 120_500)).1.Accepted?
  {
    var first := Attempt(id, 60, true, 0, 0, true);
    assert Fresh(60, 0) && Fresh(60, 120_500);
    assert Authenticated(map[], first) == (map[ReplayKey(id) := Entry(1, 120_000)], Accepted);
  }
}
