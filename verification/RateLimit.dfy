/**
  * Keys with an expiry, as the API keeps them in Redis. Times are in milliseconds, and a key set with
  * a time to live of w seconds is gone w seconds later.
  */
module RedisKeys {

  type Positive = n: nat | 0 < n witness 1

  datatype Entry = Entry(value: Positive, expiresAt: int)

  type Entries = map<string, Entry>

  predicate Present(entries: Entries, key: string, now: int) {
    key in entries && now < entries[key].expiresAt
  }

  /** A counter after one more event: the window starts at its first event and keeps its end. */
  function Counted(entries: Entries, key: string, ttl: nat, now: int): Entry {
    if Present(entries, key, now) then Entry(entries[key].value + 1, entries[key].expiresAt)
    else Entry(1, now + 1000 * ttl)
  }

  class PrefixedRedis {
    var entries: Entries

    constructor ()
      ensures entries == map[]
    {
      entries := map[];
    }

    /** INCR, then EXPIRE if that made the counter 1, in one script. */
    method IncrWithTtl(key: string, ttlSeconds: nat, now: int) returns (count: nat)
      modifies this
      ensures entries == old(entries)[key := Counted(old(entries), key, ttlSeconds, now)]
      ensures count == entries[key].value
    {
      var expiresAt := 0;
      if Present(entries, key, now) {
        count, expiresAt := entries[key].value + 1, entries[key].expiresAt;
      } else {
        count := 1;
      }
      if count == 1 {
        expiresAt := now + 1000 * ttlSeconds;
      }
      entries := entries[key := Entry(count, expiresAt)];
    }

    /** SET key NX EX ttl: true if the key was not there. */
    method SetNxEx(key: string, ttlSeconds: nat, now: int) returns (wasSet: bool)
      modifies this
      ensures wasSet == !Present(old(entries), key, now)
      ensures entries == if wasSet then old(entries)[key := Entry(1, now + 1000 * ttlSeconds)] else old(entries)
    {
      wasSet := !Present(entries, key, now);
      if wasSet {
        entries := entries[key := Entry(1, now + 1000 * ttlSeconds)];
      }
    }
  }
}

/** The limits on endpoints that send email or call KMS. */
module RateLimits {
  import opened Options
  import opened RedisKeys

  const EMAIL_LIMIT: nat := 5
  const HOUR_SECONDS: nat := 3600

  /** Allowed when Redis is missing or fails; otherwise at most one event per window. */
  method OncePerWindow(redis: PrefixedRedis?, answers: bool, key: string, window: nat, now: int)
    returns (allowed: bool)
    modifies redis
    ensures redis == null || !answers ==> allowed
    ensures redis != null && !answers ==> redis.entries == old(redis.entries)
    ensures redis != null && answers ==>
      && allowed == !Present(old(redis.entries), key, now)
      && redis.entries == if allowed then old(redis.entries)[key := Entry(1, now + 1000 * window)]
                          else old(redis.entries)
  {
    if redis == null || !answers {
      return true;
    }
    allowed := redis.SetNxEx(key, window, now);
  }

  /** Allowed when Redis is missing or fails; otherwise the first `limit` events of a window. */
  method UnderLimit(redis: PrefixedRedis?, answers: bool, key: string, limit: nat, window: nat, now: int)
    returns (allowed: bool)
    modifies redis
    ensures redis == null || !answers ==> allowed
    ensures redis != null && !answers ==> redis.entries == old(redis.entries)
    ensures redis != null && answers ==>
      && redis.entries == old(redis.entries)[key := Counted(old(redis.entries), key, window, now)]
      && allowed == (redis.entries[key].value <= limit)
  {
    if redis == null || !answers {
      return true;
    }
    var count := redis.IncrWithTtl(key, window, now);
    allowed := count <= limit;
  }

  /** One limit as `allow_request` applies it: skipped without a key, passed if Redis fails. */
  function Limited(entries: Entries, answers: bool, key: Option<string>, limit: nat, now: int): (Entries, bool) {
    if key.None? || !answers then (entries, true)
    else
      var entry := Counted(entries, key.value, HOUR_SECONDS, now);
      (entries[key.value := entry], entry.value <= limit)
  }

  /** With Redis answering, one request under a limit: within the hour that the first counted request
    * opened it passes if fewer than `limit` have been counted, and otherwise it opens an hour of its
    * own. No other counter changes. */
  lemma LimitedPerHour(entries: Entries, key: string, limit: nat, now: int)
    ensures var (entries', ok) := Limited(entries, true, Some(key), limit, now);
      && entries'.Keys == entries.Keys + {key}
      && (forall other :: other in entries && other != key ==> entries'[other] == entries[other])
      && (if key in entries && now < entries[key].expiresAt
          then (ok <==> entries[key].value < limit) && entries'[key].value == entries[key].value + 1
               && entries'[key].expiresAt == entries[key].expiresAt
          else (ok <==> 1 <= limit) && entries'[key] == Entry(1, now + 3_600_000))
  {}

  /** The per-IP limit, then the per-email limit; a request stopped by the first does not count
    * towards the second. The keys are None when the address or the email is not known. */
  method AllowRequest(redis: PrefixedRedis?, ipAnswers: bool, emailAnswers: bool,
                      ipKey: Option<string>, ipLimit: nat, emailKey: Option<string>, ipAt: int, emailAt: int)
    returns (allowed: bool)
    modifies redis
    ensures redis == null ==> allowed
    ensures redis != null ==>
      var (byIp, ipOk) := Limited(old(redis.entries), ipAnswers, ipKey, ipLimit, ipAt);
      var (byEmail, emailOk) := Limited(byIp, emailAnswers, emailKey, 5, emailAt);
      allowed == (ipOk && emailOk) && redis.entries == if ipOk then byEmail else byIp
  {
    if ipKey.Some? {
      var ok := UnderLimit(redis, ipAnswers, ipKey.value, ipLimit, HOUR_SECONDS, ipAt);
      if !ok {
        return false;
      }
    }
    if emailKey.Some? {
      var ok := UnderLimit(redis, emailAnswers, emailKey.value, EMAIL_LIMIT, HOUR_SECONDS, emailAt);
      if !ok {
        return false;
      }
    }
    return true;
  }

  // ---------------------------------------------------------------- whole traces

  datatype Hit = Hit(key: string, at: int)

  /** The counts Redis returns for one key's events in a trace of events on any keys. */
  function Counts(entries: Entries, window: nat, hits: seq<Hit>, key: string): seq<nat>
    decreases |hits|
  {
    if hits == [] then []
    else
      var entry := Counted(entries, hits[0].key, window, hits[0].at);
      (if hits[0].key == key then [entry.value] else [])
      + Counts(entries[hits[0].key := entry], window, hits[1..], key)
  }

  /** When the key's events happened. */
  function Times(hits: seq<Hit>, key: string): seq<int>
    decreases |hits|
  {
    if hits == [] then []
    else (if hits[0].key == key then [hits[0].at] else []) + Times(hits[1..], key)
  }

  ghost predicate Ordered(times: seq<int>) {
    forall i, j :: 0 <= i <= j < |times| ==> times[i] <= times[j]
  }

  /** The reference: which event opened the window that event i falls in. */
  function Opener(times: seq<int>, width: nat, i: nat): (o: nat)
    requires i < |times|
    ensures o <= i
  {
    if i == 0 then 0
    else
      var o := Opener(times, width, i - 1);
      if times[i] < times[o] + width then o else i
  }

  /** Event i is within the first `limit` events of its window. */
  predicate Allowed(times: seq<int>, width: nat, limit: nat, i: nat)
    requires i < |times|
  {
    i - Opener(times, width, i) < limit
  }

  /** Each event's place in its window, from event k on. */
  function Places(times: seq<int>, width: nat, k: nat): (places: seq<nat>)
    requires k <= |times|
    ensures |places| == |times| - k
    ensures forall i :: 0 <= i < |places| ==> places[i] == k + i - Opener(times, width, k + i) + 1
    decreases |times| - k
  {
    if k == |times| then [] else [k - Opener(times, width, k) + 1] + Places(times, width, k + 1)
  }

  /** The entry matches what the first k events of the trace leave behind. */
  ghost predicate Tracks(entries: Entries, key: string, window: nat, times: seq<int>, k: nat)
    requires k <= |times|
  {
    if k == 0 then |times| > 0 ==> !Present(entries, key, times[0])
    else
      var o := Opener(times, 1000 * window, k - 1);
      key in entries && entries[key] == Entry(k - o, times[o] + 1000 * window)
  }

  lemma TracksStep(entries: Entries, key: string, window: nat, times: seq<int>, k: nat)
    requires k < |times| && Tracks(entries, key, window, times, k)
    ensures var entry := Counted(entries, key, window, times[k]);
      && Tracks(entries[key := entry], key, window, times, k + 1)
      && entry.value == k - Opener(times, 1000 * window, k) + 1
  {}

  lemma FirstTime(hits: seq<Hit>, key: string, times: seq<int>, k: nat)
    requires hits != [] && k <= |times| && Times(hits, key) == times[k..]
    ensures hits[0].key == key ==> k < |times| && times[k] == hits[0].at && Times(hits[1..], key) == times[k + 1..]
    ensures hits[0].key != key ==> Times(hits[1..], key) == times[k..]
  {
    if hits[0].key == key {
      assert Times(hits, key)[0] == hits[0].at && Times(hits, key)[1..] == Times(hits[1..], key);
      assert times[k..][1..] == times[k + 1..];
    }
  }

  lemma {:induction false} CountsFollowWindows(entries: Entries, window: nat, hits: seq<Hit>, key: string,
                                               times: seq<int>, k: nat)
    requires k <= |times| && Times(hits, key) == times[k..]
    requires Tracks(entries, key, window, times, k)
    ensures Counts(entries, window, hits, key) == Places(times, 1000 * window, k)
    decreases |hits|
  {
    if hits == [] {
      assert k == |times|;
    } else {
      var hit := hits[0];
      var entries' := entries[hit.key := Counted(entries, hit.key, window, hit.at)];
      FirstTime(hits, key, times, k);
      if hit.key == key {
        TracksStep(entries, key, window, times, k);
        CountsFollowWindows(entries', window, hits[1..], key, times, k + 1);
      } else {
        CountsFollowWindows(entries', window, hits[1..], key, times, k);
      }
    }
  }

  /** With Redis answering, `under_limit` lets an event pass exactly when it is among the first `limit`
    * of its window, whatever happens on other keys. */
  lemma LimiterMatchesWindows(entries: Entries, window: nat, limit: nat, hits: seq<Hit>, key: string, i: nat)
    requires i < |Times(hits, key)| && !Present(entries, key, Times(hits, key)[0])
    ensures |Counts(entries, window, hits, key)| == |Times(hits, key)|
    ensures Counts(entries, window, hits, key)[i] <= limit <==>
            Allowed(Times(hits, key), 1000 * window, limit, i)
  {
    var times := Times(hits, key);
    assert times[0..] == times;
    CountsFollowWindows(entries, window, hits, key, times, 0);
  }

  function AfterSetNx(entries: Entries, hit: Hit, window: nat): Entries {
    if Present(entries, hit.key, hit.at) then entries
    else entries[hit.key := Entry(1, hit.at + 1000 * window)]
  }

  /** What SET NX EX answers for one key's events. */
  function Passes(entries: Entries, window: nat, hits: seq<Hit>, key: string): seq<bool>
    decreases |hits|
  {
    if hits == [] then []
    else
      var hit := hits[0];
      (if hit.key == key then [!Present(entries, hit.key, hit.at)] else [])
      + Passes(AfterSetNx(entries, hit, window), window, hits[1..], key)
  }

  function Openings(times: seq<int>, width: nat, k: nat): (opens: seq<bool>)
    requires k <= |times|
    ensures |opens| == |times| - k
    ensures forall i :: 0 <= i < |opens| ==> opens[i] == (Opener(times, width, k + i) == k + i)
    decreases |times| - k
  {
    if k == |times| then [] else [Opener(times, width, k) == k] + Openings(times, width, k + 1)
  }

  ghost predicate Guards(entries: Entries, key: string, window: nat, times: seq<int>, k: nat)
    requires k <= |times|
  {
    if k == 0 then |times| > 0 ==> !Present(entries, key, times[0])
    else
      && key in entries
      && entries[key] == Entry(1, times[Opener(times, 1000 * window, k - 1)] + 1000 * window)
  }

  lemma {:induction false} PassesFollowWindows(entries: Entries, window: nat, hits: seq<Hit>, key: string,
                                               times: seq<int>, k: nat)
    requires k <= |times| && Times(hits, key) == times[k..]
    requires Guards(entries, key, window, times, k) && 0 < window
    ensures Passes(entries, window, hits, key) == Openings(times, 1000 * window, k)
    decreases |hits|
  {
    if hits == [] {
      assert k == |times|;
    } else {
      var hit := hits[0];
      var entries' := AfterSetNx(entries, hit, window);
      FirstTime(hits, key, times, k);
      if hit.key == key {
        GuardsStep(entries, key, window, times, k);
        assert hit == Hit(key, times[k]);
        PassesFollowWindows(entries', window, hits[1..], key, times, k + 1);
      } else {
        GuardsOther(entries, key, window, times, k, hit);
        PassesFollowWindows(entries', window, hits[1..], key, times, k);
      }
    }
  }

  lemma GuardsStep(entries: Entries, key: string, window: nat, times: seq<int>, k: nat)
    requires k < |times| && Guards(entries, key, window, times, k) && 0 < window
    ensures !Present(entries, key, times[k]) <==> Opener(times, 1000 * window, k) == k
    ensures Guards(AfterSetNx(entries, Hit(key, times[k]), window), key, window, times, k + 1)
  {}

  lemma GuardsOther(entries: Entries, key: string, window: nat, times: seq<int>, k: nat, hit: Hit)
    requires k <= |times| && Guards(entries, key, window, times, k) && hit.key != key
    ensures Guards(AfterSetNx(entries, hit, window), key, window, times, k)
  {}

  // ---------------------------------------------------------------- what windows guarantee

  ghost predicate Opens(times: seq<int>, width: nat, i: nat) {
    i < |times| && Opener(times, width, i) == i
  }

  lemma {:induction false} OpenerOpens(times: seq<int>, width: nat, i: nat)
    requires i < |times|
    ensures Opens(times, width, Opener(times, width, i))
  {
    if i > 0 && times[i] < times[Opener(times, width, i - 1)] + width {
      OpenerOpens(times, width, i - 1);
    }
  }

  lemma {:induction false} OpenersAscend(times: seq<int>, width: nat, i: nat, j: nat)
    requires i <= j < |times|
    ensures Opener(times, width, i) <= Opener(times, width, j)
  {
    if i < j {
      OpenersAscend(times, width, i, j - 1);
    }
  }

  /** Window starts are at least a window apart. */
  lemma {:induction false} StartsAreApart(times: seq<int>, width: nat, i: nat, j: nat)
    requires Ordered(times) && i < j && Opens(times, width, i) && Opens(times, width, j)
    ensures times[i] + width <= times[j]
  {
    var o := Opener(times, width, j - 1);
    OpenersAscend(times, width, i, j - 1);
    OpenerOpens(times, width, j - 1);
    assert times[i] <= times[o];
  }

  ghost function AllowedIn(times: seq<int>, width: nat, limit: nat, lo: nat, hi: nat): set<nat>
    requires lo <= hi <= |times|
  {
    set i | lo <= i < hi && Allowed(times, width, limit, i)
  }

  ghost function Range(lo: nat, hi: nat): (r: set<nat>)
    requires lo <= hi
    ensures forall i :: i in r <==> lo <= i < hi
    ensures |r| == hi - lo
    decreases hi - lo
  {
    if lo == hi then {} else {lo} + Range(lo + 1, hi)
  }

  /** A window with n events allows exactly min(n, limit) of them. */
  lemma WindowAllowsMin(times: seq<int>, width: nat, limit: nat, lo: nat, hi: nat)
    requires lo <= hi <= |times|
    requires forall i :: lo <= i < hi ==> Opener(times, width, i) == lo
    ensures |AllowedIn(times, width, limit, lo, hi)| == if hi - lo < limit then hi - lo else limit
  {
    var top := if hi - lo < limit then hi else lo + limit;
    assert AllowedIn(times, width, limit, lo, hi) == Range(lo, top);
  }

  lemma PartOfWindowAllowsAtMost(times: seq<int>, width: nat, limit: nat, o: nat, lo: nat, hi: nat)
    requires o <= lo <= hi <= |times|
    requires forall i :: lo <= i < hi ==> Opener(times, width, i) == o
    ensures |AllowedIn(times, width, limit, lo, hi)| <= limit
  {
    assert AllowedIn(times, width, limit, lo, hi) <= Range(o, o + limit);
    SubsetSize(AllowedIn(times, width, limit, lo, hi), Range(o, o + limit));
  }

  lemma {:induction false} SubsetSize(a: set<nat>, b: set<nat>)
    requires a <= b
    ensures |a| <= |b|
  {
    if a != {} {
      var x :| x in a;
      SubsetSize(a - {x}, b - {x});
    }
  }

  /** An event that opens the next window is later than any event of this one. */
  lemma LaterOpener(times: seq<int>, width: nat, lo: nat, k: nat)
    requires lo < k && Opens(times, width, k) && 0 < width
    requires Opener(times, width, k - 1) == Opener(times, width, lo)
    ensures times[lo] < times[k]
  {
    var o := Opener(times, width, lo);
    assert times[lo] < times[o] + width <= times[k];
  }

  lemma AllowedSplits(times: seq<int>, width: nat, limit: nat, lo: nat, k: nat, hi: nat)
    requires lo <= k <= hi <= |times|
    ensures |AllowedIn(times, width, limit, lo, hi)|
         == |AllowedIn(times, width, limit, lo, k)| + |AllowedIn(times, width, limit, k, hi)|
  {
    assert AllowedIn(times, width, limit, lo, hi)
        == AllowedIn(times, width, limit, lo, k) + AllowedIn(times, width, limit, k, hi);
    assert AllowedIn(times, width, limit, lo, k) !! AllowedIn(times, width, limit, k, hi);
  }

  /** Of the events in any interval of one window's length, both ends included, at most twice the limit
    * are allowed. */
  lemma AtMostTwiceTheLimit(times: seq<int>, width: nat, limit: nat, lo: nat, hi: nat)
    requires Ordered(times) && lo < hi <= |times| && times[hi - 1] <= times[lo] + width && 0 < width
    ensures |AllowedIn(times, width, limit, lo, hi)| <= 2 * limit
  {
    var o := Opener(times, width, lo);
    if forall i :: lo <= i < hi ==> Opener(times, width, i) == o {
      PartOfWindowAllowsAtMost(times, width, limit, o, lo, hi);
    } else {
      var k := FirstChange(times, width, lo, hi);
      LaterOpener(times, width, lo, k);
      SecondWindow(times, width, lo, k, hi);
      PartOfWindowAllowsAtMost(times, width, limit, o, lo, k);
      PartOfWindowAllowsAtMost(times, width, limit, k, k, hi);
      AllowedSplits(times, width, limit, lo, k, hi);
    }
  }

  /** The first event of the range that opened a window of its own. */
  lemma FirstChange(times: seq<int>, width: nat, lo: nat, hi: nat) returns (k: nat)
    requires lo < hi <= |times|
    requires exists i :: lo <= i < hi && Opener(times, width, i) != Opener(times, width, lo)
    ensures lo < k < hi && Opens(times, width, k)
    ensures forall i :: lo <= i < k ==> Opener(times, width, i) == Opener(times, width, lo)
  {
    k := lo;
    while Opener(times, width, k) == Opener(times, width, lo)
      invariant lo <= k < hi
      invariant forall i :: lo <= i < k ==> Opener(times, width, i) == Opener(times, width, lo)
      decreases hi - k
    {
      if k + 1 == hi {
        assert false;
      }
      k := k + 1;
    }
  }

  lemma {:induction false} SecondWindow(times: seq<int>, width: nat, lo: nat, k: nat, hi: nat)
    requires Ordered(times) && lo < k < hi <= |times| && Opens(times, width, k)
    requires times[hi - 1] <= times[lo] + width && times[lo] < times[k]
    ensures forall i :: k <= i < hi ==> Opener(times, width, i) == k
    decreases hi
  {
    if k + 1 < hi {
      SecondWindow(times, width, lo, k, hi - 1);
      assert times[hi - 1] < times[k] + width;
    }
  }

  /** `once_per_window`: any two events it lets pass are at least a window apart. */
  lemma OnceMeansApart(entries: Entries, window: nat, hits: seq<Hit>, key: string, i: nat, j: nat)
    requires i < j < |Times(hits, key)| && !Present(entries, key, Times(hits, key)[0])
    requires Ordered(Times(hits, key)) && 0 < window
    ensures |Passes(entries, window, hits, key)| == |Times(hits, key)|
    ensures Passes(entries, window, hits, key)[i] && Passes(entries, window, hits, key)[j] ==>
              Times(hits, key)[i] + 1000 * window <= Times(hits, key)[j]
  {
    var times := Times(hits, key);
    assert times[0..] == times;
    PassesFollowWindows(entries, window, hits, key, times, 0);
    if Passes(entries, window, hits, key)[i] && Passes(entries, window, hits, key)[j] {
      StartsAreApart(times, 1000 * window, i, j);
    }
  }
}
