/** The in-memory rate limiter: per (user, path) expiry times, purged at most once a minute. */
module RateLimiting {
  type Key = (string, string)
  type Records = map<Key, int>

  const CLEANUP_INTERVAL := 60

  function Expiry(records: Records, key: Key): int { if key in records then records[key] else 0 }

  function SecondsLeft(records: Records, key: Key, now: int): int {
    var left := Expiry(records, key) - now;
    if left > 0 then left else 0
  }

  /** Drops the records that have expired. */
  function Purge(records: Records, now: int): Records {
    map k | k in records && now < records[k] :: records[k]
  }

  datatype Limiter = Limiter(records: Records, lastCleanup: int) {
    function MaybeCleanup(now: int): Limiter {
      if now - lastCleanup < CLEANUP_INTERVAL then this else Limiter(Purge(records, now), now)
    }

    /** A check reads the clock twice: once to clean up and once to decide. */
    function Check(key: Key, seconds: int, cleanupAt: int, now: int): (Limiter, bool) {
      var cleaned := MaybeCleanup(cleanupAt);
      if now < Expiry(cleaned.records, key) then (cleaned, false)
      else (cleaned.(records := cleaned.records[key := now + seconds]), true)
    }
  }

  /** What callers can ask; the clock readings of a call are part of it. */
  datatype Call =
    | Check(key: Key, seconds: int, cleanupAt: int, now: int)
    | Remaining(key: Key, now: int)
  {
    ghost predicate From(clock: int) {
      match this
      case Check(_, _, c, n) => clock <= c <= n
      case Remaining(_, n) => clock <= n
    }
  }

  datatype Answer = Allowed(yes: bool) | Left(seconds: int)

  ghost predicate MonotoneCalls(calls: seq<Call>, clock: int) {
    calls == [] || (calls[0].From(clock) && MonotoneCalls(calls[1..], calls[0].now))
  }

  function Answers(limiter: Limiter, calls: seq<Call>): (r: seq<Answer>)
    ensures |r| == |calls|
    decreases |calls|
  {
    if calls == [] then []
    else match calls[0]
      case Check(k, s, c, n) =>
        var (after, yes) := limiter.Check(k, s, c, n);
        [Allowed(yes)] + Answers(after, calls[1..])
      case Remaining(k, n) => [Left(SecondsLeft(limiter.records, k, n))] + Answers(limiter, calls[1..])
  }

  /** A limiter that forgets nothing: every allowed check is kept for ever. */
  function Unforgetting(records: Records, calls: seq<Call>): (r: seq<Answer>)
    ensures |r| == |calls|
    decreases |calls|
  {
    if calls == [] then []
    else match calls[0]
      case Check(k, s, _, n) =>
        if n < Expiry(records, k) then [Allowed(false)] + Unforgetting(records, calls[1..])
        else [Allowed(true)] + Unforgetting(records[k := n + s], calls[1..])
      case Remaining(k, n) => [Left(SecondsLeft(records, k, n))] + Unforgetting(records, calls[1..])
  }

  /** The purged table agrees with the full one wherever the full one still matters. */
  ghost predicate Agrees(records: Records, full: Records, clock: int) {
    && (forall k :: k in records ==> k in full && full[k] == records[k])
    && (forall k :: k in full && k !in records ==> full[k] <= clock)
  }

  /** Periodic cleanup is invisible: every call gets the answer of a limiter that never forgets. */
  lemma {:induction false} CleanupInvisible(limiter: Limiter, full: Records, calls: seq<Call>, clock: int)
    requires 0 <= clock && MonotoneCalls(calls, clock)
    requires Agrees(limiter.records, full, clock)
    ensures Answers(limiter, calls) == Unforgetting(full, calls)
    decreases |calls|
  {
    if calls != [] {
      match calls[0]
      case Remaining(k, n) =>
        CleanupInvisible(limiter, full, calls[1..], n);
      case Check(k, s, c, n) =>
        var (after, yes) := limiter.Check(k, s, c, n);
        var full' := if yes then full[k := n + s] else full;
        CleanupInvisible(after, full', calls[1..], n);
    }
  }

  /** Check `i` was allowed, and call `j` on its key comes within its seconds. */
  ghost predicate Blocks(answers: seq<Answer>, calls: seq<Call>, i: int, j: int) {
    && 0 <= i < j < |calls| == |answers|
    && calls[i].Check? && answers[i] == Allowed(true) && calls[i].key == calls[j].key
    && calls[j].now < calls[i].now + calls[i].seconds
  }

  /** The answer that fits a blocking check, or none. */
  function Told(c: Call, expiry: int): Answer {
    match c
    case Check(_, _, _, n) => Allowed(n >= expiry)
    case Remaining(_, n) => Left(if n < expiry then expiry - n else 0)
  }

  /** Over any calls of a new limiter: a check is refused, and a wait of so many seconds is reported, if and only if
      an allowed check of the key lies less than its seconds back; the wait is what is left of those. */
  lemma AnswersExact(limiter: Limiter, calls: seq<Call>, clock: int, i: int, j: nat)
    requires limiter.records == map[] && 0 <= clock && MonotoneCalls(calls, clock) && j < |calls|
    ensures var answers := Answers(limiter, calls);
            && (Blocks(answers, calls, i, j) ==> answers[j] == Told(calls[j], calls[i].now + calls[i].seconds))
            && ((forall k :: !Blocks(answers, calls, k, j)) ==> answers[j] == Told(calls[j], calls[j].now))
  {
    CleanupInvisible(limiter, map[], calls, clock);
    NowBefore(calls, clock, j, j);
    FullExact(map[], calls, clock, i, j);
  }

  lemma {:induction false} FullExact(full: Records, calls: seq<Call>, clock: int, i: int, j: nat)
    requires MonotoneCalls(calls, clock) && j < |calls|
    ensures var answers, e := Unforgetting(full, calls), Expiry(full, calls[j].key);
            && (Blocks(answers, calls, i, j) ==> answers[j] == Told(calls[j], calls[i].now + calls[i].seconds))
            && ((forall k :: !Blocks(answers, calls, k, j)) ==>
                  answers[j] == Told(calls[j], e))
    decreases |calls|
  {
    var answers := Unforgetting(full, calls);
    if j > 0 {
      var c, rest := calls[0], calls[1..];
      var full' := if c.Check? && c.now >= Expiry(full, c.key) then full[c.key := c.now + c.seconds] else full;
      assert answers[1..] == Unforgetting(full', rest);
      NowBefore(calls, clock, 0, j);
      FullExact(full', rest, c.now, i - 1, j - 1);
      if Blocks(answers, calls, 0, j) { Blocked(full', rest, c.now, c.key, j - 1); }
      var later, l := answers[1..], j - 1;
      forall k | Blocks(later, rest, k, l) ensures Blocks(answers, calls, k + 1, j) {}
    }
  }

  /** After an allowed call with limit `s`, no call on that key is allowed for `s` seconds. */
  lemma {:induction false} CoolDown(limiter: Limiter, calls: seq<Call>, clock: int, i: nat, j: nat)
    requires 0 <= clock && MonotoneCalls(calls, clock)
    requires i < j < |calls| && calls[i].Check? && calls[j].Check? && calls[i].key == calls[j].key
    requires Answers(limiter, calls)[i] == Allowed(true)
    requires calls[j].now < calls[i].now + calls[i].seconds
    ensures Answers(limiter, calls)[j] == Allowed(false)
  {
    CleanupInvisible(limiter, limiter.records, calls, clock);
    CoolDownFull(limiter.records, calls, clock, i, j);
  }

  lemma {:induction false} CoolDownFull(full: Records, calls: seq<Call>, clock: int, i: nat, j: nat)
    requires MonotoneCalls(calls, clock)
    requires i < j < |calls| && calls[i].Check? && calls[j].Check? && calls[i].key == calls[j].key
    requires Unforgetting(full, calls)[i] == Allowed(true)
    requires calls[j].now < calls[i].now + calls[i].seconds
    ensures Unforgetting(full, calls)[j] == Allowed(false)
    decreases |calls|
  {
    var rest := calls[1..];
    var full' := if calls[0].Check? && calls[0].now >= Expiry(full, calls[0].key)
                 then full[calls[0].key := calls[0].now + calls[0].seconds] else full;
    assert Unforgetting(full, calls)[1..] == Unforgetting(full', rest);
    if i == 0 {
      Blocked(full', rest, calls[0].now, calls[0].key, j - 1);
    } else {
      CoolDownFull(full', rest, calls[0].now, i - 1, j - 1);
    }
  }

  /** While a key's expiry lies ahead of call `j`, call `j` on that key is told so. */
  lemma {:induction false} Blocked(full: Records, calls: seq<Call>, clock: int, key: Key, j: nat)
    requires MonotoneCalls(calls, clock)
    requires j < |calls| && calls[j].key == key && calls[j].now < Expiry(full, key)
    ensures Unforgetting(full, calls)[j] == Told(calls[j], Expiry(full, key))
    decreases |calls|
  {
    if j > 0 {
      NowBefore(calls, clock, 0, j);
      var full' := if calls[0].Check? && calls[0].now >= Expiry(full, calls[0].key)
                   then full[calls[0].key := calls[0].now + calls[0].seconds] else full;
      Blocked(full', calls[1..], calls[0].now, key, j - 1);
    }
  }

  lemma {:induction false} NowBefore(calls: seq<Call>, clock: int, i: nat, j: nat)
    requires MonotoneCalls(calls, clock) && i <= j < |calls|
    ensures clock <= calls[i].now <= calls[j].now
  {
    if i > 0 {
      NowBefore(calls[1..], calls[0].now, i - 1, j - 1);
    } else if j > 0 {
      NowBefore(calls[1..], calls[0].now, 0, j - 1);
    }
  }

  /** Memory is bounded by time: a cleanup at least a minute after the last leaves exactly the keys that still have to
      wait, and any other changes nothing. */
  lemma CleanupExact(limiter: Limiter, now: int, key: Key)
    requires 0 <= now
    ensures var after := limiter.MaybeCleanup(now);
            if now - limiter.lastCleanup >= 60
            then after.lastCleanup == now && (key in after.records <==> SecondsLeft(limiter.records, key, now) > 0)
            else after == limiter
  {}

  class RateLimiter {
    var records: Records
    var lastCleanup: int

    constructor (now: int)
      ensures View() == Limiter(map[], now)
    {
      records, lastCleanup := map[], now;
    }

    ghost function View(): Limiter
      reads this
    {
      Limiter(records, lastCleanup)
    }

    method Check(key: Key, seconds: int, cleanupAt: int, now: int) returns (yes: bool)
      modifies this
      ensures (View(), yes) == old(View()).Check(key, seconds, cleanupAt, now)
    {
      MaybeCleanup(cleanupAt);
      var expire := if key in records then records[key] else 0;
      if now < expire {
        return false;
      }
      records := records[key := now + seconds];
      yes := true;
    }

    method Remaining(key: Key, now: int) returns (left: int)
      ensures left == SecondsLeft(records, key, now)
    {
      var expire := if key in records then records[key] else 0;
      left := if expire - now > 0 then expire - now else 0;
    }

    method MaybeCleanup(now: int)
      modifies this
      ensures View() == old(View()).MaybeCleanup(now)
    {
      if now - lastCleanup < CLEANUP_INTERVAL {
        return;
      }
      lastCleanup := now;
      var expired := set k | k in records && now >= records[k];
      while expired != {}
        invariant records == map k | k in old(records) && (now < old(records)[k] || k in expired) :: old(records)[k]
        invariant lastCleanup == now
        decreases expired
      {
        var k :| k in expired;
        records := records - {k};
        expired := expired - {k};
      }
      assert records == Purge(old(records), now);
    }
  }
}
