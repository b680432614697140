/** Lock-out after failed logins: per-IP failure rows and the order of steps in the login endpoint. */
module LoginLockout {
  const BAN_THRESHOLD := 5
  const BAN_TTL := 1800

  type Ip = string
  datatype Row = Row(count: nat, lastFail: int)
  type Failures = map<Ip, Row>

  /** One request: `good` says whether the credentials are right. */
  datatype Attempt = Attempt(ip: Ip, now: int, good: bool)
  datatype Outcome = Banned | Authenticated | Rejected

  /** The ban check deletes a row that is older than the ban. */
  function BanCheck(failures: Failures, ip: Ip, now: int): (Failures, bool) {
    if ip !in failures then (failures, true)
    else if now - failures[ip].lastFail > BAN_TTL then (failures - {ip}, true)
    else (failures, failures[ip].count <= BAN_THRESHOLD)
  }

  function WithFailure(failures: Failures, ip: Ip, now: int): Failures {
    if ip in failures then failures[ip := failures[ip].(count := failures[ip].count + 1, lastFail := now)]
    else failures[ip := Row(1, now)]
  }

  function Login(failures: Failures, a: Attempt): (Failures, Outcome) {
    var (checked, allowed) := BanCheck(failures, a.ip, a.now);
    if !allowed then (checked, Banned)
    else if a.good then (checked - {a.ip}, Authenticated)
    else (WithFailure(checked, a.ip, a.now), Rejected)
  }

  // ---- runs ----

  function After(failures: Failures, run: seq<Attempt>): Failures {
    if run == [] then failures else Login(After(failures, run[..|run| - 1]), run[|run| - 1]).0
  }

  /** The outcome of attempt `i` of a run. */
  function OutcomeOf(failures: Failures, run: seq<Attempt>, i: nat): Outcome
    requires i < |run|
  {
    Login(After(failures, run[..i]), run[i]).1
  }

  ghost predicate IsRun(run: seq<Attempt>) {
    forall i, j :: 0 <= i < j < |run| ==> run[i].now <= run[j].now
  }

  /** How many of the attempts `i..j` reached the password check for `ip` and failed it. */
  function FailedChecks(failures: Failures, run: seq<Attempt>, ip: Ip, i: nat, j: nat): nat
    requires i <= j <= |run|
  {
    if i == j then 0
    else FailedChecks(failures, run, ip, i, j - 1)
         + if run[j - 1].ip == ip && OutcomeOf(failures, run, j - 1).Rejected? then 1 else 0
  }

  ghost predicate NoSuccess(failures: Failures, run: seq<Attempt>, ip: Ip, i: nat, j: nat)
    requires i <= j <= |run|
  {
    forall k :: i <= k < j && run[k].ip == ip ==> !OutcomeOf(failures, run, k).Authenticated?
  }

  lemma AfterStep(failures: Failures, run: seq<Attempt>, k: nat)
    requires k < |run|
    ensures After(failures, run[..k + 1]) == Login(After(failures, run[..k]), run[k]).0
  {
    assert run[..k + 1][..k] == run[..k];
  }

  /** Within a window shorter than the ban and without a success, the row counts every failed check. */
  lemma {:induction false} RowCounts(failures: Failures, run: seq<Attempt>, ip: Ip, i: nat, j: nat)
    requires i <= j <= |run| && IsRun(run)
    requires forall k :: i <= k < j ==> run[k].now - run[i].now <= BAN_TTL
    requires NoSuccess(failures, run, ip, i, j)
    ensures var f := After(failures, run[..j]);
            var n := FailedChecks(failures, run, ip, i, j);
            && n <= BAN_THRESHOLD + 1
            && (n > 0 ==> ip in f && f[ip].count >= n && f[ip].lastFail >= run[i].now)
    decreases j - i
  {
    if i < j {
      RowCounts(failures, run, ip, i, j - 1);
      AfterStep(failures, run, j - 1);
    }
  }

  /** In any 1800-second window without a successful login from an IP, at most 6 password checks fail. */
  lemma AtMostSixFailures(failures: Failures, run: seq<Attempt>, ip: Ip, i: nat, j: nat)
    requires i < j <= |run| && IsRun(run) && run[j - 1].now - run[i].now <= BAN_TTL
    requires NoSuccess(failures, run, ip, i, j)
    ensures FailedChecks(failures, run, ip, i, j) <= 6
  {
    RowCounts(failures, run, ip, i, j);
  }

  /** The bound is reached by any IP without a row: six bad attempts in a row all fail their check. */
  lemma SixIsReached(failures: Failures, ip: Ip, now: int)
    requires ip !in failures
    ensures FailedChecks(failures, seq(6, k => Attempt(ip, now, false)), ip, 0, 6) == 6
  {
    FirstFailures(failures, ip, now, 6);
  }

  lemma {:induction false} FirstFailures(failures: Failures, ip: Ip, now: int, n: nat)
    requires ip !in failures && n <= 6
    ensures var run := seq(6, k => Attempt(ip, now, false));
            && FailedChecks(failures, run, ip, 0, n) == n
            && (if n == 0 then ip !in After(failures, run[..n])
                else ip in After(failures, run[..n]) && After(failures, run[..n])[ip] == Row(n, now))
  {
    var run := seq(6, k => Attempt(ip, now, false));
    if n > 0 {
      FirstFailures(failures, ip, now, n - 1);
      AfterStep(failures, run, n - 1);
    }
  }

  /** Once the row is full, every attempt within the ban is refused, whatever its password, and refusals
      do not prolong the ban. */
  lemma {:induction false} LockedOut(failures: Failures, run: seq<Attempt>, ip: Ip, j: nat)
    requires IsRun(run) && j < |run| && run[j].ip == ip
    requires ip in failures && failures[ip].count > BAN_THRESHOLD
    requires run[j].now - failures[ip].lastFail <= BAN_TTL
    ensures OutcomeOf(failures, run, j) == Banned
  {
    StillLocked(failures, run, ip, j, j);
  }

  lemma {:induction false} StillLocked(failures: Failures, run: seq<Attempt>, ip: Ip, j: nat, k: nat)
    requires IsRun(run) && k <= j < |run|
    requires ip in failures && failures[ip].count > BAN_THRESHOLD
    requires run[j].now - failures[ip].lastFail <= BAN_TTL
    ensures ip in After(failures, run[..k]) && After(failures, run[..k])[ip] == failures[ip]
    decreases k
  {
    if k > 0 {
      StillLocked(failures, run, ip, j, k - 1);
      AfterStep(failures, run, k - 1);
    }
  }

  predicate Fresh(failures: Failures, a: Attempt) {
    a.ip !in failures || a.now - failures[a.ip].lastFail > BAN_TTL
  }

  /** The row of an address after an attempt: a failed check counts on or starts again, a success removes it, and
      nothing else touches it. */
  lemma LoginRow(failures: Failures, a: Attempt, ip: Ip)
    ensures var (after, outcome) := Login(failures, a);
            if a.ip != ip || outcome.Banned?
            then (ip in after <==> ip in failures) && (ip in after ==> after[ip] == failures[ip])
            else if outcome.Authenticated? then ip !in after
            else ip in after && after[ip] == Row(if Fresh(failures, a) then 1 else failures[ip].count + 1, a.now)
  {}

  ghost predicate Failed(run: seq<Attempt>, ip: Ip, k: int) {
    0 <= k < |run| && run[k].ip == ip && OutcomeOf(map[], run, k).Rejected?
  }

  /** Each failed check of `ip` from `i` up to `j`, save the first, came at most 1800 seconds after another. */
  ghost predicate Chained(run: seq<Attempt>, ip: Ip, i: nat, j: nat) {
    forall b :: i <= b < j && Failed(run, ip, b) ==> FirstOrNear(run, ip, i, b)
  }

  ghost predicate FirstOrNear(run: seq<Attempt>, ip: Ip, i: int, b: int)
    requires 0 <= b < |run|
  {
    || (forall a :: i <= a < b ==> !Failed(run, ip, a))
    || (exists a :: i <= a < b && Failed(run, ip, a) && run[b].now - run[a].now <= 1800)
  }

  lemma SuccessFree(run: seq<Attempt>, ip: Ip, i: nat, j: nat)
    requires i < j <= |run| && NoSuccess(map[], run, ip, i, j - 1)
    requires run[j - 1].ip == ip ==> !OutcomeOf(map[], run, j - 1).Authenticated?
    ensures NoSuccess(map[], run, ip, i, j)
  {}

  lemma ChainStarts(run: seq<Attempt>, ip: Ip, j: nat)
    requires j < |run|
    ensures Chained(run, ip, j, j + 1)
  {}

  lemma ChainGrows(run: seq<Attempt>, ip: Ip, i: nat, k: nat, j: nat)
    requires i <= k < j < |run| && Chained(run, ip, i, j) && Failed(run, ip, k)
    requires Failed(run, ip, j) ==> run[j].now - run[k].now <= 1800
    ensures Chained(run, ip, i, j + 1)
  {}

  /** An address has a row exactly for the failed checks since its last success or since its row ran out. */
  lemma {:induction false} RowOrigin(run: seq<Attempt>, ip: Ip, j: nat) returns (i: nat, k: nat)
    requires IsRun(run) && j <= |run| && ip in After(map[], run[..j])
    ensures i <= k < j && NoSuccess(map[], run, ip, i, j) && Chained(run, ip, i, j)
    ensures FailedChecks(map[], run, ip, i, j) == After(map[], run[..j])[ip].count
    ensures Failed(run, ip, k) && run[k].now == After(map[], run[..j])[ip].lastFail
    decreases j
  {
    assert j > 0 by { assert run[..0] == []; }
    AfterStep(map[], run, j - 1);
    var before, a := After(map[], run[..j - 1]), run[j - 1];
    LoginRow(before, a, ip);
    assert OutcomeOf(map[], run, j - 1) == Login(before, a).1;
    if Failed(run, ip, j - 1) && Fresh(before, a) {
      i, k := j - 1, j - 1;
      assert FailedChecks(map[], run, ip, j - 1, j - 1) == 0;
      ChainStarts(run, ip, j - 1);
    } else {
      i, k := RowOrigin(run, ip, j - 1);
      SuccessFree(run, ip, i, j);
      ChainGrows(run, ip, i, k, j - 1);
      if Failed(run, ip, j - 1) { k := j - 1; }
    }
  }

  /** Nobody is refused for long ago: whenever an attempt is refused, at least six checks of its address failed
      with no success since, and the last of them was at most 1800 seconds ago. */
  lemma RefusedOnlyFor(run: seq<Attempt>, j: nat) returns (i: nat, k: nat)
    requires IsRun(run) && j < |run| && OutcomeOf(map[], run, j).Banned?
    ensures i <= k < j && NoSuccess(map[], run, run[j].ip, i, j) && FailedChecks(map[], run, run[j].ip, i, j) >= 6
    ensures Failed(run, run[j].ip, k) && run[j].now - run[k].now <= 1800
  {
    i, k := RowOrigin(run, run[j].ip, j);
  }

  // ---- who is refused, exactly ----

  /** One attempt: it is refused while six failures are on record and the last is at most 1800 seconds old;
      otherwise the credentials decide. A success leaves no row, a failed check one that counts it, and a refusal
      the row as it was. */
  lemma LoginExact(failures: Failures, a: Attempt)
    ensures var (after, outcome) := Login(failures, a);
            && (outcome.Banned? <==>
                  a.ip in failures && failures[a.ip].count > 5 && a.now - failures[a.ip].lastFail <= 1800)
            && (outcome.Authenticated? <==> !outcome.Banned? && a.good)
            && (outcome.Banned? ==> after == failures)
            && (outcome.Authenticated? ==> a.ip !in after)
            && (outcome.Rejected? ==> a.ip in after && after[a.ip].lastFail == a.now && after[a.ip].count >= 1)
  {}

  /** Six or more failed checks since `i` without a success or a pause, the last at most 1800 seconds ago. */
  ghost predicate Streak(run: seq<Attempt>, ip: Ip, i: int, j: int) {
    && 0 <= i <= j < |run| && NoSuccess(map[], run, ip, i, j) && Chained(run, ip, i, j)
    && FailedChecks(map[], run, ip, i, j) >= 6
    && exists k :: i <= k < j && Failed(run, ip, k) && run[j].now - run[k].now <= 1800
  }

  /** Along such a chain the row counts every failed check and is as recent as each of them. */
  lemma {:induction false} ChainCounts(run: seq<Attempt>, ip: Ip, i: nat, j: nat)
    requires IsRun(run) && i <= j <= |run| && NoSuccess(map[], run, ip, i, j) && Chained(run, ip, i, j)
    ensures var f := After(map[], run[..j]);
            forall k :: i <= k < j && Failed(run, ip, k) ==>
              ip in f && f[ip].count >= FailedChecks(map[], run, ip, i, j) && f[ip].lastFail >= run[k].now
    ensures FailedChecks(map[], run, ip, i, j) > 0 ==> exists k :: i <= k < j && Failed(run, ip, k)
    decreases j - i
  {
    if i < j {
      ChainCounts(run, ip, i, j - 1);
      AfterStep(map[], run, j - 1);
      var before, a := After(map[], run[..j - 1]), run[j - 1];
      LoginRow(before, a, ip);
      if Failed(run, ip, j - 1) {
        assert FirstOrNear(run, ip, i, j - 1);
      }
    }
  }

  /** Over every run: an attempt is refused if and only if a streak of six or more failed checks of its address is
      still counted; otherwise right credentials are accepted and wrong ones are counted. */
  lemma RefusedExact(run: seq<Attempt>, j: nat)
    requires IsRun(run) && j < |run|
    ensures var outcome := OutcomeOf(map[], run, j);
            && (outcome.Banned? <==> exists i :: Streak(run, run[j].ip, i, j))
            && (outcome.Authenticated? <==> run[j].good && !exists i :: Streak(run, run[j].ip, i, j))
  {
    LoginExact(After(map[], run[..j]), run[j]);
    if OutcomeOf(map[], run, j).Banned? {
      var i, k := RowOrigin(run, run[j].ip, j);
      assert Failed(run, run[j].ip, k);
      assert Streak(run, run[j].ip, i, j);
    }
    if i :| Streak(run, run[j].ip, i, j) {
      ChainCounts(run, run[j].ip, i, j);
    }
  }

  /** Attempts from one IP never touch the row of another. */
  lemma OthersUntouched(failures: Failures, a: Attempt, other: Ip)
    requires other != a.ip
    ensures var f := Login(failures, a).0; other in f <==> other in failures
    ensures other in failures ==> Login(failures, a).0[other] == failures[other]
  {}

  class UserManager {
    var loginFailures: Failures

    constructor ()
      ensures loginFailures == map[]
    {
      loginFailures := map[];
    }

    method CheckBanIp(ip: Ip, now: int) returns (allowed: bool)
      modifies this
      ensures (loginFailures, allowed) == BanCheck(old(loginFailures), ip, now)
    {
      if ip !in loginFailures {
        return true;
      }
      var r := loginFailures[ip];
      if now - r.lastFail > BAN_TTL {
        loginFailures := loginFailures - {ip};
        return true;
      }
      allowed := r.count <= BAN_THRESHOLD;
    }

    method RecordLoginFailure(ip: Ip, now: int)
      modifies this
      ensures loginFailures == WithFailure(old(loginFailures), ip, now)
    {
      if ip in loginFailures {
        var r := loginFailures[ip];
        loginFailures := loginFailures[ip := r.(count := r.count + 1, lastFail := now)];
      } else {
        loginFailures := loginFailures[ip := Row(1, now)];
      }
    }

    method ClearLoginFailure(ip: Ip)
      modifies this
      ensures loginFailures == old(loginFailures) - {ip}
    {
      loginFailures := loginFailures - {ip};
    }

    /** The login endpoint: ban check, password check, then clear or record. */
    method ApiLogin(ip: Ip, now: int, good: bool) returns (outcome: Outcome)
      modifies this
      ensures (loginFailures, outcome) == Login(old(loginFailures), Attempt(ip, now, good))
    {
      var allowed := CheckBanIp(ip, now);
      if !allowed {
        return Banned;
      }
      if good {
        ClearLoginFailure(ip);
        return Authenticated;
      }
      RecordLoginFailure(ip, now);
      outcome := Rejected;
    }
  }
}
