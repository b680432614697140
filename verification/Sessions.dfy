/** Login sessions: creation, sliding expiry and the five-minute re-reading of the user's name and permission. */
module Sessions {
  import opened Common

  const TOKEN_TTL := 604800
  const SLIDE_INTERVAL := 600
  const PERMISSION_SYNC_INTERVAL := 300

  type Token = string
  type Uuid = string
  datatype User = User(userName: string, permission: int)
  datatype Session = Session(uuid: Uuid, user: User, createdAt: int, lastActive: int)

  type Users = map<Uuid, User>
  type Table = map<Token, Session>

  /** Validation may delete the session, overwrite its copy of the user, or refresh its last activity. */
  function Validate(sessions: Table, users: Users, token: Token, now: int): (Table, Option<Session>) {
    if token !in sessions then (sessions, None)
    else
      var s := sessions[token];
      var idle := now - s.lastActive;
      if now - s.createdAt > TOKEN_TTL then (sessions - {token}, None)
      else if idle > PERMISSION_SYNC_INTERVAL && s.uuid != "" && s.uuid !in users then (sessions - {token}, None)
      else
        var changed := idle > PERMISSION_SYNC_INTERVAL && s.uuid != "" && users[s.uuid] != s.user;
        var s' := if changed then s.(user := users[s.uuid], lastActive := now)
                  else if idle > SLIDE_INTERVAL then s.(lastActive := now)
                  else s;
        (if s' == s then sessions else sessions[token := s'], Some(s'))
  }

  function Cleanup(sessions: Table, now: int): Table {
    map t | t in sessions && sessions[t].createdAt >= now - TOKEN_TTL :: sessions[t]
  }

  function WithoutUser(sessions: Table, uuid: Uuid): Table {
    map t | t in sessions && sessions[t].uuid != uuid :: sessions[t]
  }

  // ---- runs ----

  /** `SetUsers` stands for any edit, creation or deletion of users. */
  datatype Event =
    | Login(token: Token, uuid: Uuid)
    | Logout(token: Token)
    | Validated(token: Token)
    | Expire
    | RemoveUser(uuid: Uuid)
    | SetUsers(users: Users)

  datatype State = State(users: Users, sessions: Table)
  datatype Timed = Timed(now: int, event: Event)

  ghost predicate Enabled(s: State, e: Event) {
    match e
    case Login(token, uuid) => token !in s.sessions && uuid in s.users
    case SetUsers(users) => "" !in users
    case _ => true
  }

  function Next(s: State, t: Timed): State
    requires Enabled(s, t.event)
  {
    match t.event
    case Login(token, uuid) => s.(sessions := s.sessions[token := Session(uuid, s.users[uuid], t.now, t.now)])
    case Logout(token) => s.(sessions := s.sessions - {token})
    case Validated(token) => s.(sessions := Validate(s.sessions, s.users, token, t.now).0)
    case Expire => s.(sessions := Cleanup(s.sessions, t.now))
    case RemoveUser(uuid) => s.(sessions := WithoutUser(s.sessions, uuid))
    case SetUsers(users) => s.(users := users)
  }

  /** A run starts without sessions and without a user whose id is empty; its clock never goes back. */
  ghost predicate IsRun(trace: seq<State>, events: seq<Timed>) {
    && |trace| == |events| + 1
    && trace[0].sessions == map[] && "" !in trace[0].users
    && (forall i, j :: 0 <= i < j < |events| ==> events[i].now <= events[j].now)
    && (forall i :: 0 <= i < |events| ==>
          Enabled(trace[i], events[i].event) && trace[i + 1] == Next(trace[i], events[i]))
  }

  /** Right after event `j` of the run the users table held `user` under `uuid`. */
  ghost predicate Held(trace: seq<State>, j: int, uuid: Uuid, user: User) {
    0 <= j < |trace| && uuid in trace[j].users && trace[j].users[uuid] == user
  }

  /** Every stored copy was the table's row at the session's last activity. */
  ghost predicate Witnessed(trace: seq<State>, events: seq<Timed>, i: nat, s: Session)
    requires |trace| == |events| + 1
  {
    exists j :: 0 < j <= i && i < |trace| && events[j - 1].now == s.lastActive && Held(trace, j, s.uuid, s.user)
  }

  ghost predicate Inv(trace: seq<State>, events: seq<Timed>, i: nat)
    requires |trace| == |events| + 1 && i < |trace|
  {
    && "" !in trace[i].users
    && forall t :: t in trace[i].sessions ==>
         trace[i].sessions[t].uuid != "" && Witnessed(trace, events, i, trace[i].sessions[t])
  }

  lemma {:induction false} InvHolds(trace: seq<State>, events: seq<Timed>, i: nat)
    requires IsRun(trace, events) && i < |trace|
    ensures Inv(trace, events, i)
  {
    if i > 0 {
      InvHolds(trace, events, i - 1);
      InvStep(trace, events, i - 1);
    }
  }

  lemma StillWitnessed(trace: seq<State>, events: seq<Timed>, i: nat, s: Session)
    requires |trace| == |events| + 1 && i + 1 < |trace| && Witnessed(trace, events, i, s)
    ensures Witnessed(trace, events, i + 1, s)
  {
    var j :| 0 < j <= i && events[j - 1].now == s.lastActive && Held(trace, j, s.uuid, s.user);
    assert 0 < j <= i + 1;
  }

  lemma FreshWitness(trace: seq<State>, events: seq<Timed>, i: nat, s: Session)
    requires |trace| == |events| + 1 && i + 1 < |trace|
    requires s.lastActive == events[i].now && Held(trace, i + 1, s.uuid, s.user)
    ensures Witnessed(trace, events, i + 1, s)
  {
    assert 0 < i + 1 <= i + 1;
  }

  lemma InvStep(trace: seq<State>, events: seq<Timed>, i: nat)
    requires IsRun(trace, events) && i < |events| && Inv(trace, events, i)
    ensures Inv(trace, events, i + 1)
  {
    var s, t, s' := trace[i], events[i], trace[i + 1];
    assert s' == Next(s, t);
    forall tok | tok in s'.sessions
      ensures s'.sessions[tok].uuid != "" && Witnessed(trace, events, i + 1, s'.sessions[tok])
    {
      var x := s'.sessions[tok];
      if tok in s.sessions && s.sessions[tok] == x {
        StillWitnessed(trace, events, i, x);
      } else {
        FreshWitness(trace, events, i, x);
      }
    }
  }

  /** What a validation returns is at most 7 days old and carries a name and permission the users table held
      at some moment of the last 300 seconds. */
  lemma ValidatedIsFresh(trace: seq<State>, events: seq<Timed>, i: nat, token: Token) returns (j: nat)
    requires IsRun(trace, events) && i < |events| && events[i].event == Validated(token)
    requires Validate(trace[i].sessions, trace[i].users, token, events[i].now).1.Some?
    ensures var s := Validate(trace[i].sessions, trace[i].users, token, events[i].now).1.value;
            && events[i].now - s.createdAt <= 604800
            && 0 < j <= i + 1
            && events[i].now - events[j - 1].now <= 300
            && Held(trace, j, s.uuid, s.user)
  {
    InvHolds(trace, events, i);
    var stored := trace[i].sessions[token];
    if events[i].now - stored.lastActive <= PERMISSION_SYNC_INTERVAL {
      j :| 0 < j <= i && events[j - 1].now == stored.lastActive && Held(trace, j, stored.uuid, stored.user);
    } else {
      j := i + 1;
    }
  }

  /** A name or permission the table has not held for 300 seconds is never returned: edits take effect. */
  lemma RevokedWithinFiveMinutes(trace: seq<State>, events: seq<Timed>, d: nat, i: nat, token: Token,
                                 uuid: Uuid, user: User)
    requires IsRun(trace, events) && d <= i < |events| && events[i].event == Validated(token)
    requires events[i].now - events[d].now > 300
    requires forall k :: d < k <= i + 1 ==> !Held(trace, k, uuid, user)
    ensures var r := Validate(trace[i].sessions, trace[i].users, token, events[i].now).1;
            !(r.Some? && r.value.uuid == uuid && r.value.user == user)
  {
    var r := Validate(trace[i].sessions, trace[i].users, token, events[i].now).1;
    if r.Some? {
      var j := ValidatedIsFresh(trace, events, i, token);
      assert forall k :: 0 <= k <= d ==> events[k].now <= events[d].now;
    }
  }

  /** A deleted user's sessions all end within 300 seconds, even if their tokens are not removed. */
  lemma DeletedUserLosesAccess(trace: seq<State>, events: seq<Timed>, d: nat, i: nat, token: Token, uuid: Uuid)
    requires IsRun(trace, events) && d <= i < |events| && events[i].event == Validated(token)
    requires events[i].now - events[d].now > 300
    requires forall k :: d < k <= i + 1 ==> uuid !in trace[k].users
    ensures var r := Validate(trace[i].sessions, trace[i].users, token, events[i].now).1;
            r.Some? ==> r.value.uuid != uuid
  {
    var r := Validate(trace[i].sessions, trace[i].users, token, events[i].now).1;
    if r.Some? && r.value.uuid == uuid {
      RevokedWithinFiveMinutes(trace, events, d, i, token, uuid, r.value.user);
    }
  }

  /** Nothing but a login makes a session, and a session never changes hands or gets younger. */
  lemma SessionsKeepTheirOwner(s: State, t: Timed, token: Token)
    requires Enabled(s, t.event) && token in Next(s, t).sessions
    ensures if t.event.Login? && t.event.token == token
            then Next(s, t).sessions[token] == Session(t.event.uuid, s.users[t.event.uuid], t.now, t.now)
            else && token in s.sessions
                 && Next(s, t).sessions[token].uuid == s.sessions[token].uuid
                 && Next(s, t).sessions[token].createdAt == s.sessions[token].createdAt
  {}

  /** The expiry sweep only removes sessions that no validation would return. */
  lemma CleanupUnseen(sessions: Table, users: Users, token: Token, now: int, later: int)
    requires now <= later
    ensures Validate(Cleanup(sessions, now), users, token, later).1 == Validate(sessions, users, token, later).1
  {}

  // ---- which tokens validate ----

  /** A token validates if and only if it is stored, at most 7 days old, and either active within the last 300
      seconds, without a user id, or with its user in the table. Only a name or permission that was not read for
      300 seconds is replaced by the table's, and the answer is what is stored from then on. */
  lemma ValidateExact(sessions: Table, users: Users, token: Token, now: int)
    ensures var (after, r) := Validate(sessions, users, token, now);
            && (r.Some? <==>
                  && token in sessions && now - sessions[token].createdAt <= 604800
                  && var x := sessions[token];
                     now - x.lastActive <= 300 || x.uuid == "" || x.uuid in users)
            && (r.None? ==> after == sessions - {token})
            && (r.Some? ==>
                  var x, y := sessions[token], r.value;
                  var stale := now - x.lastActive > 300 && x.uuid != "" && users[x.uuid] != x.user;
                  && after == sessions[token := y] && y.uuid == x.uuid && y.createdAt == x.createdAt
                  && y.user == (if stale then users[x.uuid] else x.user)
                  && y.lastActive == if stale || now - x.lastActive > 600 then now else x.lastActive)
  {}

  /** What ends a stored session: its logout, the removal of its user's tokens, a sweep or a validation after 7
      days, and a validation of one without activity for 300 seconds whose user is gone. */
  predicate Ends(s: State, t: Timed, token: Token)
    requires token in s.sessions
  {
    var x := s.sessions[token];
    match t.event
    case Logout(tok) => tok == token
    case RemoveUser(uuid) => uuid == x.uuid
    case Expire => t.now - x.createdAt > 604800
    case Validated(tok) =>
      && tok == token
      && (t.now - x.createdAt > 604800 || (t.now - x.lastActive > 300 && x.uuid != "" && x.uuid !in s.users))
    case _ => false
  }

  lemma EndsExact(s: State, t: Timed, token: Token)
    requires Enabled(s, t.event) && token in s.sessions
    ensures token in Next(s, t).sessions <==> !Ends(s, t, token)
  {}

  /** The login at step `i` made the session, and nothing before step `j` ended it. */
  ghost predicate LivesSince(trace: seq<State>, events: seq<Timed>, i: int, j: int, token: Token, uuid: Uuid) {
    && 0 <= i < j < |trace| == |events| + 1 && events[i].event == Login(token, uuid)
    && forall k :: i < k < j ==> token in trace[k].sessions && !Ends(trace[k], events[k], token)
  }

  /** The stored sessions of a run are exactly those of the logins that nothing has ended. */
  lemma {:induction false} StoredExact(trace: seq<State>, events: seq<Timed>, j: nat, token: Token)
    requires IsRun(trace, events) && j < |trace|
    ensures token in trace[j].sessions <==> exists i, uuid :: LivesSince(trace, events, i, j, token, uuid)
    ensures forall i, uuid :: LivesSince(trace, events, i, j, token, uuid) ==>
              && token in trace[j].sessions && trace[j].sessions[token].uuid == uuid
              && trace[j].sessions[token].createdAt == events[i].now
  {
    if j > 0 {
      StoredExact(trace, events, j - 1, token);
      var s, t := trace[j - 1], events[j - 1];
      forall i, uuid | LivesSince(trace, events, i, j, token, uuid)
        ensures && token in trace[j].sessions && trace[j].sessions[token].uuid == uuid
                && trace[j].sessions[token].createdAt == events[i].now
      {
        if i < j - 1 {
          assert LivesSince(trace, events, i, j - 1, token, uuid);
          EndsExact(s, t, token);
        }
        SessionsKeepTheirOwner(s, t, token);
      }
      if token in trace[j].sessions {
        SessionsKeepTheirOwner(s, t, token);
        if t.event.Login? && t.event.token == token {
          assert LivesSince(trace, events, j - 1, j, token, t.event.uuid);
        } else {
          var i, uuid :| LivesSince(trace, events, i, j - 1, token, uuid);
          EndsExact(s, t, token);
          assert LivesSince(trace, events, i, j, token, uuid);
        }
      }
    }
  }

  ghost predicate LivesThrough(trace: seq<State>, events: seq<Timed>, i: int, j: int, token: Token, uuid: Uuid) {
    LivesSince(trace, events, i, j + 1, token, uuid)
  }

  /** Over whole runs: a validation answers if and only if a login made the session and nothing has ended it, this
      validation included; the session is then that user's. */
  lemma AnswersExact(trace: seq<State>, events: seq<Timed>, j: nat, token: Token)
    requires IsRun(trace, events) && j < |events| && events[j].event == Validated(token)
    ensures var r := Validate(trace[j].sessions, trace[j].users, token, events[j].now).1;
            && (r.Some? <==> exists i, uuid :: LivesThrough(trace, events, i, j, token, uuid))
            && forall i, uuid :: LivesThrough(trace, events, i, j, token, uuid) ==>
                 r.value.uuid == uuid && r.value.createdAt == events[i].now
  {
    ValidateExact(trace[j].sessions, trace[j].users, token, events[j].now);
    StoredExact(trace, events, j + 1, token);
    if token in trace[j + 1].sessions {
      var i, uuid :| LivesSince(trace, events, i, j + 1, token, uuid);
      assert LivesThrough(trace, events, i, j, token, uuid);
    }
  }

  /** So a session of a present user is good for 7 days from its login: only a logout or the removal of the user's
      tokens ends it. */
  lemma GoodForAWeek(trace: seq<State>, events: seq<Timed>, i: nat, j: nat, token: Token, uuid: Uuid)
    requires IsRun(trace, events) && i < j < |events| && events[i].event == Login(token, uuid)
    requires events[j].event == Validated(token) && events[j].now - events[i].now <= 604800
    requires forall k :: i < k <= j ==>
               uuid in trace[k].users && events[k].event != Logout(token) && events[k].event != RemoveUser(uuid)
    ensures var r := Validate(trace[j].sessions, trace[j].users, token, events[j].now).1;
            r.Some? && r.value.uuid == uuid
  {
    NothingEnds(trace, events, i, j + 1, token, uuid);
    assert LivesThrough(trace, events, i, j, token, uuid);
    AnswersExact(trace, events, j, token);
  }

  lemma {:induction false} NothingEnds(trace: seq<State>, events: seq<Timed>, i: nat, j: nat, token: Token, uuid: Uuid)
    requires IsRun(trace, events) && i < j < |trace| && events[i].event == Login(token, uuid)
    requires events[j - 1].now - events[i].now <= 604800
    requires forall k :: i < k < j ==>
               uuid in trace[k].users && events[k].event != Logout(token) && events[k].event != RemoveUser(uuid)
    ensures LivesSince(trace, events, i, j, token, uuid)
  {
    if i < j - 1 {
      NothingEnds(trace, events, i, j - 1, token, uuid);
      StoredExact(trace, events, j - 1, token);
    }
  }

  class SessionStore {
    var users: Users
    var sessions: Table

    constructor (users: Users)
      ensures this.users == users && sessions == map[]
    {
      this.users, sessions := users, map[];
    }

    method CreateToken(token: Token, uuid: Uuid, now: int)
      requires uuid in users && token !in sessions
      modifies `sessions
      ensures State(users, sessions) == Next(old(State(users, sessions)), Timed(now, Login(token, uuid)))
    {
      sessions := sessions[token := Session(uuid, users[uuid], now, now)];
    }

    method RemoveToken(token: Token)
      modifies `sessions
      ensures sessions == old(sessions) - {token}
    {
      sessions := sessions - {token};
    }

    method RemoveUserTokens(uuid: Uuid)
      modifies `sessions
      ensures sessions == WithoutUser(old(sessions), uuid)
    {
      sessions := map t | t in sessions && sessions[t].uuid != uuid :: sessions[t];
    }

    method CleanupExpiredTokens(now: int)
      modifies `sessions
      ensures sessions == Cleanup(old(sessions), now)
    {
      var cutoff := now - TOKEN_TTL;
      sessions := map t | t in sessions && !(sessions[t].createdAt < cutoff) :: sessions[t];
    }

    method ValidateToken(token: Token, now: int) returns (r: Option<Session>)
      modifies `sessions
      ensures (sessions, r) == Validate(old(sessions), users, token, now)
    {
      if token !in sessions {
        return None;
      }
      var session := sessions[token];
      if now - session.createdAt > TOKEN_TTL {
        sessions := sessions - {token};
        return None;
      }
      var needsSlideRefresh := now - session.lastActive > SLIDE_INTERVAL;
      var needsPermissionSync := now - session.lastActive > PERMISSION_SYNC_INTERVAL;
      if needsPermissionSync && session.uuid != "" {
        if session.uuid !in users {
          sessions := sessions - {token};
          return None;
        }
        var user := users[session.uuid];
        if user != session.user {
          session := session.(user := user, lastActive := now);
          sessions := sessions[token := session];
          return Some(session);
        }
      }
      if needsSlideRefresh {
        session := session.(lastActive := now);
        sessions := sessions[token := session];
      }
      r := Some(session);
    }
  }
}
