/** The state engine's tick: running-set differences, online and offline notices, and heartbeat time-outs,
    interleaved with plugin events and with removals from outside. */
module StateEngine {
  import opened Common
  import opened Instances

  const HEARTBEAT_TIMEOUT := 90
  const REFRESH_MIN := 3
  const REFRESH_MAX := 30
  const REFRESH_STEP := 3

  /** An instance is watched as (name, node). */
  type Key = (Name, string)

  function RunningSet(t: Table): set<Key> { set n | n in t && t[n].status == RUNNING :: (n, t[n].nodeId) }

  /** The names a tick checks for heartbeats: running, on this node, in listing order. */
  function RunningLocal(listing: seq<Listed>): seq<Name> {
    if listing == [] then []
    else
      var init, c := listing[..|listing| - 1], listing[|listing| - 1];
      RunningLocal(init) + if c.status == RUNNING && c.nodeId == LOCAL then [c.name] else []
  }

  predicate TimedOut(i: Inst, now: int) {
    i.loggedIn && i.heartbeatTs > 0 && now - i.heartbeatTs > HEARTBEAT_TIMEOUT
  }

  function LogOut(i: Inst, now: int): Inst { WithLogin(i, false, i.uin, "waiting", "plugin", "heartbeat_timeout", now) }

  function PluginLogin(i: Inst, uin: string, now: int): Inst {
    WithLogin(i, true, uin, "logged_in", "plugin", "plugin_login_event", now)
  }

  function PluginLogout(i: Inst, now: int): Inst {
    WithLogin(i, false, i.uin, "waiting", "plugin", "plugin_logout_event", now)
  }

  /** Logs out every silent instance among `names` and lists them. */
  function Detect(t: Table, names: seq<Name>, now: int): (Table, seq<Name>) {
    if names == [] then (t, [])
    else
      var (t', due) := Detect(t, names[..|names| - 1], now);
      var n := names[|names| - 1];
      if n in t' && TimedOut(t'[n], now) then (t'[n := LogOut(t'[n], now)], due + [n]) else (t', due)
  }

  /** A tick waits between its parts; other events can fall in between. */
  datatype Phase =
    | Idle
    | Listing(prev: set<Key>)
    | Refreshed(local: seq<Name>)
    | Notifying(due: seq<Name>)

  datatype State = State(instances: Table, phase: Phase, initialized: bool)

  const INIT := State(map[], Idle, false)

  /** The last eight are events from outside the engine. */
  datatype Event =
    | TickBegins
    | ListingArrives(listing: seq<Listed>)
    | HeartbeatsChecked
    | NoticeSent
    | TickEnds
    | Removed(name: Name)
    | LoggedIn(name: Name, uin: string)
    | LoggedOut(name: Name)
    | Heartbeat(name: Name, online: bool)
    | LinkLost(name: Name)

  datatype Timed = Timed(now: int, event: Event)

  /** What a step tells the alert manager. */
  datatype Notices = Notices(offline: set<Key>, online: set<Key>, loginLost: Option<Name>)
  const SILENT := Notices({}, {}, None)

  ghost predicate Enabled(s: State, e: Event) {
    match e
    case TickBegins => s.phase.Idle?
    case ListingArrives(_) => s.phase.Listing?
    case HeartbeatsChecked => s.phase.Refreshed?
    case NoticeSent => s.phase.Notifying? && s.phase.due != []
    case TickEnds => s.phase.Notifying? && s.phase.due == []
    case _ => true
  }

  /** An empty listing without any known instance ends the tick at once. */
  predicate Skipped(s: State, listing: seq<Listed>) { listing == [] && s.instances == map[] }

  function On(t: Table, n: Name, f: Inst -> Inst): Table { if n in t then t[n := f(t[n])] else t }

  function Next(s: State, t: Timed): State
    requires Enabled(s, t.event)
  {
    var now := t.now;
    match t.event
    case TickBegins => s.(phase := Listing(RunningSet(s.instances)))
    case ListingArrives(listing) =>
      if Skipped(s, listing) then s.(phase := Idle)
      else State(Reflection(s.instances, listing, now), Refreshed(RunningLocal(listing)), true)
    case HeartbeatsChecked =>
      var (table, due) := Detect(s.instances, s.phase.local, now);
      s.(instances := table, phase := Notifying(due))
    case NoticeSent => s.(phase := Notifying(s.phase.due[1..]))
    case TickEnds => s.(phase := Idle)
    case Removed(n) => s.(instances := s.instances - {n})
    case LoggedIn(n, uin) =>
      if uin == "" then s
      else s.(instances := On(s.instances, n, (i: Inst) => PluginLogin(i, uin, now)))
    case LoggedOut(n) =>
      s.(instances := On(s.instances, n, (i: Inst) => PluginLogout(i, now)))
    case Heartbeat(n, online) => s.(instances := On(s.instances, n, (i: Inst) => WithHeartbeat(i, online, now)))
    case LinkLost(n) => s.(instances := On(s.instances, n, (i: Inst) => WithHeartbeat(i, false, 0)))
  }

  function Out(s: State, t: Timed): Notices
    requires Enabled(s, t.event)
  {
    match t.event
    case ListingArrives(listing) =>
      if Skipped(s, listing) then SILENT
      else
        var curr := RunningSet(Next(s, t).instances);
        Notices(s.phase.prev - curr, if s.initialized then curr - s.phase.prev else {}, None)
    case NoticeSent =>
      var n := s.phase.due[0];
      if n in s.instances && !s.instances[n].loggedIn then SILENT.(loginLost := Some(n)) else SILENT
    case _ => SILENT
  }

  ghost predicate IsRun(trace: seq<State>, events: seq<Timed>) {
    && |trace| == |events| + 1 && trace[0] == INIT
    && (forall i, j :: 0 <= i < j < |events| ==> events[i].now <= events[j].now)
    && forall i :: 0 <= i < |events| ==> StepAt(trace, events, i)
  }

  ghost predicate StepAt(trace: seq<State>, events: seq<Timed>, i: int) {
    && 0 <= i < |events| < |trace|
    && events[i].now > 0
    && Enabled(trace[i], events[i].event) && trace[i + 1] == Next(trace[i], events[i])
  }

  // ---- online and offline notices ----

  function Bit(b: bool): int { if b then 1 else 0 }

  /** What the engine will compare against next: the set it took at the start of a tick in progress, else
      the instances themselves. */
  function Basis(s: State): set<Key> { if s.phase.Listing? then s.phase.prev else RunningSet(s.instances) }

  /** The steps that count for a key: notices, a removal while it runs, seen or not by a tick in progress,
      and a skipped tick that forgets it. */
  datatype Tally = Tally(online: nat, offline: nat, removed: nat, removedInTick: nat, forgotten: nat)

  function Add(a: Tally, b: Tally): Tally {
    Tally(a.online + b.online, a.offline + b.offline, a.removed + b.removed,
          a.removedInTick + b.removedInTick, a.forgotten + b.forgotten)
  }

  predicate RemovesRunning(s: State, e: Event, k: Key) { e.Removed? && e.name == k.0 && k in RunningSet(s.instances) }

  function StepTally(s: State, t: Timed, k: Key): Tally
    requires Enabled(s, t.event)
  {
    var out := Out(s, t);
    Tally(Bit(k in out.online), Bit(k in out.offline),
          Bit(RemovesRunning(s, t.event, k) && !s.phase.Listing?),
          Bit(RemovesRunning(s, t.event, k) && s.phase.Listing?),
          Bit(t.event.ListingArrives? && Skipped(s, t.event.listing) && k in s.phase.prev))
  }

  ghost function Tallied(trace: seq<State>, events: seq<Timed>, k: Key, i: nat, j: nat): Tally
    requires i <= j <= |events| && |trace| == |events| + 1
    requires forall l :: i <= l < j ==> StepAt(trace, events, l)
    decreases j - i
  {
    if i == j then Tally(0, 0, 0, 0, 0)
    else Add(Tallied(trace, events, k, i, j - 1), TallyAt(trace, events, k, j - 1))
  }

  ghost function TallyAt(trace: seq<State>, events: seq<Timed>, k: Key, l: int): Tally
    requires StepAt(trace, events, l)
  {
    StepTally(trace[l], events[l], k)
  }

  /** Logins, heartbeats and time-outs do not change what runs where. */
  lemma {:induction false} DetectKeepsRunning(t: Table, names: seq<Name>, now: int)
    ensures Detect(t, names, now).0.Keys == t.Keys
    ensures forall n :: n in t ==> var i, x := Detect(t, names, now).0[n], t[n];
                                   i.status == x.status && i.nodeId == x.nodeId
    ensures RunningSet(Detect(t, names, now).0) == RunningSet(t)
  {
    if names != [] {
      DetectKeepsRunning(t, names[..|names| - 1], now);
    }
  }

  lemma OnKeepsRunning(t: Table, n: Name, f: Inst -> Inst)
    requires forall i :: f(i).status == i.status && f(i).nodeId == i.nodeId
    ensures RunningSet(On(t, n, f)) == RunningSet(t)
  {
    var u := On(t, n, f);
    forall k | k in RunningSet(t) ensures k in RunningSet(u) { assert k.0 in u; }
    forall k | k in RunningSet(u) ensures k in RunningSet(t) { assert k.0 in t; }
  }

  lemma RemovalRuns(t: Table, n: Name, k: Key)
    ensures k in RunningSet(t - {n}) <==> k in RunningSet(t) && k.0 != n
  {
    if k in RunningSet(t) && k.0 != n { assert k.0 in t - {n}; }
    if k in RunningSet(t - {n}) { assert k.0 in t; }
  }

  lemma QuietStep(s: State, t: Timed)
    requires Enabled(s, t.event)
    requires || t.event.HeartbeatsChecked? || t.event.LoggedIn? || t.event.LoggedOut?
             || t.event.Heartbeat? || t.event.LinkLost?
    ensures RunningSet(Next(s, t).instances) == RunningSet(s.instances)
  {
    var now := t.now;
    match t.event
    case HeartbeatsChecked => DetectKeepsRunning(s.instances, s.phase.local, now);
    case LoggedIn(n, uin) =>
      OnKeepsRunning(s.instances, n, (i: Inst) => PluginLogin(i, uin, now));
    case LoggedOut(n) =>
      OnKeepsRunning(s.instances, n, (i: Inst) => PluginLogout(i, now));
    case Heartbeat(n, online) => OnKeepsRunning(s.instances, n, (i: Inst) => WithHeartbeat(i, online, now));
    case LinkLost(n) => OnKeepsRunning(s.instances, n, (i: Inst) => WithHeartbeat(i, false, 0));
    case _ =>
  }

  lemma StepBalance(s: State, t: Timed, k: Key)
    requires Enabled(s, t.event) && s.initialized
    ensures var d := StepTally(s, t, k);
            && Next(s, t).initialized
            && d.online - d.offline - d.removed - d.forgotten == Bit(k in Basis(Next(s, t))) - Bit(k in Basis(s))
  {
    match t.event
    case TickBegins =>
    case ListingArrives(listing) =>
      if Skipped(s, listing) { assert RunningSet(map[]) == {}; }
    case NoticeSent =>
    case TickEnds =>
    case Removed(n) => RemovalRuns(s.instances, n, k);
    case _ => QuietStep(s, t);
  }

  /** For every (name, node): from any state after the first effective tick, online notices minus offline
      notices minus removals while running (outside a tick's listing) is "runs now" minus "ran then". */
  lemma {:induction false} NoticesBalance(trace: seq<State>, events: seq<Timed>, k: Key, i: nat, j: nat)
    requires IsRun(trace, events) && i <= j <= |events| && trace[i].initialized
    ensures var d := Tallied(trace, events, k, i, j);
            && trace[j].initialized
            && d.online - d.offline - d.removed - d.forgotten == Bit(k in Basis(trace[j])) - Bit(k in Basis(trace[i]))
    decreases j - i
  {
    if i < j {
      NoticesBalance(trace, events, k, i, j - 1);
      assert StepAt(trace, events, j - 1);
      StepBalance(trace[j - 1], events[j - 1], k);
    }
  }

  /** Counting every removal while running, the balance holds if and only if those that fell into a tick's
      listing were all swallowed by a skipped tick; in particular when no removal falls there. */
  lemma PlainBalanceExact(trace: seq<State>, events: seq<Timed>, k: Key, i: nat, j: nat)
    requires IsRun(trace, events) && i <= j <= |events| && trace[i].initialized
    requires !trace[i].phase.Listing? && !trace[j].phase.Listing?
    ensures var d := Tallied(trace, events, k, i, j);
            d.online - d.offline - (d.removed + d.removedInTick) ==
              Bit(k in RunningSet(trace[j].instances)) - Bit(k in RunningSet(trace[i].instances))
            <==> d.removedInTick == d.forgotten
  {
    NoticesBalance(trace, events, k, i, j);
  }

  /** A removal during the listing does break it: the tick still reports the container offline. */
  lemma RemovalInTickCountsTwice(s: State, k: Key, listing: seq<Listed>, t: int)
    requires s.phase.Listing? && s.initialized && k in s.phase.prev && k in RunningSet(s.instances)
    requires k.0 !in ListedNames(listing) && listing != []
    ensures var removed := Next(s, Timed(t, Removed(k.0)));
            && StepTally(s, Timed(t, Removed(k.0)), k) == Tally(0, 0, 0, 1, 0)
            && StepTally(removed, Timed(t, ListingArrives(listing)), k) == Tally(0, 1, 0, 0, 0)
  {
    var removed := Next(s, Timed(t, Removed(k.0)));
    var after := Reflection(removed.instances, listing, t);
    assert k.0 !in after;
  }

  /** Between two online notices of a key there is an offline notice, and the other way round, as long as it
      is not removed or forgotten in between. */
  lemma NoticesAlternate(trace: seq<State>, events: seq<Timed>, k: Key, i: nat, j: nat)
    requires IsRun(trace, events) && i < j < |events| && trace[i].initialized
    requires StepAt(trace, events, i) && StepAt(trace, events, j)
    requires NotRemoved(trace, events, k, i + 1, j)
    ensures k in Out(trace[i], events[i]).online && k in Out(trace[j], events[j]).online ==>
              Notified(trace, events, k, i + 1, j).offline >= 1
    ensures k in Out(trace[i], events[i]).offline && k in Out(trace[j], events[j]).offline ==>
              Notified(trace, events, k, i + 1, j).online >= 1
  {
    NoticeMeans(trace[i], events[i], k);
    InitializedStays(trace, events, i, j);
    NoticeMeans(trace[j], events[j], k);
    Crossings(trace, events, k, i + 1, j);
  }

  /** The tally of a run that may be asked for any range. */
  ghost function Notified(trace: seq<State>, events: seq<Timed>, k: Key, i: nat, j: nat): Tally
    requires IsRun(trace, events) && i <= j <= |events|
  {
    Tallied(trace, events, k, i, j)
  }

  ghost predicate NotRemoved(trace: seq<State>, events: seq<Timed>, k: Key, i: nat, j: nat)
    requires IsRun(trace, events) && i <= j <= |events|
  {
    Notified(trace, events, k, i, j).removed == 0 && Notified(trace, events, k, i, j).forgotten == 0
  }

  lemma Crossings(trace: seq<State>, events: seq<Timed>, k: Key, i: nat, j: nat)
    requires IsRun(trace, events) && i <= j <= |events| && trace[i].initialized
    requires NotRemoved(trace, events, k, i, j)
    ensures k in Basis(trace[i]) && k !in Basis(trace[j]) ==> Notified(trace, events, k, i, j).offline >= 1
    ensures k !in Basis(trace[i]) && k in Basis(trace[j]) ==> Notified(trace, events, k, i, j).online >= 1
  {
    NoticesBalance(trace, events, k, i, j);
  }

  lemma {:induction false} InitializedStays(trace: seq<State>, events: seq<Timed>, i: nat, j: nat)
    requires IsRun(trace, events) && i <= j < |trace| && trace[i].initialized
    ensures trace[j].initialized
    decreases j - i
  {
    if i < j {
      InitializedStays(trace, events, i, j - 1);
      assert StepAt(trace, events, j - 1);
    }
  }

  lemma NoticeMeans(s: State, t: Timed, k: Key)
    requires Enabled(s, t.event) && s.initialized
    ensures Next(s, t).initialized
    ensures k in Out(s, t).online ==> k !in Basis(s) && k in Basis(Next(s, t))
    ensures k in Out(s, t).offline ==> k in Basis(s) && k !in Basis(Next(s, t))
  {}

  lemma {:induction false} Untouched(trace: seq<State>, events: seq<Timed>, i: nat)
    requires IsRun(trace, events) && i < |trace| && !trace[i].initialized
    ensures trace[i].instances == map[]
    ensures trace[i].phase.Idle? || trace[i].phase == Listing({})
  {
    if i > 0 {
      assert StepAt(trace, events, i - 1);
      Untouched(trace, events, i - 1);
      assert RunningSet(map[]) == {};
    }
  }

  /** Before the first effective tick there are no instances, and that tick raises no notice at all. */
  lemma FirstTickSilent(trace: seq<State>, events: seq<Timed>, i: nat)
    requires IsRun(trace, events) && i < |events| && !trace[i].initialized
    ensures trace[i].instances == map[]
    ensures StepAt(trace, events, i) && Out(trace[i], events[i]) == SILENT
  {
    assert StepAt(trace, events, i);
    Untouched(trace, events, i);
  }

  /** After a tick, what runs is what the listing says runs. */
  lemma RunsAsListed(s: State, t: Timed, k: Key)
    requires s.phase.Listing? && t.event.ListingArrives? && !Skipped(s, t.event.listing)
    requires var l := t.event.listing; forall i, j :: 0 <= i < j < |l| ==> l[i].name != l[j].name
    ensures k in RunningSet(Next(s, t).instances) <==>
            exists i :: 0 <= i < |t.event.listing| && t.event.listing[i].name == k.0
                        && t.event.listing[i].nodeId == k.1 && t.event.listing[i].status == RUNNING
  {
    var l, after := t.event.listing, Next(s, t).instances;
    if k in RunningSet(after) {
      assert k.0 in ListedNames(l);
      var i :| 0 <= i < |l| && l[i].name == k.0;
      ReflectExact(s.instances, l, t.now, i);
    }
    if i :| 0 <= i < |l| && l[i].name == k.0 && l[i].nodeId == k.1 && l[i].status == RUNNING {
      ReflectExact(s.instances, l, t.now, i);
      assert k == (k.0, after[k.0].nodeId);
    }
  }

  // ---- heartbeat time-outs ----

  /** The check names an instance at most once, and exactly those that were logged in and silent. */
  lemma {:induction false} DetectExact(t: Table, names: seq<Name>, now: int, n: Name)
    ensures var (t', due) := Detect(t, names, now);
            && Distinct(due) && t'.Keys == t.Keys
            && (n in due <==> n in names && n in t && TimedOut(t[n], now))
            && (n in t ==> t'[n] == if n in due then LogOut(t[n], now) else t[n])
  {
    if names != [] {
      var init, last := names[..|names| - 1], names[|names| - 1];
      assert names == init + [last];
      DetectExact(t, init, now, n);
      DetectExact(t, init, now, last);
      var due := Detect(t, init, now).1;
      if last !in due { DistinctConcat(due, [last]); }
    }
  }

  /** The names that are due stand in the order of the listing. */
  lemma {:induction false} DueInOrder(t: Table, names: seq<Name>, now: int, k: nat, l: nat) returns (p: nat, q: nat)
    requires k < l < |Detect(t, names, now).1|
    ensures var due := Detect(t, names, now).1;
            p < q < |names| && names[p] == due[k] && names[q] == due[l]
  {
    var n := |names| - 1;
    var due := Detect(t, names[..n], now).1;
    if l < |due| {
      p, q := DueInOrder(t, names[..n], now, k, l);
    } else {
      DetectExact(t, names[..n], now, due[k]);
      p :| 0 <= p < n && names[p] == due[k];
      q := n;
    }
  }

  /** No notice is due and no login is known for the name. */
  ghost predicate Quiet(s: State, n: Name) {
    && (n in s.instances ==> !s.instances[n].loggedIn)
    && (s.phase.Notifying? ==> n !in s.phase.due)
  }

  ghost predicate DueOnce(s: State) { s.phase.Notifying? ==> Distinct(s.phase.due) }

  lemma {:induction false} DueOnceHolds(trace: seq<State>, events: seq<Timed>, i: nat)
    requires IsRun(trace, events) && i < |trace|
    ensures DueOnce(trace[i])
  {
    if i > 0 {
      DueOnceHolds(trace, events, i - 1);
      assert StepAt(trace, events, i - 1);
      var s, t := trace[i - 1], events[i - 1];
      if t.event.HeartbeatsChecked? { DetectExact(s.instances, s.phase.local, t.now, ""); }
    }
  }

  lemma {:induction false} RefreshKeepsLoggedOut(t: Table, listing: seq<Listed>, now: int, n: Name)
    requires n in t ==> !t[n].loggedIn
    ensures n in ApplyAll(t, listing, now) ==> !ApplyAll(t, listing, now)[n].loggedIn
  {
    if listing != [] { RefreshKeepsLoggedOut(t, listing[..|listing| - 1], now, n); }
  }

  lemma QuietStays(s: State, t: Timed, n: Name)
    requires Enabled(s, t.event) && Quiet(s, n) && !(t.event.LoggedIn? && t.event.name == n)
    ensures Quiet(Next(s, t), n)
  {
    match t.event
    case ListingArrives(listing) => RefreshKeepsLoggedOut(s.instances, listing, t.now, n);
    case HeartbeatsChecked => DetectExact(s.instances, s.phase.local, t.now, n);
    case _ =>
  }

  lemma {:induction false} QuietUntilLogin(trace: seq<State>, events: seq<Timed>, n: Name, i: nat, j: nat)
    requires IsRun(trace, events) && i < j < |trace|
    requires StepAt(trace, events, i) && Out(trace[i], events[i]).loginLost == Some(n)
    requires forall l :: i < l < j ==> !(events[l].event.LoggedIn? && events[l].event.name == n)
    ensures Quiet(trace[j], n)
    decreases j - i
  {
    if j == i + 1 {
      DueOnceHolds(trace, events, i);
      var due := trace[i].phase.due;
      forall k | 0 <= k < |due[1..]| ensures due[1..][k] != n {
        assert due[k + 1] != due[0];
      }
    } else {
      QuietUntilLogin(trace, events, n, i, j - 1);
      assert StepAt(trace, events, j - 1);
      QuietStays(trace[j - 1], events[j - 1], n);
    }
  }

  /** Two time-out notices for the same name always have a login of that name between them. */
  lemma LoginBetweenNotices(trace: seq<State>, events: seq<Timed>, n: Name, i: nat, j: nat) returns (l: nat)
    requires IsRun(trace, events) && i < j < |events| && StepAt(trace, events, i) && StepAt(trace, events, j)
    requires Out(trace[i], events[i]).loginLost == Some(n) && Out(trace[j], events[j]).loginLost == Some(n)
    ensures i < l < j && events[l].event.LoggedIn? && events[l].event.name == n
  {
    assert n in trace[j].phase.due;
    if l' :| i < l' < j && events[l'].event.LoggedIn? && events[l'].event.name == n {
      l := l';
    } else {
      QuietUntilLogin(trace, events, n, i, j);
    }
  }

  lemma {:induction false} DueOrigin(trace: seq<State>, events: seq<Timed>, n: Name, j: nat) returns (d: nat)
    requires IsRun(trace, events) && j < |trace| && trace[j].phase.Notifying? && n in trace[j].phase.due
    ensures d < j && StepAt(trace, events, d) && events[d].event.HeartbeatsChecked?
    ensures n in trace[d].instances && TimedOut(trace[d].instances[n], events[d].now)
    ensures n in trace[d + 1].instances && trace[d + 1].instances[n] == LogOut(trace[d].instances[n], events[d].now)
  {
    assert StepAt(trace, events, j - 1);
    var s, t := trace[j - 1], events[j - 1];
    if t.event.HeartbeatsChecked? {
      d := j - 1;
      DetectExact(s.instances, s.phase.local, t.now, n);
    } else {
      d := DueOrigin(trace, events, n, j - 1);
    }
  }

  /** A heartbeat that happened is in the instance's time stamp, unless the stamp was reset since. */
  ghost predicate Remembers(s: State, n: Name, at: int) {
    n in s.instances && s.instances[n].heartbeatTs > 0 ==> s.instances[n].heartbeatTs >= at
  }

  lemma {:induction false} RefreshRemembers(t: Table, listing: seq<Listed>, now: int, n: Name, at: int)
    requires n in t && t[n].heartbeatTs > 0 ==> t[n].heartbeatTs >= at
    ensures var u := ApplyAll(t, listing, now); n in u && u[n].heartbeatTs > 0 ==> u[n].heartbeatTs >= at
  {
    if listing != [] { RefreshRemembers(t, listing[..|listing| - 1], now, n, at); }
  }

  lemma RemembersStep(s: State, t: Timed, n: Name, at: int)
    requires Enabled(s, t.event) && Remembers(s, n, at) && at <= t.now
    ensures Remembers(Next(s, t), n, at)
  {
    match t.event
    case ListingArrives(listing) => RefreshRemembers(s.instances, listing, t.now, n, at);
    case HeartbeatsChecked => DetectExact(s.instances, s.phase.local, t.now, n);
    case _ =>
  }

  lemma {:induction false} HeartbeatRemembered(trace: seq<State>, events: seq<Timed>, n: Name, h: nat, j: nat)
    requires IsRun(trace, events) && h < j < |trace|
    requires events[h].event.Heartbeat? && events[h].event.name == n
    ensures Remembers(trace[j], n, events[h].now)
    decreases j - h
  {
    assert StepAt(trace, events, j - 1);
    if j > h + 1 {
      HeartbeatRemembered(trace, events, n, h, j - 1);
      RemembersStep(trace[j - 1], events[j - 1], n, events[h].now);
    }
  }

  /** Every time-out notice is for an instance that its tick found logged in and whose last heartbeat, of any
      in the run, was more than 90 seconds old. */
  lemma NoticeIsForSilence(trace: seq<State>, events: seq<Timed>, n: Name, j: nat) returns (d: nat)
    requires IsRun(trace, events) && j < |events| && StepAt(trace, events, j)
    requires Out(trace[j], events[j]).loginLost == Some(n)
    ensures d < j && events[d].event.HeartbeatsChecked?
    ensures n in trace[d].instances && trace[d].instances[n].loggedIn
    ensures forall h :: 0 <= h < d && events[h].event.Heartbeat? && events[h].event.name == n ==>
              events[d].now - events[h].now > 90
  {
    d := DueOrigin(trace, events, n, j);
    forall h | 0 <= h < d && events[h].event.Heartbeat? && events[h].event.name == n
      ensures events[d].now - events[h].now > HEARTBEAT_TIMEOUT
    {
      HeartbeatRemembered(trace, events, n, h, d);
    }
  }

  // ---- who is logged in, who is silent and who is told, exactly ----

  ghost predicate ListsLocal(listing: seq<Listed>, n: Name, i: int) {
    0 <= i < |listing| && listing[i].name == n && listing[i].status == "running" && listing[i].nodeId == "local"
  }

  /** A tick checks exactly the names that its listing has as running on this node. */
  lemma {:induction false} RunningLocalExact(listing: seq<Listed>, n: Name)
    ensures n in RunningLocal(listing) <==> exists i :: ListsLocal(listing, n, i)
  {
    if listing != [] {
      var init, last := listing[..|listing| - 1], |listing| - 1;
      RunningLocalExact(init, n);
      if i :| ListsLocal(init, n, i) { assert ListsLocal(listing, n, i); }
      if i :| ListsLocal(listing, n, i) { assert i == last || ListsLocal(init, n, i); }
      assert listing[last].name == n && listing[last].status == "running" && listing[last].nodeId == "local" ==>
             ListsLocal(listing, n, last);
    }
  }

  /** The names a tick checks are those of the listing it got. */
  lemma {:induction false} LocalOrigin(trace: seq<State>, events: seq<Timed>, j: nat) returns (l: nat)
    requires IsRun(trace, events) && j < |trace| && trace[j].phase.Refreshed?
    ensures l < j && events[l].event.ListingArrives? && trace[j].phase.local == RunningLocal(events[l].event.listing)
    ensures forall k :: l < k < j ==> !events[k].event.ListingArrives?
  {
    assert StepAt(trace, events, j - 1);
    l := j - 1;
    if !events[l].event.ListingArrives? { l := LocalOrigin(trace, events, l); }
  }

  ghost predicate LoggedInAs(s: State, n: Name, uin: string) {
    n in s.instances && s.instances[n].loggedIn && s.instances[n].uin == uin
  }

  /** The last heartbeat on record. */
  ghost predicate LastBeat(s: State, n: Name, at: int) { n in s.instances && s.instances[n].heartbeatTs == at }

  /** A refresh that does not list the name, or not as running: it loses all its runtime data. */
  ghost predicate Drops(s: State, e: Event, n: Name) {
    || e == Removed(n)
    || (e.ListingArrives? && !Skipped(s, e.listing) && (n !in ListedNames(e.listing) || !StaysUp(e.listing, n)))
  }

  /** What ends a login: loss of the instance, a logout, or a check that finds it silent for over 90 seconds. */
  ghost predicate LogsOut(s: State, t: Timed, n: Name)
    requires Enabled(s, t.event)
  {
    || Drops(s, t.event, n) || t.event == LoggedOut(n)
    || (t.event.HeartbeatsChecked? && n in s.phase.local && n in s.instances
        && 0 < s.instances[n].heartbeatTs < t.now - 90)
  }

  predicate LogsIn(e: Event, n: Name) { e.LoggedIn? && e.name == n && e.uin != "" }

  predicate SetsBeat(e: Event, n: Name) { (e.Heartbeat? || e.LinkLost?) && e.name == n }

  lemma LoginNext(s: State, t: Timed, n: Name, uin: string)
    requires Enabled(s, t.event)
    ensures LoggedInAs(Next(s, t), n, uin)
            <==> if LogsIn(t.event, n) then n in s.instances && t.event.uin == uin
                 else LoggedInAs(s, n, uin) && !LogsOut(s, t, n)
  {
    match t.event
    case ListingArrives(listing) => RefreshExact(s.instances, listing, t.now, n);
    case HeartbeatsChecked => DetectExact(s.instances, s.phase.local, t.now, n);
    case _ =>
  }

  lemma BeatNext(s: State, t: Timed, n: Name, at: int)
    requires Enabled(s, t.event) && at > 0
    ensures LastBeat(Next(s, t), n, at)
            <==> if SetsBeat(t.event, n) then n in s.instances && t.event.Heartbeat? && t.now == at
                 else LastBeat(s, n, at) && !Drops(s, t.event, n)
  {
    match t.event
    case ListingArrives(listing) => RefreshExact(s.instances, listing, t.now, n);
    case HeartbeatsChecked => DetectExact(s.instances, s.phase.local, t.now, n);
    case _ =>
  }

  /** A bot is shown online exactly as its last heartbeat says, and never after a lost link or a dropped instance. */
  lemma OnlineNext(s: State, t: Timed, n: Name)
    requires Enabled(s, t.event)
    ensures Online(Next(s, t), n)
            <==> if SetsBeat(t.event, n) then n in s.instances && t.event.Heartbeat? && t.event.online
                 else Online(s, n) && !Drops(s, t.event, n)
  {
    match t.event
    case ListingArrives(listing) => RefreshExact(s.instances, listing, t.now, n);
    case HeartbeatsChecked => DetectExact(s.instances, s.phase.local, t.now, n);
    case _ =>
  }

  ghost predicate Online(s: State, n: Name) { n in s.instances && s.instances[n].botOnline }

  lemma AccountNext(s: State, t: Timed, n: Name)
    requires Enabled(s, t.event) && n in s.instances && n in Next(s, t).instances
    ensures Next(s, t).instances[n].uin == if LogsIn(t.event, n) then t.event.uin else s.instances[n].uin
  {
    match t.event
    case ListingArrives(listing) => RefreshExact(s.instances, listing, t.now, n);
    case HeartbeatsChecked => DetectExact(s.instances, s.phase.local, t.now, n);
    case _ =>
  }

  /** An instance keeps the account of its last login through logouts, time-outs and stops, as long as it is there. */
  lemma {:induction false} AccountKept(trace: seq<State>, events: seq<Timed>, i: nat, j: nat, n: Name, uin: string)
    requires IsRun(trace, events) && i < j < |trace| && events[i].event == LoggedIn(n, uin) && uin != ""
    requires forall k :: i <= k <= j ==> n in trace[k].instances
    requires forall k :: i < k < j ==> !LogsIn(events[k].event, n)
    ensures trace[j].instances[n].uin == uin
  {
    if i < j - 1 { AccountKept(trace, events, i, j - 1, n, uin); }
    assert StepAt(trace, events, j - 1);
    AccountNext(trace[j - 1], events[j - 1], n);
  }

  /** Step `i` logged the instance in as `uin`, and nothing since has ended that or put another login in its place. */
  ghost predicate InSince(trace: seq<State>, events: seq<Timed>, i: int, j: int, n: Name, uin: string) {
    && 0 <= i < j < |trace| == |events| + 1
    && events[i].event == LoggedIn(n, uin) && uin != "" && n in trace[i].instances
    && forall k :: i < k < j ==> StaysIn(trace, events, k, n)
  }

  ghost predicate StaysIn(trace: seq<State>, events: seq<Timed>, k: int, n: Name) {
    StepAt(trace, events, k) && !LogsIn(events[k].event, n) && !LogsOut(trace[k], events[k], n)
  }

  /** Over every run: who is logged in, and as whom, is decided by the last login since which nothing ended it. */
  lemma {:induction false} LoggedInExact(trace: seq<State>, events: seq<Timed>, j: nat, n: Name, uin: string)
    requires IsRun(trace, events) && j < |trace|
    ensures LoggedInAs(trace[j], n, uin) <==> exists i :: InSince(trace, events, i, j, n, uin)
  {
    if j > 0 {
      LoggedInExact(trace, events, j - 1, n, uin);
      assert StepAt(trace, events, j - 1);
      LoginNext(trace[j - 1], events[j - 1], n, uin);
      if LoggedInAs(trace[j], n, uin) {
        if LogsIn(events[j - 1].event, n) {
          assert InSince(trace, events, j - 1, j, n, uin);
        } else {
          var i :| InSince(trace, events, i, j - 1, n, uin);
          assert StaysIn(trace, events, j - 1, n);
          assert InSince(trace, events, i, j, n, uin);
        }
      }
      if i :| InSince(trace, events, i, j, n, uin) {
        if i < j - 1 {
          assert StaysIn(trace, events, j - 1, n);
          assert InSince(trace, events, i, j - 1, n, uin);
        }
      }
    }
  }

  /** The heartbeat at step `h` is the last thing known of the instance's heartbeat. */
  ghost predicate BeatSince(trace: seq<State>, events: seq<Timed>, h: int, j: int, n: Name, at: int) {
    && 0 <= h < j < |trace| == |events| + 1
    && events[h].event.Heartbeat? && events[h].event.name == n && n in trace[h].instances && events[h].now == at
    && forall k :: h < k < j ==> KeepsBeat(trace, events, k, n)
  }

  ghost predicate KeepsBeat(trace: seq<State>, events: seq<Timed>, k: int, n: Name) {
    StepAt(trace, events, k) && !SetsBeat(events[k].event, n) && !Drops(trace[k], events[k].event, n)
  }

  lemma {:induction false} LastBeatExact(trace: seq<State>, events: seq<Timed>, j: nat, n: Name, at: int)
    requires IsRun(trace, events) && j < |trace| && at > 0
    ensures LastBeat(trace[j], n, at) <==> exists h :: BeatSince(trace, events, h, j, n, at)
  {
    if j > 0 {
      LastBeatExact(trace, events, j - 1, n, at);
      assert StepAt(trace, events, j - 1);
      BeatNext(trace[j - 1], events[j - 1], n, at);
      if LastBeat(trace[j], n, at) {
        if SetsBeat(events[j - 1].event, n) {
          assert BeatSince(trace, events, j - 1, j, n, at);
        } else {
          var h :| BeatSince(trace, events, h, j - 1, n, at);
          assert KeepsBeat(trace, events, j - 1, n);
          assert BeatSince(trace, events, h, j, n, at);
        }
      }
      if h :| BeatSince(trace, events, h, j, n, at) {
        if h < j - 1 {
          assert KeepsBeat(trace, events, j - 1, n);
          assert BeatSince(trace, events, h, j - 1, n, at);
        }
      }
    }
  }

  /** Over every run: a tick's check puts a name on the list of notices if and only if its listing had it running on
      this node, it is logged in, and its last heartbeat, which nothing has reset, is over 90 seconds old. */
  lemma SilenceExact(trace: seq<State>, events: seq<Timed>, d: nat, n: Name)
    requires IsRun(trace, events) && d < |events| && StepAt(trace, events, d) && events[d].event.HeartbeatsChecked?
    ensures trace[d + 1].phase.Notifying?
    ensures n in trace[d + 1].phase.due
            <==> && n in trace[d].phase.local
                 && (exists i, uin :: InSince(trace, events, i, d, n, uin))
                 && (exists h, at :: BeatSince(trace, events, h, d, n, at) && events[d].now - at > 90)
  {
    var s, now := trace[d], events[d].now;
    DetectExact(s.instances, s.phase.local, now, n);
    if n in s.instances {
      var x := s.instances[n];
      LoggedInExact(trace, events, d, n, x.uin);
      if x.heartbeatTs > 0 { LastBeatExact(trace, events, d, n, x.heartbeatTs); }
    }
    if i, uin :| InSince(trace, events, i, d, n, uin) {
      LoggedInExact(trace, events, d, n, uin);
    }
    if h, at :| BeatSince(trace, events, h, d, n, at) && now - at > 90 {
      assert StepAt(trace, events, h);
      LastBeatExact(trace, events, d, n, at);
    }
  }

  /** The step tells that the login of `n` is lost: it is its turn, and it is still logged out. */
  ghost predicate TurnOf(trace: seq<State>, events: seq<Timed>, l: int, n: Name) {
    StepAt(trace, events, l) && events[l].event.NoticeSent? && trace[l].phase.due[0] == n
  }

  ghost predicate ToldAt(trace: seq<State>, events: seq<Timed>, l: int, n: Name) {
    && TurnOf(trace, events, l, n)
    && Out(trace[l], events[l]).loginLost
       == if n in trace[l].instances && !trace[l].instances[n].loggedIn then Some(n) else None
  }

  /** Every name on the list has its turn before the tick ends, and then the notice goes out exactly if the instance
      is still there and still logged out. */
  lemma EveryDueTold(trace: seq<State>, events: seq<Timed>, d: nat, e: nat, n: Name) returns (l: nat)
    requires IsRun(trace, events) && d < e < |events| && events[e].event.TickEnds?
    requires trace[d].phase.Notifying? && n in trace[d].phase.due
    ensures d <= l < e && ToldAt(trace, events, l, n)
  {
    assert StepAt(trace, events, e);
    l := Waits(trace, events, d, e, n);
  }

  lemma {:induction false} Waits(trace: seq<State>, events: seq<Timed>, d: nat, e: nat, n: Name) returns (l: nat)
    requires IsRun(trace, events) && d <= e < |trace|
    requires trace[d].phase.Notifying? && n in trace[d].phase.due
    requires !(trace[e].phase.Notifying? && n in trace[e].phase.due)
    ensures d <= l < e && ToldAt(trace, events, l, n)
  {
    l := e - 1;
    assert StepAt(trace, events, l);
    if trace[l].phase.Notifying? && n in trace[l].phase.due {
      assert events[l].event.NoticeSent?;
      var due := trace[l].phase.due;
      assert due == [due[0]] + due[1..];
    } else {
      l := Waits(trace, events, d, l, n);
    }
  }

  // ---- the refresh interval ----

  function NextInterval(interval: int, woken: bool): int {
    if woken then REFRESH_MIN
    else if interval + REFRESH_STEP < REFRESH_MAX then interval + REFRESH_STEP else REFRESH_MAX
  }

  function IntervalAfter(wakes: seq<bool>): int {
    if wakes == [] then REFRESH_MIN else NextInterval(IntervalAfter(wakes[..|wakes| - 1]), wakes[|wakes| - 1])
  }

  /** The interval depends only on how long nothing has happened: three seconds more per idle round, up to 30. */
  lemma {:induction false} IntervalExact(wakes: seq<bool>, idle: nat)
    requires idle <= |wakes| && (forall i :: |wakes| - idle <= i < |wakes| ==> !wakes[i])
    requires idle == |wakes| || wakes[|wakes| - idle - 1]
    ensures IntervalAfter(wakes) == if idle < 9 then 3 + 3 * idle else 30
  {
    if idle > 0 { IntervalExact(wakes[..|wakes| - 1], idle - 1); }
  }

  /** A tick that is not skipped: the table reflects the listing and is compared with the set taken before. */
  lemma ListingNext(t: Table, prev: set<Key>, initialized: bool, listing: seq<Listed>, now: int)
    requires listing != [] || t != map[]
    ensures var s, step := State(t, Listing(prev), initialized), Timed(now, ListingArrives(listing));
            var after := Reflection(t, listing, now);
            var curr := RunningSet(after);
            && Next(s, step) == State(after, Refreshed(RunningLocal(listing)), true)
            && Out(s, step) == Notices(prev - curr, if initialized then curr - prev else {}, None)
  {}

  class ContainerStateEngine {
    var subsystem: InstanceSubsystem
    var initialized: bool
    var idleInterval: int

    constructor (subsystem: InstanceSubsystem)
      ensures this.subsystem == subsystem && !initialized && idleInterval == REFRESH_MIN
    {
      this.subsystem, initialized, idleInterval := subsystem, false, REFRESH_MIN;
    }

    method Running() returns (running: set<Key>)
      requires subsystem.Valid()
      ensures running == RunningSet(subsystem.View())
    {
      running := set n | n in subsystem.instances && subsystem.instances[n].status == RUNNING
                   :: (n, subsystem.instances[n].nodeId);
      ghost var t := subsystem.View();
      assert forall n :: n in t <==> n in subsystem.instances;
      assert forall n :: n in t ==>
        t[n].status == subsystem.instances[n].status && t[n].nodeId == subsystem.instances[n].nodeId;
      forall k | k in running ensures k in RunningSet(t) {
        assert k.0 in t;
      }
      forall k | k in RunningSet(t) ensures k in running {
        assert k.0 in subsystem.instances;
      }
    }

    method LocalNames(listing: seq<Listed>) returns (local: seq<Name>)
      ensures local == RunningLocal(listing)
    {
      local := [];
      for i := 0 to |listing|
        invariant local == RunningLocal(listing[..i])
      {
        assert listing[..i + 1][..i] == listing[..i];
        if listing[i].status == RUNNING && listing[i].nodeId == LOCAL {
          local := local + [listing[i].name];
        }
      }
      assert listing[..|listing|] == listing;
    }

    method Compare(prev: set<Key>, listing: seq<Listed>, announce: bool, now: int) returns (out: Notices)
      requires subsystem.Valid()
      modifies subsystem, subsystem.instances.Values
      ensures subsystem.Valid()
      ensures subsystem.View() == Reflection(old(subsystem.View()), listing, now)
      ensures var curr := RunningSet(subsystem.View());
              out == Notices(prev - curr, if announce then curr - prev else {}, None)
    {
      subsystem.Reflect(listing, now);
      var curr := Running();
      out := Notices(prev - curr, if announce then curr - prev else {}, None);
    }

    /** The part of a tick from the listing to the notices; `prev` was taken when the tick began. */
    method ListingPart(prev: set<Key>, listing: seq<Listed>, now: int)
      returns (local: seq<Name>, out: Notices, done: bool)
      requires subsystem.Valid()
      modifies `initialized, subsystem, subsystem.instances.Values
      ensures subsystem.Valid()
      ensures var s, t := old(State(subsystem.View(), Listing(prev), initialized)), Timed(now, ListingArrives(listing));
              && State(subsystem.View(), if done then Idle else Refreshed(local), initialized) == Next(s, t)
              && out == Out(s, t)
    {
      local, out := [], SILENT;
      done := NothingToDo(listing);
      if done {
        return;
      }
      ghost var was := subsystem.View();
      ListingNext(was, prev, initialized, listing, now);
      local := LocalNames(listing);
      var announce := initialized;
      initialized := true;
      out := Compare(prev, listing, announce, now);
      assert subsystem.View() == Reflection(was, listing, now);
    }

    method NothingToDo(listing: seq<Listed>) returns (nothing: bool)
      requires subsystem.Valid()
      ensures nothing <==> listing == [] && subsystem.View() == map[]
    {
      nothing := listing == [] && subsystem.instances.Keys == {};
      if subsystem.instances.Keys == {} {
        assert subsystem.View() == map[];
      } else {
        var n :| n in subsystem.instances;
        assert n in subsystem.View();
      }
    }

    /** The heartbeat loop. */
    method HeartbeatPart(local: seq<Name>, now: int) returns (due: seq<Name>)
      requires subsystem.Valid()
      modifies subsystem.instances.Values
      ensures subsystem.Valid()
      ensures (subsystem.View(), due) == Detect(old(subsystem.View()), local, now)
    {
      due := [];
      for i := 0 to |local|
        invariant subsystem.Valid()
        invariant (subsystem.View(), due) == Detect(old(subsystem.View()), local[..i], now)
      {
        assert local[..i + 1][..i] == local[..i];
        var out := TimeOutOne(local[i], now);
        if out {
          due := due + [local[i]];
        }
      }
      assert local[..|local|] == local;
    }

    method TimeOutOne(n: Name, now: int) returns (out: bool)
      requires subsystem.Valid()
      modifies subsystem.instances.Values
      ensures subsystem.Valid()
      ensures var t := old(subsystem.View());
              && (out <==> n in t && TimedOut(t[n], now))
              && subsystem.View() == if out then t[n := LogOut(t[n], now)] else t
    {
      out := false;
      if n in subsystem.instances {
        var inst := subsystem.instances[n];
        if inst.loggedIn && inst.heartbeatTs > 0 && now - inst.heartbeatTs > HEARTBEAT_TIMEOUT {
          inst.UpdateLogin(false, inst.uin, "waiting", "plugin", "heartbeat_timeout", now);
          assert forall m :: m in subsystem.instances && m != n ==> subsystem.instances[m] != inst;
          out := true;
        }
      }
    }

    method AdaptInterval(woken: bool)
      modifies `idleInterval
      ensures idleInterval == NextInterval(old(idleInterval), woken)
    {
      if woken {
        idleInterval := REFRESH_MIN;
      } else {
        idleInterval := if idleInterval + REFRESH_STEP < REFRESH_MAX then idleInterval + REFRESH_STEP else REFRESH_MAX;
      }
    }
  }
}
