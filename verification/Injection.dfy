/** Login-time injection of the BotShepherd client into a container's OneBot configuration: the two-layer
    guard against repeating it, the choice of port, and the port every later synchronisation sends. */
module Injection {
  import opened Common
  import Ports = PortAllocator

  type Name = string
  type Uin = string
  type Key = (Name, Uin)

  /** `Bs` is the address the handler builds; any other text may or may not name a port. */
  datatype Url = Bs(host: string, bsPort: int) | Other(text: string, anyPort: Option<int>)

  function PortOf(url: Url): Option<int> {
    match url
    case Bs(_, p) => Some(p)
    case Other(_, p) => p
  }

  /** One entry of `websocketClients`. */
  datatype Client = Client(name: string, url: Url)
  const BOTSHEPHERD := "botshepherd"

  /** The configuration files (their WebSocket clients) and the marker files of all containers. */
  datatype Disk = Disk(files: map<Key, seq<Client>>, markers: set<Key>)

  /** What the handler reads from the settings: with BotShepherd off, an optional fixed address. */
  datatype Settings = Settings(bsEnabled: bool, host: string, basePort: int, fixedUrl: Option<Url>)

  /** Which of the handler's file operations raise. */
  datatype Faults = Faults(unlink: bool, write: bool, mark: bool)

  datatype Login = Login(loggedIn: bool, uin: Uin)

  datatype Sync = Sync(bindPort: int, url: Url)
  datatype Effects = Effects(restart: bool, sync: Option<Sync>)

  const NOTHING := Effects(false, None)

  function FirstBs(clients: seq<Client>): Option<Url> {
    if clients == [] then None
    else if clients[0].name == BOTSHEPHERD then Some(clients[0].url)
    else FirstBs(clients[1..])
  }

  function FileOf(disk: Disk, key: Key): seq<Client> { if key in disk.files then disk.files[key] else [] }

  /** The file already names the address, or gets one more entry at the end. */
  function Generate(disk: Disk, key: Key, url: Url): Disk {
    var clients := FileOf(disk, key);
    if exists c :: c in clients && c.url == url then disk
    else disk.(files := disk.files[key := clients + [Client(BOTSHEPHERD, url)]])
  }

  /** The synchronisation of an account that was injected before. */
  function Resync(disk: Disk, key: Key, settings: Settings): Effects {
    if !settings.bsEnabled then NOTHING
    else match FirstBs(FileOf(disk, key))
      case None => NOTHING
      case Some(url) =>
        if PortOf(url).Some? && PortOf(url).value != 0 then Effects(false, Some(Sync(PortOf(url).value, url)))
        else NOTHING
  }

  /** Writes the entry and the marker; a failure in between leaves the entry without a marker. */
  function Inject(disk: Disk, key: Key, url: Url, faults: Faults): (Disk, bool) {
    if faults.write then (disk, false)
    else
      var written := Generate(disk, key, url);
      if faults.mark then (written, false)
      else (written.(markers := written.markers + {key}), true)
  }

  /** The login handler; `port` is what the allocator answers if it is asked. */
  function Handle(disk: Disk, key: Key, prev: Login, settings: Settings, port: Option<int>, faults: Faults)
    : (Disk, Effects)
  {
    if key.1 == "" || (prev.loggedIn && prev.uin == key.1) then (disk, NOTHING)
    else if key in disk.markers && key in disk.files then (disk, Resync(disk, key, settings))
    else
      var unmarked := if faults.unlink then disk else disk.(markers := disk.markers - {key});
      if settings.bsEnabled then
        if port.None? then (unmarked, NOTHING)
        else
          var url := Bs(settings.host, port.value);
          var (after, restart) := Inject(unmarked, key, url, faults);
          (after, Effects(restart, Some(Sync(port.value, url))))
      else if settings.fixedUrl.None? then (unmarked, NOTHING)
      else
        var (after, restart) := Inject(unmarked, key, settings.fixedUrl.value, faults);
        (after, Effects(restart, None))
  }

  // ---- runs ----

  datatype Scope = All | Config | Cache | Logs

  /** `LoggedOut` is any loss of the login state; `Restarted` is a restart of the manager; `Rewrite` is
      another program saving the configuration file of an account, `Deleted` one that deletes it and
      `Unmarked` one that deletes its marker. */
  datatype Event =
    | LoggedIn(name: Name, uin: Uin, settings: Settings, port: Option<int>, faults: Faults)
    | LoggedOut(name: Name)
    | Appears(name: Name)
    | Vanishes(name: Name)
    | Restarted
    | Cleared(name: Name, scope: Scope, keepConfig: bool)
    | Rewrite(key: Key, clients: seq<Client>)
    | Deleted(key: Key)
    | Unmarked(key: Key)

  datatype State = State(disk: Disk, logins: map<Name, Login>)

  function Clear(disk: Disk, name: Name, scope: Scope, keepConfig: bool): Disk {
    var config := (scope.All? || scope.Config?) && !keepConfig;
    Disk(if config then map k | k in disk.files && k.0 != name :: disk.files[k] else disk.files,
         if scope.All? then set k | k in disk.markers && k.0 != name else disk.markers)
  }

  /** The effects are those for the account `(name, uin)` of a login; every other event has none. */
  function Next(s: State, e: Event): (State, Effects) {
    match e
    case LoggedIn(n, u, settings, port, faults) =>
      if n !in s.logins || u == "" then (s, NOTHING)
      else
        var (disk, effects) := Handle(s.disk, (n, u), s.logins[n], settings, port, faults);
        (State(disk, s.logins[n := Login(true, u)]), effects)
    case LoggedOut(n) =>
      (if n in s.logins then s.(logins := s.logins[n := s.logins[n].(loggedIn := false)]) else s, NOTHING)
    case Appears(n) => (if n in s.logins then s else s.(logins := s.logins[n := Login(false, "")]), NOTHING)
    case Vanishes(n) => (s.(logins := s.logins - {n}), NOTHING)
    case Restarted => (s.(logins := map[]), NOTHING)
    case Cleared(n, scope, keep) =>
      (State(Clear(s.disk, n, scope, keep), if scope.All? then s.logins - {n} else s.logins), NOTHING)
    case Rewrite(k, clients) => (s.(disk := s.disk.(files := s.disk.files[k := clients])), NOTHING)
    case Deleted(k) => (s.(disk := s.disk.(files := s.disk.files - {k})), NOTHING)
    case Unmarked(k) => (s.(disk := s.disk.(markers := s.disk.markers - {k})), NOTHING)
  }

  ghost predicate IsRun(trace: seq<State>, events: seq<Event>) {
    && |trace| == |events| + 1
    && forall i :: 0 <= i < |events| ==> trace[i + 1] == Next(trace[i], events[i]).0
  }

  predicate ForKey(e: Event, key: Key) { e.LoggedIn? && (e.name, e.uin) == key }

  /** A data clear that takes the container's configuration or its markers, or the deletion of the account's
      configuration file or marker. */
  predicate IsClear(e: Event, key: Key) {
    || (e.Cleared? && e.name == key.0 && (e.scope.All? || e.scope.Config?))
    || e == Deleted(key)
    || e == Unmarked(key)
  }

  ghost function Restarts(trace: seq<State>, events: seq<Event>, key: Key, i: nat, j: nat): nat
    requires i <= j <= |events| && |trace| == |events| + 1
  {
    if i == j then 0
    else Restarts(trace, events, key, i, j - 1)
         + if RestartsAt(trace[j - 1], events[j - 1], key) then 1 else 0
  }

  ghost predicate RestartsAt(s: State, e: Event, key: Key) { ForKey(e, key) && Next(s, e).1.restart }

  ghost function Clears(events: seq<Event>, key: Key, i: nat, j: nat): nat
    requires i <= j <= |events|
  {
    if i == j then 0 else Clears(events, key, i, j - 1) + if IsClear(events[j - 1], key) then 1 else 0
  }

  ghost predicate Settled(s: State, key: Key) { key in s.disk.markers && key in s.disk.files }

  lemma SettledStep(s: State, e: Event, key: Key)
    ensures var (s', eff) := Next(s, e);
            && (Settled(s, key) && !IsClear(e, key) ==> Settled(s', key))
            && (RestartsAt(s, e, key) ==> Settled(s', key) && !Settled(s, key))
  {
    if e.LoggedIn? && e.name in s.logins && e.uin != "" {
      InjectSettles(s.disk, (e.name, e.uin), Bs(e.settings.host, if e.port.Some? then e.port.value else 0), e.faults);
    }
  }

  lemma InjectSettles(disk: Disk, key: Key, url: Url, faults: Faults)
    ensures var (after, restart) := Inject(disk, key, url, faults);
            restart ==> key in after.markers && key in after.files
  {}

  /** A restart for injection happens at most once per account, plus once for every data clear of its
      container, across any logins, logouts and restarts of the manager. */
  lemma {:induction false} RestartBound(trace: seq<State>, events: seq<Event>, key: Key, i: nat, j: nat)
    requires IsRun(trace, events) && i <= j <= |events|
    ensures Restarts(trace, events, key, i, j) <= Clears(events, key, i, j) + if Settled(trace[j], key) then 1 else 0
    decreases j - i
  {
    if i < j {
      RestartBound(trace, events, key, i, j - 1);
      SettledStep(trace[j - 1], events[j - 1], key);
    }
  }

  lemma AtMostOneRestart(trace: seq<State>, events: seq<Event>, key: Key, i: nat, j: nat)
    requires IsRun(trace, events) && i <= j <= |events|
    requires forall k :: i <= k < j ==> !IsClear(events[k], key)
    ensures Restarts(trace, events, key, i, j) <= 1
    ensures Settled(trace[i], key) ==> Restarts(trace, events, key, i, j) == 0
  {
    RestartBound(trace, events, key, i, j);
    NoClears(events, key, i, j);
    if Settled(trace[i], key) { SettledStays(trace, events, key, i, j); }
  }

  lemma {:induction false} NoClears(events: seq<Event>, key: Key, i: nat, j: nat)
    requires i <= j <= |events| && forall k :: i <= k < j ==> !IsClear(events[k], key)
    ensures Clears(events, key, i, j) == 0
    decreases j - i
  {
    if i < j { NoClears(events, key, i, j - 1); }
  }

  lemma {:induction false} SettledStays(trace: seq<State>, events: seq<Event>, key: Key, i: nat, j: nat)
    requires IsRun(trace, events) && i <= j <= |events| && Settled(trace[i], key)
    requires forall k :: i <= k < j ==> !IsClear(events[k], key)
    ensures Settled(trace[j], key) && Restarts(trace, events, key, i, j) == 0
    decreases j - i
  {
    if i < j {
      SettledStays(trace, events, key, i, j - 1);
      SettledStep(trace[j - 1], events[j - 1], key);
    }
  }

  // ---- the port that is synchronised ----

  lemma {:induction false} FirstBsAppend(a: seq<Client>, c: Client)
    ensures FirstBs(a + [c]) == if FirstBs(a).Some? then FirstBs(a)
                                else if c.name == BOTSHEPHERD then Some(c.url) else None
  {
    if a != [] {
      FirstBsAppend(a[1..], c);
      assert (a + [c])[1..] == a[1..] + [c];
    }
  }

  /** Another program may save the file as long as the first "botshepherd" entry stays what it was. */
  ghost predicate KeepsBs(s: State, e: Event, key: Key) {
    e.Rewrite? && e.key == key ==> FirstBs(e.clients) == FirstBs(FileOf(s.disk, key))
  }

  lemma {:induction false} FirstBsStays(trace: seq<State>, events: seq<Event>, key: Key, i: nat, j: nat)
    requires IsRun(trace, events) && i <= j <= |events| && Settled(trace[i], key)
    requires forall k :: i <= k < j ==> !IsClear(events[k], key) && KeepsBs(trace[k], events[k], key)
    ensures Settled(trace[j], key) && FirstBs(FileOf(trace[j].disk, key)) == FirstBs(FileOf(trace[i].disk, key))
    decreases j - i
  {
    if i < j {
      FirstBsStays(trace, events, key, i, j - 1);
      SettledStep(trace[j - 1], events[j - 1], key);
    }
  }

  /** The injection at step `i` chose `port`. From then on, up to a data clear, every synchronisation of the
      account sends the first "botshepherd" entry of its file; that is the chosen address exactly when the
      file had no other such entry before, and then every later synchronisation sends the chosen port. */
  lemma LaterSyncs(trace: seq<State>, events: seq<Event>, key: Key, i: nat, j: nat)
    requires IsRun(trace, events) && i < j < |events|
    requires ForKey(events[i], key) && Next(trace[i], events[i]).1.restart && events[i].settings.bsEnabled
    requires ForKey(events[j], key)
    requires forall k :: i < k <= j ==> !IsClear(events[k], key) && KeepsBs(trace[k], events[k], key)
    ensures var before := FirstBs(FileOf(trace[i].disk, key));
            var chosen := Bs(events[i].settings.host, events[i].port.value);
            var now := FirstBs(FileOf(trace[j].disk, key));
            var sync := Next(trace[j], events[j]).1.sync;
            && Next(trace[i], events[i]).1.sync == Some(Sync(events[i].port.value, chosen))
            && (sync.Some? ==> now == Some(sync.value.url) && PortOf(sync.value.url) == Some(sync.value.bindPort))
            && (before.None? || before == Some(chosen) ==> now.None? || now == Some(chosen))
            && (before.Some? && before != Some(chosen) ==> now == before)
            && (sync.Some? && (before.None? || before == Some(chosen)) ==>
                  sync.value == Sync(events[i].port.value, chosen))
  {
    var e := events[i];
    var chosen := Bs(e.settings.host, e.port.value);
    SettledStep(trace[i], e, key);
    FirstBsAppend(FileOf(trace[i].disk, key), Client(BOTSHEPHERD, chosen));
    PresentKeeps(trace[i].disk, key, chosen);
    FirstBsStays(trace, events, key, i + 1, j);
  }

  lemma PresentKeeps(disk: Disk, key: Key, url: Url)
    ensures var clients := FileOf(disk, key);
            FileOf(Generate(disk, key, url), key) ==
            if exists c :: c in clients && c.url == url then clients else clients + [Client(BOTSHEPHERD, url)]
  {}

  /** Clearing the data but keeping the configuration defeats this: the next injection announces its new
      port, and every login after it synchronises the old one. */
  lemma KeptConfigSyncsOldPort(s: State, key: Key, settings: Settings, stale: Url, port: int)
    requires key in s.disk.files && FirstBs(s.disk.files[key]) == Some(stale)
    requires PortOf(stale).Some? && PortOf(stale).value !in {0, port}
    requires key.1 != "" && settings.bsEnabled
    ensures var s1 := Next(s, Cleared(key.0, All, true)).0;
            var s2 := Next(s1, Appears(key.0)).0;
            var login := LoggedIn(key.0, key.1, settings, Some(port), Faults(false, false, false));
            var (s3, e3) := Next(s2, login);
            var s4 := Next(s3, LoggedOut(key.0)).0;
            var (s5, e5) := Next(s4, login);
            && e3 == Effects(true, Some(Sync(port, Bs(settings.host, port))))
            && e5 == Effects(false, Some(Sync(PortOf(stale).value, stale)))
  {
    var url := Bs(settings.host, port);
    var s1 := Next(s, Cleared(key.0, All, true)).0;
    assert key !in s1.disk.markers && FileOf(s1.disk, key) == s.disk.files[key];
    PresentKeeps(s1.disk.(markers := s1.disk.markers - {key}), key, url);
    FirstBsAppend(s.disk.files[key], Client(BOTSHEPHERD, url));
  }

  // ---- when something is injected ----

  /** The handler has work to do: an account that was not logged in here already. */
  predicate Arrives(key: Key, prev: Login) { key.1 != "" && !(prev.loggedIn && prev.uin == key.1) }

  /** With BotShepherd on, a new address on the chosen port; otherwise the fixed one, if there is one. */
  function Address(settings: Settings, port: Option<int>): Option<Url> {
    if !settings.bsEnabled then settings.fixedUrl
    else match port
      case None => None
      case Some(p) => Some(Bs(settings.host, p))
  }

  ghost predicate Names(clients: seq<Client>, url: Url) { exists i :: 0 <= i < |clients| && clients[i].url == url }

  /** The first entry called "botshepherd" is the one that is read back. */
  ghost predicate FirstEntry(clients: seq<Client>, url: Url, i: int) {
    && 0 <= i < |clients| && clients[i] == Client("botshepherd", url)
    && forall k :: 0 <= k < i ==> clients[k].name != "botshepherd"
  }

  lemma {:induction false} FirstBsExact(clients: seq<Client>, url: Url)
    ensures FirstBs(clients) == Some(url) <==> exists i :: FirstEntry(clients, url, i)
  {
    if clients != [] {
      var rest := clients[1..];
      FirstBsExact(rest, url);
      if i :| FirstEntry(rest, url, i) {
        assert clients[0].name != "botshepherd" ==> FirstEntry(clients, url, i + 1);
      }
      if i :| FirstEntry(clients, url, i) {
        assert i > 0 ==> FirstEntry(rest, url, i - 1);
      }
      assert clients[0] == Client("botshepherd", url) ==> FirstEntry(clients, url, 0);
    }
  }

  /** A login restarts the container if and only if the account arrives, is not injected yet, an address is available
      and both files could be written. The file then names the address, old entries before it, and the marker is
      there. */
  lemma RestartExact(disk: Disk, key: Key, prev: Login, settings: Settings, port: Option<int>, faults: Faults)
    ensures var (after, effects) := Handle(disk, key, prev, settings, port, faults);
            var address := Address(settings, port);
            && (effects.restart <==>
                  && Arrives(key, prev) && !(key in disk.markers && key in disk.files)
                  && address.Some? && !faults.write && !faults.mark)
            && (effects.restart ==>
                  && key in after.files && key in after.markers && Names(after.files[key], address.value)
                  && FileOf(disk, key) <= after.files[key])
  {
    var address := Address(settings, port);
    if address.Some? {
      var clients := FileOf(disk, key);
      if c :| c in clients && c.url == address.value {
        var i :| 0 <= i < |clients| && clients[i] == c;
        assert Names(clients, address.value);
      } else {
        assert (clients + [Client(BOTSHEPHERD, address.value)])[|clients|].url == address.value;
      }
    }
  }

  /** A login synchronises if and only if BotShepherd is on, the account arrives, and there is a port to send: the one
      the injected address names, or for an account not injected yet the new one, even if writing it failed. */
  lemma SyncExact(disk: Disk, key: Key, prev: Login, settings: Settings, port: Option<int>, faults: Faults, sent: Sync)
    ensures var effects := Handle(disk, key, prev, settings, port, faults).1;
            effects.sync == Some(sent) <==>
              && settings.bsEnabled && Arrives(key, prev)
              && if key in disk.markers && key in disk.files
                 then && PortOf(sent.url) == Some(sent.bindPort) && sent.bindPort != 0
                      && exists i :: FirstEntry(disk.files[key], sent.url, i)
                 else port == Some(sent.bindPort) && sent.url == Bs(settings.host, sent.bindPort)
  {
    if key in disk.files { FirstBsExact(disk.files[key], sent.url); }
  }

  /** The marker is there after a login if and only if the container is restarted for it, or it was there and was not
      stale, or could not be deleted. */
  lemma MarkerExact(disk: Disk, key: Key, prev: Login, settings: Settings, port: Option<int>, faults: Faults)
    ensures var (after, effects) := Handle(disk, key, prev, settings, port, faults);
            key in after.markers <==>
              effects.restart
              || (key in disk.markers && (!Arrives(key, prev) || key in disk.files || faults.unlink))
  {}

  /** No other account's file or marker is touched, and no entry of this account's file is lost. */
  lemma OnlyAdds(disk: Disk, key: Key, prev: Login, settings: Settings, port: Option<int>, faults: Faults, other: Key)
    ensures var after := Handle(disk, key, prev, settings, port, faults).0;
            && FileOf(disk, other) <= FileOf(after, other) && (other in disk.files ==> other in after.files)
            && (other != key ==> (other in after.files <==> other in disk.files)
                                 && FileOf(after, other) == FileOf(disk, other)
                                 && (other in after.markers <==> other in disk.markers))
  {}

  /** The step injects: a known instance sees a new login of the account, its files are not both there, and nothing
      is missing or fails. */
  ghost predicate Injects(s: State, e: Event, key: Key) {
    && ForKey(e, key) && key.0 in s.logins && Arrives(key, s.logins[key.0]) && !Settled(s, key)
    && Address(e.settings, e.port).Some? && !e.faults.write && !e.faults.mark
  }

  lemma InjectsExact(s: State, e: Event, key: Key)
    ensures RestartsAt(s, e, key) <==> Injects(s, e, key)
  {
    if ForKey(e, key) && key.0 in s.logins {
      RestartExact(s.disk, key, s.logins[key.0], e.settings, e.port, e.faults);
    }
  }

  /** Between clears an account is injected exactly once if any login could inject it, and otherwise never. */
  lemma {:induction false} InjectedOnce(trace: seq<State>, events: seq<Event>, key: Key, i: nat, j: nat)
    requires IsRun(trace, events) && i <= j <= |events|
    requires forall k :: i <= k < j ==> !IsClear(events[k], key)
    ensures Restarts(trace, events, key, i, j)
            == if exists k :: i <= k < j && Injects(trace[k], events[k], key) then 1 else 0
    decreases j - i
  {
    if i < j {
      InjectedOnce(trace, events, key, i, j - 1);
      InjectsExact(trace[j - 1], events[j - 1], key);
      AtMostOneRestart(trace, events, key, i, j);
    }
  }

  /** A clear takes the container's configuration files if it is asked for everything or the configuration and not to
      keep them, and its markers if it is asked for everything; nothing of another container. */
  lemma ClearExact(s: State, key: Key, name: Name, scope: Scope, keepConfig: bool)
    ensures var disk := Next(s, Cleared(name, scope, keepConfig)).0.disk;
            && (key in disk.files <==>
                  key in s.disk.files && !(key.0 == name && scope in {All, Config} && !keepConfig))
            && (key in disk.files ==> disk.files[key] == s.disk.files[key])
            && (key in disk.markers <==> key in s.disk.markers && !(key.0 == name && scope == All))
  {}

  /** The login state a run has reached decides whether the next login arrives: exactly a login of the same account,
      with no loss of the login, the instance or the manager since. */
  predicate ForgetsLogin(e: Event, name: Name) {
    || (e.LoggedOut? && e.name == name) || (e.Vanishes? && e.name == name) || e.Restarted?
    || (e.Cleared? && e.name == name && e.scope.All?)
  }

  lemma LoginNext(s: State, e: Event, name: Name, uin: Uin)
    ensures var l := Next(s, e).0.logins;
            name in l && l[name] == Login(true, uin) <==>
              && name in s.logins
              && if e.LoggedIn? && e.name == name && e.uin != "" then e.uin == uin
                 else s.logins[name] == Login(true, uin) && !ForgetsLogin(e, name)
  {}

  class LifecycleManager {
    var disk: Disk
    var reservedPorts: set<int>

    constructor (disk: Disk)
      ensures this.disk == disk && reservedPorts == {}
    {
      this.disk, reservedPorts := disk, {};
    }

    method ReadInjectedBsUrl(key: Key) returns (url: Option<Url>)
      ensures url == FirstBs(FileOf(disk, key))
    {
      if key !in disk.files {
        return None;
      }
      var clients := disk.files[key];
      var i := 0;
      while i < |clients|
        invariant 0 <= i <= |clients|
        invariant FirstBs(clients) == FirstBs(clients[i..])
      {
        if clients[i].name == BOTSHEPHERD {
          return Some(clients[i].url);
        }
        assert clients[i..][1..] == clients[i + 1..];
        i := i + 1;
      }
      url := None;
    }

    method GenerateConfig(key: Key, url: Url)
      modifies `disk
      ensures disk == Generate(old(disk), key, url)
    {
      var clients := if key in disk.files then disk.files[key] else [];
      var i := 0;
      while i < |clients|
        invariant 0 <= i <= |clients|
        invariant forall c :: c in clients[..i] ==> c.url != url
      {
        if clients[i].url == url {
          return;
        }
        i := i + 1;
      }
      assert clients[..i] == clients;
      disk := disk.(files := disk.files[key := clients + [Client(BOTSHEPHERD, url)]]);
    }

    /** The handler; whatever fails, the port it reserved is released again. */
    method OnLoginDetected(key: Key, prev: Login, settings: Settings, usedPorts: set<int>, faults: Faults)
      returns (effects: Effects)
      modifies this
      ensures var port := Ports.FindAvailable(settings.basePort, usedPorts + old(reservedPorts));
              (disk, effects) == Handle(old(disk), key, prev, settings, port, faults)
      ensures reservedPorts == old(reservedPorts)
    {
      if key.1 == "" || (prev.loggedIn && prev.uin == key.1) {
        return NOTHING;
      }
      effects := NOTHING;
      if key in disk.markers {
        if key in disk.files {
          if settings.bsEnabled {
            var injected := ReadInjectedBsUrl(key);
            if injected.Some? && PortOf(injected.value).Some? && PortOf(injected.value).value != 0 {
              effects := Effects(false, Some(Sync(PortOf(injected.value).value, injected.value)));
            }
          }
          return;
        }
        if !faults.unlink {
          disk := disk.(markers := disk.markers - {key});
        }
      } else {
        assert disk.markers - {key} == disk.markers;
      }
      var url := settings.fixedUrl;
      var bsPort := 0;
      if settings.bsEnabled {
        var port := Ports.ScanPorts(settings.basePort, usedPorts + reservedPorts);
        if port.None? {
          return;
        }
        Ports.FindAvailableExact(settings.basePort, usedPorts + reservedPorts);
        bsPort := port.value;
        reservedPorts := reservedPorts + {bsPort};
        url := Some(Bs(settings.host, bsPort));
      }
      if url.Some? {
        if !faults.write {
          GenerateConfig(key, url.value);
          if !faults.mark {
            disk := disk.(markers := disk.markers + {key});
            effects := effects.(restart := true);
          }
        }
        if settings.bsEnabled {
          reservedPorts := reservedPorts - {bsPort};
          effects := effects.(sync := Some(Sync(bsPort, url.value)));
        }
      }
    }
  }
}
