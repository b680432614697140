/** Recreating a container: the engine configuration built from parameters, the snapshot read back from it,
    and the endpoint that deletes, chooses, creates and releases. */
module ContainerConfig {
  import opened Common
  import opened Decimal
  import Ports = PortAllocator

  const MIB := 1048576

  /** A Python dictionary of strings: keys are distinct and keep their place. */
  type Dict = seq<(string, string)>

  function Put(d: Dict, key: string, value: string): Dict {
    if d == [] then [(key, value)]
    else if d[0].0 == key then [(key, value)] + d[1..]
    else [d[0]] + Put(d[1..], key, value)
  }

  predicate HasKey(d: Dict, key: string) { exists i :: 0 <= i < |d| && d[i].0 == key }

  ghost predicate DistinctKeys(d: Dict) { forall i, j :: 0 <= i < j < |d| ==> d[i].0 != d[j].0 }

  // ---- the engine's configuration ----

  /** A port binding is a list of entries, each with or without a host port. */
  datatype HostConfig = HostConfig(
    binds: seq<string>,
    portBindings: map<string, seq<Option<string>>>,
    restartPolicy: Option<string>,
    memory: Option<int>,
    networkMode: Option<string>)

  datatype Config = Config(image: string, env: seq<string>, host: HostConfig, exposed: set<string>)

  const WEBUI := "6099/tcp"
  const HTTP := "3000/tcp"
  const WS := "3001/tcp"

  /** The arguments of create_container. */
  datatype Params = Params(
    image: string, binds: seq<string>, webui: nat, http: nat, ws: nat,
    env: Dict, policy: string, memLimit: Option<string>, network: Option<string>)

  function EnvLines(env: Dict): seq<string> {
    if env == [] then [] else [env[0].0 + "=" + env[0].1] + EnvLines(env[1..])
  }

  /** `s.rstrip("m")`. */
  function StripUnit(s: string): string {
    if s != "" && s[|s| - 1] == 'm' then StripUnit(s[..|s| - 1]) else s
  }

  function MemoryBytes(memLimit: Option<string>): Option<int> {
    match memLimit
    case None => None
    case Some(text) =>
      if text == "" || !IsDigits(StripUnit(text)) then None else Some(Parse(StripUnit(text)) * MIB)
  }

  function Build(p: Params): Config {
    Config(p.image, EnvLines(p.env),
           HostConfig(p.binds,
                      map[WEBUI := [Some(Print(p.webui))], HTTP := [Some(Print(p.http))], WS := [Some(Print(p.ws))]],
                      Some(p.policy), MemoryBytes(p.memLimit),
                      match p.network
                      case None => None
                      case Some(mode) => if mode != "" && mode != "bridge" then Some(mode) else None),
           {WEBUI, HTTP, WS})
  }

  lemma {:induction false} EnvLinesAt(env: Dict, i: nat)
    ensures |EnvLines(env)| == |env|
    ensures i < |env| ==> EnvLines(env)[i] == env[i].0 + "=" + env[i].1
  {
    if env != [] { EnvLinesAt(env[1..], if i > 0 then i - 1 else 0); }
  }

  /** What the engine is asked for: each of the three container ports is exposed and bound to its own host port alone,
      and memory is in bytes. */
  lemma BuildExact(p: Params, megabytes: nat, i: nat)
    requires p.memLimit == MemArg(megabytes)
    ensures var c := Build(p);
            && c.exposed == c.host.portBindings.Keys == {"6099/tcp", "3000/tcp", "3001/tcp"}
            && BoundTo(c.host.portBindings["6099/tcp"], p.webui)
            && BoundTo(c.host.portBindings["3000/tcp"], p.http)
            && BoundTo(c.host.portBindings["3001/tcp"], p.ws)
            && c.image == p.image && c.host.binds == p.binds && c.host.restartPolicy == Some(p.policy)
            && c.host.memory == (if megabytes > 0 then Some(megabytes * 1048576) else None)
            && (c.host.networkMode != p.network <==> p.network == Some("") || p.network == Some("bridge"))
            && (c.host.networkMode != p.network ==> c.host.networkMode == None)
            && |c.env| == |p.env| && (i < |p.env| ==> c.env[i] == p.env[i].0 + "=" + p.env[i].1)
  {
    ParsePrint(p.webui);
    ParsePrint(p.http);
    ParsePrint(p.ws);
    EnvLinesAt(p.env, i);
    if megabytes > 0 {
      ParsePrint(megabytes);
      StripMegabytes(megabytes);
    }
  }

  ghost predicate BoundTo(entries: seq<Option<string>>, port: nat) {
    |entries| == 1 && entries[0].Some? && IsDigits(entries[0].value) && Parse(entries[0].value) == port
  }

  // ---- reading a configuration back ----

  datatype Snapshot = Snapshot(
    image: string, webui: nat, http: nat, ws: nat, memory: nat, policy: string, network: string, env: Dict)

  const NO_SNAPSHOT := Snapshot("", 0, 0, 0, 0, "", "", [])

  function HostPort(bindings: map<string, seq<Option<string>>>, port: string): nat {
    if port in bindings && bindings[port] != [] && bindings[port][0].Some? && IsDigits(bindings[port][0].value)
    then Parse(bindings[port][0].value)
    else 0
  }

  /** The position of the first '=', or the length. */
  function EqualsAt(line: string): (i: nat)
    ensures i <= |line| && '=' !in line[..i] && (i < |line| ==> line[i] == '=')
  {
    if line == "" || line[0] == '=' then 0 else 1 + EqualsAt(line[1..])
  }

  function EnvOf(lines: seq<string>): Dict {
    if lines == [] then []
    else
      var before, line := EnvOf(lines[..|lines| - 1]), lines[|lines| - 1];
      var i := EqualsAt(line);
      if i == |line| then before else Put(before, line[..i], line[i + 1..])
  }

  function OrEmpty(o: Option<string>): string { match o case None => "" case Some(s) => s }

  function Read(c: Config): Snapshot {
    var bytes := match c.host.memory case None => 0 case Some(b) => b;
    Snapshot(c.image,
             HostPort(c.host.portBindings, WEBUI), HostPort(c.host.portBindings, HTTP),
             HostPort(c.host.portBindings, WS),
             if bytes > 0 then bytes / MIB else 0,
             OrEmpty(c.host.restartPolicy), OrEmpty(c.host.networkMode), EnvOf(c.env))
  }

  /** Of any container, however it was made: a host port is read from the first entry of its binding, and only if that
      is a numeral; memory is in whole megabytes, rounded down. */
  lemma ReadsExact(c: Config, n: nat)
    requires n > 0
    ensures Shows(c, "6099/tcp", n) <==> Read(c).webui == n
    ensures Shows(c, "3000/tcp", n) <==> Read(c).http == n
    ensures Shows(c, "3001/tcp", n) <==> Read(c).ws == n
    ensures Read(c).memory == n <==>
              c.host.memory.Some? && n * 1048576 <= c.host.memory.value < (n + 1) * 1048576
  {}

  ghost predicate Shows(c: Config, port: string, n: nat) {
    var bindings := c.host.portBindings;
    && port in bindings && |bindings[port]| >= 1 && bindings[port][0].Some?
    && IsDigits(bindings[port][0].value) && Parse(bindings[port][0].value) == n
  }

  lemma {:induction false} EqualsAfterKey(key: string, value: string)
    requires '=' !in key
    ensures EqualsAt(key + "=" + value) == |key|
  {
    var line := key + "=" + value;
    var i := EqualsAt(line);
    assert line[|key|] == '=';
    forall k | 0 <= k < |key| ensures line[k] != '=' { assert line[k] == key[k]; }
    forall k | 0 <= k < i ensures line[k] != '=' { assert line[..i][k] == line[k]; }
  }

  lemma {:induction false} PutNew(d: Dict, key: string, value: string)
    requires !HasKey(d, key)
    ensures Put(d, key, value) == d + [(key, value)]
  {
    if d != [] {
      assert d[0].0 != key;
      assert !HasKey(d[1..], key) by {
        forall i | 0 <= i < |d[1..]| ensures d[1..][i].0 != key { assert d[i + 1].0 != key; }
      }
      PutNew(d[1..], key, value);
      assert d == [d[0]] + d[1..];
    }
  }

  lemma {:induction false} EnvLinesAppend(a: Dict, kv: (string, string))
    ensures EnvLines(a + [kv]) == EnvLines(a) + [kv.0 + "=" + kv.1]
  {
    if a == [] {
      assert [kv][1..] == [];
    } else {
      EnvLinesAppend(a[1..], kv);
      assert (a + [kv])[1..] == a[1..] + [kv];
    }
  }

  ghost predicate PlainKeys(env: Dict) { forall i :: 0 <= i < |env| ==> '=' !in env[i].0 }

  lemma {:induction false} EnvRoundTrip(env: Dict)
    requires DistinctKeys(env) && PlainKeys(env)
    ensures EnvOf(EnvLines(env)) == env
  {
    if env != [] {
      var n := |env| - 1;
      var init, kv := env[..n], env[n];
      assert env == init + [kv];
      EnvRoundTrip(init);
      EnvLinesAppend(init, kv);
      EqualsAfterKey(kv.0, kv.1);
      var line := kv.0 + "=" + kv.1;
      assert EnvLines(env)[..|EnvLines(env)| - 1] == EnvLines(init);
      assert line[..|kv.0|] == kv.0 && line[|kv.0| + 1..] == kv.1;
      assert !HasKey(init, kv.0);
      PutNew(init, kv.0, kv.1);
    }
  }

  /** A dictionary read from lines has distinct keys and none contains '='. */
  lemma {:induction false} EnvOfIsPlain(lines: seq<string>)
    ensures PlainKeys(EnvOf(lines)) && DistinctKeys(EnvOf(lines))
  {
    if lines != [] {
      var line := lines[|lines| - 1];
      EnvOfIsPlain(lines[..|lines| - 1]);
      var i := EqualsAt(line);
      PutKeepsPlain(EnvOf(lines[..|lines| - 1]), line[..i], line[if i < |line| then i + 1 else i..]);
    }
  }

  lemma {:induction false} PutShape(d: Dict, key: string, value: string) returns (i: nat)
    ensures i <= |d| && (i < |d| ==> d[i].0 == key) && (i == |d| <==> !HasKey(d, key))
    ensures Put(d, key, value) == d[..i] + [(key, value)] + if i < |d| then d[i + 1..] else []
  {
    if d == [] {
      i := 0;
    } else if d[0].0 == key {
      i := 0;
    } else {
      i := PutShape(d[1..], key, value);
      assert d[..i + 1] == [d[0]] + d[1..][..i];
      if HasKey(d, key) {
        var k :| 0 <= k < |d| && d[k].0 == key;
        assert d[1..][k - 1].0 == key;
      }
      i := i + 1;
    }
  }

  lemma PutKeepsPlain(d: Dict, key: string, value: string)
    requires DistinctKeys(d) && PlainKeys(d) && '=' !in key
    ensures DistinctKeys(Put(d, key, value)) && PlainKeys(Put(d, key, value)) && HasKey(Put(d, key, value), key)
  {
    var i := PutShape(d, key, value);
    assert Put(d, key, value)[i].0 == key;
  }

  /** Reading the environment back is the identity exactly on the dictionaries whose keys contain no '='. */
  lemma EnvRoundTripExact(env: Dict)
    requires DistinctKeys(env)
    ensures EnvOf(EnvLines(env)) == env <==> PlainKeys(env)
  {
    if PlainKeys(env) { EnvRoundTrip(env); }
    EnvOfIsPlain(EnvLines(env));
  }

  lemma {:induction false} StripMegabytes(n: nat)
    ensures StripUnit(Print(n) + "m") == Print(n)
  {
    ParsePrint(n);
    assert (Print(n) + "m")[..|Print(n)|] == Print(n);
  }

  function MemArg(megabytes: int): Option<string> { if megabytes > 0 then Some(Print(megabytes) + "m") else None }

  /** Everything but the environment is read back, whatever the environment is. */
  lemma ReadBackFields(p: Params, megabytes: nat)
    requires p.memLimit == MemArg(megabytes)
    ensures Read(Build(p)).(env := []) ==
            Snapshot(p.image, p.webui, p.http, p.ws, megabytes, p.policy,
                     if p.network == Some("bridge") then "" else OrEmpty(p.network), [])
  {
    ParsePrint(p.webui);
    ParsePrint(p.http);
    ParsePrint(p.ws);
    if megabytes > 0 {
      ParsePrint(megabytes);
      StripMegabytes(megabytes);
      assert megabytes * MIB / MIB == megabytes;
    }
  }

  /** What create_container built is read back: image, ports, memory, policy, network and environment. */
  lemma ReadBack(p: Params, megabytes: nat)
    requires DistinctKeys(p.env) && PlainKeys(p.env) && p.memLimit == MemArg(megabytes)
    ensures Read(Build(p)) == Snapshot(p.image, p.webui, p.http, p.ws, megabytes, p.policy,
                                       if p.network == Some("bridge") then "" else OrEmpty(p.network), p.env)
  {
    EnvRoundTrip(p.env);
    ReadBackFields(p, megabytes);
  }

  // ---- the recreate endpoint ----

  datatype Request = Request(
    image: string, webui: int, http: int, ws: int,
    memory: Option<int>, policy: Option<string>, network: Option<string>, env: Option<seq<string>>)

  const EMPTY_REQUEST := Request("", 0, 0, 0, None, None, None, None)

  /** What the environment supplies: the settings, the ports the engine shows, and which calls fail. */
  datatype World = World(
    defaultImage: string, binds: seq<string>,
    webuiBase: nat, httpBase: nat, wsBase: nat, usedPorts: set<int>,
    deleteFails: bool, createFails: bool, startFails: bool)

  datatype Engine = Engine(containers: map<string, Config>, reserved: set<int>)
  datatype Reply = DeleteFailed | NoPort | InvalidEnv | CreateFailed | Recreated

  function Wanted(requested: int, current: nat): int { if requested != 0 then requested else current }

  /** A requested port wins over the old one; without either, one is allocated and reserved. */
  function Pick(requested: int, current: nat, base: nat, used: set<int>, reserved: set<int>)
    : (Option<int>, set<int>)
  {
    var port := Wanted(requested, current);
    if port > 0 then (Some(port), reserved)
    else match Ports.FindAvailable(base, used + reserved)
      case None => (None, reserved)
      case Some(p) => (Some(p), reserved + {p})
  }

  /** What Python's `str.isspace` accepts. */
  predicate Space(c: char) {
    || '\t' <= c <= '\r' || '\U{1C}' <= c <= ' ' || c == '\U{85}' || c == '\U{A0}' || c == '\U{1680}'
    || '\U{2000}' <= c <= '\U{200A}' || c == '\U{2028}' || c == '\U{2029}' || c == '\U{202F}' || c == '\U{205F}'
    || c == '\U{3000}'
  }

  function Spaces(s: string): (n: nat)
    ensures n <= |s|
  {
    if s == "" || !Space(s[0]) then 0 else 1 + Spaces(s[1..])
  }

  function TrimEnd(s: string): (r: string)
    ensures r <= s
  {
    if s != "" && Space(s[|s| - 1]) then TrimEnd(s[..|s| - 1]) else s
  }

  function Strip(s: string): (r: string)
    ensures forall c :: c in r ==> c in s
  {
    var t := TrimEnd(s);
    t[Spaces(t)..]
  }

  ghost predicate Blank(s: string) { forall i :: 0 <= i < |s| ==> Space(s[i]) }

  /** `r` is `s` without white space around it. */
  ghost predicate Stripped(s: string, pre: string, r: string, post: string) {
    && s == pre + r + post && Blank(pre) && Blank(post)
    && (r != "" ==> !Space(r[0]) && !Space(r[|r| - 1]))
  }

  lemma {:induction false} TrimEndShape(s: string) returns (post: string)
    ensures s == TrimEnd(s) + post && Blank(post)
    ensures TrimEnd(s) != "" ==> !Space(TrimEnd(s)[|TrimEnd(s)| - 1])
  {
    post := "";
    if s != "" && Space(s[|s| - 1]) {
      var rest := TrimEndShape(s[..|s| - 1]);
      post := rest + [s[|s| - 1]];
      assert s == s[..|s| - 1] + [s[|s| - 1]];
    }
  }

  lemma {:induction false} SpacesExact(s: string)
    ensures Blank(s[..Spaces(s)]) && (Spaces(s) < |s| ==> !Space(s[Spaces(s)]))
  {
    if s != "" && Space(s[0]) {
      SpacesExact(s[1..]);
      assert s[1..][..Spaces(s[1..])] == s[..Spaces(s)][1..];
    }
  }

  lemma Inner(s: string, pre: string, r: string, post: string)
    requires Stripped(s, pre, r, post)
    ensures forall k :: 0 <= k < |s| && !Space(s[k]) ==> |pre| <= k < |pre| + |r|
    ensures r != "" ==> !Space(s[|pre|]) && !Space(s[|pre| + |r| - 1])
    ensures |pre| + |r| <= |s| && r == s[|pre|..|pre| + |r|]
  {
    assert forall k :: 0 <= k < |pre| ==> s[k] == pre[k];
    assert forall k :: |pre| + |r| <= k < |s| ==> s[k] == post[k - |pre| - |r|];
    assert r != "" ==> s[|pre|] == r[0] && s[|pre| + |r| - 1] == r[|r| - 1];
  }

  /** Two ways of stripping the same text agree. */
  lemma StrippedOnce(s: string, p: string, r: string, q: string, p': string, r': string, q': string)
    requires Stripped(s, p, r, q) && Stripped(s, p', r', q')
    ensures r == r'
  {
    Inner(s, p, r, q);
    Inner(s, p', r', q');
  }

  /** A key is stripped of all the white space around it and of nothing else. */
  lemma StripExact(s: string, r: string)
    ensures Strip(s) == r <==> exists pre, post :: Stripped(s, pre, r, post)
  {
    var post := TrimEndShape(s);
    var t := TrimEnd(s);
    SpacesExact(t);
    var pre := t[..Spaces(t)];
    assert s == pre + Strip(s) + post;
    if Strip(s) != "" { assert Strip(s)[0] == t[Spaces(t)] && Strip(s)[|Strip(s)| - 1] == t[|t| - 1]; }
    assert Stripped(s, pre, Strip(s), post);
    if p, q :| Stripped(s, p, r, q) {
      StrippedOnce(s, pre, Strip(s), post, p, r, q);
    }
  }

  function KeyOf(item: string): string { Strip(item[..EqualsAt(item)]) }

  /** `KEY=VALUE` items; an item without '=' or with a blank key is an error. */
  function ParseEnv(items: seq<string>): Option<Dict> {
    if items == [] then Some([])
    else
      var item := items[|items| - 1];
      var i := EqualsAt(item);
      match ParseEnv(items[..|items| - 1])
      case None => None
      case Some(d) =>
        if i == |item| || KeyOf(item) == "" then None else Some(Put(d, KeyOf(item), item[i + 1..]))
  }

  ghost predicate AnyBad(items: seq<string>) { exists k :: 0 <= k < |items| && BadItem(items[k]) }

  lemma AnyBadSnoc(items: seq<string>, item: string)
    ensures AnyBad(items + [item]) <==> AnyBad(items) || BadItem(item)
  {
    var all := items + [item];
    if AnyBad(items) {
      var k :| 0 <= k < |items| && BadItem(items[k]);
      assert BadItem(all[k]);
    }
    if BadItem(item) { assert BadItem(all[|items|]); }
    if AnyBad(all) {
      var k :| 0 <= k < |all| && BadItem(all[k]);
      assert k < |items| ==> BadItem(items[k]);
    }
  }

  /** Parsing fails exactly when some item is malformed, wherever it stands. */
  lemma {:induction false} ParseEnvExact(items: seq<string>)
    ensures ParseEnv(items).None? <==> AnyBad(items)
  {
    if items != [] {
      var n := |items| - 1;
      ParseEnvExact(items[..n]);
      AnyBadSnoc(items[..n], items[n]);
      assert items[..n] + [items[n]] == items;
    }
  }

  predicate BadItem(item: string) { EqualsAt(item) == |item| || KeyOf(item) == "" }

  function Lookup(d: Dict, key: string): Option<string> {
    if d == [] then None else if d[0].0 == key then Some(d[0].1) else Lookup(d[1..], key)
  }

  /** The value after the first '=' of the last item that names the key. */
  function LastValue(items: seq<string>, key: string): Option<string>
    requires !AnyBad(items)
  {
    if items == [] then None
    else
      var n := |items| - 1;
      AnyBadSnoc(items[..n], items[n]);
      assert items[..n] + [items[n]] == items;
      if KeyOf(items[n]) == key then Some(items[n][EqualsAt(items[n]) + 1..]) else LastValue(items[..n], key)
  }

  lemma {:induction false} PutLookup(d: Dict, key: string, value: string, k: string)
    ensures Lookup(Put(d, key, value), k) == if k == key then Some(value) else Lookup(d, k)
  {
    if d != [] && d[0].0 != key { PutLookup(d[1..], key, value, k); }
  }

  function ValueOf(item: string): string
    requires !BadItem(item)
  {
    item[EqualsAt(item) + 1..]
  }

  lemma ParseSnoc(init: seq<string>, item: string)
    requires ParseEnv(init).Some? && !BadItem(item)
    ensures ParseEnv(init + [item]) == Some(Put(ParseEnv(init).value, KeyOf(item), ValueOf(item)))
  {
    assert (init + [item])[..|init|] == init;
  }

  lemma LastValueSnoc(init: seq<string>, item: string, key: string)
    requires !AnyBad(init) && !BadItem(item)
    ensures !AnyBad(init + [item])
    ensures LastValue(init + [item], key) == if KeyOf(item) == key then Some(ValueOf(item)) else LastValue(init, key)
  {
    AnyBadSnoc(init, item);
    assert (init + [item])[..|init|] == init;
  }

  /** A parsed list maps every key to the value of the last item that names it; no key contains '='. */
  lemma {:induction false} ParseEnvGives(items: seq<string>, key: string)
    requires !AnyBad(items)
    ensures ParseEnv(items).Some? && Lookup(ParseEnv(items).value, key) == LastValue(items, key)
    ensures DistinctKeys(ParseEnv(items).value) && PlainKeys(ParseEnv(items).value)
  {
    if items != [] {
      var n := |items| - 1;
      var init, item := items[..n], items[n];
      assert items == init + [item];
      AnyBadSnoc(init, item);
      ParseEnvGives(init, key);
      ParseSnoc(init, item);
      LastValueSnoc(init, item, key);
      PutKeepsPlain(ParseEnv(init).value, KeyOf(item), ValueOf(item));
      PutLookup(ParseEnv(init).value, KeyOf(item), ValueOf(item), key);
    }
  }

  function EnvChoice(req: Request, snapshot: Snapshot): Option<Dict> {
    match (match req.env case None => Some(snapshot.env) case Some(items) => ParseEnv(items))
    case None => None
    case Some(d) => Some(if HasKey(d, "ACCOUNT") then d else Put(d, "ACCOUNT", ""))
  }

  function PolicyChoice(req: Request, snapshot: Snapshot): string {
    var name := match req.policy
                case Some(p) => p
                case None => if snapshot.policy != "" then snapshot.policy else "always";
    if name == "" || name == "no" then "always" else name
  }

  function NetworkChoice(req: Request, snapshot: Snapshot): Option<string> {
    var mode := match req.network
                case Some(n) => n
                case None => if snapshot.network != "" then snapshot.network else "bridge";
    if mode != "" && mode != "bridge" then Some(mode) else None
  }

  function Choose(req: Request, snapshot: Snapshot, w: World, webui: nat, http: nat, ws: nat, env: Dict): Params {
    Params(if req.image != "" then req.image else if snapshot.image != "" then snapshot.image else w.defaultImage,
           w.binds, webui, http, ws, env, PolicyChoice(req, snapshot),
           MemArg(match req.memory case Some(m) => m case None => snapshot.memory), NetworkChoice(req, snapshot))
  }

  function SnapshotOf(e: Engine, name: string): Snapshot {
    if name in e.containers then Read(e.containers[name]) else NO_SNAPSHOT
  }

  /** A container that is not there cannot be deleted. */
  predicate Undeletable(e: Engine, name: string, w: World) { w.deleteFails || name !in e.containers }

  /** The steps in their order: delete, allocate, parse the environment, create, release. */
  function Recreate(e: Engine, name: string, req: Request, w: World): (Engine, Reply) {
    if Undeletable(e, name, w) then (e, DeleteFailed)
    else
      var s := SnapshotOf(e, name);
      var gone := e.containers - {name};
      var (webui, r1) := Pick(req.webui, s.webui, w.webuiBase, w.usedPorts, e.reserved);
      if webui.None? then (Engine(gone, r1), NoPort) else
      var (http, r2) := Pick(req.http, s.http, w.httpBase, w.usedPorts, r1);
      if http.None? then (Engine(gone, r2), NoPort) else
      var (ws, r3) := Pick(req.ws, s.ws, w.wsBase, w.usedPorts, r2);
      if ws.None? then (Engine(gone, r3), NoPort) else
      var env := EnvChoice(req, s);
      if env.None? then (Engine(gone, r3), InvalidEnv) else
      var left := r3 - {webui.value, http.value, ws.value};
      if w.createFails then (Engine(gone, left), CreateFailed)
      else
        // a container that is made but does not start stays, under the same reply
        var p := Choose(req, s, w, AsPort(webui), AsPort(http), AsPort(ws), env.value);
        (Engine(gone[name := Build(p)], left), if w.startFails then CreateFailed else Recreated)
  }

  function AsPort(p: Option<int>): nat { if p.Some? && p.value >= 0 then p.value else 0 }

  ghost predicate PositiveBases(w: World) { w.webuiBase > 0 && w.httpBase > 0 && w.wsBase > 0 }

  /** The allocated port of a pick that had no port to start from. */
  function Taken(wanted: int, port: Option<int>): set<int> {
    if wanted > 0 || port.None? then {} else {port.value}
  }

  lemma PickExact(requested: int, current: nat, base: nat, used: set<int>, reserved: set<int>)
    ensures var wanted, (p, r) := Wanted(requested, current), Pick(requested, current, base, used, reserved);
            && r == reserved + Taken(wanted, p)
            && (wanted > 0 ==> p == Some(wanted))
            && (wanted <= 0 && p.Some? ==> LeastFree(p.value, base, used + reserved))
            && (p.None? <==> wanted <= 0 && base in used + reserved
                             && forall q :: base <= q <= 65535 ==> q in used + reserved)
  {
    Ports.FindAvailableExact(base, used + reserved);
  }

  /** The three picks of a recreation, one after the other, and what is reserved after them. */
  function Picks(e: Engine, name: string, req: Request, w: World): (seq<Option<int>>, set<int>) {
    var s := SnapshotOf(e, name);
    var (webui, r1) := Pick(req.webui, s.webui, w.webuiBase, w.usedPorts, e.reserved);
    var (http, r2) := Pick(req.http, s.http, w.httpBase, w.usedPorts, r1);
    var (ws, r3) := Pick(req.ws, s.ws, w.wsBase, w.usedPorts, r2);
    ([webui, http, ws], r3)
  }

  ghost predicate LeastFree(port: int, base: nat, busy: set<int>) {
    port >= base && port !in busy && forall q :: base <= q < port ==> q in busy
  }

  /** A port is what was wanted, or the least one from its base that is not busy. */
  ghost predicate Granted(port: int, wanted: int, base: nat, busy: set<int>) {
    if wanted > 0 then port == wanted else LeastFree(port, base, busy)
  }

  /** Any port number in the request but zero wins over the old one. */
  ghost predicate PortsGranted(req: Request, was: Snapshot, webui: Option<int>, http: Option<int>, ws: Option<int>,
                               e: Engine, w: World) {
    var wantWebui := if req.webui == 0 then was.webui else req.webui;
    var wantHttp := if req.http == 0 then was.http else req.http;
    var wantWs := if req.ws == 0 then was.ws else req.ws;
    var first := w.usedPorts + e.reserved;
    var second := first + Taken(wantWebui, webui);
    var third := second + Taken(wantHttp, http);
    && (webui.Some? ==> Granted(webui.value, wantWebui, w.webuiBase, first))
    && (http.Some? ==> Granted(http.value, wantHttp, w.httpBase, second))
    && (ws.Some? ==> Granted(ws.value, wantWs, w.wsBase, third))
  }

  lemma PicksGranted(e: Engine, name: string, req: Request, w: World)
    ensures var s, (p, r) := SnapshotOf(e, name), Picks(e, name, req, w);
            && PortsGranted(req, s, p[0], p[1], p[2], e, w)
            && r == e.reserved + Taken(Wanted(req.webui, s.webui), p[0]) + Taken(Wanted(req.http, s.http), p[1])
                    + Taken(Wanted(req.ws, s.ws), p[2])
  {
    var s := SnapshotOf(e, name);
    var (webui, r1) := Pick(req.webui, s.webui, w.webuiBase, w.usedPorts, e.reserved);
    var (http, r2) := Pick(req.http, s.http, w.httpBase, w.usedPorts, r1);
    PickExact(req.webui, s.webui, w.webuiBase, w.usedPorts, e.reserved);
    PickExact(req.http, s.http, w.httpBase, w.usedPorts, r1);
    PickExact(req.ws, s.ws, w.wsBase, w.usedPorts, r2);
    assert w.usedPorts + r1 == w.usedPorts + e.reserved + Taken(Wanted(req.webui, s.webui), webui);
    assert w.usedPorts + r2 == w.usedPorts + r1 + Taken(Wanted(req.http, s.http), http);
  }

  lemma RecreatedIs(e: Engine, name: string, req: Request, w: World) returns (p: Params)
    requires Recreate(e, name, req, w).1 == Recreated
    ensures name in Recreate(e, name, req, w).0.containers
    ensures Recreate(e, name, req, w).0.containers[name] == Build(p)
    ensures Recreate(e, name, req, w).0.containers == (e.containers - {name})[name := Build(p)]
    ensures var s, ports := SnapshotOf(e, name), Picks(e, name, req, w).0;
            && ports[0].Some? && ports[1].Some? && ports[2].Some? && EnvChoice(req, s).Some?
            && p == Choose(req, s, w, AsPort(ports[0]), AsPort(ports[1]), AsPort(ports[2]), EnvChoice(req, s).value)
  {
    var s, ports := SnapshotOf(e, name), Picks(e, name, req, w).0;
    p := Choose(req, s, w, AsPort(ports[0]), AsPort(ports[1]), AsPort(ports[2]), EnvChoice(req, s).value);
  }

  /** The last item for each key of the request, or the old environment; ACCOUNT is there in any case. */
  ghost predicate EnvHonoured(items: Option<seq<string>>, was: Dict, now: Dict) {
    && (items.Some? ==> !AnyBad(items.value))
    && forall key ::
         var asked := if items.Some? then LastValue(items.value, key) else Lookup(was, key);
         Lookup(now, key) == if asked.None? && key == "ACCOUNT" then Some("") else asked
  }

  lemma SnapshotPlain(e: Engine, name: string)
    ensures DistinctKeys(SnapshotOf(e, name).env) && PlainKeys(SnapshotOf(e, name).env)
  {
    if name in e.containers { EnvOfIsPlain(e.containers[name].env); }
  }

  lemma {:induction false} LookupKey(d: Dict, key: string)
    ensures HasKey(d, key) <==> Lookup(d, key).Some?
  {
    if d != [] {
      LookupKey(d[1..], key);
      if HasKey(d[1..], key) {
        var i :| 0 <= i < |d[1..]| && d[1..][i].0 == key;
        assert d[i + 1].0 == key;
      }
      if HasKey(d, key) && d[0].0 != key {
        var i :| 0 <= i < |d| && d[i].0 == key;
        assert d[1..][i - 1].0 == key;
      }
    }
  }

  lemma EnvChosen(e: Engine, name: string, req: Request)
    requires EnvChoice(req, SnapshotOf(e, name)).Some?
    ensures var d := EnvChoice(req, SnapshotOf(e, name)).value;
            DistinctKeys(d) && PlainKeys(d) && EnvHonoured(req.env, SnapshotOf(e, name).env, d)
  {
    var s := SnapshotOf(e, name);
    SnapshotPlain(e, name);
    if req.env.Some? {
      ParseEnvExact(req.env.value);
      ParseEnvGives(req.env.value, "");
    }
    var d := match req.env case None => s.env case Some(items) => ParseEnv(items).value;
    var chosen := EnvChoice(req, s).value;
    LookupKey(d, "ACCOUNT");
    if !HasKey(d, "ACCOUNT") { PutKeepsPlain(d, "ACCOUNT", ""); }
    forall key ensures var asked := if req.env.Some? then LastValue(req.env.value, key) else Lookup(s.env, key);
                       Lookup(chosen, key) == if asked.None? && key == "ACCOUNT" then Some("") else asked
    {
      if req.env.Some? { ParseEnvGives(req.env.value, key); }
      PutLookup(d, "ACCOUNT", "", key);
    }
  }

  /** The shape of every configuration the endpoint creates from an empty request. */
  lemma EmptyRequestConfig(e: Engine, name: string, w: World) returns (p: Params, megabytes: nat)
    requires PositiveBases(w) && Recreate(e, name, EMPTY_REQUEST, w).1 == Recreated
    ensures Recreate(e, name, EMPTY_REQUEST, w).0.containers == e.containers[name := Build(p)]
    ensures p.webui > 0 && p.http > 0 && p.ws > 0 && p.binds == w.binds
    ensures DistinctKeys(p.env) && PlainKeys(p.env) && HasKey(p.env, "ACCOUNT")
    ensures p.memLimit == MemArg(megabytes)
    ensures p.policy != "" && p.policy != "no" && p.network != Some("") && p.network != Some("bridge")
    ensures p.image == "" ==> w.defaultImage == ""
  {
    p := RecreatedIs(e, name, EMPTY_REQUEST, w);
    PicksGranted(e, name, EMPTY_REQUEST, w);
    EnvChosen(e, name, EMPTY_REQUEST);
    LookupKey(p.env, "ACCOUNT");
    megabytes := SnapshotOf(e, name).memory;
    assert (e.containers - {name})[name := Build(p)] == e.containers[name := Build(p)];
  }

  /** A container whose configuration is already of that shape is recreated as it was. */
  lemma RecreateReproduces(e: Engine, name: string, w: World, p: Params, megabytes: nat)
    requires name in e.containers && e.containers[name] == Build(p)
    requires !w.deleteFails && !w.createFails && !w.startFails
    requires p.webui > 0 && p.http > 0 && p.ws > 0 && p.binds == w.binds
    requires DistinctKeys(p.env) && PlainKeys(p.env) && HasKey(p.env, "ACCOUNT")
    requires p.memLimit == MemArg(megabytes)
    requires p.policy != "" && p.policy != "no" && p.network != Some("") && p.network != Some("bridge")
    requires p.image == "" ==> w.defaultImage == ""
    ensures Recreate(e, name, EMPTY_REQUEST, w) ==
            (e.(reserved := e.reserved - {p.webui, p.http, p.ws}), Recreated)
  {
    ReadBack(p, megabytes);
    var s := SnapshotOf(e, name);
    assert Choose(EMPTY_REQUEST, s, w, p.webui, p.http, p.ws, p.env) == p;
    assert (e.containers - {name})[name := Build(p)] == e.containers;
  }

  /** Recreating with an empty request is idempotent, whatever the container was before: a second one, later
      and with other ports in use, succeeds without allocating and leaves the container as the first made it. */
  lemma RecreateIdempotent(e: Engine, name: string, w: World, later: World)
    requires PositiveBases(w) && Recreate(e, name, EMPTY_REQUEST, w).1 == Recreated
    requires later.binds == w.binds && later.defaultImage == w.defaultImage
    requires !later.deleteFails && !later.createFails && !later.startFails
    ensures var once := Recreate(e, name, EMPTY_REQUEST, w).0;
            var (twice, reply) := Recreate(once, name, EMPTY_REQUEST, later);
            reply == Recreated && twice.containers == once.containers
  {
    var p, megabytes := EmptyRequestConfig(e, name, w);
    RecreateReproduces(Recreate(e, name, EMPTY_REQUEST, w).0, name, later, p, megabytes);
  }

  /** What the request names is what the new container shows, and what it leaves out is the old one's; only a
      restart policy of "no" becomes "always", the network "bridge" is not stored, a negative amount of memory
      counts as none, and ACCOUNT is added to the environment. */
  lemma RequestHonoured(e: Engine, name: string, req: Request, w: World)
    requires Recreate(e, name, req, w).1 == Recreated
    ensures name in Recreate(e, name, req, w).0.containers
    ensures Honoured(req, SnapshotOf(e, name), Read(Recreate(e, name, req, w).0.containers[name]), e, w)
    ensures Recreate(e, name, req, w).0.containers[name].host.binds == w.binds
  {
    var s, ports := SnapshotOf(e, name), Picks(e, name, req, w).0;
    var p := RecreatedIs(e, name, req, w);
    PicksGranted(e, name, req, w);
    EnvChosen(e, name, req);
    ChoiceHonoured(req, s, e, w, AsPort(ports[0]), AsPort(ports[1]), AsPort(ports[2]), p.env);
  }

  lemma ChoiceHonoured(req: Request, s: Snapshot, e: Engine, w: World, webui: nat, http: nat, ws: nat, env: Dict)
    requires PortsGranted(req, s, Some(webui), Some(http), Some(ws), e, w)
    requires DistinctKeys(env) && PlainKeys(env) && EnvHonoured(req.env, s.env, env)
    ensures Honoured(req, s, Read(Build(Choose(req, s, w, webui, http, ws, env))), e, w)
  {
    var p := Choose(req, s, w, webui, http, ws, env);
    var memory := match req.memory case Some(m) => m case None => s.memory;
    assert p.memLimit == MemArg(if memory > 0 then memory else 0);
    ReadBack(p, if memory > 0 then memory else 0);
  }

  ghost predicate Honoured(req: Request, was: Snapshot, now: Snapshot, e: Engine, w: World) {
    var image := if req.image != "" then req.image else was.image;
    var memory := match req.memory case Some(m) => m case None => was.memory;
    var policy := match req.policy case Some(p) => p case None => was.policy;
    var network := match req.network case Some(n) => n case None => was.network;
    && now.image == (if image != "" then image else w.defaultImage)
    && PortsGranted(req, was, Some(now.webui), Some(now.http), Some(now.ws), e, w)
    && (now.memory == memory <==> memory >= 0)
    && (now.policy == policy <==> policy !in {"", "no"}) && (policy in {"", "no"} ==> now.policy == "always")
    && (now.network == network <==> network != "bridge") && (network == "bridge" ==> now.network == "")
    && EnvHonoured(req.env, was.env, now.env)
  }

  /** Ports and environment of a recreation are settled. */
  ghost predicate Settled(e: Engine, name: string, req: Request, w: World) {
    var ports := Picks(e, name, req, w).0;
    && !Undeletable(e, name, w) && ports[0].Some? && ports[1].Some? && ports[2].Some?
    && (req.env.Some? ==> !AnyBad(req.env.value))
  }

  lemma RepliesExact(e: Engine, name: string, req: Request, w: World)
    ensures var reply := Recreate(e, name, req, w).1;
            && (reply.DeleteFailed? <==> Undeletable(e, name, w))
            && (reply.Recreated? <==> Settled(e, name, req, w) && !w.createFails && !w.startFails)
            && (reply.CreateFailed? <==> Settled(e, name, req, w) && (w.createFails || w.startFails))
  {
    if req.env.Some? { ParseEnvExact(req.env.value); }
  }

  /** The three ports of the new container are reserved no longer, and every other reservation is as it was. */
  ghost predicate Released(before: Engine, after: Engine, ports: seq<Option<int>>) {
    |ports| == 3 && after.reserved == before.reserved - {AsPort(ports[0]), AsPort(ports[1]), AsPort(ports[2])}
  }

  lemma PortsReleased(e: Engine, name: string, req: Request, w: World)
    ensures Settled(e, name, req, w) ==> Released(e, Recreate(e, name, req, w).0, Picks(e, name, req, w).0)
  {
    PicksGranted(e, name, req, w);
    if req.env.Some? { ParseEnvExact(req.env.value); }
  }

  lemma OthersKept(e: Engine, name: string, req: Request, w: World, other: string)
    requires other != name
    ensures var after := Recreate(e, name, req, w).0.containers;
            && (other in after <==> other in e.containers)
            && (other in after ==> after[other] == e.containers[other])
  {}

  /** Every reply has its exact cause. The container exists afterwards if and only if it was never deleted or the
      engine made the new one, also when that did not start and the reply is a failed creation; whether it started
      makes no difference to containers and reservations. No other container is touched. */
  lemma RecreateOutcome(e: Engine, name: string, req: Request, w: World)
    ensures var (after, reply) := Recreate(e, name, req, w);
            && (reply.DeleteFailed? <==> w.deleteFails || name !in e.containers)
            && (reply.Recreated? <==> Settled(e, name, req, w) && !w.createFails && !w.startFails)
            && (reply.CreateFailed? <==> Settled(e, name, req, w) && (w.createFails || w.startFails))
            && (reply.DeleteFailed? ==> after == e)
            && (name in after.containers <==>
                  (w.deleteFails && name in e.containers) || (Settled(e, name, req, w) && !w.createFails))
            && (forall other :: other != name ==> (other in after.containers <==> other in e.containers))
            && (forall other :: other != name && other in e.containers ==>
                  after.containers[other] == e.containers[other])
            && (Settled(e, name, req, w) ==> Released(e, after, Picks(e, name, req, w).0))
            && after == Recreate(e, name, req, w.(startFails := !w.startFails)).0
  {
    RepliesExact(e, name, req, w);
    PortsReleased(e, name, req, w);
    var after := Recreate(e, name, req, w).0;
    forall other | other != name
      ensures other in after.containers <==> other in e.containers
      ensures other in e.containers ==> after.containers[other] == e.containers[other]
    {
      OthersKept(e, name, req, w, other);
    }
  }

  /** A recreation ends with the environment rejected if and only if the deletion went through, all three ports
      were found and some requested item is malformed. By then the container is gone, and exactly the ports that
      had to be allocated stay reserved. */
  lemma InvalidEnvLosesContainer(e: Engine, name: string, req: Request, w: World)
    ensures var (after, reply), (ports, _) := Recreate(e, name, req, w), Picks(e, name, req, w);
            && (reply == InvalidEnv <==>
                  && !w.deleteFails && name in e.containers
                  && ports[0].Some? && ports[1].Some? && ports[2].Some?
                  && req.env.Some? && AnyBad(req.env.value))
            && (reply == InvalidEnv ==>
                  && after.containers == e.containers - {name}
                  && var s := SnapshotOf(e, name);
                  && after.reserved == e.reserved + Taken(Wanted(req.webui, s.webui), ports[0])
                                       + Taken(Wanted(req.http, s.http), ports[1])
                                       + Taken(Wanted(req.ws, s.ws), ports[2]))
  {
    PicksGranted(e, name, req, w);
    if req.env.Some? { ParseEnvExact(req.env.value); }
  }

  lemma PickBase(base: nat, reserved: set<int>)
    requires base !in reserved
    ensures Pick(0, 0, base, {}, reserved) == (Some(base), reserved + {base})
  {
    assert {} + reserved == reserved;
  }

  /** A container that publishes no port, and a request with one item that lacks its '='. */
  lemma InvalidEnvExample()
    ensures var host := HostConfig([], map[], None, None, None);
            var e := Engine(map["bot" := Config("image", [], host, {})], {});
            var w := World("image", [], 6000, 3000, 3001, {}, false, false, false);
            Recreate(e, "bot", EMPTY_REQUEST.(env := Some(["TZ"])), w)
            == (Engine(map[], {6000, 3000, 3001}), InvalidEnv)
  {
    var host := HostConfig([], map[], None, None, None);
    var e := Engine(map["bot" := Config("image", [], host, {})], {});
    var w := World("image", [], 6000, 3000, 3001, {}, false, false, false);
    var req := EMPTY_REQUEST.(env := Some(["TZ"]));
    assert BadItem(req.env.value[0]) by { assert EqualsAt("TZ") == 2; }
    var s := SnapshotOf(e, "bot");
    assert s.webui == s.http == s.ws == 0;
    PickBase(6000, {});
    PickBase(3000, {6000});
    PickBase(3001, {6000, 3000});
    assert {} + {6000} == {6000} && {6000} + {3000} == {6000, 3000} && {6000, 3000} + {3001} == {6000, 3000, 3001};
    InvalidEnvLosesContainer(e, "bot", req, w);
    assert e.containers - {"bot"} == map[];
  }

  /** A port conflict at the start: the reply is a failed creation, and the container is there. */
  lemma StartFailsExample()
    ensures var e := Engine(map["bot" := Config("image", [], HostConfig([], map[], None, None, None), {})], {});
            var w := World("image", [], 6000, 3000, 3001, {}, false, false, true);
            var (after, reply) := Recreate(e, "bot", EMPTY_REQUEST, w);
            reply == CreateFailed && "bot" in after.containers
  {
    var e := Engine(map["bot" := Config("image", [], HostConfig([], map[], None, None, None), {})], {});
    var w := World("image", [], 6000, 3000, 3001, {}, false, false, true);
    var s := SnapshotOf(e, "bot");
    assert s.webui == s.http == s.ws == 0;
    PickBase(6000, {});
    PickBase(3000, {6000});
    PickBase(3001, {6000, 3000});
    assert {} + {6000} == {6000} && {6000} + {3000} == {6000, 3000};
    RecreateOutcome(e, "bot", EMPTY_REQUEST, w);
  }

  /** The environment loop of the snapshot. */
  method SnapshotEnv(lines: seq<string>) returns (env: Dict)
    ensures env == EnvOf(lines)
  {
    env := [];
    for k := 0 to |lines|
      invariant env == EnvOf(lines[..k])
    {
      assert lines[..k + 1][..k] == lines[..k];
      var i := EqualsAt(lines[k]);
      if i < |lines[k]| {
        env := Put(env, lines[k][..i], lines[k][i + 1..]);
      }
    }
    assert lines[..|lines|] == lines;
  }

  /** The loop that checks and parses requested environment items. */
  method ParseEnvList(items: seq<string>) returns (env: Option<Dict>)
    ensures env == ParseEnv(items)
  {
    var d: Dict := [];
    for k := 0 to |items|
      invariant ParseEnv(items[..k]) == Some(d)
    {
      assert items[..k + 1][..k] == items[..k];
      var i := EqualsAt(items[k]);
      if i == |items[k]| || KeyOf(items[k]) == "" {
        ParseEnvExact(items);
        assert BadItem(items[k]);
        return None;
      }
      d := Put(d, KeyOf(items[k]), items[k][i + 1..]);
    }
    assert items[..|items|] == items;
    env := Some(d);
  }

  class AsyncDockerManager {
    var containers: map<string, Config>
    var reserved: set<int>

    constructor ()
      ensures containers == map[] && reserved == {}
    {
      containers, reserved := map[], {};
    }

    method PickPort(requested: int, current: nat, base: nat, used: set<int>) returns (port: Option<int>)
      modifies `reserved
      ensures (port, reserved) == Pick(requested, current, base, used, old(reserved))
    {
      port := Some(Wanted(requested, current));
      if port.value <= 0 {
        port := Ports.ScanPorts(base, used + reserved);
        if port.Some? {
          reserved := reserved + {port.value};
        }
      }
    }

    method ApiRecreate(name: string, req: Request, w: World) returns (reply: Reply)
      modifies this
      ensures (Engine(containers, reserved), reply) == Recreate(old(Engine(containers, reserved)), name, req, w)
    {
      var snapshot := if name in containers then Read(containers[name]) else NO_SNAPSHOT;
      if w.deleteFails || name !in containers {
        return DeleteFailed;
      }
      containers := containers - {name};
      var webui := PickPort(req.webui, snapshot.webui, w.webuiBase, w.usedPorts);
      if webui.None? {
        return NoPort;
      }
      var http := PickPort(req.http, snapshot.http, w.httpBase, w.usedPorts);
      if http.None? {
        return NoPort;
      }
      var ws := PickPort(req.ws, snapshot.ws, w.wsBase, w.usedPorts);
      if ws.None? {
        return NoPort;
      }
      var env := Some(snapshot.env);
      if req.env.Some? {
        env := ParseEnvList(req.env.value);
        if env.None? {
          return InvalidEnv;
        }
      }
      if !HasKey(env.value, "ACCOUNT") {
        env := Some(Put(env.value, "ACCOUNT", ""));
      }
      if !w.createFails {
        var p := Choose(req, snapshot, w, AsPort(webui), AsPort(http), AsPort(ws), env.value);
        containers := containers[name := Build(p)];
      }
      reserved := reserved - {webui.value, http.value, ws.value};
      reply := if w.createFails || w.startFails then CreateFailed else Recreated;
    }
  }
}
