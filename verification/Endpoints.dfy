/** Target endpoint lists of a BotShepherd connection: the merge on synchronisation, injection by alias and
    the guarded removal. */
module Endpoints {
  import opened Common

  type Url = string

  /** `t not in list -> append`, over the configured targets in order. */
  function AppendMissing(list: seq<Url>, targets: seq<Url>): seq<Url>
    decreases |targets|
  {
    if targets == [] then list
    else AppendMissing(if targets[0] in list then list else list + [targets[0]], targets[1..])
  }

  /** The manager's endpoint goes to the front, configured targets to the back, each only when missing. */
  function Merge(existing: seq<Url>, manager: Url, targets: seq<Url>): seq<Url> {
    AppendMissing(if manager in existing then existing else [manager] + existing, targets)
  }

  /** `list.remove(x)`: the first occurrence goes. */
  function RemoveFirst(list: seq<Url>, x: Url): seq<Url> {
    if list == [] then []
    else if list[0] == x then list[1..]
    else [list[0]] + RemoveFirst(list[1..], x)
  }

  /** `needle in text` for strings. */
  ghost predicate Contains(text: string, needle: string) {
    exists i :: At(text, needle, i)
  }

  predicate At(text: string, needle: string, i: int) {
    0 <= i <= |text| - |needle| && text[i..i + |needle|] == needle
  }

  const MANAGER_PATH := "/ws/napcat/"

  /** The endpoint library: aliases may repeat, the first one is meant. */
  datatype Endpoint = Endpoint(alias: string, url: Url)
  type Radar = seq<Endpoint>

  function Lookup(radar: Radar, alias: string): Option<Url> {
    if radar == [] then None
    else if radar[0].alias == alias then Some(radar[0].url)
    else Lookup(radar[1..], alias)
  }

  function Urls(radar: Radar): set<Url> { set e | e in radar :: e.url }

  lemma {:induction false} LookupListed(radar: Radar, alias: string)
    requires Lookup(radar, alias).Some?
    ensures Lookup(radar, alias).value in Urls(radar)
  {
    if radar[0].alias == alias {
      assert radar[0] in radar;
    } else {
      LookupListed(radar[1..], alias);
      assert forall e :: e in radar[1..] ==> e in radar;
    }
  }

  /** Entry `i` is the first one with the alias. */
  ghost predicate FirstAlias(radar: Radar, alias: string, i: int) {
    0 <= i < |radar| && radar[i].alias == alias && forall k :: 0 <= k < i ==> radar[k].alias != alias
  }

  /** An alias means the first entry of that name, and nothing only if there is none. */
  lemma {:induction false} LookupExact(radar: Radar, alias: string)
    ensures match Lookup(radar, alias)
            case Some(url) => exists i :: FirstAlias(radar, alias, i) && radar[i].url == url
            case None => forall i :: 0 <= i < |radar| ==> radar[i].alias != alias
  {
    if radar != [] {
      if radar[0].alias == alias {
        assert FirstAlias(radar, alias, 0);
      } else {
        LookupExact(radar[1..], alias);
        if i :| FirstAlias(radar[1..], alias, i) && Lookup(radar, alias) == Some(radar[1..][i].url) {
          assert FirstAlias(radar, alias, i + 1);
        }
        forall i | 0 <= i < |radar| && Lookup(radar, alias).None? ensures radar[i].alias != alias {
          if i > 0 { assert radar[i] == radar[1..][i - 1]; }
        }
      }
    }
  }

  ghost predicate Known(radar: Radar, url: Url) { Contains(url, MANAGER_PATH) || url in Urls(radar) }

  // ---- what merging does ----

  lemma {:induction false} AppendMissingShape(list: seq<Url>, targets: seq<Url>) returns (post: seq<Url>)
    ensures AppendMissing(list, targets) == list + post
    ensures Distinct(post)
    ensures forall x :: x in post <==> x in targets && x !in list
    decreases |targets|
  {
    if targets == [] {
      post := [];
    } else if targets[0] in list {
      post := AppendMissingShape(list, targets[1..]);
      assert forall x :: x in targets <==> x == targets[0] || x in targets[1..];
    } else {
      var rest := AppendMissingShape(list + [targets[0]], targets[1..]);
      post := [targets[0]] + rest;
      DistinctConcat([targets[0]], rest);
      assert forall x :: x in targets <==> x == targets[0] || x in targets[1..];
      assert list + [targets[0]] + rest == list + post;
    }
  }

  /** The existing endpoints stay together and in order; what is added around them is exactly the manager
      endpoint and the configured targets that were missing, each once. */
  lemma MergeShape(existing: seq<Url>, manager: Url, targets: seq<Url>) returns (pre: seq<Url>, post: seq<Url>)
    ensures Merge(existing, manager, targets) == pre + existing + post
    ensures pre == if manager in existing then [] else [manager]
    ensures Distinct(pre + post)
    ensures forall x :: x in pre + post <==> (x == manager || x in targets) && x !in existing
  {
    pre := if manager in existing then [] else [manager];
    assert pre + existing == if manager in existing then existing else [manager] + existing;
    post := AppendMissingShape(pre + existing, targets);
    DistinctConcat(pre, post);
  }

  /** No new duplicate: every endpoint occurs as often as before, or once if it was missing and is wanted. */
  lemma MergeCounts(existing: seq<Url>, manager: Url, targets: seq<Url>, x: Url)
    ensures multiset(Merge(existing, manager, targets))[x] ==
            if x in existing then multiset(existing)[x] else if x == manager || x in targets then 1 else 0
  {
    var pre, post := MergeShape(existing, manager, targets);
    DistinctCounts(pre + post, x);
    assert multiset(pre + existing + post) == multiset(existing) + multiset(pre + post);
    assert x !in existing ==> multiset(existing)[x] == 0;
  }

  lemma {:induction false} NothingMissing(list: seq<Url>, targets: seq<Url>)
    requires forall x :: x in targets ==> x in list
    ensures AppendMissing(list, targets) == list
    decreases |targets|
  {
    if targets != [] {
      assert targets[0] in targets && forall x :: x in targets[1..] ==> x in targets;
      NothingMissing(list, targets[1..]);
    }
  }

  /** A second synchronisation changes nothing. */
  lemma MergeIdempotent(existing: seq<Url>, manager: Url, targets: seq<Url>)
    ensures var once := Merge(existing, manager, targets); Merge(once, manager, targets) == once
  {
    var once := Merge(existing, manager, targets);
    var pre, post := MergeShape(existing, manager, targets);
    forall x | x == manager || x in targets ensures x in once {
      if x !in existing { assert x in pre + post; }
    }
    NothingMissing(once, targets);
  }

  // ---- injection and removal ----

  lemma {:induction false} RemoveAppended(list: seq<Url>, x: Url)
    requires x !in list
    ensures RemoveFirst(list + [x], x) == list
  {
    if list != [] {
      RemoveAppended(list[1..], x);
      assert (list + [x])[1..] == list[1..] + [x] && list == [list[0]] + list[1..];
    }
  }

  lemma {:induction false} RemoveFirstShape(list: seq<Url>, x: Url) returns (i: nat)
    requires x in list
    ensures i < |list| && list[i] == x && x !in list[..i]
    ensures RemoveFirst(list, x) == list[..i] + list[i + 1..]
  {
    if list[0] == x {
      i := 0;
    } else {
      i := RemoveFirstShape(list[1..], x);
      i := i + 1;
      assert list[..i] == [list[0]] + list[1..][..i - 1];
      assert list == [list[0]] + list[1..];
    }
  }

  /** The configuration of one connection; `settings` stands for everything but its targets. */
  datatype Connection = Connection(targets: seq<Url>, settings: map<string, string>)

  datatype Reply = Injected | AlreadyThere | NoSuchAlias | NoConnId | NoConnection | Forbidden | Absent | Removed

  /** Injecting an absent endpoint and removing it again restores the connection, and every other one. */
  lemma InjectThenRemove(connections: map<string, Connection>, radar: Radar, alias: string, id: string)
    requires Lookup(radar, alias).Some? && id != "" && id in connections
    requires Lookup(radar, alias).value !in connections[id].targets
    ensures var (injected, reply) := InjectByAlias(connections, radar, alias, id);
            && reply == Injected
            && RemoveEndpoint(injected, radar, id, Lookup(radar, alias).value) == (connections, Removed)
  {
    var url := Lookup(radar, alias).value;
    LookupListed(radar, alias);
    RemoveAppended(connections[id].targets, url);
    var (injected, _) := InjectByAlias(connections, radar, alias, id);
    assert url in injected[id].targets;
    assert injected[id := connections[id]] == connections;
  }

  ghost function InjectByAlias(connections: map<string, Connection>, radar: Radar, alias: string, id: string)
    : (map<string, Connection>, Reply)
  {
    match Lookup(radar, alias)
    case None => (connections, NoSuchAlias)
    case Some(url) =>
      if id == "" then (connections, NoConnId)
      else if id !in connections then (connections, NoConnection)
      else if url in connections[id].targets then (connections, AlreadyThere)
      else (connections[id := connections[id].(targets := connections[id].targets + [url])], Injected)
  }

  ghost function RemoveEndpoint(connections: map<string, Connection>, radar: Radar, id: string, url: Url)
    : (map<string, Connection>, Reply)
  {
    if !Known(radar, url) then (connections, Forbidden)
    else if id !in connections then (connections, NoConnection)
    else if url !in connections[id].targets then (connections, Absent)
    else (connections[id := connections[id].(targets := RemoveFirst(connections[id].targets, url))], Removed)
  }

  /** Every reply of both operations has its one cause, and only the two that succeed change anything. */
  lemma RepliesExact(connections: map<string, Connection>, radar: Radar, alias: string, id: string, url: Url)
    ensures var (after, reply) := InjectByAlias(connections, radar, alias, id);
            var meant := Lookup(radar, alias);
            && (reply == Injected <==>
                  id != "" && id in connections && meant.Some? && meant.value !in connections[id].targets)
            && (reply == AlreadyThere <==>
                  id != "" && id in connections && meant.Some? && meant.value in connections[id].targets)
            && (reply != Injected ==> after == connections)
            && (reply == Injected ==> after.Keys == connections.Keys && after[id].settings == connections[id].settings
                                      && after[id].targets == connections[id].targets + [meant.value])
            && (reply == NoSuchAlias <==> meant.None?)
            && (reply == NoConnId <==> meant.Some? && id == "")
    ensures var (after, reply) := RemoveEndpoint(connections, radar, id, url);
            var known := Contains(url, "/ws/napcat/") || exists i :: 0 <= i < |radar| && radar[i].url == url;
            && (reply == Removed <==> known && id in connections && url in connections[id].targets)
            && (reply == Absent <==> known && id in connections && url !in connections[id].targets)
            && (reply == Forbidden <==> !known)
            && (reply != Removed ==> after == connections)
            && (reply == Removed ==> exists i :: RemovedAt(connections[id].targets, after[id].targets, url, i))
  {
    if i :| 0 <= i < |radar| && radar[i].url == url { assert radar[i] in radar; }
    if Known(radar, url) && id in connections && url in connections[id].targets {
      var i := RemoveFirstShape(connections[id].targets, url);
      var after := RemoveEndpoint(connections, radar, id, url).0;
      assert RemovedAt(connections[id].targets, after[id].targets, url, i);
    }
  }

  /** The first occurrence of `x` is gone, and nothing else. */
  ghost predicate RemovedAt(list: seq<Url>, after: seq<Url>, x: Url, i: int) {
    0 <= i < |list| && list[i] == x && x !in list[..i] && after == list[..i] + list[i + 1..]
  }

  ghost function Unknowns(radar: Radar, list: seq<Url>): seq<Url> {
    Filter((u: Url) => !Known(radar, u), list)
  }

  /** Removal never touches an endpoint outside the known set: their list, with order and repetitions, stays. */
  lemma RemovalKeepsUnknown(connections: map<string, Connection>, radar: Radar, id: string, url: Url, other: string)
    requires other in connections
    ensures var after := RemoveEndpoint(connections, radar, id, url).0;
            && after.Keys == connections.Keys
            && Unknowns(radar, after[other].targets) == Unknowns(radar, connections[other].targets)
            && after[other].settings == connections[other].settings
            && (after[other] != connections[other] ==>
                  && other == id
                  && multiset(after[other].targets) == multiset(connections[other].targets) - multiset{url})
  {
    var (after, reply) := RemoveEndpoint(connections, radar, id, url);
    if reply == Removed && other == id {
      RemoveOne(connections[id].targets, url, (u: Url) => !Known(radar, u));
    }
  }

  lemma RemoveOne(list: seq<Url>, url: Url, keep: Url -> bool)
    requires url in list && !keep(url)
    ensures Filter(keep, RemoveFirst(list, url)) == Filter(keep, list)
    ensures multiset(RemoveFirst(list, url)) == multiset(list) - multiset{url}
  {
    var i := RemoveFirstShape(list, url);
    var before, after := list[..i], list[i + 1..];
    assert list == before + ([url] + after);
    FilterConcat(keep, before, [url] + after);
    assert ([url] + after)[1..] == after;
    FilterConcat(keep, before, after);
  }

  class BotShepherdManager {
    var connections: map<string, Connection>
    var radar: Radar

    constructor (connections: map<string, Connection>, radar: Radar)
      ensures this.connections == connections && this.radar == radar
    {
      this.connections, this.radar := connections, radar;
    }

    /** The merge loop of the synchronisation. */
    method MergeTargets(existing: seq<Url>, manager: Url, targets: seq<Url>) returns (merged: seq<Url>)
      ensures merged == Merge(existing, manager, targets)
    {
      merged := existing;
      if manager !in merged {
        merged := [manager] + merged;
      }
      var i := 0;
      while i < |targets|
        invariant 0 <= i <= |targets|
        invariant AppendMissing(merged, targets[i..]) == Merge(existing, manager, targets)
      {
        if targets[i] !in merged {
          merged := merged + [targets[i]];
        }
        assert targets[i..][1..] == targets[i + 1..];
        i := i + 1;
      }
    }

    method InjectAlias(alias: string, id: string) returns (reply: Reply)
      modifies `connections
      ensures (connections, reply) == InjectByAlias(old(connections), radar, alias, id)
    {
      var found := Lookup(radar, alias);
      if found.None? {
        return NoSuchAlias;
      }
      var url := found.value;
      if id == "" {
        return NoConnId;
      }
      if id !in connections {
        return NoConnection;
      }
      var targets := connections[id].targets;
      if url in targets {
        return AlreadyThere;
      }
      targets := targets + [url];
      connections := connections[id := connections[id].(targets := targets)];
      reply := Injected;
    }

    method IsKnownEndpoint(url: Url) returns (known: bool)
      ensures known <==> Known(radar, url)
    {
      var i := 0;
      while i + |MANAGER_PATH| <= |url|
        invariant 0 <= i
        invariant forall k :: k < i ==> !At(url, MANAGER_PATH, k)
      {
        if At(url, MANAGER_PATH, i) {
          return true;
        }
        i := i + 1;
      }
      known := url in Urls(radar);
    }

    method RemoveOne(list: seq<Url>, x: Url) returns (r: seq<Url>)
      requires x in list
      ensures r == RemoveFirst(list, x)
    {
      var i := 0;
      ghost var first := RemoveFirstShape(list, x);
      while list[i] != x
        invariant 0 <= i <= first
        decreases first - i
      {
        i := i + 1;
      }
      assert i == first by { assert x !in list[..first]; }
      r := list[..i] + list[i + 1..];
    }

    method RemoveEndpointFromBs(id: string, url: Url) returns (reply: Reply)
      modifies `connections
      ensures (connections, reply) == RemoveEndpoint(old(connections), radar, id, url)
    {
      var known := IsKnownEndpoint(url);
      if !known {
        return Forbidden;
      }
      if id !in connections {
        return NoConnection;
      }
      var targets := connections[id].targets;
      if url !in targets {
        return Absent;
      }
      targets := RemoveOne(targets, url);
      connections := connections[id := connections[id].(targets := targets)];
      reply := Removed;
    }
  }
}
