/** The in-memory mirror of containers: one instance per name, its login state and its heartbeat. */
module Instances {
  type Name = string
  const RUNNING := "running"
  const LOCAL := "local"

  /** The fields of an instance that the engine and the plugin events read and write. */
  datatype Inst = Inst(
    name: Name, containerId: string, status: string, image: string, nodeId: string, created: string,
    uin: string, loggedIn: bool, loginTs: int, stage: string, via: string, reason: string,
    botOnline: bool, heartbeatTs: int)

  /** One entry of a container listing. */
  datatype Listed = Listed(name: Name, id: string, status: string, image: string, nodeId: string, created: string)

  function NewInst(c: Listed): Inst {
    Inst(c.name, c.id, c.status, c.image, c.nodeId, c.created, "", false, 0, "waiting", "", "", false, 0)
  }

  function Refreshed(i: Inst, c: Listed): Inst {
    i.(containerId := c.id, status := c.status, image := c.image, nodeId := c.nodeId, created := c.created)
  }

  /** An explicit uin replaces the old one; a logout to the waiting stage without a uin forgets it. */
  function WithLogin(i: Inst, loggedIn: bool, uin: string, stage: string, via: string, reason: string, now: int): Inst {
    var st := if stage != "" then stage else if loggedIn then "logged_in" else "waiting";
    i.(loggedIn := loggedIn, stage := st, via := via, reason := reason, loginTs := now,
       uin := if uin != "" then uin else if !loggedIn && st == "waiting" then "" else i.uin)
  }

  function Cleared(i: Inst, now: int): Inst {
    i.(botOnline := false, heartbeatTs := 0, loggedIn := false, loginTs := if i.loggedIn then now else i.loginTs,
       stage := "waiting", via := "", reason := "")
  }

  function WithHeartbeat(i: Inst, online: bool, now: int): Inst { i.(botOnline := online, heartbeatTs := now) }

  type Table = map<Name, Inst>

  function Upserted(t: Table, c: Listed): Table {
    t[c.name := if c.name in t then Refreshed(t[c.name], c) else NewInst(c)]
  }

  function Keeping(t: Table, active: set<Name>): Table { map n | n in t && n in active :: t[n] }

  /** Upsert one listed container; a container that is not running loses its runtime data. */
  function Apply(t: Table, c: Listed, now: int): Table {
    var u := Upserted(t, c);
    if c.status != RUNNING then u[c.name := Cleared(u[c.name], now)] else u
  }

  function ApplyAll(t: Table, listing: seq<Listed>, now: int): Table {
    if listing == [] then t
    else Apply(ApplyAll(t, listing[..|listing| - 1], now), listing[|listing| - 1], now)
  }

  function ListedNames(listing: seq<Listed>): set<Name> { set i | 0 <= i < |listing| :: listing[i].name }

  /** The table after a refresh from a complete listing. */
  function Reflection(t: Table, listing: seq<Listed>, now: int): Table {
    Keeping(ApplyAll(t, listing, now), ListedNames(listing))
  }

  /** A login update: the stage defaults to what the login state says, and the account is the given one; without one
      a logout to the waiting stage forgets it and anything else keeps it. */
  lemma LoginSets(i: Inst, loggedIn: bool, uin: string, stage: string, via: string, reason: string, now: int)
    ensures var x := WithLogin(i, loggedIn, uin, stage, via, reason, now);
            && x.loggedIn == loggedIn && x.loginTs == now && x.via == via && x.reason == reason
            && (stage != "" ==> x.stage == stage)
            && (stage == "" ==> x.stage in {"logged_in", "waiting"} && (x.stage == "logged_in" <==> loggedIn))
            && (uin != "" ==> x.uin == uin)
            && (uin == "" ==> x.uin in {"", i.uin}
                              && (x.uin == "" <==> i.uin == "" || (!loggedIn && x.stage == "waiting")))
            && (x.name, x.containerId, x.status, x.image) == (i.name, i.containerId, i.status, i.image)
            && (x.nodeId, x.created, x.botOnline, x.heartbeatTs) == (i.nodeId, i.created, i.botOnline, i.heartbeatTs)
  {}

  /** Every entry for the name in the listing says that it runs. */
  ghost predicate StaysUp(listing: seq<Listed>, n: Name) {
    forall i :: 0 <= i < |listing| && listing[i].name == n ==> listing[i].status == "running"
  }

  ghost predicate SameRuntime(x: Inst, y: Inst) {
    && (x.uin, x.loggedIn, x.loginTs, x.stage) == (y.uin, y.loggedIn, y.loginTs, y.stage)
    && (x.via, x.reason, x.botOnline, x.heartbeatTs) == (y.via, y.reason, y.botOnline, y.heartbeatTs)
  }

  /** The runtime data of a known instance survives a refresh exactly if the listing never says it does not run. */
  lemma {:induction false} RefreshExact(t: Table, listing: seq<Listed>, now: int, n: Name)
    ensures var t' := ApplyAll(t, listing, now);
            && (n in t' <==> n in t || n in ListedNames(listing))
            && (n in t ==> t'[n].uin == t[n].uin)
            && (n in t' && n !in t ==>
                  !t'[n].loggedIn && !t'[n].botOnline && t'[n].heartbeatTs == 0 && t'[n].uin == "")
            && (n in t && StaysUp(listing, n) ==> SameRuntime(t'[n], t[n]))
            && (n in t && !StaysUp(listing, n) ==>
                  && !t'[n].loggedIn && !t'[n].botOnline && t'[n].heartbeatTs == 0
                  && t'[n].loginTs == if t[n].loggedIn then now else t[n].loginTs)
  {
    if listing != [] {
      var init, last := listing[..|listing| - 1], listing[|listing| - 1];
      RefreshExact(t, init, now, n);
      NamesSnoc(listing, |init|);
      assert listing[..|init| + 1] == listing;
      assert StaysUp(listing, n) <==> StaysUp(init, n) && (last.name == n ==> last.status == "running") by {
        assert forall i :: 0 <= i < |init| ==> init[i] == listing[i];
      }
    }
  }

  lemma {:induction false} ApplyAllAt(t: Table, listing: seq<Listed>, now: int, n: Name)
    requires forall i, j :: 0 <= i < j < |listing| ==> listing[i].name != listing[j].name
    ensures var t' := ApplyAll(t, listing, now);
            && (n in t' <==> n in t || n in ListedNames(listing))
            && (n in t && n !in ListedNames(listing) ==> t'[n] == t[n])
            && (forall i :: 0 <= i < |listing| && listing[i].name == n ==>
                  n in t' && t'[n] == Apply(t, listing[i], now)[n])
  {
    if listing != [] {
      var init, last := listing[..|listing| - 1], listing[|listing| - 1];
      ApplyAllAt(t, init, now, n);
      ApplyAllAt(t, init, now, last.name);
      assert forall i :: 0 <= i < |init| ==> init[i] == listing[i];
      assert last.name !in ListedNames(init);
      assert ListedNames(listing) == ListedNames(init) + {last.name} by {
        forall m | m in ListedNames(init) + {last.name} ensures m in ListedNames(listing) {
          if m in ListedNames(init) {
            var i :| 0 <= i < |init| && init[i].name == m;
            assert listing[i].name == m;
          } else {
            assert listing[|listing| - 1].name == m;
          }
        }
      }
    }
  }

  /** After a refresh from a listing with distinct names the table holds exactly the listed containers as they
      are listed; a known running container keeps its login and heartbeat, any other has none. */
  lemma ReflectExact(t: Table, listing: seq<Listed>, now: int, i: nat)
    requires i < |listing| && forall i, j :: 0 <= i < j < |listing| ==> listing[i].name != listing[j].name
    ensures Reflection(t, listing, now).Keys == ListedNames(listing)
    ensures var c := listing[i];
            var x := Reflection(t, listing, now)[c.name];
            && c.name in Reflection(t, listing, now)
            && (x.containerId, x.status, x.image, x.nodeId, x.created) == (c.id, c.status, c.image, c.nodeId, c.created)
            && (if c.status == RUNNING && c.name in t
                then SameRuntime(x, t[c.name])
                else !x.loggedIn && !x.botOnline && x.heartbeatTs == 0 && x.stage == "waiting"
                     && x.uin == if c.name in t then t[c.name].uin else "")
  {
    forall n | n in ListedNames(listing) ensures n in ApplyAll(t, listing, now) { ApplyAllAt(t, listing, now, n); }
    ApplyAllAt(t, listing, now, listing[i].name);
  }

  class ContainerInstance {
    const name: Name
    var containerId: string
    var status: string
    var image: string
    var nodeId: string
    var created: string
    var uin: string
    var loggedIn: bool
    var loginTs: int
    var stage: string
    var via: string
    var reason: string
    var botOnline: bool
    var heartbeatTs: int

    ghost function State(): Inst
      reads this
    {
      Inst(name, containerId, status, image, nodeId, created, uin, loggedIn, loginTs, stage, via, reason,
           botOnline, heartbeatTs)
    }

    constructor (c: Listed)
      ensures State() == NewInst(c)
    {
      name := c.name;
      containerId, status, image, nodeId, created := c.id, c.status, c.image, c.nodeId, c.created;
      uin, loggedIn, loginTs, stage, via, reason := "", false, 0, "waiting", "", "";
      botOnline, heartbeatTs := false, 0;
    }

    method Refresh(c: Listed)
      modifies this
      ensures State() == Refreshed(old(State()), c)
    {
      containerId, status, image, nodeId, created := c.id, c.status, c.image, c.nodeId, c.created;
    }

    method UpdateLogin(loggedIn: bool, uin: string, stage: string, via: string, reason: string, now: int)
      modifies this
      ensures State() == WithLogin(old(State()), loggedIn, uin, stage, via, reason, now)
    {
      this.loggedIn := loggedIn;
      this.stage := if stage != "" then stage else if loggedIn then "logged_in" else "waiting";
      this.via, this.reason := via, reason;
      if uin != "" {
        this.uin := uin;
      } else if !loggedIn && this.stage == "waiting" {
        this.uin := "";
      }
      loginTs := now;
    }

    method ClearRuntime(now: int)
      modifies this
      ensures State() == Cleared(old(State()), now)
    {
      botOnline, heartbeatTs := false, 0;
      if loggedIn {
        loggedIn, loginTs := false, now;
      }
      stage, via, reason := "waiting", "", "";
    }

    method UpdateBotHeartbeat(online: bool, now: int)
      modifies this
      ensures State() == WithHeartbeat(old(State()), online, now)
    {
      botOnline, heartbeatTs := online, now;
    }
  }

  class InstanceSubsystem {
    var instances: map<Name, ContainerInstance>

    /** Every instance is filed under its own name, so no object is filed twice. */
    ghost predicate Valid()
      reads this
    {
      forall n :: n in instances ==> instances[n].name == n
    }

    ghost function View(): Table
      reads this, instances.Values
    {
      map n | n in instances :: instances[n].State()
    }

    constructor ()
      ensures Valid() && View() == map[]
    {
      instances := map[];
    }

    method Upsert(c: Listed) returns (inst: ContainerInstance)
      requires Valid()
      modifies this, instances.Values
      ensures Valid() && c.name in instances && inst == instances[c.name]
      ensures fresh(instances.Values - old(instances.Values))
      ensures View() == Upserted(old(View()), c)
    {
      if c.name in instances {
        inst := instances[c.name];
        inst.Refresh(c);
      } else {
        inst := new ContainerInstance(c);
        instances := instances[c.name := inst];
      }
    }

    method Remove(name: Name)
      requires Valid()
      modifies this
      ensures Valid() && View() == old(View()) - {name} && instances.Values <= old(instances.Values)
    {
      instances := instances - {name};
    }

    method Cleanup(active: set<Name>)
      requires Valid()
      modifies this
      ensures Valid() && View() == Keeping(old(View()), active) && instances.Values <= old(instances.Values)
    {
      instances := map n | n in instances && n in active :: instances[n];
    }

    /** The refresh loop of a tick. */
    method Reflect(listing: seq<Listed>, now: int)
      requires Valid()
      modifies this, instances.Values
      ensures Valid() && View() == Reflection(old(View()), listing, now)
      ensures fresh(instances.Values - old(instances.Values))
    {
      var active: set<Name> := {};
      for i := 0 to |listing|
        invariant Valid()
        invariant fresh(instances.Values - old(instances.Values))
        invariant View() == ApplyAll(old(View()), listing[..i], now)
        invariant active == ListedNames(listing[..i])
      {
        var c := listing[i];
        active := active + {c.name};
        assert ListedNames(listing[..i + 1]) == ListedNames(listing[..i]) + {c.name} by { NamesSnoc(listing, i); }
        assert listing[..i + 1][..i] == listing[..i];
        ApplyOne(c, now);
      }
      assert listing[..|listing|] == listing;
      Cleanup(active);
    }

    method ApplyOne(c: Listed, now: int)
      requires Valid()
      modifies this, instances.Values
      ensures Valid() && View() == Apply(old(View()), c, now)
      ensures fresh(instances.Values - old(instances.Values))
    {
      var inst := Upsert(c);
      if inst.status != RUNNING {
        ClearOne(c.name, now);
      }
    }

    method ClearOne(name: Name, now: int)
      requires Valid() && name in instances
      modifies instances[name]
      ensures Valid() && View() == old(View())[name := Cleared(old(View())[name], now)]
    {
      instances[name].ClearRuntime(now);
      assert forall n :: n in instances && n != name ==> instances[n] != instances[name];
    }
  }

  lemma NamesSnoc(listing: seq<Listed>, i: nat)
    requires i < |listing|
    ensures ListedNames(listing[..i + 1]) == ListedNames(listing[..i]) + {listing[i].name}
  {
    var all, init := listing[..i + 1], listing[..i];
    forall m | m in ListedNames(init) + {listing[i].name} ensures m in ListedNames(all) {
      if m in ListedNames(init) {
        var k :| 0 <= k < |init| && init[k].name == m;
        assert all[k].name == m;
      } else {
        assert all[i].name == m;
      }
    }
  }
}
