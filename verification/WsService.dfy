/** The objects behind the state machine of WsRegistry, changed in place: futures, API proxies and the service
    that owns them. Each method moves the heap from one state of the machine to another. */
module WsService {
  import opened Common
  import opened WsRegistry

  class Promise {
    ghost const echo: Echo
    var state: Future

    constructor (ghost echo: Echo)
      ensures state == Waiting && this.echo == echo
    {
      this.echo := echo;
      state := Waiting;
    }
  }

  class NapCatApiProxy {
    ghost const name: Name
    const ws: Socket
    var pending: map<Echo, Promise>
    var closed: bool

    constructor (ws: Socket, ghost name: Name)
      ensures this.ws == ws && this.name == name && pending == map[] && !closed
    {
      this.name := name;
      this.ws, pending, closed := ws, map[], false;
    }

    /** Every pending future was made for its echo. */
    ghost predicate Filed()
      reads this
    {
      forall e :: e in pending ==> pending[e].echo == e
    }

    method OnResponse(resp: Response)
      requires Filed()
      modifies pending.Values
      ensures forall e :: e in pending ==>
                var was := old(pending[e].state);
                pending[e].state == if e == resp.echo then Resolve(was, resp) else was
    {
      if resp.echo in pending {
        var fut := pending[resp.echo];
        assert fut in pending.Values;
        if fut.state.Waiting? { fut.state := Resolved(resp); }
      }
    }

    method Close()
      modifies this, pending.Values
      ensures closed && pending == map[]
      ensures forall f :: f in old(pending.Values) ==> f.state == Cancel(old(f.state))
    {
      closed := true;
      var rest := pending.Values;
      while rest != {}
        invariant rest <= pending.Values && pending == old(pending) && closed
        invariant forall f :: f in pending.Values ==>
                    f.state == if f in rest then old(f.state) else Cancel(old(f.state))
        decreases |rest|
      {
        var fut :| fut in rest;
        if fut.state.Waiting? { fut.state := Cancelled; }
        rest := rest - {fut};
      }
      pending := map[];
    }

    /** A new future waits under the echo of a call. */
    method FileCall(echo: Echo) returns (fut: Promise)
      modifies this
      ensures closed == old(closed) && pending == old(pending)[echo := fut]
      ensures fresh(fut) && fut.state == Waiting && fut.echo == echo
    {
      fut := new Promise(echo);
      pending := pending[echo := fut];
    }

    method EndCall(echo: Echo)
      modifies this
      ensures closed == old(closed) && pending == old(pending) - {echo}
    {
      pending := pending - {echo};
    }
  }

  class NapCatWsService {
    var table: Table
    var proxies: map<Name, NapCatApiProxy>
    ghost var futures: map<Echo, Promise>

    constructor ()
      ensures Represents(INIT)
    {
      table, proxies, futures := map[], map[], map[];
    }

    // ---- what the objects hold ----

    /** `futures` are all futures ever made, one object per echo; each is as far as its call says. */
    ghost predicate HoldsFutures(calls: map<Echo, Call>)
      reads this`futures, futures.Values
    {
      && futures.Keys == calls.Keys
      && forall e :: e in futures ==> futures[e].echo == e && futures[e].state == calls[e].future
    }

    /** One proxy object per name, with the socket, the pending futures and the flag of the registered proxy. */
    ghost predicate HoldsProxies(registered: map<Name, Pid>, ps: map<Pid, Proxy>)
      reads this`proxies, this`futures, proxies.Values
    {
      && (forall m, n :: m in registered && n in registered && registered[m] == registered[n] ==> m == n)
      && proxies.Keys == registered.Keys
      && forall n :: n in proxies ==>
           proxies[n].name == n && registered[n] in ps && Mirrors(proxies[n], ps[registered[n]])
    }

    ghost predicate Mirrors(o: NapCatApiProxy, p: Proxy)
      reads this`futures, o
    {
      && o.ws == p.ws && o.closed == p.closed && o.pending.Keys == p.pending
      && forall e :: e in o.pending ==> e in futures && o.pending[e] == futures[e] && futures[e].echo == e
    }

    ghost predicate HoldsCalls(s: State)
      reads this`proxies, this`futures, proxies.Values, futures.Values
    {
      HoldsProxies(s.registered, s.proxies) && HoldsFutures(s.calls)
    }

    ghost predicate Represents(s: State)
      reads this, proxies.Values, futures.Values
    {
      table == s.table && HoldsCalls(s)
    }

    // ---- the registry ----

    method OnConnect(name: Name, uin: string, ws: Socket)
      modifies this`table
      ensures table == Connect(old(table), name, uin, ws)
    {
      var e := if name in table then table[name] else Entry("", false, 0, None);
      table := table[name := e.(uin := uin, connected := true, disconnectTs := 0, wsRef := Some(ws))];
    }

    method OnDisconnect(name: Name, ws: Socket, now: int)
      modifies this`table
      ensures table == Disconnect(old(table), name, ws, now)
    {
      if name in table {
        var e := table[name];
        if e.wsRef.Some? && e.wsRef.value != ws { return; }
        table := table[name := e.(connected := false, disconnectTs := now, wsRef := None)];
      }
    }

    method EnsureUin(name: Name, uin: string, ws: Socket, now: int)
      modifies this`table
      ensures table == WsRegistry.EnsureUin(old(table), name, uin, ws, now)
    {
      if uin == "" { return; }
      if name !in table {
        OnConnect(name, uin, ws);
        return;
      }
      var e := table[name];
      if !IsAlive(e, now) { return; }
      if e.uin != uin { table := table[name := e.(uin := uin)]; }
    }

    // ---- the proxies ----

    method Pop(name: Name, ghost s: State) returns (o: NapCatApiProxy)
      requires HoldsProxies(s.registered, s.proxies) && name in proxies
      modifies this`proxies
      ensures HoldsProxies(s.registered - {name}, s.proxies)
      ensures o in old(proxies.Values) && o !in proxies.Values && Mirrors(o, s.proxies[s.registered[name]])
      ensures proxies == old(proxies) - {name}
    {
      o := proxies[name];
      proxies := proxies - {name};
    }

    method CloseOld(o: NapCatApiProxy, ghost s: State, ghost pid: Pid)
      requires pid in s.proxies && Mirrors(o, s.proxies[pid]) && HoldsFutures(s.calls)
      modifies o, futures.Values
      ensures HoldsFutures(CloseProxy(s, pid).calls)
    {
      ghost var pending := s.proxies[pid].pending;
      assert forall f :: f in o.pending.Values ==> f in futures.Values && f.echo in pending && futures[f.echo] == f;
      o.Close();
      forall e | e in futures
        ensures futures[e].state == if e in pending then Cancel(s.calls[e].future) else s.calls[e].future
      {
        if e in pending { assert futures[e] in old(o.pending.Values); }
      }
    }

    /** Takes out and closes the proxy of a name: its waiting futures are cancelled. */
    method DropProxy(name: Name, ghost s: State)
      requires HoldsCalls(s)
      modifies this`proxies, proxies.Values, futures.Values
      ensures HoldsCalls(Drop(s, name))
      ensures proxies == old(proxies) - {name}
    {
      if name in proxies {
        ghost var pid := s.registered[name];
        var o := Pop(name, s);
        CloseOld(o, s, pid);
        assert HoldsProxies(s.registered - {name}, s.proxies);
      }
    }

    method RegisterProxy(name: Name, ws: Socket, ghost s: State, ghost pid: Pid)
      requires HoldsCalls(s) && pid !in s.proxies
      modifies this`proxies, proxies.Values, futures.Values
      ensures HoldsCalls(Register(s, name, ws, pid))
    {
      DropProxy(name, s);
      AddProxy(name, ws, Drop(s, name), pid);
    }

    method AddProxy(name: Name, ws: Socket, ghost s: State, ghost pid: Pid)
      requires HoldsProxies(s.registered, s.proxies) && pid !in s.proxies && name !in s.registered
      modifies this`proxies
      ensures HoldsProxies(s.registered[name := pid], s.proxies[pid := Proxy(ws, {}, false)])
    {
      var proxy := new NapCatApiProxy(ws, name);
      proxies := proxies[name := proxy];
    }

    /** Only the socket a proxy was registered for takes it out again. */
    method UnregisterProxy(name: Name, ws: Socket, ghost s: State)
      requires HoldsCalls(s)
      modifies this`proxies, proxies.Values, futures.Values
      ensures HoldsCalls(Unregistered(s, name, ws))
    {
      if name in proxies {
        assert Mirrors(proxies[name], s.proxies[s.registered[name]]);
        if proxies[name].ws != ws { return; }
        DropProxy(name, s);
      }
    }

    // ---- calls and responses ----

    method AddCall(o: NapCatApiProxy, echo: Echo, ghost s: State, ghost pid: Pid) returns (fut: Promise)
      requires pid in s.proxies && Mirrors(o, s.proxies[pid]) && HoldsFutures(s.calls) && echo !in s.calls
      modifies this`futures, o
      ensures HoldsFutures(s.calls[echo := Call(pid, Sending, Waiting)]) && futures == old(futures)[echo := fut]
      ensures Mirrors(o, s.proxies[pid].(pending := s.proxies[pid].pending + {echo}))
    {
      fut := o.FileCall(echo);
      futures := futures[echo := fut];
    }

    /** The first half of a call made for a name: refused without a proxy or on a closed one. */
    method StartCall(name: Name, echo: Echo, ghost s: State) returns (fut: Option<Promise>)
      requires HoldsCalls(s) && echo !in s.calls
      modifies this`futures, proxies.Values
      ensures HoldsCalls(Invoked(s, name, echo))
      ensures fut.Some? <==> Registered(s, name)
      ensures fut.Some? ==> echo in futures && futures[echo] == fut.value
    {
      if name !in proxies { return None; }
      if proxies[name].closed { return None; }
      ghost var pid := s.registered[name];
      ghost var ps := s.proxies[pid := s.proxies[pid].(pending := s.proxies[pid].pending + {echo})];
      var made := AddCall(proxies[name], echo, s, pid);
      fut := Some(made);
      forall n | n in proxies ensures Mirrors(proxies[n], ps[s.registered[n]]) {
        if n != name { assert s.registered[n] != pid && old(Mirrors(proxies[n], s.proxies[s.registered[n]])); }
      }
      assert HoldsProxies(s.registered, ps);
    }

    /** The end of a call, on the proxy `o` it was made on, which may have been replaced meanwhile. */
    method FinishCall(o: NapCatApiProxy, echo: Echo, ghost s: State, ghost outcome: Outcome)
      requires HoldsCalls(s) && Unfinished(s, echo)
      requires forall n :: n in proxies ==> (proxies[n] == o <==> s.registered[n] == s.calls[echo].pid)
      modifies o
      ensures HoldsCalls(Finish(s, echo, outcome))
    {
      o.EndCall(echo);
      ghost var z := Finish(s, echo, outcome);
      forall n | n in proxies ensures Mirrors(proxies[n], z.proxies[z.registered[n]]) {
        assert old(Mirrors(proxies[n], s.proxies[s.registered[n]]));
      }
    }

    /** A response for the proxy `o`: it completes at most the waiting future of its echo. */
    method Settle(o: NapCatApiProxy, resp: Response, ghost s: State, ghost pid: Pid)
      requires pid in s.proxies && Mirrors(o, s.proxies[pid]) && HoldsFutures(s.calls)
      modifies futures.Values
      ensures forall e :: e in futures ==>
                futures[e].state == if e == resp.echo && e in s.proxies[pid].pending
                                    then Resolve(s.calls[e].future, resp) else s.calls[e].future
    {
      assert forall f :: f in o.pending.Values ==> f in futures.Values;
      o.OnResponse(resp);
      forall e | e in futures && e in o.pending ensures o.pending[e] == futures[e] {}
    }

    /** A response read on a connection of `name`. */
    method OnEcho(name: Name, ws: Socket, resp: Response, ghost s: State)
      requires HoldsCalls(s) && ws in s.open && s.open[ws].name == name
      modifies futures.Values
      ensures HoldsCalls(Responded(s, ws, resp))
    {
      if resp.echo != "" && name in proxies {
        Settle(proxies[name], resp, s, s.registered[name]);
      }
    }

    // ---- the handlers of a connection ----

    method Bind(ws: Socket, name: Name, header: string, ghost s: State)
      requires table == s.table
      modifies this`table
      ensures table == Admitted(s, ws, name, header).table
    {
      if header != "" && header != "0" { OnConnect(name, header, ws); }
    }

    method Serve(ws: Socket, name: Name, header: string, ghost s: State, ghost pid: Pid)
      requires HoldsCalls(s) && pid !in s.proxies
      modifies this`proxies, proxies.Values, futures.Values
      ensures HoldsCalls(if header == "0" then s else Register(s, name, ws, pid))
    {
      if header != "0" { RegisterProxy(name, ws, s, pid); }
    }

    method Accepting(ws: Socket, name: Name, header: string, now: int, ghost s: State, ghost pid: Pid)
      requires Represents(s) && Enabled(s, Accept(ws, name, header, pid))
      modifies this`table, this`proxies, proxies.Values, futures.Values
      ensures Represents(Next(s, Timed(now, Accept(ws, name, header, pid))))
    {
      ghost var z := Admitted(s, ws, name, header);
      DropFrame(z, name);
      Bind(ws, name, header, s);
      assert HoldsCalls(z);
      Serve(ws, name, header, z, pid);
    }

    method Closing(ws: Socket, name: Name, probe: bool, now: int, ghost s: State)
      requires Represents(s) && Enabled(s, Close(ws)) && s.open[ws] == Conn(name, probe)
      modifies this`table, this`proxies, proxies.Values, futures.Values
      ensures Represents(Next(s, Timed(now, Close(ws))))
    {
      ghost var z := Cut(s, ws, now);
      DropFrame(z, name);
      OnDisconnect(name, ws, now);
      assert HoldsCalls(z);
      if !probe { UnregisterProxy(name, ws, z); }
    }

    method Cleanup(name: Name, now: int, ghost s: State)
      requires Represents(s) && Enabled(s, WsRegistry.Cleanup(name))
      modifies this`table, this`proxies, proxies.Values, futures.Values
      ensures Represents(Next(s, Timed(now, WsRegistry.Cleanup(name))))
    {
      ghost var z := s.(table := s.table - {name});
      DropFrame(z, name);
      table := table - {name};
      assert HoldsCalls(z);
      DropProxy(name, z);
    }
  }
}
