/** Reverse WebSocket connections of bots: the registry with its grace period, the API proxy per bot name with
    its table of pending calls, and every interleaving of connections, events, calls, responses, time-outs,
    closes and cleanups. */
module WsRegistry {
  import opened Common

  const GRACE := 15

  type Name = string
  type Socket = nat
  type Echo = string
  type Pid = nat

  // ---- the registry ----

  datatype Entry = Entry(uin: string, connected: bool, disconnectTs: int, wsRef: Option<Socket>)
  type Table = map<Name, Entry>

  predicate IsAlive(e: Entry, now: int) { e.connected || (e.disconnectTs > 0 && now - e.disconnectTs < GRACE) }

  function Connect(t: Table, name: Name, uin: string, ws: Socket): Table { t[name := Entry(uin, true, 0, Some(ws))] }

  /** Only the bound socket, or any socket when none is bound, counts as a disconnection. */
  predicate Counts(t: Table, name: Name, ws: Socket) {
    name in t && (t[name].wsRef.None? || t[name].wsRef == Some(ws))
  }

  function Disconnect(t: Table, name: Name, ws: Socket, now: int): Table {
    if Counts(t, name, ws) then t[name := t[name].(connected := false, disconnectTs := now, wsRef := None)] else t
  }

  /** An event brings the real account number: it fills in a missing entry or renames a live one. */
  function EnsureUin(t: Table, name: Name, uin: string, ws: Socket, now: int): Table {
    if uin == "" then t
    else if name !in t then Connect(t, name, uin, ws)
    else if !IsAlive(t[name], now) then t
    else t[name := t[name].(uin := uin)]
  }

  function LoginResult(t: Table, name: Name): Option<string> {
    if name in t && t[name].connected && t[name].uin != "" && t[name].uin != "0" then Some(t[name].uin) else None
  }

  // ---- proxies, calls and futures ----

  datatype Response = Response(echo: Echo, ok: bool, data: string)
  datatype Future = Waiting | Resolved(resp: Response) | Cancelled

  /** A future is completed once; later completions do nothing. */
  function Resolve(f: Future, r: Response): Future { if f.Waiting? then Resolved(r) else f }
  function Cancel(f: Future): Future { if f.Waiting? then Cancelled else f }

  datatype Outcome = Answered(resp: Response) | Refused(resp: Response) | TimedOut | SendFailed | Aborted
  datatype Phase = Sending | Awaiting | Settled(outcome: Outcome)

  /** A call belongs to the proxy it was made on and owns the future filed under its echo. */
  datatype Call = Call(pid: Pid, phase: Phase, future: Future)
  datatype Proxy = Proxy(ws: Socket, pending: set<Echo>, closed: bool)
  datatype Conn = Conn(name: Name, probe: bool)

  /** `open` are the sockets whose handler runs; `proxies` and `calls` keep everything that ever existed. */
  datatype State = State(
    seen: set<Socket>, open: map<Socket, Conn>, table: Table,
    registered: map<Name, Pid>, proxies: map<Pid, Proxy>, calls: map<Echo, Call>)

  const INIT := State({}, map[], map[], map[], map[], map[])

  function CloseProxy(s: State, pid: Pid): State
    requires pid in s.proxies
  {
    var p := s.proxies[pid];
    s.(proxies := s.proxies[pid := Proxy(p.ws, {}, true)],
       calls := map e | e in s.calls ::
         if e in p.pending then s.calls[e].(future := Cancel(s.calls[e].future)) else s.calls[e])
  }

  /** Takes a name's proxy out of the registry and closes it. */
  function Drop(s: State, name: Name): State
    requires name in s.registered ==> s.registered[name] in s.proxies
  {
    if name !in s.registered then s
    else CloseProxy(s, s.registered[name]).(registered := s.registered - {name})
  }

  function Unregistered(s: State, name: Name, ws: Socket): State
    requires name in s.registered ==> s.registered[name] in s.proxies
  {
    if name in s.registered && s.proxies[s.registered[name]].ws == ws then Drop(s, name) else s
  }

  function Register(s: State, name: Name, ws: Socket, pid: Pid): State
    requires name in s.registered ==> s.registered[name] in s.proxies
  {
    var d := Drop(s, name);
    d.(registered := d.registered[name := pid], proxies := d.proxies[pid := Proxy(ws, {}, false)])
  }

  /** The end of a call takes its echo out of the pending table, whatever the reason. */
  function Finish(s: State, echo: Echo, outcome: Outcome): State
    requires echo in s.calls && s.calls[echo].pid in s.proxies
  {
    var c := s.calls[echo];
    var p := s.proxies[c.pid];
    s.(calls := s.calls[echo := c.(phase := Settled(outcome))],
       proxies := s.proxies[c.pid := p.(pending := p.pending - {echo})])
  }

  datatype Event =
    | Accept(ws: Socket, name: Name, header: string, pid: Pid)
    | Uin(ws: Socket, uin: string)
    | Respond(ws: Socket, resp: Response)
    | Invoke(name: Name, echo: Echo)
    | Sent(echo: Echo)
    | SendFails(echo: Echo)
    | Resume(echo: Echo)
    | Timeout(echo: Echo)
    | Abandon(echo: Echo)
    | Close(ws: Socket)
    | Cleanup(name: Name)

  datatype Timed = Timed(now: int, event: Event)

  predicate Registered(s: State, name: Name) {
    name in s.registered && s.registered[name] in s.proxies && !s.proxies[s.registered[name]].closed
  }

  predicate Unfinished(s: State, echo: Echo) {
    echo in s.calls && s.calls[echo].pid in s.proxies && !s.calls[echo].phase.Settled?
  }

  /** Sockets, proxies and echoes are new objects; event parsing lets no empty or "0" account through. */
  ghost predicate Enabled(s: State, e: Event) {
    && (forall n :: n in s.registered ==> s.registered[n] in s.proxies)
    && match e
       case Accept(ws, _, _, pid) => ws !in s.seen && pid !in s.proxies
       case Uin(ws, uin) => ws in s.open && uin != "" && uin != "0"
       case Respond(ws, _) => ws in s.open
       case Invoke(_, echo) => echo !in s.calls
       case Sent(echo) => Unfinished(s, echo) && s.calls[echo].phase.Sending?
       case SendFails(echo) => Unfinished(s, echo) && s.calls[echo].phase.Sending?
       case Resume(echo) => Unfinished(s, echo) && s.calls[echo].phase.Awaiting? && !s.calls[echo].future.Waiting?
       case Timeout(echo) => Unfinished(s, echo) && s.calls[echo].phase.Awaiting?
       case Abandon(echo) => Unfinished(s, echo)
       case Close(ws) => ws in s.open
       case Cleanup(_) => true
  }

  /** A handshake with a header of its own binds the entry; a probe leaves entry and proxy alone. */
  function Admitted(s: State, ws: Socket, name: Name, header: string): State {
    s.(seen := s.seen + {ws}, open := s.open[ws := Conn(name, header == "0")],
       table := if header != "" && header != "0" then Connect(s.table, name, header, ws) else s.table)
  }

  function Accepted(s: State, ws: Socket, name: Name, header: string, pid: Pid): State
    requires name in s.registered ==> s.registered[name] in s.proxies
  {
    var admitted := Admitted(s, ws, name, header);
    if header == "0" then admitted else Register(admitted, name, ws, pid)
  }

  /** A response goes to the proxy registered for its connection's name, and there to its echo only. */
  function Responded(s: State, ws: Socket, resp: Response): State
    requires ws in s.open
  {
    var name, echo := s.open[ws].name, resp.echo;
    if echo != "" && name in s.registered && s.registered[name] in s.proxies
       && echo in s.proxies[s.registered[name]].pending && echo in s.calls
    then s.(calls := s.calls[echo := s.calls[echo].(future := Resolve(s.calls[echo].future, resp))])
    else s
  }

  function Invoked(s: State, name: Name, echo: Echo): State {
    if !Registered(s, name) then s
    else
      var pid := s.registered[name];
      var p := s.proxies[pid];
      s.(proxies := s.proxies[pid := p.(pending := p.pending + {echo})],
         calls := s.calls[echo := Call(pid, Sending, Waiting)])
  }

  function OutcomeOf(f: Future): Outcome {
    match f
    case Resolved(r) => if r.ok then Answered(r) else Refused(r)
    case _ => Aborted
  }

  function Cut(s: State, ws: Socket, now: int): State
    requires ws in s.open
  {
    s.(open := s.open - {ws}, table := Disconnect(s.table, s.open[ws].name, ws, now))
  }

  /** The handler's end: the entry first, then the proxy, each only if it is bound to this socket. */
  function Closed(s: State, ws: Socket, now: int): State
    requires ws in s.open && forall n :: n in s.registered ==> s.registered[n] in s.proxies
  {
    var conn := s.open[ws];
    if conn.probe then Cut(s, ws, now) else Unregistered(Cut(s, ws, now), conn.name, ws)
  }

  function Next(s: State, t: Timed): State
    requires Enabled(s, t.event)
  {
    match t.event
    case Accept(ws, name, header, pid) => Accepted(s, ws, name, header, pid)
    case Uin(ws, uin) => s.(table := EnsureUin(s.table, s.open[ws].name, uin, ws, t.now))
    case Respond(ws, resp) => Responded(s, ws, resp)
    case Invoke(name, echo) => Invoked(s, name, echo)
    case Sent(echo) => s.(calls := s.calls[echo := s.calls[echo].(phase := Awaiting)])
    case SendFails(echo) => Finish(s, echo, SendFailed)
    case Resume(echo) => Finish(s, echo, OutcomeOf(s.calls[echo].future))
    case Timeout(echo) => Finish(s, echo, TimedOut)
    case Abandon(echo) => Finish(s, echo, Aborted)
    case Close(ws) => Closed(s, ws, t.now)
    case Cleanup(name) => Drop(s.(table := s.table - {name}), name)
  }

  ghost predicate IsRun(trace: seq<State>, events: seq<Timed>) {
    && |trace| == |events| + 1 && trace[0] == INIT
    && (forall i, j :: 0 <= i < j < |events| ==> events[i].now <= events[j].now)
    && forall i :: 0 <= i < |events| ==> StepAt(trace, events, i)
  }

  ghost predicate StepAt(trace: seq<State>, events: seq<Timed>, i: int) {
    && 0 <= i < |events| < |trace|
    && events[i].now > 0
    && Enabled(trace[i], events[i].event) && trace[i + 1] == Next(trace[i], events[i])
  }

  // ---- invariants ----

  /** The pending table of an open proxy is exactly its unfinished calls; a closed proxy has none and leaves no
      call waiting; a completed future carries its own echo. */
  ghost predicate CallsOk(s: State) { Filed(s.calls, s.proxies) }

  ghost predicate Filed(calls: map<Echo, Call>, proxies: map<Pid, Proxy>) {
    && (forall e :: e in calls ==> calls[e].pid in proxies && CallOk(calls[e], e, proxies[calls[e].pid]))
    && (forall p :: p in proxies ==> PendingOk(calls, p, proxies[p].pending))
  }

  ghost predicate PendingOk(calls: map<Echo, Call>, pid: Pid, pending: set<Echo>) {
    forall e :: e in pending ==> e in calls && calls[e].pid == pid
  }

  predicate CallOk(c: Call, echo: Echo, p: Proxy) {
    && (echo in p.pending <==> !c.phase.Settled? && !p.closed)
    && (c.future.Resolved? ==> c.future.resp.echo == echo)
    && (c.future.Cancelled? ==> p.closed)
    && (p.closed && !c.phase.Settled? ==> !c.future.Waiting?)
    && (c.phase.Settled? && c.phase.outcome.Answered? ==>
          c.future == Resolved(c.phase.outcome.resp) && c.phase.outcome.resp.ok)
    && (c.phase.Settled? && c.phase.outcome.Refused? ==>
          c.future == Resolved(c.phase.outcome.resp) && !c.phase.outcome.resp.ok)
  }

  /** A registered proxy is open and so is its connection, which is not a probe; an open proxy is registered. */
  ghost predicate ProxiesOk(s: State) {
    && (forall n :: n in s.registered ==> ServedBy(s, n, s.registered[n]))
    && (forall p :: p in s.proxies && !s.proxies[p].closed ==>
          && s.proxies[p].ws in s.open
          && s.open[s.proxies[p].ws].name in s.registered
          && s.registered[s.open[s.proxies[p].ws].name] == p)
    && s.open.Keys <= s.seen
  }

  ghost predicate ServedBy(s: State, n: Name, p: Pid) {
    p in s.proxies && !s.proxies[p].closed && s.proxies[p].ws in s.open && s.open[s.proxies[p].ws] == Conn(n, false)
  }

  /** "Connected" means bound to an open socket of that name; otherwise the moment of disconnection is known. */
  ghost predicate TableOk(s: State) {
    forall n :: n in s.table ==> EntryOk(s, n)
  }

  ghost predicate EntryOk(s: State, n: Name)
    requires n in s.table
  {
    Bound(s.table[n], s.open, n)
  }

  ghost predicate Bound(e: Entry, open: map<Socket, Conn>, n: Name) {
    && e.uin != "" && e.uin != "0"
    && (if e.connected
        then e.disconnectTs == 0 && e.wsRef.Some? && e.wsRef.value in open && open[e.wsRef.value].name == n
        else e.disconnectTs > 0 && e.wsRef.None?)
  }

  lemma CloseProxyKeepsCalls(s: State, pid: Pid)
    requires CallsOk(s) && pid in s.proxies
    ensures CallsOk(CloseProxy(s, pid))
  {
    var z := CloseProxy(s, pid);
    forall e | e in z.calls ensures CallOk(z.calls[e], e, z.proxies[z.calls[e].pid]) {
      assert CallOk(s.calls[e], e, s.proxies[s.calls[e].pid]);
      if e in s.proxies[pid].pending { assert PendingOk(s.calls, pid, s.proxies[pid].pending); }
    }
    forall p | p in z.proxies ensures PendingOk(z.calls, p, z.proxies[p].pending) {
      assert PendingOk(s.calls, p, s.proxies[p].pending);
    }
  }

  lemma DropKeeps(s: State, name: Name)
    requires CallsOk(s) && (name in s.registered ==> s.registered[name] in s.proxies)
    ensures CallsOk(Drop(s, name))
  {
    if name in s.registered { CloseProxyKeepsCalls(s, s.registered[name]); }
  }

  lemma CallsStep(s: State, t: Timed)
    requires CallsOk(s) && Enabled(s, t.event)
    ensures CallsOk(Next(s, t))
  {
    match t.event
    case Accept(ws, name, header, pid) =>
      var admitted := Admitted(s, ws, name, header);
      if header != "0" {
        DropKeeps(admitted, name);
        NewProxyKeepsCalls(Drop(admitted, name), name, ws, pid);
      }
    case Uin(_, _) =>
    case Respond(ws, resp) => RespondKeepsCalls(s, ws, resp);
    case Invoke(name, echo) => InvokeKeepsCalls(s, name, echo);
    case Sent(echo) => SentKeepsCalls(s, echo);
    case SendFails(echo) => FinishKeepsCalls(s, echo, SendFailed);
    case Resume(echo) => FinishKeepsCalls(s, echo, OutcomeOf(s.calls[echo].future));
    case Timeout(echo) => FinishKeepsCalls(s, echo, TimedOut);
    case Abandon(echo) => FinishKeepsCalls(s, echo, Aborted);
    case Close(ws) => CloseKeepsCalls(s, ws, t.now);
    case Cleanup(name) => DropKeeps(s.(table := s.table - {name}), name);
  }

  lemma CloseKeepsCalls(s: State, ws: Socket, now: int)
    requires CallsOk(s) && ws in s.open && forall n :: n in s.registered ==> s.registered[n] in s.proxies
    ensures CallsOk(Closed(s, ws, now))
  {
    DropKeeps(Cut(s, ws, now), s.open[ws].name);
  }

  lemma NewProxyKeepsCalls(s: State, name: Name, ws: Socket, pid: Pid)
    requires CallsOk(s) && pid !in s.proxies
    ensures CallsOk(s.(registered := s.registered[name := pid], proxies := s.proxies[pid := Proxy(ws, {}, false)]))
  {
    forall e | e in s.calls ensures s.calls[e].pid != pid {}
  }

  lemma SentKeepsCalls(s: State, echo: Echo)
    requires CallsOk(s) && Unfinished(s, echo)
    ensures CallsOk(s.(calls := s.calls[echo := s.calls[echo].(phase := Awaiting)]))
  {
    var z := s.(calls := s.calls[echo := s.calls[echo].(phase := Awaiting)]);
    SamePids(s, z);
    assert CallOk(s.calls[echo], echo, s.proxies[s.calls[echo].pid]);
  }

  lemma SamePids(s: State, z: State)
    requires CallsOk(s) && s.calls.Keys <= z.calls.Keys && forall e :: e in s.calls ==> z.calls[e].pid == s.calls[e].pid
    ensures forall p :: p in s.proxies ==> PendingOk(z.calls, p, s.proxies[p].pending)
  {
    forall p | p in s.proxies ensures PendingOk(z.calls, p, s.proxies[p].pending) {
      assert PendingOk(s.calls, p, s.proxies[p].pending);
    }
  }

  lemma FinishKeepsCalls(s: State, echo: Echo, outcome: Outcome)
    requires CallsOk(s) && Unfinished(s, echo)
    requires outcome.Answered? || outcome.Refused? ==> outcome == OutcomeOf(s.calls[echo].future)
    ensures CallsOk(Finish(s, echo, outcome))
  {
    var z := Finish(s, echo, outcome);
    SamePids(s, z);
    forall p | p in z.proxies ensures PendingOk(z.calls, p, z.proxies[p].pending) {
      assert PendingOk(z.calls, p, s.proxies[p].pending);
    }
    forall e | e in z.calls ensures CallOk(z.calls[e], e, z.proxies[z.calls[e].pid]) {
      assert CallOk(s.calls[e], e, s.proxies[s.calls[e].pid]);
    }
  }

  lemma InvokeKeepsCalls(s: State, name: Name, echo: Echo)
    requires CallsOk(s) && echo !in s.calls
    ensures CallsOk(Invoked(s, name, echo))
  {
    var z := Invoked(s, name, echo);
    SamePids(s, z);
    forall p | p in z.proxies ensures PendingOk(z.calls, p, z.proxies[p].pending) {
      assert PendingOk(z.calls, p, s.proxies[p].pending);
    }
    forall e | e in z.calls ensures CallOk(z.calls[e], e, z.proxies[z.calls[e].pid]) {
      if e in s.calls { assert CallOk(s.calls[e], e, s.proxies[s.calls[e].pid]); }
    }
  }

  lemma RespondKeepsCalls(s: State, ws: Socket, resp: Response)
    requires CallsOk(s) && ws in s.open
    ensures CallsOk(Responded(s, ws, resp))
  {
    var z := Responded(s, ws, resp);
    SamePids(s, z);
    forall e | e in z.calls ensures CallOk(z.calls[e], e, z.proxies[z.calls[e].pid]) {
      assert CallOk(s.calls[e], e, s.proxies[s.calls[e].pid]);
    }
  }

  lemma AcceptKeepsProxies(s: State, ws: Socket, name: Name, header: string, pid: Pid)
    requires ProxiesOk(s) && ws !in s.seen && pid !in s.proxies
    ensures ProxiesOk(Accepted(s, ws, name, header, pid))
  {
    var z := Accepted(s, ws, name, header, pid);
    forall n | n in z.registered ensures ServedBy(z, n, z.registered[n]) {
      if header == "0" || n != name { assert ServedBy(s, n, s.registered[n]); }
    }
  }

  lemma CloseKeepsProxies(s: State, ws: Socket, now: int)
    requires ProxiesOk(s) && ws in s.open
    ensures ProxiesOk(Closed(s, ws, now))
  {
    var z := Closed(s, ws, now);
    forall n | n in z.registered ensures ServedBy(z, n, z.registered[n]) {
      assert ServedBy(s, n, s.registered[n]);
    }
    if s.open[ws].name in s.registered { assert ServedBy(s, s.open[ws].name, s.registered[s.open[ws].name]); }
  }

  lemma CleanupKeepsProxies(s: State, name: Name)
    requires ProxiesOk(s)
    ensures ProxiesOk(Drop(s.(table := s.table - {name}), name))
  {
    var z := Drop(s.(table := s.table - {name}), name);
    forall n | n in z.registered ensures ServedBy(z, n, z.registered[n]) {
      assert ServedBy(s, n, s.registered[n]);
    }
  }

  lemma PendingOnly(s: State, z: State)
    requires ProxiesOk(s) && z.open == s.open && z.seen == s.seen && z.registered == s.registered
    requires z.proxies.Keys == s.proxies.Keys
    requires forall p :: p in s.proxies ==>
               z.proxies[p].ws == s.proxies[p].ws && z.proxies[p].closed == s.proxies[p].closed
    ensures ProxiesOk(z)
  {
    forall n | n in z.registered ensures ServedBy(z, n, z.registered[n]) {
      assert ServedBy(s, n, s.registered[n]);
    }
  }

  lemma ProxiesStep(s: State, t: Timed)
    requires ProxiesOk(s) && Enabled(s, t.event)
    ensures ProxiesOk(Next(s, t))
  {
    match t.event
    case Accept(ws, name, header, pid) => AcceptKeepsProxies(s, ws, name, header, pid);
    case Close(ws) => CloseKeepsProxies(s, ws, t.now);
    case Cleanup(name) => CleanupKeepsProxies(s, name);
    case _ => PendingOnly(s, Next(s, t));
  }

  /** What one step does to the entries and the sockets, whatever happens to proxies and calls. */
  ghost function TableAfter(s: State, t: Timed): Table
    requires Enabled(s, t.event)
  {
    match t.event
    case Accept(ws, name, header, _) =>
      if header != "" && header != "0" then Connect(s.table, name, header, ws) else s.table
    case Uin(ws, uin) => EnsureUin(s.table, s.open[ws].name, uin, ws, t.now)
    case Close(ws) => Disconnect(s.table, s.open[ws].name, ws, t.now)
    case Cleanup(name) => s.table - {name}
    case _ => s.table
  }

  function OpenAfter(s: State, t: Timed): map<Socket, Conn> {
    match t.event
    case Accept(ws, name, header, _) => s.open[ws := Conn(name, header == "0")]
    case Close(ws) => s.open - {ws}
    case _ => s.open
  }

  lemma TableNext(s: State, t: Timed)
    requires Enabled(s, t.event)
    ensures Next(s, t).table == TableAfter(s, t) && Next(s, t).open == OpenAfter(s, t)
  {
    match t.event
    case Accept(ws, name, header, pid) => DropFrame(Admitted(s, ws, name, header), name);
    case Close(ws) => DropFrame(Cut(s, ws, t.now), s.open[ws].name);
    case Cleanup(name) => DropFrame(s.(table := s.table - {name}), name);
    case _ =>
  }

  lemma DropFrame(s: State, name: Name)
    requires name in s.registered ==> s.registered[name] in s.proxies
    ensures Drop(s, name).table == s.table && Drop(s, name).open == s.open
  {}

  lemma EntryStep(s: State, t: Timed, n: Name)
    requires TableOk(s) && s.open.Keys <= s.seen && Enabled(s, t.event) && t.now > 0
    requires n in TableAfter(s, t)
    ensures Bound(TableAfter(s, t)[n], OpenAfter(s, t), n)
  {
    if n in s.table { assert EntryOk(s, n); }
  }

  lemma TableStep(s: State, t: Timed)
    requires TableOk(s) && s.open.Keys <= s.seen && Enabled(s, t.event) && t.now > 0
    ensures TableOk(Next(s, t))
  {
    forall n | n in Next(s, t).table ensures EntryOk(Next(s, t), n) {
      TableNext(s, t);
      EntryStep(s, t, n);
    }
  }

  lemma {:induction false} Reachable(trace: seq<State>, events: seq<Timed>, i: nat)
    requires IsRun(trace, events) && i < |trace|
    ensures CallsOk(trace[i]) && ProxiesOk(trace[i]) && TableOk(trace[i])
  {
    if i > 0 {
      Reachable(trace, events, i - 1);
      assert StepAt(trace, events, i - 1);
      CallsStep(trace[i - 1], events[i - 1]);
      ProxiesStep(trace[i - 1], events[i - 1]);
      TableStep(trace[i - 1], events[i - 1]);
    }
  }

  // ---- calls over whole runs ----

  ghost predicate Advances(before: Call, after: Call) {
    && after.pid == before.pid
    && (before.phase.Settled? ==> after.phase == before.phase)
    && (!before.future.Waiting? ==> after.future == before.future)
  }

  lemma CallNext(s: State, t: Timed, echo: Echo)
    requires Enabled(s, t.event) && echo in s.calls
    ensures echo in Next(s, t).calls && Advances(s.calls[echo], Next(s, t).calls[echo])
  {
    match t.event
    case Accept(ws, name, header, pid) => DropAdvances(Admitted(s, ws, name, header), name, echo);
    case Close(ws) => DropAdvances(Cut(s, ws, t.now), s.open[ws].name, echo);
    case Cleanup(name) => DropAdvances(s.(table := s.table - {name}), name, echo);
    case _ =>
  }

  lemma DropAdvances(s: State, name: Name, echo: Echo)
    requires (name in s.registered ==> s.registered[name] in s.proxies) && echo in s.calls
    ensures echo in Drop(s, name).calls && Advances(s.calls[echo], Drop(s, name).calls[echo])
    ensures Drop(s, name).calls[echo].future.Resolved? ==> Drop(s, name).calls[echo] == s.calls[echo]
  {}

  /** A call settles at most once and its future completes at most once: both stay for the rest of the run. */
  lemma {:induction false} SettledOnce(trace: seq<State>, events: seq<Timed>, i: nat, j: nat, echo: Echo)
    requires IsRun(trace, events) && i <= j < |trace| && echo in trace[i].calls
    ensures echo in trace[j].calls && Advances(trace[i].calls[echo], trace[j].calls[echo])
  {
    if i < j {
      SettledOnce(trace, events, i, j - 1, echo);
      assert StepAt(trace, events, j - 1);
      CallNext(trace[j - 1], events[j - 1], echo);
    }
  }

  /** `r` comes in for the unfinished call `echo`, on a connection of the name whose proxy made the call. */
  ghost predicate Delivers(s: State, e: Event, echo: Echo, r: Response) {
    && e.Respond? && e.resp == r && r.echo == echo && echo != "" && e.ws in s.open
    && echo in s.calls && !s.calls[echo].phase.Settled? && s.calls[echo].future.Waiting?
    && s.open[e.ws].name in s.registered && s.registered[s.open[e.ws].name] == s.calls[echo].pid
  }

  lemma ResolvedNext(s: State, t: Timed, echo: Echo)
    requires Enabled(s, t.event) && CallsOk(s)
    requires echo in Next(s, t).calls && Next(s, t).calls[echo].future.Resolved?
    ensures (echo in s.calls && s.calls[echo].future == Next(s, t).calls[echo].future)
            || Delivers(s, t.event, echo, Next(s, t).calls[echo].future.resp)
  {
    if t.event.Respond? {
      RespondResolves(s, t.event.ws, t.event.resp, echo);
    } else if echo in s.calls {
      OthersNeverResolve(s, t, echo);
    } else {
      NewCallWaits(s, t, echo);
    }
  }

  lemma RespondResolves(s: State, ws: Socket, resp: Response, echo: Echo)
    requires CallsOk(s) && ws in s.open && echo in s.calls
    ensures echo in Responded(s, ws, resp).calls
    ensures var f := Responded(s, ws, resp).calls[echo].future;
            f == s.calls[echo].future || (f == Resolved(resp) && Delivers(s, Respond(ws, resp), echo, resp))
  {
    assert CallOk(s.calls[echo], echo, s.proxies[s.calls[echo].pid]);
  }

  lemma NewCallWaits(s: State, t: Timed, echo: Echo)
    requires Enabled(s, t.event) && echo !in s.calls
    ensures echo in Next(s, t).calls ==> Next(s, t).calls[echo].future.Waiting?
  {
    match t.event
    case Accept(ws, name, header, _) => DropKeepsEchoes(Admitted(s, ws, name, header), name);
    case Close(ws) => DropKeepsEchoes(Cut(s, ws, t.now), s.open[ws].name);
    case Cleanup(name) => DropKeepsEchoes(s.(table := s.table - {name}), name);
    case _ =>
  }

  lemma DropKeepsEchoes(s: State, name: Name)
    requires name in s.registered ==> s.registered[name] in s.proxies
    ensures Drop(s, name).calls.Keys == s.calls.Keys
  {}

  lemma OthersNeverResolve(s: State, t: Timed, echo: Echo)
    requires Enabled(s, t.event) && echo in s.calls && !t.event.Respond?
    ensures echo in Next(s, t).calls
    ensures Next(s, t).calls[echo].future.Resolved? ==> Next(s, t).calls[echo].future == s.calls[echo].future
  {
    match t.event
    case Accept(ws, name, header, pid) => DropAdvances(Admitted(s, ws, name, header), name, echo);
    case Close(ws) => DropAdvances(Cut(s, ws, t.now), s.open[ws].name, echo);
    case Cleanup(name) => DropAdvances(s.(table := s.table - {name}), name, echo);
    case _ =>
  }

  lemma {:induction false} ResolvedOrigin(trace: seq<State>, events: seq<Timed>, i: nat, echo: Echo) returns (k: nat)
    requires IsRun(trace, events) && i < |trace|
    requires echo in trace[i].calls && trace[i].calls[echo].future.Resolved?
    ensures k < i && Delivers(trace[k], events[k].event, echo, trace[i].calls[echo].future.resp)
  {
    k := i - 1;
    assert StepAt(trace, events, k);
    Reachable(trace, events, k);
    ResolvedNext(trace[k], events[k], echo);
    if echo in trace[k].calls && trace[k].calls[echo].future == trace[i].calls[echo].future {
      k := ResolvedOrigin(trace, events, k, echo);
    }
  }

  /** A call that ends with an answer or a refusal got it from one response carrying its own echo. */
  lemma AnswerOrigin(trace: seq<State>, events: seq<Timed>, i: nat, echo: Echo) returns (k: nat)
    requires IsRun(trace, events) && i < |trace|
    requires echo in trace[i].calls && trace[i].calls[echo].phase.Settled?
    requires trace[i].calls[echo].phase.outcome.Answered? || trace[i].calls[echo].phase.outcome.Refused?
    ensures k < i && Delivers(trace[k], events[k].event, echo, trace[i].calls[echo].phase.outcome.resp)
    ensures trace[i].calls[echo].phase.outcome.Answered? <==> trace[i].calls[echo].phase.outcome.resp.ok
  {
    Reachable(trace, events, i);
    assert CallOk(trace[i].calls[echo], echo, trace[i].proxies[trace[i].calls[echo].pid]);
    k := ResolvedOrigin(trace, events, i, echo);
  }

  function Unsettled(s: State, pid: Pid): set<Echo> {
    set e | e in s.calls && s.calls[e].pid == pid && !s.calls[e].phase.Settled?
  }

  /** What waits on a proxy is exactly its unfinished calls while it is open, and nothing once it is closed. */
  lemma PendingExact(trace: seq<State>, events: seq<Timed>, i: nat, pid: Pid)
    requires IsRun(trace, events) && i < |trace| && pid in trace[i].proxies
    ensures trace[i].proxies[pid].pending
            == if trace[i].proxies[pid].closed then {} else Unsettled(trace[i], pid)
    ensures trace[i].proxies[pid].closed ==>
              forall e :: e in Unsettled(trace[i], pid) ==> !trace[i].calls[e].future.Waiting?
  {
    Reachable(trace, events, i);
    UnfinishedPending(trace[i], pid);
  }

  lemma UnfinishedPending(s: State, pid: Pid)
    requires CallsOk(s) && pid in s.proxies
    ensures s.proxies[pid].pending == if s.proxies[pid].closed then {} else Unsettled(s, pid)
  {
    assert PendingOk(s.calls, pid, s.proxies[pid].pending);
    forall e | e in s.calls && s.calls[e].pid == pid
      ensures e in s.proxies[pid].pending <==> !s.calls[e].phase.Settled? && !s.proxies[pid].closed
    {
      assert CallOk(s.calls[e], e, s.proxies[pid]);
    }
  }

  // ---- proxies over whole runs ----

  /** A proxy is registered exactly while it is open, and then its own connection is open too. */
  lemma ServedExact(trace: seq<State>, events: seq<Timed>, i: nat, pid: Pid)
    requires IsRun(trace, events) && i < |trace| && pid in trace[i].proxies
    ensures !trace[i].proxies[pid].closed <==> exists n :: n in trace[i].registered && trace[i].registered[n] == pid
    ensures !trace[i].proxies[pid].closed ==> trace[i].proxies[pid].ws in trace[i].open
  {
    Reachable(trace, events, i);
    var s := trace[i];
    forall n | n in s.registered ensures !s.proxies[s.registered[n]].closed {
      assert ServedBy(s, n, s.registered[n]);
    }
    if !s.proxies[pid].closed {
      var n := s.open[s.proxies[pid].ws].name;
      assert n in s.registered && s.registered[n] == pid;
    }
  }

  /** The only three things that take the proxy on socket `ws` out of service for a name. */
  predicate Ends(e: Event, name: Name, ws: Socket) {
    || (e.Accept? && e.name == name && e.header != "0")
    || e == Close(ws)
    || e == Cleanup(name)
  }

  lemma ReplacedExact(s: State, t: Timed, name: Name)
    requires ProxiesOk(s) && Enabled(s, t.event) && name in s.registered
    ensures !(name in Next(s, t).registered && Next(s, t).registered[name] == s.registered[name])
            <==> Ends(t.event, name, s.proxies[s.registered[name]].ws)
  {
    assert ServedBy(s, name, s.registered[name]);
    if t.event.Close? && s.open[t.event.ws].name in s.registered {
      assert ServedBy(s, s.open[t.event.ws].name, s.registered[s.open[t.event.ws].name]);
    }
  }

  lemma ProxyKept(s: State, t: Timed, pid: Pid)
    requires Enabled(s, t.event) && pid in s.proxies
    ensures pid in Next(s, t).proxies && Next(s, t).proxies[pid].ws == s.proxies[pid].ws
  {
    match t.event
    case Accept(ws, name, header, _) => DropKeepsProxy(Admitted(s, ws, name, header), name, pid);
    case Close(ws) => DropKeepsProxy(Cut(s, ws, t.now), s.open[ws].name, pid);
    case Cleanup(name) => DropKeepsProxy(s.(table := s.table - {name}), name, pid);
    case _ =>
  }

  lemma DropKeepsProxy(s: State, name: Name, pid: Pid)
    requires (name in s.registered ==> s.registered[name] in s.proxies) && pid in s.proxies
    ensures pid in Drop(s, name).proxies && Drop(s, name).proxies[pid].ws == s.proxies[pid].ws
  {}

  /** The latest handshake serves a name until it ends, however many other sockets of that name come and go. */
  lemma {:induction false} LatestServes(trace: seq<State>, events: seq<Timed>, i: nat, j: nat, name: Name, pid: Pid)
    requires IsRun(trace, events) && i <= j < |trace|
    requires name in trace[i].registered && trace[i].registered[name] == pid && pid in trace[i].proxies
    requires forall k :: i <= k < j ==> !Ends(events[k].event, name, trace[i].proxies[pid].ws)
    ensures name in trace[j].registered && trace[j].registered[name] == pid
    ensures pid in trace[j].proxies && trace[j].proxies[pid].ws == trace[i].proxies[pid].ws
  {
    if i < j {
      LatestServes(trace, events, i, j - 1, name, pid);
      assert StepAt(trace, events, j - 1);
      Reachable(trace, events, j - 1);
      ReplacedExact(trace[j - 1], events[j - 1], name);
      ProxyKept(trace[j - 1], events[j - 1], pid);
    }
  }

  /** A waiting call is cancelled exactly by the end of its own proxy. */
  lemma CancelExact(s: State, t: Timed, echo: Echo, name: Name)
    requires CallsOk(s) && ProxiesOk(s) && Enabled(s, t.event)
    requires echo in s.calls && !s.calls[echo].phase.Settled? && s.calls[echo].future.Waiting?
    requires name in s.registered && s.registered[name] == s.calls[echo].pid
    ensures echo in Next(s, t).calls
    ensures Next(s, t).calls[echo].future.Cancelled? <==> Ends(t.event, name, s.proxies[s.calls[echo].pid].ws)
  {
    assert ServedBy(s, name, s.registered[name]);
    if t.event.Close? && s.open[t.event.ws].name in s.registered {
      assert ServedBy(s, s.open[t.event.ws].name, s.registered[s.open[t.event.ws].name]);
    }
  }

  // ---- what answers, settles and serves, exactly ----

  /** A response that is delivered completes its call. */
  lemma DeliveredNext(s: State, t: Timed, echo: Echo, r: Response)
    requires Enabled(s, t.event) && CallsOk(s) && Delivers(s, t.event, echo, r)
    ensures echo in Next(s, t).calls && Next(s, t).calls[echo].future == Resolved(r)
  {
    assert CallOk(s.calls[echo], echo, s.proxies[s.calls[echo].pid]);
  }

  /** The future of a call holds a response if and only if that response was delivered while the call waited. */
  lemma ResolvedExact(trace: seq<State>, events: seq<Timed>, i: nat, echo: Echo, r: Response)
    requires IsRun(trace, events) && i < |trace|
    ensures echo in trace[i].calls && trace[i].calls[echo].future == Resolved(r)
            <==> exists k :: 0 <= k < i && Delivers(trace[k], events[k].event, echo, r)
  {
    if echo in trace[i].calls && trace[i].calls[echo].future == Resolved(r) {
      var k := ResolvedOrigin(trace, events, i, echo);
    }
    if k :| 0 <= k < i && Delivers(trace[k], events[k].event, echo, r) {
      assert StepAt(trace, events, k);
      Reachable(trace, events, k);
      DeliveredNext(trace[k], events[k], echo, r);
      SettledOnce(trace, events, k + 1, i, echo);
    }
  }

  /** What ends a call, and how: its coroutine resumes with what the future holds, it times out, it cannot be sent or
      it is given up. */
  ghost predicate Settles(s: State, e: Event, echo: Echo, outcome: Outcome) {
    || (e == SendFails(echo) && outcome == SendFailed)
    || (e == Timeout(echo) && outcome == TimedOut)
    || (e == Abandon(echo) && outcome == Aborted)
    || (e == Resume(echo) && echo in s.calls
        && match s.calls[echo].future
           case Resolved(r) => outcome == if r.ok then Answered(r) else Refused(r)
           case Cancelled => outcome == Aborted
           case Waiting => false)
  }

  lemma SettledNext(s: State, t: Timed, echo: Echo, outcome: Outcome)
    requires Enabled(s, t.event) && echo in s.calls && !s.calls[echo].phase.Settled?
    ensures echo in Next(s, t).calls
    ensures Next(s, t).calls[echo].phase == Settled(outcome) <==> Settles(s, t.event, echo, outcome)
  {
    CallNext(s, t, echo);
    PhaseNext(s, t, echo);
  }

  lemma PhaseNext(s: State, t: Timed, echo: Echo)
    requires Enabled(s, t.event) && echo in s.calls
    ensures t.event.Accept? || t.event.Close? || t.event.Cleanup? || t.event.Respond? ==>
              echo in Next(s, t).calls && Next(s, t).calls[echo].phase == s.calls[echo].phase
  {
    match t.event
    case Accept(ws, name, header, pid) => DropKeepsPhase(Admitted(s, ws, name, header), name, echo);
    case Close(ws) => DropKeepsPhase(Cut(s, ws, t.now), s.open[ws].name, echo);
    case Cleanup(name) => DropKeepsPhase(s.(table := s.table - {name}), name, echo);
    case _ =>
  }

  lemma DropKeepsPhase(s: State, name: Name, echo: Echo)
    requires (name in s.registered ==> s.registered[name] in s.proxies) && echo in s.calls
    ensures echo in Drop(s, name).calls && Drop(s, name).calls[echo].phase == s.calls[echo].phase
  {}

  /** A call awaits its answer from the moment it is sent until something settles it. */
  lemma AwaitingNext(s: State, t: Timed, echo: Echo)
    requires Enabled(s, t.event) && echo in s.calls && !s.calls[echo].phase.Settled?
    ensures echo in Next(s, t).calls
    ensures Next(s, t).calls[echo].phase.Awaiting?
            <==> || t.event == Sent(echo)
                 || (s.calls[echo].phase.Awaiting? && forall outcome :: !Settles(s, t.event, echo, outcome))
  {
    CallNext(s, t, echo);
    PhaseNext(s, t, echo);
    forall outcome | Settles(s, t.event, echo, outcome) ensures Next(s, t).calls[echo].phase.Settled? {
      SettledNext(s, t, echo, outcome);
    }
    if Next(s, t).calls[echo].phase.Settled? {
      SettledNext(s, t, echo, Next(s, t).calls[echo].phase.outcome);
    }
  }

  lemma {:induction false} SettledOrigin(trace: seq<State>, events: seq<Timed>, i: nat, echo: Echo) returns (l: nat)
    requires IsRun(trace, events) && i < |trace| && echo in trace[i].calls && trace[i].calls[echo].phase.Settled?
    ensures l < i && echo in trace[l].calls && !trace[l].calls[echo].phase.Settled?
    ensures Settles(trace[l], events[l].event, echo, trace[i].calls[echo].phase.outcome)
  {
    l := i - 1;
    assert StepAt(trace, events, l);
    if echo !in trace[l].calls {
      NewCallSends(trace[l], events[l], echo);
    }
    if trace[l].calls[echo].phase.Settled? {
      CallNext(trace[l], events[l], echo);
      l := SettledOrigin(trace, events, l, echo);
    } else {
      SettledNext(trace[l], events[l], echo, trace[i].calls[echo].phase.outcome);
    }
  }

  lemma NewCallSends(s: State, t: Timed, echo: Echo)
    requires Enabled(s, t.event) && echo !in s.calls
    ensures echo in Next(s, t).calls ==> Next(s, t).calls[echo].phase.Sending?
  {
    match t.event
    case Accept(ws, name, header, _) => DropKeepsEchoes(Admitted(s, ws, name, header), name);
    case Close(ws) => DropKeepsEchoes(Cut(s, ws, t.now), s.open[ws].name);
    case Cleanup(name) => DropKeepsEchoes(s.(table := s.table - {name}), name);
    case _ =>
  }

  /** Response `r` came in for the call at step `k` and the call took it at step `l`. */
  ghost predicate Taken(trace: seq<State>, events: seq<Timed>, k: int, l: int, i: int, echo: Echo, r: Response) {
    && 0 <= k < l < i < |trace| == |events| + 1
    && Delivers(trace[k], events[k].event, echo, r) && events[l].event == Resume(echo)
  }

  /** Over every run: a call ends with an answer if and only if a response with its echo was delivered while it
      waited, the call was resumed after that, and the response says ok; with a refusal if it does not. */
  lemma AnsweredExact(trace: seq<State>, events: seq<Timed>, i: nat, echo: Echo, r: Response)
    requires IsRun(trace, events) && i < |trace|
    ensures echo in trace[i].calls && trace[i].calls[echo].phase == Settled(if r.ok then Answered(r) else Refused(r))
            <==> exists k, l :: Taken(trace, events, k, l, i, echo, r)
  {
    var outcome := if r.ok then Answered(r) else Refused(r);
    if echo in trace[i].calls && trace[i].calls[echo].phase == Settled(outcome) {
      var l := SettledOrigin(trace, events, i, echo);
      ResolvedExact(trace, events, l, echo, r);
      var k :| 0 <= k < l && Delivers(trace[k], events[k].event, echo, r);
      assert Taken(trace, events, k, l, i, echo, r);
    }
    if k, l :| Taken(trace, events, k, l, i, echo, r) {
      ResolvedExact(trace, events, l, echo, r);
      assert StepAt(trace, events, l);
      SettledNext(trace[l], events[l], echo, outcome);
      SettledOnce(trace, events, l + 1, i, echo);
    }
  }

  /** A call is made if and only if the name has a registered proxy, on that proxy, and waits. */
  lemma InvokedExact(s: State, t: Timed, name: Name, echo: Echo)
    requires Enabled(s, t.event) && ProxiesOk(s) && t.event == Invoke(name, echo)
    ensures echo in Next(s, t).calls <==> name in s.registered
    ensures name in s.registered ==>
              && Next(s, t).calls[echo] == Call(s.registered[name], Sending, Waiting)
              && echo in Next(s, t).proxies[s.registered[name]].pending
  {
    if name in s.registered { assert ServedBy(s, name, s.registered[name]); }
  }

  /** `name` is served by proxy `pid` on socket `ws`. */
  ghost predicate Serving(s: State, name: Name, ws: Socket, pid: Pid) {
    name in s.registered && s.registered[name] == pid && pid in s.proxies && s.proxies[pid].ws == ws
  }

  /** A handshake of the name, and not a probe. */
  predicate Handshake(e: Event, name: Name, ws: Socket, pid: Pid) {
    e.Accept? && e.name == name && e.header != "0" && e.ws == ws && e.pid == pid
  }

  lemma ServingNext(s: State, t: Timed, name: Name, ws: Socket, pid: Pid)
    requires ProxiesOk(s) && Enabled(s, t.event)
    ensures Serving(Next(s, t), name, ws, pid)
            <==> Handshake(t.event, name, ws, pid) || (Serving(s, name, ws, pid) && !Ends(t.event, name, ws))
  {
    if name in s.registered {
      ReplacedExact(s, t, name);
      ProxyKept(s, t, s.registered[name]);
    }
    RegisteredNext(s, t, name);
  }

  lemma RegisteredNext(s: State, t: Timed, name: Name)
    requires ProxiesOk(s) && Enabled(s, t.event)
    ensures if t.event.Accept? && t.event.name == name && t.event.header != "0"
            then Serving(Next(s, t), name, t.event.ws, t.event.pid)
            else name in Next(s, t).registered ==>
                   name in s.registered && s.registered[name] == Next(s, t).registered[name]
  {}

  /** The handshake at step `i` registered the proxy, and nothing has ended its service since. */
  ghost predicate Serves(events: seq<Timed>, i: int, j: int, name: Name, ws: Socket, pid: Pid) {
    && 0 <= i < j <= |events| && Handshake(events[i].event, name, ws, pid)
    && forall k :: i < k < j ==> !Ends(events[k].event, name, ws)
  }

  /** Over every run: a name is served by a proxy if and only if a handshake of that name, not a probe, registered it
      and no later handshake, close of its own socket or cleanup has come since. */
  lemma {:induction false} ServingExact(trace: seq<State>, events: seq<Timed>, j: nat, name: Name, ws: Socket, pid: Pid)
    requires IsRun(trace, events) && j < |trace|
    ensures Serving(trace[j], name, ws, pid) <==> exists i :: Serves(events, i, j, name, ws, pid)
  {
    if j > 0 {
      ServingExact(trace, events, j - 1, name, ws, pid);
      assert StepAt(trace, events, j - 1);
      Reachable(trace, events, j - 1);
      ServingNext(trace[j - 1], events[j - 1], name, ws, pid);
      ServesNext(events, j - 1, j, name, ws, pid);
    }
  }

  lemma ServesNext(events: seq<Timed>, j: nat, next: nat, name: Name, ws: Socket, pid: Pid)
    requires j < |events| && next == j + 1
    ensures (exists i :: Serves(events, i, next, name, ws, pid))
            <==> || Handshake(events[j].event, name, ws, pid)
                 || ((exists i :: Serves(events, i, j, name, ws, pid)) && !Ends(events[j].event, name, ws))
  {
    if Handshake(events[j].event, name, ws, pid) {
      assert Serves(events, j, next, name, ws, pid);
    } else if i :| Serves(events, i, next, name, ws, pid) {
      assert Serves(events, i, j, name, ws, pid);
    }
    if i :| Serves(events, i, j, name, ws, pid) {
      assert !Ends(events[j].event, name, ws) ==> Serves(events, i, next, name, ws, pid);
    }
  }

  // ---- the registry over whole runs ----

  /** A connected entry stops being connected exactly when its bound socket closes or its name is cleaned up; any
      other closing socket leaves the whole entry as it was. */
  lemma DisconnectExact(s: State, t: Timed, n: Name)
    requires TableOk(s) && Enabled(s, t.event) && n in s.table && s.table[n].connected
    ensures !(n in Next(s, t).table && Next(s, t).table[n].connected)
            <==> t.event == Close(s.table[n].wsRef.value) || t.event == Cleanup(n)
    ensures t.event.Close? && t.event.ws != s.table[n].wsRef.value ==>
              n in Next(s, t).table && Next(s, t).table[n] == s.table[n]
  {
    TableNext(s, t);
    assert EntryOk(s, n);
  }

  /** Once the grace period is over, events change nothing: only a handshake with a header, a closing socket of
      that name or a cleanup does. */
  lemma DeadExact(s: State, t: Timed, n: Name)
    requires TableOk(s) && Enabled(s, t.event) && n in s.table && !IsAlive(s.table[n], t.now) && t.now > 0
    ensures !(n in Next(s, t).table && Next(s, t).table[n] == s.table[n]) <==> Touches(s, t.event, n)
  {
    TableNext(s, t);
    assert EntryOk(s, n);
  }

  /** A handshake with an account header, a closing socket of the name or a cleanup. */
  predicate Touches(s: State, e: Event, n: Name) {
    || (e.Accept? && e.name == n && e.header != "" && e.header != "0")
    || (e.Close? && e.ws in s.open && s.open[e.ws].name == n)
    || e == Cleanup(n)
  }

  /** A dead name stays unreported until one of these three, whatever connects and whatever events it sends. */
  lemma {:induction false} StaysDead(trace: seq<State>, events: seq<Timed>, i: nat, j: nat, n: Name, now: int)
    requires IsRun(trace, events) && i < j < |trace| && n in trace[i].table && events[j - 1].now <= now
    requires !IsAlive(trace[i].table[n], events[i].now)
    requires forall k :: i <= k < j ==> !Touches(trace[k], events[k].event, n)
    ensures n in trace[j].table && trace[j].table[n] == trace[i].table[n] && !IsAlive(trace[j].table[n], now)
  {
    if i < j - 1 { StaysDead(trace, events, i, j - 1, n, events[j - 1].now); }
    assert StepAt(trace, events, j - 1);
    Reachable(trace, events, j - 1);
    DeadExact(trace[j - 1], events[j - 1], n);
  }

  /** The bot is back on a connection without a header and sends an event, and is still not reported. */
  lemma DeadExample()
    ensures Enabled(GONE, Accept(2, "bot", "", 2))
    ensures var s := Next(GONE, Timed(60, Accept(2, "bot", "", 2)));
            && Enabled(s, Uin(2, "123"))
            && var t := Next(s, Timed(61, Uin(2, "123")));
               2 in t.open && "bot" in t.registered && "bot" in t.table && !IsAlive(t.table["bot"], 61)
  {}

  /** The account that a step gives a name: that of a handshake header, or of an event while the name has no entry or
      one that still counts as connected. */
  function NamedBy(s: State, t: Timed, n: Name): Option<string>
    requires t.event.Uin? ==> t.event.ws in s.open
  {
    match t.event
    case Accept(_, name, header, _) => if name == n && header !in {"", "0"} then Some(header) else None
    case Uin(ws, uin) =>
      if s.open[ws].name == n && (n in s.table ==> IsAlive(s.table[n], t.now)) then Some(uin) else None
    case _ => None
  }

  ghost predicate HasAccount(s: State, n: Name, u: string) { n in s.table && s.table[n].uin == u }

  lemma AccountNext(s: State, t: Timed, n: Name, u: string)
    requires Enabled(s, t.event)
    ensures HasAccount(Next(s, t), n, u)
            <==> match NamedBy(s, t, n)
                 case Some(v) => v == u
                 case None => HasAccount(s, n, u) && t.event != Cleanup(n)
  {
    TableNext(s, t);
  }

  /** Step `i` gave the name its account, and no step since has given it one or cleaned it up. */
  ghost predicate Accounts(trace: seq<State>, events: seq<Timed>, i: int, j: int, n: Name, u: string) {
    && 0 <= i < j < |trace| == |events| + 1 && GivesAccount(trace, events, i, n, Some(u))
    && forall k :: i < k < j ==> GivesAccount(trace, events, k, n, None) && events[k].event != Cleanup(n)
  }

  ghost predicate GivesAccount(trace: seq<State>, events: seq<Timed>, i: int, n: Name, u: Option<string>) {
    StepAt(trace, events, i) && NamedBy(trace[i], events[i], n) == u
  }

  /** Over every run: the account on record for a name is the last one given to it. */
  lemma {:induction false} AccountExact(trace: seq<State>, events: seq<Timed>, j: nat, n: Name, u: string)
    requires IsRun(trace, events) && j < |trace|
    ensures HasAccount(trace[j], n, u) <==> exists i :: Accounts(trace, events, i, j, n, u)
  {
    if j > 0 {
      AccountExact(trace, events, j - 1, n, u);
      assert StepAt(trace, events, j - 1);
      AccountNext(trace[j - 1], events[j - 1], n, u);
      if HasAccount(trace[j], n, u) {
        if GivesAccount(trace, events, j - 1, n, Some(u)) {
          assert Accounts(trace, events, j - 1, j, n, u);
        } else {
          var i :| Accounts(trace, events, i, j - 1, n, u);
          assert GivesAccount(trace, events, j - 1, n, None);
          assert Accounts(trace, events, i, j, n, u);
        }
      }
      if i :| Accounts(trace, events, i, j, n, u) {
        if i < j - 1 {
          assert GivesAccount(trace, events, j - 1, n, None);
          assert Accounts(trace, events, i, j - 1, n, u);
        }
      }
    }
  }

  /** A login is reported if and only if the name is bound to an open socket, with the account on record. */
  lemma LoginExact(trace: seq<State>, events: seq<Timed>, i: nat, n: Name)
    requires IsRun(trace, events) && i < |trace|
    ensures LoginResult(trace[i].table, n).Some? <==>
              n in trace[i].table && trace[i].table[n].wsRef.Some? && trace[i].table[n].wsRef.value in trace[i].open
    ensures LoginResult(trace[i].table, n).Some? ==> HasAccount(trace[i], n, LoginResult(trace[i].table, n).value)
  {
    Reachable(trace, events, i);
    if n in trace[i].table { assert EntryOk(trace[i], n); }
  }

  ghost predicate Uncleaned(events: seq<Timed>, i: int, j: int, n: Name) {
    0 <= i <= j <= |events| && forall k :: i <= k < j ==> events[k].event != Cleanup(n)
  }

  predicate Within(earlier: int, now: int) { now - earlier < 15 }

  /** At some moment of the last 15 seconds the name was bound to an open socket, and no cleanup came since. */
  ghost predicate BoundWithin(trace: seq<State>, events: seq<Timed>, i: int, j: int, n: Name, now: int) {
    && 0 <= i <= j < |trace| && Uncleaned(events, i, j, n)
    && n in trace[i].table && trace[i].table[n].connected
    && (i == j || Within(events[i].now, now))
  }

  /** A socket of the name closes although its entry is bound to none. */
  ghost predicate Stray(s: State, e: Event, n: Name) {
    e.Close? && e.ws in s.open && s.open[e.ws].name == n && n in s.table && !s.table[n].connected
  }

  ghost predicate StrayWithin(trace: seq<State>, events: seq<Timed>, i: int, j: int, n: Name, now: int) {
    && 0 <= i < j < |trace| && Uncleaned(events, i, j, n)
    && Stray(trace[i], events[i].event, n) && Within(events[i].now, now)
  }

  ghost predicate FreshSince(t: Table, n: Name, since: int) {
    n in t && (t[n].connected || t[n].disconnectTs >= since)
  }

  lemma FreshStep(s: State, t: Timed, n: Name, since: int)
    requires Enabled(s, t.event) && FreshSince(s.table, n, since) && t.now >= since && t.event != Cleanup(n)
    ensures FreshSince(Next(s, t).table, n, since)
  {
    TableNext(s, t);
  }

  lemma {:induction false} FreshLasts(trace: seq<State>, events: seq<Timed>, i: nat, j: nat, n: Name, since: int)
    requires IsRun(trace, events) && i <= j < |trace| && Uncleaned(events, i, j, n)
    requires FreshSince(trace[i].table, n, since) && forall k :: i <= k < j ==> since <= events[k].now
    ensures FreshSince(trace[j].table, n, since)
  {
    if i < j {
      FreshLasts(trace, events, i, j - 1, n, since);
      assert StepAt(trace, events, j - 1);
      FreshStep(trace[j - 1], events[j - 1], n, since);
    }
  }

  /** A name whose socket was open within the last 15 seconds is reported connected. */
  lemma Grace(trace: seq<State>, events: seq<Timed>, i: nat, j: nat, n: Name, now: int)
    requires IsRun(trace, events) && j < |trace| && BoundWithin(trace, events, i, j, n, now)
    ensures n in trace[j].table && IsAlive(trace[j].table[n], now)
  {
    if i < j {
      FreshLasts(trace, events, i, j, n, events[i].now);
      assert StepAt(trace, events, i);
    }
  }

  lemma StrayStep(s: State, t: Timed, n: Name)
    requires Enabled(s, t.event) && TableOk(s) && Stray(s, t.event, n)
    ensures FreshSince(Next(s, t).table, n, t.now)
  {
    TableNext(s, t);
    assert EntryOk(s, n);
  }

  lemma StrayRevives(trace: seq<State>, events: seq<Timed>, i: nat, j: nat, n: Name, now: int)
    requires IsRun(trace, events) && j < |trace| && StrayWithin(trace, events, i, j, n, now)
    ensures n in trace[j].table && IsAlive(trace[j].table[n], now)
  {
    assert StepAt(trace, events, i);
    Reachable(trace, events, i);
    StrayStep(trace[i], events[i], n);
    FreshLasts(trace, events, i + 1, j, n, events[i].now);
  }

  lemma StampStep(s: State, t: Timed, n: Name)
    requires Enabled(s, t.event) && TableOk(s)
    requires n in Next(s, t).table && !Next(s, t).table[n].connected
    ensures n in s.table && t.event != Cleanup(n)
    ensures || (!s.table[n].connected && Next(s, t).table[n].disconnectTs == s.table[n].disconnectTs)
            || (Next(s, t).table[n].disconnectTs == t.now && (s.table[n].connected || Stray(s, t.event, n)))
  {
    TableNext(s, t);
    if n in s.table { assert EntryOk(s, n); }
  }

  /** The stamp of a disconnected entry is the time of the close that set it. */
  lemma {:induction false} StampOrigin(trace: seq<State>, events: seq<Timed>, j: nat, n: Name) returns (i: nat)
    requires IsRun(trace, events) && j < |trace| && n in trace[j].table && !trace[j].table[n].connected
    ensures i < j && Uncleaned(events, i, j, n) && events[i].now == trace[j].table[n].disconnectTs
    ensures n in trace[i].table && (trace[i].table[n].connected || Stray(trace[i], events[i].event, n))
  {
    i := j - 1;
    assert StepAt(trace, events, i);
    Reachable(trace, events, i);
    StampStep(trace[i], events[i], n);
    if !trace[i].table[n].connected && trace[j].table[n].disconnectTs == trace[i].table[n].disconnectTs {
      i := StampOrigin(trace, events, i, n);
    }
  }

  /** When a name is reported connected, exactly: a stray close restarts the grace period, nothing else does. */
  lemma AliveExact(trace: seq<State>, events: seq<Timed>, j: nat, n: Name, now: int)
    requires IsRun(trace, events) && j < |trace|
    ensures n in trace[j].table && IsAlive(trace[j].table[n], now)
            <==> || (exists i :: BoundWithin(trace, events, i, j, n, now))
                 || (exists i :: StrayWithin(trace, events, i, j, n, now))
  {
    if i :| BoundWithin(trace, events, i, j, n, now) {
      Grace(trace, events, i, j, n, now);
    } else if i :| StrayWithin(trace, events, i, j, n, now) {
      StrayRevives(trace, events, i, j, n, now);
    } else if n in trace[j].table && IsAlive(trace[j].table[n], now) {
      if trace[j].table[n].connected {
        assert BoundWithin(trace, events, j, j, n, now);
      } else {
        var i := StampOrigin(trace, events, j, n);
        if trace[i].table[n].connected {
          assert BoundWithin(trace, events, i, j, n, now);
        } else {
          assert StrayWithin(trace, events, i, j, n, now);
        }
      }
    }
  }

  /** A bot has come and gone. */
  const GONE :=
    State({1}, map[], map["bot" := Entry("123", false, 20, None)], map[], map[1 := Proxy(1, {}, true)], map[])

  lemma StrayStart() returns (s1: State, s2: State)
    ensures s1 == Next(INIT, Timed(10, Accept(1, "bot", "123", 1)))
    ensures Enabled(s1, Close(1)) && s2 == Next(s1, Timed(20, Close(1)))
    ensures s2 == GONE
  {
    s1 := Next(INIT, Timed(10, Accept(1, "bot", "123", 1)));
    s2 := Next(s1, Timed(20, Close(1)));
  }

  /** Later a probe comes and goes. */
  lemma StrayEnd(s2: State) returns (s3: State, s4: State)
    requires s2 == GONE
    ensures Enabled(s2, Accept(2, "bot", "0", 2)) && s3 == Next(s2, Timed(60, Accept(2, "bot", "0", 2)))
    ensures Enabled(s3, Close(2)) && s4 == Next(s3, Timed(61, Close(2)))
    ensures s3.table == s2.table && s4.table == map["bot" := Entry("123", false, 61, None)]
  {
    s3 := Next(s2, Timed(60, Accept(2, "bot", "0", 2)));
    s4 := Next(s3, Timed(61, Close(2)));
  }

  lemma StrayRun() returns (trace: seq<State>, events: seq<Timed>)
    ensures IsRun(trace, events) && |events| == 4 && events[1].now == 20
    ensures trace[0].table == map[] && trace[2].table == trace[3].table == map["bot" := Entry("123", false, 20, None)]
    ensures trace[4].table == map["bot" := Entry("123", false, 61, None)]
  {
    events := [Timed(10, Accept(1, "bot", "123", 1)), Timed(20, Close(1)),
               Timed(60, Accept(2, "bot", "0", 2)), Timed(61, Close(2))];
    var s1, s2 := StrayStart();
    var s3, s4 := StrayEnd(s2);
    trace := [INIT, s1, s2, s3, s4];
    assert StepAt(trace, events, 0) && StepAt(trace, events, 1) && StepAt(trace, events, 2) && StepAt(trace, events, 3);
  }

  /** A probe that connects and closes again makes a bot that left 42 seconds ago look connected. */
  lemma StrayExample() returns (trace: seq<State>, events: seq<Timed>)
    ensures IsRun(trace, events) && |trace| == 5 && "bot" in trace[4].table
    ensures IsAlive(trace[4].table["bot"], 62) && !exists i :: BoundWithin(trace, events, i, 4, "bot", 62)
  {
    trace, events := StrayRun();
  }
}
