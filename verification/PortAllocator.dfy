/** Host-port allocation: a snapshot of the ports Docker uses, then the reservations, then the first gap. */
module PortAllocator {
  import opened Common

  const MAX_PORT := 65535

  /** The first port at or above `base` outside `used`; None is the "no port available" error. */
  function FindAvailable(base: int, used: set<int>): Option<int>
    decreases MAX_PORT - base
  {
    if base !in used then Some(base)
    else if base + 1 > MAX_PORT then None
    else FindAvailable(base + 1, used)
  }

  /** The scan finds the smallest free port; it fails exactly when base and all of base..65535 are taken. */
  lemma {:induction false} FindAvailableExact(base: int, used: set<int>)
    ensures var r := FindAvailable(base, used);
            && (r.Some? ==> base <= r.value && r.value !in used && forall q :: base <= q < r.value ==> q in used)
            && (r.Some? ==> r.value == base || r.value <= MAX_PORT)
            && (r.None? <==> base in used && forall q :: base <= q <= MAX_PORT ==> q in used)
    decreases MAX_PORT - base
  {
    if base in used && base + 1 <= MAX_PORT {
      FindAvailableExact(base + 1, used);
    }
  }

  /** The scan is the counting loop of the source. */
  method ScanPorts(base: int, used: set<int>) returns (r: Option<int>)
    ensures r == FindAvailable(base, used)
  {
    var port := base;
    while port in used
      invariant port == base || port <= MAX_PORT
      invariant FindAvailable(base, used) == FindAvailable(port, used)
      decreases MAX_PORT - port
    {
      port := port + 1;
      if port > MAX_PORT {
        return None;
      }
    }
    r := Some(port);
  }

  // ---- interleavings ----

  type Ticket = nat

  /** A call of allocate_port holds the lock from its snapshot to its reservation. */
  datatype Scan = Scan(ticket: Ticket, base: int, snapshot: set<int>)

  /** `outstanding` records which call still holds which port; only `reserved` exists in the program. */
  datatype State = State(reserved: set<int>, lock: Option<Scan>, outstanding: map<Ticket, int>)

  datatype Event =
    | TakeSnapshot(scan: Scan)
    | Reserve
    | ReleaseOwn(ticket: Ticket)
    | ReleaseForeign(port: int)

  ghost predicate Enabled(s: State, e: Event) {
    match e
    case TakeSnapshot(scan) => s.lock.None? && scan.ticket !in s.outstanding
    case Reserve => s.lock.Some?
    case ReleaseOwn(t) => t in s.outstanding
    case ReleaseForeign(_) => true
  }

  function Chosen(s: State): Option<int>
    requires s.lock.Some?
  {
    FindAvailable(s.lock.value.base, s.lock.value.snapshot + s.reserved)
  }

  function Next(s: State, e: Event): State
    requires Enabled(s, e)
  {
    match e
    case TakeSnapshot(scan) => s.(lock := Some(scan))
    case Reserve =>
      (match Chosen(s)
       case None => s.(lock := None)
       case Some(p) => State(s.reserved + {p}, None, s.outstanding[s.lock.value.ticket := p]))
    case ReleaseOwn(t) => s.(reserved := s.reserved - {s.outstanding[t]}, outstanding := s.outstanding - {t})
    case ReleaseForeign(p) => s.(reserved := s.reserved - {p})
  }

  ghost predicate IsRun(trace: seq<State>, events: seq<Event>) {
    && |trace| == |events| + 1
    && trace[0].lock.None? && trace[0].outstanding == map[]
    && forall i :: 0 <= i < |events| ==> Enabled(trace[i], events[i]) && trace[i + 1] == Next(trace[i], events[i])
  }

  ghost predicate Exclusive(s: State) {
    forall t, u :: t in s.outstanding && u in s.outstanding && t != u ==> s.outstanding[t] != s.outstanding[u]
  }

  ghost predicate Covered(s: State) {
    && (forall t :: t in s.outstanding ==> s.outstanding[t] in s.reserved)
    && (s.lock.Some? ==> s.lock.value.ticket !in s.outstanding)
  }

  /** A release of a port that another call still holds. */
  ghost predicate Stolen(s: State, e: Event) {
    e.ReleaseForeign? && e.port in s.outstanding.Values
  }

  lemma {:induction false} ExclusiveRun(trace: seq<State>, events: seq<Event>, i: nat)
    requires IsRun(trace, events) && i < |trace|
    requires forall k :: 0 <= k < i ==> !Stolen(trace[k], events[k])
    ensures Exclusive(trace[i]) && Covered(trace[i])
  {
    if i > 0 {
      ExclusiveRun(trace, events, i - 1);
      ExclusiveStep(trace[i - 1], events[i - 1]);
    }
  }

  lemma ExclusiveStep(s: State, e: Event)
    requires Enabled(s, e) && Exclusive(s) && Covered(s) && !Stolen(s, e)
    ensures Exclusive(Next(s, e)) && Covered(Next(s, e))
  {
    match e
    case Reserve =>
      FindAvailableExact(s.lock.value.base, s.lock.value.snapshot + s.reserved);
      if Chosen(s).Some? {
        assert forall t :: t in s.outstanding ==> s.outstanding[t] != Chosen(s).value;
      }
    case ReleaseOwn(t) =>
      assert forall u :: u in s.outstanding && u != t ==> s.outstanding[u] != s.outstanding[t];
    case _ =>
  }

  /** Over any interleaving in which callers release only what they allocated, no two outstanding
      reservations share a port, and each new port is the smallest one at or above its base that is outside
      the snapshot and the reservations. */
  lemma AllocationsExclude(trace: seq<State>, events: seq<Event>, i: nat)
    requires IsRun(trace, events) && i < |events|
    requires forall k :: 0 <= k <= i ==> !Stolen(trace[k], events[k])
    ensures Exclusive(trace[i + 1])
    ensures events[i].Reserve? ==>
              var scan := trace[i].lock.value;
              var busy := scan.snapshot + trace[i].reserved;
              && trace[i].outstanding.Values <= busy
              && (if exists q :: q !in busy && (q == scan.base || scan.base <= q <= MAX_PORT)
                  then && scan.ticket in trace[i + 1].outstanding
                       && var p := trace[i + 1].outstanding[scan.ticket];
                          p !in busy && scan.base <= p && forall q :: scan.base <= q < p ==> q in busy
                  else trace[i + 1].outstanding == trace[i].outstanding)
  {
    ExclusiveRun(trace, events, i);
    ExclusiveRun(trace, events, i + 1);
    if events[i].Reserve? {
      var scan := trace[i].lock.value;
      FindAvailableExact(scan.base, scan.snapshot + trace[i].reserved);
    }
  }

  /** Where nothing is reserved at first and nobody's port is released by another, the reservations are exactly the
      ports that calls still hold: nothing leaks and nothing is freed early. */
  lemma {:induction false} ReservedExact(trace: seq<State>, events: seq<Event>, i: nat)
    requires IsRun(trace, events) && trace[0].reserved == {} && i < |trace|
    requires forall k :: 0 <= k < i ==> !Stolen(trace[k], events[k])
    ensures trace[i].reserved == trace[i].outstanding.Values
  {
    if i > 0 {
      ReservedExact(trace, events, i - 1);
      ExclusiveRun(trace, events, i - 1);
      ReservedNext(trace[i - 1], events[i - 1]);
    }
  }

  lemma ReservedNext(s: State, e: Event)
    requires Enabled(s, e) && Exclusive(s) && Covered(s) && !Stolen(s, e) && s.reserved == s.outstanding.Values
    ensures Next(s, e).reserved == Next(s, e).outstanding.Values
  {
    var s' := Next(s, e);
    if e.ReleaseOwn? {
      forall p | p in s'.reserved ensures p in s'.outstanding.Values {
        var t :| t in s.outstanding && s.outstanding[t] == p;
        assert t in s'.outstanding && s'.outstanding[t] == p;
      }
      forall p | p in s'.outstanding.Values ensures p in s'.reserved {
        var t :| t in s'.outstanding && s'.outstanding[t] == p;
        assert s.outstanding[t] in s.outstanding.Values;
      }
    } else if e.Reserve? && Chosen(s).Some? {
      var t, p := s.lock.value.ticket, Chosen(s).value;
      assert s'.outstanding[t] == p;
      forall q | q in s.reserved ensures q in s'.outstanding.Values {
        var u :| u in s.outstanding && s.outstanding[u] == q;
        assert s'.outstanding[u] == q;
      }
    }
  }

  /** Releasing somebody else's port breaks exclusion exactly when that port is held: a later call that
      starts at it, with a snapshot that does not show it, is given it again; otherwise exclusion is kept. */
  lemma ForeignReleaseExact(s: State, p: int, ticket: Ticket)
    requires Exclusive(s) && Covered(s) && s.lock.None? && ticket !in s.outstanding
    ensures var released := Next(s, ReleaseForeign(p));
            var taken := Next(Next(released, TakeSnapshot(Scan(ticket, p, {}))), Reserve);
            p in s.outstanding.Values <==> !Exclusive(taken)
  {
    var released := Next(s, ReleaseForeign(p));
    var locked := Next(released, TakeSnapshot(Scan(ticket, p, {})));
    var taken := Next(locked, Reserve);
    assert {} + released.reserved == released.reserved;
    assert Chosen(locked) == Some(p);
    if p in s.outstanding.Values {
      var t :| t in s.outstanding && s.outstanding[t] == p;
      assert taken.outstanding[t] == p && taken.outstanding[ticket] == p;
    } else {
      assert forall t :: t in s.outstanding ==> s.outstanding[t] != p;
    }
  }

  // ---- when two reservations share a port ----

  predicate Holds(s: State, ticket: Ticket, p: int) { ticket in s.outstanding && s.outstanding[ticket] == p }

  /** `p` is the first port from the base that is neither in the snapshot nor among the reservations. */
  ghost predicate FirstGap(s: State, p: int) {
    s.lock.Some?
    && var scan := s.lock.value;
       var busy := scan.snapshot + s.reserved;
       && p !in busy && scan.base <= p && (p == scan.base || p <= MAX_PORT)
       && forall q :: scan.base <= q < p ==> q in busy
  }

  lemma {:induction false} GapChosen(base: int, used: set<int>, p: int)
    requires base <= p && p !in used && (p == base || p <= MAX_PORT) && forall q :: base <= q < p ==> q in used
    ensures FindAvailable(base, used) == Some(p)
    decreases p - base
  {
    if base < p { GapChosen(base + 1, used, p); }
  }

  /** A step gives a port under a ticket exactly by reserving the first gap it sees. */
  lemma HoldsNext(s: State, e: Event, ticket: Ticket, p: int)
    requires Enabled(s, e)
    ensures Holds(Next(s, e), ticket, p) ==>
              Holds(s, ticket, p) || (e.Reserve? && FirstGap(s, p) && s.lock.value.ticket == ticket)
    ensures e.Reserve? && FirstGap(s, p) && s.lock.value.ticket == ticket ==> Holds(Next(s, e), ticket, p)
  {
    if e.Reserve? {
      var scan := s.lock.value;
      FindAvailableExact(scan.base, scan.snapshot + s.reserved);
      if FirstGap(s, p) { GapChosen(scan.base, scan.snapshot + s.reserved, p); }
    }
  }

  /** The lock is never held for a ticket that is outstanding. */
  ghost predicate Waiting(s: State) { s.lock.Some? ==> s.lock.value.ticket !in s.outstanding }

  /** A held port stays held until its ticket is released. */
  lemma HoldsOn(s: State, e: Event, ticket: Ticket, p: int)
    requires Enabled(s, e) && Waiting(s)
    ensures Waiting(Next(s, e))
    ensures Holds(s, ticket, p) && ticket in Next(s, e).outstanding ==> Holds(Next(s, e), ticket, p)
  {}

  /** The history of one allocator among others: None is a step of somebody else. */
  ghost predicate IsHistory(trace: seq<State>, events: seq<Option<Event>>) {
    && |trace| == |events| + 1
    && trace[0].lock.None? && trace[0].outstanding == map[]
    && forall i :: 0 <= i < |events| ==> HistoryAt(trace, events, i)
  }

  ghost predicate HistoryAt(trace: seq<State>, events: seq<Option<Event>>, i: int) {
    && 0 <= i < |events| < |trace|
    && match events[i]
       case None => trace[i + 1] == trace[i]
       case Some(e) => Enabled(trace[i], e) && trace[i + 1] == Next(trace[i], e)
  }

  /** Step `k` reserves `p` for a ticket, as the first gap that the allocator sees. */
  ghost predicate Takes(trace: seq<State>, events: seq<Option<Event>>, k: int, ticket: Ticket, p: int) {
    && 0 <= k < |events| < |trace|
    && events[k] == Some(Reserve) && FirstGap(trace[k], p) && trace[k].lock.value.ticket == ticket
  }

  ghost predicate OutstandingSince(trace: seq<State>, k: int, i: int, ticket: Ticket)
    requires i < |trace|
  {
    forall l :: 0 <= k < l <= i ==> ticket in trace[l].outstanding
  }

  lemma {:induction false} NeverWaitsTwice(trace: seq<State>, events: seq<Option<Event>>, i: nat)
    requires IsHistory(trace, events) && i < |trace|
    ensures Waiting(trace[i])
  {
    if i > 0 {
      NeverWaitsTwice(trace, events, i - 1);
      assert HistoryAt(trace, events, i - 1);
      if events[i - 1].Some? { HoldsOn(trace[i - 1], events[i - 1].value, 0, 0); }
    }
  }

  /** A ticket holds a port exactly if it took the port and has been outstanding since. */
  lemma {:induction false} HoldsExact(trace: seq<State>, events: seq<Option<Event>>, i: nat, ticket: Ticket, p: int)
    requires IsHistory(trace, events) && i < |trace|
    ensures Holds(trace[i], ticket, p)
            <==> exists k :: 0 <= k < i && Takes(trace, events, k, ticket, p) && OutstandingSince(trace, k, i, ticket)
  {
    if i > 0 {
      HoldsExact(trace, events, i - 1, ticket, p);
      NeverWaitsTwice(trace, events, i - 1);
      assert HistoryAt(trace, events, i - 1);
      if events[i - 1].Some? {
        HoldsNext(trace[i - 1], events[i - 1].value, ticket, p);
        HoldsOn(trace[i - 1], events[i - 1].value, ticket, p);
      }
      if Holds(trace[i], ticket, p) {
        if Takes(trace, events, i - 1, ticket, p) {
          assert OutstandingSince(trace, i - 1, i, ticket);
        } else {
          var k :| 0 <= k < i - 1 && Takes(trace, events, k, ticket, p) && OutstandingSince(trace, k, i - 1, ticket);
          assert OutstandingSince(trace, k, i, ticket);
        }
      }
      if k :| 0 <= k < i && Takes(trace, events, k, ticket, p) && OutstandingSince(trace, k, i, ticket) {
        if k < i - 1 { assert OutstandingSince(trace, k, i - 1, ticket); }
        assert ticket in trace[i].outstanding;
      }
    }
  }

  /** Two tickets, of one allocator or of two, hold the same port if and only if one took it while the other held
      it, and both have been outstanding since. */
  lemma BothHoldExact(a: seq<State>, ea: seq<Option<Event>>, b: seq<State>, eb: seq<Option<Event>>, i: nat,
                      t: Ticket, u: Ticket, p: int)
    requires IsHistory(a, ea) && IsHistory(b, eb) && |a| == |b| && i < |a|
    requires forall k :: !(Takes(a, ea, k, t, p) && Takes(b, eb, k, u, p))
    ensures Holds(a[i], t, p) && Holds(b[i], u, p)
            <==> exists k :: 0 <= k < i && OutstandingSince(a, k, i, t) && OutstandingSince(b, k, i, u)
                             && ((Takes(a, ea, k, t, p) && Holds(b[k], u, p))
                                 || (Takes(b, eb, k, u, p) && Holds(a[k], t, p)))
  {
    HoldsExact(a, ea, i, t, p);
    HoldsExact(b, eb, i, u, p);
    if Holds(a[i], t, p) && Holds(b[i], u, p) {
      var k :| 0 <= k < i && Takes(a, ea, k, t, p) && OutstandingSince(a, k, i, t);
      var l :| 0 <= l < i && Takes(b, eb, l, u, p) && OutstandingSince(b, l, i, u);
      if k < l {
        EarlierHolds(a, ea, k, l, i, t, p);
      } else {
        EarlierHolds(b, eb, l, k, i, u, p);
      }
    }
    if k :| 0 <= k < i && OutstandingSince(a, k, i, t) && OutstandingSince(b, k, i, u)
            && ((Takes(a, ea, k, t, p) && Holds(b[k], u, p)) || (Takes(b, eb, k, u, p) && Holds(a[k], t, p))) {
      if Takes(a, ea, k, t, p) && Holds(b[k], u, p) {
        HeldLater(b, eb, k, i, u, p);
      } else {
        HeldLater(a, ea, k, i, t, p);
      }
    }
  }

  lemma EarlierHolds(trace: seq<State>, events: seq<Option<Event>>, k: nat, l: nat, i: nat, ticket: Ticket, p: int)
    requires IsHistory(trace, events) && k < l <= i < |trace|
    requires Takes(trace, events, k, ticket, p) && OutstandingSince(trace, k, i, ticket)
    ensures Holds(trace[l], ticket, p) && OutstandingSince(trace, l, i, ticket)
  {
    assert OutstandingSince(trace, k, l, ticket);
    HoldsExact(trace, events, l, ticket, p);
  }

  lemma HeldLater(trace: seq<State>, events: seq<Option<Event>>, k: nat, i: nat, ticket: Ticket, p: int)
    requires IsHistory(trace, events) && k < i < |trace|
    requires Holds(trace[k], ticket, p) && OutstandingSince(trace, k, i, ticket)
    ensures Holds(trace[i], ticket, p)
  {
    HoldsExact(trace, events, k, ticket, p);
    var j :| 0 <= j < k && Takes(trace, events, j, ticket, p) && OutstandingSince(trace, j, k, ticket);
    assert OutstandingSince(trace, j, i, ticket);
    HoldsExact(trace, events, i, ticket, p);
  }

  /** One ticket of an allocator takes the port that another holds, as the first gap that its scan sees. */
  ghost predicate Doubles(s: State, e: Event, t: Ticket, u: Ticket, p: int) {
    && e.Reserve? && FirstGap(s, p)
    && ((s.lock.value.ticket == t && Holds(s, u, p)) || (s.lock.value.ticket == u && Holds(s, t, p)))
  }

  /** Over every run of one allocator, foreign releases included: two outstanding reservations share a port if and
      only if one of them took it while the other held it, and both have been outstanding since. */
  lemma DoubledExact(trace: seq<State>, events: seq<Event>, i: nat, t: Ticket, u: Ticket, p: int)
    requires IsRun(trace, events) && i < |trace| && t != u
    ensures Holds(trace[i], t, p) && Holds(trace[i], u, p)
            <==> exists k :: 0 <= k < i && Doubles(trace[k], events[k], t, u, p)
                             && forall l :: k < l <= i ==> t in trace[l].outstanding && u in trace[l].outstanding
  {
    var history := seq(|events|, k requires 0 <= k < |events| => Some(events[k]));
    forall k | 0 <= k < |events| ensures HistoryAt(trace, history, k) {}
    BothHoldExact(trace, history, trace, history, i, t, u, p);
    forall k | 0 <= k < i
      ensures Doubles(trace[k], events[k], t, u, p)
              <==> || (Takes(trace, history, k, t, p) && Holds(trace[k], u, p))
                   || (Takes(trace, history, k, u, p) && Holds(trace[k], t, p))
      ensures OutstandingSince(trace, k, i, t) && OutstandingSince(trace, k, i, u)
              <==> forall l :: k < l <= i ==> t in trace[l].outstanding && u in trace[l].outstanding
    {}
  }

  // ---- two allocators ----

  /** The program runs two, each with reservations of its own: a set in memory and a database table. */
  datatype Both = Both(memory: State, table: State)
  datatype Side = Memory | Table
  datatype Step = Step(side: Side, event: Event)

  function Of(b: Both, side: Side): State { if side.Memory? then b.memory else b.table }

  function NextBoth(b: Both, step: Step): Both
    requires Enabled(Of(b, step.side), step.event)
  {
    var after := Next(Of(b, step.side), step.event);
    if step.side.Memory? then b.(memory := after) else b.(table := after)
  }

  ghost predicate IsRunOfBoth(trace: seq<Both>, steps: seq<Step>) {
    && |trace| == |steps| + 1
    && (forall side :: Of(trace[0], side).lock.None? && Of(trace[0], side).outstanding == map[])
    && forall i :: 0 <= i < |steps| ==>
         Enabled(Of(trace[i], steps[i].side), steps[i].event) && trace[i + 1] == NextBoth(trace[i], steps[i])
  }

  /** Both managers have handed out port `p`. */
  predicate Shared(b: Both, t: Ticket, u: Ticket, p: int) { Holds(b.memory, t, p) && Holds(b.table, u, p) }

  /** One manager reserves the port that the other holds, being the first gap that it sees itself. */
  ghost predicate Collides(b: Both, step: Step, t: Ticket, u: Ticket, p: int) {
    && step.event.Reserve? && FirstGap(Of(b, step.side), p)
    && if step.side.Memory? then b.memory.lock.value.ticket == t && Holds(b.table, u, p)
       else b.table.lock.value.ticket == u && Holds(b.memory, t, p)
  }

  function Part(trace: seq<Both>, side: Side): (r: seq<State>)
    ensures |r| == |trace| && forall i :: 0 <= i < |r| ==> r[i] == Of(trace[i], side)
  {
    seq(|trace|, i requires 0 <= i < |trace| => Of(trace[i], side))
  }

  function PartOf(steps: seq<Step>, side: Side): (r: seq<Option<Event>>)
    ensures |r| == |steps|
    ensures forall i :: 0 <= i < |r| ==> r[i] == if steps[i].side == side then Some(steps[i].event) else None
  {
    seq(|steps|, i requires 0 <= i < |steps| => if steps[i].side == side then Some(steps[i].event) else None)
  }

  lemma PartIsHistory(trace: seq<Both>, steps: seq<Step>, side: Side)
    requires IsRunOfBoth(trace, steps)
    ensures IsHistory(Part(trace, side), PartOf(steps, side))
  {
    forall i | 0 <= i < |steps| ensures HistoryAt(Part(trace, side), PartOf(steps, side), i) {
      assert trace[i + 1] == NextBoth(trace[i], steps[i]);
    }
  }

  /** Two reservations of the two managers share a port if and only if one manager reserved the port that the other
      held, because it was the first gap in its own snapshot and reservations, and both have been outstanding
      since: nothing but a release ends it. */
  lemma SharedExact(trace: seq<Both>, steps: seq<Step>, i: nat, t: Ticket, u: Ticket, p: int)
    requires IsRunOfBoth(trace, steps) && i < |trace|
    ensures Shared(trace[i], t, u, p)
            <==> exists k :: 0 <= k < i && Collides(trace[k], steps[k], t, u, p)
                             && forall l :: k < l <= i ==>
                                  t in trace[l].memory.outstanding && u in trace[l].table.outstanding
  {
    var a, ea, b, eb := Part(trace, Memory), PartOf(steps, Memory), Part(trace, Table), PartOf(steps, Table);
    PartIsHistory(trace, steps, Memory);
    PartIsHistory(trace, steps, Table);
    BothHoldExact(a, ea, b, eb, i, t, u, p);
    forall k | 0 <= k < i
      ensures Collides(trace[k], steps[k], t, u, p)
              <==> || (Takes(a, ea, k, t, p) && Holds(b[k], u, p))
                   || (Takes(b, eb, k, u, p) && Holds(a[k], t, p))
      ensures OutstandingSince(a, k, i, t) && OutstandingSince(b, k, i, u)
              <==> forall l :: k < l <= i ==> t in trace[l].memory.outstanding && u in trace[l].table.outstanding
    {}
  }

  /** Both managers scan from the same base before Docker shows the first container. */
  lemma SharedExample() returns (trace: seq<Both>, steps: seq<Step>)
    ensures IsRunOfBoth(trace, steps) && |trace| == 5 && Shared(trace[4], 1, 2, 6100)
  {
    var one, two := TakeSnapshot(Scan(1, 6100, {})), TakeSnapshot(Scan(2, 6100, {}));
    steps := [Step(Memory, one), Step(Memory, Reserve), Step(Table, two), Step(Table, Reserve)];
    var idle := State({}, None, map[]);
    var b0 := Both(idle, idle);
    var b1 := NextBoth(b0, steps[0]);
    var b2 := NextBoth(b1, steps[1]);
    var b3 := NextBoth(b2, steps[2]);
    var b4 := NextBoth(b3, steps[3]);
    trace := [b0, b1, b2, b3, b4];
    HoldsNext(b1.memory, Reserve, 1, 6100);
    HoldsNext(b3.table, Reserve, 2, 6100);
  }

  /** The allocator of the synchronous manager; the port snapshot is an input. */
  class DockerManager {
    var reservedPorts: set<int>

    constructor ()
      ensures reservedPorts == {}
    {
      reservedPorts := {};
    }

    method AllocatePort(base: int, usedPorts: set<int>) returns (port: Option<int>)
      modifies this
      ensures port == FindAvailable(base, usedPorts + old(reservedPorts))
      ensures reservedPorts == if port.Some? then old(reservedPorts) + {port.value} else old(reservedPorts)
    {
      var used := usedPorts + reservedPorts;
      port := ScanPorts(base, used);
      if port.Some? {
        reservedPorts := reservedPorts + {port.value};
      }
    }

    method ReleasePort(port: int)
      modifies this
      ensures reservedPorts == old(reservedPorts) - {port}
    {
      reservedPorts := reservedPorts - {port};
    }
  }

  /** The allocator of the asynchronous manager keeps its reservations in a table with time stamps. */
  class AsyncDockerManager {
    var reservedPorts: map<int, int>

    constructor ()
      ensures reservedPorts == map[]
    {
      reservedPorts := map[];
    }

    method AllocatePort(base: int, usedPorts: set<int>, now: int) returns (port: Option<int>)
      modifies this
      ensures port == FindAvailable(base, usedPorts + old(reservedPorts).Keys)
      ensures reservedPorts == if port.Some? then old(reservedPorts)[port.value := now] else old(reservedPorts)
    {
      var used := usedPorts + reservedPorts.Keys;
      port := ScanPorts(base, used);
      if port.Some? {
        reservedPorts := reservedPorts[port.value := now];
      }
    }

    method ReleasePort(port: int)
      modifies this
      ensures reservedPorts == old(reservedPorts) - {port}
    {
      reservedPorts := reservedPorts - {port};
    }
  }
}
