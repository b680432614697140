/** Writing the operation log: a ten-entry buffer in front of a table, flushed with one retry. */
module OperationLog {
  import opened Common

  const BUFFER_SIZE := 10

  /** A payload value; truth values are the numbers 0 and 1, which Python's comparisons do not tell apart, and
      dictionaries and lists are kept as their JSON text. */
  datatype Value = Str(s: string) | Num(n: int) | Null | Nested(json: string)

  /** One log entry, which is also one table row. */
  datatype Entry = Entry(
    id: string, kind: string, level: string, time: string, timestamp: int,
    operatorName: Value, operatorUuid: Value, operatorIp: Value, payload: map<string, Value>)

  type Payload = map<string, Value>

  function PayloadValue(payload: Payload, key: string): Value { if key in payload then payload[key] else Null }

  function MakeEntry(id: string, kind: string, level: string, time: string, timestamp: int, payload: Payload): Entry {
    Entry(id, kind, level, time, timestamp,
          PayloadValue(payload, "operator_name"), PayloadValue(payload, "operator_uuid"),
          PayloadValue(payload, "operator_ip"), payload)
  }

  // ---- writing ----

  predicate HasId(table: seq<Entry>, id: string) { exists i :: 0 <= i < |table| && table[i].id == id }

  function InsertOrIgnore(table: seq<Entry>, e: Entry): seq<Entry> { if HasId(table, e.id) then table else table + [e] }

  function InsertAll(table: seq<Entry>, entries: seq<Entry>): seq<Entry> {
    if entries == [] then table
    else InsertOrIgnore(InsertAll(table, entries[..|entries| - 1]), entries[|entries| - 1])
  }

  /** An attempt to write a snapshot: statement `k` raises when `fault == Some(k)`; what went before stays. */
  type Fault = Option<nat>

  function Attempt(table: seq<Entry>, snapshot: seq<Entry>, fault: Fault): (seq<Entry>, bool) {
    if fault.Some? && fault.value < |snapshot| then (InsertAll(table, snapshot[..fault.value]), false)
    else (InsertAll(table, snapshot), true)
  }

  /** `log` and `evicted` are the history: what was ever logged and what a full buffer dropped. */
  datatype State = State(log: seq<Entry>, buffer: seq<Entry>, table: seq<Entry>, evicted: seq<Entry>, flushFails: nat)

  const INIT := State([], [], [], [], 0)

  function Flush(s: State, first: Fault, second: Fault): State {
    if s.buffer == [] then s
    else
      var (t1, ok1) := Attempt(s.table, s.buffer, first);
      if ok1 then s.(buffer := [], table := t1)
      else
        var (t2, ok2) := Attempt(t1, s.buffer, second);
        if ok2 then s.(buffer := [], table := t2)
        else s.(table := t2, flushFails := s.flushFails + 1)
  }

  /** A full buffer drops its oldest entry. */
  function Append(s: State, e: Entry): State {
    if |s.buffer| < BUFFER_SIZE then s.(log := s.log + [e], buffer := s.buffer + [e])
    else s.(log := s.log + [e], buffer := s.buffer[1..] + [e], evicted := s.evicted + [s.buffer[0]])
  }

  function Log(s: State, e: Entry, first: Fault, second: Fault): State {
    var s' := Append(s, e);
    if |s'.buffer| >= BUFFER_SIZE then Flush(s', first, second) else s'
  }

  datatype Event = Logged(e: Entry, first: Fault, second: Fault) | Flushed(first: Fault, second: Fault)

  /** Entry ids are fresh, and the clock is past 1970. */
  ghost predicate Enabled(s: State, ev: Event) { ev.Logged? ==> !HasId(s.log, ev.e.id) && ev.e.timestamp >= 0 }

  function Next(s: State, ev: Event): State {
    match ev
    case Logged(e, f, g) => Log(s, e, f, g)
    case Flushed(f, g) => Flush(s, f, g)
  }

  ghost predicate IsRun(trace: seq<State>, events: seq<Event>) {
    && |trace| == |events| + 1 && trace[0] == INIT
    && forall i :: 0 <= i < |events| ==> StepAt(trace, events, i)
  }

  ghost predicate StepAt(trace: seq<State>, events: seq<Event>, i: int) {
    && 0 <= i < |events| < |trace|
    && Enabled(trace[i], events[i]) && trace[i + 1] == Next(trace[i], events[i])
  }

  // ---- where entries are ----

  ghost predicate DistinctIds(s: seq<Entry>) { forall i, j :: 0 <= i < j < |s| ==> s[i].id != s[j].id }

  ghost function Entries(s: State): set<Entry> { (set e | e in s.buffer) + (set e | e in s.table) }

  /** The buffer is the end of the log; every older entry is in the table or was evicted; no id is stored
      twice; what was evicted is no longer buffered. */
  ghost predicate Placed(s: State) {
    && DistinctIds(s.log) && DistinctIds(s.table)
    && |s.buffer| <= BUFFER_SIZE
    && |s.buffer| <= |s.log| && s.buffer == s.log[|s.log| - |s.buffer|..]
    && (forall e :: e in s.table || e in s.evicted ==> e in s.log)
    && (forall e :: e in s.evicted ==> e !in s.buffer)
    && (forall e :: e in s.log ==> e.timestamp >= 0)
    && (forall i :: 0 <= i < |s.log| - |s.buffer| ==> s.log[i] in s.table || s.log[i] in s.evicted)
  }

  /** Every eviction was paid for by a flush that failed for good; a full buffer is one more such failure. */
  ghost predicate Counted(s: State) {
    |s.evicted| + (if |s.buffer| == BUFFER_SIZE then 1 else 0) <= s.flushFails
  }

  lemma {:induction false} InsertAllKeeps(table: seq<Entry>, entries: seq<Entry>, all: seq<Entry>)
    requires DistinctIds(all) && DistinctIds(table)
    requires forall e :: e in table || e in entries ==> e in all
    ensures DistinctIds(InsertAll(table, entries))
    ensures forall e :: e in InsertAll(table, entries) <==> e in table || e in entries
  {
    if entries != [] {
      var init, last := entries[..|entries| - 1], entries[|entries| - 1];
      assert entries == init + [last];
      InsertAllKeeps(table, init, all);
      var t := InsertAll(table, init);
      if HasId(t, last.id) {
        var i :| 0 <= i < |t| && t[i].id == last.id;
        SameId(all, t[i], last);
      }
    }
  }

  lemma SameId(all: seq<Entry>, a: Entry, b: Entry)
    requires DistinctIds(all) && a in all && b in all && a.id == b.id
    ensures a == b
  {
    var i :| 0 <= i < |all| && all[i] == a;
    var j :| 0 <= j < |all| && all[j] == b;
    assert all[i].id == all[j].id;
  }

  lemma AttemptKeeps(table: seq<Entry>, snapshot: seq<Entry>, fault: Fault, all: seq<Entry>)
    requires DistinctIds(all) && DistinctIds(table)
    requires forall e :: e in table || e in snapshot ==> e in all
    ensures var (t, ok) := Attempt(table, snapshot, fault);
            && DistinctIds(t)
            && (forall e :: e in table ==> e in t)
            && (forall e :: e in t ==> e in table || e in snapshot)
            && (ok ==> forall e :: e in snapshot ==> e in t)
  {
    var part := if fault.Some? && fault.value < |snapshot| then snapshot[..fault.value] else snapshot;
    assert forall e :: e in part ==> e in snapshot;
    InsertAllKeeps(table, part, all);
  }

  /** A flush, whether it succeeds, fails part-way or fails for good, neither loses nor invents an entry. */
  lemma FlushConserves(s: State, first: Fault, second: Fault)
    requires Placed(s)
    ensures var s' := Flush(s, first, second);
            && Entries(s') == Entries(s)
            && s'.log == s.log && s'.evicted == s.evicted && DistinctIds(s'.table)
            && (s'.buffer == [] || (s'.buffer == s.buffer && s'.flushFails == s.flushFails + 1))
            && s'.flushFails >= s.flushFails
  {
    if s.buffer != [] {
      assert forall e :: e in s.buffer ==> e in s.log;
      AttemptKeeps(s.table, s.buffer, first, s.log);
      var (t1, ok1) := Attempt(s.table, s.buffer, first);
      if !ok1 {
        AttemptKeeps(t1, s.buffer, second, s.log);
      }
    }
  }

  /** An attempt raises at one of its statements. */
  predicate Raises(s: State, fault: Fault) { fault.Some? && fault.value < |s.buffer| }

  /** A flush empties the buffer unless both its attempts raise; then it keeps it and counts one failure. */
  lemma FlushExact(s: State, first: Fault, second: Fault)
    ensures var s', failed := Flush(s, first, second), Raises(s, first) && Raises(s, second);
            && s'.buffer == (if failed then s.buffer else [])
            && s'.flushFails == s.flushFails + (if failed then 1 else 0)
  {}

  lemma FlushPlaces(s: State, first: Fault, second: Fault)
    requires Placed(s) && |s.evicted| <= s.flushFails
    ensures Placed(Flush(s, first, second)) && Counted(Flush(s, first, second))
  {
    var s' := Flush(s, first, second);
    FlushConserves(s, first, second);
    forall e | e in s'.table ensures e in s'.log { assert e in Entries(s'); }
    forall i | 0 <= i < |s'.log| - |s'.buffer| ensures s'.log[i] in s'.table || s'.log[i] in s'.evicted {
      OlderPlaced(s, s', i);
    }
  }

  lemma OlderPlaced(s: State, s': State, i: nat)
    requires Placed(s) && Entries(s') == Entries(s) && s'.buffer in [[], s.buffer] && i < |s.log| - |s'.buffer|
    ensures s.log[i] in s'.table || s.log[i] in s.evicted
  {
    if s.log[i] !in s.evicted {
      if i >= |s.log| - |s.buffer| { assert s.log[i] == s.buffer[i - (|s.log| - |s.buffer|)]; }
      assert s.log[i] in Entries(s) && s.log[i] in Entries(s');
      if s'.buffer == s.buffer && s.log[i] in s.buffer { NotTwice(s, i); }
    }
  }

  /** An entry before the buffer does not occur in the buffer. */
  lemma NotTwice(s: State, i: nat)
    requires Placed(s) && i < |s.log| - |s.buffer|
    ensures s.log[i] !in s.buffer
  {
    forall k | 0 <= k < |s.buffer| ensures s.buffer[k] != s.log[i] {
      assert s.log[|s.log| - |s.buffer| + k].id != s.log[i].id;
    }
  }

  lemma BufferDistinct(s: State)
    requires Placed(s)
    ensures DistinctIds(s.buffer) && forall e :: e in s.buffer ==> e in s.log
  {
    var n := |s.log| - |s.buffer|;
    forall i, j | 0 <= i < j < |s.buffer| ensures s.buffer[i].id != s.buffer[j].id {
      assert s.log[n + i].id != s.log[n + j].id;
    }
  }

  /** The tail of a full buffer no longer has its oldest entry. */
  lemma TailGone(s: State)
    requires Placed(s) && s.buffer != []
    ensures s.buffer[0] !in s.buffer[1..] && forall x :: x in s.buffer[1..] ==> x in s.buffer
  {
    BufferDistinct(s);
    forall k | 0 <= k < |s.buffer[1..]| ensures s.buffer[1..][k] != s.buffer[0] && s.buffer[1..][k] in s.buffer {
      assert s.buffer[k + 1].id != s.buffer[0].id;
    }
  }

  /** An append to a full buffer evicts its oldest entry; any other append evicts nothing. */
  lemma AppendPlaces(s: State, e: Entry)
    requires Placed(s) && Counted(s) && !HasId(s.log, e.id) && e.timestamp >= 0
    ensures Placed(Append(s, e)) && |Append(s, e).evicted| <= s.flushFails
    ensures Append(s, e).evicted != s.evicted <==> |s.buffer| == BUFFER_SIZE
    ensures |s.buffer| == BUFFER_SIZE ==> Append(s, e).evicted == s.evicted + [s.log[|s.log| - BUFFER_SIZE]]
  {
    var s' := Append(s, e);
    assert s'.buffer == s'.log[|s'.log| - |s'.buffer|..];
    assert e !in s.log;
    forall i | 0 <= i < |s'.log| - |s'.buffer| ensures s'.log[i] in s'.table || s'.log[i] in s'.evicted {
      if i < |s.log| - |s.buffer| {
        assert s'.log[i] == s.log[i];
      } else {
        assert s'.log[i] == s.buffer[0] && s'.evicted[|s.evicted|] == s.buffer[0];
      }
    }
    if |s.buffer| == BUFFER_SIZE {
      TailGone(s);
      assert |s'.evicted| == |s.evicted| + 1;
    }
    forall x | x in s'.evicted ensures x !in s'.buffer {
      assert x in s.evicted || x == s.buffer[0];
    }
  }

  lemma {:induction false} Conserved(trace: seq<State>, events: seq<Event>, i: nat)
    requires IsRun(trace, events) && i < |trace|
    ensures Placed(trace[i]) && Counted(trace[i])
  {
    if i > 0 {
      Conserved(trace, events, i - 1);
      assert StepAt(trace, events, i - 1);
      var s, ev := trace[i - 1], events[i - 1];
      match ev
      case Flushed(f, g) => FlushPlaces(s, f, g);
      case Logged(e, f, g) =>
        AppendPlaces(s, e);
        var s' := Append(s, e);
        if |s'.buffer| >= BUFFER_SIZE { FlushPlaces(s', f, g); }
    }
  }

  /** In every reachable state an entry that was logged is in the buffer, in the table or among the evicted,
      the evicted are at most as many as the flushes that failed for good, and without such a failure the
      buffer and the table hold the whole log. */
  lemma NothingLostUnseen(trace: seq<State>, events: seq<Event>, i: nat, e: Entry)
    requires IsRun(trace, events) && i < |trace| && e in trace[i].log
    ensures e in trace[i].buffer || e in trace[i].table || e in trace[i].evicted
    ensures |trace[i].evicted| <= trace[i].flushFails
    ensures trace[i].flushFails == 0 ==> e in Entries(trace[i])
  {
    Conserved(trace, events, i);
    WhereIs(trace[i], e);
  }

  lemma WhereIs(s: State, e: Entry)
    requires Placed(s) && Counted(s) && e in s.log
    ensures e in s.buffer || e in s.table || e in s.evicted
    ensures s.flushFails == 0 ==> s.evicted == [] && e in Entries(s)
  {
    var k :| 0 <= k < |s.log| && s.log[k] == e;
    if k >= |s.log| - |s.buffer| { assert s.buffer[k - (|s.log| - |s.buffer|)] == e; }
  }

  // ---- when an entry is lost ----

  /** One attempt over `buffer` gets as far as storing `e`: its fault, if any, comes after the position of `e`. */
  ghost predicate Reaches(buffer: seq<Entry>, e: Entry, fault: Fault) {
    exists p :: 0 <= p < |buffer| && buffer[p] == e && (fault.None? || fault.value > p)
  }

  /** The flush of a step, if it has one, stores `e` in one of its two attempts. */
  ghost predicate Stores(s: State, ev: Event, e: Entry) {
    match ev
    case Flushed(f, g) => Reaches(s.buffer, e, f) || Reaches(s.buffer, e, g)
    case Logged(x, f, g) =>
      var full := Append(s, x).buffer;
      |full| >= BUFFER_SIZE && (Reaches(full, e, f) || Reaches(full, e, g))
  }

  lemma AttemptExact(table: seq<Entry>, snapshot: seq<Entry>, fault: Fault, all: seq<Entry>, e: Entry)
    requires DistinctIds(all) && DistinctIds(table)
    requires forall x :: x in table || x in snapshot ==> x in all
    ensures e in Attempt(table, snapshot, fault).0 <==> e in table || Reaches(snapshot, e, fault)
    ensures Attempt(table, snapshot, fault).1 ==> forall x :: x in snapshot ==> Reaches(snapshot, x, fault)
  {
    var part := if fault.Some? && fault.value < |snapshot| then snapshot[..fault.value] else snapshot;
    assert forall x :: x in part ==> x in snapshot;
    InsertAllKeeps(table, part, all);
    if e in part {
      var p :| 0 <= p < |part| && part[p] == e;
      assert snapshot[p] == e;
    }
    if Reaches(snapshot, e, fault) {
      var p :| 0 <= p < |snapshot| && snapshot[p] == e && (fault.None? || fault.value > p);
      assert part[p] == e;
    }
  }

  /** A flush writes an entry exactly if one of its attempts gets past it. */
  lemma WrittenExact(s: State, first: Fault, second: Fault, e: Entry)
    requires Placed(s)
    ensures e in Flush(s, first, second).table
            <==> e in s.table || Reaches(s.buffer, e, first) || Reaches(s.buffer, e, second)
  {
    if s.buffer != [] {
      assert forall x :: x in s.buffer ==> x in s.log;
      AttemptExact(s.table, s.buffer, first, s.log, e);
      AttemptKeeps(s.table, s.buffer, first, s.log);
      var (t1, ok1) := Attempt(s.table, s.buffer, first);
      if !ok1 { AttemptExact(t1, s.buffer, second, s.log, e); }
    }
  }

  lemma StoredStep(s: State, ev: Event, e: Entry)
    requires Placed(s) && Counted(s) && Enabled(s, ev)
    ensures e in Next(s, ev).table <==> e in s.table || Stores(s, ev, e)
  {
    match ev
    case Flushed(f, g) => WrittenExact(s, f, g, e);
    case Logged(x, f, g) =>
      AppendPlaces(s, x);
      if |Append(s, x).buffer| >= BUFFER_SIZE { WrittenExact(Append(s, x), f, g, e); }
  }

  lemma {:induction false} StoredExact(trace: seq<State>, events: seq<Event>, i: nat, e: Entry)
    requires IsRun(trace, events) && i < |trace|
    ensures e in trace[i].table <==> exists k :: 0 <= k < i && Stores(trace[k], events[k], e)
  {
    if i > 0 {
      StoredExact(trace, events, i - 1, e);
      Conserved(trace, events, i - 1);
      assert StepAt(trace, events, i - 1);
      StoredStep(trace[i - 1], events[i - 1], e);
    }
  }

  /** A logged entry is lost, neither buffered nor stored, if and only if it was evicted and in every flush so
      far that had it in the buffer both attempts failed at or before its position. */
  lemma LostExact(trace: seq<State>, events: seq<Event>, i: nat, e: Entry)
    requires IsRun(trace, events) && i < |trace| && e in trace[i].log
    ensures e !in trace[i].buffer && e !in trace[i].table
            <==> e in trace[i].evicted && forall k :: 0 <= k < i ==> !Stores(trace[k], events[k], e)
  {
    Conserved(trace, events, i);
    WhereIs(trace[i], e);
    StoredExact(trace, events, i, e);
  }

  function Nth(k: nat): Entry { MakeEntry(seq(k, _ => 'x'), "t", "info", "", 0, map[]) }

  function FirstNth(n: nat): (r: seq<Entry>)
    ensures |r| == n && forall k :: 0 <= k < n ==> r[k] == Nth(k)
  {
    if n == 0 then [] else FirstNth(n - 1) + [Nth(n - 1)]
  }

  lemma NthIds(i: nat, j: nat)
    requires i != j
    ensures Nth(i).id != Nth(j).id
  {
    assert |Nth(i).id| == i && |Nth(j).id| == j;
  }

  /** Every flush fails twice on its first row. */
  function Failing(n: nat): State {
    if n == 0 then INIT else Log(Failing(n - 1), Nth(n - 1), Some(0), Some(0))
  }

  lemma {:induction false} FailingFills(n: nat)
    requires n <= BUFFER_SIZE
    ensures Failing(n) == State(FirstNth(n), FirstNth(n), [], [], if n == BUFFER_SIZE then 1 else 0)
  {
    if n > 0 {
      FailingFills(n - 1);
      NothingWritten(FirstNth(n));
    }
  }

  lemma FailingEvicts()
    ensures var s := Failing(11);
            && s.log == FirstNth(11) && s.buffer == FirstNth(11)[1..] && s.table == [] && s.evicted == [Nth(0)]
  {
    FailingFills(10);
    NothingWritten(FirstNth(11)[1..]);
    assert FirstNth(11) == FirstNth(10) + [Nth(10)];
    assert FirstNth(11)[1..] == FirstNth(10)[1..] + [Nth(10)];
  }

  lemma NothingWritten(buffer: seq<Entry>)
    requires buffer != []
    ensures Attempt([], buffer, Some(0)) == ([], false)
  {
    assert buffer[..0] == [];
  }

  lemma FailingEnabled(k: nat)
    requires k < 11
    ensures Enabled(Failing(k), Logged(Nth(k), Some(0), Some(0)))
  {
    FailingFills(k);
    forall i | 0 <= i < k ensures FirstNth(k)[i].id != Nth(k).id { NthIds(i, k); }
  }

  lemma FailingRun() returns (trace: seq<State>, events: seq<Event>)
    ensures IsRun(trace, events) && |trace| == 12 && trace[11] == Failing(11)
  {
    trace := seq(12, i requires 0 <= i < 12 => Failing(i));
    events := seq(11, i requires 0 <= i < 11 => Logged(Nth(i), Some(0), Some(0)));
    assert trace[0] == Failing(0) == INIT;
    forall k | 0 <= k < 11 ensures StepAt(trace, events, k) {
      FailingEnabled(k);
      FailingNext(k);
      assert events[k] == Logged(Nth(k), Some(0), Some(0)) && trace[k] == Failing(k) && trace[k + 1] == Failing(k + 1);
    }
  }

  lemma FailingNext(k: nat)
    ensures Failing(k + 1) == Next(Failing(k), Logged(Nth(k), Some(0), Some(0)))
  {}

  /** Eleven entries logged while the database refuses everything: the first is neither buffered nor stored. */
  lemma LossExample() returns (trace: seq<State>, events: seq<Event>)
    ensures IsRun(trace, events) && |trace| == 12 && Nth(0) in trace[11].log
    ensures Nth(0) !in trace[11].buffer && Nth(0) !in trace[11].table && trace[11].evicted == [Nth(0)]
  {
    trace, events := FailingRun();
    FailingEvicts();
    assert FirstNth(11)[0] == Nth(0);
    forall k | 0 <= k < 10 ensures FirstNth(11)[1..][k] != Nth(0) { NthIds(k + 1, 0); }
  }
}
